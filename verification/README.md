# TodoMVC (jQuery) task list, modelled in Dafny

This project models the task-list state of the application object `App` in
`public/js/app.js`. That state is an ordered list of todo records
`{id, title, completed}` plus a view filter taken from the URL route. The
model covers:

- the derived views (active, completed, filtered);
- the data that `render` and `renderFooter` compute from the state;
- the event handlers that change the list;
- the two pure helpers of `util`, `uuid` and `pluralize`;
- the string trimming the handlers apply to user input.

There are three files:

- `text.dfy`, module `JsText`: `String.prototype.trim` as removing whitespace
  from both ends. The whitespace set is the ECMAScript white-space and
  line-terminator code points.
- `util.dfy`, module `Util`: `uuid` as a method with the same loop as the
  source. Its 32 random draws are a parameter. It is proved equal to a
  round-by-round specification function, and the result is proved to have the
  8-4-4-4-12 layout of a version-4 UUID. `pluralize` is a function.
- `app.dfy`, module `TodoApp`: the `Todo` datatype, the views as functions over
  the list, the lookup by id, and the class `App`. Its fields are `todos`, a
  sequence the handlers reassign; `filter`; and `saved`, the storage slot
  `todos-jquery`. Each handler is a method. Instead of a DOM event, it takes
  the values the event carries:
  - a key code and the field text for `create`;
  - an id for `toggle` and `destroy`;
  - the checkbox state for `toggleAll`;
  - an id, the field text and the Escape ("abort") flag for `update`.

Each handler ends by saving the whole, unfiltered list, as the source does.
Three properties are stated across the handlers:

- Every mutating handler keeps the invariant that every title is non-empty and
  trimmed (`AllTitled`).
- `ToggleTwice` proves that toggling the same id twice restores the list.
- `SelectSplit` proves that the active and completed views split the list.
  The footer's "completed = total - active" arithmetic relies on this.

An unknown id is not a no-op in the code:

- `indexFromEl` returns `undefined`;
- `toggle` then throws;
- `destroy` then calls `splice(undefined, 1)`, which removes the first todo.

The model follows the code's lookup: `IndexOfId` returns `None`. The handlers
that look an id up require it to be present. `Update` requires this only on
the two paths that do a lookup, so an aborted edit of an unknown todo is
allowed.

## Model

| member | source | states |
|---|---|---|
| `JsText.Trim` | public/js/app.js:192 | the result is trimmed; it is the run of the input that starts after the leading whitespace, with only whitespace after it; it is empty exactly when the input is all whitespace |
| `JsText.LeadingWhitespace` | public/js/app.js:192 | the count covers exactly the whitespace run at the front: every counted character is whitespace and the next one is not |
| `JsText.TrailingWhitespace` | public/js/app.js:192 | the count covers exactly the whitespace run at the back: every counted character is whitespace and the one before it is not |
| `JsText.TrimBounds` | public/js/app.js:236 | between the leading and the trailing whitespace lies a trimmed run, only whitespace surrounds it, and it is empty exactly when the whole input is whitespace |
| `JsText.TrimOfTrimmed` | public/js/app.js:192 | a string with no whitespace at either end is left unchanged by trimming |
| `JsText.TrimIdempotent` | public/js/app.js:236 | trimming an already trimmed value changes nothing |
| `Util.HexDigit` | public/js/app.js:40 | `toString(16)` of a value 0..15 is a lower-case hexadecimal digit with that value |
| `Util.HexDigitInjective` | public/js/app.js:40 | different values give different digits |
| `Util.VariantNibble` | public/js/app.js:40 | `random & 3 | 8` lies in 8..11 and keeps the draw's low two bits |
| `Util.UuidPrefixLength` | public/js/app.js:32-42 | after n rounds the string holds n digits plus the dashes written so far |
| `Util.UuidPrefixGrows` | public/js/app.js:32-42 | later rounds only append, so what an earlier round wrote is never changed |
| `Util.UuidDigitAt` | public/js/app.js:36-40 | round k writes its digit (4 at round 12, the variant digit at round 16, the draw elsewhere) at its final position, preceded by a dash at rounds 8, 12, 16 and 20 |
| `Util.UuidShape` | public/js/app.js:32-44 | the identifier has 36 characters, with dashes at 8, 13, 18 and 23, '4' at 14, one of 8/9/a/b at 19 and lower-case hex digits elsewhere |
| `Util.UuidKeepsDraws` | public/js/app.js:34-40 | every draw except 12 and 16 appears as its own hex digit at its position in the identifier |
| `Util.Uuid` | public/js/app.js:24-46 | the loop builds exactly the round-by-round identifier of the draws, and it has the version-4 layout |
| `Util.Pluralize` | public/js/app.js:47-50 | the word is kept as a prefix; an `s` is appended exactly when the count is not 1, zero included |
| `TodoApp.Select` | public/js/app.js:142-153 | the selection behind `getActiveTodos` (`ActiveTodos`, flag false) and `getCompletedTodos` (`CompletedTodos`, flag true): it is no longer than the list and every selected todo has the requested completed flag |
| `TodoApp.SelectContains` | public/js/app.js:142-153 | a todo is selected exactly when it is in the list with the requested flag |
| `TodoApp.SelectIsSubsequence` | public/js/app.js:144-153 | the active and completed views are subsequences of the list, so filtering never reorders |
| `TodoApp.SubsequenceReflexive` | public/js/app.js:165 | the whole list is a subsequence of itself, which is the view for any other filter |
| `TodoApp.SelectAppend` | public/js/app.js:144-146 | selecting from a concatenation concatenates the selections, so an appended todo lands at the end of its view |
| `TodoApp.SelectSplit` | public/js/app.js:110-119 | the active and completed views together hold every todo exactly once (as multisets), and their lengths sum to the list's length |
| `TodoApp.SelectEmpty` | public/js/app.js:104 | a view is empty exactly when every todo has the other flag |
| `TodoApp.FilteredTodos` | public/js/app.js:154-167 | the result is exactly the active list for `active` and exactly the completed list for `completed`; it is a subsequence of the list holding exactly the todos the filter shows (only active ones for `active`, only completed ones for `completed`); any other filter string gives the whole list |
| `TodoApp.RenderFooter` | public/js/app.js:109-123 | the footer counts the active todos, its word is `item` for exactly one and `items` otherwise, its "completed" number (total minus active) equals the number of completed todos, and it passes the filter on |
| `TodoApp.Render` | public/js/app.js:96-125 | render shows the filtered list; the main section is shown exactly when the filter lets some todo through; toggle-all is ticked exactly when every todo is completed; the footer is shown exactly when the list is non-empty |
| `TodoApp.LastIndexOf` | public/js/app.js:177-189 | the lookup result is an index holding the id with no later index holding it, and it is `None` exactly when no todo has the id |
| `TodoApp.SameIdsSameIndex` | public/js/app.js:182-188 | two lists with the same ids at the same places give the same lookup result |
| `TodoApp.FlipAt` | public/js/app.js:211 | only the completed flag at the index changes; the id, the title and every other todo stay as they were |
| `TodoApp.ToggleTwice` | public/js/app.js:208-211 | the second toggle of an id finds the same index, and toggling it twice restores the list |
| `TodoApp.DestroyRemovesId` | public/js/app.js:252-253 | with unique ids, the id is gone from the list after its todo is spliced out |
| `TodoApp.App.IndexOfId` | public/js/app.js:177-189 | the backward scan returns the highest index whose id matches, or `None` when the loop runs out |
| `TodoApp.App.constructor` | public/js/app.js:62-75 | the list is the stored one, or empty when the slot holds nothing; the filter is the initial route; nothing is saved |
| `TodoApp.App.Save` | public/js/app.js:128-130 | the slot then holds the whole, unfiltered list |
| `TodoApp.App.SetFilter` | public/js/app.js:71-73 | the filter becomes the route segment |
| `TodoApp.App.Create` | public/js/app.js:190-207 | nothing changes unless the key is Enter and the trimmed input is non-empty; otherwise exactly one active todo is appended, with the trimmed input as its title and the generated id; earlier todos and the filter are unchanged; the list is saved; titles stay non-empty and trimmed |
| `TodoApp.App.Toggle` | public/js/app.js:208-216 | only the completed flag of the todo found for the id is flipped; the list is saved |
| `TodoApp.App.ToggleAll` | public/js/app.js:131-141 | every flag becomes the checkbox state, with length, order, ids and titles kept; afterwards there are no active todos when it was ticked and no completed ones when it was cleared |
| `TodoApp.App.DestroyCompleted` | public/js/app.js:168-174 | the list becomes exactly the previously active todos, in their order; the filter becomes `all`; the list is saved |
| `TodoApp.RemoveAt` | public/js/app.js:253 | `splice(i, 1)` shortens the list by one, keeps the todos before `i` and shifts the ones after it down by one |
| `TodoApp.SpliceRemovesOne` | public/js/app.js:253 | as multisets, the spliced list is the list minus exactly the todo at the index |
| `TodoApp.RetitleAt` | public/js/app.js:246 | only the title at the index changes, to the new value; its id, its flag and every other todo stay as they were |
| `TodoApp.TitledAfterReplace` | public/js/app.js:211 | replacing a todo by one with a non-empty trimmed title keeps every title non-empty and trimmed |
| `TodoApp.TitledAfterAppend` | public/js/app.js:198-202 | appending a todo with a non-empty trimmed title keeps every title non-empty and trimmed |
| `TodoApp.TitledAfterRemove` | public/js/app.js:253 | removing a todo keeps every title non-empty and trimmed |
| `TodoApp.App.Destroy` | public/js/app.js:252-256 | the list becomes the old list spliced at the found index (one todo fewer, the rest in their order); the filter is unchanged; the list is saved; titles stay non-empty and trimmed |
| `TodoApp.App.Update` | public/js/app.js:233-251 | an empty trimmed value deletes the todo even when the abort flag is set, and leaves the flag as it was; otherwise a set flag leaves the list alone and is cleared; otherwise the found todo's title becomes the trimmed value; the list is saved in each case |

## Left out

- DOM work: `render`'s HTML output, the show/hide toggles, `.focus()`/`.blur()`, clearing the new-todo field after a create, and the `editing` class. `Render` and `RenderFooter` keep only the values these are computed from.
- `bindEvents`, `switchToEditMode` and `editKeyup`: these are DOM wiring. The Enter and Escape handling of the edit field only ends up calling `update`. The `abort` flag it leaves on the element is a parameter and a result of `Update`.
- Handlebars template compilation and the `eq` helper: these are calls into a library.
- The director.js router: the initial route is a parameter of the constructor, and later routes go through `SetFilter`.
- `localStorage` and JSON: the slot is the field `saved`, and serialising is taken to be the identity. Parse failures and storage exceptions are not modelled.
- `Math.random`: `Uuid` takes the 32 draws as input.
- Object identity: todos are values. The JavaScript views return arrays that share todo objects with `todos`, so that aliasing is not captured.
- An unknown id: the handlers that look one up require it to be present (see above). The exception in `toggle` and the removal of the first todo in `destroy` are not modelled.
- The `debugger;` statement.
