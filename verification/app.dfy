/** The task list of the application object `App`: an ordered list of todo records and the
    current view filter, the views derived from them, the data each render computes, and
    the event handlers that change the list. Each handler takes the plain values its DOM
    event carries (a key code, the input text, a todo's id, a checkbox state). */
module TodoApp {
  import opened JsText
  import Util

  datatype Option<T> = None | Some(value: T)

  /** One task: `{id, title, completed}`. */
  datatype Todo = Todo(id: string, title: string, completed: bool)

  /** The key code that commits a new todo. */
  const EnterKey: int := 13

  // ---------------------------------------------------------------------------
  // Derived views

  /** The todos of `s` whose completed flag is `done`, in list order. */
  function Select(s: seq<Todo>, done: bool): (r: seq<Todo>)
    ensures |r| <= |s|
    ensures forall k :: 0 <= k < |r| ==> r[k].completed == done
  {
    if s == [] then []
    else if s[0].completed == done then [s[0]] + Select(s[1..], done)
    else Select(s[1..], done)
  }

  /** `getActiveTodos`: the todos not yet completed. */
  function ActiveTodos(s: seq<Todo>): seq<Todo> {
    Select(s, false)
  }

  /** `getCompletedTodos`: the completed todos. */
  function CompletedTodos(s: seq<Todo>): seq<Todo> {
    Select(s, true)
  }

  /** A todo is selected exactly when it is in the list with the flag `done`. */
  lemma {:induction false} SelectContains(s: seq<Todo>, done: bool)
    ensures forall t :: t in Select(s, done) <==> t in s && t.completed == done
  {
    if s != [] {
      SelectContains(s[1..], done);
      assert s == [s[0]] + s[1..];
    }
  }

  /** `r` is `s` with some elements left out and the others in the same order. */
  predicate IsSubsequence(r: seq<Todo>, s: seq<Todo>)
    decreases |s|
  {
    r == [] || (s != [] && if r[0] == s[0] then IsSubsequence(r[1..], s[1..]) else IsSubsequence(r, s[1..]))
  }

  lemma {:induction false} SubsequenceReflexive(s: seq<Todo>)
    ensures IsSubsequence(s, s)
  {
    if s != [] {
      SubsequenceReflexive(s[1..]);
    }
  }

  /** Selecting never reorders: a selection is a subsequence of the list. */
  lemma {:induction false} SelectIsSubsequence(s: seq<Todo>, done: bool)
    ensures IsSubsequence(Select(s, done), s)
  {
    if s != [] {
      SelectIsSubsequence(s[1..], done);
      var r := Select(s, done);
      if s[0].completed != done && r != [] {
        assert r[0].completed == done;
      }
    }
  }

  /** Selecting from a concatenation is concatenating the selections. */
  lemma {:induction false} SelectAppend(a: seq<Todo>, b: seq<Todo>, done: bool)
    ensures Select(a + b, done) == Select(a, done) + Select(b, done)
  {
    if a == [] {
      assert a + b == b;
    } else {
      var rest := a[1..] + b;
      assert a + b == [a[0]] + rest;
      SelectAppend(a[1..], b, done);
      if a[0].completed == done {
        assert Select(a + b, done) == [a[0]] + Select(rest, done);
      } else {
        assert Select(a + b, done) == Select(rest, done);
      }
    }
  }

  /** The active and the completed todos split the list: together they hold every todo
      once, so their lengths add up to the length of the list. */
  lemma {:induction false} SelectSplit(s: seq<Todo>)
    ensures multiset(ActiveTodos(s)) + multiset(CompletedTodos(s)) == multiset(s)
    ensures |ActiveTodos(s)| + |CompletedTodos(s)| == |s|
  {
    if s != [] {
      SelectSplit(s[1..]);
      assert s == [s[0]] + s[1..];
    }
  }

  /** No todo has the flag `done` exactly when every todo has the other flag. */
  lemma SelectEmpty(s: seq<Todo>, done: bool)
    ensures Select(s, done) == [] <==> forall k :: 0 <= k < |s| ==> s[k].completed != done
  {
    SelectContains(s, done);
    if Select(s, done) == [] {
      forall k | 0 <= k < |s| ensures s[k].completed != done {
        assert s[k] in s;
      }
    } else {
      assert Select(s, done)[0] in s;
    }
  }

  /** Whether the filter `filter` lets the todo `t` through. */
  predicate Shows(filter: string, t: Todo) {
    (filter == "active" ==> !t.completed) && (filter == "completed" ==> t.completed)
  }

  /** `getFilteredTodos`: the todos the current route shows, in list order; a filter other
      than `active` and `completed` shows the whole list. */
  function FilteredTodos(todos: seq<Todo>, filter: string): (r: seq<Todo>)
    ensures IsSubsequence(r, todos)
    ensures forall t :: t in r <==> t in todos && Shows(filter, t)
    ensures filter == "active" ==> r == ActiveTodos(todos)
    ensures filter == "completed" ==> r == CompletedTodos(todos)
    ensures filter != "active" && filter != "completed" ==> r == todos
  {
    if filter == "active" then
      SelectIsSubsequence(todos, false);
      SelectContains(todos, false);
      ActiveTodos(todos)
    else if filter == "completed" then
      SelectIsSubsequence(todos, true);
      SelectContains(todos, true);
      CompletedTodos(todos)
    else
      SubsequenceReflexive(todos);
      todos
  }

  // ---------------------------------------------------------------------------
  // What a render computes from the state

  /** The values `renderFooter` hands to the footer template. */
  datatype Footer = Footer(activeTodoCount: nat, activeTodoWord: string, completedTodos: int, filter: string)

  /** `renderFooter`: the number of active todos with the word `item` made to agree with
      it, the number of completed todos (computed as total minus active), and the filter
      for highlighting the selected link. */
  function RenderFooter(todos: seq<Todo>, filter: string): (f: Footer)
    ensures f.activeTodoCount == |ActiveTodos(todos)|
    ensures f.completedTodos == |CompletedTodos(todos)|
    ensures f.activeTodoWord == if f.activeTodoCount == 1 then "item" else "items"
    ensures f.filter == filter
  {
    var activeTodoCount := |ActiveTodos(todos)|;
    SelectSplit(todos);
    Footer(activeTodoCount, Util.Pluralize(activeTodoCount, "item"), |todos| - activeTodoCount, filter)
  }

  /** What `render` shows: the filtered list, whether the main section is visible, whether
      the toggle-all box is ticked, the footer and whether the footer is visible. */
  datatype View = View(visible: seq<Todo>, mainShown: bool, toggleAllChecked: bool, footer: Footer, footerShown: bool)

  /** `render`: the main section shows when the filter lets at least one todo through; the
      toggle-all box is ticked exactly when every todo is completed (so also for an empty
      list); the footer shows when there is any todo at all. */
  function Render(todos: seq<Todo>, filter: string): (v: View)
    ensures v.visible == FilteredTodos(todos, filter)
    ensures v.mainShown <==> exists t :: t in todos && Shows(filter, t)
    ensures v.toggleAllChecked <==> forall k :: 0 <= k < |todos| ==> todos[k].completed
    ensures v.footerShown <==> todos != []
    ensures v.footer == RenderFooter(todos, filter)
  {
    var visible := FilteredTodos(todos, filter);
    SelectEmpty(todos, false);
    assert visible != [] ==> visible[0] in visible;
    View(visible, |visible| > 0, |ActiveTodos(todos)| == 0, RenderFooter(todos, filter), |todos| > 0)
  }

  // ---------------------------------------------------------------------------
  // Lookup by id

  /** Some todo of `s` has the id `id`. */
  predicate HasId(s: seq<Todo>, id: string) {
    exists k :: 0 <= k < |s| && s[k].id == id
  }

  /** The highest index of `s` holding a todo with id `id`, or `None` when there is none. */
  function LastIndexOf(s: seq<Todo>, id: string): (r: Option<nat>)
    ensures r.Some? ==> r.value < |s| && s[r.value].id == id
    ensures r.Some? ==> forall k :: r.value < k < |s| ==> s[k].id != id
    ensures r.None? <==> !HasId(s, id)
    decreases |s|
  {
    if s == [] then None
    else if s[|s| - 1].id == id then Some(|s| - 1)
    else
      var r := LastIndexOf(s[..|s| - 1], id);
      assert forall k :: 0 <= k < |s| - 1 ==> s[..|s| - 1][k] == s[k];
      r
  }

  /** Lists with the same ids at the same places have the same lookup results. */
  lemma SameIdsSameIndex(s: seq<Todo>, t: seq<Todo>, id: string)
    requires |s| == |t| && forall k :: 0 <= k < |s| ==> s[k].id == t[k].id
    ensures LastIndexOf(s, id) == LastIndexOf(t, id)
  {
    var a, b := LastIndexOf(s, id), LastIndexOf(t, id);
    if a.Some? {
      assert t[a.value].id == id;
    }
    if b.Some? {
      assert s[b.value].id == id;
    }
  }

  /** `s` with the completed flag of the todo at `i` flipped. */
  function FlipAt(s: seq<Todo>, i: nat): (r: seq<Todo>)
    requires i < |s|
    ensures |r| == |s| && r[i].completed == !s[i].completed
    ensures r[i].id == s[i].id && r[i].title == s[i].title
    ensures forall k :: 0 <= k < |s| && k != i ==> r[k] == s[k]
  {
    s[i := s[i].(completed := !s[i].completed)]
  }

  /** `s.splice(i, 1)`: `s` without the todo at `i`, the others in their order. */
  function RemoveAt(s: seq<Todo>, i: nat): (r: seq<Todo>)
    requires i < |s|
    ensures |r| == |s| - 1
    ensures forall k :: 0 <= k < i ==> r[k] == s[k]
    ensures forall k :: i <= k < |r| ==> r[k] == s[k + 1]
  {
    s[..i] + s[i + 1..]
  }

  /** `s` with the title of the todo at `i` replaced by `title`. */
  function RetitleAt(s: seq<Todo>, i: nat, title: string): (r: seq<Todo>)
    requires i < |s|
    ensures |r| == |s| && r[i].title == title
    ensures r[i].id == s[i].id && r[i].completed == s[i].completed
    ensures forall k :: 0 <= k < |s| && k != i ==> r[k] == s[k]
  {
    s[i := s[i].(title := title)]
  }

  /** Toggling a todo twice restores the list: the second toggle finds the same index
      (toggling changes no id) and flips the flag back. */
  lemma ToggleTwice(s: seq<Todo>, id: string)
    requires HasId(s, id)
    ensures LastIndexOf(FlipAt(s, LastIndexOf(s, id).value), id) == LastIndexOf(s, id)
    ensures FlipAt(FlipAt(s, LastIndexOf(s, id).value), LastIndexOf(s, id).value) == s
  {
    var i := LastIndexOf(s, id).value;
    SameIdsSameIndex(FlipAt(s, i), s, id);
    assert FlipAt(FlipAt(s, i), i) == s;
  }

  /** The ids of `s` are pairwise different, as `uuid` makes them in practice. */
  predicate UniqueIds(s: seq<Todo>) {
    forall j, k :: 0 <= j < k < |s| ==> s[j].id != s[k].id
  }

  /** With unique ids, destroying a todo removes its id from the list. */
  lemma DestroyRemovesId(s: seq<Todo>, id: string)
    requires UniqueIds(s) && HasId(s, id)
    ensures !HasId(RemoveAt(s, LastIndexOf(s, id).value), id)
  {
    var i := LastIndexOf(s, id).value;
    var r := RemoveAt(s, i);
    forall k | 0 <= k < |r| ensures r[k].id != id {
      if k < i {
        assert r[k] == s[k];
      } else {
        assert r[k] == s[k + 1];
      }
    }
  }

  /** Splicing out the todo at `i` removes exactly that todo and keeps all the others. */
  lemma SpliceRemovesOne(s: seq<Todo>, i: nat)
    requires i < |s|
    ensures multiset(RemoveAt(s, i)) == multiset(s) - multiset{s[i]}
  {
    assert s == s[..i] + [s[i]] + s[i + 1..];
  }

  /** Every title is non-empty and trimmed, as `create` and `update` leave them. */
  predicate AllTitled(s: seq<Todo>) {
    forall k :: 0 <= k < |s| ==> s[k].title != [] && IsTrimmed(s[k].title)
  }

  /** Replacing a todo by one with a valid title keeps every title valid. */
  lemma TitledAfterReplace(s: seq<Todo>, i: nat, t: Todo)
    requires AllTitled(s) && i < |s| && t.title != [] && IsTrimmed(t.title)
    ensures AllTitled(s[i := t])
  {
  }

  /** Appending a todo with a valid title keeps every title valid. */
  lemma TitledAfterAppend(s: seq<Todo>, t: Todo)
    requires AllTitled(s) && t.title != [] && IsTrimmed(t.title)
    ensures AllTitled(s + [t])
  {
    var r := s + [t];
    forall k | 0 <= k < |r| ensures r[k].title != [] && IsTrimmed(r[k].title) {
      assert r[k] == if k < |s| then s[k] else t;
    }
  }

  /** Removing a todo keeps every title valid. */
  lemma TitledAfterRemove(s: seq<Todo>, i: nat)
    requires AllTitled(s) && i < |s|
    ensures AllTitled(RemoveAt(s, i))
  {
    var r := RemoveAt(s, i);
    forall k | 0 <= k < |r| ensures r[k].title != [] && IsTrimmed(r[k].title) {
      assert r[k] == if k < i then s[k] else s[k + 1];
    }
  }

  // ---------------------------------------------------------------------------
  // The application object

  class App {
    /** The whole list, in creation order. */
    var todos: seq<Todo>
    /** The route segment selecting the view: `all`, `active`, `completed`, or any other
        text the router passes on. */
    var filter: string
    /** The contents of the storage slot `todos-jquery`: `None` while nothing is stored. */
    var saved: Option<seq<Todo>>

    /** `init`: the list is loaded from the slot (the empty list when nothing is stored)
        and the filter is the route the router starts with. Nothing is written back. */
    constructor (slot: Option<seq<Todo>>, route: string)
      ensures todos == (if slot.Some? then slot.value else [])
      ensures filter == route && saved == slot
    {
      todos := if slot.Some? then slot.value else [];
      filter := route;
      saved := slot;
    }

    /** `save`: writes the whole, unfiltered list to the slot. */
    method Save()
      modifies this`saved
      ensures saved == Some(todos)
    {
      saved := Some(todos);
    }

    /** The router's `/:filter` callback: takes the route segment as the filter. */
    method SetFilter(route: string)
      modifies this`filter
      ensures filter == route
    {
      filter := route;
    }

    /** `indexFromEl`, given the id read from the element: scans from the last todo down
        and returns the first index whose id matches, or `None` when the loop runs out. */
    method IndexOfId(id: string) returns (r: Option<nat>)
      ensures r == LastIndexOf(todos, id)
    {
      var i := |todos|;
      while i > 0
        invariant 0 <= i <= |todos|
        invariant forall k :: i <= k < |todos| ==> todos[k].id != id
      {
        i := i - 1;
        if todos[i].id == id {
          return Some(i);
        }
      }
      return None;
    }

    /** `create`, for a key-up with key code `which` in the new-todo field holding `input`,
        and the 32 draws `uuid` makes: unless the key is Enter and the trimmed input is
        non-empty nothing happens; otherwise one active todo with the trimmed input as its
        title and a fresh identifier is appended and the list saved. */
    method Create(which: int, input: string, random: seq<Util.Nibble>)
      requires |random| == Util.UuidDraws
      modifies this
      ensures which != EnterKey || Trim(input) == [] ==> todos == old(todos) && saved == old(saved)
      ensures which == EnterKey && Trim(input) != [] ==>
        todos == old(todos) + [Todo(Util.UuidOf(random), Trim(input), false)] && saved == Some(todos)
      ensures which == EnterKey && Trim(input) != [] ==>
        ActiveTodos(todos) == ActiveTodos(old(todos)) + [Todo(Util.UuidOf(random), Trim(input), false)]
      ensures filter == old(filter)
      ensures AllTitled(old(todos)) ==> AllTitled(todos)
    {
      var val := Trim(input);
      if which != EnterKey || val == [] {
        return;
      }
      var id := Util.Uuid(random);
      var todo := Todo(id, val, false);
      if AllTitled(todos) {
        TitledAfterAppend(todos, todo);
      }
      SelectAppend(todos, [todo], false);
      assert [todo][1..] == [];
      todos := todos + [todo];
      Save();
    }

    /** `toggle`: flips the completed flag of the todo found for `id` and nothing else. */
    method Toggle(id: string)
      requires HasId(todos, id)
      modifies this
      ensures todos == FlipAt(old(todos), LastIndexOf(old(todos), id).value)
      ensures filter == old(filter) && saved == Some(todos)
      ensures AllTitled(old(todos)) ==> AllTitled(todos)
    {
      var r := IndexOfId(id);
      var i := r.value;
      var flipped := todos[i].(completed := !todos[i].completed);
      if AllTitled(todos) {
        TitledAfterReplace(todos, i, flipped);
      }
      todos := todos[i := flipped];
      Save();
    }

    /** `toggleAll`: sets every todo's completed flag to the checkbox state, keeping the
        order, the ids and the titles; afterwards nothing is active when the box was ticked
        and nothing is completed when it was cleared. */
    method ToggleAll(isChecked: bool)
      modifies this
      ensures |todos| == |old(todos)|
      ensures forall k :: 0 <= k < |todos| ==> todos[k] == old(todos)[k].(completed := isChecked)
      ensures isChecked ==> ActiveTodos(todos) == []
      ensures !isChecked ==> CompletedTodos(todos) == []
      ensures filter == old(filter) && saved == Some(todos)
      ensures AllTitled(old(todos)) ==> AllTitled(todos)
    {
      var k := 0;
      while k < |todos|
        invariant 0 <= k <= |todos| == |old(todos)|
        invariant forall j :: 0 <= j < k ==> todos[j] == old(todos)[j].(completed := isChecked)
        invariant forall j :: k <= j < |todos| ==> todos[j] == old(todos)[j]
        invariant filter == old(filter)
      {
        todos := todos[k := todos[k].(completed := isChecked)];
        k := k + 1;
      }
      SelectEmpty(todos, !isChecked);
      Save();
    }

    /** `destroyCompleted`: keeps exactly the active todos, in their order, and resets the
        filter to `all`. */
    method DestroyCompleted()
      modifies this
      ensures todos == ActiveTodos(old(todos))
      ensures filter == "all" && saved == Some(todos)
      ensures AllTitled(old(todos)) ==> AllTitled(todos)
    {
      SelectContains(todos, false);
      forall k | 0 <= k < |ActiveTodos(todos)| ensures ActiveTodos(todos)[k] in todos {
        assert ActiveTodos(todos)[k] in ActiveTodos(todos);
      }
      todos := ActiveTodos(todos);
      filter := "all";
      Save();
    }

    /** `destroy`: removes the one todo found for `id`; the others keep their order. */
    method Destroy(id: string)
      requires HasId(todos, id)
      modifies this
      ensures todos == RemoveAt(old(todos), LastIndexOf(old(todos), id).value)
      ensures filter == old(filter) && saved == Some(todos)
      ensures AllTitled(old(todos)) ==> AllTitled(todos)
    {
      var r := IndexOfId(id);
      var i := r.value;
      if AllTitled(todos) {
        TitledAfterRemove(todos, i);
      }
      todos := todos[..i] + todos[i + 1..];
      Save();
    }

    /** `update`, when the edit field of the todo `id` loses focus holding `value`, with
        `abort` the flag Escape leaves on the field. An empty trimmed value deletes the
        todo, whatever the flag; otherwise a set flag leaves the title alone and is
        cleared; otherwise the title becomes the trimmed value. Returns the flag's new
        value. The id is looked up only on the delete and rename paths. */
    method Update(id: string, value: string, abort: bool) returns (abortAfter: bool)
      requires Trim(value) == [] || !abort ==> HasId(todos, id)
      modifies this
      ensures Trim(value) == [] ==>
        todos == RemoveAt(old(todos), LastIndexOf(old(todos), id).value) && abortAfter == abort
      ensures Trim(value) != [] && abort ==> todos == old(todos) && !abortAfter
      ensures Trim(value) != [] && !abort ==>
        todos == RetitleAt(old(todos), LastIndexOf(old(todos), id).value, Trim(value)) && !abortAfter
      ensures filter == old(filter) && saved == Some(todos)
      ensures AllTitled(old(todos)) ==> AllTitled(todos)
    {
      var val := Trim(value);
      if val == [] {
        Destroy(id);
        return abort;
      }
      if abort {
        abortAfter := false;
      } else {
        var r := IndexOfId(id);
        var i := r.value;
        var renamed := todos[i].(title := val);
        if AllTitled(todos) {
          TitledAfterReplace(todos, i, renamed);
        }
        todos := todos[i := renamed];
        abortAfter := abort;
      }
      Save();
    }
  }

  // ---------------------------------------------------------------------------
  // Scenarios

  /** On an empty list, pressing Enter on "Buy milk" creates one active todo with that
      title and the generated id. */
  method BuyMilkScenario(random: seq<Util.Nibble>)
    requires |random| == Util.UuidDraws
  {
    var app := new App(None, "all");
    var title := "Buy milk";
    assert title[0] == 'B' && title[|title| - 1] == 'k';
    TrimOfTrimmed(title);
    app.Create(EnterKey, title, random);
    assert app.todos == [Todo(Util.UuidOf(random), title, false)];
  }

  /** Toggling the only todo of a list completes it: it is then the only completed todo
      and nothing is active. */
  method ToggleOnlyScenario(milk: Todo)
    requires !milk.completed
  {
    var app := new App(Some([milk]), "all");
    assert LastIndexOf(app.todos, milk.id) == Some(0);
    app.Toggle(milk.id);
    var done := milk.(completed := true);
    assert app.todos == [done];
    assert CompletedTodos(app.todos) == [done];
    assert ActiveTodos(app.todos) == [];
  }

  /** Pressing Enter on a field holding only spaces creates nothing. */
  method BlankInputScenario(todos: seq<Todo>, random: seq<Util.Nibble>)
    requires |random| == Util.UuidDraws
  {
    var app := new App(Some(todos), "all");
    var blank := "   ";
    assert AllWhitespace(blank);
    app.Create(EnterKey, blank, random);
    assert app.todos == todos;
  }

  /** With one active and one completed todo: the `active` view shows the first only, and
      clearing the completed todos keeps the first only and resets the filter. */
  method ClearCompletedScenario(a: Todo, b: Todo)
    requires !a.completed && b.completed
  {
    assert [a, b][1..] == [b] && [b][1..] == [];
    assert Select([b], false) == [];
    assert FilteredTodos([a, b], "active") == [a];
    var app := new App(Some([a, b]), "active");
    app.DestroyCompleted();
    assert app.todos == [a] && app.filter == "all";
  }
}
