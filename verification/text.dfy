/** The string trimming the handlers apply to every value read from an input field
    (`$input.val().trim()`), modelled as stripping whitespace from both ends. */
module JsText {

  /** The characters trimming removes: the white-space and line-terminator code points
      of ECMAScript (tab, vertical tab, form feed, space, no-break space, byte-order mark,
      the Unicode space separators, line feed, carriage return and the two Unicode line
      and paragraph separators). */
  const Whitespace: set<char> := {
    '\t', '\n', '\U{000B}', '\U{000C}', '\r', ' ', '\U{00A0}', '\U{1680}',
    '\U{2000}', '\U{2001}', '\U{2002}', '\U{2003}', '\U{2004}', '\U{2005}',
    '\U{2006}', '\U{2007}', '\U{2008}', '\U{2009}', '\U{200A}',
    '\U{2028}', '\U{2029}', '\U{202F}', '\U{205F}', '\U{3000}', '\U{FEFF}'
  }

  predicate IsWhitespace(c: char) {
    c in Whitespace
  }

  /** All characters of `s` are whitespace (in particular, `s` may be empty). */
  predicate AllWhitespace(s: string) {
    forall k :: 0 <= k < |s| ==> IsWhitespace(s[k])
  }

  /** A trimmed string: empty, or starting and ending with a non-whitespace character. */
  predicate IsTrimmed(s: string) {
    s == [] || (!IsWhitespace(s[0]) && !IsWhitespace(s[|s| - 1]))
  }

  /** How many whitespace characters `s` starts with. */
  function LeadingWhitespace(s: string): (n: nat)
    ensures n <= |s|
    ensures forall k :: 0 <= k < n ==> IsWhitespace(s[k])
    ensures n < |s| ==> !IsWhitespace(s[n])
    decreases |s|
  {
    if s != [] && IsWhitespace(s[0]) then 1 + LeadingWhitespace(s[1..]) else 0
  }

  /** How many whitespace characters `s` ends with. */
  function TrailingWhitespace(s: string): (n: nat)
    ensures n <= |s|
    ensures forall k :: |s| - n <= k < |s| ==> IsWhitespace(s[k])
    ensures n < |s| ==> !IsWhitespace(s[|s| - n - 1])
    decreases |s|
  {
    if s != [] && IsWhitespace(s[|s| - 1]) then 1 + TrailingWhitespace(s[..|s| - 1]) else 0
  }

  /** `String.prototype.trim`: `s` without its leading and trailing whitespace. The
      result is trimmed; it is the run of `s` that starts after the leading whitespace,
      and everything before and after that run is whitespace; it is empty exactly when
      `s` consists of whitespace only. */
  function Trim(s: string): (r: string)
    ensures IsTrimmed(r)
    ensures LeadingWhitespace(s) + |r| <= |s|
    ensures forall k :: 0 <= k < |r| ==> r[k] == s[LeadingWhitespace(s) + k]
    ensures forall k :: LeadingWhitespace(s) + |r| <= k < |s| ==> IsWhitespace(s[k])
    ensures r == [] <==> AllWhitespace(s)
  {
    var i := LeadingWhitespace(s);
    var n := TrailingWhitespace(s[i..]);
    TrimBounds(s, i, s[i..], n);
    s[i..|s| - n]
  }

  /** The facts behind the contract of `Trim`: with `i` leading whitespace characters in
      `s`, and `n` trailing ones in the rest `t`, the run `s[i..|s| - n]` is trimmed, only
      whitespace lies around it, and it is empty exactly when `s` is all whitespace. */
  lemma TrimBounds(s: string, i: nat, t: string, n: nat)
    requires i <= |s| && (forall k :: 0 <= k < i ==> IsWhitespace(s[k])) && (i < |s| ==> !IsWhitespace(s[i]))
    requires t == s[i..] && n <= |t| && (forall k :: |t| - n <= k < |t| ==> IsWhitespace(t[k]))
    requires n < |t| ==> !IsWhitespace(t[|t| - n - 1])
    ensures IsTrimmed(s[i..|s| - n])
    ensures forall k :: |s| - n <= k < |s| ==> IsWhitespace(s[k])
    ensures s[i..|s| - n] == [] <==> AllWhitespace(s)
  {
    forall k | |s| - n <= k < |s| ensures IsWhitespace(s[k]) {
      assert s[k] == t[k - i];
    }
    if i == |s| - n {
      assert AllWhitespace(s);
    } else {
      assert s[i..|s| - n][0] == s[i];
      assert s[i..|s| - n][|s| - n - i - 1] == t[|t| - n - 1];
    }
  }

  /** A string with no whitespace at either end is left alone by trimming. */
  lemma {:induction false} TrimOfTrimmed(s: string)
    requires IsTrimmed(s)
    ensures Trim(s) == s
  {
  }

  /** Trimming twice is trimming once. */
  lemma TrimIdempotent(s: string)
    ensures Trim(Trim(s)) == Trim(s)
  {
    TrimOfTrimmed(Trim(s));
  }
}
