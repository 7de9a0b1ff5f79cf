/** The parts of Java's `String` and of Apache commons-lang3 `StringUtils`
    that the page pipeline relies on, over strings of Unicode code points. */
module JavaStrings {
  import opened Wrappers

  /** `t` occurs in `s` starting at index `i`. */
  predicate OccursAt(s: string, t: string, i: nat) {
    i + |t| <= |s| && s[i..i + |t|] == t
  }

  /** `String.indexOf(t, from)`: the first index at or after `from` where `t`
      occurs, or `None` (Java's -1). */
  function IndexOf(s: string, t: string, from: nat): (r: Option<nat>)
    ensures r.Some? ==> from <= r.value && OccursAt(s, t, r.value)
    ensures forall j: nat :: from <= j && (r.None? || j < r.value) ==> !OccursAt(s, t, j)
    decreases |s| + 1 - from
  {
    if from + |t| > |s| then None
    else if s[from..from + |t|] == t then Some(from)
    else IndexOf(s, t, from + 1)
  }

  /** `String.contains(t)`. */
  function Contains(s: string, t: string): (r: bool)
    ensures r <==> exists i: nat :: OccursAt(s, t, i)
  {
    IndexOf(s, t, 0).Some?
  }

  /** `x` is the text of `s` that starts right after the first occurrence of
      `open` (at `i`) and ends right before the first occurrence of `close`
      that starts at or after the end of that `open`. */
  ghost predicate Between(s: string, open: string, close: string, i: nat, x: string) {
    && OccursAt(s, open, i)
    && (forall k: nat :: k < i ==> !OccursAt(s, open, k))
    && OccursAt(s, close, i + |open| + |x|)
    && (forall k: nat :: i + |open| <= k < i + |open| + |x| ==> !OccursAt(s, close, k))
    && s[i + |open|..i + |open| + |x|] == x
  }

  /** `StringUtils.substringBetween(s, open, close)`: `None` (Java's null) when
      `open` is missing or no `close` follows it. */
  function SubstringBetween(s: string, open: string, close: string): (r: Option<string>)
    ensures r.Some? ==> exists i: nat :: Between(s, open, close, i, r.value)
    ensures r.None? ==> forall i: nat, x: string :: !Between(s, open, close, i, x)
  {
    match IndexOf(s, open, 0)
    case None => None
    case Some(start) =>
      match IndexOf(s, close, start + |open|)
      case None => None
      case Some(end) =>
        var x := s[start + |open|..end];
        assert Between(s, open, close, start, x);
        Some(x)
  }

  /** Java's `prefix + s` where `s` may be null: a null operand is rendered as
      the four characters "null". */
  function ConcatNullable(prefix: string, s: Option<string>): (r: string)
    ensures |prefix| <= |r| && r[..|prefix|] == prefix
    ensures s.Some? ==> r[|prefix|..] == s.value
    ensures s.None? ==> r[|prefix|..] == "null"
  {
    prefix + (if s.Some? then s.value else "null")
  }

  /** `Character.isWhitespace`: the space, line and paragraph separators other
      than the non-breaking ones, and the controls U+0009-U+000D, U+001C-U+001F. */
  predicate IsWhitespace(c: char) {
    var n := c as int;
    || (0x09 <= n <= 0x0D) || (0x1C <= n <= 0x20)
    || n == 0x1680 || (0x2000 <= n <= 0x2006) || (0x2008 <= n <= 0x200A)
    || n == 0x2028 || n == 0x2029 || n == 0x205F || n == 0x3000
  }

  /** `String.isBlank`: empty or made of whitespace only. */
  predicate IsBlank(s: string) {
    forall i :: 0 <= i < |s| ==> IsWhitespace(s[i])
  }

  /** A string in which a non-blank `t` occurs is not blank itself. */
  lemma ContainsNonBlank(s: string, t: string)
    requires Contains(s, t) && !IsBlank(t)
    ensures !IsBlank(s)
  {
    var i: nat :| OccursAt(s, t, i);
    var j :| 0 <= j < |t| && !IsWhitespace(t[j]);
    assert s[i + j] == s[i..i + |t|][j] == t[j];
  }
}
