/** Character and string primitives the recognizers are built from: matching a
    literal at an offset (exactly, or ignoring ASCII case as the `/i` flag does),
    the first occurrence of a literal or a character from an offset (what
    `includes` computes, and how a pattern finds a literal such as `</H3>`),
    and JavaScript's white space, which `trim` removes. */
module Text {

  datatype Option<T> = None | Some(value: T)

  /** The WhiteSpace and LineTerminator code points of ECMAScript: what `trim`
      strips and what `\s` matches. */
  predicate IsJsSpace(c: char) {
    c == '\t' || c == '\n' || c == '\U{B}' || c == '\U{C}' || c == '\r' || c == ' '
    || c == '\U{A0}' || c == '\U{1680}' || ('\U{2000}' <= c <= '\U{200A}')
    || c == '\U{2028}' || c == '\U{2029}' || c == '\U{202F}' || c == '\U{205F}'
    || c == '\U{3000}' || c == '\U{FEFF}'
  }

  /** The line terminators: the characters `.` in a regular expression does not match. */
  predicate IsLineTerminator(c: char) {
    c == '\n' || c == '\r' || c == '\U{2028}' || c == '\U{2029}'
  }

  /** ASCII lower-casing. Without the `u` flag a case-insensitive JavaScript
      pattern never matches a non-ASCII character against an ASCII one, so for
      the ASCII literals used here this is exactly the `/i` comparison. */
  function Lower(c: char): (r: char)
    ensures 'A' <= c <= 'Z' ==> 'a' <= r <= 'z' && r as int == c as int + 32
    ensures !('A' <= c <= 'Z') ==> r == c
  {
    if 'A' <= c <= 'Z' then (c as int + 32) as char else c
  }

  predicate SameChar(a: char, b: char, ignoreCase: bool) {
    if ignoreCase then Lower(a) == Lower(b) else a == b
  }

  /** `pat` occurs in `s` at offset `i`. */
  predicate MatchesAt(s: string, i: nat, pat: string, ignoreCase: bool) {
    i + |pat| <= |s| && forall k :: 0 <= k < |pat| ==> SameChar(s[i + k], pat[k], ignoreCase)
  }

  /** The first occurrence of `pat` at or after `from` (see IndexOfFirst). */
  function IndexOf(s: string, pat: string, from: nat, ignoreCase: bool): (r: Option<nat>)
    decreases |s| - from
    ensures r.Some? ==> from <= r.value && r.value + |pat| <= |s|
  {
    if from + |pat| > |s| then None
    else if MatchesAt(s, from, pat, ignoreCase) then Some(from)
    else IndexOf(s, pat, from + 1, ignoreCase)
  }

  /** IndexOf finds an occurrence, and no occurrence lies between `from` and
      it; when it finds none, there is none at or after `from`. */
  lemma {:induction false} IndexOfFirst(s: string, pat: string, from: nat, ignoreCase: bool)
    decreases |s| - from
    ensures IndexOf(s, pat, from, ignoreCase).Some? ==> MatchesAt(s, IndexOf(s, pat, from, ignoreCase).value, pat, ignoreCase)
    ensures IndexOf(s, pat, from, ignoreCase).Some? ==>
      forall k :: from <= k < IndexOf(s, pat, from, ignoreCase).value ==> !MatchesAt(s, k, pat, ignoreCase)
    ensures IndexOf(s, pat, from, ignoreCase).None? ==> forall k :: from <= k ==> !MatchesAt(s, k, pat, ignoreCase)
  {
    if from + |pat| <= |s| && !MatchesAt(s, from, pat, ignoreCase) {
      IndexOfFirst(s, pat, from + 1, ignoreCase);
    }
  }

  /** The first offset in `[from, bound)` where the recognizer `f` matches:
      the leftmost-match rule of a regular-expression search (see FirstMatchFirst). */
  function FirstMatch<T>(f: nat -> Option<T>, from: nat, bound: nat): (r: Option<nat>)
    decreases bound - from
    ensures r.Some? ==> from <= r.value < bound && f(r.value).Some?
  {
    if from >= bound then None
    else if f(from).Some? then Some(from)
    else FirstMatch(f, from + 1, bound)
  }

  /** Nothing matches before FirstMatch's result, and nothing at all when it finds none. */
  lemma {:induction false} FirstMatchFirst<T>(f: nat -> Option<T>, from: nat, bound: nat)
    decreases bound - from
    ensures FirstMatch(f, from, bound).Some? ==> forall k :: from <= k < FirstMatch(f, from, bound).value ==> f(k).None?
    ensures FirstMatch(f, from, bound).None? ==> forall k :: from <= k < bound ==> f(k).None?
  {
    if from < bound && f(from).None? {
      FirstMatchFirst(f, from + 1, bound);
    }
  }

  /** `s.includes(pat)`. */
  predicate Contains(s: string, pat: string) {
    IndexOf(s, pat, 0, false).Some?
  }

  /** A literal occurring inside an occurrence of a longer literal occurs too:
      `Contains` is transitive through infixes. */
  lemma ContainsInfix(s: string, outer: string, inner: string, offset: nat)
    requires Contains(s, outer)
    requires MatchesAt(outer, offset, inner, false)
    ensures Contains(s, inner)
  {
    IndexOfFirst(s, outer, 0, false);
    var i := IndexOf(s, outer, 0, false).value;
    assert MatchesAt(s, i + offset, inner, false) by {
      forall k | 0 <= k < |inner|
        ensures s[i + offset + k] == inner[k]
      {
        assert outer[offset + k] == inner[k];
        assert s[i + (offset + k)] == outer[offset + k];
      }
    }
    IndexOfFirst(s, inner, 0, false);
  }

  /** The first index at or after `from` holding `c`, or `|s|` when there is
      none: where a greedy `[^c]*` followed by `c` stops (see CharFromFirst). */
  function CharFrom(s: string, c: char, from: nat): (r: nat)
    requires from <= |s|
    decreases |s| - from
    ensures from <= r <= |s|
    ensures r < |s| ==> s[r] == c
  {
    if from == |s| then from
    else if s[from] == c then from
    else CharFrom(s, c, from + 1)
  }

  /** No `c` lies between `from` and CharFrom's result. */
  lemma {:induction false} CharFromFirst(s: string, c: char, from: nat)
    requires from <= |s|
    decreases |s| - from
    ensures forall k :: from <= k < CharFrom(s, c, from) ==> s[k] != c
  {
    if from < |s| && s[from] != c {
      CharFromFirst(s, c, from + 1);
    }
  }

  /** No line terminator in `s[a..b]`: `.*` can span it. */
  predicate OnOneLine(s: string, a: nat, b: nat)
    requires a <= b <= |s|
  {
    forall k :: a <= k < b ==> !IsLineTerminator(s[k])
  }

  /** Number of leading white-space characters. */
  function LeadingSpace(s: string): (n: nat)
    ensures n <= |s|
    ensures forall k :: 0 <= k < n ==> IsJsSpace(s[k])
    ensures n < |s| ==> !IsJsSpace(s[n])
  {
    if s == [] || !IsJsSpace(s[0]) then 0 else 1 + LeadingSpace(s[1..])
  }

  /** Number of trailing white-space characters. */
  function TrailingSpace(s: string): (n: nat)
    ensures n <= |s|
    ensures forall k :: |s| - n <= k < |s| ==> IsJsSpace(s[k])
    ensures n < |s| ==> !IsJsSpace(s[|s| - n - 1])
  {
    if s == [] || !IsJsSpace(s[|s| - 1]) then 0 else 1 + TrailingSpace(s[..|s| - 1])
  }

  /** `String.prototype.trim`: the infix left after removing white space at both ends. */
  function Trim(s: string): (r: string)
    ensures LeadingSpace(s) + |r| <= |s|
    ensures r == s[LeadingSpace(s)..LeadingSpace(s) + |r|]
    ensures forall k :: 0 <= k < LeadingSpace(s) ==> IsJsSpace(s[k])
    ensures forall k :: LeadingSpace(s) + |r| <= k < |s| ==> IsJsSpace(s[k])
    ensures r == [] || (!IsJsSpace(r[0]) && !IsJsSpace(r[|r| - 1]))
  {
    var rest := s[LeadingSpace(s)..];
    rest[..|rest| - TrailingSpace(rest)]
  }

  /** `s.trim() === ''` holds exactly when `s` is all white space. */
  lemma TrimEmptyIffBlank(s: string)
    ensures Trim(s) == [] <==> forall k :: 0 <= k < |s| ==> IsJsSpace(s[k])
  {
    if Trim(s) != [] {
      assert !IsJsSpace(s[LeadingSpace(s)]);
    }
  }
}
