/** The container scanner: from just past an opening `<DL><p>` (depth 1), find
    the `</DL><p>` that balances it. The source repeats this loop six times
    (src/bookmark-processor.js:287-309, 337-355, 431-455, 572-590, 660-674,
    697-715); the variants differ only in what they do with the result, so the
    model has one scanner and lets each caller use the close offset or the final
    cursor as its variant does. */
module Scanner {
  import opened Text

  const OPEN: string := "<DL><p>"
  const CLOSE: string := "</DL><p>"
  // Below, 7 and 8 are the lengths of OPEN and CLOSE.

  /** An opening container marker at `i`: `<DL><p>` with its letters compared
      ignoring case, as the `/i` searches compare them (see OpenMatchesIgnoringCase). */
  predicate OpenAt(s: string, i: nat) {
    i + 7 <= |s| && s[i] == '<' && (s[i + 1] == 'd' || s[i + 1] == 'D') && (s[i + 2] == 'l' || s[i + 2] == 'L')
    && s[i + 3] == '>' && s[i + 4] == '<' && (s[i + 5] == 'p' || s[i + 5] == 'P') && s[i + 6] == '>'
  }

  /** A closing container marker `</DL><p>` at `i`, ignoring case. */
  predicate CloseAt(s: string, i: nat) {
    i + 8 <= |s| && s[i] == '<' && s[i + 1] == '/' && (s[i + 2] == 'd' || s[i + 2] == 'D')
    && (s[i + 3] == 'l' || s[i + 3] == 'L') && s[i + 4] == '>' && s[i + 5] == '<' && (s[i + 6] == 'p' || s[i + 6] == 'P')
    && s[i + 7] == '>'
  }

  /** OpenAt is the case-insensitive occurrence of OPEN. */
  lemma OpenMatchesIgnoringCase(s: string, i: nat)
    ensures OpenAt(s, i) <==> MatchesAt(s, i, OPEN, true)
  {
    if MatchesAt(s, i, OPEN, true) {
      assert SameChar(s[i + 0], OPEN[0], true) && SameChar(s[i + 1], OPEN[1], true);
      assert SameChar(s[i + 2], OPEN[2], true) && SameChar(s[i + 3], OPEN[3], true);
      assert SameChar(s[i + 4], OPEN[4], true) && SameChar(s[i + 5], OPEN[5], true);
      assert SameChar(s[i + 6], OPEN[6], true);
    }
  }

  /** CloseAt is the case-insensitive occurrence of CLOSE. */
  lemma CloseMatchesIgnoringCase(s: string, i: nat)
    ensures CloseAt(s, i) <==> MatchesAt(s, i, CLOSE, true)
  {
    if MatchesAt(s, i, CLOSE, true) {
      assert SameChar(s[i + 0], CLOSE[0], true) && SameChar(s[i + 1], CLOSE[1], true);
      assert SameChar(s[i + 2], CLOSE[2], true) && SameChar(s[i + 3], CLOSE[3], true);
      assert SameChar(s[i + 4], CLOSE[4], true) && SameChar(s[i + 5], CLOSE[5], true);
      assert SameChar(s[i + 6], CLOSE[6], true) && SameChar(s[i + 7], CLOSE[7], true);
    }
  }

  /** No marker starts strictly inside an opening marker, and none of the other kind at it. */
  lemma OpenIsolated(s: string, o: nat)
    requires OpenAt(s, o)
    ensures !CloseAt(s, o)
    ensures forall k :: o < k < o + 7 ==> !OpenAt(s, k) && !CloseAt(s, k)
  {
  }

  /** No marker starts strictly inside a closing marker, and none of the other kind at it. */
  lemma CloseIsolated(s: string, c: nat)
    requires CloseAt(s, c)
    ensures !OpenAt(s, c)
    ensures forall k :: c < k < c + 8 ==> !OpenAt(s, k) && !CloseAt(s, k)
  {
  }

  /** `search(/<DL><p>/i)` on the text from `from`: the first opening marker
      at or after `from` (see FindOpenFirst). */
  function FindOpen(s: string, from: nat): (r: Option<nat>)
    decreases |s| - from
    ensures r.Some? ==> from <= r.value && r.value + 7 <= |s|
  {
    if from + 7 > |s| then None
    else if OpenAt(s, from) then Some(from)
    else FindOpen(s, from + 1)
  }

  /** `search(/<\/DL><p>/i)` on the text from `from` (see FindCloseFirst). */
  function FindClose(s: string, from: nat): (r: Option<nat>)
    decreases |s| - from
    ensures r.Some? ==> from <= r.value && r.value + 8 <= |s|
  {
    if from + 8 > |s| then None
    else if CloseAt(s, from) then Some(from)
    else FindClose(s, from + 1)
  }

  lemma {:induction false} FindOpenFirst(s: string, from: nat)
    decreases |s| - from
    ensures FindOpen(s, from).Some? ==> OpenAt(s, FindOpen(s, from).value)
    ensures FindOpen(s, from).Some? ==> forall k :: from <= k < FindOpen(s, from).value ==> !OpenAt(s, k)
    ensures FindOpen(s, from).None? ==> forall k :: from <= k ==> !OpenAt(s, k)
  {
    if from + 7 <= |s| && !OpenAt(s, from) {
      FindOpenFirst(s, from + 1);
    }
  }

  lemma {:induction false} FindCloseFirst(s: string, from: nat)
    decreases |s| - from
    ensures FindClose(s, from).Some? ==> CloseAt(s, FindClose(s, from).value)
    ensures FindClose(s, from).Some? ==> forall k :: from <= k < FindClose(s, from).value ==> !CloseAt(s, k)
    ensures FindClose(s, from).None? ==> forall k :: from <= k ==> !CloseAt(s, k)
  {
    if from + 8 <= |s| && !CloseAt(s, from) {
      FindCloseFirst(s, from + 1);
    }
  }

  /** The next marker at or after the cursor, as the loop chooses it: the
      opening marker when it comes first or no closing marker remains. */
  datatype Marker = OpenMarker(at: nat) | CloseMarker(at: nat) | NoMarker

  function NextMarker(s: string, pos: nat): (m: Marker)
    ensures m.OpenMarker? ==> pos <= m.at && m.at + 7 <= |s|
    ensures m.CloseMarker? ==> pos <= m.at && m.at + 8 <= |s|
  {
    var o := FindOpen(s, pos);
    var c := FindClose(s, pos);
    if o.Some? && (c.None? || o.value < c.value) then OpenMarker(o.value)
    else if c.Some? then CloseMarker(c.value)
    else NoMarker
  }

  /** NextMarker returns the first marker of either kind at or after the cursor. */
  lemma NextMarkerFirst(s: string, pos: nat)
    ensures NextMarker(s, pos).OpenMarker? ==> OpenAt(s, NextMarker(s, pos).at)
    ensures NextMarker(s, pos).CloseMarker? ==> CloseAt(s, NextMarker(s, pos).at)
    ensures !NextMarker(s, pos).NoMarker? ==>
      forall k :: pos <= k < NextMarker(s, pos).at ==> !OpenAt(s, k) && !CloseAt(s, k)
    ensures NextMarker(s, pos).NoMarker? ==> forall k :: pos <= k ==> !OpenAt(s, k) && !CloseAt(s, k)
  {
    FindOpenFirst(s, pos);
    FindCloseFirst(s, pos);
    var o := FindOpen(s, pos);
    var c := FindClose(s, pos);
    if o.Some? && c.Some? && c.value < o.value {
      CloseIsolated(s, c.value);
    }
  }

  /** Opening markers starting in `[p, q)`. */
  function Opens(s: string, p: nat, q: nat): nat
    decreases q
  {
    if q <= p then 0 else Opens(s, p, q - 1) + (if OpenAt(s, q - 1) then 1 else 0)
  }

  /** Closing markers starting in `[p, q)`. */
  function Closes(s: string, p: nat, q: nat): nat
    decreases q
  {
    if q <= p then 0 else Closes(s, p, q - 1) + (if CloseAt(s, q - 1) then 1 else 0)
  }

  /** The nesting depth just before offset `q` of a container entered at `p`. */
  function Depth(s: string, p: nat, q: nat): int {
    1 + Opens(s, p, q) - Closes(s, p, q)
  }

  /** `c` is the closing marker that balances the container entered at `p`:
      the depth is 1 just before it, and every earlier closing marker left the
      depth above 1. */
  predicate IsBalancingClose(s: string, p: nat, c: nat) {
    p <= c && CloseAt(s, c) && Depth(s, p, c) == 1
    && forall q :: p <= q < c && CloseAt(s, q) ==> Depth(s, p, q) > 1
  }

  /** A container has at most one balancing close. */
  lemma BalancingCloseUnique(s: string, p: nat, c1: nat, c2: nat)
    requires IsBalancingClose(s, p, c1) && IsBalancingClose(s, p, c2)
    ensures c1 == c2
  {
  }

  /** The first closing marker at or after `q` met at depth 1, for the
      container entered at `p`. */
  function FirstBalancing(s: string, p: nat, q: nat): (r: Option<nat>)
    decreases |s| - q
    ensures r.Some? ==> q <= r.value && r.value + 8 <= |s|
  {
    if q + 8 > |s| then None
    else if CloseAt(s, q) && Depth(s, p, q) == 1 then Some(q)
    else FirstBalancing(s, p, q + 1)
  }

  /** The balancing close of the container entered at `p`, if the text has one. */
  function BalancingClose(s: string, p: nat): Option<nat> {
    FirstBalancing(s, p, p)
  }

  /** The end of the last marker starting in `[p, q)`, or `p` when there is none. */
  function LastEnd(s: string, p: nat, q: nat): (r: nat)
    decreases q
    ensures p <= r
  {
    if q <= p then p
    else if OpenAt(s, q - 1) then q - 1 + 7
    else if CloseAt(s, q - 1) then q - 1 + 8
    else LastEnd(s, p, q - 1)
  }

  /** Where the cursor stops when nothing balances the container entered at
      `p`: at the end of the last marker of the text after `p`, or at `p`. */
  function LastMarkerEnd(s: string, p: nat): nat {
    LastEnd(s, p, |s|)
  }

  /** Offsets where no marker starts do not change the counts. */
  lemma {:induction false} CountsSkip(s: string, p: nat, a: nat, b: nat)
    requires p <= a <= b
    requires forall k :: a <= k < b ==> !OpenAt(s, k) && !CloseAt(s, k)
    ensures Opens(s, p, b) == Opens(s, p, a) && Closes(s, p, b) == Closes(s, p, a)
    ensures LastEnd(s, p, b) == LastEnd(s, p, a)
    decreases b
  {
    if a < b {
      CountsSkip(s, p, a, b - 1);
    }
  }

  /** Consuming an opening marker raises the depth by one, and its end is the last marker end. */
  lemma CountsAfterOpen(s: string, p: nat, o: nat)
    requires p <= o && OpenAt(s, o)
    ensures Depth(s, p, o + 7) == Depth(s, p, o) + 1
    ensures LastEnd(s, p, o + 7) == o + 7
    ensures forall q :: o <= q < o + 7 ==> !CloseAt(s, q)
  {
    OpenIsolated(s, o);
    CountsSkip(s, p, o + 1, o + 7);
  }

  /** Consuming a closing marker lowers the depth by one, and its end is the last marker end. */
  lemma CountsAfterClose(s: string, p: nat, c: nat)
    requires p <= c && CloseAt(s, c)
    ensures Depth(s, p, c + 8) == Depth(s, p, c) - 1
    ensures LastEnd(s, p, c + 8) == c + 8
    ensures forall q :: c < q < c + 8 ==> !CloseAt(s, q)
  {
    CloseIsolated(s, c);
    CountsSkip(s, p, c + 1, c + 8);
  }

  /** Before the first closing marker met at depth 1, the depth never drops below 1. */
  lemma {:induction false} DepthPositive(s: string, p: nat, q: nat)
    requires p <= q
    requires forall k :: p <= k < q && CloseAt(s, k) ==> Depth(s, p, k) != 1
    ensures Depth(s, p, q) >= 1
    decreases q
  {
    if q > p {
      DepthPositive(s, p, q - 1);
    }
  }

  /** FirstBalancing skips exactly the closing markers not met at depth 1. */
  lemma {:induction false} FirstBalancingFirst(s: string, p: nat, q: nat)
    decreases |s| - q
    ensures FirstBalancing(s, p, q).Some? ==>
      CloseAt(s, FirstBalancing(s, p, q).value) && Depth(s, p, FirstBalancing(s, p, q).value) == 1
    ensures FirstBalancing(s, p, q).Some? ==> forall k :: q <= k < FirstBalancing(s, p, q).value && CloseAt(s, k) ==> Depth(s, p, k) != 1
    ensures FirstBalancing(s, p, q).None? ==> forall k :: q <= k && CloseAt(s, k) ==> Depth(s, p, k) != 1
  {
    if q + 8 <= |s| && !(CloseAt(s, q) && Depth(s, p, q) == 1) {
      FirstBalancingFirst(s, p, q + 1);
    }
  }

  /** BalancingClose finds the balancing close exactly when there is one. */
  lemma BalancingCloseIff(s: string, p: nat, c: nat)
    ensures BalancingClose(s, p) == Some(c) <==> IsBalancingClose(s, p, c)
    ensures BalancingClose(s, p).None? <==> forall k: nat :: !IsBalancingClose(s, p, k)
  {
    FirstBalancingFirst(s, p, p);
    if BalancingClose(s, p).Some? {
      var b := BalancingClose(s, p).value;
      forall k | p <= k < b && CloseAt(s, k)
        ensures Depth(s, p, k) > 1
      {
        DepthPositive(s, p, k);
      }
      assert IsBalancingClose(s, p, b);
      if IsBalancingClose(s, p, c) {
        BalancingCloseUnique(s, p, b, c);
      }
    } else if IsBalancingClose(s, p, c) {
      assert false;
    }
  }

  /** The invariant of the loop: the depth is the marker count since `p`, no
      closing marker before the cursor balanced the container, and the cursor
      sits at the end of the last marker consumed. */
  ghost predicate ScanInvariant(s: string, p: nat, pos: nat, d: nat) {
    p <= pos && d > 0 && Depth(s, p, pos) == d && LastEnd(s, p, pos) == pos
    && forall q :: p <= q < pos && CloseAt(s, q) ==> Depth(s, p, q) > 1
  }

  /** Consuming an opening marker keeps the invariant, one level deeper. */
  lemma ScanStepOpen(s: string, p: nat, pos: nat, d: nat)
    requires ScanInvariant(s, p, pos, d) && NextMarker(s, pos).OpenMarker?
    ensures ScanInvariant(s, p, NextMarker(s, pos).at + 7, d + 1)
  {
    NextMarkerFirst(s, pos);
    var o := NextMarker(s, pos).at;
    CountsSkip(s, p, pos, o);
    CountsAfterOpen(s, p, o);
  }

  /** A closing marker at depth 1 is the balancing one. */
  lemma ScanStepBalance(s: string, p: nat, pos: nat)
    requires ScanInvariant(s, p, pos, 1) && NextMarker(s, pos).CloseMarker?
    ensures IsBalancingClose(s, p, NextMarker(s, pos).at)
  {
    NextMarkerFirst(s, pos);
    CountsSkip(s, p, pos, NextMarker(s, pos).at);
  }

  /** At a greater depth, consuming a closing marker keeps the invariant one level up. */
  lemma ScanStepClose(s: string, p: nat, pos: nat, d: nat)
    requires ScanInvariant(s, p, pos, d) && d > 1 && NextMarker(s, pos).CloseMarker?
    ensures ScanInvariant(s, p, NextMarker(s, pos).at + 8, d - 1)
  {
    NextMarkerFirst(s, pos);
    var c := NextMarker(s, pos).at;
    CountsSkip(s, p, pos, c);
    CountsAfterClose(s, p, c);
  }

  /** With no marker left, nothing balances the container and the cursor is
      at the end of the last marker of the text. */
  lemma ScanStepNone(s: string, p: nat, pos: nat, d: nat)
    requires ScanInvariant(s, p, pos, d)
    requires pos >= |s| || NextMarker(s, pos).NoMarker?
    requires pos <= |s| || pos == p
    ensures forall c: nat :: !IsBalancingClose(s, p, c)
    ensures pos == LastMarkerEnd(s, p)
  {
    NextMarkerFirst(s, pos);
    forall c: nat | IsBalancingClose(s, p, c) ensures c < pos {
    }
    if pos < |s| {
      CountsSkip(s, p, pos, |s|);
    }
  }

  /** The loop itself, entered at depth 1 with the cursor at `start`: it
      reports the balancing close when there is one, and leaves the cursor
      just past it, or else at the end of the last marker. */
  method ScanContainer(s: string, start: nat) returns (close: Option<nat>, pos: nat)
    ensures close == BalancingClose(s, start)
    ensures close.Some? ==> pos == close.value + 8
    ensures close.None? ==> pos == LastMarkerEnd(s, start)
  {
    var depth := 1;
    pos := start;
    close := None;
    while pos < |s| && depth > 0
      invariant pos <= |s| || pos == start
      invariant depth > 0 ==> close == None && ScanInvariant(s, start, pos, depth)
      invariant depth == 0 ==> close.Some? && IsBalancingClose(s, start, close.value) && pos == close.value + 8
      decreases |s| - pos
    {
      var dlStart := FindOpen(s, pos);
      var dlEnd := FindClose(s, pos);
      if dlStart.Some? && (dlEnd.None? || dlStart.value < dlEnd.value) {
        ScanStepOpen(s, start, pos, depth);
        depth := depth + 1;
        pos := dlStart.value + 7;
      } else if dlEnd.Some? {
        if depth == 1 {
          ScanStepBalance(s, start, pos);
        } else {
          ScanStepClose(s, start, pos, depth);
        }
        depth := depth - 1;
        pos := dlEnd.value;
        if depth == 0 {
          close := Some(pos);
        }
        pos := pos + 8;
      } else {
        break;
      }
    }
    if depth > 0 {
      ScanStepNone(s, start, pos, depth);
      BalancingCloseIff(s, start, 0);
    } else {
      BalancingCloseIff(s, start, close.value);
    }
  }
}
