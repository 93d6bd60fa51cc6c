/** The shape shared by every extraction pass of the parser: walk the matches
    of a pattern in order and record, for each, zero or one entry. */
module Seqs {
  import opened Text

  /** The entry recorded for one match, as a list of zero or one. */
  function Recorded<T>(r: Option<T>): (l: seq<T>)
    ensures |l| <= 1 && (r.Some? <==> |l| == 1) && (r.Some? ==> l[0] == r.value)
  {
    match r case None => [] case Some(x) => [x]
  }

  /** The entries `f` records for `xs`, in order. */
  function Keep<A, B>(f: A -> Option<B>, xs: seq<A>): (ys: seq<B>)
    ensures |ys| <= |xs|
  {
    if xs == [] then [] else Recorded(f(xs[0])) + Keep(f, xs[1..])
  }

  /** Keep over a list with a known head. */
  lemma KeepCons<A, B>(f: A -> Option<B>, x: A, xs: seq<A>)
    ensures Keep(f, [x] + xs) == Recorded(f(x)) + Keep(f, xs)
  {
    assert ([x] + xs)[1..] == xs;
  }

  /** The index in `xs` of the match that produced the `k`-th entry (see OriginProduces). */
  function Origin<A, B>(f: A -> Option<B>, xs: seq<A>, k: nat): (m: nat)
    requires k < |Keep(f, xs)|
    ensures m < |xs|
  {
    if f(xs[0]).Some? then
      if k == 0 then 0 else 1 + Origin(f, xs[1..], k - 1)
    else 1 + Origin(f, xs[1..], k)
  }

  /** The `k`-th entry is what `f` records for the match at its origin. */
  lemma {:induction false} OriginProduces<A, B>(f: A -> Option<B>, xs: seq<A>, k: nat)
    requires k < |Keep(f, xs)|
    ensures f(xs[Origin(f, xs, k)]) == Some(Keep(f, xs)[k])
  {
    var here := Recorded(f(xs[0]));
    var rest := Keep(f, xs[1..]);
    assert Keep(f, xs) == here + rest;
    if k >= |here| {
      OriginProduces(f, xs[1..], k - |here|);
      assert Keep(f, xs)[k] == rest[k - |here|];
      assert xs[Origin(f, xs, k)] == xs[1..][Origin(f, xs[1..], k - |here|)];
    }
  }

  /** Entries keep the order of the matches that produced them. */
  lemma {:induction false} OriginMonotone<A, B>(f: A -> Option<B>, xs: seq<A>, i: nat, j: nat)
    requires i < j < |Keep(f, xs)|
    ensures Origin(f, xs, i) < Origin(f, xs, j)
  {
    var rest := Keep(f, xs[1..]);
    assert |Keep(f, xs)| == |Recorded(f(xs[0]))| + |rest|;
    if f(xs[0]).Some? {
      assert Origin(f, xs, j) == 1 + Origin(f, xs[1..], j - 1);
      if i > 0 {
        assert Origin(f, xs, i) == 1 + Origin(f, xs[1..], i - 1);
        OriginMonotone(f, xs[1..], i - 1, j - 1);
      }
    } else {
      assert Origin(f, xs, i) == 1 + Origin(f, xs[1..], i);
      assert Origin(f, xs, j) == 1 + Origin(f, xs[1..], j);
      OriginMonotone(f, xs[1..], i, j);
    }
  }

  /** Every match for which `f` records something contributes its entry. */
  lemma {:induction false} KeepComplete<A, B>(f: A -> Option<B>, xs: seq<A>, m: nat)
    requires m < |xs| && f(xs[m]).Some?
    ensures f(xs[m]).value in Keep(f, xs)
  {
    if m > 0 {
      KeepComplete(f, xs[1..], m - 1);
    }
  }

  /** The entries `f` records for the indices `i` up to `n`, in order. */
  function Collect<B>(f: nat -> Option<B>, i: nat, n: nat): (ys: seq<B>)
    decreases n - i
    ensures i <= n ==> |ys| <= n - i
  {
    if i >= n then [] else Recorded(f(i)) + Collect(f, i + 1, n)
  }

  /** Every collected entry is recorded for some index in range. */
  lemma {:induction false} CollectSound<B>(f: nat -> Option<B>, i: nat, n: nat, y: B)
    requires y in Collect(f, i, n)
    decreases n - i
    ensures exists j :: i <= j < n && f(j) == Some(y)
  {
    if f(i) != Some(y) {
      assert y in Collect(f, i + 1, n);
      CollectSound(f, i + 1, n, y);
    }
  }

  /** Every entry recorded for an index in range is collected. */
  lemma {:induction false} CollectComplete<B>(f: nat -> Option<B>, i: nat, n: nat, j: nat)
    requires i <= j < n && f(j).Some?
    decreases j - i
    ensures f(j).value in Collect(f, i, n)
  {
    if j > i {
      CollectComplete(f, i + 1, n, j);
    }
  }

  lemma AppendAssoc<T>(a: seq<T>, b: seq<T>, c: seq<T>)
    ensures (a + b) + c == a + (b + c)
  {
  }

  /** `at` recognizes a pattern: a match found at `k` starts at `k` and ends
      after it, within `bound`. */
  ghost predicate Recognizer<M>(at: nat -> Option<M>, startOf: M -> nat, endOf: M -> nat, bound: nat) {
    forall k: nat :: at(k).Some? ==> startOf(at(k).value) == k && k < endOf(at(k).value) <= bound
  }

  /** The matches a global `exec` loop visits from `lastIndex` on: each search
      is leftmost and resumes where the previous match ended. */
  function Visits<M>(at: nat -> Option<M>, startOf: M -> nat, endOf: M -> nat, lastIndex: nat, bound: nat): (v: seq<M>)
    requires Recognizer(at, startOf, endOf, bound)
    decreases bound - lastIndex
    ensures forall i :: 0 <= i < |v| ==> lastIndex <= startOf(v[i]) < endOf(v[i]) <= bound
  {
    match FirstMatch(at, lastIndex, bound)
    case None => []
    case Some(k) => [at(k).value] + Visits(at, startOf, endOf, endOf(at(k).value), bound)
  }

  /** One step of the `exec` loop. */
  lemma VisitsStep<M>(at: nat -> Option<M>, startOf: M -> nat, endOf: M -> nat, lastIndex: nat, bound: nat, k: nat)
    requires Recognizer(at, startOf, endOf, bound) && FirstMatch(at, lastIndex, bound) == Some(k)
    ensures Visits(at, startOf, endOf, lastIndex, bound)
         == [at(k).value] + Visits(at, startOf, endOf, endOf(at(k).value), bound)
  {
  }

  /** The `exec` loop stops when the search fails. */
  lemma VisitsDone<M>(at: nat -> Option<M>, startOf: M -> nat, endOf: M -> nat, lastIndex: nat, bound: nat)
    requires Recognizer(at, startOf, endOf, bound) && FirstMatch(at, lastIndex, bound).None?
    ensures Visits(at, startOf, endOf, lastIndex, bound) == []
  {
  }

  /** The visited matches are matches at their own offsets. */
  lemma {:induction false} VisitsMatch<M>(at: nat -> Option<M>, startOf: M -> nat, endOf: M -> nat, lastIndex: nat, bound: nat)
    requires Recognizer(at, startOf, endOf, bound)
    decreases bound - lastIndex
    ensures forall i :: 0 <= i < |Visits(at, startOf, endOf, lastIndex, bound)| ==>
      at(startOf(Visits(at, startOf, endOf, lastIndex, bound)[i])) == Some(Visits(at, startOf, endOf, lastIndex, bound)[i])
  {
    var v := Visits(at, startOf, endOf, lastIndex, bound);
    match FirstMatch(at, lastIndex, bound)
    case None =>
    case Some(k) =>
      var next := endOf(at(k).value);
      var rest := Visits(at, startOf, endOf, next, bound);
      VisitsStep(at, startOf, endOf, lastIndex, bound, k);
      VisitsMatch(at, startOf, endOf, next, bound);
      forall i | 0 <= i < |v|
        ensures at(startOf(v[i])) == Some(v[i])
      {
        if i > 0 {
          assert v[i] == rest[i - 1];
        }
      }
  }

  /** The visited matches do not overlap and come in text order. */
  lemma {:induction false} VisitsOrdered<M>(at: nat -> Option<M>, startOf: M -> nat, endOf: M -> nat, lastIndex: nat, bound: nat)
    requires Recognizer(at, startOf, endOf, bound)
    decreases bound - lastIndex
    ensures forall i, j :: 0 <= i < j < |Visits(at, startOf, endOf, lastIndex, bound)| ==>
      endOf(Visits(at, startOf, endOf, lastIndex, bound)[i]) <= startOf(Visits(at, startOf, endOf, lastIndex, bound)[j])
  {
    var v := Visits(at, startOf, endOf, lastIndex, bound);
    match FirstMatch(at, lastIndex, bound)
    case None =>
    case Some(k) =>
      var next := endOf(at(k).value);
      var rest := Visits(at, startOf, endOf, next, bound);
      VisitsStep(at, startOf, endOf, lastIndex, bound, k);
      VisitsOrdered(at, startOf, endOf, next, bound);
      forall i, j | 0 <= i < j < |v|
        ensures endOf(v[i]) <= startOf(v[j])
      {
        assert v[j] == rest[j - 1];
        if i > 0 {
          assert v[i] == rest[i - 1];
        }
      }
  }

  /** The `exec` loop misses no match except inside one it visits: the search
      resumes only past a match. */
  lemma {:induction false} VisitsComplete<M>(at: nat -> Option<M>, startOf: M -> nat, endOf: M -> nat, lastIndex: nat, bound: nat, k: nat)
    requires Recognizer(at, startOf, endOf, bound)
    requires lastIndex <= k < bound && at(k).Some?
    decreases bound - lastIndex
    ensures exists i :: (0 <= i < |Visits(at, startOf, endOf, lastIndex, bound)| &&
      startOf(Visits(at, startOf, endOf, lastIndex, bound)[i]) <= k < endOf(Visits(at, startOf, endOf, lastIndex, bound)[i]))
  {
    FirstMatchFirst(at, lastIndex, bound);
    var v := Visits(at, startOf, endOf, lastIndex, bound);
    match FirstMatch(at, lastIndex, bound)
    case None =>
      assert false;
    case Some(m) =>
      var next := endOf(at(m).value);
      var rest := Visits(at, startOf, endOf, next, bound);
      VisitsStep(at, startOf, endOf, lastIndex, bound, m);
      if k < next {
        assert startOf(v[0]) <= k < endOf(v[0]);
      } else {
        VisitsComplete(at, startOf, endOf, next, bound, k);
        var i :| 0 <= i < |rest| && startOf(rest[i]) <= k < endOf(rest[i]);
        assert v[i + 1] == rest[i];
      }
  }
}
