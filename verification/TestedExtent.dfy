/** The extent that a set of observations has tested: ranges sorted, merged, and
    counted. */
module TestedExtent {
  import opened Common

  datatype Extent = Extent(startLba: nat, end: nat, observed: nat)

  function Interval(lo: nat, hi: nat): (s: set<nat>)
    ensures forall k :: k in s <==> lo <= k < hi
    decreases hi - lo
  {
    if hi <= lo then {} else Interval(lo, hi - 1) + {hi - 1}
  }

  lemma {:induction false} IntervalSize(lo: nat, hi: nat)
    requires lo <= hi
    ensures |Interval(lo, hi)| == hi - lo
    decreases hi - lo
  {
    if lo < hi {
      IntervalSize(lo, hi - 1);
    }
  }

  /** The distinct sectors that the ranges cover. */
  function Covered(ranges: seq<Run>): set<nat> {
    if ranges == [] then {}
    else Covered(ranges[..|ranges| - 1]) + Interval(ranges[|ranges| - 1].start, ranges[|ranges| - 1].End())
  }

  lemma {:induction false} CoveredIs(ranges: seq<Run>, k: nat)
    ensures k in Covered(ranges) <==> exists r :: r in ranges && r.start <= k < r.End()
  {
    if ranges != [] {
      CoveredIs(ranges[..|ranges| - 1], k);
      assert ranges == ranges[..|ranges| - 1] + [ranges[|ranges| - 1]];
    }
  }

  predicate Before(a: Run, b: Run) {
    a.start < b.start || (a.start == b.start && a.End() <= b.End())
  }

  predicate Sorted(ranges: seq<Run>) {
    forall i, j :: 0 <= i < j < |ranges| ==> Before(ranges[i], ranges[j])
  }

  function Insert(sorted: seq<Run>, r: Run): (s: seq<Run>)
    requires Sorted(sorted)
    ensures Sorted(s) && multiset(s) == multiset(sorted) + multiset{r}
  {
    if sorted == [] || Before(sorted[|sorted| - 1], r) then sorted + [r]
    else
      var last := sorted[|sorted| - 1];
      var s := Insert(sorted[..|sorted| - 1], r);
      Inserted(sorted, r, s);
      s + [last]
  }

  lemma Inserted(sorted: seq<Run>, r: Run, s: seq<Run>)
    requires sorted != [] && Sorted(sorted) && Sorted(s) && !Before(sorted[|sorted| - 1], r)
    requires multiset(s) == multiset(sorted[..|sorted| - 1]) + multiset{r}
    ensures Sorted(s + [sorted[|sorted| - 1]]) && multiset(s + [sorted[|sorted| - 1]]) == multiset(sorted) + multiset{r}
  {
    var last := sorted[|sorted| - 1];
    assert sorted == sorted[..|sorted| - 1] + [last];
    forall i | 0 <= i < |s|
      ensures Before(s[i], last)
    {
      assert s[i] in multiset(s);
    }
  }

  function Sort(ranges: seq<Run>): (s: seq<Run>)
    ensures Sorted(s) && multiset(s) == multiset(ranges)
  {
    if ranges == [] then []
    else
      assert ranges == ranges[..|ranges| - 1] + [ranges[|ranges| - 1]];
      Insert(Sort(ranges[..|ranges| - 1]), ranges[|ranges| - 1])
  }

  /** Runs in ascending order with a gap between any two. */
  predicate Apart(runs: seq<Run>) {
    forall i, j :: 0 <= i < j < |runs| ==> runs[i].End() < runs[j].start
  }

  function SectorsOf(runs: seq<Run>): set<nat> {
    if runs == [] then {} else SectorsOf(runs[..|runs| - 1]) + Interval(runs[|runs| - 1].start, runs[|runs| - 1].End())
  }

  function TotalLength(runs: seq<Run>): int {
    if runs == [] then 0 else TotalLength(runs[..|runs| - 1]) + runs[|runs| - 1].count
  }

  lemma {:induction false} BelowLast(runs: seq<Run>, bound: nat)
    requires forall i :: 0 <= i < |runs| ==> runs[i].End() <= bound
    ensures forall k :: k in SectorsOf(runs) ==> k < bound
  {
    if runs != [] {
      BelowLast(runs[..|runs| - 1], bound);
    }
  }

  /** Lengths of separated runs add up to the number of distinct sectors. */
  lemma {:induction false} LengthsCount(runs: seq<Run>)
    requires Apart(runs)
    ensures TotalLength(runs) == |SectorsOf(runs)|
  {
    if runs != [] {
      var init, last := runs[..|runs| - 1], runs[|runs| - 1];
      LengthsCount(init);
      BelowLast(init, last.start);
      IntervalSize(last.start, last.End());
      assert SectorsOf(init) !! Interval(last.start, last.End());
    }
  }

  /** From the start of `prior` to the end of either. */
  function Widened(prior: Run, r: Run): Run {
    Run(prior.start, Max(prior.End(), r.End()) - prior.start)
  }

  /** `runs` is what the sorted ranges come to. */
  ghost predicate MergedTo(sorted: seq<Run>, runs: seq<Run>) {
    && Apart(runs) && SectorsOf(runs) == Covered(sorted)
    && (runs == [] <==> sorted == [])
    && (sorted != [] ==>
          && runs[0].start == sorted[0].start && runs[|runs| - 1].start <= sorted[|sorted| - 1].start
          && (forall r :: r in sorted ==> r.End() <= runs[|runs| - 1].End())
          && (exists r :: r in sorted && r.End() == runs[|runs| - 1].End()))
  }

  lemma RunAdded(sorted: seq<Run>, runs: seq<Run>, r: Run)
    requires MergedTo(sorted, runs) && (runs != [] ==> runs[|runs| - 1].End() < r.start)
    ensures MergedTo(sorted + [r], runs + [r])
  {
    var more := runs + [r];
    assert more[..|more| - 1] == runs && (sorted + [r])[..|sorted|] == sorted;
    assert SectorsOf(more) == SectorsOf(runs) + Interval(r.start, r.End());
    assert Covered(sorted + [r]) == Covered(sorted) + Interval(r.start, r.End());
    hide SectorsOf, Covered, Interval;
    assert r in sorted + [r];
  }

  lemma RunWidened(sorted: seq<Run>, runs: seq<Run>, r: Run)
    requires MergedTo(sorted, runs) && runs != [] && sorted[|sorted| - 1].start <= r.start <= runs[|runs| - 1].End()
    ensures
      var prior := runs[|runs| - 1];
      MergedTo(sorted + [r], runs[|runs| - 1 := Widened(prior, r)])
  {
    var prior := runs[|runs| - 1];
    var wider := runs[|runs| - 1 := Widened(prior, r)];
    assert wider[..|wider| - 1] == runs[..|runs| - 1] && (sorted + [r])[..|sorted|] == sorted;
    assert SectorsOf(wider) == SectorsOf(runs) + Interval(r.start, r.End());
    assert r in sorted + [r];
    assert forall q :: q in sorted ==> q in sorted + [r];
  }

  method Merge(sorted: seq<Run>) returns (merged: seq<Run>)
    requires Sorted(sorted)
    ensures MergedTo(sorted, merged)
  {
    hide MergedTo;
    merged := [];
    assert MergedTo([], []) by {
      NothingMerged();
    }
    var k := 0;
    while k < |sorted|
      invariant 0 <= k <= |sorted|
      invariant MergedTo(sorted[..k], merged)
    {
      var r := sorted[k];
      assert sorted[..k] + [r] == sorted[..k + 1];
      NonEmpty(sorted[..k], merged);
      if merged != [] && r.start <= merged[|merged| - 1].End() {
        var prior := merged[|merged| - 1];
        assert Before(sorted[k - 1], r);
        RunWidened(sorted[..k], merged, r);
        merged := merged[|merged| - 1 := Widened(prior, r)];
      } else {
        RunAdded(sorted[..k], merged, r);
        merged := merged + [r];
      }
      k := k + 1;
    }
    assert sorted[..k] == sorted;
  }

  lemma NothingMerged()
    ensures MergedTo([], [])
  {
  }

  lemma NonEmpty(sorted: seq<Run>, runs: seq<Run>)
    requires MergedTo(sorted, runs)
    ensures runs == [] <==> sorted == []
  {
  }

  /** The extent begins with the first of these ranges and ends with the last end. */
  ghost predicate Spans(e: Extent, ranges: seq<Run>) {
    && (forall r :: r in ranges ==> e.startLba <= r.start && r.End() <= e.end)
    && (exists r :: r in ranges && r.start == e.startLba)
    && (exists r :: r in ranges && r.End() == e.end)
  }

  /** First and last end of everything tested, and how many distinct sectors. */
  method MeasureExtent(ranges: seq<Run>) returns (e: Option<Extent>)
    ensures e.None? <==> ranges == []
    ensures e.Some? ==> e.value.observed == |Covered(ranges)|
    ensures e.Some? ==> Spans(e.value, ranges)
  {
    var sorted := Sort(ranges);
    SameElements(ranges, sorted);
    var merged := Merge(sorted);
    if |merged| == 0 {
      return None;
    }
    var total, k := 0, 0;
    while k < |merged|
      invariant 0 <= k <= |merged| && total == TotalLength(merged[..k])
    {
      assert merged[..k + 1][..k] == merged[..k];
      total := total + merged[k].count;
      k := k + 1;
    }
    assert merged[..k] == merged;
    LengthsCount(merged);
    assert sorted[0] in sorted;
    return Some(Extent(merged[0].start, merged[|merged| - 1].End(), total));
  }

  lemma SameElements(a: seq<Run>, b: seq<Run>)
    requires multiset(a) == multiset(b)
    ensures forall r :: r in a <==> r in b
    ensures Covered(a) == Covered(b)
    ensures a == [] <==> b == []
  {
    assert forall r :: r in a <==> r in multiset(a);
    assert forall r :: r in b <==> r in multiset(b);
    forall k: nat
      ensures k in Covered(a) <==> k in Covered(b)
    {
      CoveredIs(a, k);
      CoveredIs(b, k);
    }
    assert |multiset(a)| == |a| && |multiset(b)| == |b|;
  }
}
