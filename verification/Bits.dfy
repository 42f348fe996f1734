/** The bit-packed sector maps and the two ways the system summarises them:
    a running sector count and a list of maximal runs. */
module Bits {
  import opened Common

  /** The byte with only bit `i` set, `1 << i` in the source. */
  function Mask(i: nat): bv8
    requires i < 8
  {
    if i == 0 then 1 else if i == 1 then 2 else if i == 2 then 4 else if i == 3 then 8
    else if i == 4 then 16 else if i == 5 then 32 else if i == 6 then 64 else 128
  }

  function BitmapLength(total: nat): nat {
    (total + 7) / 8
  }

  predicate BitAt(bitmap: seq<bv8>, lba: nat)
    requires lba / 8 < |bitmap|
  {
    bitmap[lba / 8] & Mask(lba % 8) != 0
  }

  /** The map as one flag per sector; sectors the bytes do not reach are clear. */
  function Unpack(bitmap: seq<bv8>, total: nat): (bits: seq<bool>)
    ensures |bits| == total
  {
    seq(total, i requires 0 <= i => i / 8 < |bitmap| && BitAt(bitmap, i))
  }

  lemma MaskOr(b: bv8, i: nat, j: nat)
    requires i < 8 && j < 8
    ensures i == j ==> (b | Mask(i)) & Mask(j) != 0
    ensures i != j ==> ((b | Mask(i)) & Mask(j) != 0 <==> b & Mask(j) != 0)
  {
  }

  /** Or-ing one mask into one byte changes exactly the flag of that sector. */
  lemma SetBit(bitmap: seq<bv8>, total: nat, lba: nat)
    requires lba < total && lba / 8 < |bitmap|
    ensures Unpack(bitmap[lba / 8 := bitmap[lba / 8] | Mask(lba % 8)], total)
         == Unpack(bitmap, total)[lba := true]
  {
    var after := bitmap[lba / 8 := bitmap[lba / 8] | Mask(lba % 8)];
    forall i | 0 <= i < total
      ensures Unpack(after, total)[i] == Unpack(bitmap, total)[lba := true][i]
    {
      if i / 8 == lba / 8 {
        MaskOr(bitmap[lba / 8], lba % 8, i % 8);
        assert i == 8 * (i / 8) + i % 8 && lba == 8 * (lba / 8) + lba % 8;
      }
    }
  }

  /** Number of set flags. */
  function Count(bits: seq<bool>): nat {
    if bits == [] then 0
    else Count(bits[..|bits| - 1]) + (if bits[|bits| - 1] then 1 else 0)
  }

  lemma {:induction false} CountSet(bits: seq<bool>, i: nat)
    requires i < |bits|
    ensures Count(bits[i := true]) == Count(bits) + (if bits[i] then 0 else 1)
  {
    var last := |bits| - 1;
    if i == last {
      assert bits[i := true][..last] == bits[..last];
    } else {
      assert bits[i := true][..last] == bits[..last][i := true];
      CountSet(bits[..last], i);
    }
  }

  lemma {:induction false} CountClear(bits: seq<bool>)
    requires forall i :: 0 <= i < |bits| ==> !bits[i]
    ensures Count(bits) == 0 && Runs(bits) == []
  {
    if bits != [] {
      CountClear(bits[..|bits| - 1]);
    }
  }

  lemma {:induction false} CountConcat(a: seq<bool>, b: seq<bool>)
    ensures Count(a + b) == Count(a) + Count(b)
  {
    if b == [] {
      assert a + b == a;
    } else {
      assert (a + b)[..|a + b| - 1] == a + b[..|b| - 1];
      CountConcat(a, b[..|b| - 1]);
    }
  }

  lemma {:induction false} CountBound(bits: seq<bool>)
    ensures Count(bits) <= |bits|
    ensures Count(bits) == 0 <==> forall i :: 0 <= i < |bits| ==> !bits[i]
  {
    if bits != [] {
      var head := bits[..|bits| - 1];
      CountBound(head);
      assert forall i :: 0 <= i < |head| ==> head[i] == bits[i];
    }
  }

  /** `runs` lists the maximal runs of set flags in order: the runs are not
      empty, each leaves a gap before the next, and together they cover exactly
      the set flags. */
  ghost predicate MaximalRuns(bits: seq<bool>, runs: seq<Run>) {
    && (forall k :: 0 <= k < |runs| ==> runs[k].count > 0 && runs[k].End() <= |bits|)
    && (forall j, k :: 0 <= j < k < |runs| ==> runs[j].End() < runs[k].start)
    && (forall i :: 0 <= i < |bits| ==> (bits[i] <==> Covered(runs, i)))
  }

  ghost predicate Covered(runs: seq<Run>, i: int) {
    exists k :: 0 <= k < |runs| && runs[k].Covers(i)
  }

  /** The list of runs after one more flag has been scanned. */
  function NextRuns(before: seq<Run>, last: nat, flag: bool): seq<Run> {
    if !flag then before
    else if before != [] && before[|before| - 1].End() == last then
      before[..|before| - 1] + [Run(before[|before| - 1].start, before[|before| - 1].count + 1)]
    else before + [Run(last, 1)]
  }

  /** The maximal runs, found by scanning upwards. */
  function Runs(bits: seq<bool>): seq<Run> {
    if bits == [] then []
    else NextRuns(Runs(bits[..|bits| - 1]), |bits| - 1, bits[|bits| - 1])
  }

  lemma {:induction false} RunsMaximal(bits: seq<bool>)
    ensures MaximalRuns(bits, Runs(bits))
  {
    if bits != [] {
      var last := |bits| - 1;
      var before := Runs(bits[..last]);
      RunsMaximal(bits[..last]);
      RunsStep(bits, before);
    }
  }

  lemma RunsStep(bits: seq<bool>, before: seq<Run>)
    requires bits != [] && MaximalRuns(bits[..|bits| - 1], before)
    ensures MaximalRuns(bits, NextRuns(before, |bits| - 1, bits[|bits| - 1]))
  {
    var last := |bits| - 1;
    var after := NextRuns(before, last, bits[last]);
    NextRunsCover(before, after, last, bits[last]);
    forall i | 0 <= i < |bits|
      ensures bits[i] <==> Covered(after, i)
    {
      if i < last {
        assert bits[..last][i] == bits[i];
      }
    }
  }

  lemma NextRunsCover(before: seq<Run>, after: seq<Run>, last: nat, flag: bool)
    requires forall k :: 0 <= k < |before| ==> before[k].End() <= last
    requires after == NextRuns(before, last, flag)
    ensures forall i :: 0 <= i < last ==> (Covered(before, i) <==> Covered(after, i))
    ensures Covered(after, last) <==> flag
  {
    forall i | 0 <= i < last && Covered(before, i) ensures Covered(after, i) {
      var k :| 0 <= k < |before| && before[k].Covers(i);
      assert after[k].Covers(i);
    }
    forall i | 0 <= i < last && Covered(after, i) ensures Covered(before, i) {
      var k :| 0 <= k < |after| && after[k].Covers(i);
      assert before[k].Covers(i);
    }
    if flag {
      assert after[|after| - 1].Covers(last);
    }
  }

  /** Two lists of maximal runs of the same flags are the same list. */
  lemma {:induction false} MaximalRunsUnique(bits: seq<bool>, a: seq<Run>, b: seq<Run>)
    requires MaximalRuns(bits, a) && MaximalRuns(bits, b)
    ensures a == b
  {
    RunsPrefixEqual(bits, a, b, |a|);
    RunsPrefixEqual(bits, b, a, |b|);
  }

  lemma {:induction false} RunsPrefixEqual(bits: seq<bool>, a: seq<Run>, b: seq<Run>, n: nat)
    requires MaximalRuns(bits, a) && MaximalRuns(bits, b) && n <= |a|
    ensures n <= |b| && forall k :: 0 <= k < n ==> a[k] == b[k]
  {
    if n > 0 {
      RunsPrefixEqual(bits, a, b, n - 1);
      NextRunEqual(bits, a, b, n - 1);
    }
  }

  lemma NextRunEqual(bits: seq<bool>, a: seq<Run>, b: seq<Run>, k: nat)
    requires MaximalRuns(bits, a) && MaximalRuns(bits, b) && k < |a| && k <= |b|
    requires forall j :: 0 <= j < k ==> a[j] == b[j]
    ensures k < |b| && a[k] == b[k]
  {
    NextRunNotLater(bits, a, b, k);
    NextRunNotLater(bits, b, a, k);
    RunExtent(bits, a, k);
    RunExtent(bits, b, k);
  }

  lemma NextRunNotLater(bits: seq<bool>, a: seq<Run>, b: seq<Run>, k: nat)
    requires MaximalRuns(bits, a) && MaximalRuns(bits, b) && k < |a| && k <= |b|
    requires forall j :: 0 <= j < k ==> a[j] == b[j]
    ensures k < |b| && b[k].start <= a[k].start
  {
    var s := a[k].start;
    assert a[k].Covers(s);
    assert Covered(a, s) && Covered(b, s);
    var m :| 0 <= m < |b| && b[m].Covers(s);
    assert forall j :: 0 <= j < k ==> !b[j].Covers(s);
  }

  /** A maximal run is bounded by clear flags on both sides and has none inside. */
  lemma RunExtent(bits: seq<bool>, a: seq<Run>, k: nat)
    requires MaximalRuns(bits, a) && k < |a|
    ensures a[k].End() < |bits| ==> !bits[a[k].End()]
    ensures a[k].start > 0 ==> !bits[a[k].start - 1]
    ensures forall i :: a[k].start <= i < a[k].End() ==> bits[i]
  {
    forall i | a[k].start <= i < a[k].End() ensures bits[i] {
      assert a[k].Covers(i);
    }
  }

  /** Setting the flag just above every set one extends the last run or opens a
      new one: this is why a counter that looks only one sector back is right. */
  lemma {:induction false} RunsSetAbove(bits: seq<bool>, lba: nat)
    requires lba < |bits| && forall i :: lba <= i < |bits| ==> !bits[i]
    ensures |Runs(bits[lba := true])|
         == |Runs(bits)| + (if lba == 0 || !bits[lba - 1] then 1 else 0)
  {
    var last := |bits| - 1;
    if lba == last {
      assert bits[lba := true][..last] == bits[..last];
      var head := bits[..last];
      RunsMaximal(head);
      var runs := Runs(head);
      assert Runs(bits) == runs && Runs(bits[lba := true]) == NextRuns(runs, last, true);
      LastRunTouches(head, runs);
      hide MaximalRuns, Runs;
    } else {
      hide Runs;
      RunsClear(bits);
      RunsClear(bits[lba := true]);
      assert bits[lba := true][..last] == bits[..last][lba := true];
      RunsSetAbove(bits[..last], lba);
    }
  }

  lemma RunsClear(bits: seq<bool>)
    requires bits != [] && !bits[|bits| - 1]
    ensures Runs(bits) == Runs(bits[..|bits| - 1])
  {
  }

  lemma LastRunTouches(bits: seq<bool>, runs: seq<Run>)
    requires MaximalRuns(bits, runs)
    ensures (runs != [] && runs[|runs| - 1].End() == |bits|) <==> (bits != [] && bits[|bits| - 1])
  {
    if bits != [] && bits[|bits| - 1] {
      var k :| 0 <= k < |runs| && runs[k].Covers(|bits| - 1);
      if k < |runs| - 1 {
        assert runs[k].End() < runs[|runs| - 1].start;
      }
    }
    if runs != [] && runs[|runs| - 1].End() == |bits| {
      assert runs[|runs| - 1].Covers(|bits| - 1);
    }
  }

  function SumCounts(runs: seq<Run>): nat {
    if runs == [] then 0 else SumCounts(runs[..|runs| - 1]) + runs[|runs| - 1].count
  }

  /** The runs account for every set flag exactly once. */
  lemma {:induction false} RunsSum(bits: seq<bool>)
    ensures SumCounts(Runs(bits)) == Count(bits)
  {
    if bits != [] {
      var last := |bits| - 1;
      var before := Runs(bits[..last]);
      RunsSum(bits[..last]);
      var after := Runs(bits);
      if bits[last] {
        if before != [] && before[|before| - 1].End() == last {
          assert after[..|after| - 1] == before[..|before| - 1];
        } else {
          assert after[..|after| - 1] == before;
        }
      }
    }
  }
}
