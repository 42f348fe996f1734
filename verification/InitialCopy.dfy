/** The state of the fast first copy, which skips whole failed requests. */
module InitialCopy {
  import opened Common
  import opened Bits
  import opened Sense
  import opened Rescue

  const DIAGNOSTIC_LIMIT: nat := 64

  function RequestEnd(f: ReadFailure): nat {
    f.completion.requestedLba + f.completion.requestedBlocks
  }

  predicate RequestCovers(f: ReadFailure, i: int) {
    f.completion.requestedLba <= i < RequestEnd(f)
  }

  ghost predicate AnyCovers(requests: seq<ReadFailure>, i: int) {
    exists k :: 0 <= k < |requests| && RequestCovers(requests[k], i)
  }

  function BlockSum(requests: seq<ReadFailure>): nat {
    if requests == [] then 0
    else BlockSum(requests[..|requests| - 1]) + requests[|requests| - 1].completion.requestedBlocks
  }

  /** Failed requests in the order they were met: real medium errors, none
      empty, none overlapping an earlier one, all below `end`. */
  ghost predicate Tolerated(requests: seq<ReadFailure>, end: nat) {
    && (forall k :: 0 <= k < |requests| ==>
          && requests[k].status.MediumError? && requests[k] == ClassifyReadFailure(requests[k].completion)
          && 0 < requests[k].completion.requestedBlocks && RequestEnd(requests[k]) <= end
          && requests[k].completion.retryOrdinal <= 1)
    && (forall j, k :: 0 <= j < k < |requests| ==> RequestEnd(requests[j]) <= requests[k].completion.requestedLba)
  }

  lemma ToleratedPush(requests: seq<ReadFailure>, f: ReadFailure)
    requires f.status.MediumError? && f == ClassifyReadFailure(f.completion)
    requires 0 < f.completion.requestedBlocks && f.completion.retryOrdinal <= 1
    requires Tolerated(requests, f.completion.requestedLba)
    ensures Tolerated(requests + [f], RequestEnd(f))
    ensures BlockSum(requests + [f]) == BlockSum(requests) + f.completion.requestedBlocks
    ensures forall i: int :: AnyCovers(requests + [f], i) <==> AnyCovers(requests, i) || RequestCovers(f, i)
  {
    var after := requests + [f];
    assert after[..|requests|] == requests;
    forall i: int ensures AnyCovers(after, i) <==> AnyCovers(requests, i) || RequestCovers(f, i) {
      if AnyCovers(requests, i) {
        var k :| 0 <= k < |requests| && RequestCovers(requests[k], i);
        assert after[k] == requests[k];
      }
      assert after[|requests|] == f;
    }
  }

  /** The bits past the last sector are clear. */
  ghost predicate Padded(bytes: seq<bv8>, total: nat) {
    total <= 8 * |bytes| && Unpack(bytes, 8 * |bytes|) == Unpack(bytes, total) + AllClear(8 * |bytes| - total)
  }

  lemma PaddedSet(bytes: seq<bv8>, total: nat, lba: nat)
    requires Padded(bytes, total) && lba < total && lba / 8 < |bytes|
    ensures Padded(bytes[lba / 8 := bytes[lba / 8] | Mask(lba % 8)], total)
  {
    SetBit(bytes, total, lba);
    SetBit(bytes, 8 * |bytes|, lba);
  }

  class InitialCopyState {
    const total: nat
    const bitmap: array<bv8>
    const diagnostics: array<ReadFailure>
    var skippedSectorCount: nat
    var skippedRegionCount: nat
    var skippedRequestCount: nat
    var diagnosticCount: nat
    /** Every skipped request; the source keeps only the first few. */
    ghost var requests: seq<ReadFailure>

    ghost function Bits(): seq<bool>
      reads this, bitmap
    {
      Unpack(bitmap[..], total)
    }

    ghost predicate Shape()
      reads this, bitmap, diagnostics
    {
      && bitmap as object != diagnostics as object
      && Kept() && bitmap.Length == BitmapLength(total) && total <= 8 * bitmap.Length
      && skippedRegionCount == |Runs(Bits())| && skippedSectorCount == Count(Bits())
      && skippedRegionCount <= skippedRequestCount && Padded(bitmap[..], total)
    }

    /** Counters, map, diagnostics and the list of skipped requests all agree. */
    ghost predicate Agrees(end: nat)
      reads this, bitmap, diagnostics
    {
      && Shape() && Tolerated(requests, end) && skippedSectorCount == BlockSum(requests)
      && forall i :: 0 <= i < total ==> (Bits()[i] <==> AnyCovers(requests, i))
    }

    constructor (total: nat)
      ensures this.total == total && fresh(bitmap) && fresh(diagnostics) && requests == []
      ensures Bits() == AllClear(total) && Agrees(0)
    {
      this.total := total;
      bitmap := new bv8[BitmapLength(total)](i => 0);
      diagnostics := new ReadFailure[DIAGNOSTIC_LIMIT];
      skippedSectorCount, skippedRegionCount, skippedRequestCount, diagnosticCount := 0, 0, 0, 0;
      requests := [];
      new;
      ClearBitmap(bitmap[..], total);
      ClearBitmap(bitmap[..], 8 * bitmap.Length);
    }

    predicate SectorIsSkipped(lba: nat): (r: bool)
      requires lba / 8 < bitmap.Length
      reads this, bitmap
      ensures lba < total ==> r == Bits()[lba]
    {
      bitmap[lba / 8] & Mask(lba % 8) != 0
    }

    /** Marks the sectors of one request. Only the first can open a new region. */
    method MarkSkipped(start: nat, count: nat)
      requires start + count <= total <= 8 * bitmap.Length && 0 < count
      requires skippedRegionCount == |Runs(Bits())| && skippedSectorCount == Count(Bits()) && ClearFrom(Bits(), start)
      requires Padded(bitmap[..], total)
      modifies this`skippedSectorCount, this`skippedRegionCount, bitmap
      ensures forall i :: 0 <= i < total ==> (Bits()[i] <==> old(Bits())[i] || start <= i < start + count)
      ensures skippedRegionCount == |Runs(Bits())| && skippedSectorCount == Count(Bits())
      ensures skippedSectorCount == old(skippedSectorCount) + count
      ensures skippedRegionCount <= old(skippedRegionCount) + 1 && Padded(bitmap[..], total)
    {
      hide Unpack, Count, Runs, Padded;
      ghost var before := Bits();
      if start == 0 || !SectorIsSkipped(start - 1) {
        skippedRegionCount := skippedRegionCount + 1;
      }
      for offset := 0 to count
        invariant forall i :: 0 <= i < total ==> (Bits()[i] <==> before[i] || start <= i < start + offset)
        invariant skippedSectorCount == Count(Bits()) == old(skippedSectorCount) + offset
        invariant Padded(bitmap[..], total) && skippedRegionCount <= old(skippedRegionCount) + 1
        invariant offset > 0 ==> skippedRegionCount == |Runs(Bits())|
        invariant offset == 0 ==> Bits() == before
                                  && skippedRegionCount
                                     == |Runs(before)| + (if start == 0 || !before[start - 1] then 1 else 0)
      {
        MarkOne(start + offset);
      }
    }

    /** One bit of a skipped request. */
    method MarkOne(lba: nat)
      requires lba < total <= 8 * bitmap.Length && skippedSectorCount == Count(Bits()) && ClearFrom(Bits(), lba)
      requires Padded(bitmap[..], total)
      modifies this`skippedSectorCount, bitmap
      ensures Bits() == old(Bits())[lba := true] && skippedSectorCount == Count(Bits()) == old(skippedSectorCount) + 1
      ensures Padded(bitmap[..], total)
      ensures |Runs(Bits())| == |Runs(old(Bits()))| + (if lba == 0 || !old(Bits())[lba - 1] then 1 else 0)
    {
      ghost var bytes := bitmap[..];
      hide Unpack, Count, Runs, Padded;
      PaddedSet(bytes, total, lba);
      SetBit(bytes, total, lba);
      CountSet(Bits(), lba);
      RunsSetAbove(Bits(), lba);
      bitmap[lba / 8] := bitmap[lba / 8] | Mask(lba % 8);
      assert bitmap[..] == bytes[lba / 8 := bytes[lba / 8] | Mask(lba % 8)];
      skippedSectorCount := skippedSectorCount + 1;
    }

    /** Records one skipped request. */
    method RecordSkip(f: ReadFailure, start: nat, count: nat)
      requires Agrees(start) && ClearFrom(Bits(), start)
      requires f.status.MediumError? && f == ClassifyReadFailure(f.completion) && f.completion.retryOrdinal <= 1
      requires f.completion.requestedLba == start && f.completion.requestedBlocks == count
      requires 0 < count && start + count <= total
      modifies this, bitmap, diagnostics
      ensures Agrees(start + count) && requests == old(requests) + [f]
      ensures forall i :: 0 <= i < total ==> (Bits()[i] <==> old(Bits())[i] || start <= i < start + count)
    {
      hide Unpack, Count, Runs, Tolerated, AnyCovers, BlockSum, Padded;
      ToleratedPush(requests, f);
      MarkSkipped(start, count);
      KeepDiagnostic(f);
    }

    ghost predicate Kept()
      reads this, diagnostics
    {
      && diagnostics.Length == DIAGNOSTIC_LIMIT
      && diagnosticCount == Min(skippedRequestCount, DIAGNOSTIC_LIMIT) && skippedRequestCount == |requests|
      && diagnostics[..diagnosticCount] == requests[..diagnosticCount]
    }

    /** Counts a skipped request and keeps its failure while there is room. */
    method KeepDiagnostic(f: ReadFailure)
      requires Kept()
      modifies this`skippedRequestCount, this`diagnosticCount, this`requests, diagnostics
      ensures Kept() && requests == old(requests) + [f]
    {
      ghost var before := diagnostics[..diagnosticCount];
      skippedRequestCount := skippedRequestCount + 1;
      if diagnosticCount < DIAGNOSTIC_LIMIT {
        diagnostics[diagnosticCount] := f;
        diagnosticCount := diagnosticCount + 1;
        assert diagnostics[..diagnosticCount] == before + [f];
      }
      requests := requests + [f];
    }
  }
}
