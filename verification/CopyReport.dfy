/** What the helper reports and what the parent believes: every report of a
    first copy is accepted, and the parent rebuilds the very ranges that were
    filled with placeholders. */
module CopyReport {
  import opened Common
  import opened Bits
  import opened Sense
  import opened Rescue
  import opened InitialCopy
  import P = InitialCopyProtocol

  const MAX_DVD_CONTENT_BYTES: nat := 9_000_000_000

  /** A size the helper starts with. */
  predicate DeclaredSize(total: nat) {
    0 < total && total * SECTOR_BYTES <= MAX_DVD_CONTENT_BYTES
  }

  function Optional(o: Option<nat>): Option<int> {
    if o.Some? then Some(o.value) else None
  }

  /** One diagnostic as it is printed. */
  function DiagnosticOf(f: ReadFailure): P.Diagnostic {
    var c := f.completion;
    P.Diagnostic(c.requestedLba, c.requestedBlocks, c.retryOrdinal, c.scsiStatus, c.hostStatus, c.driverStatus,
                 GetOr(f.sense.responseCode), GetOr(f.sense.senseKey), GetOr(f.sense.asc), GetOr(f.sense.ascq),
                 Optional(f.sense.informationLba))
  }

  function DiagnosticsOf(fs: seq<ReadFailure>): seq<P.Diagnostic> {
    seq(|fs|, i requires 0 <= i < |fs| => DiagnosticOf(fs[i]))
  }

  function MessageOf(total: nat, retained: nat, skipped: nat, regions: nat, bitmap: seq<bv8>,
                     requests: nat, diagnostics: seq<ReadFailure>): P.Message {
    P.Message(1, P.COPY_POLICY_VERSION, total * SECTOR_BYTES,
              retained * SECTOR_BYTES - skipped * SECTOR_BYTES, skipped, regions,
              if skipped > 0 then bitmap else [], requests, requests > |diagnostics|, DiagnosticsOf(diagnostics))
  }

  /** Prints the report of a first copy. */
  method EmitInitialCopyResult(total: nat, retained: nat, initial: InitialCopyState)
    returns (status: Status, m: P.Message)
    requires initial.diagnosticCount <= initial.diagnostics.Length
    ensures m == MessageOf(total, retained, initial.skippedSectorCount, initial.skippedRegionCount,
                           initial.bitmap[..], initial.skippedRequestCount,
                           initial.diagnostics[..initial.diagnosticCount])
    ensures !status.ReadFailed?
  {
    m := MessageOf(total, retained, initial.skippedSectorCount, initial.skippedRegionCount, initial.bitmap[..],
                   initial.skippedRequestCount, initial.diagnostics[..initial.diagnosticCount]);
    var written: bool := *;
    status := if written then Done else Broke;
  }

  /** The facts a report rests on, as plain values. */
  ghost predicate Reportable(total: nat, retained: nat, bitmap: seq<bv8>, requests: seq<ReadFailure>) {
    && DeclaredSize(total) && 0 < retained <= total && |bitmap| == BitmapLength(total) && Padded(bitmap, total)
    && Tolerated(requests, retained) && BlockSum(requests) == Count(Unpack(bitmap, total))
    && (forall i :: 0 <= i < total ==> (Unpack(bitmap, total)[i] <==> AnyCovers(requests, i)))
    && |Runs(Unpack(bitmap, total))| <= |requests|
  }

  lemma {:induction false} BlockSumBounds(requests: seq<ReadFailure>, end: nat)
    requires Tolerated(requests, end)
    ensures |requests| <= BlockSum(requests) <= end
  {
    if requests != [] {
      var last := requests[|requests| - 1];
      var before := requests[..|requests| - 1];
      assert forall j, k :: 0 <= j < k < |before| ==> requests[j] == before[j] && requests[k] == before[k];
      assert Tolerated(before, last.completion.requestedLba);
      BlockSumBounds(before, last.completion.requestedLba);
    }
  }

  lemma {:induction false} SumOfRuns(runs: seq<Run>)
    ensures P.SumSectors(P.ToRanges(runs)) == SumCounts(runs)
  {
    if runs != [] {
      SumOfRuns(runs[..|runs| - 1]);
      assert P.ToRanges(runs)[..|runs| - 1] == P.ToRanges(runs[..|runs| - 1]);
    }
  }

  lemma {:induction false} SumOfBlocks(requests: seq<ReadFailure>)
    ensures P.SumBlocks(DiagnosticsOf(requests)) == BlockSum(requests)
  {
    if requests != [] {
      SumOfBlocks(requests[..|requests| - 1]);
      assert DiagnosticsOf(requests)[..|requests| - 1] == DiagnosticsOf(requests[..|requests| - 1]);
    }
  }

  /** A stretch of set flags lies inside one maximal run. */
  lemma StretchInRun(bits: seq<bool>, runs: seq<Run>, start: nat, end: nat) returns (k: nat)
    requires MaximalRuns(bits, runs) && start < end <= |bits|
    requires forall i :: start <= i < end ==> bits[i]
    ensures k < |runs| && runs[k].start <= start && end <= runs[k].End()
  {
    assert Covered(runs, start);
    k :| 0 <= k < |runs| && runs[k].Covers(start);
    RunExtent(bits, runs, k);
  }

  /** The runs stop where the image stops. */
  lemma RunsBelow(total: nat, retained: nat, bitmap: seq<bv8>, requests: seq<ReadFailure>)
    requires Reportable(total, retained, bitmap, requests)
    ensures P.RangesOk(P.ToRanges(Runs(Unpack(bitmap, total))), retained)
  {
    var bits := Unpack(bitmap, total);
    var runs := Runs(bits);
    RunsMaximal(bits);
    forall k | 0 <= k < |runs| ensures runs[k].End() <= retained {
      RunExtent(bits, runs, k);
      assert bits[runs[k].End() - 1];
      var j :| 0 <= j < |requests| && RequestCovers(requests[j], runs[k].End() - 1);
    }
  }

  lemma DiagnosticAccepted(f: ReadFailure, retained: nat)
    requires f == ClassifyReadFailure(f.completion) && f.status.MediumError?
    requires 0 < f.completion.requestedBlocks && RequestEnd(f) <= retained <= P.MAX_UINT32
             && f.completion.retryOrdinal <= 1
    ensures P.DiagnosticOk(DiagnosticOf(f), retained)
  {
    MediumErrorFacts(f.completion);
  }

  lemma DiagnosticsAccepted(total: nat, retained: nat, bitmap: seq<bv8>, requests: seq<ReadFailure>, n: nat)
    requires Reportable(total, retained, bitmap, requests) && n <= |requests|
    ensures P.DiagnosticsOk(DiagnosticsOf(requests[..n]), P.ToRanges(Runs(Unpack(bitmap, total))), retained)
  {
    var bits := Unpack(bitmap, total);
    var runs := Runs(bits);
    RunsMaximal(bits);
    forall k | 0 <= k < n
      ensures P.DiagnosticOk(DiagnosticOf(requests[k]), retained)
      ensures P.InsideSome(DiagnosticOf(requests[k]), P.ToRanges(runs))
    {
      DiagnosticAccepted(requests[k], retained);
      assert forall i :: requests[k].completion.requestedLba <= i < RequestEnd(requests[k]) ==>
               RequestCovers(requests[k], i);
      var m := StretchInRun(bits, runs, requests[k].completion.requestedLba, RequestEnd(requests[k]));
      assert P.InsideRange(DiagnosticOf(requests[k]), P.ToRanges(runs)[m]);
    }
  }

  /** Nothing was skipped exactly when no bit is set. */
  lemma BitmapAccepted(total: nat, retained: nat, bitmap: seq<bv8>, requests: seq<ReadFailure>, m: P.Message)
    requires Reportable(total, retained, bitmap, requests)
    requires m.skippedSectorCount == Count(Unpack(bitmap, total))
    requires m.bitmap == if m.skippedSectorCount > 0 then bitmap else []
    ensures P.BitmapOk(m, total)
    ensures Unpack(P.BitmapOf(m, total), total) == Unpack(bitmap, total)
    ensures |P.BitmapOf(m, total)| == |bitmap|
    ensures Count(Unpack(P.BitmapOf(m, total), 8 * |bitmap|)) == m.skippedSectorCount
  {
    hide Unpack, Count;
    var bits := Unpack(bitmap, total);
    CountBound(bits);
    if m.skippedSectorCount == 0 {
      var zeros := P.BitmapOf(m, total);
      ClearBitmap(zeros, total);
      ClearBitmap(zeros, 8 * |bitmap|);
      assert forall j :: 0 <= j < 8 ==> (0 as bv8) & Mask(j) == 0;
    } else {
      CountConcat(bits, AllClear(8 * |bitmap| - total));
      CountClear(AllClear(8 * |bitmap| - total));
      PaddingHigh(bitmap, total);
    }
  }

  lemma PaddingHigh(bitmap: seq<bv8>, total: nat)
    requires |bitmap| == BitmapLength(total) && Padded(bitmap, total)
    ensures total % 8 != 0 ==> P.HighClear(bitmap[|bitmap| - 1], total % 8)
  {
    if total % 8 == 0 {
      return;
    }
    var last := |bitmap| - 1;
    var wide := Unpack(bitmap, 8 * |bitmap|);
    forall j | total % 8 <= j < 8 ensures bitmap[last] & Mask(j) == 0 {
      var lba := 8 * last + j;
      assert lba / 8 == last && lba % 8 == j;
      assert !wide[lba];
    }
  }

  /** The numbers of the report, apart from the lists behind them. */
  lemma NumbersAccepted(total: nat, retained: nat, skipped: nat, bitmap: seq<bv8>, requests: nat,
                        kept: seq<ReadFailure>, ranges: seq<P.SourceRange>)
    requires DeclaredSize(total) && 0 < retained <= total
    requires |ranges| <= requests <= skipped <= retained && (skipped == 0 <==> requests == 0)
    requires |kept| == Min(requests, DIAGNOSTIC_LIMIT)
    ensures
      var m := MessageOf(total, retained, skipped, |ranges|, bitmap, requests, kept);
      && P.SizesOk(total * SECTOR_BYTES, retained * SECTOR_BYTES)
      && P.HeaderOk(m, total * SECTOR_BYTES, total)
      && P.NumbersOk(m, retained * SECTOR_BYTES, |ranges|, skipped)
      && P.CountsOk(P.ResultOf(m, ranges), total * SECTOR_BYTES, retained * SECTOR_BYTES, skipped)
      && (m.diagnosticsTruncated <==> requests > DIAGNOSTIC_LIMIT)
  {
  }

  lemma RequestCount(total: nat, retained: nat, bitmap: seq<bv8>, requests: seq<ReadFailure>)
    requires Reportable(total, retained, bitmap, requests)
    ensures
      var bits := Unpack(bitmap, total);
      |Runs(bits)| <= |requests| <= Count(bits) <= retained && (Count(bits) == 0 <==> |requests| == 0)
  {
    BlockSumBounds(requests, retained);
  }

  /** A report that follows from these facts is accepted by the parent, and the
      bitmap it works on has exactly the flags of the helper's map. */
  lemma ReportAccepted(total: nat, retained: nat, bitmap: seq<bv8>, requests: seq<ReadFailure>)
    requires Reportable(total, retained, bitmap, requests)
    ensures
      var bits := Unpack(bitmap, total);
      var m := MessageOf(total, retained, Count(bits), |Runs(bits)|, bitmap, |requests|,
                         requests[..Min(|requests|, DIAGNOSTIC_LIMIT)]);
      && P.AcceptedMessage(m, total * SECTOR_BYTES, retained * SECTOR_BYTES)
      && Unpack(P.BitmapOf(m, total), total) == bits
  {
    hide Unpack, Count, Runs, BlockSum, Tolerated, AnyCovers, P.DiagnosticsOk, P.RangesOk, P.SumBlocks, P.SumSectors,
         P.SizesOk, P.HeaderOk, P.NumbersOk, P.CountsOk, P.BitmapOk, P.BitmapOf;
    var bits := Unpack(bitmap, total);
    var ranges := P.ToRanges(Runs(bits));
    var n := Min(|requests|, DIAGNOSTIC_LIMIT);
    var m := MessageOf(total, retained, Count(bits), |Runs(bits)|, bitmap, |requests|, requests[..n]);
    RequestCount(total, retained, bitmap, requests);
    NumbersAccepted(total, retained, Count(bits), bitmap, |requests|, requests[..n], ranges);
    BitmapAccepted(total, retained, bitmap, requests, m);
    RunsBelow(total, retained, bitmap, requests);
    RunsSum(bits);
    SumOfRuns(Runs(bits));
    DiagnosticsAccepted(total, retained, bitmap, requests, n);
    SumOfBlocks(requests[..n]);
    assert n == |requests| ==> requests[..n] == requests;
    DiagnosticsAlone(m.diagnostics, ranges, retained);
  }

  lemma DiagnosticsAlone(diagnostics: seq<P.Diagnostic>, ranges: seq<P.SourceRange>, retained: int)
    requires P.DiagnosticsOk(diagnostics, ranges, retained)
    ensures forall k :: 0 <= k < |diagnostics| ==> P.DiagnosticOk(diagnostics[k], retained)
  {
  }
}
