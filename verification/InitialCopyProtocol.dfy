/** The parent's side of the first-copy report: it rebuilds the skipped ranges
    from the bitmap and accepts the report only if every number agrees. */
module InitialCopyProtocol {
  import opened Common
  import opened Bits

  const DIAGNOSTIC_LIMIT: nat := 64
  const MAX_UINT32: int := 0xffff_ffff

  datatype Diagnostic = Diagnostic(
    requestedLba: int, requestedBlockCount: int, retryOrdinal: int,
    scsiStatus: int, hostStatus: int, driverStatus: int,
    senseResponseCode: int, senseKey: int, asc: int, ascq: int, informationLba: Option<int>)

  /** The report as the helper prints it; `bitmap` is what the hex text encodes. */
  datatype Message = Message(
    protocolVersion: int, copyPolicyVersion: string,
    declaredByteCount: int, recoveredByteCount: int,
    skippedSectorCount: int, skippedRegionCount: int, bitmap: seq<bv8>,
    skippedRequestCount: int, diagnosticsTruncated: bool, diagnostics: seq<Diagnostic>)

  datatype SourceRange = SourceRange(startLba: int, sectorCount: int) {
    function End(): int { startLba + sectorCount }
  }

  datatype CopyResult = CopyResult(
    copyPolicyVersion: string, declaredByteCount: int, recoveredByteCount: int,
    skippedRequestCount: int, diagnosticsTruncated: bool,
    diagnostics: seq<Diagnostic>, ranges: seq<SourceRange>)

  const COPY_POLICY_VERSION := "dvd-initial-copy-v1"

  predicate InRange(x: int, low: int, high: int) {
    SafeInteger(x) && low <= x <= high
  }

  predicate DiagnosticOk(d: Diagnostic, total: int) {
    var end := d.requestedLba + d.requestedBlockCount;
    && InRange(d.requestedLba, 0, total - 1)
    && InRange(d.requestedBlockCount, 1, MAX_UINT32)
    && SafeInteger(end) && end <= total
    && InRange(d.retryOrdinal, 0, MAX_UINT32)
    && InRange(d.scsiStatus, 0, 0xff) && d.scsiStatus / 2 == 1
    && d.hostStatus == 0
    && InRange(d.driverStatus, 0, 0xffff) && (d.driverStatus % 16 == 0 || d.driverStatus % 16 == 8)
    && (d.senseResponseCode == 0x70 || d.senseResponseCode == 0x72)
    && d.senseKey == 3
    && InRange(d.asc, 0, 0xff) && InRange(d.ascq, 0, 0xff)
    && (d.informationLba.Some? ==> InRange(d.informationLba.value, d.requestedLba, end - 1))
  }

  function ToRange(run: Run): SourceRange {
    SourceRange(run.start, run.count)
  }

  function ToRanges(runs: seq<Run>): seq<SourceRange> {
    seq(|runs|, i requires 0 <= i < |runs| => ToRange(runs[i]))
  }

  /** Rebuilds the skipped ranges from the bitmap. */
  method RangesFromBitmap(bitmap: seq<bv8>, total: nat) returns (ranges: seq<SourceRange>)
    requires BitmapLength(total) <= |bitmap|
    ensures ranges == ToRanges(Runs(Unpack(bitmap, total)))
  {
    hide Unpack, Runs, ToRanges;
    ghost var bits := Unpack(bitmap, total);
    ranges := [];
    ghost var runs: seq<Run> := [];
    var start := -1;
    NoRuns(bits);
    for lba := 0 to total
      invariant ranges == ToRanges(runs) && -1 <= start < lba
      invariant start == -1 && lba > 0 ==> !bits[lba - 1]
      invariant Runs(bits[..lba]) == WithOpen(runs, start, lba)
    {
      var skipped := BitAt(bitmap, lba);
      UnpackedBit(bitmap, total, lba);
      OpenPush(bits, lba, runs, start);
      if skipped && start == -1 {
        start := lba;
      } else if !skipped && start >= 0 {
        ClosePush(runs, start, lba);
        ranges := ranges + [SourceRange(start, lba - start)];
        runs := runs + [Run(start, lba - start)];
        start := -1;
      }
    }
    assert bits[..total] == bits;
    if start >= 0 {
      ClosePush(runs, start, total);
      ranges := ranges + [SourceRange(start, total - start)];
    }
  }

  /** The finished runs, and the one that is still open at `lba`. */
  function WithOpen(runs: seq<Run>, start: int, lba: nat): seq<Run>
    requires start < lba
  {
    if start < 0 then runs else runs + [Run(start, lba - start)]
  }

  lemma NoRuns(bits: seq<bool>)
    ensures Runs(bits[..0]) == [] && ToRanges([]) == []
  {
  }

  lemma ClosePush(runs: seq<Run>, start: nat, lba: nat)
    requires start < lba
    ensures ToRanges(runs + [Run(start, lba - start)]) == ToRanges(runs) + [SourceRange(start, lba - start)]
  {
  }

  lemma OpenPush(bits: seq<bool>, lba: nat, runs: seq<Run>, start: int)
    requires lba < |bits| && -1 <= start < lba && Runs(bits[..lba]) == WithOpen(runs, start, lba)
    requires start == -1 && lba > 0 ==> !bits[lba - 1]
    ensures Runs(bits[..lba + 1]) ==
            if start >= 0 then (if bits[lba] then WithOpen(runs, start, lba + 1) else WithOpen(runs, start, lba))
            else WithOpen(runs, if bits[lba] then lba else -1, lba + 1)
  {
    hide Runs;
    RunsPush(bits, lba);
  }

  lemma UnpackedBit(bitmap: seq<bv8>, total: nat, lba: nat)
    requires BitmapLength(total) <= |bitmap| && lba < total
    ensures lba / 8 < |bitmap| && Unpack(bitmap, total)[lba] == BitAt(bitmap, lba)
  {
  }

  lemma RunsPush(bits: seq<bool>, lba: nat)
    requires lba < |bits|
    ensures
      var before := Runs(bits[..lba]);
      && Runs(bits[..lba + 1]) == NextRuns(before, lba, bits[lba])
      && ((before != [] && before[|before| - 1].End() == lba) <==> (lba > 0 && bits[lba - 1]))
  {
    assert bits[..lba + 1][..lba] == bits[..lba];
    RunsMaximal(bits[..lba]);
    LastRunTouches(bits[..lba], Runs(bits[..lba]));
  }

  /** The set bits of one byte. */
  function ByteCount(b: bv8): nat {
    (if b & 1 != 0 then 1 else 0) + (if b & 2 != 0 then 1 else 0) + (if b & 4 != 0 then 1 else 0)
    + (if b & 8 != 0 then 1 else 0) + (if b & 16 != 0 then 1 else 0) + (if b & 32 != 0 then 1 else 0)
    + (if b & 64 != 0 then 1 else 0) + (if b & 128 != 0 then 1 else 0)
  }

  lemma ByteCountShift(b: bv8)
    ensures ByteCount(b) == (if b & 1 != 0 then 1 else 0) + ByteCount(b >> 1)
    ensures b == 0 ==> ByteCount(b) == 0
    ensures b != 0 ==> (b >> 1) < b
  {
  }

  lemma ByteFlags(bitmap: seq<bv8>, index: nat)
    requires index < |bitmap|
    ensures Count(Unpack(bitmap, 8 * index + 8)) == Count(Unpack(bitmap, 8 * index)) + ByteCount(bitmap[index])
  {
    hide Count, Unpack;
    FlagStep(bitmap, index, 0);
    FlagStep(bitmap, index, 1);
    FlagStep(bitmap, index, 2);
    FlagStep(bitmap, index, 3);
    FlagStep(bitmap, index, 4);
    FlagStep(bitmap, index, 5);
    FlagStep(bitmap, index, 6);
    FlagStep(bitmap, index, 7);
  }

  lemma FlagStep(bitmap: seq<bv8>, index: nat, bit: nat)
    requires index < |bitmap| && bit < 8
    ensures Count(Unpack(bitmap, 8 * index + bit + 1))
         == Count(Unpack(bitmap, 8 * index + bit)) + (if bitmap[index] & Mask(bit) != 0 then 1 else 0)
  {
    var lba := 8 * index + bit;
    assert lba / 8 == index && lba % 8 == bit;
    assert Unpack(bitmap, lba + 1)[..lba] == Unpack(bitmap, lba);
  }

  /** Counts every set bit of the map, padding included. */
  method SkippedSectorCount(bitmap: seq<bv8>) returns (count: nat)
    ensures count == Count(Unpack(bitmap, 8 * |bitmap|))
  {
    count := 0;
    for index := 0 to |bitmap|
      invariant count == Count(Unpack(bitmap, 8 * index))
    {
      hide Count, Unpack;
      ByteFlags(bitmap, index);
      var remaining := bitmap[index];
      ghost var before := count;
      while remaining != 0
        invariant count + ByteCount(remaining) == before + ByteCount(bitmap[index])
        decreases remaining
      {
        hide ByteCount;
        ByteCountShift(remaining);
        count := count + (if remaining & 1 != 0 then 1 else 0);
        remaining := remaining >> 1;
      }
      ByteCountShift(remaining);
    }
  }

  predicate SizesOk(expected: int, accepted: int) {
    && SafeInteger(expected) && expected > 0 && expected % SECTOR_BYTES == 0
    && SafeInteger(accepted) && 0 < accepted <= expected && accepted % SECTOR_BYTES == 0
  }

  function SumSectors(ranges: seq<SourceRange>): int {
    if ranges == [] then 0 else SumSectors(ranges[..|ranges| - 1]) + ranges[|ranges| - 1].sectorCount
  }

  function SumBlocks(diagnostics: seq<Diagnostic>): int {
    if diagnostics == [] then 0
    else SumBlocks(diagnostics[..|diagnostics| - 1]) + diagnostics[|diagnostics| - 1].requestedBlockCount
  }

  predicate RangeOk(r: SourceRange, total: int) {
    && SafeInteger(r.startLba) && r.startLba >= 0 && SafeInteger(r.sectorCount) && r.sectorCount > 0
    && SafeInteger(r.End()) && r.End() <= total
  }

  /** Positive ranges in rising order, each leaving a gap before the next. */
  predicate RangesOk(ranges: seq<SourceRange>, total: int) {
    forall k :: 0 <= k < |ranges| ==>
      RangeOk(ranges[k], total) && (k > 0 ==> ranges[k - 1].End() < ranges[k].startLba)
  }

  lemma RangesStep(ranges: seq<SourceRange>, total: int, index: nat)
    requires index < |ranges| && RangesOk(ranges[..index], total)
    ensures RangesOk(ranges[..index + 1], total) <==>
              RangeOk(ranges[index], total) && (index > 0 ==> ranges[index - 1].End() < ranges[index].startLba)
    ensures SumSectors(ranges[..index + 1]) == SumSectors(ranges[..index]) + ranges[index].sectorCount
  {
    var before, after := ranges[..index], ranges[..index + 1];
    assert after[..index] == before;
    assert after[index] == ranges[index] && (index > 0 ==> after[index - 1] == ranges[index - 1]);
    assert forall k :: 0 <= k < index ==> after[k] == before[k];
  }

  lemma RangesPrefix(ranges: seq<SourceRange>, total: int, index: nat)
    requires index <= |ranges|
    ensures RangesOk(ranges, total) ==> RangesOk(ranges[..index], total)
  {
  }

  predicate InsideRange(d: Diagnostic, r: SourceRange) {
    r.startLba <= d.requestedLba && d.requestedLba + d.requestedBlockCount <= r.End()
  }

  ghost predicate InsideSome(d: Diagnostic, ranges: seq<SourceRange>) {
    exists k :: 0 <= k < |ranges| && InsideRange(d, ranges[k])
  }

  /** Requests in rising order without overlap, each within one range. */
  ghost predicate DiagnosticsOk(diagnostics: seq<Diagnostic>, ranges: seq<SourceRange>, total: int) {
    forall k :: 0 <= k < |diagnostics| ==>
      && DiagnosticOk(diagnostics[k], total) && InsideSome(diagnostics[k], ranges)
      && (k > 0 ==>
            diagnostics[k - 1].requestedLba + diagnostics[k - 1].requestedBlockCount <= diagnostics[k].requestedLba)
  }

  predicate CountsOk(r: CopyResult, expected: int, accepted: int, skipped: int) {
    && r.copyPolicyVersion == COPY_POLICY_VERSION && r.declaredByteCount == expected
    && r.recoveredByteCount == accepted - skipped * SECTOR_BYTES
    && SafeInteger(r.skippedRequestCount) && r.skippedRequestCount >= 0
    && |r.ranges| <= r.skippedRequestCount <= skipped
    && (skipped == 0 <==> r.skippedRequestCount == 0)
    && |r.diagnostics| == Min(r.skippedRequestCount, DIAGNOSTIC_LIMIT)
    && (r.diagnosticsTruncated <==> r.skippedRequestCount > DIAGNOSTIC_LIMIT)
  }

  /** What a result must satisfy to be believed. */
  ghost predicate ValidResult(r: CopyResult, expected: int, accepted: int) {
    && SizesOk(expected, accepted)
    && RangesOk(r.ranges, accepted / SECTOR_BYTES)
    && CountsOk(r, expected, accepted, SumSectors(r.ranges))
    && DiagnosticsOk(r.diagnostics, r.ranges, accepted / SECTOR_BYTES)
    && (!r.diagnosticsTruncated ==> SumBlocks(r.diagnostics) == SumSectors(r.ranges))
  }

  /** The check of a result, in two passes over ranges and diagnostics. */
  method ValidateResult(r: CopyResult, expected: int, accepted: int) returns (ok: bool)
    ensures ok <==> ValidResult(r, expected, accepted)
  {
    if !SizesOk(expected, accepted) {
      return false;
    }
    var total := accepted / SECTOR_BYTES;
    var skipped;
    ok, skipped := ValidateRanges(r.ranges, total);
    if !ok || !CountsOk(r, expected, accepted, skipped) {
      return false;
    }
    var covered;
    ok, covered := ValidateDiagnostics(r.diagnostics, r.ranges, total);
    if ok && !r.diagnosticsTruncated && covered != skipped {
      ok := false;
    }
  }

  method ValidateRanges(ranges: seq<SourceRange>, total: int) returns (ok: bool, skipped: int)
    ensures ok <==> RangesOk(ranges, total)
    ensures ok ==> skipped == SumSectors(ranges)
  {
    skipped := 0;
    var previousEnd := 0;
    for index := 0 to |ranges|
      invariant RangesOk(ranges[..index], total) && skipped == SumSectors(ranges[..index])
      invariant index > 0 ==> previousEnd == ranges[index - 1].End()
    {
      hide RangesOk, SumSectors;
      var range := ranges[index];
      RangesStep(ranges, total, index);
      if !SafeInteger(range.startLba) || range.startLba < 0 || (index > 0 && range.startLba <= previousEnd)
         || !SafeInteger(range.sectorCount) || range.sectorCount <= 0
         || !SafeInteger(range.End()) || range.End() > total {
        RangesPrefix(ranges, total, index + 1);
        return false, skipped;
      }
      skipped := skipped + range.sectorCount;
      previousEnd := range.End();
    }
    assert ranges[..|ranges|] == ranges;
    return true, skipped;
  }

  /** Walks requests and ranges together. A range that ends at or before a
      request cannot hold a later one, so the index never has to go back. */
  method ValidateDiagnostics(diagnostics: seq<Diagnostic>, ranges: seq<SourceRange>, total: int)
    returns (ok: bool, covered: int)
    requires RangesOk(ranges, total)
    ensures ok <==> DiagnosticsOk(diagnostics, ranges, total)
    ensures ok ==> covered == SumBlocks(diagnostics)
  {
    covered := 0;
    var previousEnd, at := 0, 0;
    for index := 0 to |diagnostics|
      invariant DiagnosticsOk(diagnostics[..index], ranges, total) && covered == SumBlocks(diagnostics[..index])
      invariant index > 0 ==>
                  previousEnd == diagnostics[index - 1].requestedLba + diagnostics[index - 1].requestedBlockCount
      invariant index == 0 ==> previousEnd == 0
      invariant 0 <= at <= |ranges| && forall k :: 0 <= k < at ==> ranges[k].End() <= previousEnd
    {
      var d := diagnostics[index];
      if !DiagnosticOk(d, total) || d.requestedLba < previousEnd {
        return false, covered;
      }
      at := SkipRanges(ranges, at, d.requestedLba);
      RangeIsNext(ranges, total, d, at);
      if at == |ranges| || !InsideRange(d, ranges[at]) {
        return false, covered;
      }
      DiagnosticsStep(diagnostics, ranges, total, index);
      covered := covered + d.requestedBlockCount;
      previousEnd := d.requestedLba + d.requestedBlockCount;
    }
    assert diagnostics[..|diagnostics|] == diagnostics;
    return true, covered;
  }

  method SkipRanges(ranges: seq<SourceRange>, start: nat, lba: int) returns (at: nat)
    requires start <= |ranges| && forall k :: 0 <= k < start ==> ranges[k].End() <= lba
    ensures start <= at <= |ranges| && forall k :: 0 <= k < at ==> ranges[k].End() <= lba
    ensures at < |ranges| ==> ranges[at].End() > lba
  {
    at := start;
    while at < |ranges| && ranges[at].End() <= lba
      invariant start <= at <= |ranges| && forall k :: 0 <= k < at ==> ranges[k].End() <= lba
    {
      at := at + 1;
    }
  }

  lemma RangeIsNext(ranges: seq<SourceRange>, total: int, d: Diagnostic, at: nat)
    requires RangesOk(ranges, total) && d.requestedBlockCount >= 1 && at <= |ranges|
    requires forall k :: 0 <= k < at ==> ranges[k].End() <= d.requestedLba
    requires at < |ranges| ==> ranges[at].End() > d.requestedLba
    ensures InsideSome(d, ranges) <==> at < |ranges| && InsideRange(d, ranges[at])
  {
    if InsideSome(d, ranges) {
      var k :| 0 <= k < |ranges| && InsideRange(d, ranges[k]);
      if at < k {
        RangesRise(ranges, total, at, k);
      }
    }
  }

  lemma {:induction false} RangesRise(ranges: seq<SourceRange>, total: int, j: nat, k: nat)
    requires RangesOk(ranges, total) && j < k < |ranges|
    ensures ranges[j].End() < ranges[k].startLba
    decreases k
  {
    if j < k - 1 {
      RangesRise(ranges, total, j, k - 1);
    }
  }

  lemma DiagnosticsStep(diagnostics: seq<Diagnostic>, ranges: seq<SourceRange>, total: int, index: nat)
    requires index < |diagnostics| && DiagnosticsOk(diagnostics[..index], ranges, total)
    requires DiagnosticOk(diagnostics[index], total) && InsideSome(diagnostics[index], ranges)
    requires index > 0 ==>
               diagnostics[index - 1].requestedLba + diagnostics[index - 1].requestedBlockCount
               <= diagnostics[index].requestedLba
    ensures DiagnosticsOk(diagnostics[..index + 1], ranges, total)
    ensures SumBlocks(diagnostics[..index + 1])
            == SumBlocks(diagnostics[..index]) + diagnostics[index].requestedBlockCount
  {
    var before, after := diagnostics[..index], diagnostics[..index + 1];
    assert after[..index] == before;
    forall k | 0 <= k < |after|
      ensures DiagnosticOk(after[k], total) && InsideSome(after[k], ranges)
      ensures k > 0 ==> after[k - 1].requestedLba + after[k - 1].requestedBlockCount <= after[k].requestedLba
    {
      if k < index {
        assert after[k] == before[k] && (k > 0 ==> after[k - 1] == before[k - 1]);
      }
    }
  }

  /** Every bit from `used` up is clear, `byte >>> used === 0`. */
  predicate HighClear(b: bv8, used: nat) {
    forall j :: used <= j < 8 ==> b & Mask(j) == 0
  }

  /** The bitmap the parent works on: none is sent when nothing was skipped. */
  function BitmapOf(m: Message, total: nat): seq<bv8> {
    if m.skippedSectorCount == 0 then seq(BitmapLength(total), i => 0) else m.bitmap
  }

  predicate HeaderOk(m: Message, expected: int, total: nat) {
    && m.protocolVersion == 1 && m.copyPolicyVersion == COPY_POLICY_VERSION && m.declaredByteCount == expected
    && InRange(m.recoveredByteCount, 0, expected)
    && InRange(m.skippedSectorCount, 0, total)
    && InRange(m.skippedRegionCount, 0, total)
    && InRange(m.skippedRequestCount, 0, total)
  }

  predicate BitmapOk(m: Message, total: nat) {
    var bitmap := BitmapOf(m, total);
    && (m.skippedSectorCount == 0 ==> m.bitmap == [])
    && |bitmap| == BitmapLength(total)
    && (total % 8 != 0 ==> HighClear(bitmap[|bitmap| - 1], total % 8))
  }

  predicate NumbersOk(m: Message, accepted: int, ranges: nat, skipped: nat) {
    && skipped == m.skippedSectorCount && ranges == m.skippedRegionCount
    && m.recoveredByteCount == accepted - skipped * SECTOR_BYTES
    && (skipped == 0 <==> m.skippedRequestCount == 0)
    && ranges <= m.skippedRequestCount
  }

  function ResultOf(m: Message, ranges: seq<SourceRange>): CopyResult {
    CopyResult(m.copyPolicyVersion, m.declaredByteCount, m.recoveredByteCount, m.skippedRequestCount,
               m.diagnosticsTruncated, m.diagnostics, ranges)
  }

  /** The reports the parent accepts. */
  ghost predicate AcceptedMessage(m: Message, expected: int, accepted: int) {
    && SizesOk(expected, accepted)
    && var total := expected / SECTOR_BYTES;
    && HeaderOk(m, expected, total) && BitmapOk(m, total)
    && var bitmap := BitmapOf(m, total);
    && var runs := Runs(Unpack(bitmap, total));
    && NumbersOk(m, accepted, |runs|, Count(Unpack(bitmap, 8 * |bitmap|)))
    && (forall k :: 0 <= k < |m.diagnostics| ==> DiagnosticOk(m.diagnostics[k], accepted / SECTOR_BYTES))
    && ValidResult(ResultOf(m, ToRanges(runs)), expected, accepted)
  }

  /** The parser: it accepts exactly the reports above and hands on the ranges
      it rebuilt itself. */
  method ParseResult(m: Message, expected: int, accepted: int) returns (r: Option<CopyResult>)
    ensures r.Some? <==> AcceptedMessage(m, expected, accepted)
    ensures r.Some? ==>
              var total := expected / SECTOR_BYTES;
              r.value == ResultOf(m, ToRanges(Runs(Unpack(BitmapOf(m, total), total))))
  {
    if !SizesOk(expected, accepted) {
      return None;
    }
    var total: nat := expected / SECTOR_BYTES;
    if !HeaderOk(m, expected, total) || !BitmapOk(m, total) {
      return None;
    }
    var bitmap := BitmapOf(m, total);
    var ranges := RangesFromBitmap(bitmap, total);
    var skipped := SkippedSectorCount(bitmap);
    if !NumbersOk(m, accepted, |ranges|, skipped) {
      return None;
    }
    var accept: nat := accepted / SECTOR_BYTES;
    if exists k :: 0 <= k < |m.diagnostics| && !DiagnosticOk(m.diagnostics[k], accept) {
      return None;
    }
    var result := ResultOf(m, ranges);
    var ok := ValidateResult(result, expected, accepted);
    r := if ok then Some(result) else None;
  }
}
