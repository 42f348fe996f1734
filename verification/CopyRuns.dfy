/** Whole runs of the copier: the read loop and the three ways it is started. */
module CopyRuns {
  import opened Bits
  import opened Sense
  import opened Drive
  import opened Rescue
  import opened Boundary
  import opened Copier
  import opened InitialCopy

  ghost function SkipBits(initial: InitialCopyState?, total: nat): (bits: seq<bool>)
    reads initial, if initial == null then {} else {initial.bitmap}
    ensures initial == null ==> bits == AllClear(total)
  {
    if initial == null then AllClear(total) else initial.Bits()
  }

  /** Either the damage map is in use, or the map of the first copy. */
  ghost predicate OneMap(recovery: RecoveryState, initial: InitialCopyState?)
    reads recovery, recovery.bitmap
  {
    if initial == null then recovery.total <= 8 * recovery.bitmap.Length
    else
      && initial.total == recovery.total && recovery.Bits() == AllClear(recovery.total)
      && recovery.bitmap != initial.bitmap && recovery.bitmap as object != initial.diagnostics as object
  }

  /** The read loop is between two requests. */
  ghost predicate Copying(trace: seq<ReadEvent>, image: Image, recovery: RecoveryState, initial: InitialCopyState?,
                          processed: Counter, base: nat)
    reads image, recovery, recovery.bitmap, processed, initial,
          if initial == null then {} else {initial.bitmap as object, initial.diagnostics}
  {
    && OneMap(recovery, initial)
    && Ready(trace, image, recovery, processed, base, SkipBits(initial, recovery.total))
    && (initial != null ==> initial.Agrees(processed.value))
  }

  /** The drive's own position is `lba`. */
  predicate Positioned(trace: seq<ReadEvent>, lba: nat) {
    if trace == [] then lba == 0
    else
      var last := trace[|trace| - 1];
      last.outcome.Success? && last.lba + |last.outcome.data| == lba
  }

  lemma SeekDisciplinePush(trace: seq<ReadEvent>, e: ReadEvent)
    requires SeekDiscipline(trace, 0) && (e.absolute || Positioned(trace, e.lba))
    ensures SeekDiscipline(trace + [e], 0)
  {
    var later := trace + [e];
    forall i | 0 <= i < |later| ensures ContinuesAt(later, i) {
      if i < |trace| {
        assert ContinuesAt(trace, i);
      }
    }
  }

  /** The drive reported an error of an earlier command, in the medium. */
  predicate Deferred(e: ReadEvent) {
    e.outcome.Failed? && e.outcome.failure.status.TerminalFailure? && HasDeferredMediumSense(e.outcome.failure)
  }

  /** The content read of one request. It is repeated, once and with a seek, just
      when it is the first of a fresh image and the drive reports a deferred error. */
  method ReadContent(drive: Drive, lba: nat, count: nat, absolute: bool) returns (answer: Outcome, ordinal: nat)
    requires 0 < count && SeekDiscipline(drive.trace, 0) && (absolute || Positioned(drive.trace, lba))
    modifies drive
    ensures old(drive.trace) < drive.trace && SeekDiscipline(drive.trace, 0)
    ensures ContentReads(drive.trace) <= ContentReads(old(drive.trace)) + 2
    ensures
      var first := drive.trace[|old(drive.trace)|];
      && first.lba == lba && first.count == count && first.absolute == absolute && !first.probe
      && (ordinal == 1 <==> lba == 0 && Deferred(first))
    ensures
      var last := drive.trace[|drive.trace| - 1];
      && Legal(last) && last == ReadEvent(lba, count, if ordinal == 1 then true else absolute, false, answer)
    ensures |drive.trace| == |old(drive.trace)| + 1 + ordinal && ordinal <= 1
    ensures answer.Failed? ==> answer.failure.completion.retryOrdinal == ordinal
  {
    ordinal := 0;
    ghost var trace := drive.trace;
    answer := drive.BackendRead(lba, count, absolute, 0, false);
    ContentReadsPush(trace, ReadEvent(lba, count, absolute, false, answer));
    SeekDisciplinePush(trace, ReadEvent(lba, count, absolute, false, answer));
    if lba == 0 && answer.Failed? && answer.failure.status.TerminalFailure? && HasDeferredMediumSense(answer.failure) {
      ordinal := 1;
      trace := drive.trace;
      answer := drive.BackendRead(lba, count, true, 1, false);
      ContentReadsPush(trace, ReadEvent(lba, count, true, false, answer));
      SeekDisciplinePush(trace, ReadEvent(lba, count, true, false, answer));
    }
  }

  /** Every medium error so far, but the last command's, was met by a request that
      ends at or below `limit`. */
  ghost predicate EarlierUpTo(trace: seq<ReadEvent>, limit: nat) {
    trace != [] && MediumUpTo(trace[..|trace| - 1], 0, limit)
  }

  lemma ReadKeepsEarlier(before: seq<ReadEvent>, trace: seq<ReadEvent>, limit: nat)
    requires before < trace && |trace| <= |before| + 2 && MediumUpTo(before, 0, limit)
    requires |trace| == |before| + 2 ==> !IsMedium(trace[|before|])
    ensures EarlierUpTo(trace, limit)
    ensures !IsMedium(trace[|trace| - 1]) ==> MediumUpTo(trace, 0, limit)
  {
  }

  lemma CopyingGrows(trace: seq<ReadEvent>, later: seq<ReadEvent>, image: Image, recovery: RecoveryState,
                     initial: InitialCopyState?, processed: Counter, base: nat)
    requires trace <= later && Copying(trace, image, recovery, initial, processed, base)
    ensures Copying(later, image, recovery, initial, processed, base)
  {
    SoundGrows(trace, later, base, image.sectors, recovery.Bits(), SkipBits(initial, recovery.total));
  }

  /** The request at the end of the trace delivered something. */
  method TakeDelivered(drive: Drive, image: Image, recovery: RecoveryState, initial: InitialCopyState?,
                       processed: Counter, data: seq<Sector>, ghost trace: seq<ReadEvent>, ghost e: ReadEvent,
                       ghost base: nat)
    returns (ok: bool)
    requires drive.trace == trace + [e] && Copying(trace, image, recovery, initial, processed, base)
    requires e.outcome == Success(data) && e.lba == processed.value && processed.value + |data| <= recovery.total
    modifies image, processed
    ensures old(image.sectors) <= image.sectors
    ensures ok ==> Copying(drive.trace, image, recovery, initial, processed, base)
    ensures processed.value == old(processed.value) + |data|
    ensures OneMap(recovery, initial) && !recovery.boundaryFailure && !recovery.boundaryProven
  {
    SoundAppend(trace, e, base, image.sectors, recovery.Bits(), SkipBits(initial, recovery.total));
    if initial != null {
      AgreesLater(initial, processed.value, processed.value + |data|);
    }
    ClearLater(recovery.Bits(), processed.value, processed.value + |data|);
    ClearLater(SkipBits(initial, recovery.total), processed.value, processed.value + |data|);
    hide Sound, Unpack, Count, Runs, InitialCopyState.Agrees, OneMap, SkipBits, RecoveryState.Counted, ClearFrom,
         ClearBelow, Copying;
    ok := ConsumeBlocks(image, data, processed);
    if ok {
      CopyingIs(drive.trace, image, recovery, initial, processed, base);
    }
  }

  lemma ClearLater(bits: seq<bool>, lba: nat, later: nat)
    requires ClearFrom(bits, lba) && lba <= later
    ensures ClearFrom(bits, later)
  {
  }

  lemma CopyingIs(trace: seq<ReadEvent>, image: Image, recovery: RecoveryState, initial: InitialCopyState?,
                  processed: Counter, base: nat)
    requires OneMap(recovery, initial) && image.offset == |image.sectors| == processed.value <= recovery.total
    requires recovery.Counted() && ClearFrom(recovery.Bits(), processed.value) && ClearBelow(recovery.Bits(), base)
    requires |SkipBits(initial, recovery.total)| == recovery.total
    requires ClearFrom(SkipBits(initial, recovery.total), processed.value)
    requires Sound(trace, base, image.sectors, recovery.Bits(), SkipBits(initial, recovery.total))
    requires !recovery.boundaryFailure && !recovery.boundaryProven
    requires initial != null ==> initial.Agrees(processed.value)
    ensures Copying(trace, image, recovery, initial, processed, base)
  {
  }

  lemma LaterEnd(requests: seq<ReadFailure>, end: nat, later: nat)
    requires Tolerated(requests, end) && end <= later
    ensures Tolerated(requests, later)
  {
  }

  /** Fills a failed request of the first copy with placeholders and goes on. */
  method SkipRequest(drive: Drive, image: Image, recovery: RecoveryState, initial: InitialCopyState,
                     f: ReadFailure, processed: Counter, ghost base: nat)
    returns (ok: bool)
    requires Copying(drive.trace, image, recovery, initial, processed, base)
    requires drive.trace != [] && drive.trace[|drive.trace| - 1].outcome == Failed(f)
    requires Legal(drive.trace[|drive.trace| - 1]) && drive.trace[|drive.trace| - 1].lba == processed.value
    requires f.status.MediumError? && f.completion.retryOrdinal <= 1 && 0 < f.completion.requestedBlocks
    requires processed.value + f.completion.requestedBlocks <= recovery.total
    modifies image, processed, initial, initial.bitmap, initial.diagnostics
    ensures old(image.sectors) <= image.sectors
    ensures ok ==> Copying(drive.trace, image, recovery, initial, processed, base)
    ensures processed.value == old(processed.value) + f.completion.requestedBlocks
    ensures OneMap(recovery, initial) && !recovery.boundaryFailure && !recovery.boundaryProven
  {
    hide Sound, Unpack, Count, Runs, Tolerated, AnyCovers, InitialCopyState.Agrees;
    var start, count := processed.value, f.completion.requestedBlocks;
    ghost var before, sectors := initial.Bits(), image.sectors;
    var zeros := seq(count, i => ZERO_SECTOR);
    ok := ConsumeBlocks(image, zeros, processed);
    if ok {
      initial.RecordSkip(f, start, count);
      SoundSkip(drive.trace, base, sectors, count, recovery.Bits(), before, initial.Bits());
    }
  }

  lemma SoundSkip(trace: seq<ReadEvent>, base: nat, sectors: seq<Sector>, count: nat, bad: seq<bool>,
                  before: seq<bool>, after: seq<bool>)
    requires Sound(trace, base, sectors, bad, before) && |after| == |before| && |sectors| + count <= |bad|
    requires forall i :: 0 <= i < |after| ==> (after[i] <==> before[i] || |sectors| <= i < |sectors| + count)
    requires ClearFrom(bad, |sectors|)
    requires trace != [] && IsMedium(trace[|trace| - 1])
    requires trace[|trace| - 1].lba == |sectors| && trace[|trace| - 1].count == count
    ensures Sound(trace, base, sectors + seq(count, i => ZERO_SECTOR), bad, after)
  {
    var longer := sectors + seq(count, i => ZERO_SECTOR);
    forall i | base <= i < |longer| ensures Evidence(trace, i, longer[i], bad[i], after[i]) {
      if i < |sectors| {
        assert Evidence(trace, i, sectors[i], bad[i], before[i]);
      } else {
        assert Skipped(trace, i);
      }
    }
  }

  /** Recovers a request whose first read, the last command, was a medium error. */
  method RecoverRequest(drive: Drive, image: Image, recovery: RecoveryState, f: ReadFailure, processed: Counter,
                        ordinal: nat, ghost base: nat)
    returns (status: Status)
    requires Copying(drive.trace, image, recovery, null, processed, base)
    requires drive.trace != [] && drive.trace[|drive.trace| - 1].outcome == Failed(f) && f.status.MediumError?
    requires
      var last := drive.trace[|drive.trace| - 1];
      && Legal(last) && !last.probe && last.lba == processed.value && 0 < last.count <= READ_BLOCKS
      && processed.value + last.count <= recovery.total
    requires base <= processed.value && EarlierUpTo(drive.trace, processed.value)
    modifies drive, image, processed, recovery`badSectorCount, recovery`badAreaCount, recovery`boundaryFailure,
             recovery`boundaryRetained, recovery`boundaryProven, recovery.bitmap
    ensures Seeking(old(drive.trace), drive.trace) && old(image.sectors) <= image.sectors
    ensures ContentReads(drive.trace) <= ContentReads(old(drive.trace)) + 4 * f.completion.requestedBlocks - 2
    ensures status.Done? ==>
              && Copying(drive.trace, image, recovery, null, processed, base)
              && processed.value == old(processed.value) + f.completion.requestedBlocks
              && MediumUpTo(drive.trace, 0, processed.value)
    ensures recovery.boundaryProven ==> recovery.boundaryFailure
    ensures recovery.boundaryFailure ==>
              !status.Done? && BoundaryLeft(drive.trace, image, recovery, base, AllClear(recovery.total))
  {
    var evidence := new ConflictEvidence();
    ghost var from := |drive.trace| - 1;
    ghost var e := drive.trace[from];
    assert drive.trace[from..] == [] + [e];
    InformationInRequest(f.completion);
    evidence.Record(f, e.lba, [], e);
    ghost var trace := drive.trace;
    status := RecoverRange(drive, image, recovery, evidence, processed.value, f.completion.requestedBlocks, processed,
                           ordinal + 1, base, AllClear(recovery.total), from, e.lba);
    if status.Done? {
      UpToLater(trace, drive.trace, e.lba, processed.value);
    }
  }

  lemma UpToLater(trace: seq<ReadEvent>, later: seq<ReadEvent>, earlier: nat, limit: nat)
    requires trace <= later && EarlierUpTo(trace, earlier) && earlier <= limit
    requires trace[|trace| - 1].lba + trace[|trace| - 1].count <= limit && MediumUpTo(later, |trace|, limit)
    ensures MediumUpTo(later, 0, limit)
  {
    forall i | 0 <= i < |later| && IsMedium(later[i])
      ensures later[i].lba + later[i].count <= limit
    {
      if i < |trace| - 1 {
        assert later[i] == trace[..|trace| - 1][i];
      }
    }
  }

  /** A failure that ends the copy. The counter of what may stay without a proof
      is the very counter that a proof attempt advances. */
  method StopCopy(drive: Drive, image: Image, recovery: RecoveryState, initial: InitialCopyState?,
                  f: ReadFailure, processed: Counter, ghost base: nat)
    returns (status: Status)
    requires Copying(drive.trace, image, recovery, initial, processed, base)
    requires drive.trace != [] && drive.trace[|drive.trace| - 1].outcome == Failed(f) && !f.status.MediumError?
    requires
      var last := drive.trace[|drive.trace| - 1];
      Legal(last) && !last.probe && last.lba == processed.value && 0 < last.count <= READ_BLOCKS
    requires base <= processed.value && EarlierUpTo(drive.trace, processed.value)
    modifies drive, image, processed, recovery`boundaryFailure, recovery`boundaryRetained, recovery`boundaryProven
    ensures !status.Done? && Seeking(old(drive.trace), drive.trace) && old(image.sectors) <= image.sectors
    ensures ContentReads(drive.trace) == ContentReads(old(drive.trace))
    ensures recovery.boundaryProven ==> recovery.boundaryFailure
    ensures recovery.boundaryFailure ==>
              BoundaryLeft(drive.trace, image, recovery, base, SkipBits(initial, recovery.total))
    ensures recovery.boundaryFailure && initial != null ==> recovery.boundaryRetained == |image.sectors|
  {
    if f.status.OutOfRange? {
      status := ProveAtEnd(drive, image, recovery, initial, f, processed, base);
    } else {
      var retained := recovery.BoundaryRetained(processed.value);
      status := EmitReadFailure(f, recovery, retained);
    }
  }

  method ProveAtEnd(drive: Drive, image: Image, recovery: RecoveryState, initial: InitialCopyState?,
                    f: ReadFailure, processed: Counter, ghost base: nat)
    returns (status: Status)
    requires Copying(drive.trace, image, recovery, initial, processed, base)
    requires drive.trace != [] && drive.trace[|drive.trace| - 1].outcome == Failed(f) && f.status.OutOfRange?
    requires
      var last := drive.trace[|drive.trace| - 1];
      Legal(last) && !last.probe && last.lba == processed.value && 0 < last.count <= READ_BLOCKS
    requires base <= processed.value && EarlierUpTo(drive.trace, processed.value)
    modifies drive, image, processed, recovery`boundaryFailure, recovery`boundaryRetained, recovery`boundaryProven
    ensures !status.Done? && Seeking(old(drive.trace), drive.trace) && old(image.sectors) <= image.sectors
    ensures ContentReads(drive.trace) == ContentReads(old(drive.trace))
    ensures recovery.boundaryProven ==> recovery.boundaryFailure
    ensures recovery.boundaryFailure ==>
              BoundaryLeft(drive.trace, image, recovery, base, SkipBits(initial, recovery.total))
    ensures recovery.boundaryFailure && initial != null ==> recovery.boundaryRetained == |image.sectors|
  {
    hide Unpack, Count, Runs, Tolerated, AnyCovers, Sound, ContentReads, ProvenBoundary, SkipBits,
         InitialCopyState.Agrees;
    ghost var trace, sectors, k := drive.trace, image.sectors, |drive.trace| - 1;
    ghost var lba, candidate := processed.value, f.sense.informationLba.value;
    assert trace[k..] == [trace[k]] && trace[k + 1..] == [];
    InformationInRequest(f.completion);
    LoneFailure(trace[k], candidate);
    NotCovered(trace, lba);
    status := ProveBoundaryCandidate(drive, image, recovery, f, processed, processed, k);
    OnlyProbesCost(trace, drive.trace);
    if recovery.boundaryFailure {
      AttemptLeaves(trace, drive.trace, k, candidate, sectors, image.sectors, recovery.total, recovery.Bits(), base,
                    SkipBits(initial, recovery.total), recovery.boundaryRetained, recovery.boundaryProven);
    }
  }

  lemma NotCovered(trace: seq<ReadEvent>, lba: nat)
    requires EarlierUpTo(trace, lba) && !IsMedium(trace[|trace| - 1])
    ensures !MediumCovers(trace, lba)
  {
    forall i | 0 <= i < |trace| && IsMedium(trace[i])
      ensures trace[i].lba + trace[i].count <= lba
    {
      assert trace[i] == trace[..|trace| - 1][i];
    }
  }

  lemma SeekDisciplineAfter(trace: seq<ReadEvent>, later: seq<ReadEvent>)
    requires SeekDiscipline(trace, 0) && Seeking(trace, later)
    ensures SeekDiscipline(later, 0)
  {
    SeekDisciplineGrows(trace, later, 0);
  }

  /** A request of the read loop failed: skip it, recover it or stop. */
  method FailedRequest(drive: Drive, image: Image, recovery: RecoveryState, initial: InitialCopyState?,
                       f: ReadFailure, processed: Counter, ordinal: nat, ghost base: nat)
    returns (status: Status)
    requires Copying(drive.trace, image, recovery, initial, processed, base) && base <= processed.value
    requires drive.trace != [] && drive.trace[|drive.trace| - 1].outcome == Failed(f)
    requires f.completion.retryOrdinal == ordinal <= 1 && EarlierUpTo(drive.trace, processed.value)
    requires
      var last := drive.trace[|drive.trace| - 1];
      && Legal(last) && !last.probe && last.lba == processed.value && 0 < last.count <= READ_BLOCKS
      && processed.value + last.count <= recovery.total
    modifies drive, image, processed, recovery`badSectorCount, recovery`badAreaCount, recovery`boundaryFailure,
             recovery`boundaryRetained, recovery`boundaryProven, recovery.bitmap
    modifies initial, if initial == null then {} else {initial.bitmap as object, initial.diagnostics}
    ensures Seeking(old(drive.trace), drive.trace) && old(image.sectors) <= image.sectors
    ensures ContentReads(drive.trace) <= ContentReads(old(drive.trace)) + 4 * f.completion.requestedBlocks - 2
    ensures status.Done? ==>
              && Copying(drive.trace, image, recovery, initial, processed, base)
              && processed.value == old(processed.value) + f.completion.requestedBlocks
              && MediumUpTo(drive.trace, 0, processed.value)
    ensures recovery.boundaryProven ==> recovery.boundaryFailure
    ensures recovery.boundaryFailure ==>
              !status.Done? && BoundaryLeft(drive.trace, image, recovery, base, SkipBits(initial, recovery.total))
    ensures recovery.boundaryFailure && initial != null ==>
              recovery.boundaryRetained == |image.sectors| && initial.Agrees(old(processed.value))
  {
    hide Unpack, Count, Runs, Tolerated, AnyCovers, Sound, ContentReads, BoundaryLeft, InitialCopyState.Agrees;
    if !f.status.MediumError? {
      status := StopCopy(drive, image, recovery, initial, f, processed, base);
    } else if initial != null {
      var ok := SkipRequest(drive, image, recovery, initial, f, processed, base);
      UpToLater(drive.trace, drive.trace, old(processed.value), processed.value);
      status := if ok then Done else Broke;
    } else {
      status := RecoverRequest(drive, image, recovery, f, processed, ordinal, base);
    }
  }

  /** One turn of the read loop. `seek` tells the next turn to seek first. */
  method CopyRequest(drive: Drive, image: Image, recovery: RecoveryState, initial: InitialCopyState?,
                     processed: Counter, requested: nat, absolute: bool, ghost base: nat)
    returns (status: Status, seek: bool)
    requires Copying(drive.trace, image, recovery, initial, processed, base) && base <= processed.value
    requires 0 < requested <= READ_BLOCKS && processed.value + requested <= recovery.total
    requires SeekDiscipline(drive.trace, 0) && (absolute || Positioned(drive.trace, processed.value))
    requires MediumUpTo(drive.trace, 0, processed.value)
    modifies drive, image, processed, recovery`badSectorCount, recovery`badAreaCount, recovery`boundaryFailure,
             recovery`boundaryRetained, recovery`boundaryProven, recovery.bitmap
    modifies initial, if initial == null then {} else {initial.bitmap as object, initial.diagnostics}
    ensures SeekDiscipline(drive.trace, 0) && old(image.sectors) <= image.sectors
    ensures ContentReads(drive.trace) <= ContentReads(old(drive.trace)) + 4 * requested
    ensures status.Done? ==>
              && Copying(drive.trace, image, recovery, initial, processed, base)
              && old(processed.value) < processed.value <= old(processed.value) + requested
              && ContentReads(drive.trace)
                 <= ContentReads(old(drive.trace)) + 4 * (processed.value - old(processed.value))
              && (seek || Positioned(drive.trace, processed.value)) && MediumUpTo(drive.trace, 0, processed.value)
    ensures recovery.boundaryProven ==> recovery.boundaryFailure
    ensures recovery.boundaryFailure ==>
              !status.Done? && BoundaryLeft(drive.trace, image, recovery, base, SkipBits(initial, recovery.total))
    ensures recovery.boundaryFailure && initial != null ==>
              recovery.boundaryRetained == |image.sectors| && initial.Agrees(old(processed.value))
  {
    hide Unpack, Count, Runs, Sound, ContentReads, BoundaryLeft, SeekDiscipline, InitialCopyState.Agrees, Copying,
         SkipBits;
    CopyingMeans(drive.trace, image, recovery, initial, processed, base);
    ghost var before := drive.trace;
    var start := processed.value;
    var answer, ordinal := ReadContent(drive, start, requested, absolute);
    ghost var trace := drive.trace;
    CopyingGrows(before, trace, image, recovery, initial, processed, base);
    ReadKeepsEarlier(before, trace, start);
    seek := false;
    match answer {
      case Fatal =>
        status := Broke;
      case Ended =>
        status := Broke;
      case Success(data) =>
        ghost var shorter := trace[..|trace| - 1];
        assert trace == shorter + [trace[|trace| - 1]];
        CopyingGrows(before, shorter, image, recovery, initial, processed, base);
        var ok := TakeDelivered(drive, image, recovery, initial, processed, data, shorter, trace[|trace| - 1], base);
        status := if ok then Done else Broke;
      case Failed(f) =>
        status := FailedRequest(drive, image, recovery, initial, f, processed, ordinal, base);
        SeekDisciplineAfter(trace, drive.trace);
        seek := true;
    }
  }

  lemma CopyingMeans(trace: seq<ReadEvent>, image: Image, recovery: RecoveryState, initial: InitialCopyState?,
                     processed: Counter, base: nat)
    requires Copying(trace, image, recovery, initial, processed, base)
    ensures image.offset == |image.sectors| == processed.value
    ensures !recovery.boundaryFailure && !recovery.boundaryProven
    ensures OneMap(recovery, initial)
  {
  }

  /** Reads the disc from `initialCount` to its declared end. */
  method ReadDisc(drive: Drive, image: Image, recovery: RecoveryState, initial: InitialCopyState?, initialCount: nat)
    returns (status: Status)
    requires drive.trace == [] && image.offset == |image.sectors| == initialCount <= recovery.total
    requires OneMap(recovery, initial) && recovery.Counted() && recovery.Bits() == AllClear(recovery.total)
    requires !recovery.boundaryFailure && !recovery.boundaryProven
    requires initial != null ==> initial.Agrees(0) && initial.Bits() == AllClear(recovery.total)
    modifies drive, image, recovery`badSectorCount, recovery`badAreaCount, recovery`boundaryFailure,
             recovery`boundaryRetained, recovery`boundaryProven, recovery.bitmap
    modifies initial, if initial == null then {} else {initial.bitmap as object, initial.diagnostics}
    ensures SeekDiscipline(drive.trace, 0) && old(image.sectors) <= image.sectors
    ensures ContentReads(drive.trace) <= 4 * (recovery.total - initialCount)
    ensures status.Done? ==>
              && |image.sectors| == recovery.total && recovery.Counted() && ClearBelow(recovery.Bits(), initialCount)
              && Sound(drive.trace, initialCount, image.sectors, recovery.Bits(), SkipBits(initial, recovery.total))
              && (initial != null ==> initial.Agrees(recovery.total))
    ensures recovery.boundaryProven ==> recovery.boundaryFailure
    ensures recovery.boundaryFailure ==>
              !status.Done?
              && BoundaryLeft(drive.trace, image, recovery, initialCount, SkipBits(initial, recovery.total))
    ensures recovery.boundaryFailure && initial != null ==>
              recovery.boundaryRetained == |image.sectors| && initial.Agrees(|image.sectors|)
  {
    hide Unpack, Count, Runs, BoundaryLeft, Evidence, Tolerated, AnyCovers, InitialCopyState.Shape;
    var processed := new Counter(initialCount);
    var remaining := recovery.total - initialCount;
    var seek := initialCount > 0;
    if initial != null {
      LaterEnd(initial.requests, 0, initialCount);
    }
    while remaining > 0
      invariant remaining == recovery.total - processed.value && initialCount <= processed.value <= recovery.total
      invariant Copying(drive.trace, image, recovery, initial, processed, initialCount)
      invariant SeekDiscipline(drive.trace, 0) && (seek || Positioned(drive.trace, processed.value))
      invariant old(image.sectors) <= image.sectors
      invariant ContentReads(drive.trace) <= 4 * (processed.value - initialCount)
      invariant MediumUpTo(drive.trace, 0, processed.value)
      decreases remaining
    {
      hide *;
      CopyingMeans(drive.trace, image, recovery, initial, processed, initialCount);
      var requested := if remaining > READ_BLOCKS then READ_BLOCKS else remaining;
      var start := processed.value;
      status, seek := CopyRequest(drive, image, recovery, initial, processed, requested, seek, initialCount);
      if !status.Done? {
        if recovery.boundaryFailure && initial != null {
          AgreesLater(initial, start, |image.sectors|);
        }
        return;
      }
      remaining := remaining - (processed.value - start);
    }
    return Done;
  }

  lemma AgreesLater(initial: InitialCopyState, end: nat, later: nat)
    requires initial.Agrees(end) && end <= later
    ensures initial.Agrees(later)
  {
    LaterEnd(initial.requests, end, later);
  }
}
