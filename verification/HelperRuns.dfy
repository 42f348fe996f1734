/** The helper's commands: full copy, boundary resume and first copy. */
module HelperRuns {
  import opened Common
  import opened Bits
  import opened Drive
  import opened Rescue
  import opened Copier
  import opened InitialCopy
  import opened CopyRuns
  import opened CopyReport
  import P = InitialCopyProtocol

  /** The report of a rescue. */
  datatype RecoveryResult = RecoveryResult(
    declaredByteCount: nat, recoveredByteCount: int, badSectorCount: nat, badAreaCount: nat, bitmap: seq<bv8>)

  /** A finished rescue: every declared sector is accounted for, and the counts
      are the number of marked sectors and of their maximal runs. */
  ghost predicate Finished(trace: seq<ReadEvent>, image: Image, recovery: RecoveryState, base: nat,
                           result: RecoveryResult)
    reads image, recovery, recovery.bitmap
  {
    && |image.sectors| == recovery.total && ClearBelow(recovery.Bits(), base)
    && Sound(trace, base, image.sectors, recovery.Bits(), AllClear(recovery.total))
    && result.badSectorCount == Count(recovery.Bits()) && result.badAreaCount == |Runs(recovery.Bits())|
    && result.declaredByteCount == recovery.total * SECTOR_BYTES
    && result.recoveredByteCount == result.declaredByteCount - result.badSectorCount * SECTOR_BYTES
    && (result.badSectorCount > 0 ==> result.bitmap == recovery.bitmap[..])
  }

  /** A run that met a boundary had reached `reached`, as its reads say, and has cut
      the image at the retained length, if it could be cut at all. */
  ghost predicate AtBoundary(trace: seq<ReadEvent>, sectors: seq<Sector>, reached: seq<Sector>, recovery: RecoveryState,
                             base: nat, truncated: bool)
    reads recovery, recovery.bitmap
  {
    && Left(trace, reached, recovery.total, recovery.Bits(), base, AllClear(recovery.total),
            recovery.boundaryRetained, recovery.boundaryProven)
    && sectors == if truncated then reached[..recovery.boundaryRetained] else reached
  }

  /** The image ends at the first placeholder, or where processing stopped if there
      is none, and every sector of it from `base` on was really read. */
  ghost predicate RolledBack(trace: seq<ReadEvent>, sectors: seq<Sector>, reached: seq<Sector>, bad: seq<bool>,
                             base: nat) {
    && base <= |sectors| && sectors <= reached
    && (exists k :: ReachedBy(trace, k, |reached|) && CutAt(bad, |sectors|, Processed(trace, k, |reached|)))
    && forall i :: base <= i < |sectors| ==> ReadAt(trace, i, sectors[i])
  }

  method RollbackBoundaryImage(image: Image, recovery: RecoveryState) returns (truncated: bool)
    requires recovery.boundaryFailure ==> recovery.boundaryRetained <= |image.sectors|
    modifies image`sectors
    ensures image.sectors ==
            if recovery.boundaryFailure && truncated then old(image.sectors)[..recovery.boundaryRetained]
            else old(image.sectors)
  {
    if !recovery.boundaryFailure {
      return true;
    }
    truncated := image.Truncate(recovery.boundaryRetained);
  }

  lemma PrefixWasRead(trace: seq<ReadEvent>, base: nat, sectors: seq<Sector>, bad: seq<bool>, kept: nat)
    requires Sound(trace, base, sectors, bad, AllClear(|bad|))
    requires base <= kept <= |sectors| && ClearBelow(bad, kept)
    ensures forall i :: base <= i < kept ==> ReadAt(trace, i, sectors[i])
  {
    forall i | base <= i < kept ensures ReadAt(trace, i, sectors[i]) {
      assert Evidence(trace, i, sectors[i], bad[i], AllClear(|bad|)[i]);
    }
  }

  /** What a boundary means for the image once the rollback has been applied. */
  lemma LeftAtBoundary(trace: seq<ReadEvent>, sectors: seq<Sector>, reached: seq<Sector>, recovery: RecoveryState,
                       base: nat, truncated: bool)
    requires AtBoundary(trace, sectors, reached, recovery, base, truncated)
    ensures !recovery.boundaryProven && truncated ==> RolledBack(trace, sectors, reached, recovery.Bits(), base)
    ensures recovery.boundaryProven ==>
              sectors == reached && ProofOnRecord(trace, sectors, recovery.total, |sectors|)
  {
    if !recovery.boundaryProven {
      PrefixWasRead(trace, base, reached, recovery.Bits(), recovery.boundaryRetained);
      var k :| StoppedAt(trace, k, reached, recovery.total, recovery.Bits(), recovery.boundaryRetained, false);
      assert ReachedBy(trace, k, |reached|);
    }
  }

  method EmitRecoveryResult(recovery: RecoveryState) returns (status: Status, result: RecoveryResult)
    ensures !status.ReadFailed?
    ensures result.badSectorCount == recovery.badSectorCount && result.badAreaCount == recovery.badAreaCount
    ensures result.declaredByteCount == recovery.total * SECTOR_BYTES
    ensures result.recoveredByteCount == result.declaredByteCount - result.badSectorCount * SECTOR_BYTES
    ensures result.badSectorCount > 0 ==> result.bitmap == recovery.bitmap[..]
  {
    var declared := recovery.total * SECTOR_BYTES;
    result := RecoveryResult(declared, declared - recovery.badSectorCount * SECTOR_BYTES, recovery.badSectorCount,
                             recovery.badAreaCount, if recovery.badSectorCount > 0 then recovery.bitmap[..] else []);
    var written: bool := *;
    status := if written then Done else Broke;
  }

  /** The common end of the full copy and of the boundary resume. */
  method RescueFrom(drive: Drive, image: Image, recovery: RecoveryState, base: nat)
    returns (status: Status, truncated: bool, result: RecoveryResult, ghost reached: seq<Sector>)
    requires drive.trace == [] && image.offset == |image.sectors| == base <= recovery.total
    requires recovery.total <= 8 * recovery.bitmap.Length && recovery.Counted()
    requires recovery.Bits() == AllClear(recovery.total) && !recovery.boundaryFailure && !recovery.boundaryProven
    modifies drive, image, recovery, recovery.bitmap
    ensures SeekDiscipline(drive.trace, 0) && ContentReads(drive.trace) <= 4 * (recovery.total - base)
    ensures old(image.sectors) <= reached && old(image.sectors) <= image.sectors
    ensures status.Done? ==> Finished(drive.trace, image, recovery, base, result)
    ensures recovery.boundaryProven ==> recovery.boundaryFailure
    ensures recovery.boundaryFailure ==> AtBoundary(drive.trace, image.sectors, reached, recovery, base, truncated)
  {
    result := RecoveryResult(0, 0, 0, 0, []);
    status := ReadDisc(drive, image, recovery, null, base);
    hide Unpack, Count, Runs, Sound, SeekDiscipline, ContentReads, StoppedAt, ProofOnRecord, ClearFrom, ClearBelow;
    reached := image.sectors;
    truncated := RollbackBoundaryImage(image, recovery);
    var synced: bool := *;
    if status.Done? && !synced {
      status := Broke;
    }
    if status.Done? {
      status, result := EmitRecoveryResult(recovery);
    }
  }

  /** Copies a whole disc into a fresh image. */
  method RunCopy(drive: Drive, total: nat)
    returns (status: Status, image: Image, recovery: RecoveryState, truncated: bool, result: RecoveryResult,
             ghost reached: seq<Sector>)
    requires drive.trace == []
    modifies drive
    ensures fresh(image) && fresh(recovery) && recovery.total == total
    ensures SeekDiscipline(drive.trace, 0) && ContentReads(drive.trace) <= 4 * total
    ensures status.Done? ==> Finished(drive.trace, image, recovery, 0, result)
    ensures recovery.boundaryProven ==> recovery.boundaryFailure
    ensures recovery.boundaryFailure ==> AtBoundary(drive.trace, image.sectors, reached, recovery, 0, truncated)
  {
    image := new Image([], 0);
    recovery := new RecoveryState(total, BitmapLength(total));
    hide Unpack, Count, Runs, Sound, AtBoundary;
    status, truncated, result, reached := RescueFrom(drive, image, recovery, 0);
  }

  /** Goes on with an image that was cut at an unproven boundary. The file may be
      longer than `kept` sectors when an earlier run died; the excess is dropped. */
  method RunBoundaryResume(drive: Drive, file: Image, total: nat, kept: nat, matches: bool)
    returns (status: Status, recovery: RecoveryState, truncated: bool, result: RecoveryResult,
             ghost reached: seq<Sector>)
    requires drive.trace == []
    modifies drive, file
    ensures fresh(recovery) && recovery.total == total
    ensures SeekDiscipline(drive.trace, 0) && ContentReads(drive.trace) <= 4 * total
    ensures kept >= total || kept > |old(file.sectors)| || !matches ==>
              status.Broke? && file.sectors == old(file.sectors) && drive.trace == []
    ensures kept <= |old(file.sectors)| ==> old(file.sectors)[..kept] <= file.sectors
    ensures status.Done? ==> Finished(drive.trace, file, recovery, kept, result)
    ensures recovery.boundaryProven ==> recovery.boundaryFailure
    ensures recovery.boundaryFailure ==> AtBoundary(drive.trace, file.sectors, reached, recovery, kept, truncated)
    ensures recovery.boundaryFailure ==> old(file.sectors)[..Min(kept, |old(file.sectors)|)] <= reached
  {
    result, reached, truncated := RecoveryResult(0, 0, 0, 0, []), [], false;
    recovery := new RecoveryState(total, BitmapLength(total));
    if kept >= total || |file.sectors| < kept || |file.sectors| > total || !matches {
      return Broke, recovery, truncated, result, reached;
    }
    if |file.sectors| != kept {
      var cut := file.Truncate(kept);
      var synced: bool := *;
      if !cut || !synced {
        return Broke, recovery, truncated, result, reached;
      }
    }
    var positioned: bool := *;
    if !positioned {
      return Broke, recovery, truncated, result, reached;
    }
    file.offset := kept;
    hide Unpack, Count, Runs, Sound, AtBoundary;
    status, truncated, result, reached := RescueFrom(drive, file, recovery, kept);
  }

  /** What a first copy leaves, whether it reached the declared end or stopped at
      a boundary: placeholders exactly where the map says, real reads elsewhere. */
  ghost predicate FirstCopy(trace: seq<ReadEvent>, image: Image, initial: InitialCopyState)
    reads image, initial, initial.bitmap, initial.diagnostics
  {
    && Sound(trace, 0, image.sectors, AllClear(initial.total), initial.Bits())
    && initial.Agrees(|image.sectors|)
  }

  /** A first copy that met a boundary reaches as far as its reads went; a claim that the
      boundary is proved rests on a proof on record, and without one there is none. */
  ghost predicate FirstBoundary(trace: seq<ReadEvent>, image: Image, boundary: RecoveryState)
    reads image, boundary
  {
    && boundary.boundaryRetained == |image.sectors|
    && (exists k ::
          ReachedBy(trace, k, |image.sectors|)
          && (!boundary.boundaryProven ==> Unproved(trace, k, image.sectors, boundary.total)))
    && (boundary.boundaryProven ==> ProofOnRecord(trace, image.sectors, boundary.total, |image.sectors|))
  }

  /** The parent's verdict on a report depends on one thing only: whether the
      image kept anything. An accepted report yields the runs of placeholders. */
  ghost predicate Believed(total: nat, image: Image, initial: InitialCopyState, m: P.Message)
    reads image, initial, initial.bitmap
  {
    && (P.AcceptedMessage(m, total * SECTOR_BYTES, |image.sectors| * SECTOR_BYTES) <==> |image.sectors| > 0)
    && Unpack(P.BitmapOf(m, total), total) == initial.Bits()
  }

  lemma ReportBelieved(initial: InitialCopyState, retained: nat)
    requires DeclaredSize(initial.total) && retained <= initial.total && initial.Agrees(retained)
    ensures
      var m := MessageOf(initial.total, retained, initial.skippedSectorCount, initial.skippedRegionCount,
                         initial.bitmap[..], initial.skippedRequestCount,
                         initial.diagnostics[..initial.diagnosticCount]);
      && (P.AcceptedMessage(m, initial.total * SECTOR_BYTES, retained * SECTOR_BYTES) <==> retained > 0)
      && Unpack(P.BitmapOf(m, initial.total), initial.total) == initial.Bits()
    ensures initial.diagnosticCount <= initial.diagnostics.Length
  {
    hide Unpack, Count, Runs;
    if retained > 0 {
      ReportAccepted(initial.total, retained, initial.bitmap[..], initial.requests);
    } else {
      BlockSumBounds(initial.requests, 0);
      CountBound(initial.Bits());
      ClearBitmap(seq(BitmapLength(initial.total), i => 0), initial.total);
    }
  }

  method RunInitialCopy(drive: Drive, total: nat)
    returns (status: Status, image: Image, boundary: RecoveryState, initial: InitialCopyState, m: P.Message)
    requires drive.trace == [] && DeclaredSize(total)
    modifies drive
    ensures fresh(image) && fresh(boundary) && fresh(initial) && initial.total == total
    ensures SeekDiscipline(drive.trace, 0) && ContentReads(drive.trace) <= 4 * total
    ensures status.Done? || (status.ReadFailed? && boundary.boundaryFailure) ==>
              FirstCopy(drive.trace, image, initial) && Believed(total, image, initial, m)
    ensures status.Done? ==> |image.sectors| == total
    ensures boundary.boundaryProven ==> boundary.boundaryFailure
    ensures status.ReadFailed? && boundary.boundaryFailure ==> FirstBoundary(drive.trace, image, boundary)
  {
    image := new Image([], 0);
    boundary := new RecoveryState(total, 0);
    initial := new InitialCopyState(total);
    m := MessageOf(0, 0, 0, 0, [], 0, []);
    OneMapAtStart(boundary, initial);
    hide *;
    var owned: bool := *;
    if !owned {
      NothingRead();
      return Broke, image, boundary, initial, m;
    }
    status, m := CopyInto(drive, image, boundary, initial);
  }

  /** The first copy into a fresh image. */
  method CopyInto(drive: Drive, image: Image, boundary: RecoveryState, initial: InitialCopyState)
    returns (status: Status, m: P.Message)
    requires drive.trace == [] && DeclaredSize(initial.total) && initial.total == boundary.total
    requires image.sectors == [] && image.offset == 0 && OneMap(boundary, initial)
    requires boundary.Counted() && boundary.Bits() == AllClear(boundary.total) && boundary.bitmap.Length == 0
    requires !boundary.boundaryFailure && !boundary.boundaryProven
    requires initial.Agrees(0) && initial.Bits() == AllClear(initial.total)
    modifies drive, image, boundary, boundary.bitmap, initial, initial.bitmap, initial.diagnostics
    ensures SeekDiscipline(drive.trace, 0) && ContentReads(drive.trace) <= 4 * initial.total
    ensures status.Done? || (status.ReadFailed? && boundary.boundaryFailure) ==>
              FirstCopy(drive.trace, image, initial) && Believed(initial.total, image, initial, m)
    ensures status.Done? ==> |image.sectors| == initial.total
    ensures boundary.boundaryProven ==> boundary.boundaryFailure
    ensures status.ReadFailed? && boundary.boundaryFailure ==> FirstBoundary(drive.trace, image, boundary)
  {
    m := MessageOf(0, 0, 0, 0, [], 0, []);
    status := ReadDisc(drive, image, boundary, initial, 0);
    hide *;
    FirstCopyLeft(drive.trace, image, boundary, initial, status);
    status, m := SettleFirstCopy(drive, image, boundary, initial, status);
  }

  /** The end of a first copy: the parent's leave to go on, the rollback, which has
      nothing to cut, and the report. */
  method SettleFirstCopy(drive: Drive, image: Image, boundary: RecoveryState, initial: InitialCopyState, copied: Status)
    returns (status: Status, m: P.Message)
    requires DeclaredSize(initial.total)
    requires copied.Done? || boundary.boundaryFailure ==>
               FirstCopy(drive.trace, image, initial) && |image.sectors| <= initial.total
    requires boundary.boundaryFailure ==> FirstBoundary(drive.trace, image, boundary)
    requires boundary.boundaryFailure ==> !copied.Done?
    modifies image
    ensures image.sectors == old(image.sectors)
    ensures status == copied || status.Broke?
    ensures status.Done? || (status.ReadFailed? && boundary.boundaryFailure) ==>
              FirstCopy(drive.trace, image, initial) && Believed(initial.total, image, initial, m)
    ensures status.ReadFailed? && boundary.boundaryFailure ==> FirstBoundary(drive.trace, image, boundary)
  {
    hide Sound, Believed, InitialCopyState.Agrees, ProofOnRecord, ReachedBy;
    m := MessageOf(0, 0, 0, 0, [], 0, []);
    status := copied;
    var lost, inspected: bool := *, *;
    if boundary.boundaryFailure && lost {
      status := Broke;
    } else {
      ghost var whole := image.sectors;
      var _ := RollbackBoundaryImage(image, boundary);
      assert boundary.boundaryFailure ==> whole[..|whole|] == whole;
    }
    if !inspected {
      status := Broke;
    }
    if status.Done? || (status.ReadFailed? && boundary.boundaryFailure) {
      status, m := SyncAndReport(drive, image, initial, status);
    }
  }

  /** The read loop leaves a first copy whichever way it ends well, and at a
      boundary there is nothing to cut. */
  lemma FirstCopyLeft(trace: seq<ReadEvent>, image: Image, boundary: RecoveryState, initial: InitialCopyState,
                      status: Status)
    requires boundary.bitmap.Length == 0 && initial.total == boundary.total
    requires status.Done? ==>
               && |image.sectors| == boundary.total && initial.Agrees(boundary.total)
               && Sound(trace, 0, image.sectors, boundary.Bits(), SkipBits(initial, boundary.total))
    requires boundary.boundaryFailure ==>
               && BoundaryLeft(trace, image, boundary, 0, SkipBits(initial, boundary.total))
               && boundary.boundaryRetained == |image.sectors| && initial.Agrees(|image.sectors|)
    ensures status.Done? || boundary.boundaryFailure ==>
              FirstCopy(trace, image, initial) && |image.sectors| <= initial.total
    ensures boundary.boundaryFailure ==> FirstBoundary(trace, image, boundary)
  {
    assert boundary.Bits() == AllClear(boundary.total);
  }

  lemma OneMapAtStart(boundary: RecoveryState, initial: InitialCopyState)
    requires initial.total == boundary.total && boundary.Bits() == AllClear(boundary.total)
    requires boundary.bitmap != initial.bitmap && boundary.bitmap as object != initial.diagnostics as object
    ensures OneMap(boundary, initial)
  {
  }

  lemma NothingRead()
    ensures SeekDiscipline([], 0) && ContentReads([]) == 0
  {
  }

  /** Syncs the image and prints the report. */
  method SyncAndReport(drive: Drive, image: Image, initial: InitialCopyState, status: Status)
    returns (r: Status, m: P.Message)
    requires FirstCopy(drive.trace, image, initial) && |image.sectors| <= initial.total && DeclaredSize(initial.total)
    ensures r == status || r.Broke?
    ensures !r.Broke? ==> Believed(initial.total, image, initial, m)
  {
    hide Unpack, Count, Runs, Sound, InitialCopyState.Agrees;
    m := MessageOf(0, 0, 0, 0, [], 0, []);
    var synced: bool := *;
    if !synced {
      return Broke, m;
    }
    ReportBelieved(initial, |image.sectors|);
    r, m := EmitInitialCopyResult(initial.total, |image.sectors|, initial);
    if r.Done? {
      r := status;
    }
  }
}
