/** Resuming from a damage map: only the sectors it marks are read and written. */
module Resume {
  import opened Bits
  import opened Sense
  import opened Drive
  import opened Rescue
  import opened Boundary
  import opened Copier

  /** The sectors below `upto` that the prior map marks have been settled by
      fresh reads; no other sector differs from the original image. */
  ghost predicate Settled(trace: seq<ReadEvent>, upto: nat, original: seq<Sector>, sectors: seq<Sector>,
                          prior: seq<bool>, bad: seq<bool>)
  {
    && |sectors| == |original| == |prior| == |bad|
    && (forall i :: 0 <= i < |prior| && !prior[i] ==> sectors[i] == original[i])
    && (forall i :: 0 <= i < |bad| && bad[i] ==> prior[i] && i < upto)
    && (forall i :: 0 <= i < upto && i < |prior| && prior[i] ==> Evidence(trace, i, sectors[i], bad[i], false))
  }

  lemma SettledGrows(trace: seq<ReadEvent>, later: seq<ReadEvent>, upto: nat, original: seq<Sector>,
                     sectors: seq<Sector>, prior: seq<bool>, bad: seq<bool>)
    requires trace <= later && Settled(trace, upto, original, sectors, prior, bad)
    ensures Settled(later, upto, original, sectors, prior, bad)
  {
    forall i | 0 <= i < upto && i < |prior| && prior[i] ensures Evidence(later, i, sectors[i], bad[i], false) {
      EvidenceGrows(trace, later, i, sectors[i], bad[i], false);
    }
  }

  lemma SettledStep(trace: seq<ReadEvent>, lba: nat, original: seq<Sector>, sectors: seq<Sector>, after: seq<Sector>,
                    prior: seq<bool>, bad: seq<bool>, marked: seq<bool>)
    requires Settled(trace, lba, original, sectors, prior, bad)
    requires lba < |prior| && prior[lba] && |after| == |sectors| && |marked| == |bad|
    requires forall i :: 0 <= i < |sectors| && i != lba ==> after[i] == sectors[i] && marked[i] == bad[i]
    requires Evidence(trace, lba, after[lba], marked[lba], false)
    ensures Settled(trace, lba + 1, original, after, prior, marked)
  {
    forall i | 0 <= i < lba + 1 && prior[i] ensures Evidence(trace, i, after[i], marked[i], false) {
      if i < lba {
        assert Evidence(trace, i, sectors[i], bad[i], false);
      }
    }
  }

  /** One marked sector is being retried. */
  ghost predicate Retrying(trace: seq<ReadEvent>, recovery: RecoveryState, evidence: ConflictEvidence, lba: nat,
                           from: nat)
    reads recovery, recovery.bitmap, evidence, evidence.lbas
  {
    && recovery.Counted() && !recovery.boundaryFailure && !recovery.boundaryProven && lba < recovery.total
    && evidence.lbas as object != recovery.bitmap as object
    && from <= |trace| && evidence.Tracks(trace[from..]) && evidence.Within(lba) && MediumUpTo(trace[..from], 0, lba)
    && (from < |trace| ==> trace[from].lba == lba && Encloses(trace, from, lba, 1))
    && (from + 1 < |trace| ==> IsMedium(trace[from]))
  }

  /** A proof on record for a boundary met at `lba`, which no medium error met at
      that sector contradicts. */
  ghost predicate ProvedAt(trace: seq<ReadEvent>, recovery: RecoveryState, sectors: seq<Sector>, lba: nat)
    reads recovery
  {
    recovery.boundaryFailure && recovery.boundaryRetained == lba
    && ProofOnRecord(trace, sectors, recovery.total, lba)
  }

  /** The boundary on record was met, and proved, at a sector the map marks. */
  ghost predicate ProvedAtMarked(trace: seq<ReadEvent>, recovery: RecoveryState, sectors: seq<Sector>, prior: seq<bool>)
    reads recovery
  {
    exists lba :: 0 <= lba < |prior| && prior[lba] && ProvedAt(trace, recovery, sectors, lba)
  }

  /** Without a proof, and then there is none, the report says that the image may stay
      up to the first sector that is still marked; nothing is cut here. */
  ghost predicate KeptToFirst(trace: seq<ReadEvent>, sectors: seq<Sector>, recovery: RecoveryState)
    reads recovery, recovery.bitmap
  {
    recovery.boundaryFailure && !recovery.boundaryProven ==>
      && CutAt(recovery.Bits(), recovery.boundaryRetained, recovery.total)
      && exists k :: RefusedLast(trace, k) && Unproved(trace, k, sectors, recovery.total)
  }

  /** Only marked sectors differ from the original image. */
  ghost predicate OnlyMarked(original: seq<Sector>, sectors: seq<Sector>, prior: seq<bool>) {
    && |sectors| == |original|
    && forall i :: 0 <= i < |sectors| && !(i < |prior| && prior[i]) ==> sectors[i] == original[i]
  }

  /** One single-sector read of a marked sector. */
  method ResumeAttempt(drive: Drive, file: Image, recovery: RecoveryState, evidence: ConflictEvidence,
                       lba: nat, ordinal: nat, ghost from: nat)
    returns (r: Attempt)
    requires Retrying(drive.trace, recovery, evidence, lba, from)
    requires from < |drive.trace| ==> IsMedium(drive.trace[from])
    requires |file.sectors| == recovery.total && file.offset <= |file.sectors|
    modifies drive, file, recovery`boundaryFailure, recovery`boundaryRetained, recovery`boundaryProven,
             evidence, evidence.lbas
    ensures Seeking(old(drive.trace), drive.trace) && ContentReads(drive.trace) == ContentReads(old(drive.trace)) + 1
    ensures |file.sectors| == |old(file.sectors)| && file.offset == old(file.offset)
    ensures forall i :: 0 <= i < |file.sectors| && i != lba ==> file.sectors[i] == old(file.sectors)[i]
    ensures r.Stop? ==> !r.status.Done?
    ensures r.Got? ==>
              && ReadAt(drive.trace, lba, file.sectors[lba])
              && |drive.trace| == |old(drive.trace)| + 1 && !IsMedium(drive.trace[|old(drive.trace)|])
    ensures r.Retry? ==>
              && file.sectors == old(file.sectors) && Retrying(drive.trace, recovery, evidence, lba, from)
              && |drive.trace| == |old(drive.trace)| + 1 && SingleMedium(drive.trace[|old(drive.trace)|], lba)
    ensures !r.Stop? ==> !recovery.boundaryFailure && !recovery.boundaryProven
    ensures KeptToFirst(drive.trace, file.sectors, recovery)
    ensures recovery.boundaryProven ==> ProvedAt(drive.trace, recovery, file.sectors, lba)
  {
    hide Unpack, Count, Runs, Retrying, ContentReads, ProvedAt;
    RetryingMeans(drive.trace, recovery, evidence, lba, from);
    ghost var trace := drive.trace;
    var answer := drive.BackendRead(lba, 1, true, ordinal, false);
    ContentReadsPush(trace, ReadEvent(lba, 1, true, false, answer));
    match answer {
      case Fatal =>
        r := Stop(Broke);
      case Ended =>
        r := Stop(Broke);
      case Success(data) =>
        var ok := file.WriteAt(data[0], lba);
        assert Supplies(drive.trace[|trace|], lba, data[0]);
        r := if ok then Got(1) else Stop(Broke);
      case Failed(f) =>
        r := FailedRetry(drive, file, recovery, evidence, f, lba, from, trace);
    }
  }

  lemma RetryingMeans(trace: seq<ReadEvent>, recovery: RecoveryState, evidence: ConflictEvidence, lba: nat, from: nat)
    requires Retrying(trace, recovery, evidence, lba, from)
    ensures !recovery.boundaryFailure && !recovery.boundaryProven && lba < recovery.total
  {
  }

  /** The retry at the end of the trace failed: note a medium error, stop for anything else. */
  method FailedRetry(drive: Drive, file: Image, recovery: RecoveryState, evidence: ConflictEvidence,
                     f: ReadFailure, lba: nat, ghost from: nat, ghost trace: seq<ReadEvent>)
    returns (r: Attempt)
    requires Retrying(trace, recovery, evidence, lba, from) && (from < |trace| ==> IsMedium(trace[from]))
    requires drive.trace == trace + [ReadEvent(lba, 1, true, false, Failed(f))]
    requires Legal(drive.trace[|trace|]) && |file.sectors| == recovery.total && file.offset <= |file.sectors|
    modifies drive, file, recovery`boundaryFailure, recovery`boundaryRetained, recovery`boundaryProven,
             evidence, evidence.lbas
    ensures OnlyProbes(old(drive.trace), drive.trace) && ContentReads(drive.trace) == ContentReads(old(drive.trace))
    ensures file.sectors == old(file.sectors) && file.offset == old(file.offset)
    ensures r.Stop? ==> !r.status.Done?
    ensures !r.Got? && (r.Retry? <==> f.status.MediumError?)
    ensures r.Retry? ==>
              && drive.trace == old(drive.trace) && Retrying(drive.trace, recovery, evidence, lba, from)
              && !recovery.boundaryFailure && !recovery.boundaryProven
    ensures KeptToFirst(drive.trace, file.sectors, recovery)
    ensures recovery.boundaryProven ==> ProvedAt(drive.trace, recovery, file.sectors, lba)
  {
    hide Unpack, Count, Runs, ConflictEvidence.Tracks, ConflictEvidence.Within, RecoveryState.Counted, ProvedAt,
         ContentReads, MediumUpTo;
    ghost var e := drive.trace[|trace|];
    assert drive.trace[from..] == trace[from..] + [e] && drive.trace[..from] == trace[..from];
    if f.status.MediumError? {
      InformationInRequest(f.completion);
      evidence.Record(f, lba, trace[from..], e);
      r := Retry;
    } else {
      TracksPush(evidence, trace, from, e);
      var status := StopResume(drive, file, recovery, evidence, f, lba, from);
      r := Stop(status);
    }
  }

  /** A failure that ends the resume. A proof attempted here cannot append to the
      image: a request for one sector leaves no room below the candidate. */
  method StopResume(drive: Drive, file: Image, recovery: RecoveryState, evidence: ConflictEvidence,
                    f: ReadFailure, lba: nat, ghost from: nat)
    returns (status: Status)
    requires Retrying(drive.trace, recovery, evidence, lba, from)
    requires |file.sectors| == recovery.total && file.offset <= |file.sectors|
    requires
      from < |drive.trace| && drive.trace[|drive.trace| - 1].outcome == Failed(f)
      && !drive.trace[|drive.trace| - 1].probe
    requires f == ClassifyReadFailure(f.completion) && !f.status.MediumError?
    requires f.completion.requestedLba == lba && f.completion.requestedBlocks == 1
    modifies drive, file, recovery`boundaryFailure, recovery`boundaryRetained, recovery`boundaryProven
    ensures !status.Done? && OnlyProbes(old(drive.trace), drive.trace)
    ensures ContentReads(drive.trace) == ContentReads(old(drive.trace))
    ensures file.sectors == old(file.sectors) && file.offset == old(file.offset)
    ensures KeptToFirst(drive.trace, file.sectors, recovery)
    ensures recovery.boundaryProven ==> ProvedAt(drive.trace, recovery, file.sectors, lba)
  {
    hide Unpack, Count, Runs, ContentReads;
    InformationInRequest(f.completion);
    if !f.status.OutOfRange? {
      status := EmitReadFailure(f, recovery, recovery.total);
      return;
    }
    ghost var trace := drive.trace;
    var conflict := evidence.ConflictsWith(f);
    if conflict {
      ConflictAtSector(trace, from, lba, recovery.total);
      status := EmitUnprovenBoundary(f, recovery, recovery.total);
      assert RefusedLast(trace, |trace| - 1) && Unproved(trace, |trace| - 1, file.sectors, recovery.total);
      return;
    }
    var boundary := new Counter(lba);
    var unproven := new Counter(recovery.total);
    assert NoConflict(trace[from..], lba) && Opens(trace, from);
    status := ProveBoundaryCandidate(drive, file, recovery, f, boundary, unproven, |trace| - 1);
    hide ProofMade, OnlyProbes, NoConflict, Opens, GaveUp, Unproved;
    OnlyProbesCost(trace, drive.trace);
    if recovery.boundaryFailure && !recovery.boundaryProven {
      GaveUpAt(trace, drive.trace, file.sectors, recovery.total);
    }
    if recovery.boundaryProven {
      ProofAfterProbes(trace, drive.trace, from, file.sectors, recovery.total, lba);
    }
  }

  /** Only a medium error can conflict, so one came before the refusal. */
  lemma ConflictAtSector(trace: seq<ReadEvent>, from: nat, lba: nat, total: nat)
    requires from < |trace| && Encloses(trace, from, lba, 1) && MediumUpTo(trace[..from], 0, trace[from].lba)
    requires from + 1 < |trace| ==> IsMedium(trace[from])
    requires !IsMedium(trace[|trace| - 1]) && !NoConflict(trace[from..], lba)
    ensures Hopeless(trace, lba, total)
  {
    if from + 1 == |trace| {
      assert trace[from..] == [trace[from]];
      LoneFailure(trace[from], lba);
    } else {
      ConflictHopeless(trace, from, lba, total);
    }
  }

  /** Retries one marked sector until it is read or its attempts are used up. */
  method ResumeSector(drive: Drive, file: Image, recovery: RecoveryState, lba: nat,
                      ghost original: seq<Sector>, ghost prior: seq<bool>)
    returns (status: Status)
    requires Settled(drive.trace, lba, original, file.sectors, prior, recovery.Bits())
    requires lba < recovery.total <= 8 * recovery.bitmap.Length && |prior| == recovery.total && prior[lba]
    requires file.offset <= |file.sectors|
    requires recovery.Counted() && !recovery.boundaryFailure && !recovery.boundaryProven
    requires MediumUpTo(drive.trace, 0, lba)
    modifies drive, file, recovery`boundaryFailure, recovery`boundaryRetained, recovery`boundaryProven,
             recovery`badSectorCount, recovery`badAreaCount, recovery.bitmap
    ensures Seeking(old(drive.trace), drive.trace)
    ensures ContentReads(drive.trace) <= ContentReads(old(drive.trace)) + RECOVERY_READ_ATTEMPTS
    ensures OnlyMarked(original, file.sectors, prior) && file.offset == old(file.offset)
    ensures status.Done? ==>
              && Settled(drive.trace, lba + 1, original, file.sectors, prior, recovery.Bits())
              && recovery.Counted() && !recovery.boundaryFailure && !recovery.boundaryProven
              && MediumUpTo(drive.trace, 0, lba + 1)
    ensures KeptToFirst(drive.trace, file.sectors, recovery)
    ensures recovery.boundaryProven ==> ProvedAtMarked(drive.trace, recovery, file.sectors, prior)
  {
    hide Unpack, Count, Runs, ContentReads, Evidence, MediumUpTo;
    var evidence := new ConflictEvidence();
    ghost var from, bits, sectors := |drive.trace|, recovery.Bits(), file.sectors;
    assert drive.trace[from..] == [] && drive.trace[..from] == drive.trace;
    for attempt := 0 to RECOVERY_READ_ATTEMPTS
      invariant Retrying(drive.trace, recovery, evidence, lba, from) && fresh(evidence) && fresh(evidence.lbas)
      invariant |drive.trace| == from + attempt && old(drive.trace) <= drive.trace
                && Seeking(old(drive.trace), drive.trace)
      invariant ContentReads(drive.trace) == ContentReads(old(drive.trace)) + attempt
      invariant file.sectors == sectors && file.offset == old(file.offset) && recovery.Bits() == bits
      invariant forall k :: from <= k < |drive.trace| ==> SingleMedium(drive.trace[k], lba)
    {
      var r := ResumeAttempt(drive, file, recovery, evidence, lba, attempt, from);
      if r.Stop? {
        return r.status;
      }
      if r.Got? {
        UpToNext(old(drive.trace), drive.trace, lba);
        SettledGrows(old(drive.trace), drive.trace, lba, original, sectors, prior, bits);
        TakenEvidence(drive.trace, lba, file.sectors[lba]);
        SettledStep(drive.trace, lba, original, sectors, file.sectors, prior, bits, recovery.Bits());
        return Done;
      }
    }
    assert FailedRunAt(drive.trace, from, lba);
    UpToNext(old(drive.trace), drive.trace, lba);
    SettledGrows(old(drive.trace), drive.trace, lba, original, sectors, prior, bits);
    PlaceholderEvidence(drive.trace, lba);
    var ok := file.WriteAt(ZERO_SECTOR, lba);
    if !ok {
      return Broke;
    }
    recovery.MarkBadSector(lba);
    SettledStep(drive.trace, lba, original, sectors, file.sectors, prior, bits, recovery.Bits());
    return Done;
  }

  /** The medium errors of one sector's reads reach no further than that sector. */
  lemma UpToNext(trace: seq<ReadEvent>, later: seq<ReadEvent>, lba: nat)
    requires trace <= later && MediumUpTo(trace, 0, lba)
    requires forall k :: |trace| <= k < |later| && IsMedium(later[k]) ==> SingleMedium(later[k], lba)
    ensures MediumUpTo(later, 0, lba + 1)
  {
  }

  lemma TakenEvidence(trace: seq<ReadEvent>, lba: nat, s: Sector)
    requires ReadAt(trace, lba, s)
    ensures Evidence(trace, lba, s, false, false)
  {
  }

  lemma PlaceholderEvidence(trace: seq<ReadEvent>, lba: nat)
    requires Exhausted(trace, lba)
    ensures Evidence(trace, lba, ZERO_SECTOR, true, false)
  {
  }

  /** The whole resume. `matches` is the comparison of the file's identity with
      the one the map was made for. */
  method RunResume(drive: Drive, file: Image, total: nat, prior: seq<bv8>, matches: bool)
    returns (status: Status, recovery: RecoveryState)
    requires drive.trace == [] && file.offset <= |file.sectors| && |prior| == BitmapLength(total)
    modifies drive, file
    ensures fresh(recovery) && recovery.total == total
    ensures OnlyMarked(old(file.sectors), file.sectors, Unpack(prior, total)) && file.offset == old(file.offset)
    ensures Seeking([], drive.trace) && ContentReads(drive.trace) <= 2 * Count(Unpack(prior, total))
    ensures status.Done? ==>
              && Settled(drive.trace, total, old(file.sectors), file.sectors, Unpack(prior, total), recovery.Bits())
              && recovery.Counted()
    ensures KeptToFirst(drive.trace, file.sectors, recovery)
    ensures recovery.boundaryProven ==> ProvedAtMarked(drive.trace, recovery, file.sectors, Unpack(prior, total))
  {
    recovery := new RecoveryState(total, BitmapLength(total));
    if !matches || |file.sectors| != total {
      return Broke, recovery;
    }
    SettledStart(file.sectors, Unpack(prior, total));
    hide *;
    status := ResumeSectors(drive, file, recovery, prior);
  }

  /** The resume has dealt with all sectors below `lba`. */
  ghost predicate ResumedUpTo(trace: seq<ReadEvent>, file: Image, recovery: RecoveryState, original: seq<Sector>,
                              prior: seq<bool>, lba: nat)
    reads file, recovery, recovery.bitmap
  {
    && lba <= recovery.total <= 8 * recovery.bitmap.Length && |prior| == recovery.total
    && Settled(trace, lba, original, file.sectors, prior, recovery.Bits())
    && recovery.Counted() && !recovery.boundaryFailure && !recovery.boundaryProven
    && MediumUpTo(trace, 0, lba) && file.offset <= |file.sectors|
  }

  /** One sector of the resume: retried if it is marked; then the progress is printed. */
  method ResumeNext(drive: Drive, file: Image, recovery: RecoveryState, marked: bool, lba: nat,
                    ghost original: seq<Sector>, ghost prior: seq<bool>)
    returns (status: Status)
    requires ResumedUpTo(drive.trace, file, recovery, original, prior, lba)
    requires lba < |prior| && marked == prior[lba] && Seeking([], drive.trace)
    modifies drive, file, recovery`boundaryFailure, recovery`boundaryRetained, recovery`boundaryProven,
             recovery`badSectorCount, recovery`badAreaCount, recovery.bitmap
    ensures Seeking([], drive.trace)
    ensures ContentReads(drive.trace)
            <= ContentReads(old(drive.trace)) + if marked then RECOVERY_READ_ATTEMPTS else 0
    ensures OnlyMarked(original, file.sectors, prior) && file.offset == old(file.offset)
    ensures status.Done? ==> ResumedUpTo(drive.trace, file, recovery, original, prior, lba + 1)
    ensures KeptToFirst(drive.trace, file.sectors, recovery)
    ensures recovery.boundaryProven ==> ProvedAtMarked(drive.trace, recovery, file.sectors, prior)
  {
    hide Unpack, Count, Runs, RecoveryState.Counted, ProvedAtMarked, OnlyMarked, Settled, MediumUpTo, ContentReads,
         Seeking;
    ghost var trace := drive.trace;
    SettledElsewhere(trace, lba, original, file.sectors, prior, recovery.Bits());
    status := Done;
    if marked {
      status := ResumeSector(drive, file, recovery, lba, original, prior);
      SeekingTrans(trace, drive.trace);
      if status.Done? {
        SettledElsewhere(drive.trace, lba + 1, original, file.sectors, prior, recovery.Bits());
      }
    } else {
      SettledSkip(trace, lba, original, file.sectors, prior, recovery.Bits());
      UpToNext(trace, trace, lba);
    }
    var progress: bool := *;
    if status.Done? && !progress {
      status := Broke;
    }
  }

  method ResumeSectors(drive: Drive, file: Image, recovery: RecoveryState, prior: seq<bv8>)
    returns (status: Status)
    requires drive.trace == [] && file.offset <= |file.sectors| && |prior| == BitmapLength(recovery.total)
    requires recovery.total <= 8 * recovery.bitmap.Length
    requires Settled([], 0, file.sectors, file.sectors, Unpack(prior, recovery.total), recovery.Bits())
    requires recovery.Counted() && !recovery.boundaryFailure && !recovery.boundaryProven
    modifies drive, file, recovery`boundaryFailure, recovery`boundaryRetained, recovery`boundaryProven,
             recovery`badSectorCount, recovery`badAreaCount, recovery.bitmap
    ensures OnlyMarked(old(file.sectors), file.sectors, Unpack(prior, recovery.total))
            && file.offset == old(file.offset)
    ensures Seeking([], drive.trace) && ContentReads(drive.trace) <= 2 * Count(Unpack(prior, recovery.total))
    ensures status.Done? ==>
              && Settled(drive.trace, recovery.total, old(file.sectors), file.sectors, Unpack(prior, recovery.total),
                         recovery.Bits())
              && recovery.Counted()
    ensures KeptToFirst(drive.trace, file.sectors, recovery)
    ensures recovery.boundaryProven ==>
              ProvedAtMarked(drive.trace, recovery, file.sectors, Unpack(prior, recovery.total))
  {
    ghost var original, bits := file.sectors, Unpack(prior, recovery.total);
    hide Settled, RecoveryState.Counted, Unpack, Count, Runs, ProvedAtMarked, OnlyMarked, ContentReads, Seeking,
         ResumedUpTo, BitAt, BitmapLength;
    NothingYet();
    SettledElsewhere([], 0, original, original, bits, recovery.Bits());
    NothingResumed(file, recovery, bits);
    var lba := 0;
    while lba < recovery.total
      invariant 0 <= lba <= recovery.total && ResumedUpTo(drive.trace, file, recovery, original, bits, lba)
      invariant OnlyMarked(original, file.sectors, bits) && file.offset == old(file.offset)
      invariant Seeking([], drive.trace) && ContentReads(drive.trace) <= 2 * Count(bits[..lba])
      invariant !recovery.boundaryProven
    {
      ghost var sent := ContentReads(drive.trace);
      PriorBit(prior, recovery.total, lba);
      status := ResumeNext(drive, file, recovery, BitAt(prior, lba), lba, original, bits);
      ReadsCounted(sent, ContentReads(drive.trace), bits, lba);
      if !status.Done? {
        return;
      }
      SettledSoFar(drive.trace, file, recovery, original, bits, lba + 1);
      lba := lba + 1;
    }
    SettledSoFar(drive.trace, file, recovery, original, bits, lba);
    ReadsCounted(ContentReads(drive.trace), ContentReads(drive.trace), bits, lba);
    return Done;
  }

  lemma NothingResumed(file: Image, recovery: RecoveryState, prior: seq<bool>)
    requires recovery.total <= 8 * recovery.bitmap.Length && |prior| == recovery.total
    requires Settled([], 0, file.sectors, file.sectors, prior, recovery.Bits()) && file.offset <= |file.sectors|
    requires recovery.Counted() && !recovery.boundaryFailure && !recovery.boundaryProven
    ensures ResumedUpTo([], file, recovery, file.sectors, prior, 0)
  {
    hide Settled, RecoveryState.Counted, Unpack;
  }

  lemma SettledSoFar(trace: seq<ReadEvent>, file: Image, recovery: RecoveryState, original: seq<Sector>,
                     prior: seq<bool>, lba: nat)
    requires ResumedUpTo(trace, file, recovery, original, prior, lba)
    ensures !recovery.boundaryProven && recovery.Counted()
    ensures Settled(trace, lba, original, file.sectors, prior, recovery.Bits())
  {
  }

  lemma SeekingTrans(trace: seq<ReadEvent>, later: seq<ReadEvent>)
    requires Seeking([], trace) && Seeking(trace, later)
    ensures Seeking([], later)
  {
  }

  lemma NothingYet()
    ensures ContentReads([]) == 0 && Count([]) == 0 && MediumUpTo([], 0, 0) && Seeking([], [])
  {
  }

  lemma SettledSkip(trace: seq<ReadEvent>, lba: nat, original: seq<Sector>, sectors: seq<Sector>,
                    prior: seq<bool>, bad: seq<bool>)
    requires Settled(trace, lba, original, sectors, prior, bad) && lba < |prior| && !prior[lba]
    ensures Settled(trace, lba + 1, original, sectors, prior, bad)
  {
  }

  lemma SettledStart(sectors: seq<Sector>, prior: seq<bool>)
    requires |sectors| == |prior|
    ensures Settled([], 0, sectors, sectors, prior, AllClear(|prior|))
  {
  }

  lemma SettledElsewhere(trace: seq<ReadEvent>, upto: nat, original: seq<Sector>, sectors: seq<Sector>,
                         prior: seq<bool>, bad: seq<bool>)
    requires Settled(trace, upto, original, sectors, prior, bad)
    ensures |sectors| == |original| == |prior| && OnlyMarked(original, sectors, prior)
  {
  }

  lemma PriorBit(prior: seq<bv8>, total: nat, lba: nat)
    requires |prior| == BitmapLength(total) && lba < total
    ensures lba / 8 < |prior| && Unpack(prior, total)[lba] == BitAt(prior, lba)
  {
  }

  /** Two reads for each marked sector so far. */
  lemma ReadsCounted(before: nat, after: nat, bits: seq<bool>, lba: nat)
    requires lba <= |bits| && before <= 2 * Count(bits[..lba])
    requires after <= before + if lba < |bits| && bits[lba] then RECOVERY_READ_ATTEMPTS else 0
    ensures lba < |bits| ==> after <= 2 * Count(bits[..lba + 1])
    ensures after <= 2 * Count(bits)
  {
    if lba < |bits| {
      CountPrefix(bits, lba);
    } else {
      assert bits[..lba] == bits;
    }
  }

  lemma CountPrefix(bits: seq<bool>, lba: nat)
    requires lba < |bits|
    ensures Count(bits[..lba + 1]) == Count(bits[..lba]) + (if bits[lba] then 1 else 0)
    ensures Count(bits[..lba + 1]) <= Count(bits)
  {
    assert bits[..lba + 1][..lba] == bits[..lba];
    assert bits == bits[..lba + 1] + bits[lba + 1..];
    CountConcat(bits[..lba + 1], bits[lba + 1..]);
  }
}
