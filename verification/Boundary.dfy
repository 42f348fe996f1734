/** Proving that the disc really ends where a read was refused. */
module Boundary {
  import opened Common
  import opened Sense
  import opened Drive
  import opened Rescue

  const BOUNDARY_CONFIRMATION_READS: nat := 2

  /** Both failures report the same status bytes and sense values. */
  predicate EvidenceMatches(a: ReadFailure, b: ReadFailure) {
    && a.category == b.category && a.status == b.status
    && a.completion.scsiStatus == b.completion.scsiStatus
    && a.completion.hostStatus == b.completion.hostStatus
    && a.completion.driverStatus == b.completion.driverStatus
    && GetOr(a.sense.responseCode) == GetOr(b.sense.responseCode)
    && GetOr(a.sense.senseKey) == GetOr(b.sense.senseKey)
    && GetOr(a.sense.asc) == GetOr(b.sense.asc)
    && GetOr(a.sense.ascq) == GetOr(b.sense.ascq)
    && a.sense.informationLba == b.sense.informationLba
  }

  /** A single-sector probe of `lba` was refused as out of range, naming `lba`. */
  predicate RefusedAt(e: ReadEvent, lba: nat) {
    && e.lba == lba && e.count == 1 && e.probe && e.outcome.Failed?
    && e.outcome.failure.status.OutOfRange?
    && e.outcome.failure.sense.informationLba == Some(lba)
  }

  /** The sectors probed above the candidate: the next one and the last declared one. */
  function UpperProbes(candidate: nat, total: nat): seq<nat> {
    if candidate + 1 >= total then []
    else if candidate + 2 == total then [candidate + 1]
    else [candidate + 1, total - 1]
  }

  /** The commands that close a proof: the sector before the candidate read back
      equal to the image, matching refusals of the candidate, refusals above. */
  ghost predicate ProofTail(tail: seq<ReadEvent>, sectors: seq<Sector>, total: nat, candidate: nat,
                            first: ReadFailure) {
    && 0 < candidate < total && candidate <= |sectors|
    && |tail| == 1 + BOUNDARY_CONFIRMATION_READS + |UpperProbes(candidate, total)|
    && tail[0] == ReadEvent(candidate - 1, 1, true, true, Success([sectors[candidate - 1]]))
    && (forall k :: 1 <= k <= BOUNDARY_CONFIRMATION_READS ==>
          RefusedAt(tail[k], candidate) && EvidenceMatches(first, tail[k].outcome.failure))
    && (forall k :: 0 <= k < |UpperProbes(candidate, total)| ==>
          RefusedAt(tail[1 + BOUNDARY_CONFIRMATION_READS + k], UpperProbes(candidate, total)[k]))
  }

  /** No medium error among `events` names the candidate or fails to name a sector. */
  ghost predicate NoConflict(events: seq<ReadEvent>, candidate: nat) {
    !HasUnlocated(events) && candidate !in MediumNames(events)
  }

  /** The boundary at `candidate` is proved by the commands since `from`. */
  ghost predicate ProvenBoundary(trace: seq<ReadEvent>, from: nat, sectors: seq<Sector>, total: nat, candidate: nat) {
    && from <= |trace| && NoConflict(trace[from..], candidate)
    && exists j, n :: from <= j < n <= |trace| && ProofOf(trace, j, n, sectors, total, candidate)
  }

  ghost predicate ProofOf(trace: seq<ReadEvent>, j: nat, n: nat, sectors: seq<Sector>, total: nat, candidate: nat)
    requires j < n <= |trace|
  {
    && trace[j].outcome.Failed? && trace[j].outcome.failure.status.OutOfRange?
    && trace[j].outcome.failure.sense.informationLba == Some(candidate)
    && ProofTail(trace[n..], sectors, total, candidate, trace[j].outcome.failure)
  }

  lemma NoConflictPush(trace: seq<ReadEvent>, from: nat, candidate: nat, e: ReadEvent)
    requires from <= |trace| && NoConflict(trace[from..], candidate) && !IsMedium(e)
    ensures NoConflict((trace + [e])[from..], candidate)
  {
    assert (trace + [e])[from..] == trace[from..] + [e];
    MediumNamesPush(trace[from..], e);
  }

  /** Since `before` only probes were sent. */
  ghost predicate OnlyProbes(before: seq<ReadEvent>, trace: seq<ReadEvent>) {
    before <= trace && forall i :: |before| <= i < |trace| ==> trace[i].probe && trace[i].absolute
  }

  lemma {:induction false} OnlyProbesCost(before: seq<ReadEvent>, trace: seq<ReadEvent>)
    requires OnlyProbes(before, trace)
    ensures ContentReads(trace) == ContentReads(before)
    decreases |trace|
  {
    if |trace| == |before| {
      assert trace == before;
    } else {
      OnlyProbesCost(before, trace[..|trace| - 1]);
    }
  }

  /** A command did not get the answer that the step of the proof that sent it demands:
      a read of the sectors still missing, the sector before the candidate, the candidate
      itself or a sector above it. */
  ghost predicate Unmet(e: ReadEvent, sectors: seq<Sector>, total: nat, candidate: nat, first: ReadFailure) {
    || (e.lba < candidate && |sectors| < candidate && !e.outcome.Success?)
    || (e.lba + 1 == candidate <= |sectors|
        && e != ReadEvent(candidate - 1, 1, true, true, Success([sectors[candidate - 1]])))
    || (e.lba == candidate && !(RefusedAt(e, candidate) && EvidenceMatches(first, e.outcome.failure)))
    || (e.lba in UpperProbes(candidate, total) && !RefusedAt(e, e.lba))
  }

  datatype ProbeResult = Proceed | Unproven | Fault

  /** The failure report. A boundary is noted in the recovery state before the
      report is written, so a failed write does not lose it. */
  method EmitReadFailure(f: ReadFailure, recovery: RecoveryState, retained: nat) returns (status: Status)
    modifies recovery`boundaryFailure, recovery`boundaryRetained
    ensures !status.Done?
    ensures recovery.boundaryFailure == (old(recovery.boundaryFailure) || f.status.OutOfRange?)
    ensures recovery.boundaryRetained == if f.status.OutOfRange? then retained else old(recovery.boundaryRetained)
  {
    if f.status.OutOfRange? {
      recovery.boundaryFailure := true;
      recovery.boundaryRetained := retained;
    }
    var written: bool := *;
    status := if written then ReadFailed else Broke;
  }

  method EmitUnprovenBoundary(f: ReadFailure, recovery: RecoveryState, processed: nat) returns (status: Status)
    requires f.status.OutOfRange? && recovery.Counted() && processed <= recovery.total
    modifies recovery`boundaryFailure, recovery`boundaryRetained, recovery`boundaryProven
    ensures !status.Done? && recovery.boundaryFailure && !recovery.boundaryProven
    ensures CutAt(recovery.Bits(), recovery.boundaryRetained, processed)
  {
    recovery.boundaryProven := false;
    var retained := recovery.BoundaryRetained(processed);
    status := EmitReadFailure(f, recovery, retained);
  }

  /** Since `before` no command was answered with a medium error. */
  ghost predicate NoMedium(before: seq<ReadEvent>, trace: seq<ReadEvent>) {
    before <= trace && forall i :: |before| <= i < |trace| ==> !IsMedium(trace[i])
  }

  /** Where an image that ended at `position` ends after these probes: those that
      went on right at its end, below the candidate, were appended. */
  function Extended(position: nat, candidate: nat, probes: seq<ReadEvent>): (r: nat)
    ensures r >= position
  {
    if probes == [] then position
    else
      var last := probes[|probes| - 1];
      var end := Extended(position, candidate, probes[..|probes| - 1]);
      if last.outcome.Success? && last.lba == end && end < candidate then end + |last.outcome.data| else end
  }

  lemma ExtendedPush(position: nat, candidate: nat, before: seq<ReadEvent>, trace: seq<ReadEvent>, e: ReadEvent)
    requires before <= trace
    ensures
      var end := Extended(position, candidate, trace[|before|..]);
      Extended(position, candidate, (trace + [e])[|before|..])
      == if e.outcome.Success? && e.lba == end && end < candidate then end + |e.outcome.data| else end
  {
    assert (trace + [e])[|before|..] == trace[|before|..] + [e];
  }

  /** Probes at or past the candidate, or not at the end, append nothing. */
  lemma {:induction false} ExtendedStays(position: nat, candidate: nat, before: seq<ReadEvent>, middle: seq<ReadEvent>,
                                         trace: seq<ReadEvent>)
    requires before <= middle <= trace
    requires Extended(position, candidate, middle[|before|..]) >= candidate
    ensures Extended(position, candidate, trace[|before|..]) == Extended(position, candidate, middle[|before|..])
    decreases |trace|
  {
    if |trace| == |middle| {
      assert trace == middle;
    } else {
      var short := trace[..|trace| - 1];
      ExtendedStays(position, candidate, before, middle, short);
      ExtendedPush(position, candidate, before, short, trace[|trace| - 1]);
      assert short + [trace[|trace| - 1]] == trace;
    }
  }

  /** Reads the sectors still missing below the candidate onto the end of the image. */
  method ReadPrefix(drive: Drive, image: Image, processed: Counter, candidate: nat) returns (r: ProbeResult)
    requires image.offset == |image.sectors| == processed.value <= candidate
    modifies drive, image, processed
    ensures OnlyProbes(old(drive.trace), drive.trace)
    ensures old(image.sectors) <= image.sectors
    ensures !r.Fault? ==>
              && image.offset == |image.sectors| == processed.value <= candidate
              && |image.sectors| == Extended(|old(image.sectors)|, candidate, drive.trace[|old(drive.trace)|..])
              && forall i :: |old(image.sectors)| <= i < |image.sectors| ==> ReadAt(drive.trace, i, image.sectors[i])
    ensures r.Proceed? ==> processed.value == candidate && NoMedium(old(drive.trace), drive.trace)
    ensures r.Unproven? ==>
              && old(drive.trace) < drive.trace && |image.sectors| < candidate
              && drive.trace[|drive.trace| - 1].lba < candidate && !drive.trace[|drive.trace| - 1].outcome.Success?
  {
    while processed.value < candidate
      invariant image.offset == |image.sectors| == processed.value <= candidate
      invariant OnlyProbes(old(drive.trace), drive.trace) && NoMedium(old(drive.trace), drive.trace)
      invariant old(image.sectors) <= image.sectors
      invariant |image.sectors| == Extended(|old(image.sectors)|, candidate, drive.trace[|old(drive.trace)|..])
      invariant forall i :: |old(image.sectors)| <= i < |image.sectors| ==> ReadAt(drive.trace, i, image.sectors[i])
      decreases candidate - processed.value
    {
      hide ReadAt;
      var remaining := candidate - processed.value;
      var requested := if remaining > READ_BLOCKS then READ_BLOCKS else remaining;
      ghost var trace, sectors := drive.trace, image.sectors;
      var answer := drive.BoundaryProbeRead(processed.value, requested, 0);
      if answer.Fatal? {
        return Fault;
      }
      ghost var e := ReadEvent(processed.value, requested, true, true, answer);
      ReadAtGrowsAll(trace, e, sectors, |old(image.sectors)|);
      ExtendedPush(|old(image.sectors)|, candidate, old(drive.trace), trace, e);
      if !answer.Success? {
        return Unproven;
      }
      processed.value := processed.value + |answer.data|;
      var ok := image.Write(answer.data);
      if !ok {
        return Fault;
      }
      assert image.sectors == sectors + answer.data;
      DeliveredReads(trace, e, sectors);
    }
    return Proceed;
  }

  lemma ReadAtGrowsAll(trace: seq<ReadEvent>, e: ReadEvent, sectors: seq<Sector>, lo: nat)
    requires forall i :: lo <= i < |sectors| ==> ReadAt(trace, i, sectors[i])
    ensures forall i :: lo <= i < |sectors| ==> ReadAt(trace + [e], i, sectors[i])
  {
    forall i | lo <= i < |sectors| ensures ReadAt(trace + [e], i, sectors[i]) {
      EvidenceGrows(trace, trace + [e], i, sectors[i], false, false);
    }
  }

  lemma DeliveredReads(trace: seq<ReadEvent>, e: ReadEvent, sectors: seq<Sector>)
    requires e.outcome.Success? && e.lba == |sectors|
    ensures forall i :: |sectors| <= i < |sectors| + |e.outcome.data| ==>
                          ReadAt(trace + [e], i, (sectors + e.outcome.data)[i])
  {
    forall i | |sectors| <= i < |sectors| + |e.outcome.data|
      ensures ReadAt(trace + [e], i, (sectors + e.outcome.data)[i])
    {
      assert Supplies((trace + [e])[|trace|], i, (sectors + e.outcome.data)[i]);
    }
  }

  /** Re-reads the last sector kept and compares it with the image. */
  method CheckPreceding(drive: Drive, image: Image, candidate: nat) returns (r: ProbeResult)
    requires 0 < candidate <= |image.sectors|
    modifies drive
    ensures OnlyProbes(old(drive.trace), drive.trace)
    ensures r.Proceed? ==>
              drive.trace == old(drive.trace)
              + [ReadEvent(candidate - 1, 1, true, true, Success([image.sectors[candidate - 1]]))]
    ensures r.Unproven? ==>
              && old(drive.trace) < drive.trace && drive.trace[|drive.trace| - 1].lba == candidate - 1
              && drive.trace[|drive.trace| - 1]
                 != ReadEvent(candidate - 1, 1, true, true, Success([image.sectors[candidate - 1]]))
  {
    var ok, retained := image.ReadAll(candidate - 1);
    if !ok {
      return Fault;
    }
    var answer := drive.BoundaryProbeRead(candidate - 1, 1, 0);
    if answer.Fatal? {
      return Fault;
    }
    if !answer.Success? || |answer.data| != 1 || answer.data[0] != retained {
      return Unproven;
    }
    assert answer.data == [retained];
    return Proceed;
  }

  /** Asks for the candidate itself until it has been refused twice alike. */
  method ConfirmBoundary(drive: Drive, candidate: nat, first: ReadFailure) returns (r: ProbeResult, last: ReadFailure)
    modifies drive
    ensures OnlyProbes(old(drive.trace), drive.trace)
    ensures r.Proceed? ==>
              && |drive.trace| == |old(drive.trace)| + BOUNDARY_CONFIRMATION_READS
              && forall k :: |old(drive.trace)| <= k < |drive.trace| ==>
                   RefusedAt(drive.trace[k], candidate) && EvidenceMatches(first, drive.trace[k].outcome.failure)
    ensures r.Proceed? ==> last.status.OutOfRange?
    ensures r.Unproven? ==>
              && old(drive.trace) < drive.trace && drive.trace[|drive.trace| - 1].lba == candidate
              && !(RefusedAt(drive.trace[|drive.trace| - 1], candidate)
                   && EvidenceMatches(first, drive.trace[|drive.trace| - 1].outcome.failure))
  {
    last := first;
    for ordinal := 0 to BOUNDARY_CONFIRMATION_READS
      invariant OnlyProbes(old(drive.trace), drive.trace)
      invariant |drive.trace| == |old(drive.trace)| + ordinal
      invariant forall k :: |old(drive.trace)| <= k < |drive.trace| ==>
                  RefusedAt(drive.trace[k], candidate) && EvidenceMatches(first, drive.trace[k].outcome.failure)
      invariant ordinal > 0 ==> last.status.OutOfRange?
    {
      var answer := drive.BoundaryProbeRead(candidate, 1, ordinal);
      if answer.Fatal? {
        return Fault, last;
      }
      if !answer.Failed? || !answer.failure.status.OutOfRange? ||
         answer.failure.sense.informationLba != Some(candidate) {
        return Unproven, last;
      }
      if !EvidenceMatches(first, answer.failure) {
        return Unproven, last;
      }
      last := answer.failure;
    }
    return Proceed, last;
  }

  /** Probes the next sector and the last declared one, each unless it is out of
      the extent or was just probed. */
  method ProbeAbove(drive: Drive, candidate: nat, total: nat) returns (r: ProbeResult)
    requires candidate < total
    modifies drive
    ensures OnlyProbes(old(drive.trace), drive.trace)
    ensures r.Proceed? ==>
              && |drive.trace| == |old(drive.trace)| + |UpperProbes(candidate, total)|
              && forall k :: 0 <= k < |UpperProbes(candidate, total)| ==>
                   RefusedAt(drive.trace[|old(drive.trace)| + k], UpperProbes(candidate, total)[k])
    ensures r.Unproven? ==>
              && old(drive.trace) < drive.trace
              && drive.trace[|drive.trace| - 1].lba in UpperProbes(candidate, total)
              && !RefusedAt(drive.trace[|drive.trace| - 1], drive.trace[|drive.trace| - 1].lba)
  {
    var lbas := [candidate + 1, total - 1];
    var previous := candidate;
    ghost var done: nat := 0;
    for index := 0 to 2
      invariant OnlyProbes(old(drive.trace), drive.trace)
      invariant done <= |UpperProbes(candidate, total)| && |drive.trace| == |old(drive.trace)| + done
      invariant forall k :: 0 <= k < done ==>
                  RefusedAt(drive.trace[|old(drive.trace)| + k], UpperProbes(candidate, total)[k])
      invariant index == 0 ==> done == 0 && previous == candidate
      invariant index == 1 ==> done == (if candidate + 1 < total then 1 else 0)
                               && previous == (if candidate + 1 < total then candidate + 1 else candidate)
      invariant index == 2 ==> done == |UpperProbes(candidate, total)|
    {
      var lba := lbas[index];
      if lba < total && lba != previous {
        ghost var at := done;
        var answer := drive.BoundaryProbeRead(lba, 1, 0);
        if answer.Fatal? {
          return Fault;
        }
        if !answer.Failed? || !answer.failure.status.OutOfRange? ||
           answer.failure.sense.informationLba != Some(lba) {
          return Unproven;
        }
        previous := lba;
        done := done + 1;
      }
    }
    return Proceed;
  }

  lemma {:induction false} NoConflictTail(before: seq<ReadEvent>, trace: seq<ReadEvent>, from: nat, candidate: nat)
    requires from <= |before| && NoConflict(before[from..], candidate) && NoMedium(before, trace)
    ensures NoConflict(trace[from..], candidate)
    decreases |trace|
  {
    if |trace| == |before| {
      assert trace == before;
    } else {
      var short := trace[..|trace| - 1];
      NoConflictTail(before, short, from, candidate);
      NoConflictPush(short, from, candidate, trace[|trace| - 1]);
      assert short + [trace[|trace| - 1]] == trace;
    }
  }

  /** A command answered otherwise closes no proof. */
  lemma UnmetClosesNothing(trace: seq<ReadEvent>, n: nat, sectors: seq<Sector>, total: nat, candidate: nat,
                           first: ReadFailure)
    requires n < |trace| && Unmet(trace[|trace| - 1], sectors, total, candidate, first)
    ensures !ProofTail(trace[n..], sectors, total, candidate, first)
  {
    if ProofTail(trace[n..], sectors, total, candidate, first) {
      TailEnds(trace[n..], sectors, total, candidate, first);
      assert false;
    }
  }

  /** A proof ends with a refusal of the candidate or of a sector above it. */
  lemma TailEnds(tail: seq<ReadEvent>, sectors: seq<Sector>, total: nat, candidate: nat, first: ReadFailure)
    requires ProofTail(tail, sectors, total, candidate, first)
    ensures
      var last := tail[|tail| - 1];
      && RefusedAt(last, last.lba) && candidate <= last.lba
      && (last.lba == candidate ==> EvidenceMatches(first, last.outcome.failure))
  {
    var ups := UpperProbes(candidate, total);
    if ups == [] {
      assert RefusedAt(tail[BOUNDARY_CONFIRMATION_READS], candidate);
    } else {
      assert RefusedAt(tail[1 + BOUNDARY_CONFIRMATION_READS + |ups| - 1], ups[|ups| - 1]);
    }
  }

  lemma TailNotMedium(tail: seq<ReadEvent>, sectors: seq<Sector>, total: nat, candidate: nat, first: ReadFailure)
    requires ProofTail(tail, sectors, total, candidate, first)
    ensures forall e <- tail :: !IsMedium(e)
  {
    forall k | 0 <= k < |tail| ensures !IsMedium(tail[k]) {
      if k > BOUNDARY_CONFIRMATION_READS {
        var m := k - 1 - BOUNDARY_CONFIRMATION_READS;
        assert RefusedAt(tail[1 + BOUNDARY_CONFIRMATION_READS + m], UpperProbes(candidate, total)[m]);
      } else if k > 0 {
        assert RefusedAt(tail[k], candidate);
      }
    }
  }

  /** The part of the proof that no longer touches the image. */
  method CloseProof(drive: Drive, image: Image, total: nat, candidate: nat, f: ReadFailure)
    returns (r: ProbeResult, last: ReadFailure)
    requires 0 < candidate < total && candidate <= |image.sectors|
    requires f.status.OutOfRange?
    modifies drive
    ensures OnlyProbes(old(drive.trace), drive.trace) && last.status.OutOfRange?
    ensures r.Proceed? ==> ProofTail(drive.trace[|old(drive.trace)|..], image.sectors, total, candidate, f)
    ensures r.Unproven? ==>
              old(drive.trace) < drive.trace
              && Unmet(drive.trace[|drive.trace| - 1], image.sectors, total, candidate, f)
  {
    last := f;
    r := CheckPreceding(drive, image, candidate);
    ghost var t1 := drive.trace;
    if r.Proceed? {
      r, last := ConfirmBoundary(drive, candidate, f);
    }
    ghost var t2 := drive.trace;
    if r.Proceed? {
      r := ProbeAbove(drive, candidate, total);
    }
    if !r.Proceed? {
      last := f;
      return;
    }
    ghost var tail := drive.trace[|old(drive.trace)|..];
    assert forall k :: 1 <= k <= BOUNDARY_CONFIRMATION_READS ==> tail[k] == t2[|t1| + k - 1];
  }

  /** The refusal at `j` was followed up by the whole proof, and no command since
      `before` met a medium error. */
  ghost predicate ProofMade(before: seq<ReadEvent>, trace: seq<ReadEvent>, j: nat, sectors: seq<Sector>, total: nat,
                            candidate: nat)
  {
    NoMedium(before, trace) && exists n :: j < n <= |trace| && ProofOf(trace, j, n, sectors, total, candidate)
  }

  /** Where nothing met before conflicts with the candidate, the proof stands. */
  lemma ProofStands(before: seq<ReadEvent>, trace: seq<ReadEvent>, from: nat, j: nat, sectors: seq<Sector>, total: nat,
                    candidate: nat)
    requires from <= j < |before| && NoConflict(before[from..], candidate)
    requires ProofMade(before, trace, j, sectors, total, candidate)
    ensures ProvenBoundary(trace, from, sectors, total, candidate)
  {
    NoConflictTail(before, trace, from, candidate);
    var n :| j < n <= |trace| && ProofOf(trace, j, n, sectors, total, candidate);
    assert from <= j < n <= |trace| && ProofOf(trace, j, n, sectors, total, candidate);
  }

  lemma CleanTail(before: seq<ReadEvent>, middle: seq<ReadEvent>, trace: seq<ReadEvent>)
    requires NoMedium(before, middle) && middle <= trace
    requires forall e <- trace[|middle|..] :: !IsMedium(e)
    ensures NoMedium(before, trace)
  {
    forall i | |before| <= i < |trace|
      ensures !IsMedium(trace[i])
    {
      assert i >= |middle| ==> trace[i] == trace[|middle|..][i - |middle|];
    }
  }

  /** The commands of a proof attempt, and what the prefix reads append. */
  method FollowUp(drive: Drive, image: Image, total: nat, f: ReadFailure, candidate: nat, processed: Counter,
                  ghost j: nat)
    returns (r: ProbeResult, last: ReadFailure)
    requires f.status.OutOfRange? && f.sense.informationLba == Some(candidate)
    requires 0 < candidate < total && processed.value <= candidate && processed.value <= |image.sectors| <= total
    requires processed.value < candidate ==> image.offset == |image.sectors| == processed.value
    requires j < |drive.trace| && drive.trace[j].outcome == Failed(f)
    requires image.offset <= |image.sectors|
    modifies drive, image, processed
    ensures OnlyProbes(old(drive.trace), drive.trace) && old(image.sectors) <= image.sectors && last.status.OutOfRange?
    ensures old(processed.value) == candidate ==>
              image.sectors == old(image.sectors) && image.offset == old(image.offset) && processed.value == candidate
    ensures !r.Fault? ==>
              && processed.value <= |image.sectors| <= total
              && (old(image.offset == |image.sectors| == processed.value) ==>
                    && image.offset == |image.sectors| == processed.value
                    && |image.sectors| == Extended(|old(image.sectors)|, candidate, drive.trace[|old(drive.trace)|..]))
              && forall i :: |old(image.sectors)| <= i < |image.sectors| ==> ReadAt(drive.trace, i, image.sectors[i])
    ensures r.Proceed? ==>
              processed.value == candidate
              && ProofMade(old(drive.trace), drive.trace, j, image.sectors, total, candidate)
    ensures r.Unproven? ==>
              old(drive.trace) < drive.trace
              && Unmet(drive.trace[|drive.trace| - 1], image.sectors, total, candidate, f)
  {
    ghost var before, position := drive.trace, |image.sectors|;
    r, last := Proceed, f;
    if processed.value < candidate {
      r := ReadPrefix(drive, image, processed, candidate);
    }
    ghost var prefixed := drive.trace;
    if r.Proceed? {
      r, last := CloseProof(drive, image, total, candidate, f);
      if image.offset == |image.sectors| == candidate {
        ExtendedStays(position, candidate, before, prefixed, drive.trace);
      }
      ReadAtLater(prefixed, drive.trace, image.sectors, position);
    }
    if r.Proceed? {
      TailNotMedium(drive.trace[|prefixed|..], image.sectors, total, candidate, f);
      CleanTail(before, prefixed, drive.trace);
      assert ProofOf(drive.trace, j, |prefixed|, image.sectors, total, candidate);
    }
  }

  lemma ReadAtLater(trace: seq<ReadEvent>, later: seq<ReadEvent>, sectors: seq<Sector>, lo: nat)
    requires trace <= later && forall i :: lo <= i < |sectors| ==> ReadAt(trace, i, sectors[i])
    ensures forall i :: lo <= i < |sectors| ==> ReadAt(later, i, sectors[i])
  {
    forall i | lo <= i < |sectors|
      ensures ReadAt(later, i, sectors[i])
    {
      EvidenceGrows(trace, later, i, sectors[i], false, false);
    }
  }

  /** Why a boundary is reported without a proof: its address rules a proof out, and
      then nothing was sent, or the last command did not get the answer it had to. */
  ghost predicate GaveUp(before: seq<ReadEvent>, trace: seq<ReadEvent>, sectors: seq<Sector>, total: nat,
                         f: ReadFailure, processed: nat)
  {
    var candidate := GetOr(f.sense.informationLba);
    if candidate == 0 || candidate >= total || f.completion.requestedLba != processed then trace == before
    else before < trace && Unmet(trace[|trace| - 1], sectors, total, candidate, f)
  }

  /** So the whole proof is not on record then: with ProofMade, what is reported as
      proven is exactly what has been proved. */
  lemma GaveUpUnproved(before: seq<ReadEvent>, trace: seq<ReadEvent>, sectors: seq<Sector>, total: nat, f: ReadFailure,
                       processed: nat)
    requires before != [] && before[|before| - 1].outcome == Failed(f)
    requires GaveUp(before, trace, sectors, total, f, processed)
    ensures !ProofMade(before, trace, |before| - 1, sectors, total, GetOr(f.sense.informationLba))
  {
    var candidate := GetOr(f.sense.informationLba);
    forall n | |before| <= n <= |trace|
      ensures !ProofTail(trace[n..], sectors, total, candidate, f)
    {
      if n < |trace| {
        UnmetClosesNothing(trace, n, sectors, total, candidate, f);
      }
    }
  }

  /** Tries to prove the boundary that `f` names. `processed` and `unproven` may
      be the same counter; what is kept without a proof is what `unproven` says. */
  method ProveBoundaryCandidate(drive: Drive, image: Image, recovery: RecoveryState, f: ReadFailure,
                                processed: Counter, unproven: Counter, ghost j: nat)
    returns (status: Status)
    requires f == ClassifyReadFailure(f.completion) && f.status.OutOfRange?
    requires recovery.Counted() && !recovery.boundaryFailure && !recovery.boundaryProven
    requires processed.value <= |image.sectors| <= recovery.total && unproven.value <= recovery.total
    requires image.offset <= |image.sectors|
    requires f.completion.requestedBlocks == 1 || image.offset == |image.sectors| == processed.value
    requires j < |drive.trace| && drive.trace[j].outcome == Failed(f)
    modifies drive, image, processed, recovery`boundaryFailure, recovery`boundaryRetained, recovery`boundaryProven
    ensures !status.Done? && OnlyProbes(old(drive.trace), drive.trace)
    ensures old(image.sectors) <= image.sectors && recovery.Counted() && recovery.Bits() == old(recovery.Bits())
    ensures f.completion.requestedBlocks == 1 ==>
              image.sectors == old(image.sectors) && image.offset == old(image.offset)
              && processed.value == old(processed.value)
    ensures recovery.boundaryFailure ==>
              && processed.value <= |image.sectors| <= recovery.total
              && (old(image.offset == |image.sectors| == processed.value) ==>
                    && image.offset == |image.sectors| == processed.value
                    && |image.sectors|
                       == Extended(|old(image.sectors)|, f.sense.informationLba.value,
                                   drive.trace[|old(drive.trace)|..]))
              && forall i :: |old(image.sectors)| <= i < |image.sectors| ==> ReadAt(drive.trace, i, image.sectors[i])
    ensures recovery.boundaryFailure && !recovery.boundaryProven ==>
              && CutAt(recovery.Bits(), recovery.boundaryRetained, unproven.value)
              && GaveUp(old(drive.trace), drive.trace, image.sectors, recovery.total, f, old(processed.value))
    ensures recovery.boundaryProven ==>
              && recovery.boundaryFailure && recovery.boundaryRetained == processed.value
              && f.sense.informationLba == Some(processed.value)
              && ProofMade(old(drive.trace), drive.trace, j, image.sectors, recovery.total, processed.value)
  {
    InformationInRequest(f.completion);
    var candidate := f.sense.informationLba.value;
    if !recovery.allowBoundaryProof || candidate == 0 || candidate >= recovery.total ||
       f.completion.requestedLba != processed.value || candidate < processed.value ||
       candidate - processed.value >= f.completion.requestedBlocks {
      status := EmitUnprovenBoundary(f, recovery, unproven.value);
      return;
    }
    var r, last := FollowUp(drive, image, recovery.total, f, candidate, processed, j);
    hide ReadAt, ProofMade, Extended, OnlyProbes;
    match r {
      case Fault =>
        return Broke;
      case Unproven =>
        status := EmitUnprovenBoundary(f, recovery, unproven.value);
      case Proceed =>
        recovery.boundaryProven := true;
        status := EmitReadFailure(last, recovery, candidate);
    }
  }
}
