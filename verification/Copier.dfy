/** The sector copier and rescue engine. */
module Copier {
  import opened Common
  import opened Sense
  import opened Drive
  import opened Rescue
  import opened Boundary

  /** The copy stands at a sector boundary with nothing failed yet: the image,
      the map and the counters all describe the first `processed` sectors. */
  ghost predicate Ready(trace: seq<ReadEvent>, image: Image, recovery: RecoveryState, processed: Counter,
                        base: nat, skipped: seq<bool>)
    reads image, recovery, recovery.bitmap, processed
  {
    && image.offset == |image.sectors| == processed.value <= recovery.total
    && recovery.Counted() && ClearFrom(recovery.Bits(), processed.value) && ClearBelow(recovery.Bits(), base)
    && |skipped| == recovery.total && ClearFrom(skipped, processed.value)
    && Sound(trace, base, image.sectors, recovery.Bits(), skipped)
    && !recovery.boundaryFailure && !recovery.boundaryProven
  }

  /** Every medium error at or after `first` was met by a request that ends at or
      below `limit`. */
  ghost predicate MediumUpTo(trace: seq<ReadEvent>, first: nat, limit: nat) {
    forall i :: first <= i < |trace| && IsMedium(trace[i]) ==> trace[i].lba + trace[i].count <= limit
  }

  /** Nothing that failed before `at` reaches into the request of `at`: all the
      failures of that request come at `at` or later. */
  ghost predicate Opens(trace: seq<ReadEvent>, at: nat) {
    at < |trace| && MediumUpTo(trace[..at], 0, trace[at].lba)
  }

  /** A boundary at the end of `sectors` is proved, without conflict with any medium
      error since its request was first sent. */
  ghost predicate ProofOnRecord(trace: seq<ReadEvent>, sectors: seq<Sector>, total: nat, candidate: nat) {
    exists at :: ProofAt(trace, at, sectors, total, candidate)
  }

  ghost predicate ProofAt(trace: seq<ReadEvent>, at: nat, sectors: seq<Sector>, total: nat, candidate: nat) {
    Encloses(trace, at, candidate, 1) && Opens(trace, at) && ProvenBoundary(trace, at, sectors, total, candidate)
  }

  /** The content read at `k` was refused and only probes followed. */
  predicate RefusedLast(trace: seq<ReadEvent>, k: nat) {
    && k < |trace| && !trace[k].probe && trace[k].outcome.Failed? && trace[k].outcome.failure.status.OutOfRange?
    && forall i :: k < i < |trace| ==> trace[i].probe
  }

  /** A content read that covers `lba` met a medium error. */
  ghost predicate MediumCovers(trace: seq<ReadEvent>, lba: nat) {
    exists i :: 0 <= i < |trace| && !trace[i].probe && IsMedium(trace[i])
           && trace[i].lba <= lba < trace[i].lba + trace[i].count
  }

  /** The sectors that count as processed when no proof succeeds: up to the refused
      read inside a recovery, and what the probes appended as well outside one. */
  ghost function Processed(trace: seq<ReadEvent>, k: nat, reached: nat): nat
    requires k < |trace|
  {
    if MediumCovers(trace, trace[k].lba) then trace[k].lba else reached
  }

  /** The image reaches as far as the refused read and the probes after it went. */
  predicate ReachedBy(trace: seq<ReadEvent>, k: nat, reached: nat) {
    && RefusedLast(trace, k)
    && reached == Extended(trace[k].lba, GetOr(trace[k].outcome.failure.sense.informationLba), trace[k + 1..])
  }

  /** How a run that reported a boundary leaves the image: it reaches as far as the
      last reads went. What may stay is cut at the first placeholder or where
      processing stopped, unless a proof is on record. */
  ghost predicate Left(trace: seq<ReadEvent>, sectors: seq<Sector>, total: nat, bad: seq<bool>, base: nat,
                       skipped: seq<bool>, retained: nat, proven: bool)
  {
    && |sectors| <= total && ClearFrom(bad, |sectors|) && Sound(trace, base, sectors, bad, skipped)
    && base <= retained <= |sectors|
    && (exists k :: StoppedAt(trace, k, sectors, total, bad, retained, proven))
    && (proven ==> retained == |sectors| && ProofOnRecord(trace, sectors, total, |sectors|))
  }

  ghost predicate StoppedAt(trace: seq<ReadEvent>, k: nat, sectors: seq<Sector>, total: nat, bad: seq<bool>,
                            retained: nat, proven: bool)
  {
    && ReachedBy(trace, k, |sectors|)
    && (!proven ==> CutAt(bad, retained, Processed(trace, k, |sectors|)) && Unproved(trace, k, sectors, total))
  }

  /** Why the refusal at `k` was reported without a proof: nothing was sent for it,
      since no proof was possible, or the last command was not answered as it had to be. */
  ghost predicate Unproved(trace: seq<ReadEvent>, k: nat, sectors: seq<Sector>, total: nat)
    requires RefusedLast(trace, k)
  {
    var f := trace[k].outcome.failure;
    var candidate := GetOr(f.sense.informationLba);
    if |trace| == k + 1 then Hopeless(trace, candidate, total)
    else Unmet(trace[|trace| - 1], sectors, total, candidate, f)
  }

  /** No boundary can lie there, or medium errors of its request conflict with it. */
  ghost predicate Hopeless(trace: seq<ReadEvent>, candidate: nat, total: nat) {
    candidate == 0 || candidate >= total
    || forall at: nat :: Encloses(trace, at, candidate, 1) && Opens(trace, at) ==> !NoConflict(trace[at..], candidate)
  }

  /** The other direction of the claim: a boundary reported without a proof has none
      on record after that refusal. */
  lemma UnprovedMeans(trace: seq<ReadEvent>, k: nat, sectors: seq<Sector>, total: nat)
    requires RefusedLast(trace, k) && Unproved(trace, k, sectors, total)
    ensures
      !ProofMade(trace[..k + 1], trace, k, sectors, total, GetOr(trace[k].outcome.failure.sense.informationLba))
  {
    var f := trace[k].outcome.failure;
    var candidate := GetOr(f.sense.informationLba);
    forall n | k < n <= |trace|
      ensures !ProofTail(trace[n..], sectors, total, candidate, f)
    {
      if k + 1 < |trace| && n < |trace| {
        UnmetClosesNothing(trace, n, sectors, total, candidate, f);
      }
    }
  }

  ghost predicate BoundaryLeft(trace: seq<ReadEvent>, image: Image, recovery: RecoveryState,
                               base: nat, skipped: seq<bool>)
    reads image, recovery, recovery.bitmap
  {
    recovery.Counted()
    && Left(trace, image.sectors, recovery.total, recovery.Bits(), base, skipped, recovery.boundaryRetained,
            recovery.boundaryProven)
  }

  /** The command at `at` is the content read that asked for these sectors. */
  predicate Encloses(trace: seq<ReadEvent>, at: nat, start: nat, count: nat) {
    && at < |trace| && !trace[at].probe && trace[at].count <= READ_BLOCKS
    && trace[at].lba <= start && start + count <= trace[at].lba + trace[at].count
  }

  /** Since `before` every command named its address. */
  ghost predicate Seeking(before: seq<ReadEvent>, trace: seq<ReadEvent>) {
    before <= trace && forall i :: |before| <= i < |trace| ==> trace[i].absolute
  }

  /** Appends what a read delivered. */
  method ConsumeBlocks(image: Image, data: seq<Sector>, processed: Counter) returns (ok: bool)
    requires image.offset == |image.sectors|
    modifies image, processed
    ensures processed.value == old(processed.value) + |data|
    ensures old(image.sectors) <= image.sectors
    ensures ok ==> image.sectors == old(image.sectors) + data && image.offset == |image.sectors|
  {
    processed.value := processed.value + |data|;
    ok := image.Write(data);
  }

  lemma TracksPush(evidence: ConflictEvidence, trace: seq<ReadEvent>, from: nat, e: ReadEvent)
    requires from <= |trace| && evidence.Tracks(trace[from..]) && !IsMedium(e)
    ensures evidence.Tracks((trace + [e])[from..])
  {
    assert (trace + [e])[from..] == trace[from..] + [e];
    MediumNamesPush(trace[from..], e);
  }

  /** A refusal while one request, first sent at `from`, is being recovered. */
  method RefusedDuringRecovery(drive: Drive, image: Image, recovery: RecoveryState, evidence: ConflictEvidence,
                               f: ReadFailure, processed: Counter, ghost base: nat, ghost skipped: seq<bool>,
                               ghost from: nat)
    returns (status: Status)
    requires Ready(drive.trace, image, recovery, processed, base, skipped) && base <= processed.value
    requires Recovers(drive.trace, from, f.completion.requestedLba, f.completion.requestedBlocks)
    requires RefusedLast(drive.trace, |drive.trace| - 1) && drive.trace[|drive.trace| - 1].outcome == Failed(f)
    requires f == ClassifyReadFailure(f.completion) && f.completion.requestedLba == processed.value
    requires drive.trace[|drive.trace| - 1].lba == processed.value
    requires evidence.Tracks(drive.trace[from..])
    modifies drive, image, processed, recovery`boundaryFailure, recovery`boundaryRetained, recovery`boundaryProven
    ensures !status.Done? && OnlyProbes(old(drive.trace), drive.trace) && old(image.sectors) <= image.sectors
    ensures recovery.boundaryProven ==> recovery.boundaryFailure
    ensures recovery.boundaryFailure ==> BoundaryLeft(drive.trace, image, recovery, base, skipped)
  {
    InformationInRequest(f.completion);
    hide MediumCovers, ReachedBy, Sound, Opens, Left;
    ghost var trace, candidate := drive.trace, f.sense.informationLba.value;
    var conflict := evidence.ConflictsWith(f);
    if conflict {
      status := EmitUnprovenBoundary(f, recovery, processed.value);
      ConflictLeaves(trace, from, candidate, image.sectors, recovery.total, recovery.Bits(), base, skipped,
                     recovery.boundaryRetained);
      return;
    }
    status := ProveInRecovery(drive, image, recovery, f, processed, base, skipped, from);
  }

  lemma ReadyMeans(trace: seq<ReadEvent>, image: Image, recovery: RecoveryState, processed: Counter, base: nat,
                   skipped: seq<bool>)
    requires Ready(trace, image, recovery, processed, base, skipped)
    ensures image.offset == |image.sectors| == processed.value <= recovery.total
    ensures recovery.Counted() && ClearFrom(recovery.Bits(), processed.value) && ClearBelow(recovery.Bits(), base)
    ensures |skipped| == recovery.total && ClearFrom(skipped, processed.value)
    ensures Sound(trace, base, image.sectors, recovery.Bits(), skipped)
    ensures !recovery.boundaryFailure && !recovery.boundaryProven
  {
  }

  /** A refusal that no medium error of its request conflicts with. */
  method ProveInRecovery(drive: Drive, image: Image, recovery: RecoveryState, f: ReadFailure, processed: Counter,
                         ghost base: nat, ghost skipped: seq<bool>, ghost from: nat)
    returns (status: Status)
    requires Ready(drive.trace, image, recovery, processed, base, skipped) && base <= processed.value
    requires Recovers(drive.trace, from, processed.value, 1) && f.sense.informationLba.Some?
    requires Refusal(drive.trace, from, processed.value, f.sense.informationLba.value)
    requires f == ClassifyReadFailure(f.completion) && f.completion.requestedLba == processed.value
    requires drive.trace[|drive.trace| - 1].outcome == Failed(f)
    modifies drive, image, processed, recovery`boundaryFailure, recovery`boundaryRetained, recovery`boundaryProven
    ensures !status.Done? && OnlyProbes(old(drive.trace), drive.trace) && old(image.sectors) <= image.sectors
    ensures recovery.boundaryProven ==> recovery.boundaryFailure
    ensures recovery.boundaryFailure ==> BoundaryLeft(drive.trace, image, recovery, base, skipped)
  {
    hide MediumCovers, ReachedBy, Sound, Refusal, Recovers, Opens, Left, Ready, RecoveryState.Counted, Encloses,
         RefusedLast, ProofMade, Extended, GaveUp, ReadAt, ClearFrom, ClearBelow, NoConflict;
    ghost var trace, sectors, k := drive.trace, image.sectors, |drive.trace| - 1;
    ghost var lba, candidate := processed.value, f.sense.informationLba.value;
    RefusalMeans(trace, from, lba, candidate);
    ReadyMeans(trace, image, recovery, processed, base, skipped);
    var unproven := new Counter(processed.value);
    status := ProveBoundaryCandidate(drive, image, recovery, f, processed, unproven, k);
    if recovery.boundaryFailure {
      AttemptLeaves(trace, drive.trace, from, candidate, sectors, image.sectors, recovery.total, recovery.Bits(), base,
                    skipped, recovery.boundaryRetained, recovery.boundaryProven);
    }
  }

  lemma RefusalMeans(trace: seq<ReadEvent>, from: nat, lba: nat, candidate: nat)
    requires Refusal(trace, from, lba, candidate) && Recovers(trace, from, lba, 1)
    ensures trace != [] && trace[|trace| - 1].lba == lba && MediumCovers(trace, lba)
    ensures trace[|trace| - 1].outcome.Failed? && trace[|trace| - 1].outcome.failure.status.OutOfRange?
  {
    RefusedInRecovery(trace, from, lba, candidate);
  }

  /** A refusal in conflict with the medium errors of its request leaves the image as it is. */
  lemma ConflictLeaves(trace: seq<ReadEvent>, from: nat, candidate: nat, sectors: seq<Sector>, total: nat,
                       bad: seq<bool>, base: nat, skipped: seq<bool>, retained: nat)
    requires trace != [] && RefusedLast(trace, |trace| - 1) && trace[|trace| - 1].lba == |sectors|
    requires candidate == GetOr(trace[|trace| - 1].outcome.failure.sense.informationLba)
    requires Recovers(trace, from, |sectors|, 1) && Recovers(trace, from, candidate, 1)
    requires !NoConflict(trace[from..], candidate)
    requires |sectors| <= total == |bad| && ClearFrom(bad, |sectors|) && Sound(trace, base, sectors, bad, skipped)
    requires base <= |sectors| && ClearBelow(bad, base) && CutAt(bad, retained, |sectors|)
    ensures Left(trace, sectors, total, bad, base, skipped, retained, false)
  {
    RefusedInRecovery(trace, from, |sectors|, candidate);
    ConflictHopeless(trace, from, candidate, total);
    hide Sound, Hopeless, Recovers, MediumCovers, ReachedBy;
    assert StoppedAt(trace, |trace| - 1, sectors, total, bad, retained, false);
    hide StoppedAt;
  }

  lemma LoneFailure(e: ReadEvent, candidate: nat)
    requires !IsMedium(e)
    ensures NoConflict([e], candidate)
  {
    assert [e] == [] + [e];
    MediumNamesPush([], e);
  }

  /** An attempt that gave up leaves the refusal unproved. */
  lemma GaveUpAt(before: seq<ReadEvent>, trace: seq<ReadEvent>, sectors: seq<Sector>, total: nat)
    requires before != [] && RefusedLast(before, |before| - 1) && OnlyProbes(before, trace)
    requires
      var f := before[|before| - 1].outcome.failure;
      GaveUp(before, trace, sectors, total, f, f.completion.requestedLba)
    ensures RefusedLast(trace, |before| - 1) && Unproved(trace, |before| - 1, sectors, total)
  {
  }

  /** A conflict with the medium errors since the request was first sent is one with
      those since any command that could open a proof. */
  lemma ConflictHopeless(trace: seq<ReadEvent>, from: nat, candidate: nat, total: nat)
    requires Recovers(trace, from, candidate, 1) && !NoConflict(trace[from..], candidate)
    ensures Hopeless(trace, candidate, total)
  {
    forall at: nat | from < at && Opens(trace, at)
      ensures trace[from].lba + trace[from].count <= trace[at].lba
    {
      assert trace[..at][from] == trace[from];
    }
    forall at: nat | Encloses(trace, at, candidate, 1) && Opens(trace, at)
      ensures !NoConflict(trace[at..], candidate)
    {
      ConflictSince(trace, at, from, candidate);
    }
  }

  lemma {:induction false} ConflictSince(trace: seq<ReadEvent>, at: nat, from: nat, candidate: nat)
    requires at <= from <= |trace| && !NoConflict(trace[from..], candidate)
    ensures !NoConflict(trace[at..], candidate)
    decreases |trace|
  {
    if from < |trace| {
      var short, e := trace[..|trace| - 1], trace[|trace| - 1];
      assert trace[from..] == short[from..] + [e] && trace[at..] == short[at..] + [e];
      MediumNamesPush(short[from..], e);
      MediumNamesPush(short[at..], e);
      if !NoConflict(short[from..], candidate) {
        ConflictSince(short, at, from, candidate);
      }
    }
  }

  /** In a recovery the refused sector has met a medium error before. */
  lemma RefusedInRecovery(trace: seq<ReadEvent>, from: nat, lba: nat, candidate: nat)
    requires trace != [] && RefusedLast(trace, |trace| - 1) && trace[|trace| - 1].lba == lba
             && Recovers(trace, from, lba, 1)
    requires candidate == GetOr(trace[|trace| - 1].outcome.failure.sense.informationLba)
    ensures ReachedBy(trace, |trace| - 1, lba) && MediumCovers(trace, lba)
  {
    assert trace[|trace|..] == [];
    assert MediumCovers(trace, lba);
  }

  /** What the last command of `before` refused, and what is known of the request
      first sent at `from`. */
  ghost predicate Refusal(before: seq<ReadEvent>, from: nat, position: nat, candidate: nat) {
    && before != [] && RefusedLast(before, |before| - 1) && before[|before| - 1].lba == position
    && before[|before| - 1].outcome.failure.sense.informationLba == Some(candidate)
    && from < |before| && Opens(before, from) && Encloses(before, from, candidate, 1)
    && NoConflict(before[from..], candidate)
  }

  /** A proof made by probes alone is a proof on record. */
  lemma ProofAfterProbes(before: seq<ReadEvent>, trace: seq<ReadEvent>, from: nat, sectors: seq<Sector>, total: nat,
                         candidate: nat)
    requires OnlyProbes(before, trace) && from < |before|
    requires Opens(before, from) && Encloses(before, from, candidate, 1) && NoConflict(before[from..], candidate)
    requires ProofMade(before, trace, |before| - 1, sectors, total, candidate)
    ensures ProofOnRecord(trace, sectors, total, candidate)
  {
    ProofStands(before, trace, from, |before| - 1, sectors, total, candidate);
    assert trace[..from] == before[..from];
    assert ProofAt(trace, from, sectors, total, candidate);
  }

  /** The attempt to prove that boundary has come to an end, and this is how the
      image is left. */
  lemma AttemptLeaves(before: seq<ReadEvent>, trace: seq<ReadEvent>, from: nat, candidate: nat, sectors: seq<Sector>,
                      longer: seq<Sector>, total: nat, bad: seq<bool>, base: nat, skipped: seq<bool>, retained: nat,
                      proven: bool)
    requires Refusal(before, from, |sectors|, candidate) && OnlyProbes(before, trace)
    requires before[|before| - 1].outcome.failure.completion.requestedLba == |sectors|
    requires sectors <= longer && |longer| <= total == |bad| && base <= |sectors|
    requires ClearFrom(bad, |sectors|) && ClearFrom(skipped, |sectors|) && ClearBelow(bad, base)
    requires Sound(before, base, sectors, bad, skipped)
    requires forall i :: |sectors| <= i < |longer| ==> ReadAt(trace, i, longer[i])
    requires |longer| == Extended(|sectors|, candidate, trace[|before|..])
    requires !proven ==>
               && CutAt(bad, retained, Processed(before, |before| - 1, |longer|))
               && GaveUp(before, trace, longer, total, before[|before| - 1].outcome.failure, |sectors|)
    requires proven ==>
               retained == |longer| == candidate && ProofMade(before, trace, |before| - 1, longer, total, candidate)
    ensures Left(trace, longer, total, bad, base, skipped, retained, proven)
  {
    var k := |before| - 1;
    RecordKept(before, trace, k, from, |sectors|);
    SoundExtend(before, trace, base, sectors, longer, bad, skipped);
    assert StoppedAt(trace, k, longer, total, bad, retained, proven);
    if proven {
      ProofAfterProbes(before, trace, from, longer, total, candidate);
    }
    hide StoppedAt, ProofOnRecord, Sound;
  }

  /** The request first sent at `from` met a medium error there, and is being recovered. */
  ghost predicate Recovers(trace: seq<ReadEvent>, from: nat, start: nat, count: nat) {
    Encloses(trace, from, start, count) && IsMedium(trace[from]) && Opens(trace, from)
  }

  /** Probes leave standing what the content reads before them have shown. */
  lemma RecordKept(trace: seq<ReadEvent>, later: seq<ReadEvent>, k: nat, from: nat, lba: nat)
    requires OnlyProbes(trace, later) && RefusedLast(trace, k) && k == |trace| - 1 && from <= k && Opens(trace, from)
    ensures RefusedLast(later, k) && Opens(later, from) && later[k + 1..] == later[|trace|..]
    ensures MediumCovers(trace, lba) <==> MediumCovers(later, lba)
  {
    assert later[..from] == trace[..from];
    if MediumCovers(trace, lba) {
      var i :| 0 <= i < |trace| && !trace[i].probe && IsMedium(trace[i])
               && trace[i].lba <= lba < trace[i].lba + trace[i].count;
      assert later[i] == trace[i];
    }
    if MediumCovers(later, lba) {
      var i :| 0 <= i < |later| && !later[i].probe && IsMedium(later[i])
               && later[i].lba <= lba < later[i].lba + later[i].count;
      assert later[i] == trace[i];
    }
  }

  lemma SoundExtend(trace: seq<ReadEvent>, later: seq<ReadEvent>, base: nat, sectors: seq<Sector>, longer: seq<Sector>,
                    bad: seq<bool>, skipped: seq<bool>)
    requires trace <= later && sectors <= longer && |longer| <= |bad|
    requires Sound(trace, base, sectors, bad, skipped)
    requires ClearFrom(bad, |sectors|) && ClearFrom(skipped, |sectors|)
    requires forall i :: |sectors| <= i < |longer| ==> ReadAt(later, i, longer[i])
    ensures Sound(later, base, longer, bad, skipped)
  {
    SoundGrows(trace, later, base, sectors, bad, skipped);
    forall i | base <= i < |longer| ensures Evidence(later, i, longer[i], bad[i], skipped[i]) {
      assert i < |sectors| ==> longer[i] == sectors[i] && Evidence(later, i, sectors[i], bad[i], skipped[i]);
    }
  }

  /** Ready, and the evidence says what the medium errors since `from` said. */
  ghost predicate Recovering(trace: seq<ReadEvent>, image: Image, recovery: RecoveryState, evidence: ConflictEvidence,
                             processed: Counter, base: nat, skipped: seq<bool>, from: nat, lo: nat)
    reads image, recovery, recovery.bitmap, processed, evidence, evidence.lbas
  {
    && evidence.lbas as object != recovery.bitmap as object
    && Ready(trace, image, recovery, processed, base, skipped)
    && from < |trace| && trace[from].lba == lo && Recovers(trace, from, lo, trace[from].count)
    && evidence.Tracks(trace[from..]) && evidence.Within(lo)
  }

  datatype Attempt = Stop(status: Status) | Got(blocks: nat) | Retry

  /** One attempt at one request while it is being recovered. */
  method AttemptRange(drive: Drive, image: Image, recovery: RecoveryState, evidence: ConflictEvidence,
                      start: nat, count: nat, processed: Counter, ordinal: nat,
                      ghost base: nat, ghost skipped: seq<bool>, ghost from: nat, ghost lo: nat)
    returns (r: Attempt)
    requires Recovering(drive.trace, image, recovery, evidence, processed, base, skipped, from, lo)
    requires 0 < count && base <= start == processed.value && start + count <= recovery.total
    requires Encloses(drive.trace, from, start, count)
    modifies drive, image, processed, recovery`boundaryFailure, recovery`boundaryRetained, recovery`boundaryProven,
             evidence, evidence.lbas
    ensures Seeking(old(drive.trace), drive.trace)
    ensures ContentReads(drive.trace) == ContentReads(old(drive.trace)) + 1
    ensures old(image.sectors) <= image.sectors
    ensures r.Stop? ==> !r.status.Done?
    ensures !r.Stop? ==>
              && Recovering(drive.trace, image, recovery, evidence, processed, base, skipped, from, lo)
              && MediumUpTo(drive.trace, |old(drive.trace)|, start + count)
    ensures r.Got? ==> 0 < r.blocks <= count && processed.value == start + r.blocks
    ensures r.Retry? ==>
              && processed.value == start
              && exists f: ReadFailure ::
                   f.status.MediumError?
                   && drive.trace == old(drive.trace) + [ReadEvent(start, count, true, false, Failed(f))]
    ensures recovery.boundaryProven ==> recovery.boundaryFailure
    ensures recovery.boundaryFailure ==>
              r.Stop? && BoundaryLeft(drive.trace, image, recovery, base, skipped)
  {
    ghost var trace := drive.trace;
    var answer := drive.BackendRead(start, count, true, ordinal, false);
    ghost var e := ReadEvent(start, count, true, false, answer);
    ContentReadsPush(trace, e);
    match answer {
      case Fatal =>
        r := Stop(Broke);
      case Ended =>
        r := Stop(Broke);
      case Success(data) =>
        hide Recovering, ContentReads;
        var ok := TakeAttempt(drive, image, recovery, evidence, data, processed, base, skipped, from, lo, trace, e);
        r := if ok then Got(|data|) else Stop(Broke);
      case Failed(f) =>
        hide Recovering, ContentReads, BoundaryLeft;
        r := FailedAttempt(drive, image, recovery, evidence, f, processed, base, skipped, from, lo, trace, e);
    }
  }

  /** The attempt `e` at the end of the trace delivered something. */
  method TakeAttempt(drive: Drive, image: Image, recovery: RecoveryState, evidence: ConflictEvidence,
                     data: seq<Sector>, processed: Counter, ghost base: nat, ghost skipped: seq<bool>,
                     ghost from: nat, ghost lo: nat, ghost trace: seq<ReadEvent>, ghost e: ReadEvent)
    returns (ok: bool)
    requires drive.trace == trace + [e] && e.outcome == Success(data) && e.lba == processed.value
    requires Recovering(trace, image, recovery, evidence, processed, base, skipped, from, lo)
    requires processed.value + |data| <= recovery.total
    modifies image, processed
    ensures old(image.sectors) <= image.sectors && processed.value == old(processed.value) + |data|
    ensures !recovery.boundaryFailure && !recovery.boundaryProven
    ensures ok ==> Recovering(drive.trace, image, recovery, evidence, processed, base, skipped, from, lo)
  {
    TracksPush(evidence, trace, from, e);
    RecoversGrows(trace, drive.trace, from, lo, trace[from].count);
    SoundAppend(trace, e, base, image.sectors, recovery.Bits(), skipped);
    hide Sound, Recovers;
    ok := ConsumeBlocks(image, data, processed);
  }

  /** The attempt `e` at the end of the trace failed: note a medium error, stop for
      anything else. */
  method FailedAttempt(drive: Drive, image: Image, recovery: RecoveryState, evidence: ConflictEvidence,
                       f: ReadFailure, processed: Counter, ghost base: nat, ghost skipped: seq<bool>,
                       ghost from: nat, ghost lo: nat, ghost trace: seq<ReadEvent>, ghost e: ReadEvent)
    returns (r: Attempt)
    requires drive.trace == trace + [e] && Legal(e) && e.outcome == Failed(f) && !e.probe && e.lba == processed.value
    requires Recovering(trace, image, recovery, evidence, processed, base, skipped, from, lo) && base <= processed.value
    requires Encloses(trace, from, e.lba, e.count)
    modifies drive, image, processed, recovery`boundaryFailure, recovery`boundaryRetained, recovery`boundaryProven,
             evidence, evidence.lbas
    ensures Seeking(old(drive.trace), drive.trace) && ContentReads(drive.trace) == ContentReads(old(drive.trace))
    ensures old(image.sectors) <= image.sectors && !r.Got?
    ensures r.Stop? ==> !r.status.Done?
    ensures r.Retry? <==> f.status.MediumError?
    ensures r.Retry? ==>
              && drive.trace == old(drive.trace) && processed.value == old(processed.value)
              && Recovering(drive.trace, image, recovery, evidence, processed, base, skipped, from, lo)
    ensures recovery.boundaryProven ==> recovery.boundaryFailure
    ensures recovery.boundaryFailure ==> r.Stop? && BoundaryLeft(drive.trace, image, recovery, base, skipped)
  {
    RecoversGrows(trace, drive.trace, from, lo, trace[from].count);
    SoundGrows(trace, drive.trace, base, image.sectors, recovery.Bits(), skipped);
    hide Sound, ContentReads, BoundaryLeft;
    assert drive.trace[from..] == trace[from..] + [e];
    if f.status.MediumError? {
      InformationInRequest(f.completion);
      evidence.Record(f, lo, trace[from..], e);
      r := Retry;
    } else {
      TracksPush(evidence, trace, from, e);
      var status := StopRecovery(drive, image, recovery, evidence, f, processed, base, skipped, from);
      r := Stop(status);
    }
  }

  lemma RecoversGrows(trace: seq<ReadEvent>, later: seq<ReadEvent>, from: nat, start: nat, count: nat)
    requires trace <= later && Recovers(trace, from, start, count)
    ensures Recovers(later, from, start, count)
  {
    assert later[..from] == trace[..from];
  }

  /** A failure that ends the recovery of a request. */
  method StopRecovery(drive: Drive, image: Image, recovery: RecoveryState, evidence: ConflictEvidence,
                      f: ReadFailure, processed: Counter, ghost base: nat, ghost skipped: seq<bool>, ghost from: nat)
    returns (status: Status)
    requires Ready(drive.trace, image, recovery, processed, base, skipped) && base <= processed.value
    requires Recovers(drive.trace, from, f.completion.requestedLba, f.completion.requestedBlocks)
    requires
      var last := drive.trace[|drive.trace| - 1];
      last.outcome == Failed(f) && !last.probe && last.lba == processed.value
    requires f == ClassifyReadFailure(f.completion) && !f.status.MediumError?
    requires f.completion.requestedLba == processed.value
    requires evidence.Tracks(drive.trace[from..])
    modifies drive, image, processed, recovery`boundaryFailure, recovery`boundaryRetained, recovery`boundaryProven
    ensures !status.Done? && Seeking(old(drive.trace), drive.trace) && old(image.sectors) <= image.sectors
    ensures ContentReads(drive.trace) == ContentReads(old(drive.trace))
    ensures recovery.boundaryProven ==> recovery.boundaryFailure
    ensures recovery.boundaryFailure ==> BoundaryLeft(drive.trace, image, recovery, base, skipped)
  {
    if f.status.OutOfRange? {
      status := RefusedDuringRecovery(drive, image, recovery, evidence, f, processed, base, skipped, from);
      OnlyProbesCost(old(drive.trace), drive.trace);
    } else {
      var retained := recovery.BoundaryRetained(processed.value);
      status := EmitReadFailure(f, recovery, retained);
    }
  }

  /** Writes and records the placeholder for one sector. */
  method ReplaceSector(drive: Drive, image: Image, recovery: RecoveryState, evidence: ConflictEvidence,
                       processed: Counter, ghost base: nat, ghost skipped: seq<bool>, ghost from: nat, ghost lo: nat)
    returns (status: Status)
    requires Recovering(drive.trace, image, recovery, evidence, processed, base, skipped, from, lo)
    requires processed.value < recovery.total <= 8 * recovery.bitmap.Length && base <= processed.value
    requires Exhausted(drive.trace, processed.value)
    modifies image, processed, recovery`badSectorCount, recovery`badAreaCount, recovery.bitmap
    ensures old(image.sectors) <= image.sectors && !status.ReadFailed?
    ensures status.Done? ==> processed.value == old(processed.value) + 1
    ensures status.Done? ==> Recovering(drive.trace, image, recovery, evidence, processed, base, skipped, from, lo)
    ensures !recovery.boundaryFailure && !recovery.boundaryProven
  {
    SoundMark(drive.trace, base, image.sectors, recovery.Bits(), skipped);
    var lba := processed.value;
    var ok := ConsumeBlocks(image, [ZERO_SECTOR], processed);
    if !ok {
      return Broke;
    }
    recovery.MarkBadSector(lba);
    return Done;
  }

  /** Tries the whole request as often as the policy allows. `Retry` means that
      every attempt failed with a medium error. */
  method RetryRange(drive: Drive, image: Image, recovery: RecoveryState, evidence: ConflictEvidence,
                    start: nat, count: nat, processed: Counter, firstOrdinal: nat,
                    ghost base: nat, ghost skipped: seq<bool>, ghost from: nat, ghost lo: nat)
    returns (r: Attempt)
    requires Recovering(drive.trace, image, recovery, evidence, processed, base, skipped, from, lo)
    requires 0 < count && base <= start == processed.value && start + count <= recovery.total
    requires Encloses(drive.trace, from, start, count)
    modifies drive, image, processed, recovery`boundaryFailure, recovery`boundaryRetained, recovery`boundaryProven,
             evidence, evidence.lbas
    ensures Seeking(old(drive.trace), drive.trace)
    ensures ContentReads(drive.trace) <= ContentReads(old(drive.trace)) + RECOVERY_READ_ATTEMPTS
    ensures old(image.sectors) <= image.sectors
    ensures r.Stop? ==> !r.status.Done?
    ensures !r.Stop? ==>
              && Recovering(drive.trace, image, recovery, evidence, processed, base, skipped, from, lo)
              && MediumUpTo(drive.trace, |old(drive.trace)|, start + count)
    ensures r.Got? ==> 0 < r.blocks <= count && processed.value == start + r.blocks
    ensures r.Retry? ==>
              && processed.value == start && |drive.trace| == |old(drive.trace)| + RECOVERY_READ_ATTEMPTS
              && forall i :: |old(drive.trace)| <= i < |drive.trace| ==>
                   IsMedium(drive.trace[i]) && drive.trace[i].lba == start && drive.trace[i].count == count
    ensures recovery.boundaryProven ==> recovery.boundaryFailure
    ensures recovery.boundaryFailure ==>
              r.Stop? && BoundaryLeft(drive.trace, image, recovery, base, skipped)
  {
    for attempt := 0 to RECOVERY_READ_ATTEMPTS
      invariant Recovering(drive.trace, image, recovery, evidence, processed, base, skipped, from, lo)
      invariant processed.value == start && old(image.sectors) <= image.sectors
      invariant Seeking(old(drive.trace), drive.trace)
      invariant |drive.trace| == |old(drive.trace)| + attempt
      invariant ContentReads(drive.trace) == ContentReads(old(drive.trace)) + attempt
      invariant forall i :: |old(drive.trace)| <= i < |drive.trace| ==>
                  IsMedium(drive.trace[i]) && drive.trace[i].lba == start && drive.trace[i].count == count
    {
      r := AttemptRange(drive, image, recovery, evidence, start, count, processed, firstOrdinal + attempt,
                        base, skipped, from, lo);
      if !r.Retry? {
        return;
      }
    }
    return Retry;
  }

  /** Retries a failed request as a whole, then splits it in halves down to single
      sectors. A single sector that still fails is replaced by a placeholder. */
  method RecoverRange(drive: Drive, image: Image, recovery: RecoveryState, evidence: ConflictEvidence,
                      start: nat, count: nat, processed: Counter, firstOrdinal: nat,
                      ghost base: nat, ghost skipped: seq<bool>, ghost from: nat, ghost lo: nat)
    returns (status: Status)
    requires Recovering(drive.trace, image, recovery, evidence, processed, base, skipped, from, lo)
    requires 0 < count && processed.value == start && base <= start
    requires start + count <= recovery.total <= 8 * recovery.bitmap.Length
    requires Encloses(drive.trace, from, start, count)
    modifies drive, image, processed, recovery`badSectorCount, recovery`badAreaCount, recovery`boundaryFailure,
             recovery`boundaryRetained, recovery`boundaryProven, recovery.bitmap, evidence, evidence.lbas
    ensures Seeking(old(drive.trace), drive.trace)
    ensures ContentReads(drive.trace) <= ContentReads(old(drive.trace)) + 4 * count - 2
    ensures old(image.sectors) <= image.sectors
    ensures status.Done? ==>
              && Recovering(drive.trace, image, recovery, evidence, processed, base, skipped, from, lo)
              && processed.value == start + count && MediumUpTo(drive.trace, |old(drive.trace)|, start + count)
    ensures recovery.boundaryProven ==> recovery.boundaryFailure
    ensures recovery.boundaryFailure ==>
              !status.Done? && BoundaryLeft(drive.trace, image, recovery, base, skipped)
    decreases count
  {
    hide Recovering, BoundaryLeft;
    var r := RetryRange(drive, image, recovery, evidence, start, count, processed, firstOrdinal, base, skipped, from,
                        lo);
    if r.Stop? {
      return r.status;
    }
    if r.Got? {
      if r.blocks == count {
        return Done;
      }
      status := RecoverRange(drive, image, recovery, evidence, start + r.blocks, count - r.blocks, processed, 0,
                             base, skipped, from, lo);
      return;
    }
    if count == 1 {
      assert FailedRunAt(drive.trace, |old(drive.trace)|, start);
      status := ReplaceSector(drive, image, recovery, evidence, processed, base, skipped, from, lo);
      return;
    }
    var left := count / 2;
    status := RecoverRange(drive, image, recovery, evidence, start, left, processed, 0, base, skipped, from, lo);
    if !status.Done? {
      return;
    }
    status := RecoverRange(drive, image, recovery, evidence, start + left, count - left, processed, 0,
                           base, skipped, from, lo);
  }
}
