/** The optical drive as an adversary, and what a trace of its answers proves
    about a sector of the image. */
module Drive {
  import opened Common
  import opened Sense

  const RECOVERY_READ_ATTEMPTS: nat := 2

  function Zeros(n: nat): (r: seq<Byte>)
    ensures |r| == n && forall i :: 0 <= i < n ==> r[i] == 0
  {
    if n == 0 then [] else Zeros(n - 1) + [0]
  }

  type Sector = s: seq<Byte> | |s| == SECTOR_BYTES witness Zeros(SECTOR_BYTES)

  const ZERO_SECTOR: Sector := Zeros(SECTOR_BYTES)

  datatype Outcome = Success(data: seq<Sector>) | Failed(failure: ReadFailure) | Ended | Fatal

  /** One command sent to the drive. `probe` tells boundary probes from content reads. */
  datatype ReadEvent = ReadEvent(lba: nat, count: nat, absolute: bool, probe: bool, outcome: Outcome)

  /** All that is taken for granted about an answer: a successful read moves
      between one and the requested number of sectors, and a failure carries the
      classifier's verdict on a completion of this very request. */
  predicate Legal(e: ReadEvent) {
    match e.outcome
    case Success(data) => 1 <= |data| <= e.count
    case Failed(f) => f == ClassifyReadFailure(f.completion)
                      && f.completion.requestedLba == e.lba && f.completion.requestedBlocks == e.count
    case _ => true
  }

  predicate IsMedium(e: ReadEvent) {
    e.outcome.Failed? && e.outcome.failure.status.MediumError?
  }

  datatype Transport =
    | Transferred(data: seq<Sector>)
    | Completed(captured: bool, commandCompleted: bool, scsiStatus: Byte, hostStatus: Word,
                driverStatus: Word, reportedLength: nat, sense: seq<Byte>)
    | NoMoreData
    | Broken

  class Drive {
    ghost var trace: seq<ReadEvent>

    /** One read. The answer is any legal one, chosen anew each time. */
    method BackendRead(lba: nat, count: nat, absolute: bool, ordinal: nat, ghost probe: bool) returns (r: Outcome)
      requires count > 0
      modifies this
      ensures trace == old(trace) + [ReadEvent(lba, count, absolute, probe, r)]
      ensures Legal(ReadEvent(lba, count, absolute, probe, r))
      ensures r.Failed? ==> r.failure.completion.retryOrdinal == ordinal
    {
      var answer: Transport := *;
      match answer {
        case Transferred(data) =>
          r := if 1 <= |data| <= count then Success(data) else Fatal;
        case Completed(captured, done, scsi, host, driver, reported, sense) =>
          r := Failed(ClassifyReadFailure(Completion(lba, count, ordinal, captured, done, scsi, host, driver, reported,
                                                     sense)));
        case NoMoreData =>
          r := Ended;
        case Broken =>
          r := Fatal;
      }
      trace := trace + [ReadEvent(lba, count, absolute, probe, r)];
    }

    /** A boundary probe. The parent may withdraw its authorization before or
        after the command, which is fatal to the run. */
    method BoundaryProbeRead(lba: nat, count: nat, ordinal: nat) returns (r: Outcome)
      requires count > 0
      modifies this
      ensures r.Fatal? || trace == old(trace) + [ReadEvent(lba, count, true, true, r)]
      ensures r.Fatal? ==>
                trace == old(trace) || exists o :: trace == old(trace) + [ReadEvent(lba, count, true, true, o)]
      ensures Legal(ReadEvent(lba, count, true, true, r))
    {
      var authorized: bool := *;
      if !authorized {
        return Fatal;
      }
      r := BackendRead(lba, count, true, ordinal, true);
      authorized := *;
      if !authorized {
        r := Fatal;
      }
    }
  }

  /** Content reads, leaving out boundary probes. */
  function ContentReads(trace: seq<ReadEvent>): nat {
    if trace == [] then 0
    else ContentReads(trace[..|trace| - 1]) + (if trace[|trace| - 1].probe then 0 else 1)
  }

  lemma ContentReadsPush(trace: seq<ReadEvent>, e: ReadEvent)
    ensures ContentReads(trace + [e]) == ContentReads(trace) + (if e.probe then 0 else 1)
  {
    assert (trace + [e])[..|trace|] == trace;
  }

  /** The addresses that medium errors in `events` name. */
  function MediumNames(events: seq<ReadEvent>): set<nat> {
    if events == [] then {}
    else
      var last := events[|events| - 1];
      MediumNames(events[..|events| - 1])
      + (if IsMedium(last) && last.outcome.failure.sense.informationLba.Some?
         then {last.outcome.failure.sense.informationLba.value} else {})
  }

  /** Some medium error in `events` names no address. */
  predicate HasUnlocated(events: seq<ReadEvent>) {
    exists k :: 0 <= k < |events| && IsMedium(events[k]) && events[k].outcome.failure.sense.informationLba.None?
  }

  lemma MediumNamesPush(events: seq<ReadEvent>, e: ReadEvent)
    ensures MediumNames(events + [e]) == MediumNames(events)
            + (if IsMedium(e) && e.outcome.failure.sense.informationLba.Some?
               then {e.outcome.failure.sense.informationLba.value} else {})
    ensures HasUnlocated(events + [e]) <==>
              HasUnlocated(events) || (IsMedium(e) && e.outcome.failure.sense.informationLba.None?)
  {
    var after := events + [e];
    assert after[..|events|] == events;
    if HasUnlocated(events) {
      var k :| 0 <= k < |events| && IsMedium(events[k]) && events[k].outcome.failure.sense.informationLba.None?;
      assert after[k] == events[k];
    }
    assert after[|events|] == e;
    if HasUnlocated(after) {
      var k :| 0 <= k < |after| && IsMedium(after[k]) && after[k].outcome.failure.sense.informationLba.None?;
      assert k < |events| ==> after[k] == events[k];
    }
  }

  predicate Supplies(e: ReadEvent, lba: nat, s: Sector) {
    e.outcome.Success? && e.lba <= lba < e.lba + |e.outcome.data| && e.outcome.data[lba - e.lba] == s
  }

  /** Some successful read delivered `s` as the content of `lba`. */
  ghost predicate ReadAt(trace: seq<ReadEvent>, lba: nat, s: Sector) {
    exists k :: 0 <= k < |trace| && Supplies(trace[k], lba, s)
  }

  predicate SingleMedium(e: ReadEvent, lba: nat) {
    IsMedium(e) && e.lba == lba && e.count == 1
  }

  predicate FailedRunAt(trace: seq<ReadEvent>, k: nat, lba: nat) {
    k + RECOVERY_READ_ATTEMPTS <= |trace|
    && forall j :: k <= j < k + RECOVERY_READ_ATTEMPTS ==> SingleMedium(trace[j], lba)
  }

  /** Every attempt allowed for `lba` on its own failed, one after the other. */
  ghost predicate Exhausted(trace: seq<ReadEvent>, lba: nat) {
    exists k :: FailedRunAt(trace, k, lba)
  }

  /** A medium error was reported for a request that covers `lba`. */
  ghost predicate Skipped(trace: seq<ReadEvent>, lba: nat) {
    exists k :: 0 <= k < |trace| && IsMedium(trace[k]) && trace[k].lba <= lba < trace[k].lba + trace[k].count
  }

  /** What the two maps say about a sector is what the drive did. */
  ghost predicate Evidence(trace: seq<ReadEvent>, lba: nat, s: Sector, bad: bool, skipped: bool) {
    if bad then s == ZERO_SECTOR && Exhausted(trace, lba)
    else if skipped then s == ZERO_SECTOR && Skipped(trace, lba)
    else ReadAt(trace, lba, s)
  }

  lemma EvidenceGrows(trace: seq<ReadEvent>, later: seq<ReadEvent>, lba: nat, s: Sector, bad: bool, skipped: bool)
    requires trace <= later && Evidence(trace, lba, s, bad, skipped)
    ensures Evidence(later, lba, s, bad, skipped)
  {
    if bad {
      var k :| FailedRunAt(trace, k, lba);
      assert FailedRunAt(later, k, lba);
    } else if skipped {
      var k :| 0 <= k < |trace| && IsMedium(trace[k]) && trace[k].lba <= lba < trace[k].lba + trace[k].count;
      assert later[k] == trace[k];
    } else {
      var k :| 0 <= k < |trace| && Supplies(trace[k], lba, s);
      assert later[k] == trace[k];
    }
  }

  /** Every sector of the image from `base` on is accounted for by the trace. */
  ghost predicate Sound(trace: seq<ReadEvent>, base: nat, sectors: seq<Sector>, bad: seq<bool>, skipped: seq<bool>) {
    && base <= |sectors| <= |bad| && |bad| == |skipped|
    && forall i :: base <= i < |sectors| ==> Evidence(trace, i, sectors[i], bad[i], skipped[i])
  }

  lemma SoundGrows(trace: seq<ReadEvent>, later: seq<ReadEvent>, base: nat, sectors: seq<Sector>, bad: seq<bool>,
                   skipped: seq<bool>)
    requires trace <= later && Sound(trace, base, sectors, bad, skipped)
    ensures Sound(later, base, sectors, bad, skipped)
  {
    forall i | base <= i < |sectors| ensures Evidence(later, i, sectors[i], bad[i], skipped[i]) {
      EvidenceGrows(trace, later, i, sectors[i], bad[i], skipped[i]);
    }
  }

  /** Appending what a read delivered keeps the image sound. */
  lemma SoundAppend(trace: seq<ReadEvent>, e: ReadEvent, base: nat, sectors: seq<Sector>, bad: seq<bool>,
                    skipped: seq<bool>)
    requires Sound(trace, base, sectors, bad, skipped)
    requires e.outcome.Success? && e.lba == |sectors| && |sectors| + |e.outcome.data| <= |bad|
    requires forall i :: |sectors| <= i < |bad| ==> !bad[i] && !skipped[i]
    ensures Sound(trace + [e], base, sectors + e.outcome.data, bad, skipped)
  {
    var later := trace + [e];
    SoundGrows(trace, later, base, sectors, bad, skipped);
    forall i | |sectors| <= i < |sectors| + |e.outcome.data|
      ensures Evidence(later, i, (sectors + e.outcome.data)[i], bad[i], skipped[i])
    {
      assert Supplies(later[|trace|], i, (sectors + e.outcome.data)[i]);
    }
  }

  /** A placeholder may replace a sector whose own reads all failed. */
  lemma SoundMark(trace: seq<ReadEvent>, base: nat, sectors: seq<Sector>, bad: seq<bool>, skipped: seq<bool>)
    requires Sound(trace, base, sectors, bad, skipped) && |sectors| < |bad|
    requires Exhausted(trace, |sectors|)
    ensures Sound(trace, base, sectors + [ZERO_SECTOR], bad[|sectors| := true], skipped)
  {
    var marked := bad[|sectors| := true];
    forall i | base <= i <= |sectors|
      ensures Evidence(trace, i, (sectors + [ZERO_SECTOR])[i], marked[i], skipped[i])
    {
      if i < |sectors| {
        assert Evidence(trace, i, sectors[i], bad[i], skipped[i]);
      }
    }
  }

  /** A command without a seek continues exactly where the last read stopped,
      or is the first of the run at the start of the disc. */
  predicate ContinuesAt(trace: seq<ReadEvent>, i: nat)
    requires i < |trace|
  {
    trace[i].absolute
    || (i == 0 && trace[0].lba == 0)
    || (i > 0 && trace[i - 1].outcome.Success? && trace[i].lba == trace[i - 1].lba + |trace[i - 1].outcome.data|)
  }

  ghost predicate SeekDiscipline(trace: seq<ReadEvent>, from: nat) {
    forall i :: from <= i < |trace| ==> ContinuesAt(trace, i)
  }

  lemma SeekDisciplineGrows(trace: seq<ReadEvent>, later: seq<ReadEvent>, from: nat)
    requires trace <= later && SeekDiscipline(trace, from)
    requires forall i :: |trace| <= i < |later| ==> later[i].absolute
    ensures SeekDiscipline(later, from)
  {
    forall i | from <= i < |later| ensures ContinuesAt(later, i) {
      if i < |trace| {
        assert ContinuesAt(trace, i);
      }
    }
  }
}
