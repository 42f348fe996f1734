/** The five guarded steps of a publication, each taken only under an unexpired
    claim, and the checks between them. */
module PublicationSteps {
  import opened Common
  import opened Publication

  const LEASE_MS: nat := 60000

  datatype Status = Running | Completed | Stopped

  /** The job row and its request as one check reads them, with the clock. */
  datatype Job = Job(status: Status, token: nat, requestRunning: bool, updatedAt: nat, now: nat)

  predicate Expired(j: Job) {
    j.updatedAt as int <= j.now - LEASE_MS
  }

  /** The job is completed, or is held under this unexpired claim. */
  predicate Held(j: Job, claim: nat) {
    j.status.Completed? || (j.status.Running? && j.token == claim && j.requestRunning && !Expired(j))
  }

  datatype StepName = IntentStep | ImageStep | ManifestStep | LinkStep | PointerStep

  datatype Entry = Checked(job: Job, claim: nat) | Body(step: StepName, claim: nat)
                 | Installing(name: Name, claim: nat)
                 | Committed(job: Job, claim: nat, store: Store, manifest: Manifest) | Removing

  /** The proven image, unaltered, under this name. */
  predicate Pictured(s: Store, n: Name, m: Manifest) {
    ImageAt(s, s.names, n, m) && s.files[m.imageInode].version == m.imageVersion
  }

  /** Everything is in place and nothing is left that a crash could lose. */
  ghost predicate Published(s: Store, m: Manifest) {
    && Holds(s, IntentName, Record(IntentRecord(m), true))
    && Holds(s, ManifestName, Record(ManifestRecord(m), true))
    && Holds(s, PointerName, Record(CheckpointRecord(CheckpointFor(m)), true))
    && Pictured(s, ArchiveName, m) && s.files[m.imageInode].synced
    && Settled(s, EvidenceDirectory) && SameEntry(s, ArchiveName)
  }

  /** What the log must show for `e` to come next. */
  ghost predicate Follows(past: seq<Entry>, e: Entry) {
    match e
    case Checked(_, _) => true
    case Body(_, claim) => JustHeld(past, claim)
    case Installing(_, claim) => JustHeld(past, claim)
    case Committed(job, claim, store, manifest) => Held(job, claim) && Published(store, manifest)
    case Removing => HasCommit(past)
  }

  predicate JustHeld(past: seq<Entry>, claim: nat) {
    |past| > 0 && var last := past[|past| - 1]; last.Checked? && last.claim == claim && Held(last.job, claim)
  }

  predicate HasCommit(log: seq<Entry>) {
    exists k :: 0 <= k < |log| && log[k].Committed?
  }

  ghost predicate Orderly(log: seq<Entry>) {
    forall k :: 0 <= k < |log| ==> Follows(log[..k], log[k])
  }

  lemma Appended(log: seq<Entry>, e: Entry)
    requires Orderly(log) && Follows(log, e)
    ensures Orderly(log + [e])
    ensures HasCommit(log + [e]) <==> HasCommit(log) || e.Committed?
  {
    hide Follows;
    var longer := log + [e];
    forall k | 0 <= k < |longer|
      ensures Follows(longer[..k], longer[k])
    {
      assert longer[..k] == log[..k];
      assert log[..|log|] == log;
    }
    assert longer[|log|] == e;
    assert forall k :: 0 <= k < |log| ==> longer[k] == log[k];
  }

  /** The entry that must come before a permanent name may appear. */
  function MadeUnder(n: Name, claim: nat): Entry {
    match n
    case IntentName => Body(IntentStep, claim)
    case ManifestName => Body(ManifestStep, claim)
    case _ => Installing(n, claim)
  }

  ghost predicate Noted(log: seq<Entry>, first: nat, n: Name, claim: nat) {
    exists k :: first <= k < |log| && log[k] == MadeUnder(n, claim)
  }

  /** The history went on from `log0` to `log`, and every permanent name that
      appeared meanwhile was made in a step that it shows. */
  ghost predicate Accounted(s: Store, t: Store, log0: seq<Entry>, log: seq<Entry>, claim: nat) {
    log0 <= log && forall n :: Permanent(n) && n in t.names && n !in s.names ==> Noted(log, |log0|, n, claim)
  }

  lemma AccountedOne(s: Store, t: Store, log0: seq<Entry>, log: seq<Entry>, claim: nat, k: nat, made: Name)
    requires log0 <= log && |log0| <= k < |log| && log[k] == MadeUnder(made, claim)
    requires forall n :: Permanent(n) && n in t.names && n != made ==> n in s.names
    ensures Accounted(s, t, log0, log, claim)
  {
    assert Noted(log, |log0|, made, claim);
  }

  lemma AccountedTrans(a: Store, b: Store, c: Store, log0: seq<Entry>, log1: seq<Entry>, log2: seq<Entry>, claim: nat)
    requires Accounted(a, b, log0, log1, claim) && Accounted(b, c, log1, log2, claim)
    ensures Accounted(a, c, log0, log2, claim)
  {
    forall n | Permanent(n) && n in c.names && n !in a.names
      ensures Noted(log2, |log0|, n, claim)
    {
      if n in b.names {
        var k :| |log0| <= k < |log1| && log1[k] == MadeUnder(n, claim);
        assert log2[k] == log1[k];
      } else {
        var k :| |log1| <= k < |log2| && log2[k] == MadeUnder(n, claim);
      }
    }
  }

  /** The same for a history of many claims: each permanent name that is there now,
      and was not at the start, was made in a step that the history shows. */
  ghost predicate Explained(s: Store, t: Store, log0: seq<Entry>, log: seq<Entry>) {
    log0 <= log && forall n :: Permanent(n) && n in t.names && n !in s.names ==>
      exists claim :: Noted(log, |log0|, n, claim)
  }

  lemma AccountedExplained(s: Store, t: Store, log0: seq<Entry>, log: seq<Entry>, claim: nat)
    requires Accounted(s, t, log0, log, claim)
    ensures Explained(s, t, log0, log)
  {
  }

  lemma ExplainedTrans(a: Store, b: Store, c: Store, log0: seq<Entry>, log1: seq<Entry>, log2: seq<Entry>)
    requires Explained(a, b, log0, log1) && Explained(b, c, log1, log2)
    ensures Explained(a, c, log0, log2)
  {
    forall n | Permanent(n) && n in c.names && n !in a.names
      ensures exists claim :: Noted(log2, |log0|, n, claim)
    {
      if n in b.names {
        var claim :| Noted(log1, |log0|, n, claim);
        var k :| |log0| <= k < |log1| && log1[k] == MadeUnder(n, claim);
        assert log2[k] == log1[k];
        assert Noted(log2, |log0|, n, claim);
      } else {
        var claim :| Noted(log2, |log1|, n, claim);
        assert Noted(log2, |log0|, n, claim);
      }
    }
  }

  /** A power failure makes no permanent name. */
  lemma ExplainedCrash(a: Store, s: Store, t: Store, log0: seq<Entry>, log: seq<Entry>)
    requires Explained(a, s, log0, log) && Grounded(s) && CrashOf(s, t)
    ensures Explained(a, t, log0, log)
  {
    forall n | Permanent(n) && n in t.names && n !in a.names
      ensures exists claim :: Noted(log, |log0|, n, claim)
    {
      assert n in s.names;
    }
  }

  /** The database's part of the world, and a history of what mattered. */
  class Ledger {
    var job: Job
    var done: Option<Checkpoint>
    ghost var log: seq<Entry>

    ghost predicate Valid()
      reads this
    {
      Orderly(log) && (job.status.Completed? <==> done.Some?) && (done.Some? <==> HasCommit(log))
    }

    /** Time passes and others act on the job; only a save completes it. */
    method Drift()
      requires Valid()
      modifies this`job
      ensures Valid()
    {
      var next: Job := *;
      var status :=
        if job.status.Completed? then Completed else if next.status.Completed? then Stopped else next.status;
      job := next.(status := status);
    }

    method Authorize(claim: nat) returns (o: Outcome)
      requires Valid()
      modifies this
      ensures Valid() && done == old(done)
      ensures log == old(log) + [Checked(job, claim)]
      ensures o == if Held(job, claim) then Fine else Raise(Denied)
    {
      Drift();
      Appended(log, Checked(job, claim));
      log := log + [Checked(job, claim)];
      o := if Held(job, claim) then Fine else Raise(Denied);
    }

    ghost method Note(e: Entry)
      requires Valid() && Follows(log, e) && !e.Committed?
      modifies this`log
      ensures Valid() && log == old(log) + [e]
    {
      Appended(log, e);
      log := log + [e];
    }

    /** The atomic database save, guarded by the claim; saving again changes nothing. */
    method Save(claim: nat, m: Manifest, ghost store: Store) returns (o: Outcome)
      requires Valid() && Published(store, m)
      modifies this
      ensures Valid()
      ensures old(done).Some? ==> done == old(done) && log == old(log)
      ensures done == old(done) ==> log == old(log)
      ensures done != old(done) ==> exists j :: log == old(log) + [Committed(j, claim, store, m)]
      ensures o.Fine? <==> done == Some(CheckpointFor(m))
      ensures o.Raise? ==> o.fault.Denied? && done == old(done)
    {
      Drift();
      if done.Some? {
        return if done.value == CheckpointFor(m) then Fine else Raise(Denied);
      }
      if !Held(job, claim) {
        return Raise(Denied);
      }
      Appended(log, Committed(job, claim, store, m));
      log := log + [Committed(job, claim, store, m)];
      done := Some(CheckpointFor(m));
      job := job.(status := Completed);
      o := Fine;
    }
  }

  /** A database that already knows of a checkpoint must not be ahead of the one
      on disk, nor disagree with it. */
  function CheckProjection(pointer: Option<Content>, projection: Option<Checkpoint>): (o: Outcome)
    ensures projection.None? ==> o.Fine?
    ensures projection.Some? && projection.value.revision >= 1
            && pointer == Some(CheckpointRecord(projection.value)) ==>
              o.Fine?
    ensures projection.Some? && o.Fine? && pointer.Some? && pointer.value.CheckpointRecord? ==>
              && 1 <= projection.value.revision <= pointer.value.checkpoint.revision
              && (projection.value.revision == pointer.value.checkpoint.revision ==>
                    && projection.value.manifestId == pointer.value.checkpoint.manifestId
                    && projection.value.manifestDigest == pointer.value.checkpoint.manifestDigest)
    ensures projection.Some? && o.Fine? ==> pointer.Some? && pointer.value.CheckpointRecord?
  {
    if projection.None? then Fine
    else if pointer.Some? && !pointer.value.CheckpointRecord? then Raise(CheckpointConflict)
    else if projection.value.revision < 1 || pointer.None?
            || projection.value.revision > pointer.value.checkpoint.revision then Raise(ProjectionAhead)
    else if projection.value.revision == pointer.value.checkpoint.revision
            && (projection.value.manifestId != pointer.value.checkpoint.manifestId
                || projection.value.manifestDigest != pointer.value.checkpoint.manifestDigest)
                   then Raise(CheckpointConflict)
    else Fine
  }

  /** The image that the manifest describes is on disk and has not changed. */
  predicate Unaltered(s: Store, m: Manifest) {
    m.imageInode in s.files && s.files[m.imageInode].ImageFile? && s.files[m.imageInode].version == m.imageVersion
  }

  lemma ImageStays(s: Store, t: Store, n: Name, m: Manifest)
    requires Grows(s, t) && !n.Temp?
    ensures Pictured(s, n, m) ==> Pictured(t, n, m) && (s.files[m.imageInode].synced ==> t.files[m.imageInode].synced)
    ensures m.imageInode in s.files ==> (Unaltered(s, m) <==> Unaltered(t, m))
  {
  }

  /** Publishing the link keeps everything safe once the manifest is durable and
      the image has been synced. */
  lemma LinkKept(s: Store, m: Manifest, done: Option<Checkpoint>)
    requires Grounded(s) && ArchiveName !in s.names
    requires Holds(s, IntentName, Record(IntentRecord(m), true)) && ManifestName in s.durable
    requires Pictured(s, StagingName, m) && s.files[m.imageInode].synced
    ensures Kept(s, s.(names := s.names[ArchiveName := s.names[StagingName]]), done)
  {
    var t := s.(names := s.names[ArchiveName := s.names[StagingName]]);
    assert HasIntent(s) && Intended(s) == m && HasIntent(t) && Intended(t) == m;
    assert Grounded(t) && Grows(s, t) by {
      hide Safe;
    }
    hide Grows;
  }
}
