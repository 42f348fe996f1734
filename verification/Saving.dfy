/** The save: publication, the database, the cleanup, and any number of attempts
    with crashes between and inside them. */
module Saving {
  import opened Common
  import opened Publication
  import opened PublicationSteps
  import opened Survival
  import opened Publishing

  /** What was durable stays: nothing installed is ever replaced, even across crashes. */
  ghost predicate Lasts(s: Store, t: Store) {
    && (forall n :: Permanent(n) && n in s.durable ==> n in t.durable && t.durable[n] == s.durable[n])
    && (forall i :: i in s.files ==> i in t.files && (s.files[i].synced ==> t.files[i] == s.files[i]))
  }

  lemma LastsTrans(a: Store, b: Store, c: Store)
    requires Lasts(a, b) && Lasts(b, c)
    ensures Lasts(a, c)
  {
  }

  lemma CrashLasts(s: Store, t: Store)
    requires Grounded(s) && CrashOf(s, t)
    ensures Lasts(s, t)
  {
  }

  /** An intent that has become durable is the one every later run works from. */
  lemma IntentLasts(s: Store, t: Store, done: Option<Checkpoint>, later: Option<Checkpoint>)
    requires Safe(s, done) && Safe(t, later) && Lasts(s, t) && IntentName in s.durable
    ensures HasIntent(s) && HasIntent(t) && Intended(t) == Intended(s)
  {
  }

  /** Everything in place is all the database needs. */
  lemma SavedSafe(s: Store, m: Manifest)
    requires Safe(s, None) && Published(s, m)
    ensures Safe(s, Some(CheckpointFor(m)))
  {
  }

  /** The store without the staging name, its removal synced or not yet. */
  function Trimmed(s: Store, synced: bool): Store {
    var t := s.(names := s.names - {StagingName});
    if synced then t.(durable := SyncedEntries(t, DirectoryOf(StagingName, s.shared))) else t
  }

  lemma TrimSafe(s: Store, synced: bool, done: Option<Checkpoint>, m: Manifest)
    requires Grounded(s) && done.Some?
    ensures var t := Trimmed(s, synced); Grounded(t) && (Safe(s, done) ==> Safe(t, done)) && Lasts(s, t)
  {
    var t := Trimmed(s, synced);
    if Safe(s, done) {
      assert HasIntent(t) && Intended(t) == Intended(s);
    }
  }

  lemma TrimPublished(s: Store, synced: bool, m: Manifest)
    requires Published(s, m)
    ensures Published(Trimmed(s, synced), m)
  {
  }

  /** The staging name may go: it is the image, or it has gone already. */
  predicate Removable(s: Store, m: Manifest) {
    StagingName in s.names ==> Pictured(s, StagingName, m)
  }

  /** Removes the request's own link, after checking the committed save once more. */
  method FinalizePublication(p: Publisher, m: Manifest) returns (o: Outcome)
    requires p.ledger.Valid() && Grounded(p.disk.s) && p.ledger.done.Some?
    modifies p.disk, p.ledger
    ensures p.ledger.Valid() && p.ledger.done == old(p.ledger.done)
    ensures
      || (p.disk.s == old(p.disk.s) && p.ledger.log == old(p.ledger.log))
      || (p.ledger.log == old(p.ledger.log) + [Removing] && exists synced :: p.disk.s == Trimmed(old(p.disk.s), synced))
    ensures o.Fine? ==> StagingName !in p.disk.s.names
    ensures Published(old(p.disk.s), m) ==> Verdict(o, Removable(old(p.disk.s), m))
  {
    assert HasCommit(p.ledger.log);
    hide Safe, Grows, Settled, Ledger.Valid, Grounded;
    :- p.VerifyCheckpoint(m);
    :- p.VerifyEvidence(m);
    :- p.VerifyImage(ArchiveName, m, false);
    if StagingName in p.disk.s.names {
      :- p.VerifyImage(StagingName, m, false);
      ghost var s0 := p.disk.s;
      p.ledger.Note(Removing);
      assert s0.(names := s0.names - {StagingName}) == Trimmed(s0, false);
      :- p.disk.Unlink(StagingName);
      assert p.disk.s.(durable := SyncedEntries(p.disk.s, DirectoryOf(StagingName, s0.shared))) == Trimmed(s0, true);
      o := p.disk.SyncDirectory(DirectoryOf(StagingName, p.disk.s.shared));
    } else {
      o := Fine;
    }
  }

  /** The database takes the checkpoint over only when everything is in place. */
  method SaveDatabase(p: Publisher, m: Manifest, claim: nat) returns (o: Outcome)
    requires p.ledger.Valid() && Grounded(p.disk.s) && Published(p.disk.s, m)
    modifies p.disk, p.ledger
    ensures p.ledger.Valid() && p.disk.s == old(p.disk.s)
    ensures Safe(p.disk.s, old(p.ledger.done)) ==> Safe(p.disk.s, p.ledger.done)
    ensures old(p.ledger.done).Some? ==> p.ledger.done == old(p.ledger.done)
    ensures o.Fine? ==> p.ledger.done == Some(CheckpointFor(m))
    ensures o.Raise? ==> Interrupted(o)
    ensures old(p.ledger.log) <= p.ledger.log
    ensures p.ledger.done != old(p.ledger.done) ==>
              p.ledger.done == Some(CheckpointFor(m)) && SavedUnder(p.ledger.log, claim, p.disk.s, m)
  {
    ghost var s0 := p.disk.s;
    if Safe(s0, None) {
      SavedSafe(s0, m);
    }
    hide Safe, Grounded, Ledger.Valid;
    :- p.disk.MayDie();
    :- p.ledger.Authorize(claim);
    :- p.VerifyPublication(m);
    hide Published;
    o := p.ledger.Save(claim, m, s0);
  }

  /** The history shows this save, made while the job was held. */
  ghost predicate SavedUnder(log: seq<Entry>, claim: nat, s: Store, m: Manifest) {
    exists job :: Committed(job, claim, s, m) in log
  }

  /** All that a cleanup, finished or not, leaves as it was. */
  lemma TrimOutcome(s: Store, t: Store, done: Option<Checkpoint>, m: Manifest, log0: seq<Entry>, log: seq<Entry>)
    requires Grounded(s) && done.Some? && Published(s, m) && log0 <= log
    requires t == s || exists synced :: t == Trimmed(s, synced)
    ensures Grounded(t) && Published(t, m) && (Safe(s, done) ==> Safe(t, done))
    ensures Lasts(s, t) && Explained(s, t, log0, log)
  {
    if t != s {
      var synced :| t == Trimmed(s, synced);
      TrimSafe(s, synced, done, m);
      TrimPublished(s, synced, m);
    }
    hide Safe, Grounded, Published;
  }

  lemma SameExplained(s: Store, log0: seq<Entry>, log: seq<Entry>)
    requires log0 <= log
    ensures Explained(s, s, log0, log) && Lasts(s, s)
  {
  }

  lemma PublishedAnchored(s: Store, m: Manifest)
    requires Published(s, m)
    ensures Anchored(s, m)
  {
  }

  /** The save; the staging name goes only after it. */
  method CommitSave(p: Publisher, m: Manifest, claim: nat) returns (o: Outcome)
    requires p.ledger.Valid() && Grounded(p.disk.s) && Published(p.disk.s, m)
    modifies p.disk, p.ledger
    ensures p.ledger.Valid() && Grounded(p.disk.s) && Published(p.disk.s, m)
    ensures Safe(old(p.disk.s), old(p.ledger.done)) ==> Safe(p.disk.s, p.ledger.done)
    ensures Lasts(old(p.disk.s), p.disk.s)
    ensures old(p.ledger.done).Some? ==> p.ledger.done == old(p.ledger.done)
    ensures o.Fine? ==> p.ledger.done == Some(CheckpointFor(m)) && StagingName !in p.disk.s.names
    ensures Safe(old(p.disk.s), old(p.ledger.done)) ==> Verdict(o, Removable(old(p.disk.s), m))
    ensures old(p.ledger.log) <= p.ledger.log
    ensures Explained(old(p.disk.s), p.disk.s, old(p.ledger.log), p.ledger.log)
    ensures p.ledger.done != old(p.ledger.done) ==>
              p.ledger.done == Some(CheckpointFor(m)) && SavedUnder(p.ledger.log, claim, old(p.disk.s), m)
    ensures p.disk.s != old(p.disk.s) ==> p.ledger.done.Some? && p.ledger.log[|p.ledger.log| - 1] == Removing
  {
    ghost var s0, log0 := p.disk.s, p.ledger.log;
    hide Safe, Grounded, Ledger.Valid, Lasts, Explained, Published, Removable;
    SameExplained(s0, log0, log0);
    o := SaveDatabase(p, m, claim);
    SameExplained(s0, log0, p.ledger.log);
    if o.Raise? {
      return;
    }
    :- p.disk.MayDie();
    o := FinalizePublication(p, m);
    TrimOutcome(s0, p.disk.s, p.ledger.done, m, log0, p.ledger.log);
    if o.Fine? {
      o := p.disk.MayDie();
    }
  }

  /** Takes the job over: a live claim is renewed, and an expired one is replaced
      only when the device is known to have no active writer. */
  method OwnClaim(ledger: Ledger, claim: nat, writerKnown: bool, writerActive: bool)
    returns (o: Outcome, owned: nat, job: Job)
    requires ledger.Valid()
    modifies ledger
    ensures ledger.Valid() && ledger.done == old(ledger.done) && ledger.log == old(ledger.log)
    ensures o.Raise? ==> o.fault.Denied? && ledger.job == job
    ensures o.Fine? <==> job.status.Completed? || Ownable(job, claim, writerKnown, writerActive)
    ensures o.Fine? ==>
              ledger.job == if job.status.Completed? then job else job.(token := owned, updatedAt := job.now)
    ensures o.Fine? && ledger.job.requestRunning ==> Held(ledger.job, owned)
    ensures owned != claim <==> o.Fine? && !job.status.Completed? && Expired(job)
  {
    ledger.Drift();
    owned := claim;
    job := ledger.job;
    if job.status.Completed? {
      o := Fine;
      return;
    }
    if !job.status.Running? || job.token != claim {
      o := Raise(Denied);
      return;
    }
    if Expired(job) {
      if !writerKnown || writerActive {
        o := Raise(Denied);
        return;
      }
      owned := claim + 1;
    }
    ledger.job := job.(token := owned, updatedAt := job.now);
    o := Fine;
  }

  /** The job runs under this claim, which has not expired, or did so with no writer left. */
  predicate Ownable(job: Job, claim: nat, writerKnown: bool, writerActive: bool) {
    job.status.Running? && job.token == claim && (Expired(job) ==> writerKnown && !writerActive)
  }

  /** An image that no power failure could make unreachable is still such a one. */
  ghost predicate StaysAnchored(s: Store, t: Store) {
    HasIntent(s) && Anchored(s, Intended(s)) ==> HasIntent(t) && Intended(t) == Intended(s) && Anchored(t, Intended(t))
  }

  /** The staging entry is still what it was, and as durable as it was. */
  predicate StagingKept(s: Store, t: Store) {
    && (StagingName in s.names ==> StagingName in t.names && t.names[StagingName] == s.names[StagingName])
    && (SameEntry(s, StagingName) ==> SameEntry(t, StagingName))
  }

  /** The image that the intent is about can still be found. */
  predicate StaysReached(s: Store, t: Store) {
    HasIntent(s) && Reached(s, Intended(s)) ==> Reached(t, Intended(s))
  }

  /** What an attempt leaves: nothing durable is lost, every new name is explained by
      the history, and the image is found and as sure to be found as before. */
  ghost predicate Progress(s: Store, t: Store, log0: seq<Entry>, log: seq<Entry>) {
    && Lasts(s, t) && Explained(s, t, log0, log) && StaysAnchored(s, t) && StaysReached(s, t)
    && (RootAnchored(s) ==> RootAnchored(t)) && SameIntent(s, t)
  }

  lemma PublishedProgress(s: Store, t: Store, log0: seq<Entry>, log: seq<Entry>, claim: nat)
    requires Grows(s, t) && Accounted(s, t, log0, log, claim) && (RootAnchored(s) ==> RootAnchored(t))
    ensures Progress(s, t, log0, log) && StagingKept(s, t)
  {
    AccountedExplained(s, t, log0, log, claim);
    if HasIntent(s) && Anchored(s, Intended(s)) {
      AnchoredGrows(s, t, Intended(s));
    }
  }

  lemma SavedProgress(s: Store, t: Store, u: Store, log0: seq<Entry>, log1: seq<Entry>, log: seq<Entry>, m: Manifest)
    requires Progress(s, t, log0, log1) && Lasts(t, u) && Explained(t, u, log1, log)
    requires Published(u, m) && (HasIntent(s) ==> Intended(s) == m)
    ensures Progress(s, u, log0, log)
  {
    assert HasIntent(u) && Intended(u) == m;
    LastsTrans(s, t, u);
    ExplainedTrans(s, t, u, log0, log1, log);
    PublishedAnchored(u, m);
    hide Lasts, Explained;
  }

  lemma RemovableSame(s: Store, t: Store, m: Manifest)
    requires Grounded(s) && Grows(s, t)
    ensures Removable(s, m) <==> Removable(t, m)
    ensures Pictured(s, StagingName, m) ==> Removable(s, m)
  {
    ImageStays(s, t, StagingName, m);
  }

  method SaveAttempt(p: Publisher, m: Manifest, claim: nat, writerKnown: bool, writerActive: bool) returns (o: Outcome)
    requires p.ledger.Valid() && Safe(p.disk.s, p.ledger.done)
    modifies p.disk, p.ledger
    ensures p.ledger.Valid() && Safe(p.disk.s, p.ledger.done)
    ensures Progress(old(p.disk.s), p.disk.s, old(p.ledger.log), p.ledger.log)
    ensures old(p.ledger.done).Some? ==> p.ledger.done == old(p.ledger.done)
    ensures o.Fine? ==>
              p.ledger.done == Some(CheckpointFor(m)) && Published(p.disk.s, m) && StagingName !in p.disk.s.names
    ensures !Foreign(old(p.disk.s))
            && (IntentName in old(p.disk.s).names ==> Found(old(p.disk.s), IntentName, IntentRecord(m))) ==>
              Verdict(o, Pictured(old(p.disk.s), StagingName, m)) || p.Rivalled(o, old(p.disk.s), p.disk.s, m)
    ensures p.ledger.done.None? ==> StagingKept(old(p.disk.s), p.disk.s)
  {
    ghost var s0, log0 := p.disk.s, p.ledger.log;
    KeptSame(s0, p.ledger.done);
    NothingDone(s0, log0);
    hide Safe, Grounded, Settled, Ledger.Valid, Grows, Published, Progress, Explained, Accounted, Lasts, Pictured,
         Removable;
    var owned, _ :- OwnClaim(p.ledger, claim, writerKnown, writerActive);
    o := p.Publish(m, owned);
    ghost var s1, log1 := p.disk.s, p.ledger.log;
    PublishedProgress(s0, s1, log0, log1, owned);
    if o.Fine? {
      RemovableSame(s0, s1, m);
      IntentOfPublished(s0, s1, m);
      o := CommitSave(p, m, owned);
      SavedProgress(s0, s1, p.disk.s, log0, log1, p.ledger.log, m);
    }
  }

  lemma NothingDone(s: Store, log: seq<Entry>)
    ensures Progress(s, s, log, log)
  {
  }

  lemma IntentOfPublished(s: Store, t: Store, m: Manifest)
    requires Grows(s, t) && Published(t, m)
    ensures HasIntent(s) ==> Intended(s) == m
  {
  }

  /** From every safe state whose intent survived, reconciling is cut short or
      finishes the save, if the image is available and the staging name, where there
      is one, leads to it. Otherwise it never finishes. */
  method ReconcileAttempt(p: Publisher, owner: nat, claim: nat, writerKnown: bool, writerActive: bool)
    returns (o: Outcome)
    requires p.ledger.Valid() && Safe(p.disk.s, p.ledger.done)
    modifies p.disk, p.ledger
    ensures p.ledger.Valid() && Safe(p.disk.s, p.ledger.done)
    ensures Progress(old(p.disk.s), p.disk.s, old(p.ledger.log), p.ledger.log)
    ensures old(p.ledger.done).Some? ==> p.ledger.done == old(p.ledger.done)
    ensures o.Fine? ==>
              && HasIntent(old(p.disk.s)) && Published(p.disk.s, Intended(old(p.disk.s)))
              && p.ledger.done == Some(CheckpointFor(Intended(old(p.disk.s)))) && StagingName !in p.disk.s.names
    ensures HasIntent(old(p.disk.s)) && Intended(old(p.disk.s)).owner == owner ==>
              Verdict(o, Available(old(p.disk.s), Intended(old(p.disk.s)))
                      && Removable(old(p.disk.s), Intended(old(p.disk.s))))
    ensures IntentName !in old(p.disk.s).names ==> o.Raise? && OnlySynced(old(p.disk.s), p.disk.s)
    ensures p.ledger.done.None? ==> StagingKept(old(p.disk.s), p.disk.s)
  {
    ghost var s0, log0 := p.disk.s, p.ledger.log;
    KeptSame(s0, p.ledger.done);
    NothingDone(s0, log0);
    assert Grounded(s0) && (IntentName in s0.names ==> HasIntent(s0));
    hide Safe, Settled, Ledger.Valid, Grows, Published, Progress, Explained, Accounted, Lasts, Pictured, Removable,
         Available;
    var intent := p.disk.ReadRecord(IntentName);
    if intent.None? {
      return Raise(IntentMissing);
    }
    if !intent.value.IntentRecord? || intent.value.manifest.owner != owner {
      return Raise(IntentConflict);
    }
    hide Grounded;
    var owned, _ :- OwnClaim(p.ledger, claim, writerKnown, writerActive);
    var m;
    o, m := p.Reconcile(owner, owned);
    ghost var s1, log1 := p.disk.s, p.ledger.log;
    if RootAnchored(s0) {
      RootGrows(s0, s1);
    }
    PublishedProgress(s0, s1, log0, log1, owned);
    if o.Fine? {
      RemovableSame(s0, s1, m.value);
      o := CommitSave(p, m.value, owned);
      SavedProgress(s0, s1, p.disk.s, log0, log1, p.ledger.log, m.value);
    }
  }

  lemma SafeGrounded(s: Store, done: Option<Checkpoint>)
    requires Safe(s, done)
    ensures Grounded(s)
  {
  }

  /** Power fails: of each entry either version may be on disk, and unsynced
      contents may be anything. */
  method PowerLoss(disk: Disk)
    requires Grounded(disk.s)
    modifies disk
    ensures CrashOf(old(disk.s), disk.s)
  {
    var reached: set<Name> := *;
    var written: map<nat, File> := *;
    var s := disk.s;
    var names := (map n | n in s.names && n in reached :: s.names[n])
      + (map n | n in s.durable && n !in reached :: s.durable[n]);
    var files := map i | i in s.files ::
      if !s.files[i].synced && i in written && written[i].ImageFile? == s.files[i].ImageFile?
      then written[i] else s.files[i];
    disk.s := Store(names, names, files, s.unused, s.shared);
  }

  /** What holds since the start of a run: of the store before and now, of the save
      that is known now, and whether power has failed meanwhile. */
  ghost predicate SinceStart(a: Store, t: Store, log0: seq<Entry>, log: seq<Entry>, done: Option<Checkpoint>,
                             failed: bool) {
    && Lasts(a, t) && Explained(a, t, log0, log) && (RootAnchored(a) ==> RootAnchored(t))
    && (HasIntent(a) && IntentName in a.durable && Anchored(a, Intended(a)) ==> Anchored(t, Intended(a)))
    && (done.None? && SameEntry(a, StagingName) ==>
          SameEntry(t, StagingName) && t.names[StagingName] == a.names[StagingName])
    && (!failed ==> SameIntent(a, t) && StaysReached(a, t) && (done.None? ==> StagingKept(a, t)))
  }

  predicate SameIntent(s: Store, t: Store) {
    HasIntent(s) ==> HasIntent(t) && Intended(t) == Intended(s)
  }

  lemma SinceStep(a: Store, s: Store, t: Store, log0: seq<Entry>, log1: seq<Entry>, log2: seq<Entry>,
                  first: Option<Checkpoint>, done: Option<Checkpoint>, later: Option<Checkpoint>, failed: bool)
    requires Safe(a, first) && Safe(s, done) && (done.Some? ==> later == done)
    requires SinceStart(a, s, log0, log1, done, failed) && Progress(s, t, log1, log2)
    requires later.None? ==> StagingKept(s, t)
    ensures SinceStart(a, t, log0, log2, later, failed)
  {
    LastsTrans(a, s, t);
    ExplainedTrans(a, s, t, log0, log1, log2);
    if IntentName in a.durable {
      IntentLasts(a, s, first, done);
    }
    hide Lasts, Explained, Safe, Anchored, RootAnchored, Reached;
  }

  lemma SinceCrash(a: Store, s: Store, t: Store, log0: seq<Entry>, log: seq<Entry>, done: Option<Checkpoint>,
                   failed: bool)
    requires Safe(s, done) && CrashOf(s, t) && SinceStart(a, s, log0, log, done, failed)
    ensures SinceStart(a, t, log0, log, done, true)
  {
    CrashLasts(s, t);
    LastsTrans(a, s, t);
    ExplainedCrash(a, s, t, log0, log);
    if RootAnchored(s) {
      RootCrash(s, t);
    }
    if HasIntent(a) && Anchored(s, Intended(a)) {
      AnchoredCrash(s, t, Intended(a));
    }
    assert SameEntry(s, StagingName) ==> SameEntry(t, StagingName) && t.names[StagingName] == s.names[StagingName];
    hide Lasts, Explained, Grounded, CrashOf, Anchored, RootAnchored;
  }

  /** Any number of attempts of either kind, each of which may die anywhere, with
      power failures in between, keeps the archive safe, its history orderly and
      complete, and the image in reach: always in the library root, and elsewhere if it
      was sure to be found at the start or if power does not fail. The staging name goes
      only once the database is completed. */
  method RunSaves(p: Publisher, attempts: nat) returns (ghost failed: bool)
    requires p.ledger.Valid() && Safe(p.disk.s, p.ledger.done)
    modifies p.disk, p.ledger
    ensures p.ledger.Valid() && Safe(p.disk.s, p.ledger.done)
    ensures Lasts(old(p.disk.s), p.disk.s)
    ensures Explained(old(p.disk.s), p.disk.s, old(p.ledger.log), p.ledger.log)
    ensures old(p.ledger.done).Some? ==> p.ledger.done == old(p.ledger.done)
    ensures IntentName in old(p.disk.s).durable ==>
              HasIntent(old(p.disk.s)) && HasIntent(p.disk.s) && Intended(p.disk.s) == Intended(old(p.disk.s))
    ensures IntentName in old(p.disk.s).durable && Anchored(old(p.disk.s), Intended(old(p.disk.s))) ==>
              Anchored(p.disk.s, Intended(old(p.disk.s)))
    ensures RootAnchored(old(p.disk.s)) ==> RootAnchored(p.disk.s)
    ensures p.ledger.done.None? && SameEntry(old(p.disk.s), StagingName) ==>
              SameEntry(p.disk.s, StagingName) && p.disk.s.names[StagingName] == old(p.disk.s).names[StagingName]
    ensures !failed ==> StaysReached(old(p.disk.s), p.disk.s)
    ensures !failed && p.ledger.done.None? ==> StagingKept(old(p.disk.s), p.disk.s)
    ensures p.ledger.done.Some? ==>
              && HasIntent(p.disk.s) && PointerName in p.disk.s.durable && Anchored(p.disk.s, Intended(p.disk.s))
              && p.ledger.done.value == CheckpointFor(Intended(p.disk.s))
  {
    ghost var s0, log0, done0 := p.disk.s, p.ledger.log, p.ledger.done;
    failed := false;
    NothingDone(s0, log0);
    assert SinceStart(s0, s0, log0, log0, done0, false);
    hide Settled, Ledger.Valid, Published, Explained, Anchored, RootAnchored;
    var k := 0;
    while k < attempts
      invariant p.ledger.Valid() && Safe(p.disk.s, p.ledger.done)
      invariant SinceStart(s0, p.disk.s, log0, p.ledger.log, p.ledger.done, failed)
      invariant done0.Some? ==> p.ledger.done == done0
    {
      hide Safe, Lasts, SinceStart, Progress, SameIntent, StagingKept;
      ghost var s1, done1, log1 := p.disk.s, p.ledger.done, p.ledger.log;
      Attempt(p);
      ghost var s2 := p.disk.s;
      SinceStep(s0, s1, s2, log0, log1, p.ledger.log, done0, done1, p.ledger.done, failed);
      var powerFails: bool := *;
      if powerFails {
        SafeGrounded(s2, p.ledger.done);
        PowerLoss(p.disk);
        CrashSafe(s2, p.disk.s, p.ledger.done);
        SinceCrash(s0, s2, p.disk.s, log0, p.ledger.log, p.ledger.done, failed);
        failed := true;
      }
      k := k + 1;
    }
    if IntentName in s0.durable {
      IntentLasts(s0, p.disk.s, done0, p.ledger.done);
    }
    if p.ledger.done.Some? {
      AnchoredByPointer(p.disk.s, p.ledger.done);
    }
  }

  /** One attempt of either kind. */
  method Attempt(p: Publisher)
    requires p.ledger.Valid() && Safe(p.disk.s, p.ledger.done)
    modifies p.disk, p.ledger
    ensures p.ledger.Valid() && Safe(p.disk.s, p.ledger.done)
    ensures Progress(old(p.disk.s), p.disk.s, old(p.ledger.log), p.ledger.log)
    ensures old(p.ledger.done).Some? ==> p.ledger.done == old(p.ledger.done)
    ensures p.ledger.done.None? ==> StagingKept(old(p.disk.s), p.disk.s)
  {
    hide Safe, Ledger.Valid, Progress, StagingKept;
    var first: bool := *;
    var known: bool := *;
    var active: bool := *;
    var claim: nat := *;
    if first {
      var m: Manifest := *;
      var _ := SaveAttempt(p, m, claim, known, active);
    } else {
      var owner: nat := *;
      var _ := ReconcileAttempt(p, owner, claim, known, active);
    }
  }
}
