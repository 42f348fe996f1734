/** Publication, reconciliation, the database save and the cleanup, as one worker
    runs them over the disk and the ledger. */
module Publishing {
  import opened Common
  import opened Publication
  import opened PublicationSteps
  import opened Survival

  class Publisher {
    const disk: Disk
    const ledger: Ledger

    constructor (disk: Disk, ledger: Ledger)
      ensures this.disk == disk && this.ledger == ledger
    {
      this.disk := disk;
      this.ledger := ledger;
    }

    /** Opening the evidence directory syncs it and the library root. */
    method OpenPaths() returns (o: Outcome)
      requires Grounded(disk.s)
      modifies disk
      ensures Kept(old(disk.s), disk.s, ledger.done) && OnlySynced(old(disk.s), disk.s)
      ensures o.Raise? ==> o.fault.Died?
      ensures o.Fine? ==> Settled(disk.s, RootDirectory)
      ensures Settled(old(disk.s), RootDirectory) && Settled(old(disk.s), EvidenceDirectory) ==> disk.s == old(disk.s)
    {
      ghost var s0 := disk.s;
      hide Safe, Grows, Grounded, Settled;
      EntriesSynced(s0, RootDirectory, ledger.done);
      EntriesSettled(s0, RootDirectory);
      :- disk.SyncDirectory(RootDirectory);
      ghost var s1 := disk.s;
      EntriesSynced(s1, EvidenceDirectory, ledger.done);
      EntriesSettled(s1, EvidenceDirectory);
      SettledElsewhere(s1, EvidenceDirectory, RootDirectory);
      KeptTrans(s0, s1, s1.(durable := SyncedEntries(s1, EvidenceDirectory)), ledger.done);
      o := disk.SyncDirectory(EvidenceDirectory);
    }

    /** Two checks around the fault point, then the body of the step. */
    method Enter(step: StepName, claim: nat) returns (o: Outcome)
      requires ledger.Valid()
      modifies ledger
      ensures ledger.Valid() && ledger.done == old(ledger.done)
      ensures o.Raise? ==> Interrupted(o)
      ensures old(ledger.log) <= ledger.log
      ensures o.Fine? ==> old(ledger.log) < ledger.log && ledger.log[|ledger.log| - 1] == Body(step, claim)
    {
      o := ledger.Authorize(claim);
      if o.Raise? {
        return;
      }
      :- disk.MayDie();
      :- ledger.Authorize(claim);
      ledger.Note(Body(step, claim));
      o := Fine;
    }

    method Leave(claim: nat) returns (o: Outcome)
      requires ledger.Valid()
      modifies ledger
      ensures ledger.Valid() && ledger.done == old(ledger.done) && old(ledger.log) <= ledger.log
      ensures o.Raise? ==> Interrupted(o)
    {
      o := disk.MayDie();
      if o.Fine? {
        o := ledger.Authorize(claim);
      }
    }

    /** Checks identity and version of the image under this name; `sync` also
        makes its bytes durable. */
    method VerifyImage(n: Name, m: Manifest, sync: bool) returns (o: Outcome)
      requires Grounded(disk.s) && !n.Temp?
      modifies disk
      ensures Kept(old(disk.s), disk.s, ledger.done)
      ensures disk.s.names == old(disk.s).names && disk.s.durable == old(disk.s).durable
      ensures !Pictured(old(disk.s), n, m) ==> o == Raise(ImageConflict)
      ensures o.Raise? && Pictured(old(disk.s), n, m) ==> o.fault.Died?
      ensures o.Fine? ==> Pictured(disk.s, n, m) && (sync ==> disk.s.files[m.imageInode].synced)
      ensures (o.Raise? && !o.fault.Died?) || !sync ==> disk.s == old(disk.s)
      ensures m.imageInode in old(disk.s).files && old(disk.s).files[m.imageInode].synced ==> disk.s == old(disk.s)
    {
      hide Safe, Grounded, Grows;
      KeptSame(disk.s, ledger.done);
      if !Pictured(disk.s, n, m) {
        return Raise(ImageConflict);
      }
      FileSynced(disk.s, n, ledger.done);
      if sync {
        if disk.s.files[m.imageInode].synced {
          assert disk.s.files == disk.s.files[m.imageInode := ImageFile(m.imageVersion, true)];
        }
        o := disk.SyncFile(n);
      } else {
        o := disk.MayDie();
      }
    }

    /** The intent and the manifest on disk are still the expected ones. */
    method VerifyEvidence(m: Manifest) returns (o: Outcome)
      requires Grounded(disk.s)
      ensures o.Fine? ==> Found(disk.s, IntentName, IntentRecord(m)) && Found(disk.s, ManifestName, ManifestRecord(m))
      ensures o.Raise? && !o.fault.Died? ==>
                !Found(disk.s, IntentName, IntentRecord(m)) || !Found(disk.s, ManifestName, ManifestRecord(m))
    {
      var intent := disk.ReadRecord(IntentName);
      if intent != Some(IntentRecord(m)) {
        return Raise(IntentConflict);
      }
      var manifest := disk.ReadRecord(ManifestName);
      if manifest != Some(ManifestRecord(m)) {
        return Raise(ManifestConflict);
      }
      o := disk.MayDie();
    }

    method VerifyCheckpoint(m: Manifest) returns (o: Outcome)
      requires Grounded(disk.s)
      ensures o.Fine? ==> Found(disk.s, PointerName, CheckpointRecord(CheckpointFor(m)))
      ensures o.Raise? && !o.fault.Died? ==> !Found(disk.s, PointerName, CheckpointRecord(CheckpointFor(m)))
    {
      var pointer := disk.ReadRecord(PointerName);
      if pointer != Some(CheckpointRecord(CheckpointFor(m))) {
        return Raise(CheckpointConflict);
      }
      o := disk.MayDie();
    }

    /** What must already agree before anything is touched. */
    method CheckExisting(m: Manifest, projection: Option<Checkpoint>) returns (o: Outcome, published: bool)
      requires Grounded(disk.s)
      ensures o.Fine? ==> published == (ArchiveName in disk.s.names)
      ensures o.Fine? ==> (ManifestName in disk.s.names ==> Found(disk.s, ManifestName, ManifestRecord(m)))
      ensures o.Fine? ==> (PointerName in disk.s.names ==>
                             && Found(disk.s, PointerName, CheckpointRecord(CheckpointFor(m)))
                             && ManifestName in disk.s.names && ArchiveName in disk.s.names)
      ensures Safe(disk.s, projection) && HasIntent(disk.s) && Intended(disk.s) == m && o.Raise? ==> o.fault.Died?
    {
      published := false;
      var pointer := disk.ReadRecord(PointerName);
      :- CheckProjection(pointer, projection);
      var manifest := disk.ReadRecord(ManifestName);
      if manifest.Some? && manifest.value != ManifestRecord(m) {
        return Raise(ManifestConflict), published;
      }
      if pointer.Some? && (pointer.value != CheckpointRecord(CheckpointFor(m)) || manifest.None?) {
        return Raise(CheckpointConflict), published;
      }
      published := ArchiveName in disk.s.names;
      if pointer.Some? && !published {
        return Raise(ImageConflict), published;
      }
      o := disk.MayDie();
    }

    method ProveImage(n: Name, m: Manifest, claim: nat) returns (o: Outcome)
      requires ledger.Valid() && Grounded(disk.s) && !n.Temp?
      modifies disk, ledger
      ensures ledger.Valid() && ledger.done == old(ledger.done)
      ensures Accounted(old(disk.s), disk.s, old(ledger.log), ledger.log, claim)
      ensures Kept(old(disk.s), disk.s, ledger.done)
      ensures disk.s.names == old(disk.s).names && disk.s.durable == old(disk.s).durable
      ensures o.Fine? ==> Pictured(disk.s, n, m) && Proven(disk.s, m)
      ensures Verdict(o, Pictured(old(disk.s), n, m))
      ensures Proven(old(disk.s), m) ==> disk.s == old(disk.s)
    {
      hide Safe, Grounded, Grows, Ledger.Valid;
      KeptSame(disk.s, ledger.done);
      :- Enter(ImageStep, claim);
      :- VerifyImage(n, m, true);
      o := Leave(claim);
    }

    method PutManifest(m: Manifest, claim: nat) returns (o: Outcome)
      requires ledger.Valid() && Grounded(disk.s)
      requires Holds(disk.s, IntentName, Record(IntentRecord(m), true)) && IntentName in disk.s.durable
      requires ManifestName in disk.s.names ==> Found(disk.s, ManifestName, ManifestRecord(m))
      modifies disk, ledger
      ensures ledger.Valid() && ledger.done == old(ledger.done)
      ensures Accounted(old(disk.s), disk.s, old(ledger.log), ledger.log, claim)
      ensures Kept(old(disk.s), disk.s, ledger.done)
      ensures forall n: Name :: (n.ArchiveName? || n.PointerName?) && n in disk.s.names ==> n in old(disk.s).names
      ensures o.Fine? ==> Holds(disk.s, ManifestName, Record(ManifestRecord(m), true)) && ManifestName in disk.s.durable
      ensures o.Raise? ==> Interrupted(o)
      ensures Holds(old(disk.s), ManifestName, Record(ManifestRecord(m), true))
              && Settled(old(disk.s), EvidenceDirectory) ==>
                disk.s == old(disk.s)
    {
      hide Safe, Grounded, Grows, Settled, Ledger.Valid;
      KeptSame(disk.s, ledger.done);
      assert HasIntent(disk.s) && Intended(disk.s) == m;
      :- Enter(ManifestStep, claim);
      :- disk.InstallRecord(ManifestName, ManifestRecord(m), ManifestConflict, ledger.done);
      o := Leave(claim);
    }

    /** The image becomes visible in the library: the link is made only right after
        a check, and only once the manifest is durable and the image synced. */
    method PutLink(published: bool, m: Manifest, claim: nat) returns (o: Outcome)
      requires ledger.Valid() && Grounded(disk.s) && published == (ArchiveName in disk.s.names)
      requires Holds(disk.s, IntentName, Record(IntentRecord(m), true)) && ManifestName in disk.s.durable
      requires Proven(disk.s, m)
      modifies disk, ledger
      ensures ledger.Valid() && ledger.done == old(ledger.done)
      ensures Accounted(old(disk.s), disk.s, old(ledger.log), ledger.log, claim)
      ensures Kept(old(disk.s), disk.s, ledger.done)
      ensures PointerName in disk.s.names ==> PointerName in old(disk.s).names
      ensures o.Fine? ==> Pictured(disk.s, ArchiveName, m) && ArchiveName in disk.s.durable
      ensures o.Raise? && Pictured(old(disk.s), if published then ArchiveName else StagingName, m) ==> Interrupted(o)
      ensures o.Raise? ==> Interrupted(o) || o.fault.ImageConflict?
      ensures Pictured(old(disk.s), ArchiveName, m) && Settled(old(disk.s), RootDirectory) ==> disk.s == old(disk.s)
    {
      hide Safe, Grounded, Grows, Settled, Ledger.Valid;
      ghost var s0 := disk.s;
      KeptSame(disk.s, ledger.done);
      :- Enter(LinkStep, claim);
      if !published {
        :- VerifyImage(StagingName, m, false);
        :- ledger.Authorize(claim);
        ledger.Note(Installing(ArchiveName, claim));
        LinkKept(disk.s, m, ledger.done);
        var linked;
        o, linked := disk.Link(StagingName, ArchiveName);
        AccountedOne(s0, disk.s, old(ledger.log), ledger.log, claim, |ledger.log| - 1, ArchiveName);
        if o.Raise? {
          return;
        }
        assert Pictured(disk.s, ArchiveName, m);
      }
      ghost var s1 := disk.s;
      o := SyncLink(m);
      KeptTrans(s0, s1, disk.s, ledger.done);
      if o.Fine? {
        o := Leave(claim);
      }
    }

    /** The link becomes durable, between two looks at the image. */
    method SyncLink(m: Manifest) returns (o: Outcome)
      requires Grounded(disk.s)
      requires m.imageInode in disk.s.files && disk.s.files[m.imageInode].synced
      modifies disk
      ensures Kept(old(disk.s), disk.s, ledger.done) && OnlySynced(old(disk.s), disk.s)
      ensures o.Fine? ==> Pictured(disk.s, ArchiveName, m) && ArchiveName in disk.s.durable
      ensures o.Raise? ==> o.fault.Died? || (o.fault.ImageConflict? && !Pictured(old(disk.s), ArchiveName, m))
      ensures Settled(old(disk.s), RootDirectory) ==> disk.s == old(disk.s)
    {
      hide Safe, Grounded, Grows, Settled;
      KeptSame(disk.s, ledger.done);
      :- VerifyImage(ArchiveName, m, true);
      EntriesSynced(disk.s, RootDirectory, ledger.done);
      EntriesSettled(disk.s, RootDirectory);
      :- disk.SyncDirectory(RootDirectory);
      o := VerifyImage(ArchiveName, m, false);
    }

    /** The pointer comes last: everything it stands for has just been verified. */
    method PutPointer(m: Manifest, claim: nat) returns (o: Outcome)
      requires ledger.Valid() && Grounded(disk.s)
      requires Holds(disk.s, IntentName, Record(IntentRecord(m), true))
               && Holds(disk.s, ManifestName, Record(ManifestRecord(m), true))
      requires Pictured(disk.s, ArchiveName, m) && ArchiveName in disk.s.durable
      requires PointerName in disk.s.names ==> Found(disk.s, PointerName, CheckpointRecord(CheckpointFor(m)))
      modifies disk, ledger
      ensures ledger.Valid() && ledger.done == old(ledger.done)
      ensures Accounted(old(disk.s), disk.s, old(ledger.log), ledger.log, claim)
      ensures Kept(old(disk.s), disk.s, ledger.done)
      ensures o.Fine? ==> Holds(disk.s, PointerName, Record(CheckpointRecord(CheckpointFor(m)), true))
      ensures o.Fine? ==> Settled(disk.s, EvidenceDirectory)
      ensures o.Raise? ==> Interrupted(o)
      ensures Settled(old(disk.s), EvidenceDirectory)
              && Holds(old(disk.s), PointerName, Record(CheckpointRecord(CheckpointFor(m)), true)) ==>
                disk.s == old(disk.s)
    {
      hide Safe, Grounded, Grows, Settled, Ledger.Valid;
      KeptSame(disk.s, ledger.done);
      assert HasIntent(disk.s) && Intended(disk.s) == m;
      :- Enter(PointerStep, claim);
      :- VerifyImage(ArchiveName, m, false);
      :- VerifyEvidence(m);
      :- ledger.Authorize(claim);
      ledger.Note(Installing(PointerName, claim));
      o := disk.InstallRecord(PointerName, CheckpointRecord(CheckpointFor(m)), CheckpointConflict, ledger.done);
      AccountedOne(old(disk.s), disk.s, old(ledger.log), ledger.log, claim, |ledger.log| - 1, PointerName);
      if o.Fine? {
        o := Leave(claim);
      }
    }

    /** The image and its manifest become durable. */
    method Prepare(published: bool, m: Manifest, claim: nat) returns (o: Outcome)
      requires ledger.Valid() && Grounded(disk.s) && published == (ArchiveName in disk.s.names)
      requires Holds(disk.s, IntentName, Record(IntentRecord(m), true)) && IntentName in disk.s.durable
      requires ManifestName in disk.s.names ==> Found(disk.s, ManifestName, ManifestRecord(m))
      requires PointerName in disk.s.names ==> Found(disk.s, PointerName, CheckpointRecord(CheckpointFor(m)))
      modifies disk, ledger
      ensures ledger.Valid() && ledger.done == old(ledger.done)
      ensures Accounted(old(disk.s), disk.s, old(ledger.log), ledger.log, claim)
      ensures Kept(old(disk.s), disk.s, ledger.done)
      ensures o.Fine? ==> published == (ArchiveName in disk.s.names) && Proven(disk.s, m)
      ensures o.Fine? ==> Holds(disk.s, IntentName, Record(IntentRecord(m), true))
      ensures o.Fine? ==> Holds(disk.s, ManifestName, Record(ManifestRecord(m), true)) && ManifestName in disk.s.durable
      ensures o.Fine? && PointerName in disk.s.names ==> Found(disk.s, PointerName, CheckpointRecord(CheckpointFor(m)))
      ensures o.Fine? ==> Pictured(disk.s, if published then ArchiveName else StagingName, m)
      ensures Verdict(o, Pictured(old(disk.s), if published then ArchiveName else StagingName, m))
      ensures Settled(old(disk.s), EvidenceDirectory) && Proven(old(disk.s), m)
              && Holds(old(disk.s), ManifestName, Record(ManifestRecord(m), true)) ==>
                disk.s == old(disk.s)
    {
      ghost var s0 := disk.s;
      hide Safe, Grounded, Settled, Ledger.Valid, Holds, Pictured, Unaltered, Proven, Found, Published, Grows;
      :- ProveImage(if published then ArchiveName else StagingName, m, claim);
      ghost var s1, log1 := disk.s, ledger.log;
      Stays(s0, s1, m);
      o := PutManifest(m, claim);
      AccountedTrans(s0, s1, disk.s, old(ledger.log), log1, ledger.log, claim);
      KeptTrans(s0, s1, disk.s, ledger.done);
      Stays(s1, disk.s, m);
    }

    /** The two steps that make the archive visible. */
    method Reveal(published: bool, m: Manifest, claim: nat) returns (o: Outcome)
      requires ledger.Valid() && Grounded(disk.s) && published == (ArchiveName in disk.s.names)
      requires Holds(disk.s, IntentName, Record(IntentRecord(m), true)) && Proven(disk.s, m)
      requires Holds(disk.s, ManifestName, Record(ManifestRecord(m), true)) && ManifestName in disk.s.durable
      requires PointerName in disk.s.names ==> Found(disk.s, PointerName, CheckpointRecord(CheckpointFor(m)))
      requires Pictured(disk.s, if published then ArchiveName else StagingName, m)
      modifies disk, ledger
      ensures ledger.Valid() && ledger.done == old(ledger.done)
      ensures Accounted(old(disk.s), disk.s, old(ledger.log), ledger.log, claim)
      ensures Kept(old(disk.s), disk.s, ledger.done)
      ensures o.Fine? ==> Published(disk.s, m)
      ensures o.Raise? ==> Interrupted(o)
      ensures Published(old(disk.s), m) && Settled(old(disk.s), RootDirectory) ==> disk.s == old(disk.s)
    {
      ghost var s0 := disk.s;
      PublishedParts(s0, m);
      hide Safe, Grounded, Settled, Ledger.Valid, Holds, Pictured, Unaltered, Proven, Found, Published, Grows,
           Accounted;
      :- PutLink(published, m, claim);
      ghost var s1, log1 := disk.s, ledger.log;
      Stays(s0, s1, m);
      o := PutPointer(m, claim);
      AccountedTrans(s0, s1, disk.s, old(ledger.log), log1, ledger.log, claim);
      KeptTrans(s0, s1, disk.s, ledger.done);
      Stays(s1, disk.s, m);
      ArchiveEntry(disk.s);
      PublishedParts(disk.s, m);
    }

    /** Evidence, checkpoint and image as they should be once published. */
    method VerifyPublication(m: Manifest) returns (o: Outcome)
      requires Grounded(disk.s)
      modifies disk
      ensures disk.s == old(disk.s)
      ensures o.Fine? ==>
                && Found(disk.s, IntentName, IntentRecord(m)) && Found(disk.s, ManifestName, ManifestRecord(m))
                && Found(disk.s, PointerName, CheckpointRecord(CheckpointFor(m))) && Pictured(disk.s, ArchiveName, m)
      ensures o.Raise? && Published(disk.s, m) ==> o.fault.Died?
    {
      hide Safe, Grows, Settled;
      :- VerifyEvidence(m);
      :- VerifyCheckpoint(m);
      o := VerifyImage(ArchiveName, m, false);
    }

    /** From a durable intent to a durable pointer. Started from a safe state it is
        cut short or succeeds if the image is available, and never succeeds if not. */
    method CompletePublication(m: Manifest, claim: nat) returns (o: Outcome)
      requires ledger.Valid() && Grounded(disk.s)
      requires Holds(disk.s, IntentName, Record(IntentRecord(m), true)) && IntentName in disk.s.durable
      modifies disk, ledger
      ensures ledger.Valid() && ledger.done == old(ledger.done)
      ensures Accounted(old(disk.s), disk.s, old(ledger.log), ledger.log, claim)
      ensures Kept(old(disk.s), disk.s, ledger.done)
      ensures o.Fine? ==> Published(disk.s, m)
      ensures Safe(old(disk.s), ledger.done) ==> Verdict(o, Available(old(disk.s), m))
      ensures Published(old(disk.s), m) && Settled(old(disk.s), RootDirectory) ==> disk.s == old(disk.s)
    {
      ghost var s0 := disk.s;
      KeptSame(s0, ledger.done);
      PublishedParts(s0, m);
      var published :- CheckExisting(m, ledger.done);
      hide Safe, Grounded, Settled, Ledger.Valid, Holds, Pictured, Unaltered, Proven, Found, Published, Grows;
      :- Prepare(published, m, claim);
      ghost var s1, log1 := disk.s, ledger.log;
      o := Reveal(published, m, claim);
      AccountedTrans(s0, s1, disk.s, old(ledger.log), log1, ledger.log, claim);
      KeptTrans(s0, s1, disk.s, ledger.done);
      if o.Fine? {
        o := VerifyPublication(m);
      }
    }

    method PutIntent(m: Manifest, claim: nat) returns (o: Outcome)
      requires ledger.Valid() && Grounded(disk.s)
      requires Safe(disk.s, ledger.done) ==>
                 IntentName in disk.s.names || Installable(disk.s, IntentName, IntentRecord(m))
      modifies disk, ledger
      ensures ledger.Valid() && ledger.done == old(ledger.done)
      ensures Accounted(old(disk.s), disk.s, old(ledger.log), ledger.log, claim)
      ensures Kept(old(disk.s), disk.s, ledger.done)
      ensures o.Fine? ==> Holds(disk.s, IntentName, Record(IntentRecord(m), true)) && IntentName in disk.s.durable
      ensures o.Raise? ==>
                || Interrupted(o) || (o.fault.IntentConflict? && disk.s == old(disk.s))
                || Rivalled(o, old(disk.s), disk.s, m)
      ensures o.Raise? && (IntentName in old(disk.s).names ==> Found(old(disk.s), IntentName, IntentRecord(m))) ==>
                Interrupted(o) || Rivalled(o, old(disk.s), disk.s, m)
      ensures MadeHere(old(disk.s), disk.s, IntentName, IntentRecord(m))
      ensures IntentName in old(disk.s).names && !Found(old(disk.s), IntentName, IntentRecord(m)) ==>
                o.Raise? && disk.s == old(disk.s)
      ensures Published(old(disk.s), m) && Settled(old(disk.s), RootDirectory) ==> disk.s == old(disk.s)
      ensures forall n: Name :: !n.Temp? && !n.IntentName? && n in disk.s.names ==> n in old(disk.s).names
    {
      hide Safe, Grows, Settled, Ledger.Valid;
      KeptSame(disk.s, ledger.done);
      :- Enter(IntentStep, claim);
      :- disk.InstallRecord(IntentName, IntentRecord(m), IntentConflict, ledger.done);
      o := Leave(claim);
    }

    /** Another publication has come first, which the exclusion of the archive rules out. */
    predicate Rivalled(o: Outcome, s: Store, t: Store, m: Manifest) {
      !disk.exclusive && o == Raise(IntentConflict) && Overtaken(s, t, IntentRecord(m))
    }

    /** What is looked at before the intent is written. */
    method MayPublish(m: Manifest, claim: nat) returns (o: Outcome)
      requires ledger.Valid() && Grounded(disk.s)
      modifies disk, ledger
      ensures ledger.Valid() && ledger.done == old(ledger.done) && old(ledger.log) <= ledger.log
      ensures Kept(old(disk.s), disk.s, ledger.done) && OnlySynced(old(disk.s), disk.s)
      ensures Foreign(old(disk.s)) ==> Interrupted(o) || o == Raise(IntentMissing)
      ensures Safe(old(disk.s), ledger.done) && !Foreign(old(disk.s)) ==>
                Verdict(o, Pictured(old(disk.s), StagingName, m))
      ensures o.Fine? ==>
                Pictured(disk.s, StagingName, m) && !Foreign(disk.s) && Settled(disk.s, RootDirectory)
    {
      hide Grows, Ledger.Valid, Settled;
      KeptSame(disk.s, ledger.done);
      :- ledger.Authorize(claim);
      :- OpenPaths();
      if IntentName !in disk.s.names
         && (ArchiveName in disk.s.names || ManifestName in disk.s.names || PointerName in disk.s.names) {
        return Raise(IntentMissing);
      }
      SafeProjection(disk.s, ledger.done);
      var pointer := disk.ReadRecord(PointerName);
      :- CheckProjection(pointer, ledger.done);
      o := VerifyImage(StagingName, m, false);
    }

    /** A first publication: it never starts around artifacts it did not make. */
    method Publish(m: Manifest, claim: nat) returns (o: Outcome)
      requires ledger.Valid() && Grounded(disk.s)
      modifies disk, ledger
      ensures ledger.Valid() && ledger.done == old(ledger.done)
      ensures Accounted(old(disk.s), disk.s, old(ledger.log), ledger.log, claim)
      ensures Kept(old(disk.s), disk.s, ledger.done)
      ensures o.Fine? ==> Published(disk.s, m)
      ensures RootAnchored(old(disk.s)) && Safe(old(disk.s), ledger.done) ==> RootAnchored(disk.s)
      ensures Foreign(old(disk.s)) ==>
                OnlySynced(old(disk.s), disk.s) && (Interrupted(o) || o == Raise(IntentMissing))
      ensures IntentName in old(disk.s).names && !Found(old(disk.s), IntentName, IntentRecord(m)) ==>
                o.Raise? && OnlySynced(old(disk.s), disk.s)
      ensures !Pictured(old(disk.s), StagingName, m) ==> OnlySynced(old(disk.s), disk.s) && !o.Fine?
      ensures Safe(old(disk.s), ledger.done) && !Foreign(old(disk.s))
              && (IntentName in old(disk.s).names ==> Found(old(disk.s), IntentName, IntentRecord(m))) ==>
                Verdict(o, Pictured(old(disk.s), StagingName, m)) || Rivalled(o, old(disk.s), disk.s, m)
    {
      ghost var s0, done := disk.s, ledger.done;
      hide Grows, Ledger.Valid, Settled, RootAnchored, Safe, Grounded;
      o := MayPublish(m, claim);
      ghost var s1 := disk.s;
      RootSynced(s0, s1, done);
      if o.Raise? {
        return;
      }
      o := PutIntent(m, claim);
      ghost var s2 := disk.s;
      KeptTrans(s0, s1, s2, done);
      RootPublished(s0, s1, s2, m, done);
      if o.Raise? {
        return;
      }
      ImageStays(s1, s2, StagingName, m);
      o := CompletePublication(m, claim);
      KeptTrans(s0, s2, disk.s, done);
      RootKept(s2, disk.s, m);
    }

    /** Replays the durable intent. From a safe state it is cut short or succeeds if
        the image is available, and never succeeds if not; once published it changes nothing. */
    method Reconcile(owner: nat, claim: nat) returns (o: Outcome, m: Option<Manifest>)
      requires ledger.Valid() && Grounded(disk.s)
      modifies disk, ledger
      ensures ledger.Valid() && ledger.done == old(ledger.done)
      ensures Accounted(old(disk.s), disk.s, old(ledger.log), ledger.log, claim)
      ensures Kept(old(disk.s), disk.s, ledger.done)
      ensures o.Fine? ==> m.Some? && m.value.owner == owner && Published(disk.s, m.value)
                          && Found(old(disk.s), IntentName, IntentRecord(m.value))
      ensures Safe(old(disk.s), ledger.done) && HasIntent(old(disk.s)) && Intended(old(disk.s)).owner == owner ==>
                Verdict(o, Available(old(disk.s), Intended(old(disk.s))))
      ensures HasIntent(old(disk.s)) && Published(old(disk.s), Intended(old(disk.s)))
              && Settled(old(disk.s), RootDirectory) ==>
                disk.s == old(disk.s)
      ensures IntentName !in old(disk.s).names ==>
                OnlySynced(old(disk.s), disk.s) && (Interrupted(o) || o == Raise(IntentMissing))
    {
      hide Grows, Ledger.Valid, Settled, Safe;
      m := None;
      ghost var s0 := disk.s;
      KeptSame(s0, ledger.done);
      :- ledger.Authorize(claim);
      :- OpenPaths();
      ghost var s1 := disk.s;
      var intent := disk.ReadRecord(IntentName);
      if intent.None? {
        return Raise(IntentMissing), m;
      }
      if !intent.value.IntentRecord? || intent.value.manifest.owner != owner {
        return Raise(IntentConflict), m;
      }
      m := Some(intent.value.manifest);
      o := PutIntent(m.value, claim);
      ghost var s2 := disk.s;
      KeptTrans(s0, s1, s2, ledger.done);
      if o.Raise? {
        return;
      }
      AvailableSame(s0, s2, m.value);
      o := CompletePublication(m.value, claim);
      KeptTrans(s0, s2, disk.s, ledger.done);
    }
  }

  /** A file of this content is at `n`. */
  predicate Found(s: Store, n: Name, c: Content) {
    n in s.names && s.names[n] in s.files && ContentOf(s.files[s.names[n]]) == c
  }

  /** Unaltered and durable. */
  predicate Proven(s: Store, m: Manifest) {
    Unaltered(s, m) && s.files[m.imageInode].synced
  }

  /** Artifacts without the intent that would explain them. */
  predicate Foreign(s: Store) {
    && IntentName !in s.names
    && (ArchiveName in s.names || ManifestName in s.names || PointerName in s.names)
  }

  lemma SafeProjection(s: Store, done: Option<Checkpoint>)
    ensures Safe(s, done) && done.Some? ==>
              Found(s, PointerName, CheckpointRecord(done.value)) && done.value.revision == 1
  {
  }

  /** With the image where it should be only an interruption prevents success, and
      without it the run is cut short or reports the image. */
  predicate Verdict(o: Outcome, available: bool) {
    Interrupted(o) || (if available then o.Fine? else o == Raise(ImageConflict))
  }

  /** Neither name of the image comes or goes, so it stays available or not. */
  lemma AvailableSame(s: Store, t: Store, m: Manifest)
    requires Grounded(s) && Grows(s, t)
    requires forall n: Name :: (n.ArchiveName? || n.StagingName?) && n in t.names ==> n in s.names
    ensures Available(s, m) <==> Available(t, m)
  {
    ImageStays(s, t, if ArchiveName in s.names then ArchiveName else StagingName, m);
  }

  lemma PublishedParts(s: Store, m: Manifest)
    ensures Published(s, m) <==>
              && Holds(s, IntentName, Record(IntentRecord(m), true))
              && Holds(s, ManifestName, Record(ManifestRecord(m), true))
              && Holds(s, PointerName, Record(CheckpointRecord(CheckpointFor(m)), true))
              && Pictured(s, ArchiveName, m) && Proven(s, m)
              && Settled(s, EvidenceDirectory) && SameEntry(s, ArchiveName)
    ensures Pictured(s, ArchiveName, m) ==> ArchiveName in s.names
  {
    hide Settled;
  }

  lemma RootSynced(s: Store, t: Store, done: Option<Checkpoint>)
    requires Kept(s, t, done) && OnlySynced(s, t) && Grounded(s)
    ensures RootAnchored(s) ==> RootAnchored(t)
  {
    if RootAnchored(s) {
      RootGrows(s, t);
    }
  }

  lemma RootPublished(s: Store, t: Store, u: Store, m: Manifest, done: Option<Checkpoint>)
    requires RootAnchored(s) ==> RootAnchored(t)
    requires Kept(t, u, done) && MadeHere(t, u, IntentName, IntentRecord(m)) && Pictured(t, StagingName, m)
    requires Settled(t, RootDirectory)
    ensures RootAnchored(s) && Safe(t, done) ==> RootAnchored(u)
  {
    if IntentName !in t.names {
      RootIntent(t, u, m);
    } else if RootAnchored(t) && HasIntent(t) {
      RootGrows(t, u);
    }
    hide Grows, Grounded, Settled;
  }

  lemma RootKept(s: Store, t: Store, m: Manifest)
    requires Grows(s, t) && Holds(s, IntentName, Record(IntentRecord(m), true))
    ensures RootAnchored(s) ==> RootAnchored(t)
  {
    if RootAnchored(s) {
      RootGrows(s, t);
    }
  }

  /** Syncs change nothing that the running system sees. */
  predicate OnlySynced(s: Store, t: Store) {
    t == s.(durable := t.durable)
  }

  lemma SettledElsewhere(s: Store, d: Directory, other: Directory)
    requires Settled(s, other) && d != other
    ensures Settled(s.(durable := SyncedEntries(s, d)), other)
  {
  }

  lemma ArchiveEntry(s: Store)
    requires Grounded(s) && ArchiveName in s.durable
    ensures SameEntry(s, ArchiveName)
  {
  }

  /** What is in place stays in place. */
  lemma Stays(s: Store, t: Store, m: Manifest)
    requires Grows(s, t) && Grounded(t)
    ensures Holds(s, IntentName, Record(IntentRecord(m), true)) ==> Holds(t, IntentName, Record(IntentRecord(m), true))
    ensures Holds(s, ManifestName, Record(ManifestRecord(m), true)) ==>
              Holds(t, ManifestName, Record(ManifestRecord(m), true))
    ensures Pictured(s, ArchiveName, m) ==> Pictured(t, ArchiveName, m)
    ensures Pictured(s, StagingName, m) ==> Pictured(t, StagingName, m)
    ensures Proven(s, m) ==> Proven(t, m)
    ensures PointerName in s.names && Found(s, PointerName, CheckpointRecord(CheckpointFor(m))) ==>
              Found(t, PointerName, CheckpointRecord(CheckpointFor(m)))
    ensures IntentName in s.durable ==> IntentName in t.durable
    ensures ManifestName in s.durable ==> ManifestName in t.durable
    ensures ArchiveName in s.durable ==> ArchiveName in t.durable
  {
  }
}
