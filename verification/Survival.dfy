/** Which power failures leave the proven image with a name that leads to it. In a
    directory of its own the entry of the copy is never synced, so it may be lost while
    the intent that relies on it survives. In the library root it is synced in time. */
module Survival {
  import opened Common
  import opened Publication
  import opened PublicationSteps

  /** The running system sees the image under its staging or its archive name. */
  predicate Reached(s: Store, m: Manifest) {
    ImageAt(s, s.names, StagingName, m) || ImageAt(s, s.names, ArchiveName, m)
  }

  /** The name leads to the image, and that entry has been synced. */
  predicate Sure(s: Store, n: Name, m: Manifest) {
    ImageAt(s, s.names, n, m) && ImageAt(s, s.durable, n, m)
  }

  predicate Anchored(s: Store, m: Manifest) {
    Sure(s, StagingName, m) || Sure(s, ArchiveName, m)
  }

  predicate Elsewhere(names: map<Name, nat>, n: Name, inode: nat) {
    n in names && names[n] != inode
  }

  /** The worst power failure for one inode: every entry that leads to it and can be
      lost is lost, or falls back to an older one that leads elsewhere. */
  ghost function Worst(s: Store, inode: nat): Store {
    var names := map n | n in s.names.Keys + s.durable.Keys
                      && ((n in s.names && n in s.durable) || Elsewhere(s.names, n, inode)
                          || Elsewhere(s.durable, n, inode))
      :: if Elsewhere(s.names, n, inode) then s.names[n] else s.durable[n];
    s.(names := names, durable := names)
  }

  /** Whatever a power failure does, one of the two names still leads to the image,
      if and only if one of them had been synced as such. */
  lemma OneNameSurvives(s: Store, m: Manifest)
    ensures (forall t | CrashOf(s, t) :: Reached(t, m)) <==> Anchored(s, m)
  {
    if Anchored(s, m) {
      forall t | CrashOf(s, t)
        ensures Reached(t, m)
      {
        assert Sure(s, StagingName, m) ==> StagingName in t.names;
      }
    } else {
      var t := Worst(s, m.imageInode);
      assert CrashOf(s, t);
      assert !Reached(t, m);
    }
  }

  /** Replaying the intent has an image to work with: the archive name if it exists,
      the staging name otherwise. */
  predicate Available(s: Store, m: Manifest) {
    Pictured(s, if ArchiveName in s.names then ArchiveName else StagingName, m)
  }

  /** Spoils the content of an image that was not synced. */
  ghost function Spoiled(s: Store, m: Manifest): Store
    requires m.imageInode in s.files
  {
    s.(durable := s.names, files := s.files[m.imageInode := ImageFile(m.imageVersion + 1, false)])
  }

  /** Every power failure leaves a replay of the durable intent with its image, if
      and only if the image itself and one of its two names had been synced. */
  lemma ReplaySurvives(s: Store, m: Manifest, done: Option<Checkpoint>)
    requires Safe(s, done) && HasIntent(s) && Intended(s) == m && IntentName in s.durable
    ensures (forall t | CrashOf(s, t) :: HasIntent(t) && Intended(t) == m && Available(t, m))
       <==> Unaltered(s, m) && s.files[m.imageInode].synced && Anchored(s, m)
  {
    if Unaltered(s, m) && s.files[m.imageInode].synced && Anchored(s, m) {
      forall t | CrashOf(s, t)
        ensures HasIntent(t) && Intended(t) == m && Available(t, m)
      {
        CrashSafe(s, t, done);
        OneNameSurvives(s, m);
        assert Reached(t, m);
      }
    } else if Unaltered(s, m) && s.files[m.imageInode].synced {
      OneNameSurvives(s, m);
      var t :| CrashOf(s, t) && !Reached(t, m);
      assert !Available(t, m);
    } else if m.imageInode in s.files && s.files[m.imageInode].ImageFile? && !s.files[m.imageInode].synced {
      assert CrashOf(s, Spoiled(s, m));
    } else {
      assert CrashOf(s, s.(durable := s.names));
    }
  }

  /** What is anchored stays so while the publication goes on. */
  lemma AnchoredGrows(s: Store, t: Store, m: Manifest)
    requires Grows(s, t) && Anchored(s, m)
    ensures Anchored(t, m)
  {
  }

  lemma AnchoredCrash(s: Store, t: Store, m: Manifest)
    requires CrashOf(s, t) && Anchored(s, m)
    ensures Anchored(t, m)
  {
  }

  /** Once the pointer has a name the archive link is synced. */
  lemma AnchoredByPointer(s: Store, done: Option<Checkpoint>)
    requires Safe(s, done) && (PointerName in s.names || done.Some?)
    ensures HasIntent(s) && Anchored(s, Intended(s))
  {
  }

  /** In the library root the image cannot be lost once there is an intent for it. */
  ghost predicate RootAnchored(s: Store) {
    s.shared && HasIntent(s) ==> Anchored(s, Intended(s))
  }

  lemma RootGrows(s: Store, t: Store)
    requires Grows(s, t) && RootAnchored(s) && (HasIntent(s) || !HasIntent(t))
    ensures RootAnchored(t)
  {
    if HasIntent(s) && s.shared {
      AnchoredGrows(s, t, Intended(s));
    }
  }

  /** A new intent is for the copy, whose entry the root's sync has made durable. */
  lemma RootIntent(s: Store, t: Store, m: Manifest)
    requires Grows(s, t) && MadeHere(s, t, IntentName, IntentRecord(m)) && IntentName !in s.names
    requires Pictured(s, StagingName, m) && (s.shared ==> Settled(s, RootDirectory))
    ensures RootAnchored(t)
  {
    if t.shared && HasIntent(t) {
      assert DirectoryOf(StagingName, s.shared) == RootDirectory;
      assert SameEntry(s, StagingName) && SameEntry(t, StagingName);
      assert Sure(t, StagingName, Intended(t));
    }
  }

  lemma RootCrash(s: Store, t: Store)
    requires Grounded(s) && CrashOf(s, t) && RootAnchored(s) && (IntentName in s.names ==> HasIntent(s))
    ensures RootAnchored(t)
  {
    if t.shared && HasIntent(t) {
      assert HasIntent(s) && Intended(t) == Intended(s);
      AnchoredCrash(s, t, Intended(s));
    }
  }

  /** A store right after the copy into a directory of its own: its entry has been made
      but not synced. */
  function Copied(version: nat): Store {
    Store(map[StagingName := 0], map[], map[0 := ImageFile(version, true)], 1, false)
  }

  /** The same store after the system calls that install the intent. */
  function WithIntent(s: Store, m: Manifest): Store {
    var written := WithTemp(s, IntentRecord(m), true);
    var linked := written.(names := written.names[IntentName := written.names[Temp(s.unused)]]);
    var noted := linked.(durable := SyncedEntries(linked, EvidenceDirectory));
    var dropped := noted.(names := noted.names - {Temp(s.unused)});
    dropped.(durable := SyncedEntries(dropped, EvidenceDirectory))
  }

  lemma WithIntentIs(m: Manifest)
    ensures WithIntent(Copied(m.imageVersion), m)
            == Store(map[StagingName := 0, IntentName := 1], map[IntentName := 1],
                     map[0 := ImageFile(m.imageVersion, true), 1 := Record(IntentRecord(m), true)], 2, false)
  {
    var names := map[StagingName := 0, Temp(1) := 1, IntentName := 1];
    var linked := Copied(m.imageVersion).(names := names);
    var dropped := linked.(names := names - {Temp(1)}, durable := map[Temp(1) := 1, IntentName := 1]);
    assert dropped.names == map[StagingName := 0, IntentName := 1];
    NotedIs(linked, dropped);
    hide SyncedEntries;
  }

  lemma NotedIs(linked: Store, dropped: Store)
    requires linked.names == map[StagingName := 0, Temp(1) := 1, IntentName := 1] && linked.durable == map[]
    requires dropped.names == map[StagingName := 0, IntentName := 1]
    requires dropped.durable == map[Temp(1) := 1, IntentName := 1]
    requires !linked.shared && !dropped.shared
    ensures SyncedEntries(linked, EvidenceDirectory) == map[Temp(1) := 1, IntentName := 1]
    ensures SyncedEntries(dropped, EvidenceDirectory) == map[IntentName := 1]
  {
  }

  /** The image is proven and synced, the intent is installed and synced, and a power
      failure leaves the intent but no name of the image: replays end in a conflict. */
  lemma LostEntry(m: Manifest)
    requires m.imageInode == 0
    ensures Safe(Copied(m.imageVersion), None) && Pictured(Copied(m.imageVersion), StagingName, m)
    ensures
      var s := WithIntent(Copied(m.imageVersion), m);
      && Safe(s, None) && HasIntent(s) && Intended(s) == m && IntentName in s.durable
      && exists t ::
           && CrashOf(s, t) && Safe(t, None) && HasIntent(t) && Intended(t) == m
           && Unaltered(t, m) && !Reached(t, m) && !Available(t, m)
  {
    var s := WithIntent(Copied(m.imageVersion), m);
    WithIntentIs(m);
    hide WithIntent;
    IntentAlone(m, s);
  }

  lemma IntentAlone(m: Manifest, s: Store)
    requires m.imageInode == 0
    requires s == Store(map[StagingName := 0, IntentName := 1], map[IntentName := 1],
                        map[0 := ImageFile(m.imageVersion, true), 1 := Record(IntentRecord(m), true)], 2, false)
    ensures Safe(s, None) && HasIntent(s) && Intended(s) == m && IntentName in s.durable
    ensures exists t ::
              && CrashOf(s, t) && Safe(t, None) && HasIntent(t) && Intended(t) == m
              && Unaltered(t, m) && !Reached(t, m) && !Available(t, m)
  {
    var t := s.(names := s.durable);
    assert CrashOf(s, t);
    CrashSafe(s, t, None);
  }
}
