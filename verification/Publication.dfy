/** The crash-recoverable, no-clobber publication of a finished first copy:
    intent, image, manifest, link, pointer, then the database and the cleanup. */
module Publication {
  import opened Common

  /** The names the protocol uses. `Temp` stands for the randomly named files. */
  datatype Name = IntentName | ManifestName | PointerName | ArchiveName | StagingName | Temp(n: nat)

  datatype Directory = EvidenceDirectory | RootDirectory | StagingDirectory

  /** The copy lies in a directory of its own or directly in the library root. */
  function DirectoryOf(n: Name, shared: bool): Directory {
    match n
    case ArchiveName => RootDirectory
    case StagingName => if shared then RootDirectory else StagingDirectory
    case _ => EvidenceDirectory
  }

  /** The archive, job and fingerprint a manifest belongs to, what identifies the
      proven image, and the digests. */
  datatype Manifest = Manifest(owner: nat, id: nat, imageInode: nat, imageVersion: nat, digest: nat,
                               publicationDigest: nat)

  datatype Checkpoint = Checkpoint(manifestId: nat, revision: nat, manifestDigest: nat, publicationDigest: nat)

  function CheckpointFor(m: Manifest): Checkpoint {
    Checkpoint(m.id, 1, m.digest, m.publicationDigest)
  }

  datatype Content = IntentRecord(manifest: Manifest) | ManifestRecord(manifest: Manifest)
                   | CheckpointRecord(checkpoint: Checkpoint) | Garbage

  /** File contents as the running system sees them; `synced` ones survive a crash. */
  datatype File = Record(content: Content, synced: bool) | ImageFile(version: nat, synced: bool)

  /** A file system seen by the running system, and the directory entries that
      are sure to survive. Inodes and random names from `unused` on are free. `shared`
      tells that the copy lies in the library root. */
  datatype Store = Store(names: map<Name, nat>, durable: map<Name, nat>, files: map<nat, File>, unused: nat,
                         shared: bool)

  /** Names that the protocol only ever adds. */
  predicate Permanent(n: Name) {
    n.IntentName? || n.ManifestName? || n.PointerName? || n.ArchiveName?
  }

  predicate Holds(s: Store, n: Name, f: File) {
    n in s.names && s.names[n] in s.files && s.files[s.names[n]] == f
  }

  predicate HasIntent(s: Store) {
    && IntentName in s.names && s.names[IntentName] in s.files
    && var f := s.files[s.names[IntentName]];
    f.Record? && f.synced && f.content.IntentRecord?
  }

  /** The manifest that the recorded intent is about. */
  function Intended(s: Store): Manifest
    requires HasIntent(s)
  {
    s.files[s.names[IntentName]].content.manifest
  }

  predicate ImageAt(s: Store, names: map<Name, nat>, n: Name, m: Manifest) {
    n in names && names[n] == m.imageInode && m.imageInode in s.files && s.files[m.imageInode].ImageFile?
  }

  /** What any mounted file system offers: entries refer to files, new inodes and
      random names are unused, and a permanent name is never rebound. Nothing is
      taken for granted about the entry of the copy. */
  ghost predicate Grounded(s: Store) {
    && (forall n :: n in s.names ==> s.names[n] in s.files)
    && (forall n :: n in s.durable ==> s.durable[n] in s.files)
    && (forall i :: i in s.files ==> i < s.unused)
    && (forall k: nat :: Temp(k) in s.names || Temp(k) in s.durable ==> k < s.unused)
    && (forall n :: Permanent(n) && n in s.durable ==> n in s.names && s.names[n] == s.durable[n])
  }

  /** What is true at every moment, whatever has crashed so far. `done` is the
      checkpoint the database has taken over, if it has. Each record implies that
      what it rests on is already durable. */
  ghost predicate Safe(s: Store, done: Option<Checkpoint>) {
    && Grounded(s)
    && (IntentName in s.names ==> HasIntent(s))
    && (ManifestName in s.names ==>
          HasIntent(s) && IntentName in s.durable && Holds(s, ManifestName, Record(ManifestRecord(Intended(s)), true)))
    && (ArchiveName in s.names ==>
          && HasIntent(s) && ManifestName in s.durable && ImageAt(s, s.names, ArchiveName, Intended(s))
          && s.files[Intended(s).imageInode].synced)
    && (PointerName in s.names ==>
          && HasIntent(s) && ArchiveName in s.durable
          && Holds(s, PointerName, Record(CheckpointRecord(CheckpointFor(Intended(s))), true)))
    && (done.Some? ==> HasIntent(s) && PointerName in s.durable && done.value == CheckpointFor(Intended(s)))
  }

  /** A power failure: every name is bound as it last was or as it was last
      synced, and contents that were not synced may be anything. */
  ghost predicate CrashOf(s: Store, t: Store) {
    && t.durable == t.names && t.unused == s.unused && t.shared == s.shared
    && (forall n :: n in t.names ==>
          (n in s.names && t.names[n] == s.names[n]) || (n in s.durable && t.names[n] == s.durable[n]))
    && (forall n :: n in s.names && n in s.durable ==> n in t.names)
    && t.files.Keys == s.files.Keys
    && (forall i :: i in s.files && s.files[i].synced ==> t.files[i] == s.files[i])
    && (forall i :: i in s.files ==> t.files[i].ImageFile? == s.files[i].ImageFile?)
  }

  /** A surviving pointer implies that the intent, the matching manifest and the
      archive link to the proven inode have all survived with it. */
  lemma CrashSafe(s: Store, t: Store, done: Option<Checkpoint>)
    requires Safe(s, done) && CrashOf(s, t)
    ensures Safe(t, done)
    ensures PointerName in t.names ==>
              && HasIntent(t) && Intended(t) == Intended(s)
              && Holds(t, ManifestName, Record(ManifestRecord(Intended(t)), true))
              && ImageAt(t, t.names, ArchiveName, Intended(t)) && t.files[Intended(t).imageInode].synced
  {
  }

  datatype Fault = Died | Denied | IntentConflict | IntentMissing | ImageConflict
                 | ManifestConflict | CheckpointConflict | ProjectionAhead

  /** How an action ends: it may raise a fault, or the process may die after it. */
  datatype Outcome = Fine | Raise(fault: Fault) {
    predicate IsFailure() { Raise? }
    function PropagateFailure(): Outcome requires Raise? { this }
  }

  /** The run was cut short; nothing was found wrong. */
  predicate Interrupted(o: Outcome) {
    o.Raise? && (o.fault.Died? || o.fault.Denied?)
  }

  /** The entry is durable as the running system sees it. */
  predicate SameEntry(s: Store, n: Name) {
    n in s.names && n in s.durable && s.names[n] == s.durable[n]
  }

  /** From `s` to `t` nothing that was installed has been replaced or removed, and
      the copy has not been named anew. */
  ghost predicate Grows(s: Store, t: Store) {
    && (StagingName in t.names ==> StagingName in s.names) && t.shared == s.shared
    && (forall n: Name :: !n.Temp? && n in s.names ==> n in t.names && t.names[n] == s.names[n])
    && (forall n: Name :: Permanent(n) && n in s.durable ==> n in t.durable && t.durable[n] == s.durable[n])
    && (SameEntry(s, StagingName) ==> SameEntry(t, StagingName))
    && (forall i :: i in s.files ==>
        i in t.files && (t.files[i] == s.files[i] || t.files[i] == s.files[i].(synced := true)))
  }

  /** What every action of the publication keeps, from any state. */
  ghost predicate Kept(s: Store, t: Store, done: Option<Checkpoint>) {
    Grounded(t) && Grows(s, t) && (Safe(s, done) ==> Safe(t, done))
  }

  /** Everything the running system sees in `d` is durable, and nothing else is. */
  ghost predicate Settled(s: Store, d: Directory) {
    forall n: Name :: DirectoryOf(n, s.shared) == d ==>
      (n in s.names <==> n in s.durable) && (n in s.names ==> s.names[n] == s.durable[n])
  }

  function SyncedEntries(s: Store, d: Directory): map<Name, nat> {
    (map n | n in s.durable && DirectoryOf(n, s.shared) != d :: s.durable[n])
    + (map n | n in s.names && DirectoryOf(n, s.shared) == d :: s.names[n])
  }

  /** The record `n` may be added with this content: what it rests on is durable. */
  ghost predicate Installable(s: Store, n: Name, c: Content) {
    match n
    case IntentName =>
      c.IntentRecord? && ImageAt(s, s.names, StagingName, c.manifest)
      && ManifestName !in s.names && ArchiveName !in s.names && PointerName !in s.names
    case ManifestName => HasIntent(s) && IntentName in s.durable && c == ManifestRecord(Intended(s))
    case PointerName => HasIntent(s) && ArchiveName in s.durable && c == CheckpointRecord(CheckpointFor(Intended(s)))
    case _ => false
  }

  /** What another publication could install in place of ours: an intent for the copy. */
  predicate Rivals(s: Store, n: Name, r: Content) {
    && n.IntentName? && r.IntentRecord? && ImageAt(s, s.names, StagingName, r.manifest)
    && ManifestName !in s.names && ArchiveName !in s.names && PointerName !in s.names
  }

  /** The intent on disk is another one than `c`, for the copy that is there. */
  predicate RivalMade(s: Store, c: Content) {
    HasIntent(s) && IntentRecord(Intended(s)) != c && ImageAt(s, s.names, StagingName, Intended(s))
  }

  /** Another publication has installed its intent meanwhile. */
  predicate Overtaken(s: Store, t: Store, c: Content) {
    IntentName !in s.names && RivalMade(t, c)
  }

  /** If the name is new it holds this record, or a rival's. */
  predicate MadeHere(s: Store, t: Store, n: Name, c: Content) {
    n in t.names && n !in s.names ==> Holds(t, n, Record(c, true)) || (n.IntentName? && Overtaken(s, t, c))
  }

  function ContentOf(f: File): Content {
    if f.Record? then f.content else Garbage
  }

  predicate RecordName(n: Name) {
    n.IntentName? || n.ManifestName? || n.PointerName?
  }

  /** The file system part of the world, one system call at a time. */
  class Disk {
    var s: Store
    /** The exclusion of the archive is held, so nobody publishes anything else there. */
    const exclusive: bool

    method MayDie() returns (o: Outcome)
      ensures o.Raise? ==> o.fault.Died?
    {
      var alive: bool := *;
      o := if alive then Fine else Raise(Died);
    }

    /** Never replaces an existing name. */
    method Link(from: Name, to: Name) returns (o: Outcome, linked: bool)
      modifies this
      ensures linked <==> from in old(s).names && to !in old(s).names
      ensures s == if linked then old(s).(names := old(s).names[to := old(s).names[from]]) else old(s)
      ensures o.Raise? ==> o.fault.Died?
    {
      linked := from in s.names && to !in s.names;
      if linked {
        s := s.(names := s.names[to := s.names[from]]);
      }
      o := MayDie();
    }

    method Unlink(n: Name) returns (o: Outcome)
      modifies this
      ensures s == old(s).(names := old(s).names - {n})
      ensures o.Raise? ==> o.fault.Died?
    {
      s := s.(names := s.names - {n});
      o := MayDie();
    }

    method SyncDirectory(d: Directory) returns (o: Outcome)
      modifies this
      ensures s == old(s).(durable := SyncedEntries(old(s), d))
      ensures o.Raise? ==> o.fault.Died?
    {
      s := s.(durable := SyncedEntries(s, d));
      o := MayDie();
    }

    /** Creates a file under a random name; its content is not safe yet. */
    method CreateTemporary() returns (o: Outcome, temp: Name)
      modifies this
      ensures temp == Temp(old(s).unused)
      ensures s == old(s).(names := old(s).names[temp := old(s).unused], unused := old(s).unused + 1,
                           files := old(s).files[old(s).unused := Record(Garbage, false)])
      ensures o.Raise? ==> o.fault.Died?
    {
      temp := Temp(s.unused);
      s := s.(names := s.names[temp := s.unused], unused := s.unused + 1,
              files := s.files[s.unused := Record(Garbage, false)]);
      o := MayDie();
    }

    method WriteAndSync(n: Name, c: Content) returns (o: Outcome)
      requires n in s.names
      modifies this
      ensures s == old(s).(files := old(s).files[old(s).names[n] := Record(c, true)])
      ensures o.Raise? ==> o.fault.Died?
    {
      s := s.(files := s.files[s.names[n] := Record(c, true)]);
      o := MayDie();
    }

    method SyncFile(n: Name) returns (o: Outcome)
      requires n in s.names && s.names[n] in s.files
      modifies this
      ensures s == old(s).(files := old(s).files[old(s).names[n] := old(s).files[old(s).names[n]].(synced := true)])
      ensures o.Raise? ==> o.fault.Died?
    {
      s := s.(files := s.files[s.names[n] := s.files[s.names[n]].(synced := true)]);
      o := MayDie();
    }

    method ReadRecord(n: Name) returns (c: Option<Content>)
      requires n in s.names ==> s.names[n] in s.files
      ensures c == if n in s.names then Some(ContentOf(s.files[s.names[n]])) else None
    {
      c := if n in s.names then Some(ContentOf(s.files[s.names[n]])) else None;
    }

    /** Installs a record without ever replacing one: an equal record is synced
        again, a different one is a conflict, also when it appears in between. */
    method InstallRecord(n: Name, c: Content, conflict: Fault, ghost done: Option<Checkpoint>) returns (o: Outcome)
      requires Grounded(s) && RecordName(n) && !c.Garbage?
      requires Safe(s, done) ==> n in s.names || Installable(s, n, c)
      requires !conflict.Died? && !conflict.Denied?
      modifies this
      ensures Kept(old(s), s, done)
      ensures o.Fine? ==> Holds(s, n, Record(c, true)) && n in s.durable && Settled(s, EvidenceDirectory)
      ensures o.Raise? ==> o.fault.Died? || o.fault == conflict
      ensures n in old(s).names ==> (o == Raise(conflict) <==> ContentOf(old(s).files[old(s).names[n]]) != c)
      ensures o == Raise(conflict) ==>
                if n in old(s).names then s == old(s) else !exclusive && n.IntentName? && Overtaken(old(s), s, c)
      ensures Holds(old(s), n, Record(c, true)) && Settled(old(s), EvidenceDirectory) ==> s == old(s)
      ensures MadeHere(old(s), s, n, c)
      ensures forall other: Name :: !other.Temp? && other != n && other in s.names ==> other in old(s).names
    {
      KeptSame(s, done);
      var existing := ReadRecord(n);
      if existing.Some? {
        if existing.value != c {
          return Raise(conflict);
        }
        o := SyncAgain(n, c, done);
        return;
      }
      o := LinkNew(n, c, conflict, done);
    }

    method SyncAgain(n: Name, c: Content, ghost done: Option<Checkpoint>) returns (o: Outcome)
      requires Grounded(s) && n in s.names && ContentOf(s.files[s.names[n]]) == c && !c.Garbage? && RecordName(n)
      modifies this
      ensures Kept(old(s), s, done)
      ensures o.Fine? ==> Holds(s, n, Record(c, true)) && n in s.durable && Settled(s, EvidenceDirectory)
      ensures o.Raise? ==> o.fault.Died?
      ensures Holds(old(s), n, Record(c, true)) && Settled(old(s), EvidenceDirectory) ==> s == old(s)
      ensures s.names == old(s).names
    {
      ghost var s0 := s;
      FileSynced(s, n, done);
      hide Safe, Grows, Grounded;
      if Holds(s, n, Record(c, true)) {
        assert s.files == s.files[s.names[n] := Record(c, true)];
      }
      :- SyncFile(n);
      EntriesSynced(s, EvidenceDirectory, done);
      EntriesSettled(s, EvidenceDirectory);
      KeptTrans(s0, s, s.(durable := SyncedEntries(s, EvidenceDirectory)), done);
      o := SyncDirectory(EvidenceDirectory);
    }

    /** Another worker that replays the same intent may install the same record first.
        Without the exclusion it may be an intent for another manifest. */
    method Meanwhile(n: Name, c: Content, ghost done: Option<Checkpoint>)
      requires Grounded(s) && n !in s.names && RecordName(n)
      requires Safe(s, done) ==> Installable(s, n, c)
      modifies this
      ensures Kept(old(s), s, done)
      ensures s == old(s) || Holds(s, n, Record(c, true)) || (!exclusive && n.IntentName? && Overtaken(old(s), s, c))
      ensures forall other: Name :: other != n && other in s.names ==> other in old(s).names
    {
      KeptSame(s, done);
      var raced: bool := *;
      var r: Content := *;
      if exclusive || !Rivals(s, n, r) {
        r := c;
      }
      InstalledKept(s, n, r, done);
      if raced {
        s := Installed(s, n, r);
      }
    }

    /** The name may have appeared since it was looked for, which is no conflict if it
        holds the same record. */
    method LinkNew(n: Name, c: Content, conflict: Fault, ghost done: Option<Checkpoint>) returns (o: Outcome)
      requires Grounded(s) && n !in s.names && RecordName(n) && !c.Garbage?
      requires Safe(s, done) ==> Installable(s, n, c)
      modifies this
      ensures Kept(old(s), s, done)
      ensures o.Fine? ==> Holds(s, n, Record(c, true)) && n in s.durable && Settled(s, EvidenceDirectory)
      ensures o.Raise? ==>
                || o.fault.Died?
                || (o.fault == conflict && !exclusive && n.IntentName? && Overtaken(old(s), s, c))
      ensures MadeHere(old(s), s, n, c)
      ensures forall other: Name :: !other.Temp? && other != n && other in s.names ==> other in old(s).names
    {
      ghost var s0 := s;
      hide Safe, Grows, Grounded, Installable, Settled;
      Meanwhile(n, c, done);
      ghost var s1 := s;
      var temp, differs;
      o, temp, differs := NameRecord(n, c, done);
      KeptTrans(s0, s1, s, done);
      if o.Raise? {
        return;
      }
      ghost var s2 := s;
      if differs {
        o := Discard(temp, c, done);
        KeptTrans(s0, s2, s, done);
        MadeGrows(s0, s2, s, n, c);
        if o.Fine? {
          o := Raise(conflict);
        }
      } else {
        o := DropTemporary(temp, n, done);
        KeptTrans(s0, s2, s, done);
        MadeGrows(s0, s2, s, n, c);
      }
    }

    /** Writes the record under a random name and links it to its own, unless that is
        taken; `differs` tells that it is taken by something else. */
    method NameRecord(n: Name, c: Content, ghost done: Option<Checkpoint>)
      returns (o: Outcome, temp: Name, differs: bool)
      requires Grounded(s) && RecordName(n) && !c.Garbage?
      requires n in s.names ==> Holds(s, n, Record(c, true)) || (n.IntentName? && RivalMade(s, c))
      requires Safe(s, done) && n !in s.names ==> Installable(s, n, c)
      modifies this
      ensures Kept(old(s), s, done) && temp.Temp?
      ensures o.Fine? && !differs ==> Holds(s, n, Record(c, true))
      ensures differs ==> n in old(s).names && n.IntentName? && RivalMade(old(s), c) && RivalMade(s, c)
      ensures o.Raise? ==> o.fault.Died?
      ensures n in s.names ==>
                Holds(s, n, Record(c, true)) || (n.IntentName? && RivalMade(old(s), c) && RivalMade(s, c))
      ensures forall other: Name :: !other.Temp? && other != n && other in s.names ==> other in old(s).names
    {
      hide Safe, Grows, Grounded, Installable, Kept;
      ghost var s0 := s;
      TempHolds(s0, n, c);
      if n !in s0.names {
        NamedKept(s0, n, c, done);
      }
      differs := false;
      o, temp := WriteTemporary(c, done);
      StillThere(s0, s, n, c, done);
      if o.Raise? {
        return;
      }
      var linked;
      o, linked := Link(temp, n);
      if o.Fine? && !linked {
        var present := ReadRecord(n);
        differs := present != Some(c);
      }
    }

    /** After a lost race only the random name goes. */
    method Discard(temp: Name, c: Content, ghost done: Option<Checkpoint>) returns (o: Outcome)
      requires Grounded(s) && temp.Temp? && RivalMade(s, c)
      modifies this
      ensures Kept(old(s), s, done) && RivalMade(s, c)
      ensures forall other: Name :: other in s.names ==> other in old(s).names
      ensures o.Raise? ==> o.fault.Died?
    {
      ghost var s0 := s;
      TempRemoved(s0, temp.n, done);
      hide Safe, Grows, Grounded, Kept;
      :- Unlink(temp);
      EntriesSynced(s, EvidenceDirectory, done);
      KeptTrans(s0, s, s.(durable := SyncedEntries(s, EvidenceDirectory)), done);
      o := SyncDirectory(EvidenceDirectory);
    }

    method WriteTemporary(c: Content, ghost done: Option<Checkpoint>) returns (o: Outcome, temp: Name)
      requires Grounded(s)
      modifies this
      ensures Kept(old(s), s, done)
      ensures o.Raise? ==> (forall other: Name :: !other.Temp? && other in s.names ==> other in old(s).names)
      ensures temp.Temp? && (o.Fine? ==> temp == Temp(old(s).unused) && s == WithTemp(old(s), c, true))
      ensures o.Raise? ==> o.fault.Died?
    {
      hide Safe, Grows, Grounded;
      TempKept(s, Garbage, false, done);
      TempKept(s, c, true, done);
      Rewritten(s, c);
      temp :- CreateTemporary();
      o := WriteAndSync(temp, c);
    }

    method DropTemporary(temp: Name, n: Name, ghost done: Option<Checkpoint>) returns (o: Outcome)
      requires Grounded(s) && n in s.names && temp.Temp? && RecordName(n)
      modifies this
      ensures Kept(old(s), s, done)
      ensures forall other: Name :: other in s.names ==> other in old(s).names
      ensures o.Fine? ==> s.files == old(s).files && n in s.names && n in s.durable && s.names[n] == old(s).names[n]
      ensures o.Fine? ==> Settled(s, EvidenceDirectory)
      ensures o.Raise? ==> o.fault.Died?
    {
      ghost var s0 := s;
      hide Safe, Grows, Grounded, Settled;
      EntriesSynced(s, EvidenceDirectory, done);
      EntriesSettled(s, EvidenceDirectory);
      :- SyncDirectory(EvidenceDirectory);
      TempRemoved(s, temp.n, done);
      KeptTrans(s0, s, s.(names := s.names - {temp}), done);
      :- Unlink(temp);
      EntriesSynced(s, EvidenceDirectory, done);
      EntriesSettled(s, EvidenceDirectory);
      KeptTrans(s0, s, s.(durable := SyncedEntries(s, EvidenceDirectory)), done);
      o := SyncDirectory(EvidenceDirectory);
    }
  }

  function WithTemp(s: Store, c: Content, synced: bool): Store {
    s.(names := s.names[Temp(s.unused) := s.unused], unused := s.unused + 1,
       files := s.files[s.unused := Record(c, synced)])
  }

  lemma Rewritten(s: Store, c: Content)
    ensures
      var t := WithTemp(s, Garbage, false);
      WithTemp(s, c, true) == t.(files := t.files[t.names[Temp(s.unused)] := Record(c, true)])
  {
  }

  lemma KeptSame(s: Store, done: Option<Checkpoint>)
    requires Grounded(s)
    ensures Kept(s, s, done)
  {
  }

  lemma KeptTrans(a: Store, b: Store, c: Store, done: Option<Checkpoint>)
    requires Kept(a, b, done) && Kept(b, c, done)
    ensures Kept(a, c, done)
  {
    hide Safe, Grounded;
  }

  lemma TempKept(s: Store, c: Content, synced: bool, done: Option<Checkpoint>)
    requires Grounded(s)
    ensures Kept(s, WithTemp(s, c, synced), done)
  {
    var t := WithTemp(s, c, synced);
    assert Grounded(t);
    SafeUnlessNamed(s, t, done);
  }

  /** Safety does not depend on temporary names or on files nothing refers to. */
  lemma SafeUnlessNamed(s: Store, t: Store, done: Option<Checkpoint>)
    requires Grounded(s) && Grounded(t) && Grows(s, t)
    requires forall n: Name :: !n.Temp? && n in t.names ==> n in s.names
    ensures Safe(s, done) ==> Safe(t, done)
  {
    hide Grounded;
    if Safe(s, done) && HasIntent(s) {
      assert HasIntent(t) && Intended(t) == Intended(s);
    }
  }

  /** Linking a complete record whose grounds are durable keeps everything safe. */
  lemma NamedKept(s: Store, n: Name, c: Content, done: Option<Checkpoint>)
    requires Grounded(s) && n !in s.names && RecordName(n)
    requires Safe(s, done) ==> Installable(s, n, c)
    ensures
      var t := WithTemp(s, c, true);
      var u := t.(names := t.names[n := s.unused]);
      Kept(s, u, done) && Holds(u, n, Record(c, true))
  {
    NamedGrows(s, n, c);
    hide Grows, Grounded;
  }

  lemma NamedGrows(s: Store, n: Name, c: Content)
    requires Grounded(s) && n !in s.names && RecordName(n)
    ensures
      var t := WithTemp(s, c, true);
      var u := t.(names := t.names[n := s.unused]);
      Grounded(u) && Grows(s, u)
  {
  }

  /** The store once somebody else has installed a record. */
  function Installed(s: Store, n: Name, c: Content): Store {
    s.(names := s.names[n := s.unused], unused := s.unused + 1, files := s.files[s.unused := Record(c, true)])
  }

  lemma InstalledKept(s: Store, n: Name, c: Content, done: Option<Checkpoint>)
    requires Grounded(s) && n !in s.names && RecordName(n)
    requires Safe(s, done) ==> Installable(s, n, c)
    ensures Kept(s, Installed(s, n, c), done) && Holds(Installed(s, n, c), n, Record(c, true))
  {
    InstalledGrows(s, n, c);
    hide Grows, Grounded;
  }

  lemma InstalledGrows(s: Store, n: Name, c: Content)
    requires Grounded(s) && n !in s.names && RecordName(n)
    ensures Grounded(Installed(s, n, c)) && Grows(s, Installed(s, n, c))
  {
  }

  lemma MadeGrows(s: Store, t: Store, u: Store, n: Name, c: Content)
    requires MadeHere(s, t, n, c) && Grows(t, u) && !n.Temp? && (n in u.names ==> n in t.names)
    ensures MadeHere(s, u, n, c)
  {
    assert RivalMade(t, c) ==> Intended(u) == Intended(t);
  }

  lemma StillThere(s: Store, t: Store, n: Name, c: Content, done: Option<Checkpoint>)
    requires Kept(s, t, done) && !n.Temp?
    ensures Holds(s, n, Record(c, true)) ==> Holds(t, n, Record(c, true))
    ensures RivalMade(s, c) ==> RivalMade(t, c)
  {
    assert RivalMade(s, c) ==> Intended(t) == Intended(s);
  }

  lemma TempHolds(s: Store, n: Name, c: Content)
    requires Grounded(s) && !n.Temp?
    ensures Holds(s, n, Record(c, true)) ==> Holds(WithTemp(s, c, true), n, Record(c, true))
    ensures RivalMade(s, c) ==> RivalMade(WithTemp(s, c, true), c)
  {
  }

  lemma TempRemoved(s: Store, k: nat, done: Option<Checkpoint>)
    requires Grounded(s)
    ensures Kept(s, s.(names := s.names - {Temp(k)}), done)
  {
    SafeUnlessNamed(s, s.(names := s.names - {Temp(k)}), done);
  }

  lemma FileSynced(s: Store, n: Name, done: Option<Checkpoint>)
    requires Grounded(s) && n in s.names
    ensures
      var t := s.(files := s.files[s.names[n] := s.files[s.names[n]].(synced := true)]);
      Kept(s, t, done)
  {
    SafeUnlessNamed(s, s.(files := s.files[s.names[n] := s.files[s.names[n]].(synced := true)]), done);
  }

  lemma EntriesSettled(s: Store, d: Directory)
    ensures
      var t := s.(durable := SyncedEntries(s, d));
      Settled(t, d) && (Settled(s, d) ==> t == s)
    ensures forall n :: n in s.names && DirectoryOf(n, s.shared) == d ==> n in SyncedEntries(s, d)
  {
    if Settled(s, d) {
      assert SyncedEntries(s, d) == s.durable;
    }
  }

  /** Syncing a directory makes durable only what the running system sees. */
  lemma EntriesSynced(s: Store, d: Directory, done: Option<Checkpoint>)
    requires Grounded(s)
    ensures
      var t := s.(durable := SyncedEntries(s, d));
      Kept(s, t, done)
  {
    SyncGrows(s, d);
    hide Grows, Grounded, SyncedEntries, Safe;
    SafeUnlessNamed(s, s.(durable := SyncedEntries(s, d)), done);
  }

  lemma SyncGrows(s: Store, d: Directory)
    requires Grounded(s)
    ensures Grounded(s.(durable := SyncedEntries(s, d))) && Grows(s, s.(durable := SyncedEntries(s, d)))
  {
  }
}
