/** Restoring a published backup, and what an accepted manifest says about its directory. */
module BackupRoundTrip {
  import opened Common
  import opened Paths
  import opened Backup
  import opened BackupTheorems

  predicate Copies(f: Record, encryptionKey: string) {
    IsArtifact(f.path) && !(f.path == encryptionKey && encryptionKey == SealedPath())
  }

  function Below(path: string): string
    requires IsArtifact(path)
  {
    path[|"artifacts/"|..]
  }

  lemma BelowInjective(p: string, q: string)
    requires IsArtifact(p) && IsArtifact(q) && Below(p) == Below(q)
    ensures p == q
  {
    assert p == p[..|"artifacts/"|] + Below(p) && q == q[..|"artifacts/"|] + Below(q);
  }

  lemma {:induction false} RestoredHas(dir: Dir, files: seq<Record>, encryptionKey: string, k: nat)
    requires Readable(dir, files) && DistinctPaths(files) && k < |files| && Copies(files[k], encryptionKey)
    ensures Below(files[k].path) in Restored(dir, files, encryptionKey)
    ensures Restored(dir, files, encryptionKey)[Below(files[k].path)] == dir[files[k].path].data
  {
    var n := |files| - 1;
    var init, f := files[..n], files[n];
    if k < n {
      RestoredHas(dir, init, encryptionKey, k);
      if IsArtifact(f.path) && Below(f.path) == Below(files[k].path) {
        BelowInjective(files[k].path, f.path);
      }
    }
  }

  lemma {:induction false} RestoredOnly(dir: Dir, files: seq<Record>, encryptionKey: string, p: string) returns (k: nat)
    requires Readable(dir, files) && p in Restored(dir, files, encryptionKey)
    ensures k < |files| && Copies(files[k], encryptionKey) && Below(files[k].path) == p
  {
    var n := |files| - 1;
    if Copies(files[n], encryptionKey) && Below(files[n].path) == p {
      k := n;
    } else {
      k := RestoredOnly(dir, files[..n], encryptionKey, p);
    }
  }

  /** The files are exactly the kept entries' bytes at the kept entries' paths. */
  predicate ExactlyKept(entries: seq<Entry>, files: map<string, Bytes>) {
    && (forall i | 0 <= i < |entries| && Kept(entries[i]) ::
          Join(entries[i].path) in files && files[Join(entries[i].path)] == entries[i].kind.data)
    && (forall p | p in files :: exists i :: 0 <= i < |entries| && Kept(entries[i]) && Join(entries[i].path) == p)
  }

  /** Every copied record is a kept entry's. */
  lemma CopiedIsKept(o: Outside, db: Bytes, entries: seq<Entry>, sealed: Option<Bytes>, k: nat) returns (i: nat)
    requires Listed(entries) && k < |FilesFor(o, db, entries, sealed)|
    requires Copies(FilesFor(o, db, entries, sealed)[k], if sealed.Some? then SealedPath() else "")
    ensures i < |entries| && From(o, entries[i], FilesFor(o, db, entries, sealed)[k])
  {
    FixedNames();
    FilesRows(o, db, entries, sealed);
    i := RecordIsKept(o, entries, k - 1);
  }

  lemma KeptIsCopied(o: Outside, db: Bytes, entries: seq<Entry>, sealed: Option<Bytes>, i: nat) returns (k: nat)
    requires Listed(entries) && i < |entries| && Kept(entries[i])
    ensures k < |FilesFor(o, db, entries, sealed)|
    ensures FilesFor(o, db, entries, sealed)[k].path == PathOf(entries[i])
    ensures Copies(FilesFor(o, db, entries, sealed)[k], if sealed.Some? then SealedPath() else "")
  {
    var j := KeptHasRecord(o, entries, i);
    k := j + 1;
    FilesRows(o, db, entries, sealed);
    PathOfShape(entries[i]);
    KeptIsNotSealed(entries[i]);
  }

  lemma RestoredIsKept(o: Outside, db: Bytes, entries: seq<Entry>, sealed: Option<Bytes>, env: Env)
    requires Listed(entries)
    ensures var dir, files := Published(o, db, entries, sealed, env), FilesFor(o, db, entries, sealed);
            && Readable(dir, files)
            && ExactlyKept(entries, Restored(dir, files, if sealed.Some? then SealedPath() else ""))
  {
    var dir, files := Published(o, db, entries, sealed, env), FilesFor(o, db, entries, sealed);
    var key := if sealed.Some? then SealedPath() else "";
    PublishedHolds(o, db, entries, sealed, env);
    FilesDescribe(o, db, entries, sealed, env);
    FilesDistinct(o, db, entries, sealed);
    assert forall k | 0 <= k < |files| :: Describes(o, dir, files[k]);
    var restored := Restored(dir, files, key);
    forall i | 0 <= i < |entries| && Kept(entries[i])
      ensures Join(entries[i].path) in restored && restored[Join(entries[i].path)] == entries[i].kind.data
    {
      var k := KeptIsCopied(o, db, entries, sealed, i);
      RestoredHas(dir, files, key, k);
      PathOfShape(entries[i]);
      assert Holds(dir, entries[i]);
    }
    forall p | p in restored ensures exists i :: 0 <= i < |entries| && Kept(entries[i]) && Join(entries[i].path) == p {
      var k := RestoredOnly(dir, files, key, p);
      var i := CopiedIsKept(o, db, entries, sealed, k);
      PathOfShape(entries[i]);
    }
  }

  lemma EnvelopedKey(source: Source, env: Env)
    requires Enveloped(source, env).Some? && Enveloped(source, env).value.Some?
    ensures env.backupKey.Some? && |Enveloped(source, env).value.value| == 32
  {
  }

  lemma KeyComesBack(o: Outside, source: Source, env: Env)
    requires Lawful(o, env) && Enveloped(source, env).Some?
    ensures var sealed, key := SealedKey(o, source, env), Enveloped(source, env).value;
            if sealed.None? then key.None? else key.Some? && Unsealed(o, Regular(sealed.value), env.backupKey) == key
  {
    if Enveloped(source, env).value.Some? {
      EnvelopedKey(source, env);
    }
  }

  lemma BackupIsPublished(o: Outside, db: Bytes, source: Source, env: Env)
    requires Listed(EntriesOf(source)) && BackupOf(o, db, source, env).Some?
    ensures Enveloped(source, env).Some?
    ensures BackupOf(o, db, source, env).value == Published(o, db, EntriesOf(source), SealedKey(o, source, env), env)
  {
  }

  /** What a restore makes of a published backup, before the copied files are looked into. */
  lemma RestoringPublished(o: Outside, db: Bytes, entries: seq<Entry>, sealed: Option<Bytes>, env: Env)
    requires Listed(entries) && Lawful(o, env) && Accepts(o, Published(o, db, entries, sealed, env))
    ensures var dir, files := Published(o, db, entries, sealed, env), FilesFor(o, db, entries, sealed);
            && Readable(dir, files)
            && var kept := Restored(dir, files, if sealed.Some? then SealedPath() else "");
            Restoring(o, dir, env.backupKey) ==
              if sealed.None? then Some(Restoration(db, kept))
              else
                var key := Unsealed(o, Regular(sealed.value), env.backupKey);
                if key.None? then None else Some(Restoration(db, kept[KEY_NAME := key.value]))
  {
    var dir, files := Published(o, db, entries, sealed, env), FilesFor(o, db, entries, sealed);
    PublishedHolds(o, db, entries, sealed, env);
    assert ReadManifest(o, dir) == Some(ManifestFor(env, sealed.Some?, files));
  }

  /** The database, the kept files, and the key if there is one. */
  ghost predicate Restores(restored: Option<Restoration>, db: Bytes, entries: seq<Entry>, key: Option<Bytes>) {
    && restored.Some? && restored.value.db == db
    && exists kept :: ExactlyKept(entries, kept)
         && restored.value.artifacts == if key.Some? then kept[KEY_NAME := key.value] else kept
  }

  /** The regular file .key of the artifact directory. */
  predicate IsKeyFile(e: Entry) { e.path == [".key"] && e.kind.File? }

  /**
    The database; every kept file; the key file exactly when there is one and no
    key is configured outside; nothing less and nothing more.
   */
  ghost predicate GivesBack(restored: Option<Restoration>, db: Bytes, entries: seq<Entry>, env: Env) {
    && restored.Some? && restored.value.db == db
    && var files := restored.value.artifacts;
    && (forall i | 0 <= i < |entries| && Kept(entries[i]) ::
          Join(entries[i].path) in files && files[Join(entries[i].path)] == entries[i].kind.data)
    && (forall i | 0 <= i < |entries| && IsKeyFile(entries[i]) && !env.artifactKeySet ::
          ".key" in files && files[".key"] == entries[i].kind.data && |files[".key"]| == 32)
    && (forall p | p in files && p != ".key" ::
          exists i :: 0 <= i < |entries| && Kept(entries[i]) && Join(entries[i].path) == p)
    && (".key" in files ==> !env.artifactKeySet && exists i :: 0 <= i < |entries| && IsKeyFile(entries[i]))
  }

  lemma KeptIsNotKey(e: Entry)
    requires Kept(e) && AllPlain(e.path)
    ensures Join(e.path) != ".key"
  {
    assert forall i | 0 <= i < |e.path| :: Plain(e.path[i]) && NoSlash(e.path[i]);
    SplitOne(".key");
    SplitJoin(e.path);
    assert [".key"][0] == KEY_NAME;
  }

  lemma KeyDecided(source: Source, env: Env)
    requires Listed(EntriesOf(source)) && Enveloped(source, env).Some?
    ensures var entries, key := EntriesOf(source), Enveloped(source, env).value;
            && (key.Some? <==> !env.artifactKeySet && exists i :: 0 <= i < |entries| && IsKeyFile(entries[i]))
            && (forall i | 0 <= i < |entries| && IsKeyFile(entries[i]) && !env.artifactKeySet ::
                  key == Some(entries[i].kind.data) && |entries[i].kind.data| == 32)
  {
    var entries := EntriesOf(source);
    ReadKeyExactly(entries);
    if i :| 0 <= i < |entries| && entries[i].path == [".key"] {
      assert IsKeyFile(entries[i]) <==> entries[i].kind.File?;
    }
  }

  /** Whether the key comes back is decided by the key file and the environment. */
  lemma RestoresGivesBack(restored: Option<Restoration>, db: Bytes, source: Source, env: Env)
    requires Listed(EntriesOf(source)) && Enveloped(source, env).Some?
    requires Restores(restored, db, EntriesOf(source), Enveloped(source, env).value)
    ensures GivesBack(restored, db, EntriesOf(source), env)
  {
    var entries, key := EntriesOf(source), Enveloped(source, env).value;
    KeyDecided(source, env);
    var kept :| ExactlyKept(entries, kept)
                && restored.value.artifacts == if key.Some? then kept[KEY_NAME := key.value] else kept;
    KeptAndKey(entries, kept, key, restored.value.artifacts);
  }

  lemma KeptAndKey(entries: seq<Entry>, kept: map<string, Bytes>, key: Option<Bytes>, files: map<string, Bytes>)
    requires Listed(entries) && ExactlyKept(entries, kept)
    requires files == if key.Some? then kept[KEY_NAME := key.value] else kept
    ensures forall i | 0 <= i < |entries| && Kept(entries[i]) ::
              Join(entries[i].path) in files && files[Join(entries[i].path)] == entries[i].kind.data
    ensures forall p | p in files && p != ".key" ::
              exists i :: 0 <= i < |entries| && Kept(entries[i]) && Join(entries[i].path) == p
    ensures ".key" in files <==> key.Some?
    ensures key.Some? ==> files[".key"] == key.value
  {
    forall i | 0 <= i < |entries| && Kept(entries[i]) ensures Join(entries[i].path) != ".key" {
      KeptIsNotKey(entries[i]);
    }
  }

  lemma PublishedGivesBack(
      o: Outside, db: Bytes, entries: seq<Entry>, sealed: Option<Bytes>, env: Env, key: Option<Bytes>)
    requires Listed(entries) && Lawful(o, env) && Accepts(o, Published(o, db, entries, sealed, env))
    requires if sealed.None? then key.None? else key.Some? && Unsealed(o, Regular(sealed.value), env.backupKey) == key
    ensures Restores(Restoring(o, Published(o, db, entries, sealed, env), env.backupKey), db, entries, key)
  {
    RestoringPublished(o, db, entries, sealed, env);
    RestoredIsKept(o, db, entries, sealed, env);
    var kept := Restored(Published(o, db, entries, sealed, env), FilesFor(o, db, entries, sealed),
                         if sealed.Some? then SealedPath() else "");
    assert ExactlyKept(entries, kept);
  }

  /**
    A backup that verification accepts restores to the database that was
    copied and, besides the key, exactly the original artifact files at their
    original paths; the key comes back exactly when there was a key file and no key
    was configured outside.
   */
  lemma BackupRoundTrip(o: Outside, db: Bytes, source: Source, env: Env)
    requires Listed(EntriesOf(source)) && Lawful(o, env) && BackupOf(o, db, source, env).Some?
    ensures var dir := BackupOf(o, db, source, env).value;
            && (Accepts(o, dir) <==> o.sound(db) && AllSafe(EntriesOf(source)))
            && (Accepts(o, dir) ==>
                  GivesBack(Restoring(o, dir, env.backupKey), db, EntriesOf(source), env))
  {
    var entries, sealed := EntriesOf(source), SealedKey(o, source, env);
    BackupIsPublished(o, db, source, env);
    PublishedAcceptedExactly(o, db, entries, sealed, env);
    if Accepts(o, Published(o, db, entries, sealed, env)) {
      KeyComesBack(o, source, env);
      PublishedGivesBack(o, db, entries, sealed, env, Enveloped(source, env).value);
      RestoresGivesBack(Restoring(o, Published(o, db, entries, sealed, env), env.backupKey), db, source, env);
    }
  }

  // ---- What an accepted manifest says ----

  /** No file of one directory collides with the file of that name in the other. */
  predicate NoCollision(o: Outside, dir: Dir, dir': Dir) {
    forall p | p in dir && p in dir' && dir[p].Regular? && dir'[p].Regular?
        && o.hash(dir[p].data) == o.hash(dir'[p].data) ::
      dir[p] == dir'[p]
  }

  /** Collisions apart, the manifest fixes the whole directory: no file can change, vanish or appear. */
  lemma ManifestFixesBackup(o: Outside, dir: Dir, dir': Dir)
    requires NoCollision(o, dir, dir') && Accepts(o, dir) && Accepts(o, dir') && dir[MANIFEST] == dir'[MANIFEST]
    ensures dir == dir'
  {
    assert ReadManifest(o, dir) == ReadManifest(o, dir');
    SameInventory(o, dir, dir', ReadManifest(o, dir).value.files);
  }

  lemma SameInventory(o: Outside, dir: Dir, dir': Dir, files: seq<Record>)
    requires NoCollision(o, dir, dir') && OneToOne(o, dir, files) && OneToOne(o, dir', files)
    requires MANIFEST in dir && MANIFEST in dir' && dir[MANIFEST] == dir'[MANIFEST]
    ensures dir == dir'
  {
    forall p | p in dir ensures p in dir' && dir'[p] == dir[p] {
      if p != MANIFEST {
        SameFile(o, dir, dir', files, p);
      }
    }
    forall p | p in dir' ensures p in dir {
      if p != MANIFEST {
        SameFile(o, dir', dir, files, p);
      }
    }
  }

  lemma SameFile(o: Outside, dir: Dir, dir': Dir, files: seq<Record>, p: string)
    requires NoCollision(o, dir, dir') && OneToOne(o, dir, files) && OneToOne(o, dir', files) && p in dir
              && p != MANIFEST
    ensures p in dir' && dir'[p] == dir[p]
  {
    var i :| 0 <= i < |files| && files[i].path == p;
    assert Matches(o, dir, files[i]) && Matches(o, dir', files[i]);
  }

  function ArtifactNames(files: seq<Record>): set<string> {
    if |files| == 0 then {}
    else
      var rest := ArtifactNames(files[..|files| - 1]);
      var path := files[|files| - 1].path;
      if IsArtifact(path) then rest + {path} else rest
  }

  lemma {:induction false} ArtifactNamesExactly(files: seq<Record>, p: string)
    ensures p in ArtifactNames(files) <==> IsArtifact(p) && HasRecord(files, p)
  {
    if |files| == 0 {
    } else {
      var n := |files| - 1;
      var init := files[..n];
      ArtifactNamesExactly(init, p);
      assert HasRecord(files, p) <==> HasRecord(init, p) || files[n].path == p by {
        assert forall i | 0 <= i < n :: init[i] == files[i];
      }
    }
  }

  lemma {:induction false} ArtifactNamesCounted(files: seq<Record>)
    requires DistinctPaths(files)
    ensures |ArtifactNames(files)| == ArtifactRecords(files)
  {
    if |files| == 0 {
    } else {
      var n := |files| - 1;
      ArtifactNamesCounted(files[..n]);
      ArtifactNamesExactly(files[..n], files[n].path);
    }
  }

  /** The recorded artifact count is the number of files under artifacts/. */
  lemma ArtifactCountIsTrue(o: Outside, dir: Dir)
    requires Accepts(o, dir)
    ensures |set p | p in dir && IsArtifact(p)| == ReadManifest(o, dir).value.artifactFiles
  {
    var files := ReadManifest(o, dir).value.files;
    ArtifactNamesCounted(files);
    var there := set p | p in dir && IsArtifact(p);
    forall p ensures p in there <==> p in ArtifactNames(files) {
      ArtifactNamesExactly(files, p);
      ListedExactly(o, dir, files, p);
    }
    assert there == ArtifactNames(files);
  }

  lemma ListedExactly(o: Outside, dir: Dir, files: seq<Record>, p: string)
    requires OneToOne(o, dir, files)
    ensures IsArtifact(p) ==> (p in dir <==> HasRecord(files, p))
  {
    FixedNames();
    if HasRecord(files, p) {
      var i :| 0 <= i < |files| && files[i].path == p;
      assert Matches(o, dir, files[i]);
    }
  }
}
