/** Round trip of a backup, and what an accepted backup is. */
module BackupTheorems {
  import opened Common
  import opened Paths
  import opened Backup

  // ---- Names ----

  lemma {:induction false} ExtIsSuffix(name: string, ext: string)
    requires |ext| > 0 && ext[0] == '.' && '.' !in ext[1..]
    ensures Ext(name) == ext <==> |name| >= |ext| && name[|name| - |ext|..] == ext
    decreases |name|
  {
    if name != "" {
      var init, last := name[..|name| - 1], name[|name| - 1];
      if |ext| <= 1 {
      } else {
        var short := ext[..|ext| - 1];
        assert ext[1..][|ext| - 2] == ext[|ext| - 1];
        assert forall c | c in short[1..] :: c in ext[1..];
        ExtIsSuffix(init, short);
        assert ext == short + [ext[|ext| - 1]];
        if |name| >= |ext| {
          assert name[|name| - |ext|..] == init[|init| - |short|..] + [last];
        }
      }
    }
  }

  lemma KeptMeansBin(e: Entry)
    ensures Kept(e) <==>
            |e.path| > 0 && e.kind.File?
            && var name := e.path[|e.path| - 1]; |name| >= 4 && name[|name| - 4..] == ".bin"
  {
    if |e.path| > 0 {
      var name := e.path[|e.path| - 1];
      ExtIsSuffix(name, ".bin");
      assert name == KEY_NAME ==> name[0..] != ".bin" by { assert KEY_NAME[1] != ".bin"[1]; }
    }
  }

  lemma PathOfShape(e: Entry)
    requires |e.path| > 0
    ensures PathOf(e) == "artifacts/" + Join(e.path)
    ensures IsArtifact(PathOf(e)) && PathOf(e)[|"artifacts/"|..] == Join(e.path)
  {
    assert ([ARTIFACTS] + e.path)[1..] == e.path;
    assert "artifacts" + "/" == "artifacts/";
  }

  lemma PlainNoSlash(path: seq<string>)
    requires AllPlain(path)
    ensures AllNoSlash([ARTIFACTS] + path)
  {
    var all := [ARTIFACTS] + path;
    forall i | 0 <= i < |all| ensures NoSlash(all[i]) {
      if i > 0 {
        assert all[i] == path[i - 1] && Plain(path[i - 1]);
      }
    }
  }

  lemma PathOfInjective(e: Entry, f: Entry)
    requires |e.path| > 0 && |f.path| > 0 && AllPlain(e.path) && AllPlain(f.path) && PathOf(e) == PathOf(f)
    ensures e.path == f.path
  {
    PlainNoSlash(e.path);
    PlainNoSlash(f.path);
    JoinInjective([ARTIFACTS] + e.path, [ARTIFACTS] + f.path);
    assert ([ARTIFACTS] + e.path)[1..] == e.path && ([ARTIFACTS] + f.path)[1..] == f.path;
  }

  lemma SealedShape()
    ensures SealedPath() == PathOf(Entry([SEALED_NAME], Directory)) && IsArtifact(SealedPath())
  {
    assert [ARTIFACTS] + [SEALED_NAME] == [ARTIFACTS, SEALED_NAME];
    PathOfShape(Entry([SEALED_NAME], Directory));
  }

  /** The fixed names differ from one another and from every artifact's path. */
  lemma FixedNames()
    ensures !IsArtifact(DATABASE) && !IsArtifact(MANIFEST) && DATABASE != MANIFEST
  {
    DatabaseIsNoArtifact();
    assert MANIFEST[0] != "artifacts/"[0] && MANIFEST[0] != DATABASE[0];
  }

  lemma NamePathValid(name: string)
    requires Plain(name) && '\\' !in name && name[0] != '.' && (|name| >= 2 ==> name[1] != ':')
    ensures ValidRelativePath(name)
  {
    SafeName(name);
    ValidExactly(name);
  }

  lemma DatabasePathValid()
    ensures ValidRelativePath(DATABASE)
  {
    NamePathValid(DATABASE);
  }

  lemma SealedPathValid()
    ensures ValidRelativePath(SealedPath())
  {
    SafeName(SEALED_NAME);
    SealedShape();
    KeptPathValid(Entry([SEALED_NAME], Directory));
  }

  lemma SafeName(name: string)
    requires Plain(name) && '\\' !in name
    ensures AllPlain(Split(Normalise(name)))
  {
    assert Normalise(name) == name;
    SplitOne(name);
  }

  lemma KeptPathValid(e: Entry)
    requires |e.path| > 0
    ensures ValidRelativePath(PathOf(e)) <==> SafePath(e.path)
  {
    PathOfShape(e);
    SafeName(ARTIFACTS);
    var all := [ARTIFACTS] + e.path;
    SafeJoin(all);
    ValidExactly(PathOf(e));
    assert PathOf(e)[1] == 'r' && PathOf(e) != ".";
    assert SafePath(all) <==> SafePath(e.path) by {
      assert forall i | 0 <= i < |e.path| :: all[i + 1] == e.path[i];
      assert forall i | 1 <= i < |all| :: all[i] == e.path[i - 1];
    }
  }

  lemma KeptIsNotSealed(e: Entry)
    requires Kept(e) && AllPlain(e.path)
    ensures PathOf(e) != SealedPath()
  {
    KeptMeansBin(e);
    var name := e.path[|e.path| - 1];
    assert name != SEALED_NAME by { assert SEALED_NAME[|SEALED_NAME| - 1] != ".bin"[3]; }
    SealedShape();
    if PathOf(e) == SealedPath() {
      PathOfInjective(e, Entry([SEALED_NAME], Directory));
    }
  }

  // ---- What is published ----

  predicate From(o: Outside, e: Entry, f: Record) { Kept(e) && f == Describe(o, PathOf(e), e.kind.data) }

  lemma {:induction false} CopiedHas(entries: seq<Entry>, i: nat)
    requires Listed(entries) && i < |entries| && Kept(entries[i])
    ensures PathOf(entries[i]) in Copied(entries) && Copied(entries)[PathOf(entries[i])] == entries[i].kind.data
  {
    var n := |entries| - 1;
    if i < n {
      CopiedHas(entries[..n], i);
      if PathOf(entries[i]) == PathOf(entries[n]) && Kept(entries[n]) {
        PathOfInjective(entries[i], entries[n]);
      }
    }
  }

  lemma {:induction false} CopiedOnly(entries: seq<Entry>, p: string) returns (i: nat)
    requires Listed(entries) && p in Copied(entries)
    ensures i < |entries| && Kept(entries[i]) && PathOf(entries[i]) == p
  {
    var n := |entries| - 1;
    if Kept(entries[n]) && PathOf(entries[n]) == p {
      i := n;
    } else {
      i := CopiedOnly(entries[..n], p);
    }
  }

  lemma {:induction false} RecordIsKept(o: Outside, entries: seq<Entry>, k: nat) returns (i: nat)
    requires Listed(entries) && k < |Records(o, entries)|
    ensures i < |entries| && From(o, entries[i], Records(o, entries)[k])
  {
    var n := |entries| - 1;
    if k < |Records(o, entries[..n])| {
      i := RecordIsKept(o, entries[..n], k);
    } else {
      i := n;
    }
  }

  lemma {:induction false} KeptHasRecord(o: Outside, entries: seq<Entry>, i: nat) returns (k: nat)
    requires Listed(entries) && i < |entries| && Kept(entries[i])
    ensures k < |Records(o, entries)| && Records(o, entries)[k].path == PathOf(entries[i])
  {
    var n := |entries| - 1;
    if i < n {
      k := KeptHasRecord(o, entries[..n], i);
    } else {
      k := |Records(o, entries[..n])|;
    }
  }

  lemma {:induction false} RecordsDistinct(o: Outside, entries: seq<Entry>)
    requires Listed(entries)
    ensures DistinctPaths(Records(o, entries))
  {
    if |entries| == 0 {
    } else {
      var n := |entries| - 1;
      var init, e := entries[..n], entries[n];
      var rest := Records(o, init);
      RecordsDistinct(o, init);
      forall k | 0 <= k < |rest| ensures Kept(e) ==> rest[k].path != PathOf(e) {
        var i := RecordIsKept(o, init, k);
        if PathOf(init[i]) == PathOf(e) {
          PathOfInjective(init[i], e);
        }
      }
    }
  }

  /** Entry e stands in the directory under its backup path. */
  predicate Holds(dir: Dir, e: Entry)
    requires Kept(e)
  {
    PathOf(e) in dir && dir[PathOf(e)] == Regular(e.kind.data)
  }

  lemma PublishedHolds(o: Outside, db: Bytes, entries: seq<Entry>, sealed: Option<Bytes>, env: Env)
    requires Listed(entries)
    ensures var dir := Published(o, db, entries, sealed, env);
            && MANIFEST in dir
            && dir[MANIFEST] == Regular(o.encode(ManifestFor(env, sealed.Some?, FilesFor(o, db, entries, sealed))))
            && DATABASE in dir && dir[DATABASE] == Regular(db)
            && (sealed.Some? ==> SealedPath() in dir && dir[SealedPath()] == Regular(sealed.value))
            && (forall i | 0 <= i < |entries| && Kept(entries[i]) :: Holds(dir, entries[i]))
  {
    FixedNames();
    SealedShape();
    forall i | 0 <= i < |entries| && Kept(entries[i])
      ensures Holds(Published(o, db, entries, sealed, env), entries[i])
    {
      CopiedHas(entries, i);
      PathOfShape(entries[i]);
      KeptIsNotSealed(entries[i]);
    }
  }

  /** The record describes the file that stands at its path. */
  predicate Describes(o: Outside, dir: Dir, f: Record) {
    f.path in dir && dir[f.path].Regular? && f == Describe(o, f.path, dir[f.path].data)
  }

  /** One database record, then artifact records. */
  predicate Inventory(files: seq<Record>) {
    |files| > 0 && files[0].path == DATABASE && forall k | 1 <= k < |files| :: IsArtifact(files[k].path)
  }

  /** The inventory row by row. */
  lemma FilesRows(o: Outside, db: Bytes, entries: seq<Entry>, sealed: Option<Bytes>)
    requires Listed(entries)
    ensures var files, records := FilesFor(o, db, entries, sealed), Records(o, entries);
            && |files| == |records| + (if sealed.Some? then 2 else 1)
            && files[0] == Describe(o, DATABASE, db)
            && (forall k | 1 <= k <= |records| :: files[k] == records[k - 1])
            && (sealed.Some? ==> files[|records| + 1] == Describe(o, SealedPath(), sealed.value))
  {
  }

  lemma FileDescribes(o: Outside, db: Bytes, entries: seq<Entry>, sealed: Option<Bytes>, env: Env, k: nat)
    requires Listed(entries) && k < |FilesFor(o, db, entries, sealed)|
    ensures Describes(o, Published(o, db, entries, sealed, env), FilesFor(o, db, entries, sealed)[k])
    ensures k > 0 ==> IsArtifact(FilesFor(o, db, entries, sealed)[k].path)
  {
    PublishedHolds(o, db, entries, sealed, env);
    FilesRows(o, db, entries, sealed);
    if 0 < k <= |Records(o, entries)| {
      var i := RecordIsKept(o, entries, k - 1);
      PathOfShape(entries[i]);
      assert Holds(Published(o, db, entries, sealed, env), entries[i]);
    } else {
      SealedShape();
    }
  }

  lemma FilesDescribe(o: Outside, db: Bytes, entries: seq<Entry>, sealed: Option<Bytes>, env: Env)
    requires Listed(entries)
    ensures var files := FilesFor(o, db, entries, sealed);
            Inventory(files) && forall k | 0 <= k < |files| ::
                Describes(o, Published(o, db, entries, sealed, env), files[k])
  {
    var files := FilesFor(o, db, entries, sealed);
    FilesRows(o, db, entries, sealed);
    forall k | 0 <= k < |files|
      ensures Describes(o, Published(o, db, entries, sealed, env), files[k]) && (k > 0 ==> IsArtifact(files[k].path))
    {
      FileDescribes(o, db, entries, sealed, env, k);
    }
  }

  lemma FilesDistinct(o: Outside, db: Bytes, entries: seq<Entry>, sealed: Option<Bytes>)
    requires Listed(entries)
    ensures DistinctPaths(FilesFor(o, db, entries, sealed))
  {
    RecordsDistinct(o, entries);
    FixedNames();
    SealedShape();
    FilesRows(o, db, entries, sealed);
    var records := Records(o, entries);
    forall k | 0 <= k < |records| ensures records[k].path != SealedPath() && records[k].path != DATABASE {
      var i := RecordIsKept(o, entries, k);
      PathOfShape(entries[i]);
      KeptIsNotSealed(entries[i]);
    }
  }

  /** Nothing is published that has no record. */
  lemma FilesComplete(o: Outside, db: Bytes, entries: seq<Entry>, sealed: Option<Bytes>, env: Env, p: string)
    requires Listed(entries) && p in Published(o, db, entries, sealed, env) && p != MANIFEST
    ensures HasRecord(FilesFor(o, db, entries, sealed), p)
  {
    var files, records := FilesFor(o, db, entries, sealed), Records(o, entries);
    FilesRows(o, db, entries, sealed);
    if p == DATABASE {
      assert files[0].path == p;
    } else if sealed.Some? && p == SealedPath() {
      assert files[|records| + 1].path == p;
    } else {
      var i := CopiedOnly(entries, p);
      var k := KeptHasRecord(o, entries, i);
      assert files[k + 1].path == p;
    }
  }

  lemma {:induction false} InventoryCounts(files: seq<Record>)
    requires Inventory(files)
    ensures DatabaseRecords(files) == 1 && ArtifactRecords(files) == |files| - 1
  {
    FixedNames();
    var init := files[..|files| - 1];
    if |files| > 1 {
      assert forall k | 0 <= k < |init| :: init[k] == files[k];
      InventoryCounts(init);
    } else {
      assert init == [];
    }
  }

  /** Every path that goes into the backup passes the check that verification makes. */
  predicate AllSafe(entries: seq<Entry>) {
    forall i | 0 <= i < |entries| && Kept(entries[i]) :: SafePath(entries[i].path)
  }

  /** What holds of the two fixed paths and of every kept path holds of every record's path, and the other way round. */
  lemma FilesAll(o: Outside, db: Bytes, entries: seq<Entry>, sealed: Option<Bytes>, ok: string -> bool)
    requires Listed(entries) && ok(DATABASE) && ok(SealedPath())
    ensures var files := FilesFor(o, db, entries, sealed);
            (forall k | 0 <= k < |files| :: ok(files[k].path)) <==>
            (forall i | 0 <= i < |entries| && Kept(entries[i]) :: ok(PathOf(entries[i])))
  {
    var files, records := FilesFor(o, db, entries, sealed), Records(o, entries);
    FilesRows(o, db, entries, sealed);
    if forall i | 0 <= i < |entries| && Kept(entries[i]) :: ok(PathOf(entries[i])) {
      forall k | 1 <= k <= |records| ensures ok(files[k].path) {
        var i := RecordIsKept(o, entries, k - 1);
      }
    }
    if forall k | 0 <= k < |files| :: ok(files[k].path) {
      forall i | 0 <= i < |entries| && Kept(entries[i]) ensures ok(PathOf(entries[i])) {
        var k := KeptHasRecord(o, entries, i);
        assert files[k + 1] == records[k];
      }
    }
  }

  lemma FilesValidExactly(o: Outside, db: Bytes, entries: seq<Entry>, sealed: Option<Bytes>)
    requires Listed(entries)
    ensures var files := FilesFor(o, db, entries, sealed);
            (forall k | 0 <= k < |files| :: ValidRelativePath(files[k].path)) <==> AllSafe(entries)
  {
    DatabasePathValid();
    SealedPathValid();
    FilesAll(o, db, entries, sealed, ValidRelativePath);
    forall i | 0 <= i < |entries| && Kept(entries[i])
      ensures ValidRelativePath(PathOf(entries[i])) <==> SafePath(entries[i].path)
    {
      KeptPathValid(entries[i]);
    }
  }

  /**
    A published backup is accepted exactly when the database it copied passes
    its own checks and no kept path turns unsafe once backslashes count as
    slashes, such as a file named "..\\x.bin".
   */
  lemma PublishedAcceptedExactly(o: Outside, db: Bytes, entries: seq<Entry>, sealed: Option<Bytes>, env: Env)
    requires Listed(entries) && Lawful(o, env)
    ensures Accepts(o, Published(o, db, entries, sealed, env)) <==> o.sound(db) && AllSafe(entries)
  {
    var dir, files := Published(o, db, entries, sealed, env), FilesFor(o, db, entries, sealed);
    var m := ManifestFor(env, sealed.Some?, files);
    PublishedHolds(o, db, entries, sealed, env);
    assert ReadManifest(o, dir) == Some(m);
    ManifestForOk(o, db, entries, sealed, env);
    FilesValidExactly(o, db, entries, sealed);
    FilesDescribe(o, db, entries, sealed, env);
    FilesDistinct(o, db, entries, sealed);
    forall p | p in dir && p != MANIFEST ensures HasRecord(files, p) {
      FilesComplete(o, db, entries, sealed, env, p);
    }
    assert OneToOne(o, dir, files) <==> forall k | 0 <= k < |files| :: ValidRelativePath(files[k].path) by {
      assert forall k | 0 <= k < |files| :: Describes(o, dir, files[k]);
    }
  }

  lemma ManifestForOk(o: Outside, db: Bytes, entries: seq<Entry>, sealed: Option<Bytes>, env: Env)
    requires Listed(entries) && Lawful(o, env)
    ensures ManifestOk(o, ManifestFor(env, sealed.Some?, FilesFor(o, db, entries, sealed)))
  {
    var files := FilesFor(o, db, entries, sealed);
    FilesDescribe(o, db, entries, sealed, env);
    InventoryCounts(files);
    FilesRows(o, db, entries, sealed);
    if sealed.Some? {
      assert files[|files| - 1].path == SealedPath();
    }
  }

  /** A file whose name climbs once its backslash counts as a slash is backed up, and the backup is never accepted. */
  lemma BackslashNameIsRejected(o: Outside, db: Bytes, data: Bytes, sealed: Option<Bytes>, env: Env)
    requires Lawful(o, env)
    ensures var entries := [Entry(["..\\x.bin"], File(data))];
            Listed(entries) && Kept(entries[0]) && !Accepts(o, Published(o, db, entries, sealed, env))
  {
    var name := "..\\x.bin";
    var entries := [Entry([name], File(data))];
    KeptMeansBin(entries[0]);
    assert Plain(name) by { assert name[2] != ".."[1]; }
    assert Normalise(name) == "../x.bin";
    FirstSegment("..", Normalise(name));
    assert !Plain(Split(Normalise(name))[0]);
    PublishedAcceptedExactly(o, db, entries, sealed, env);
    assert Kept(entries[0]) && !SafePath(entries[0].path);
  }
}
