/**
  What a backup holds: copying the artifact tree, publishing with a manifest,
  verifying a backup directory against its manifest, and reading it back.
 */
module Backup {
  import opened Common
  import opened Paths

  type Bytes = seq<nat>

  datatype Record = Record(path: string, size: int, hash: string)

  datatype Manifest = Manifest(
    version: int, createdAt: string, database: string, artifactsDir: string, artifactFiles: int, encryptionKey: string,
    keyRecovery: string, files: seq<Record>)

  /** A file of a backup directory; a link may lead to readable bytes. */
  datatype Node = Regular(data: Bytes) | Link(target: Option<Bytes>)

  /** A backup directory, by slash path. */
  type Dir = map<string, Node>

  datatype Kind = File(data: Bytes) | Directory | Symlink

  /** One entry below the artifact directory, by the names that lead to it. */
  datatype Entry = Entry(path: seq<string>, kind: Kind)

  datatype Source = Absent | Tree(entries: seq<Entry>)

  /** Hashing, encoding, encryption, the database's own checks and the time format. */
  datatype Outside = Outside(
    hash: Bytes -> string, encode: Manifest -> Bytes, parse: Bytes -> Option<Manifest>, sound: Bytes -> bool,
    dated: string -> bool, seal: (Bytes, Bytes) -> Bytes, unseal: (Bytes, Bytes) -> Option<Bytes>)

  /** ARTIFACT_ENCRYPTION_KEY set or not, the decoded BACKUP_ENCRYPTION_KEY, and the time of the backup. */
  datatype Env = Env(artifactKeySet: bool, backupKey: Option<Bytes>, createdAt: string)

  const DATABASE := "svrtools.db"
  const ARTIFACTS := "artifacts"
  const KEY_NAME := ".key"
  const SEALED_NAME := ".key.enc"
  const MANIFEST := "manifest.json"
  const GUIDANCE := "key recovery"

  function SealedPath(): string { Join([ARTIFACTS, SEALED_NAME]) }

  lemma SealedIsNoManifest()
    ensures SealedPath() != MANIFEST
  {
    assert SealedPath()[0] == ARTIFACTS[0] && ARTIFACTS[0] != MANIFEST[0];
  }

  predicate IsArtifact(path: string) { HasPrefix(path, "artifacts/") }

  predicate HexDigit(c: char) { '0' <= c <= '9' || 'a' <= c <= 'f' || 'A' <= c <= 'F' }

  predicate IsHash(h: string) { |h| == 64 && forall i | 0 <= i < |h| :: HexDigit(h[i]) }

  /** What the outside world promises. */
  ghost predicate Lawful(o: Outside, env: Env) {
    && (forall b: Bytes :: IsHash(o.hash(b)))
    && (forall m: Manifest :: o.parse(o.encode(m)) == Some(m))
    && (forall key: Bytes, wrap: Bytes :: o.unseal(o.seal(key, wrap), wrap) == Some(key))
    && env.createdAt != "" && o.dated(env.createdAt)
  }

  // ---- Creating ----

  function Ext(name: string): string {
    if name == "" then ""
    else if name[|name| - 1] == '.' then "."
    else
      var e := Ext(name[..|name| - 1]);
      if e == "" then "" else e + [name[|name| - 1]]
  }

  predicate Kept(e: Entry) {
    |e.path| > 0 && e.kind.File? && e.path[|e.path| - 1] != KEY_NAME && Ext(e.path[|e.path| - 1]) == ".bin"
  }

  function PathOf(e: Entry): string { Join([ARTIFACTS] + e.path) }

  function Describe(o: Outside, path: string, data: Bytes): Record { Record(path, |data|, o.hash(data)) }

  /** A directory walk: names are proper, and no two entries share a path. */
  predicate Listed(entries: seq<Entry>) {
    && (forall i | 0 <= i < |entries| :: |entries[i].path| > 0 && AllPlain(entries[i].path))
    && (forall i, j | 0 <= i < j < |entries| :: entries[i].path != entries[j].path)
  }

  /** The kept files under their backup paths. */
  function Copied(entries: seq<Entry>): map<string, Bytes>
    requires Listed(entries)
  {
    if |entries| == 0 then map[]
    else
      var e := entries[|entries| - 1];
      var rest := Copied(entries[..|entries| - 1]);
      if Kept(e) then rest[PathOf(e) := e.kind.data] else rest
  }

  function Records(o: Outside, entries: seq<Entry>): seq<Record>
    requires Listed(entries)
  {
    if |entries| == 0 then []
    else
      var e := entries[|entries| - 1];
      var rest := Records(o, entries[..|entries| - 1]);
      if Kept(e) then rest + [Describe(o, PathOf(e), e.kind.data)] else rest
  }

  predicate NoLinks(entries: seq<Entry>) { forall i | 0 <= i < |entries| :: !entries[i].kind.Symlink? }

  /** The walk stops at a symbolic link. */
  method CopyTree(o: Outside, entries: seq<Entry>) returns (ok: bool, copied: map<string, Bytes>, files: seq<Record>)
    requires Listed(entries)
    ensures ok == NoLinks(entries)
    ensures ok ==> copied == Copied(entries) && files == Records(o, entries)
  {
    ok, copied, files := true, map[], [];
    for i := 0 to |entries|
      invariant ok && NoLinks(entries[..i]) && copied == Copied(entries[..i]) && files == Records(o, entries[..i])
    {
      var e := entries[i];
      assert entries[..i + 1][..i] == entries[..i];
      if e.kind.Symlink? {
        return false, copied, files;
      }
      if e.kind.File? && e.path[|e.path| - 1] != KEY_NAME && Ext(e.path[|e.path| - 1]) == ".bin" {
        copied := copied[PathOf(e) := e.kind.data];
        files := files + [Describe(o, PathOf(e), e.kind.data)];
      }
    }
    assert entries[..|entries|] == entries;
  }

  /** What reading the key file of the artifact directory gives. */
  datatype KeyRead = NoKey | Unreadable | Key(data: Bytes)

  function ReadKey(entries: seq<Entry>): KeyRead {
    if |entries| == 0 then NoKey
    else
      var e := entries[|entries| - 1];
      if e.path != [KEY_NAME] then ReadKey(entries[..|entries| - 1])
      else if e.kind.File? then Key(e.kind.data)
      else Unreadable
  }

  /** The key file is found by its path, and a walk meets it at most once. */
  lemma {:induction false} ReadKeyExactly(entries: seq<Entry>)
    requires Listed(entries)
    ensures ReadKey(entries).NoKey? <==> forall i | 0 <= i < |entries| :: entries[i].path != [".key"]
    ensures forall i | 0 <= i < |entries| && entries[i].path == [".key"] ::
              ReadKey(entries) == if entries[i].kind.File? then Key(entries[i].kind.data) else Unreadable
  {
    if |entries| == 0 {
    } else {
      var init := entries[..|entries| - 1];
      assert forall i | 0 <= i < |init| :: init[i] == entries[i];
      ReadKeyExactly(init);
    }
  }

  function EntriesOf(source: Source): seq<Entry> { if source.Absent? then [] else source.entries }

  /** The key that goes into the backup sealed; None when the backup cannot be made. */
  function Enveloped(source: Source, env: Env): Option<Option<Bytes>> {
    match ReadKey(EntriesOf(source))
    case NoKey => Some(None)
    case Unreadable => None
    case Key(data) =>
      if env.artifactKeySet then Some(None)
      else if |data| != 32 || env.backupKey.None? then None
      else Some(Some(data))
  }

  /** The sealed key as BackupOf makes it. */
  function SealedKey(o: Outside, source: Source, env: Env): Option<Bytes> {
    var key := Enveloped(source, env);
    if key.Some? && key.value.Some? && env.backupKey.Some? then Some(o.seal(key.value.value, env.backupKey.value))
        else None
  }

  function Regulars(files: map<string, Bytes>): Dir { map p | p in files :: Regular(files[p]) }

  function ManifestFor(env: Env, sealed: bool, files: seq<Record>): Manifest {
    Manifest(1, env.createdAt, DATABASE, ARTIFACTS, |files| - 1, if sealed then SealedPath() else "", GUIDANCE, files)
  }

  function FilesFor(o: Outside, db: Bytes, entries: seq<Entry>, sealed: Option<Bytes>): seq<Record>
    requires Listed(entries)
  {
    var files := [Describe(o, DATABASE, db)] + Records(o, entries);
    if sealed.Some? then files + [Describe(o, SealedPath(), sealed.value)] else files
  }

  /** The published directory. */
  function Published(o: Outside, db: Bytes, entries: seq<Entry>, sealed: Option<Bytes>, env: Env): Dir
    requires Listed(entries)
  {
    var m := ManifestFor(env, sealed.Some?, FilesFor(o, db, entries, sealed));
    var dir := Regulars(Copied(entries))[DATABASE := Regular(db)];
    (if sealed.Some? then dir[SealedPath() := Regular(sealed.value)] else dir)[MANIFEST := Regular(o.encode(m))]
  }

  /** db is what VACUUM INTO wrote. */
  function BackupOf(o: Outside, db: Bytes, source: Source, env: Env): Option<Dir>
    requires Listed(EntriesOf(source))
  {
    if !NoLinks(EntriesOf(source)) || Enveloped(source, env).None? then None
    else Some(Published(o, db, EntriesOf(source), SealedKey(o, source, env), env))
  }

  /** The key file stops a backup: unreadable, or to be sealed and of the wrong length or without a wrapping key. */
  predicate KeyStops(e: Entry, env: Env) {
    && e.path == [".key"]
    && (!e.kind.File? || (!env.artifactKeySet && (|e.kind.data| != 32 || env.backupKey.None?)))
  }

  /**
    Nothing is published exactly when there is a symbolic link or the key file
    stops it; the sealed key is there exactly when there is a key file and no key is configured.
   */
  method CreateBackup(o: Outside, db: Bytes, source: Source, env: Env) returns (published: Option<Dir>)
    requires Listed(EntriesOf(source))
    ensures published == BackupOf(o, db, source, env)
    ensures published.None? <==>
              && source.Tree?
              && exists i | 0 <= i < |source.entries| ::
                   source.entries[i].kind.Symlink? || KeyStops(source.entries[i], env)
    ensures published.Some? && source.Tree? && !env.artifactKeySet ==>
              forall i | 0 <= i < |source.entries| && source.entries[i].path == [".key"] ::
                && SealedPath() in published.value && source.entries[i].kind.File? && env.backupKey.Some?
                && published.value[SealedPath()]
                     == Regular(o.seal(source.entries[i].kind.data, env.backupKey.value))
  {
    ReadKeyExactly(EntriesOf(source));
    SealedIsNoManifest();
    var ok, copied, artifactFiles := CopyTree(o, EntriesOf(source));
    if !ok {
      return None;
    }
    var files := [Describe(o, DATABASE, db)] + artifactFiles;
    var dir := Regulars(copied)[DATABASE := Regular(db)];
    var encryptionKey := false;
    var key := ReadKey(EntriesOf(source));
    if key.Unreadable? {
      return None;
    }
    if key.Key? && !env.artifactKeySet {
      if |key.data| != 32 || env.backupKey.None? {
        return None;
      }
      var sealed := o.seal(key.data, env.backupKey.value);
      dir := dir[SealedPath() := Regular(sealed)];
      files := files + [Describe(o, SealedPath(), sealed)];
      encryptionKey := true;
    }
    return Some(dir[MANIFEST := Regular(o.encode(ManifestFor(env, encryptionKey, files)))]);
  }

  // ---- Verifying ----

  function DatabaseRecords(files: seq<Record>): nat {
    if |files| == 0 then 0
    else DatabaseRecords(files[..|files| - 1]) + if files[|files| - 1].path == DATABASE then 1 else 0
  }

  function ArtifactRecords(files: seq<Record>): nat {
    if |files| == 0 then 0
    else ArtifactRecords(files[..|files| - 1]) + if IsArtifact(files[|files| - 1].path) then 1 else 0
  }

  predicate HeaderOk(o: Outside, m: Manifest) {
    && m.version == 1 && m.database == DATABASE && m.artifactsDir == ARTIFACTS
    && m.createdAt != "" && o.dated(m.createdAt) && m.artifactFiles >= 0
    && (m.encryptionKey == "" || (m.encryptionKey == SealedPath() && m.keyRecovery != ""))
  }

  predicate RecordOk(f: Record) { f.size >= 0 && IsHash(f.hash) }

  predicate HasRecord(files: seq<Record>, path: string) { exists i :: 0 <= i < |files| && files[i].path == path }

  predicate ManifestOk(o: Outside, m: Manifest) {
    && HeaderOk(o, m)
    && (forall i | 0 <= i < |m.files| :: RecordOk(m.files[i]))
    && DatabaseRecords(m.files) == 1 && ArtifactRecords(m.files) == m.artifactFiles
    && (m.encryptionKey != "" ==> HasRecord(m.files, m.encryptionKey))
  }

  lemma RecordsOkExactly(files: seq<Record>)
    ensures forall i | 0 <= i < |files| ::
              RecordOk(files[i]) <==>
                && files[i].size >= 0 && |files[i].hash| == 64
                && forall c | c in files[i].hash :: '0' <= c <= '9' || 'a' <= c <= 'f' || 'A' <= c <= 'F'
  {
    forall i | 0 <= i < |files|
      ensures IsHash(files[i].hash) <==>
                && |files[i].hash| == 64
                && forall c | c in files[i].hash :: '0' <= c <= '9' || 'a' <= c <= 'f' || 'A' <= c <= 'F'
    {
      assert forall j | 0 <= j < |files[i].hash| :: files[i].hash[j] in files[i].hash;
    }
  }

  lemma DatabaseIsNoArtifact()
    ensures !IsArtifact(DATABASE)
  {
    assert DATABASE[0] != "artifacts/"[0];
  }

  method ContainsManifestPath(files: seq<Record>, wanted: string) returns (found: bool)
    ensures found == HasRecord(files, wanted)
  {
    for i := 0 to |files|
      invariant forall j | 0 <= j < i :: files[j].path != wanted
    {
      if files[i].path == wanted {
        return true;
      }
    }
    return false;
  }

  method ValidateManifest(o: Outside, m: Manifest) returns (ok: bool)
    ensures ok == ManifestOk(o, m)
    ensures ok <==>
              && m.version == 1 && m.database == "svrtools.db" && m.artifactsDir == "artifacts"
              && m.createdAt != "" && o.dated(m.createdAt) && m.artifactFiles >= 0
              && m.artifactFiles == ArtifactRecords(m.files) && DatabaseRecords(m.files) == 1
              && (m.encryptionKey == ""
                  || (m.encryptionKey == SealedPath() && m.keyRecovery != ""
                      && exists i :: 0 <= i < |m.files| && m.files[i].path == SealedPath()))
              && (forall i | 0 <= i < |m.files| ::
                    && m.files[i].size >= 0 && |m.files[i].hash| == 64
                    && forall c | c in m.files[i].hash :: '0' <= c <= '9' || 'a' <= c <= 'f' || 'A' <= c <= 'F')
  {
    RecordsOkExactly(m.files);
    if !HeaderOk(o, m) {
      return false;
    }
    var databaseRecords, artifactRecords := 0, 0;
    for i := 0 to |m.files|
      invariant databaseRecords == DatabaseRecords(m.files[..i]) && artifactRecords == ArtifactRecords(m.files[..i])
      invariant forall j | 0 <= j < i :: RecordOk(m.files[j])
    {
      var f := m.files[i];
      assert m.files[..i + 1][..i] == m.files[..i];
      DatabaseIsNoArtifact();
      if f.path == DATABASE {
        databaseRecords := databaseRecords + 1;
      } else if IsArtifact(f.path) {
        artifactRecords := artifactRecords + 1;
      }
      if !RecordOk(f) {
        return false;
      }
    }
    assert m.files[..|m.files|] == m.files;
    if databaseRecords != 1 || artifactRecords != m.artifactFiles {
      return false;
    }
    if m.encryptionKey == "" {
      return true;
    }
    ok := ContainsManifestPath(m.files, m.encryptionKey);
  }

  /** The record's path is safe and the file there is the one described. */
  predicate Matches(o: Outside, dir: Dir, f: Record) {
    && ValidRelativePath(f.path)
    && f.path in dir && dir[f.path].Regular?
    && f.size == |dir[f.path].data| && f.hash == o.hash(dir[f.path].data)
  }

  predicate DistinctPaths(files: seq<Record>) { forall i, j | 0 <= i < j < |files| :: files[i].path != files[j].path }

  /** Records and files, the manifest aside, are the same names, each once, and agree. */
  predicate OneToOne(o: Outside, dir: Dir, files: seq<Record>) {
    && DistinctPaths(files)
    && (forall i | 0 <= i < |files| :: Matches(o, dir, files[i]))
    && (forall p | p in dir && p != MANIFEST :: HasRecord(files, p))
  }

  function ReadManifest(o: Outside, dir: Dir): Option<Manifest> {
    if MANIFEST !in dir then None
    else match dir[MANIFEST]
         case Regular(data) => o.parse(data)
         case Link(target) => if target.None? then None else o.parse(target.value)
  }

  predicate DatabaseSound(o: Outside, dir: Dir) {
    DATABASE in dir && dir[DATABASE].Regular? && o.sound(dir[DATABASE].data)
  }

  predicate Accepts(o: Outside, dir: Dir) {
    var m := ReadManifest(o, dir);
    m.Some? && ManifestOk(o, m.value) && OneToOne(o, dir, m.value.files) && DatabaseSound(o, dir)
  }

  /** One pass over the records, with the paths met so far. */
  method VerifyRecords(o: Outside, dir: Dir, files: seq<Record>) returns (ok: bool, seen: set<string>)
    ensures ok == (DistinctPaths(files) && forall i | 0 <= i < |files| :: Matches(o, dir, files[i]))
    ensures ok ==> forall p :: p in seen <==> HasRecord(files, p)
  {
    seen := {};
    for i := 0 to |files|
      invariant forall p | p in seen :: exists j :: 0 <= j < i && files[j].path == p
      invariant forall j | 0 <= j < i :: files[j].path in seen && Matches(o, dir, files[j])
      invariant forall j, k | 0 <= j < k < i :: files[j].path != files[k].path
    {
      if files[i].path in seen {
        return false, seen;
      }
      var matches := Matches(o, dir, files[i]);
      if !matches {
        return false, seen;
      }
      seen := seen + {files[i].path};
    }
    ok := true;
  }

  method VerifyBackup(o: Outside, dir: Dir) returns (ok: bool)
    ensures ok == Accepts(o, dir)
  {
    var m := ReadManifest(o, dir);
    if m.None? {
      return false;
    }
    var valid := ValidateManifest(o, m.value);
    if !valid {
      return false;
    }
    var seen;
    ok, seen := VerifyRecords(o, dir, m.value.files);
    if !ok || !DatabaseSound(o, dir) {
      return false;
    }
    var extras := set p | p in dir && p != MANIFEST && p !in seen;
    assert extras == {} <==> forall p | p in dir && p != MANIFEST :: p in seen by {
      assert forall p | p in dir && p != MANIFEST && p !in seen :: p in extras;
    }
    return extras == {};
  }

  // ---- Reading back ----

  /** The restored database and artifact files, by path below the artifact directory. */
  datatype Restoration = Restoration(db: Bytes, artifacts: map<string, Bytes>)

  predicate Readable(dir: Dir, files: seq<Record>) {
    forall i | 0 <= i < |files| :: files[i].path in dir && dir[files[i].path].Regular?
  }

  /** The files a restore copies: every artifact record but the sealed key's. */
  function Restored(dir: Dir, files: seq<Record>, encryptionKey: string): map<string, Bytes>
    requires Readable(dir, files)
  {
    if |files| == 0 then map[]
    else
      var f := files[|files| - 1];
      var rest := Restored(dir, files[..|files| - 1], encryptionKey);
      if IsArtifact(f.path) && !(f.path == encryptionKey && encryptionKey == SealedPath())
      then rest[f.path[|"artifacts/"|..] := dir[f.path].data]
      else rest
  }

  function Unsealed(o: Outside, sealed: Node, backupKey: Option<Bytes>): Option<Bytes> {
    if backupKey.None? || !sealed.Regular? then None
    else
      var key := o.unseal(sealed.data, backupKey.value);
      if key.Some? && |key.value| != 32 then None else key
  }

  /** What a restore puts in place, when it gets that far. */
  function Restoring(o: Outside, dir: Dir, backupKey: Option<Bytes>): Option<Restoration> {
    if !Accepts(o, dir) then None
    else
      var m := ReadManifest(o, dir).value;
      var files := Restored(dir, m.files, m.encryptionKey);
      if m.encryptionKey == SealedPath() then
        var key := Unsealed(o, dir[SealedPath()], backupKey);
        if key.None? then None else Some(Restoration(dir[DATABASE].data, files[KEY_NAME := key.value]))
      else Some(Restoration(dir[DATABASE].data, files))
  }

  method CopyArtifacts(dir: Dir, listed: seq<Record>, encryptionKey: string) returns (files: map<string, Bytes>)
    requires Readable(dir, listed)
    ensures files == Restored(dir, listed, encryptionKey)
  {
    files := map[];
    for i := 0 to |listed|
      invariant files == Restored(dir, listed[..i], encryptionKey)
    {
      var f := listed[i];
      assert listed[..i + 1][..i] == listed[..i];
      if IsArtifact(f.path) {
        if f.path == encryptionKey && encryptionKey == SealedPath() {
          continue;
        }
        files := files[f.path[|"artifacts/"|..] := dir[f.path].data];
      }
    }
    assert listed[..|listed|] == listed;
  }

  /** Nothing is put in place unless the backup is accepted and its sealed key, if any, opens to 32 bytes. */
  method RestoreContents(o: Outside, dir: Dir, backupKey: Option<Bytes>) returns (restored: Option<Restoration>)
    ensures restored == Restoring(o, dir, backupKey)
    ensures restored.Some? <==>
              && Accepts(o, dir)
              && (ReadManifest(o, dir).value.encryptionKey != "" ==>
                    && backupKey.Some? && SealedPath() in dir && dir[SealedPath()].Regular?
                    && var key := o.unseal(dir[SealedPath()].data, backupKey.value);
                    key.Some? && |key.value| == 32)
    ensures restored.Some? ==> DATABASE in dir && dir[DATABASE] == Regular(restored.value.db)
  {
    var accepted := VerifyBackup(o, dir);
    if !accepted {
      return None;
    }
    var m := ReadManifest(o, dir).value;
    var db := dir[DATABASE].data;
    var files := CopyArtifacts(dir, m.files, m.encryptionKey);
    if m.encryptionKey == SealedPath() {
      var key := Unsealed(o, dir[SealedPath()], backupKey);
      if key.None? {
        return None;
      }
      files := files[KEY_NAME := key.value];
    }
    if !o.sound(db) {
      return None;
    }
    return Some(Restoration(db, files));
  }
}
