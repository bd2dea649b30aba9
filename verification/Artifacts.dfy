/**
  Moving artifacts between the local store and an object store: migration,
  verification of a manifest, and restore, when any call may fail.
 */
module Artifacts {
  import opened Common
  import opened Paths

  type Bytes = seq<nat>
  type Id = string
  type Hash = Bytes -> string

  /** A stored object; Damaged is one whose decryption or checksum fails. */
  datatype Object = Good(contentType: string, data: Bytes) | Damaged

  /** A call that fails may fail before or after it took effect. */
  datatype Fault = Works | Before | After

  datatype Got = Found(data: Bytes) | NotFound | Failed

  /** An encrypted file is bound to the id it was written for. */
  datatype Content = Sealed(id: Id, data: Bytes) | Garbage

  datatype Node = File(content: Content) | Link(content: Content) | Directory

  /** The local artifact directory, by file name. */
  type Files = map<string, Node>

  datatype Entry = Entry(id: Id, contentType: string, size: int, hash: string)

  datatype Manifest = Manifest(version: int, entries: seq<Entry>)

  predicate ForbiddenChar(c: char) {
    c == '\\' || c == '\0' || c == '\r' || c == '\n' || c == '?' || c == '#' || c == '%'
  }

  predicate ValidId(id: Id) {
    && id != "" && id[0] != '/' && (forall i | 0 <= i < |id| :: !ForbiddenChar(id[i]))
    && AllPlain(Split(id))
  }

  /** Any text without the forbidden characters whose every segment between slashes is a proper name. */
  lemma ValidIdExactly(id: Id)
    ensures ValidId(id) <==>
              && (forall c | c in id :: c !in {'\\', '\0', '\r', '\n', '?', '#', '%'})
              && (forall i | 0 <= i < |Split(id)| :: Split(id)[i] != "" && Split(id)[i] != "." && Split(id)[i] != "..")
  {
    SplitParts(id);
    assert forall i | 0 <= i < |Split(id)| :: NoSlash(Split(id)[i]);
    assert forall i | 0 <= i < |id| :: id[i] in id;
    if id != "" && id[0] == '/' {
      assert Split(id)[0] == "";
    }
    if id == "" {
      assert Split(id)[0] == "";
    }
  }

  /** Local files are named by the last segment of the id alone. */
  function Base(id: Id): string { Split(id)[|Split(id)| - 1] }

  function FileName(id: Id): string { Base(id) + ".bin" }

  function LocalRead(files: Files, id: Id): Option<Bytes> {
    if !ValidId(id) || FileName(id) !in files then None
    else match files[FileName(id)]
         case Directory => None
         case node => if node.content.Sealed? && node.content.id == id then Some(node.content.data) else None
  }

  function ObjectRead(objects: map<Id, Object>, id: Id): Got {
    if !ValidId(id) then Failed
    else if id !in objects then NotFound
    else if objects[id].Damaged? then Failed
    else Found(objects[id].data)
  }

  class S3Store {
    var objects: map<Id, Object>
    var calls: nat
    const faults: nat -> Fault

    constructor (objects: map<Id, Object>, faults: nat -> Fault)
      ensures this.objects == objects && this.faults == faults && calls == 0
    {
      this.objects, this.faults, calls := objects, faults, 0;
    }

    ghost predicate Reliable() { forall n :: faults(n) == Works }

    method Get(id: Id) returns (got: Got)
      modifies this`calls
      ensures got in {ObjectRead(objects, id), Failed}
      ensures Reliable() ==> got == ObjectRead(objects, id)
    {
      var fault := faults(calls);
      calls := calls + 1;
      return if fault.Works? then ObjectRead(objects, id) else Failed;
    }

    method Put(id: Id, contentType: string, data: Bytes) returns (ok: bool)
      modifies this
      ensures objects in {old(objects), old(objects)[id := Good(contentType, data)]}
      ensures ok ==> ValidId(id) && objects == old(objects)[id := Good(contentType, data)]
      ensures !ValidId(id) ==> objects == old(objects)
      ensures Reliable() && ValidId(id) ==> ok
    {
      if !ValidId(id) {
        return false;
      }
      var fault := faults(calls);
      calls := calls + 1;
      if !fault.Before? {
        objects := objects[id := Good(contentType, data)];
      }
      return fault.Works?;
    }
  }

  class LocalStore {
    var files: Files

    constructor (files: Files)
      ensures this.files == files
    {
      this.files := files;
    }

    /** The write goes to a temporary file that is renamed over the old one. */
    method Put(id: Id, data: Bytes, fault: bool) returns (ok: bool)
      modifies this
      ensures ok == (ValidId(id) && !fault && !(FileName(id) in old(files) && old(files)[FileName(id)].Directory?))
      ensures files == if ok then old(files)[FileName(id) := File(Sealed(id, data))] else old(files)
    {
      ok := ValidId(id) && !fault && !(FileName(id) in files && files[FileName(id)].Directory?);
      if ok {
        files := files[FileName(id) := File(Sealed(id, data))];
      }
    }
  }

  // ---- Migration ----

  const BIN := ".bin"

  predicate IsBin(name: string) { |name| >= 4 && name[|name| - 4..] == BIN }

  function IdOf(name: string): Id
    requires IsBin(name)
  {
    name[..|name| - 4]
  }

  /** The files a migration reads: regular ones with the artifact suffix. */
  predicate IsArtifactFile(files: Files, name: string) { IsBin(name) && name in files && files[name].File? }

  /** The directory's names, each once; a name holds no slash. */
  ghost predicate Lists(files: Files, listing: seq<string>) {
    Distinct(listing) && (forall n :: n in files <==> n in listing) && forall n | n in files :: NoSlash(n)
  }

  predicate Same(hash: Hash, a: Bytes, b: Bytes) { hash(a) == hash(b) && |a| == |b| }

  predicate Stored(hash: Hash, objects: map<Id, Object>, id: Id, data: Bytes) {
    id in objects && objects[id].Good? && Same(hash, objects[id].data, data)
  }

  function Describe(hash: Hash, id: Id, data: Bytes): Entry { Entry(id, "", |data|, hash(data)) }

  /** The inventory of the listed artifact files, in listing order. */
  function Inventory(hash: Hash, files: Files, listing: seq<string>): seq<Entry> {
    if |listing| == 0 then []
    else
      var name := listing[|listing| - 1];
      var rest := Inventory(hash, files, listing[..|listing| - 1]);
      if !IsArtifactFile(files, name) || LocalRead(files, IdOf(name)).None? then rest
      else rest + [Describe(hash, IdOf(name), LocalRead(files, IdOf(name)).value)]
  }

  /** What must hold of a name for the migration to get past it. */
  predicate CanMigrate(hash: Hash, files: Files, was: map<Id, Object>, name: string, force: bool) {
    && name in files && !files[name].Link?
    && (IsArtifactFile(files, name) ==>
          var id := IdOf(name);
          && LocalRead(files, id).Some?
          && (id !in was || Stored(hash, was, id, LocalRead(files, id).value) || (force && was[id].Good?)))
  }

  /** The artifact file of that name is in the object store. */
  predicate Migrated(hash: Hash, files: Files, objects: map<Id, Object>, name: string) {
    name in files && !files[name].Link?
    && (IsArtifactFile(files, name) ==>
          LocalRead(files, IdOf(name)).Some? && Stored(hash, objects, IdOf(name), LocalRead(files, IdOf(name)).value))
  }

  function At(objects: map<Id, Object>, id: Id): Option<Object> { if id in objects then Some(objects[id]) else None }

  /** An object that changed is a listed artifact's, with its bytes; without force it was not there before. */
  predicate Changed(
      files: Files, was: map<Id, Object>, objects: map<Id, Object>, names: seq<string>, force: bool, id: Id)
  {
    At(objects, id) != At(was, id) ==>
      && id + BIN in names && LocalRead(files, id).Some? && id in objects
      && objects[id] == Good("", LocalRead(files, id).value) && (force || id !in was)
  }

  datatype Outcome = Passed | Skipped(entry: Entry) | Copied(entry: Entry) | Stopped

  /** One directory entry. */
  method MigrateOne(hash: Hash, files: Files, name: string, destination: S3Store, force: bool)
    returns (outcome: Outcome)
    requires name in files
    modifies destination
    ensures !outcome.Stopped? ==> Migrated(hash, files, destination.objects, name)
    ensures outcome.Passed? ==> !IsArtifactFile(files, name)
    ensures outcome.Skipped? || outcome.Copied? ==>
              IsArtifactFile(files, name)
                  && outcome.entry == Describe(hash, IdOf(name), LocalRead(files, IdOf(name)).value)
    ensures outcome.Skipped? || outcome.Passed? ==> destination.objects == old(destination.objects)
    ensures Migrated(hash, files, old(destination.objects), name) ==>
              !outcome.Copied? && destination.objects == old(destination.objects)
    ensures forall id :: Changed(files, old(destination.objects), destination.objects, [name], force, id)
    ensures outcome.Stopped? && CanMigrate(hash, files, old(destination.objects), name, force) ==>
              !destination.Reliable()
    ensures !outcome.Stopped? ==> CanMigrate(hash, files, old(destination.objects), name, force)
  {
    if files[name].Link? {
      return Stopped;
    }
    if files[name].Directory? || !IsBin(name) {
      return Passed;
    }
    var id := IdOf(name);
    assert id + BIN == name;
    var local := LocalRead(files, id);
    if local.None? {
      return Stopped;
    }
    var data := local.value;
    var remote := destination.Get(id);
    if remote.Found? {
      if Same(hash, remote.data, data) {
        return Skipped(Describe(hash, id, data));
      }
      if !force {
        return Stopped;
      }
    } else if remote.Failed? {
      return Stopped;
    }
    var put := destination.Put(id, "", data);
    if !put {
      return Stopped;
    }
    var verified := destination.Get(id);
    if !verified.Found? || !Same(hash, verified.data, data) {
      return Stopped;
    }
    return Copied(Describe(hash, id, data));
  }

  datatype Report = Report(copied: nat, skipped: nat, entries: seq<Entry>)

  ghost predicate OnlyChanged(
      files: Files, was: map<Id, Object>, objects: map<Id, Object>, names: seq<string>, force: bool)
  {
    forall id :: Changed(files, was, objects, names, force, id)
  }

  ghost predicate AllMigrated(hash: Hash, files: Files, objects: map<Id, Object>, names: seq<string>) {
    forall i | 0 <= i < |names| :: Migrated(hash, files, objects, names[i])
  }

  ghost predicate AllCanMigrate(hash: Hash, files: Files, was: map<Id, Object>, names: seq<string>, force: bool) {
    forall i | 0 <= i < |names| :: CanMigrate(hash, files, was, names[i], force)
  }

  lemma ChangedFurther(
      files: Files, was: map<Id, Object>, mid: map<Id, Object>, end: map<Id, Object>, names: seq<string>, name: string,
          force: bool)
    requires OnlyChanged(files, was, mid, names, force) && OnlyChanged(files, mid, end, [name], force)
    ensures OnlyChanged(files, was, end, names + [name], force)
  {
    forall id ensures Changed(files, was, end, names + [name], force, id) {
      assert Changed(files, was, mid, names, force, id) && Changed(files, mid, end, [name], force, id);
    }
  }

  /** Migrating a further file leaves those already migrated alone. */
  lemma MigratedStays(
      hash: Hash, files: Files, mid: map<Id, Object>, end: map<Id, Object>, names: seq<string>, name: string,
          force: bool)
    requires AllMigrated(hash, files, mid, names) && OnlyChanged(files, mid, end, [name], force) && name !in names
    requires Migrated(hash, files, end, name)
    ensures AllMigrated(hash, files, end, names + [name])
  {
    forall i | 0 <= i < |names| ensures Migrated(hash, files, end, names[i]) {
      if IsBin(names[i]) {
        var id := IdOf(names[i]);
        assert id + BIN == names[i];
        assert Changed(files, mid, end, [name], force, id);
        assert At(end, id) == At(mid, id);
      }
    }
  }

  /** A file not reached yet meets the object store as it was at the start. */
  lemma NotReached(
      hash: Hash, files: Files, was: map<Id, Object>, mid: map<Id, Object>, names: seq<string>, name: string,
          force: bool)
    requires OnlyChanged(files, was, mid, names, force) && name !in names
    ensures CanMigrate(hash, files, mid, name, force) == CanMigrate(hash, files, was, name, force)
  {
    if IsBin(name) {
      assert IdOf(name) + BIN == name;
      assert Changed(files, was, mid, names, force, IdOf(name));
      assert At(mid, IdOf(name)) == At(was, IdOf(name));
    }
  }

  lemma InventoryGrows(hash: Hash, files: Files, listing: seq<string>, i: nat)
    requires i < |listing|
    ensures Inventory(hash, files, listing[..i + 1]) ==
            Inventory(hash, files, listing[..i]) +
            if !IsArtifactFile(files, listing[i]) || LocalRead(files, IdOf(listing[i])).None? then []
            else [Describe(hash, IdOf(listing[i]), LocalRead(files, IdOf(listing[i])).value)]
  {
    assert listing[..i + 1][..i] == listing[..i];
  }

  /**
    Success means every artifact is stored with its hash and size, and the
    report lists exactly those; any run, however it ends, changes only objects
    of local artifacts, to their bytes, and without force no object that was
    there; reliable calls succeed whenever every name can be migrated; and when
    everything is stored already nothing is copied.
   */
  method MigrateLocalToS3(hash: Hash, files: Files, listing: seq<string>, destination: S3Store, force: bool)
    returns (ok: bool, report: Report)
    requires Lists(files, listing)
    modifies destination
    ensures OnlyChanged(files, old(destination.objects), destination.objects, listing, force)
    ensures forall id | id in old(destination.objects) && (!force || id + ".bin" !in listing) ::
              id in destination.objects && destination.objects[id] == old(destination.objects)[id]
    ensures ok ==> AllMigrated(hash, files, destination.objects, listing)
    ensures ok ==> report.entries == Inventory(hash, files, listing)
    ensures ok ==> report.copied + report.skipped == |report.entries|
    ensures ok ==> AllCanMigrate(hash, files, old(destination.objects), listing, force)
    ensures destination.Reliable() && AllCanMigrate(hash, files, old(destination.objects), listing, force) ==> ok
    ensures AllMigrated(hash, files, old(destination.objects), listing) ==>
              report.copied == 0 && destination.objects == old(destination.objects)
  {
    report := Report(0, 0, []);
    ok := true;
    for i := 0 to |listing|
      invariant ok
      invariant OnlyChanged(files, old(destination.objects), destination.objects, listing[..i], force)
      invariant AllMigrated(hash, files, destination.objects, listing[..i])
      invariant AllCanMigrate(hash, files, old(destination.objects), listing[..i], force)
      invariant report.entries == Inventory(hash, files, listing[..i])
                && report.copied + report.skipped == |report.entries|
      invariant AllMigrated(hash, files, old(destination.objects), listing) ==>
                  report.copied == 0 && destination.objects == old(destination.objects)
    {
      var name := listing[i];
      assert name in listing && name !in listing[..i] && listing[..i + 1] == listing[..i] + [name];
      ghost var mid := destination.objects;
      NotReached(hash, files, old(destination.objects), mid, listing[..i], name, force);
      InventoryGrows(hash, files, listing, i);
      var outcome := MigrateOne(hash, files, name, destination, force);
      ChangedFurther(files, old(destination.objects), mid, destination.objects, listing[..i], name, force);
      match outcome {
        case Stopped =>
          OnlyChangedMore(files, old(destination.objects), destination.objects, listing[..i + 1], listing, force);
          OthersStay(files, old(destination.objects), destination.objects, listing, force);
          return false, report;
        case Passed =>
        case Skipped(entry) =>
          report := Report(report.copied, report.skipped + 1, report.entries + [entry]);
        case Copied(entry) =>
          report := Report(report.copied + 1, report.skipped, report.entries + [entry]);
      }
      MigratedStays(hash, files, mid, destination.objects, listing[..i], name, force);
    }
    assert listing[..|listing|] == listing;
    OthersStay(files, old(destination.objects), destination.objects, listing, force);
  }

  /** Without force no object that was there changes, and never one that is no listed artifact's. */
  lemma OthersStay(
      files: Files, was: map<Id, Object>, objects: map<Id, Object>, names: seq<string>, force: bool)
    requires OnlyChanged(files, was, objects, names, force)
    ensures forall id | id in was && (!force || id + ".bin" !in names) :: id in objects && objects[id] == was[id]
  {
    forall id | id in was && (!force || id + ".bin" !in names) ensures id in objects && objects[id] == was[id] {
      assert Changed(files, was, objects, names, force, id);
      assert At(objects, id) == At(was, id);
    }
  }

  lemma OnlyChangedMore(
      files: Files, was: map<Id, Object>, objects: map<Id, Object>, names: seq<string>, all: seq<string>, force: bool)
    requires OnlyChanged(files, was, objects, names, force) && names <= all
    ensures OnlyChanged(files, was, objects, all, force)
  {
    forall id ensures Changed(files, was, objects, all, force, id) {
      assert Changed(files, was, objects, names, force, id);
    }
  }

  // ---- Verification ----

  /** The object store holds what the entry says. */
  predicate EntryHolds(hash: Hash, objects: map<Id, Object>, e: Entry) {
    && ValidId(e.id) && e.id in objects && objects[e.id].Good?
    && |objects[e.id].data| == e.size && hash(objects[e.id].data) == e.hash
  }

  predicate DistinctIds(entries: seq<Entry>) { forall i, j | 0 <= i < j < |entries| :: entries[i].id != entries[j].id }

  predicate Holds(hash: Hash, objects: map<Id, Object>, m: Manifest) {
    m.version == 1 && DistinctIds(m.entries) && forall i | 0 <= i < |m.entries| ::
        EntryHolds(hash, objects, m.entries[i])
  }

  /** One listed object. */
  method VerifyEntry(hash: Hash, destination: S3Store, e: Entry) returns (ok: bool)
    modifies destination`calls
    ensures ok ==> EntryHolds(hash, destination.objects, e)
    ensures destination.Reliable() && EntryHolds(hash, destination.objects, e) ==> ok
  {
    var got := destination.Get(e.id);
    ok := got.Found? && |got.data| == e.size && hash(got.data) == e.hash;
  }

  method VerifyS3Manifest(hash: Hash, destination: S3Store, m: Manifest) returns (ok: bool)
    modifies destination`calls
    ensures ok ==> Holds(hash, destination.objects, m)
    ensures destination.Reliable() && Holds(hash, destination.objects, m) ==> ok
  {
    if m.version != 1 {
      return false;
    }
    ghost var objects := destination.objects;
    var seen: set<Id> := {};
    for i := 0 to |m.entries|
      invariant destination.objects == objects
      invariant forall j | 0 <= j < i :: m.entries[j].id in seen && EntryHolds(hash, objects, m.entries[j])
      invariant forall id | id in seen :: exists j :: 0 <= j < i && m.entries[j].id == id
      invariant forall j, k | 0 <= j < k < i :: m.entries[j].id != m.entries[k].id
    {
      if m.entries[i].id in seen {
        return false;
      }
      seen := seen + {m.entries[i].id};
      var found := VerifyEntry(hash, destination, m.entries[i]);
      if !found {
        return false;
      }
    }
    return true;
  }

  // ---- Restore ----

  /** The local store gives back bytes that fit the entry. */
  predicate Restored(hash: Hash, files: Files, e: Entry) {
    && LocalRead(files, e.id).Some?
    && |LocalRead(files, e.id).value| == e.size && hash(LocalRead(files, e.id).value) == e.hash
  }

  /** No later entry goes to the same local file. */
  predicate LastOfItsName(entries: seq<Entry>, k: nat, n: nat)
    requires k < n <= |entries|
  {
    forall j | k < j < n :: Base(entries[j].id) != Base(entries[k].id)
  }

  /** Of the entries that share a local file, the last is there. */
  predicate LastsRestored(hash: Hash, files: Files, entries: seq<Entry>) {
    forall k | 0 <= k < |entries| && LastOfItsName(entries, k, |entries|) :: Restored(hash, files, entries[k])
  }

  predicate NoDirectories(files: Files) { forall name | name in files :: !files[name].Directory? }

  /** One entry; fault tells whether the local write fails. */
  method RestoreEntry(hash: Hash, source: S3Store, e: Entry, destination: LocalStore, fault: bool)
    returns (ok: bool, skipped: bool)
    modifies source`calls, destination
    ensures ok ==> Restored(hash, destination.files, e)
    ensures forall name | name != FileName(e.id) ::
              FileAt(destination.files, name) == FileAt(old(destination.files), name)
    ensures NoDirectories(old(destination.files)) ==> NoDirectories(destination.files)
    ensures source.Reliable() && !fault && NoDirectories(old(destination.files)) ==>
              (EntryHolds(hash, source.objects, e) ==> ok)
    ensures skipped ==> destination.files == old(destination.files)
  {
    skipped := false;
    var local := LocalRead(destination.files, e.id);
    if local.Some? && hash(local.value) == e.hash && |local.value| == e.size {
      return true, true;
    }
    var got := source.Get(e.id);
    if !got.Found? || |got.data| != e.size || hash(got.data) != e.hash {
      return false, false;
    }
    ok := destination.Put(e.id, got.data, fault);
  }

  /** The files of the first n entries. */
  ghost predicate OthersUntouched(was: Files, files: Files, entries: seq<Entry>, n: nat)
    requires n <= |entries|
  {
    forall name | (forall k | 0 <= k < n :: FileName(entries[k].id) != name) :: FileAt(files, name) == FileAt(was, name)
  }

  /** Restoring one more entry keeps those whose file it does not share. */
  lemma RestoredStays(hash: Hash, was: Files, files: Files, entries: seq<Entry>, n: nat)
    requires n < |entries| && LastsRestored(hash, was, entries[..n]) && Restored(hash, files, entries[n])
    requires forall name | name != FileName(entries[n].id) :: FileAt(files, name) == FileAt(was, name)
    ensures LastsRestored(hash, files, entries[..n + 1])
  {
    var more := entries[..n + 1];
    forall k | 0 <= k < |more| && LastOfItsName(more, k, |more|) ensures Restored(hash, files, more[k]) {
      if k < n {
        assert more[n] == entries[n] && more[k] == entries[..n][k];
        assert LastOfItsName(entries[..n], k, n) by {
          assert forall j | k < j < n :: entries[..n][j] == more[j];
        }
        FileNameByBase(more[k].id, entries[n].id);
        assert FileAt(files, FileName(more[k].id)) == FileAt(was, FileName(more[k].id));
      }
    }
  }

  /** fault tells which of the local writes fail. */
  method RestoreS3Manifest(hash: Hash, source: S3Store, m: Manifest, destination: LocalStore, fault: nat -> bool)
    returns (ok: bool, restored: nat, skipped: nat)
    modifies source`calls, destination
    ensures ok ==> Holds(hash, source.objects, m) && restored + skipped == |m.entries|
    ensures ok ==> LastsRestored(hash, destination.files, m.entries)
    ensures OthersUntouched(old(destination.files), destination.files, m.entries, |m.entries|)
    ensures !Holds(hash, source.objects, m) ==> !ok && destination.files == old(destination.files)
    ensures source.Reliable() && (forall n :: !fault(n)) && NoDirectories(old(destination.files)) ==>
              (Holds(hash, source.objects, m) ==> ok)
  {
    restored, skipped := 0, 0;
    ok := VerifyS3Manifest(hash, source, m);
    if !ok {
      return;
    }
    ghost var was := destination.files;
    for i := 0 to |m.entries|
      invariant ok && restored + skipped == i
      invariant source.objects == old(source.objects)
      invariant LastsRestored(hash, destination.files, m.entries[..i])
      invariant OthersUntouched(was, destination.files, m.entries, i)
      invariant NoDirectories(was) ==> NoDirectories(destination.files)
    {
      ghost var before := destination.files;
      var there;
      ok, there := RestoreEntry(hash, source, m.entries[i], destination, fault(i));
      assert OthersUntouched(was, destination.files, m.entries, i + 1);
      if !ok {
        return;
      }
      RestoredStays(hash, before, destination.files, m.entries, i);
      if there {
        skipped := skipped + 1;
      } else {
        restored := restored + 1;
      }
    }
    assert m.entries[..|m.entries|] == m.entries;
  }

  function FileAt(files: Files, name: string): Option<Node> { if name in files then Some(files[name]) else None }

  lemma FileNameByBase(a: Id, b: Id)
    ensures FileName(a) == FileName(b) <==> Base(a) == Base(b)
  {
    assert FileName(a)[..|FileName(a)| - 4] == Base(a) && FileName(b)[..|FileName(b)| - 4] == Base(b);
  }
}
