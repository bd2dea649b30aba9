/** Migration, verification and restore taken together. */
module ArtifactsTheorems {
  import opened Common
  import opened Paths
  import opened Artifacts

  predicate FromName(hash: Hash, files: Files, name: string, e: Entry) {
    && IsArtifactFile(files, name) && LocalRead(files, IdOf(name)).Some?
    && e == Describe(hash, IdOf(name), LocalRead(files, IdOf(name)).value)
  }

  lemma {:induction false} InventoryEntry(hash: Hash, files: Files, listing: seq<string>, k: nat) returns (i: nat)
    requires k < |Inventory(hash, files, listing)|
    ensures i < |listing| && FromName(hash, files, listing[i], Inventory(hash, files, listing)[k])
  {
    var n := |listing| - 1;
    if k < |Inventory(hash, files, listing[..n])| {
      i := InventoryEntry(hash, files, listing[..n], k);
    } else {
      i := n;
    }
  }

  lemma {:induction false} InventoryHas(hash: Hash, files: Files, listing: seq<string>, i: nat) returns (k: nat)
    requires i < |listing| && IsArtifactFile(files, listing[i]) && LocalRead(files, IdOf(listing[i])).Some?
    ensures k < |Inventory(hash, files, listing)|
              && FromName(hash, files, listing[i], Inventory(hash, files, listing)[k])
  {
    var n := |listing| - 1;
    if i < n {
      k := InventoryHas(hash, files, listing[..n], i);
    } else {
      k := |Inventory(hash, files, listing[..n])|;
    }
  }

  lemma {:induction false} InventoryDistinct(hash: Hash, files: Files, listing: seq<string>)
    requires Distinct(listing)
    ensures DistinctIds(Inventory(hash, files, listing))
  {
    if |listing| == 0 {
    } else {
      var n := |listing| - 1;
      var init, name := listing[..n], listing[n];
      InventoryDistinct(hash, files, init);
      var rest := Inventory(hash, files, init);
      forall k | 0 <= k < |rest| ensures IsBin(name) ==> rest[k].id != IdOf(name) {
        var i := InventoryEntry(hash, files, init, k);
        assert IdOf(init[i]) + BIN == init[i];
        assert IsBin(name) ==> IdOf(name) + BIN == name;
      }
    }
  }

  /** The report of a successful migration is a manifest that verifies. */
  lemma MigratedManifestHolds(hash: Hash, files: Files, listing: seq<string>, objects: map<Id, Object>)
    requires Lists(files, listing) && AllMigrated(hash, files, objects, listing)
    ensures Holds(hash, objects, Manifest(1, Inventory(hash, files, listing)))
  {
    var entries := Inventory(hash, files, listing);
    InventoryDistinct(hash, files, listing);
    forall k | 0 <= k < |entries| ensures EntryHolds(hash, objects, entries[k]) {
      var i := InventoryEntry(hash, files, listing, k);
      assert Migrated(hash, files, objects, listing[i]);
    }
  }

  predicate DistinctBases(entries: seq<Entry>) {
    forall i, j | 0 <= i < j < |entries| :: Base(entries[i].id) != Base(entries[j].id)
  }

  /**
    Local files are named by the last segment of an id alone, so a finished
    restore gives every entry back exactly when no two ids end alike.
   */
  lemma RestoredExactlyWhenNamesDiffer(hash: Hash, files: Files, entries: seq<Entry>)
    requires DistinctIds(entries)
    requires LastsRestored(hash, files, entries)
    ensures (forall k | 0 <= k < |entries| :: Restored(hash, files, entries[k])) <==> DistinctBases(entries)
  {
    if DistinctBases(entries) {
      forall k | 0 <= k < |entries| ensures Restored(hash, files, entries[k]) {
        assert LastOfItsName(entries, k, |entries|);
      }
    }
    if forall k | 0 <= k < |entries| :: Restored(hash, files, entries[k]) {
      forall i, j | 0 <= i < j < |entries| ensures Base(entries[i].id) != Base(entries[j].id) {
        OneIdPerFile(hash, files, entries[i], entries[j]);
      }
    }
  }

  /** Two ids that end alike are never both in the local store. */
  lemma OneIdPerFile(hash: Hash, files: Files, e: Entry, f: Entry)
    requires Restored(hash, files, e) && Restored(hash, files, f) && e.id != f.id
    ensures Base(e.id) != Base(f.id)
  {
  }

  /** Objects a/x and b/x verify together and cannot be restored together. */
  lemma PrefixedIdsCollide(hash: Hash, data: Bytes, other: Bytes, files: Files)
    ensures var entries := [Describe(hash, "a/x", data), Describe(hash, "b/x", other)];
            && Holds(hash, map["a/x" := Good("", data), "b/x" := Good("", other)], Manifest(1, entries))
            && !(Restored(hash, files, entries[0]) && Restored(hash, files, entries[1]))
  {
    var a, b := "a/x", "b/x";
    assert a == "a" + "/" + "x" && b == "b" + "/" + "x";
    SplitAppend("a", "x");
    SplitAppend("b", "x");
    SplitOne("a");
    SplitOne("b");
    SplitOne("x");
    assert a[0] != b[0];
    assert Base(a) == "x" && Base(b) == "x";
    var entries := [Describe(hash, a, data), Describe(hash, b, other)];
    if Restored(hash, files, entries[0]) && Restored(hash, files, entries[1]) {
      OneIdPerFile(hash, files, entries[0], entries[1]);
    }
  }

  lemma InventoryNamesDiffer(hash: Hash, files: Files, listing: seq<string>)
    requires Lists(files, listing)
    ensures DistinctBases(Inventory(hash, files, listing))
  {
    var entries := Inventory(hash, files, listing);
    InventoryDistinct(hash, files, listing);
    forall k | 0 <= k < |entries| ensures Base(entries[k].id) == entries[k].id {
      var i := InventoryEntry(hash, files, listing, k);
      assert listing[i] in files && NoSlash(listing[i]);
      assert forall c | c in entries[k].id :: c in listing[i];
      SplitOne(entries[k].id);
    }
  }

  /** No two local artifacts of one id collide. */
  ghost predicate NoCollision(hash: Hash, files: Files, restored: Files) {
    forall id | LocalRead(files, id).Some? && LocalRead(restored, id).Some?
                && hash(LocalRead(files, id).value) == hash(LocalRead(restored, id).value) ::
      LocalRead(files, id) == LocalRead(restored, id)
  }

  /**
    Once every artifact is in the object store, restoring the migration's
    manifest, into an empty local store or any other, gives every id the bytes
    it had; objects is the store then, restored the local files afterwards.
   */
  lemma MigrateThenRestore(
      hash: Hash, files: Files, listing: seq<string>, objects: map<Id, Object>, restored: Files, name: string)
    requires NoCollision(hash, files, restored) && Lists(files, listing) && AllMigrated(hash, files, objects, listing)
    requires LastsRestored(hash, restored, Inventory(hash, files, listing))
    requires IsArtifactFile(files, name)
    ensures LocalRead(files, IdOf(name)).Some? && LocalRead(restored, IdOf(name)) == LocalRead(files, IdOf(name))
  {
    InventoryRestored(hash, files, listing, restored);
    var i := ListedAt(files, listing, name);
    MigratedRead(hash, files, objects, listing, i);
    var k := InventoryHas(hash, files, listing, i);
    SameBytes(hash, files, restored, name, Inventory(hash, files, listing)[k]);
  }

  lemma InventoryRestored(hash: Hash, files: Files, listing: seq<string>, restored: Files)
    requires Lists(files, listing)
    requires LastsRestored(hash, restored, Inventory(hash, files, listing))
    ensures var entries := Inventory(hash, files, listing);
            forall k | 0 <= k < |entries| :: Restored(hash, restored, entries[k])
  {
    InventoryDistinct(hash, files, listing);
    InventoryNamesDiffer(hash, files, listing);
    RestoredExactlyWhenNamesDiffer(hash, restored, Inventory(hash, files, listing));
  }

  lemma MigratedRead(hash: Hash, files: Files, objects: map<Id, Object>, listing: seq<string>, i: nat)
    requires AllMigrated(hash, files, objects, listing) && i < |listing| && IsArtifactFile(files, listing[i])
    ensures LocalRead(files, IdOf(listing[i])).Some?
  {
    assert Migrated(hash, files, objects, listing[i]);
  }

  lemma ListedAt(files: Files, listing: seq<string>, name: string) returns (i: nat)
    requires Lists(files, listing) && name in files
    ensures i < |listing| && listing[i] == name
  {
    i :| 0 <= i < |listing| && listing[i] == name;
  }

  lemma SameBytes(hash: Hash, files: Files, restored: Files, name: string, e: Entry)
    requires NoCollision(hash, files, restored) && FromName(hash, files, name, e) && Restored(hash, restored, e)
    ensures LocalRead(restored, IdOf(name)) == LocalRead(files, IdOf(name))
  {
  }

  /** Every local artifact, and nothing else, stands in the restored store with its bytes. */
  ghost predicate Back(files: Files, restored: Files) {
    && (forall name | name in files && files[name].File? && |name| >= 4 && name[|name| - 4..] == ".bin" ::
          var id := name[..|name| - 4];
          LocalRead(files, id).Some? && LocalRead(restored, id) == LocalRead(files, id))
    && (forall name | name in restored ::
          name in files && files[name].File? && |name| >= 4 && name[|name| - 4..] == ".bin")
  }

  /** A listed id goes back to the file it came from. */
  lemma SameFileName(hash: Hash, files: Files, listing: seq<string>, k: nat)
    requires Lists(files, listing) && k < |Inventory(hash, files, listing)|
    ensures IsArtifactFile(files, FileName(Inventory(hash, files, listing)[k].id))
  {
    var i := InventoryEntry(hash, files, listing, k);
    var name, id := listing[i], Inventory(hash, files, listing)[k].id;
    assert name in files && NoSlash(name);
    assert forall c | c in id :: c in name;
    SplitOne(id);
    assert id + BIN == name;
  }

  lemma RestoredIsBack(hash: Hash, files: Files, listing: seq<string>, objects: map<Id, Object>, restored: Files)
    requires Lists(files, listing) && AllMigrated(hash, files, objects, listing) && NoCollision(hash, files, restored)
    requires var entries := Inventory(hash, files, listing);
             LastsRestored(hash, restored, entries) && OthersUntouched(map[], restored, entries, |entries|)
    ensures Back(files, restored)
  {
    var entries := Inventory(hash, files, listing);
    forall name | IsArtifactFile(files, name)
      ensures LocalRead(files, IdOf(name)).Some? && LocalRead(restored, IdOf(name)) == LocalRead(files, IdOf(name))
    {
      MigrateThenRestore(hash, files, listing, objects, restored, name);
    }
    forall name | name in restored ensures IsArtifactFile(files, name) {
      assert FileAt(restored, name) != FileAt(map[], name);
      var k :| 0 <= k < |entries| && FileName(entries[k].id) == name;
      SameFileName(hash, files, listing, k);
    }
  }

  /**
    A migration, and then a restore of its manifest into an empty local store:
    if both succeed every artifact is back and nothing else is there; they do
    succeed when every name can be migrated and no call fails.
   */
  method MigrateAndRestore(
      hash: Hash, files: Files, listing: seq<string>, remote: S3Store, local: LocalStore, force: bool,
          fault: nat -> bool)
    returns (ok: bool)
    requires Lists(files, listing) && local.files == map[]
    modifies remote, local
    ensures ok && NoCollision(hash, files, local.files) ==> Back(files, local.files)
    ensures remote.Reliable() && (forall n :: !fault(n)) ==>
              (AllCanMigrate(hash, files, old(remote.objects), listing, force) ==> ok)
  {
    var report;
    ok, report := MigrateLocalToS3(hash, files, listing, remote, force);
    if !ok {
      return;
    }
    MigratedManifestHolds(hash, files, listing, remote.objects);
    ghost var objects := remote.objects;
    var restored, skipped;
    ok, restored, skipped := RestoreS3Manifest(hash, remote, Manifest(1, report.entries), local, fault);
    if ok && NoCollision(hash, files, local.files) {
      RestoredIsBack(hash, files, listing, objects, local.files);
    }
  }
}
