/**
  Putting a restored database and artifact tree in place: the moves, renames
  and rollback of a restore, on a disk where any operation may fail.
 */
module Placement {
  import opened Common

  type Name = nat

  datatype Node = File(data: seq<nat>) | Tree(entries: map<string, seq<nat>>)

  type Nodes = map<Name, Node>

  datatype Names = Names(
    db: Name, artifacts: Name, tmpDb: Name, tmpArtifacts: Name, asideDb: Name, asideArtifacts: Name)
  {
    predicate Has(x: Name) {
      x == db || x == artifacts || x == tmpDb || x == tmpArtifacts || x == asideDb || x == asideArtifacts
    }

    predicate Different() {
      && db != artifacts && db != tmpDb && db != tmpArtifacts && db != asideDb && db != asideArtifacts
      && artifacts != tmpDb && artifacts != tmpArtifacts && artifacts != asideDb && artifacts != asideArtifacts
      && tmpDb != tmpArtifacts && tmpDb != asideDb && tmpDb != asideArtifacts
      && tmpArtifacts != asideDb && tmpArtifacts != asideArtifacts
      && asideDb != asideArtifacts
    }
  }

  /** Which operations fail. A failing removal of a tree may leave any part of it. */
  datatype Faults = Faults(
    moveDb: bool, moveArtifacts: bool, placeDb: bool, placeArtifacts: bool, removeDb: bool, removeArtifacts: bool,
    backDb: bool, backArtifacts: bool, cleanDb: bool, cleanArtifacts: bool, left: map<string, seq<nat>>)

  function At(nodes: Nodes, name: Name): Option<Node> { if name in nodes then Some(nodes[name]) else None }

  /** A file replaces a file and a tree an empty tree; anything else in the way refuses the rename. */
  predicate CanRename(nodes: Nodes, from: Name, to: Name) {
    && from in nodes
    && (to !in nodes || (nodes[from].File? && nodes[to].File?) || (nodes[from].Tree? && nodes[to] == Tree(map[])))
  }

  class Disk {
    var nodes: Nodes

    constructor (nodes: Nodes)
      ensures this.nodes == nodes
    {
      this.nodes := nodes;
    }

    method Rename(from: Name, to: Name, fault: bool) returns (ok: bool)
      requires from != to
      modifies this
      ensures ok == (!fault && CanRename(old(nodes), from, to))
      ensures nodes == if ok then (old(nodes) - {from})[to := old(nodes)[from]] else old(nodes)
    {
      ok := !fault && CanRename(nodes, from, to);
      if ok {
        var node := nodes[from];
        nodes := (nodes - {from})[to := node];
      }
    }

    method RemoveAll(name: Name, fault: bool, left: map<string, seq<nat>>) returns (ok: bool)
      modifies this
      ensures ok == (!fault || name !in old(nodes))
      ensures ok ==> nodes == old(nodes) - {name}
      ensures !ok ==> nodes == if old(nodes)[name].File? then old(nodes) else old(nodes)[name := Tree(left)]
    {
      ok := !fault || name !in nodes;
      if ok {
        nodes := nodes - {name};
      } else if nodes[name].Tree? {
        nodes := nodes[name := Tree(left)];
      }
    }

    method MoveAside(name: Name, aside: Name, fault: bool) returns (backup: Option<Name>, ok: bool)
      requires name != aside && aside !in nodes
      modifies this
      ensures ok == (name !in old(nodes) || !fault)
      ensures backup == if name in old(nodes) then Some(aside) else None
      ensures nodes == if ok && backup.Some? then (old(nodes) - {name})[aside := old(nodes)[name]] else old(nodes)
    {
      if name !in nodes {
        return None, true;
      }
      ok := Rename(name, aside, fault);
      return Some(aside), ok;
    }

    method RestoreAside(backup: Option<Name>, target: Name, fault: bool) returns (ok: bool)
      requires backup != Some(target)
      modifies this
      ensures var was := old(nodes);
              var there := backup.Some? && backup.value in was;
              && ok == (!there || (!fault && CanRename(was, backup.value, target)))
              && nodes == if ok && there then (was - {backup.value})[target := was[backup.value]] else was
    {
      if backup.None? || backup.value !in nodes {
        return true;
      }
      ok := Rename(backup.value, target, fault);
    }

    method RemovePlaced(n: Names, f: Faults)
      requires n.Different() && (n.db in nodes ==> nodes[n.db].File?)
      modifies this
      ensures At(nodes, n.db) == if f.removeDb then At(old(nodes), n.db) else None
      ensures n.artifacts !in old(nodes) ==> n.artifacts !in nodes
      ensures forall x | x != n.db && x != n.artifacts :: At(nodes, x) == At(old(nodes), x)
    {
      if n.db in nodes {
        var _ := RemoveAll(n.db, f.removeDb, f.left);
      }
      if n.artifacts in nodes {
        var _ := RemoveAll(n.artifacts, f.removeArtifacts, f.left);
      }
    }

    /** Removes what was placed and moves what was kept aside back. */
    method RollBack(n: Names, f: Faults, oldDb: Option<Name>, oldArtifacts: Option<Name>)
      requires n.Different()
      requires n.db in nodes ==> nodes[n.db].File?
      requires oldDb == if n.asideDb in nodes then Some(n.asideDb) else None
      requires oldArtifacts == if n.asideArtifacts in nodes then Some(n.asideArtifacts) else None
      modifies this
      ensures var back := !f.backDb && (!f.removeDb || CanRename(old(nodes), n.asideDb, n.db));
              DbUndone(old(nodes), nodes, n, back, f.removeDb)
      ensures n.artifacts !in old(nodes) ==> ArtifactsUndone(old(nodes), nodes, n, !f.backArtifacts)
      ensures forall x | !n.Has(x) :: At(nodes, x) == At(old(nodes), x)
    {
      RemovePlaced(n, f);
      var _ := RestoreAside(oldDb, n.db, f.backDb);
      var _ := RestoreAside(oldArtifacts, n.artifacts, f.backArtifacts);
    }

    /** The two renames of a forced restore, once the old destinations are aside. */
    method PlaceOrRollBack(n: Names, f: Faults, oldDb: Option<Name>, oldArtifacts: Option<Name>) returns (ok: bool)
      requires Staged(nodes, n) && n.db !in nodes && n.artifacts !in nodes
      requires oldDb == if n.asideDb in nodes then Some(n.asideDb) else None
      requires oldArtifacts == if n.asideArtifacts in nodes then Some(n.asideArtifacts) else None
      modifies this
      ensures ok == !(f.placeDb || f.placeArtifacts)
      ensures ok ==> BothNew(old(nodes), nodes, n)
      ensures ok ==> At(nodes, n.asideDb) == At(old(nodes), n.asideDb)
      ensures ok ==> At(nodes, n.asideArtifacts) == At(old(nodes), n.asideArtifacts)
      ensures !ok ==> DbSwapUndone(old(nodes), nodes, n, f)
      ensures !ok ==> ArtifactsUndone(old(nodes), nodes, n, !f.backArtifacts)
      ensures forall x | !n.Has(x) :: At(nodes, x) == At(old(nodes), x)
    {
      ok := Rename(n.tmpDb, n.db, f.placeDb);
      if !ok {
        RollBack(n, f, oldDb, oldArtifacts);
        return;
      }
      ok := Rename(n.tmpArtifacts, n.artifacts, f.placeArtifacts);
      if !ok {
        RollBack(n, f, oldDb, oldArtifacts);
      }
    }

    /** Both old destinations move aside; if the second cannot, the first moves back. */
    method MoveBothAside(n: Names, f: Faults) returns (oldDb: Option<Name>, oldArtifacts: Option<Name>, ok: bool)
      requires Staged(nodes, n) && n.asideDb !in nodes && n.asideArtifacts !in nodes
      modifies this
      ensures ok == !((f.moveDb && n.db in old(nodes)) || (f.moveArtifacts && n.artifacts in old(nodes)))
      ensures ok ==>
                && Staged(nodes, n) && n.db !in nodes && n.artifacts !in nodes
                && oldDb == (if n.asideDb in nodes then Some(n.asideDb) else None)
                && oldArtifacts == (if n.asideArtifacts in nodes then Some(n.asideArtifacts) else None)
                && At(nodes, n.asideDb) == At(old(nodes), n.db)
                && At(nodes, n.asideArtifacts) == At(old(nodes), n.artifacts)
                && At(nodes, n.tmpDb) == At(old(nodes), n.tmpDb)
                && At(nodes, n.tmpArtifacts) == At(old(nodes), n.tmpArtifacts)
      ensures !ok ==> DbOutcome(old(nodes), nodes, n, f) && ArtifactsOutcome(old(nodes), nodes, n, f)
      ensures forall x | !n.Has(x) :: At(nodes, x) == At(old(nodes), x)
    {
      oldArtifacts := None;
      oldDb, ok := MoveAside(n.db, n.asideDb, f.moveDb);
      if !ok {
        return;
      }
      oldArtifacts, ok := MoveAside(n.artifacts, n.asideArtifacts, f.moveArtifacts);
      if !ok {
        var _ := RestoreAside(oldDb, n.db, f.backDb);
      }
    }

    /** Replacing existing destinations, which are kept aside. */
    method PlaceForced(n: Names, f: Faults) returns (ok: bool)
      requires Staged(nodes, n) && n.asideDb !in nodes && n.asideArtifacts !in nodes
      modifies this
      ensures ok == !(  (f.moveDb && n.db in old(nodes)) || (f.moveArtifacts && n.artifacts in old(nodes))
                      || f.placeDb || f.placeArtifacts)
      ensures ok ==> BothNew(old(nodes), nodes, n)
      ensures ok ==>
                && At(nodes, n.asideDb) == At(old(nodes), n.db)
                && At(nodes, n.asideArtifacts) == At(old(nodes), n.artifacts)
      ensures !ok ==> DbOutcome(old(nodes), nodes, n, f) && ArtifactsOutcome(old(nodes), nodes, n, f)
      ensures forall x | !n.Has(x) :: At(nodes, x) == At(old(nodes), x)
    {
      var oldDb, oldArtifacts;
      oldDb, oldArtifacts, ok := MoveBothAside(n, f);
      if ok {
        ok := PlaceOrRollBack(n, f, oldDb, oldArtifacts);
      }
    }

    /** Filling destinations that do not exist. */
    method PlaceFresh(n: Names, f: Faults) returns (ok: bool)
      requires Staged(nodes, n) && n.db !in nodes && n.artifacts !in nodes
      modifies this
      ensures ok == !(f.placeDb || f.placeArtifacts)
      ensures ok ==> BothNew(old(nodes), nodes, n)
      ensures !ok ==> n.artifacts !in nodes
      ensures !ok ==> At(nodes, n.db) == if !f.placeDb && f.removeDb then At(old(nodes), n.tmpDb) else None
      ensures forall x | !n.Has(x) :: At(nodes, x) == At(old(nodes), x)
    {
      ok := Rename(n.tmpDb, n.db, f.placeDb);
      if !ok {
        return false;
      }
      ok := Rename(n.tmpArtifacts, n.artifacts, f.placeArtifacts);
      if !ok {
        var _ := RemoveAll(n.db, f.removeDb, f.left);
      }
    }

    method Place(n: Names, f: Faults, force: bool) returns (ok: bool)
      requires Staged(nodes, n) && n.asideDb !in nodes && n.asideArtifacts !in nodes
      modifies this
      ensures ok == Succeeds(old(nodes), n, f, force) && Settled(old(nodes), nodes, n, f, force)
      ensures forall x | !n.Has(x) :: At(nodes, x) == At(old(nodes), x)
    {
      if !force && (n.db in nodes || n.artifacts in nodes) {
        return false;
      }
      if force {
        ok := PlaceForced(n, f);
      } else {
        ok := PlaceFresh(n, f);
      }
    }

    /** The removals that run on the way out, whose failures are ignored. */
    method CleanUp(n: Names, f: Faults)
      modifies this
      ensures forall x | x != n.tmpDb && x != n.tmpArtifacts :: At(nodes, x) == At(old(nodes), x)
    {
      var _ := RemoveAll(n.tmpArtifacts, f.cleanArtifacts, f.left);
      var _ := RemoveAll(n.tmpDb, f.cleanDb, f.left);
    }

    /**
      For every placement of failures: both destinations end new or, when the
      undoing operations succeed, both end as they were; and even when those fail
      too, nothing that stood at a destination is lost.
     */
    method Restore(n: Names, f: Faults, force: bool) returns (ok: bool)
      requires Staged(nodes, n) && n.asideDb !in nodes && n.asideArtifacts !in nodes
      modifies this
      ensures ok == Succeeds(old(nodes), n, f, force)
      ensures ok ==> BothNew(old(nodes), nodes, n)
      ensures !ok && UndoWorks(f) ==> BothOld(old(nodes), nodes, n)
      ensures NothingLost(old(nodes), nodes, n)
      ensures !ok && force && At(old(nodes), n.tmpDb) != At(old(nodes), n.db) ==>
                (BothOld(old(nodes), nodes, n) <==> DbBack(old(nodes), n, f) && ArtifactsBack(old(nodes), n, f))
      ensures !ok && !force ==> (BothOld(old(nodes), nodes, n) <==> !StaysBehind(old(nodes), n, f))
      ensures forall x | !n.Has(x) :: At(nodes, x) == At(old(nodes), x)
    {
      ok := Place(n, f, force);
      ghost var placed := nodes;
      CleanUp(n, f);
      SettledFrame(old(nodes), placed, nodes, n, f, force);
      SettledMeans(old(nodes), nodes, n, f, force);
    }
  }

  /** The new files stand ready under their temporary names. */
  predicate Staged(nodes: Nodes, n: Names) {
    n.Different() && n.tmpDb in nodes && nodes[n.tmpDb].File? && n.tmpArtifacts in nodes && nodes[n.tmpArtifacts].Tree?
  }

  /** The database's two names after an attempt to undo: back where it was, or still aside. */
  predicate DbUndone(was: Nodes, end: Nodes, n: Names, back: bool, stuck: bool) {
    if n.asideDb !in was then At(end, n.db) == (if stuck then At(was, n.db) else None)
    else if back then At(end, n.db) == At(was, n.asideDb)
    else At(end, n.asideDb) == At(was, n.asideDb) && At(end, n.db) in {None, At(was, n.db)}
  }

  predicate DbSwapUndone(was: Nodes, end: Nodes, n: Names, f: Faults) {
    if n.asideDb !in was then At(end, n.db) == if f.placeDb || !f.removeDb then None else At(was, n.tmpDb)
    else if !f.backDb && (f.placeDb || !f.removeDb || was[n.asideDb].File?) then At(end, n.db) == At(was, n.asideDb)
    else At(end, n.asideDb) == At(was, n.asideDb) && At(end, n.db) in {None, At(was, n.tmpDb)}
  }

  predicate ArtifactsUndone(was: Nodes, end: Nodes, n: Names, back: bool) {
    if n.asideArtifacts in was && back then At(end, n.artifacts) == At(was, n.asideArtifacts)
    else n.artifacts !in end && At(end, n.asideArtifacts) == At(was, n.asideArtifacts)
  }

  /** A failed forced placement: the old database is back, or it is still aside. */
  predicate DbOutcome(was: Nodes, end: Nodes, n: Names, f: Faults) {
    if DbBack(was, n, f) then At(end, n.db) == At(was, n.db)
    else At(end, n.db) in {None, At(was, n.tmpDb)} && (n.db in was ==> At(end, n.asideDb) == At(was, n.db))
                                                  && (n.db !in was ==> n.db in end)
  }

  predicate ArtifactsOutcome(was: Nodes, end: Nodes, n: Names, f: Faults) {
    if ArtifactsBack(was, n, f) then At(end, n.artifacts) == At(was, n.artifacts)
    else n.artifacts !in end && At(end, n.asideArtifacts) == At(was, n.artifacts)
  }

  /** The operations that undo a failed placement all succeed. */
  predicate UndoWorks(f: Faults) { !f.removeDb && !f.backDb && !f.backArtifacts }

  /** Whether a failed forced placement leaves the database as it was, by the operation that failed first. */
  predicate DbBack(was: Nodes, n: Names, f: Faults) {
    if n.db in was then
      || f.moveDb
      || (!f.backDb && (f.placeDb || (n.artifacts in was && f.moveArtifacts) || !f.removeDb || was[n.db].File?))
    else
      || f.placeDb || (n.artifacts in was && f.moveArtifacts) || !f.removeDb
  }

  predicate ArtifactsBack(was: Nodes, n: Names, f: Faults) {
    n.artifacts !in was || (n.db in was && f.moveDb) || f.moveArtifacts || !f.backArtifacts
  }

  /** Unforced: the database is placed, the tree is not, and the database cannot be removed again. */
  predicate StaysBehind(was: Nodes, n: Names, f: Faults) {
    n.db !in was && n.artifacts !in was && !f.placeDb && f.placeArtifacts && f.removeDb
  }

  predicate BothNew(was: Nodes, end: Nodes, n: Names) {
    && At(end, n.db) == At(was, n.tmpDb) && At(end, n.artifacts) == At(was, n.tmpArtifacts)
  }

  predicate BothOld(was: Nodes, end: Nodes, n: Names) {
    && At(end, n.db) == At(was, n.db) && At(end, n.artifacts) == At(was, n.artifacts)
  }

  /** Whether the placement gets through: refused over existing files, or stopped by the operations that run. */
  predicate Succeeds(was: Nodes, n: Names, f: Faults, force: bool) {
    if force then
      !((f.moveDb && n.db in was) || (f.moveArtifacts && n.artifacts in was) || f.placeDb || f.placeArtifacts)
    else n.db !in was && n.artifacts !in was && !f.placeDb && !f.placeArtifacts
  }

  /** What the four lasting names hold afterwards. */
  predicate Settled(was: Nodes, end: Nodes, n: Names, f: Faults, force: bool) {
    if Succeeds(was, n, f, force) then
      BothNew(was, end, n)
      && (force ==> At(end, n.asideDb) == At(was, n.db) && At(end, n.asideArtifacts) == At(was, n.artifacts))
    else if force then DbOutcome(was, end, n, f) && ArtifactsOutcome(was, end, n, f)
    else if n.db in was || n.artifacts in was then BothOld(was, end, n)
    else n.artifacts !in end && At(end, n.db) == if !f.placeDb && f.removeDb then At(was, n.tmpDb) else None
  }

  lemma SettledFrame(was: Nodes, placed: Nodes, end: Nodes, n: Names, f: Faults, force: bool)
    requires n.Different() && Settled(was, placed, n, f, force)
    requires forall x | x != n.tmpDb && x != n.tmpArtifacts :: At(end, x) == At(placed, x)
    ensures Settled(was, end, n, f, force)
  {
    assert At(end, n.db) == At(placed, n.db) && At(end, n.artifacts) == At(placed, n.artifacts);
    assert At(end, n.asideDb) == At(placed, n.asideDb) && At(end, n.asideArtifacts) == At(placed, n.asideArtifacts);
  }

  /** Whatever stood at a destination stands there or aside. */
  predicate NothingLost(was: Nodes, end: Nodes, n: Names) {
    && (n.db in was ==> At(was, n.db) in {At(end, n.db), At(end, n.asideDb)})
    && (n.artifacts in was ==> At(was, n.artifacts) in {At(end, n.artifacts), At(end, n.asideArtifacts)})
  }

  lemma SettledMeans(was: Nodes, end: Nodes, n: Names, f: Faults, force: bool)
    requires Staged(was, n) && Settled(was, end, n, f, force)
    ensures Succeeds(was, n, f, force) ==> BothNew(was, end, n)
    ensures !Succeeds(was, n, f, force) && UndoWorks(f) ==> BothOld(was, end, n)
    ensures NothingLost(was, end, n)
    ensures force && !Succeeds(was, n, f, force) && At(was, n.tmpDb) != At(was, n.db) ==>
              (BothOld(was, end, n) <==> DbBack(was, n, f) && ArtifactsBack(was, n, f))
    ensures !force && !Succeeds(was, n, f, force) ==> (BothOld(was, end, n) <==> !StaysBehind(was, n, f))
  {
  }
}
