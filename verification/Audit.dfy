/**
  The audit hash chain. The hash is a parameter; where a result needs it to be
  free of collisions it says so.
 */
module Audit {
  import opened Common

  /** The eleven fields that are hashed. Times and ids are compared by the database; integers stand for them. */
  datatype Fields = Fields(
    id: int, org: string, actorUser: string, actorType: string, action: string, targetType: string,
    targetId: string, result: string, metadata: string, occurredAt: int, previous: string)

  /** A stored row: the hashed fields and the stored hash, "" for a row from before the chain. */
  datatype Event = Event(fields: Fields, hash: string)

  type Hash = Fields -> string

  ghost predicate NeverEmpty(h: Hash) { forall x: Fields :: h(x) != "" }

  /** The hash at the end of a log. */
  function Head(log: seq<Event>): string { if |log| == 0 then "" else log[|log| - 1].hash }

  predicate Links(h: Hash, previous: string, e: Event) {
    e.fields.previous == previous && e.hash != "" && e.hash == h(e.fields)
  }

  /** Every row names its predecessor's hash and carries its own. */
  predicate Verifies(h: Hash, log: seq<Event>) {
    |log| == 0 || (Verifies(h, log[..|log| - 1]) && Links(h, Head(log[..|log| - 1]), log[|log| - 1]))
  }

  lemma {:induction false} VerifiesPrefix(h: Hash, log: seq<Event>, n: nat)
    requires n <= |log| && Verifies(h, log)
    ensures Verifies(h, log[..n])
    decreases |log|
  {
    if n == |log| {
      assert log[..n] == log;
    } else {
      VerifiesPrefix(h, log[..|log| - 1], n);
      assert log[..|log| - 1][..n] == log[..n];
    }
  }

  lemma VerifiesAt(h: Hash, log: seq<Event>, i: nat)
    requires i < |log| && Verifies(h, log)
    ensures Links(h, Head(log[..i]), log[i])
  {
    VerifiesPrefix(h, log, i + 1);
    assert log[..i + 1][..i] == log[..i];
  }

  /** The row names the hash of the row before it, and carries its own, which is not empty. */
  predicate RowFits(h: Hash, log: seq<Event>, i: nat)
    requires i < |log|
  {
    && log[i].fields.previous == (if i == 0 then "" else log[i - 1].hash)
    && log[i].hash != "" && log[i].hash == h(log[i].fields)
  }

  lemma VerifiesExactly(h: Hash, log: seq<Event>)
    ensures Verifies(h, log) <==> forall i | 0 <= i < |log| :: RowFits(h, log, i)
  {
    if Verifies(h, log) {
      forall i | 0 <= i < |log| ensures RowFits(h, log, i) {
        VerifiesAt(h, log, i);
        RowFitsExactly(h, log, i);
      }
    } else {
      var k := BadRow(h, log);
    }
  }

  lemma RowFitsExactly(h: Hash, log: seq<Event>, i: nat)
    requires i < |log|
    ensures RowFits(h, log, i) <==> Links(h, Head(log[..i]), log[i])
  {
  }

  lemma BadRow(h: Hash, log: seq<Event>) returns (k: nat)
    requires !Verifies(h, log)
    ensures k < |log| && !RowFits(h, log, k)
  {
    k := FirstBad(h, log);
    RowFitsExactly(h, log, k);
  }

  lemma {:induction false} FirstBad(h: Hash, log: seq<Event>) returns (k: nat)
    requires !Verifies(h, log)
    ensures k < |log| && !Links(h, Head(log[..k]), log[k])
    decreases |log|
  {
    var n := |log| - 1;
    if Verifies(h, log[..n]) {
      k := n;
    } else {
      k := FirstBad(h, log[..n]);
      assert log[..n][..k] == log[..k];
    }
  }

  /** The walk over one organisation's rows; on failure, checked counts the rows before the first bad one. */
  method VerifyAuditHashChain(h: Hash, log: seq<Event>) returns (checked: nat, ok: bool)
    ensures ok <==> Verifies(h, log)
    ensures checked <= |log| && Verifies(h, log[..checked])
    ensures ok ==> checked == |log|
    ensures !ok ==> checked < |log| && !Verifies(h, log[..checked + 1])
    ensures ok <==> forall i | 0 <= i < |log| :: RowFits(h, log, i)
  {
    VerifiesExactly(h, log);
    var previous := "";
    checked := 0;
    while checked < |log|
      invariant checked <= |log| && Verifies(h, log[..checked]) && previous == Head(log[..checked])
    {
      var e := log[checked];
      assert log[..checked + 1][..checked] == log[..checked];
      if e.fields.previous != previous || e.hash == "" || e.hash != h(e.fields) {
        if Verifies(h, log) {
          VerifiesPrefix(h, log, checked + 1);
        }
        return checked, false;
      }
      previous := e.hash;
      checked := checked + 1;
    }
    assert log[..checked] == log;
    return checked, true;
  }

  // ---- The head fixes the log ----

  /** No event of one log collides with an event of the other. */
  predicate NoCollision(h: Hash, a: seq<Event>, b: seq<Event>) {
    forall i, j | 0 <= i < |a| && 0 <= j < |b| && h(a[i].fields) == h(b[j].fields) :: a[i].fields == b[j].fields
  }

  /** Collisions apart, two verified logs that end in the same hash are the same log, field by field. */
  lemma {:induction false} HeadFixesLog(h: Hash, a: seq<Event>, b: seq<Event>)
    requires NoCollision(h, a, b) && Verifies(h, a) && Verifies(h, b) && Head(a) == Head(b)
    ensures a == b
    decreases |a|
  {
    if |a| == 0 || |b| == 0 {
    } else {
      var x, y := a[|a| - 1], b[|b| - 1];
      assert x.fields == y.fields;
      HeadFixesLog(h, a[..|a| - 1], b[..|b| - 1]);
      assert a == a[..|a| - 1] + [x] && b == b[..|b| - 1] + [y];
    }
  }

  // ---- Appending ----

  /** The order the rows are read in. */
  predicate Before(x: Fields, y: Fields) {
    x.occurredAt < y.occurredAt || (x.occurredAt == y.occurredAt && x.id < y.id)
  }

  predicate Sorted(log: seq<Event>) { forall i, j | 0 <= i < j < |log| :: Before(log[i].fields, log[j].fields) }

  /** Where a new row lands when the rows are read in order. */
  function Place(log: seq<Event>, f: Fields): (k: nat)
    ensures k <= |log|
    ensures k < |log| ==> !Before(log[k].fields, f)
    ensures k > 0 ==> Before(log[k - 1].fields, f)
  {
    if |log| == 0 then 0 else if Before(log[|log| - 1].fields, f) then |log| else Place(log[..|log| - 1], f)
  }

  /** The row of a writer that saw the given hash at the end of the log. */
  function Linked(h: Hash, f: Fields, seen: string): Event {
    var fields := f.(previous := seen);
    Event(fields, h(fields))
  }

  /** The log as it reads once that row is inserted. */
  function Inserted(h: Hash, log: seq<Event>, f: Fields, seen: string): seq<Event> {
    var k := Place(log, f);
    log[..k] + [Linked(h, f, seen)] + log[k..]
  }

  /** A row that lands before others breaks the chain, whatever it links to. */
  lemma EarlierBreaks(h: Hash, log: seq<Event>, f: Fields, seen: string)
    requires NeverEmpty(h) && Verifies(h, log) && NoCollision(h, log, [Linked(h, f, seen)])
    requires Place(log, f) < |log|
    ensures !Verifies(h, Inserted(h, log, f, seen))
  {
    var k, e, after := Place(log, f), Linked(h, f, seen), Inserted(h, log, f, seen);
    HashIsNew(h, log, k, e);
    assert after[..k + 1] == log[..k] + [e] && after[k + 1] == log[k];
    VerifiesAt(h, log, k);
    if Verifies(h, after) {
      VerifiesAt(h, after, k + 1);
    }
  }

  /** No earlier row carries the hash of a later one. */
  lemma HashIsNew(h: Hash, log: seq<Event>, k: nat, e: Event)
    requires Verifies(h, log) && NoCollision(h, log, [e]) && e.hash == h(e.fields) && e.hash != ""
    requires k <= |log| && (k > 0 ==> Before(log[k - 1].fields, e.fields))
    ensures e.hash != Head(log[..k])
  {
    if k > 0 {
      VerifiesAt(h, log, k - 1);
      assert log[..k][k - 1] == log[k - 1] && [e][0] == e;
    }
  }

  /**
    Collisions apart, an insert keeps a log verified exactly when the hash seen is still
    the head and the row sorts last.
   */
  lemma InsertVerifiesExactly(h: Hash, log: seq<Event>, f: Fields, seen: string)
    requires NeverEmpty(h) && Verifies(h, log) && NoCollision(h, log, [Linked(h, f, seen)])
    ensures Verifies(h, Inserted(h, log, f, seen)) <==> seen == Head(log) && Place(log, f) == |log|
  {
    var e, after := Linked(h, f, seen), Inserted(h, log, f, seen);
    if Place(log, f) == |log| {
      assert log[..|log|] == log && log[|log|..] == [];
      assert after == log + [e] && after[..|after| - 1] == log;
    } else {
      EarlierBreaks(h, log, f, seen);
    }
  }

  // ---- Writers that read first and insert later ----

  type Writer = nat

  datatype Trail = Trail(log: seq<Event>, seen: map<Writer, string>)

  /** Outside a transaction a writer looks and inserts in two steps; inside one, nothing runs between. */
  datatype Write = Look(w: Writer) | Insert(w: Writer, f: Fields) | Whole(f: Fields)

  function After(h: Hash, s: Trail, step: Write): Trail {
    match step
    case Look(w) => s.(seen := s.seen[w := Head(s.log)])
    case Insert(w, f) =>
      if w in s.seen then Trail(Inserted(h, s.log, f, s.seen[w]), s.seen - {w}) else s
    case Whole(f) => s.(log := Inserted(h, s.log, f, Head(s.log)))
  }

  function Run(h: Hash, s: Trail, steps: seq<Write>): Trail
    decreases |steps|
  {
    if |steps| == 0 then s else Run(h, After(h, s, steps[0]), steps[1..])
  }

  /** What the step inserts links to the end of the log and lands there. */
  predicate AtEnd(s: Trail, step: Write) {
    match step
    case Look(w) => true
    case Insert(w, f) => w in s.seen ==> s.seen[w] == Head(s.log) && Place(s.log, f) == |s.log|
    case Whole(f) => Place(s.log, f) == |s.log|
  }

  predicate AllAtEnd(h: Hash, s: Trail, steps: seq<Write>)
    decreases |steps|
  {
    |steps| == 0 || (AtEnd(s, steps[0]) && AllAtEnd(h, After(h, s, steps[0]), steps[1..]))
  }

  predicate AlwaysVerifies(h: Hash, s: Trail, steps: seq<Write>)
    decreases |steps|
  {
    Verifies(h, s.log) && (|steps| == 0 || AlwaysVerifies(h, After(h, s, steps[0]), steps[1..]))
  }

  /** Rows are never lost. */
  lemma {:induction false} RowsStay(h: Hash, s: Trail, steps: seq<Write>, e: Event)
    requires e in s.log
    ensures e in Run(h, s, steps).log
    decreases |steps|
  {
    if |steps| == 0 {
    } else {
      RowStays(h, s, steps[0], e);
      RowsStay(h, After(h, s, steps[0]), steps[1..], e);
    }
  }

  lemma RowStays(h: Hash, s: Trail, step: Write, e: Event)
    requires e in s.log
    ensures e in After(h, s, step).log
  {
    var f := if step.Look? then None else Some(step.f);
    if f.Some? {
      var k := Place(s.log, f.value);
      assert s.log == s.log[..k] + s.log[k..];
    }
  }

  lemma WriteStep(h: Hash, s: Trail, step: Write, all: seq<Event>)
    requires NeverEmpty(h) && Verifies(h, s.log) && NoCollision(h, all, all)
    requires forall e | e in After(h, s, step).log :: e in all
    ensures Verifies(h, After(h, s, step).log) <==> AtEnd(s, step)
  {
    if step.Whole? || (step.Insert? && step.w in s.seen) {
      var seen := if step.Whole? then Head(s.log) else s.seen[step.w];
      var row := Linked(h, step.f, seen);
      assert row in After(h, s, step).log;
      forall e | e in s.log ensures e in all {
        RowStays(h, s, step, e);
      }
      WithinAll(h, s.log, row, all);
      InsertVerifiesExactly(h, s.log, step.f, seen);
    }
  }

  lemma WithinAll(h: Hash, log: seq<Event>, row: Event, all: seq<Event>)
    requires NoCollision(h, all, all) && row in all && forall e | e in log :: e in all
    ensures NoCollision(h, log, [row])
  {
    var j :| 0 <= j < |all| && all[j] == row;
    forall i | 0 <= i < |log| && h(log[i].fields) == h(row.fields) ensures log[i].fields == row.fields {
      assert log[i] in all;
      var k :| 0 <= k < |all| && all[k] == log[i];
    }
  }

  /**
    Over any interleaving of writers, collisions apart: the log verifies all
    along exactly when every row inserted links to the end and lands there.
   */
  lemma {:induction false} WritesVerifyExactly(h: Hash, s: Trail, steps: seq<Write>)
    requires NeverEmpty(h) && Verifies(h, s.log)
    requires NoCollision(h, Run(h, s, steps).log, Run(h, s, steps).log)
    ensures AlwaysVerifies(h, s, steps) <==> AllAtEnd(h, s, steps)
    decreases |steps|
  {
    if |steps| == 0 {
    } else {
      var s' := After(h, s, steps[0]);
      forall e | e in s'.log ensures e in Run(h, s, steps).log {
        RowsStay(h, s', steps[1..], e);
      }
      WriteStep(h, s, steps[0], Run(h, s, steps).log);
      if Verifies(h, s'.log) {
        WritesVerifyExactly(h, s', steps[1..]);
      }
    }
  }

  /** Two writers that look before either inserts fork the chain, though each row sorts last. */
  lemma InterleavedWritersFork(h: Hash, log: seq<Event>, f: Fields, g: Fields)
    requires NeverEmpty(h) && Verifies(h, log) && Place(log, f) == |log| && Before(f, g)
    requires NoCollision(h, log, [Linked(h, f, Head(log))])
    ensures !Verifies(h, Run(h, Trail(log, map[]), [Look(1), Look(2), Insert(1, f), Insert(2, g)]).log)
  {
    var s1 := Trail(log, map[1 := Head(log)]);
    var s2 := Trail(log, map[1 := Head(log), 2 := Head(log)]);
    var s3 := After(h, s2, Insert(1, f));
    FourSteps(h, Trail(log, map[]), Look(1), Look(2), Insert(1, f), Insert(2, g));
    assert After(h, Trail(log, map[]), Look(1)) == s1 && After(h, s1, Look(2)) == s2;
    assert log[..|log|] == log && log[|log|..] == [];
    assert s3.log == log + [Linked(h, f, Head(log))] && s3.seen[2] == Head(log);
    SecondLinksBack(h, log, f, g);
  }

  lemma FourSteps(h: Hash, s: Trail, a: Write, b: Write, c: Write, d: Write)
    ensures Run(h, s, [a, b, c, d]) == After(h, After(h, After(h, After(h, s, a), b), c), d)
  {
    RunFirst(h, s, a, [b, c, d]);
    RunFirst(h, After(h, s, a), b, [c, d]);
    RunFirst(h, After(h, After(h, s, a), b), c, [d]);
    RunFirst(h, After(h, After(h, After(h, s, a), b), c), d, []);
    assert [a, b, c, d] == [a] + [b, c, d] && [b, c, d] == [b] + [c, d] && [c, d] == [c] + [d] && [d] == [d] + [];
  }

  lemma RunFirst(h: Hash, s: Trail, step: Write, rest: seq<Write>)
    ensures Run(h, s, [step] + rest) == Run(h, After(h, s, step), rest)
  {
    assert ([step] + rest)[1..] == rest;
  }

  lemma SecondLinksBack(h: Hash, log: seq<Event>, f: Fields, g: Fields)
    requires NeverEmpty(h) && Verifies(h, log) && Place(log, f) == |log| && Before(f, g)
    requires NoCollision(h, log, [Linked(h, f, Head(log))])
    ensures !Verifies(h, Inserted(h, log + [Linked(h, f, Head(log))], g, Head(log)))
  {
    var e := Linked(h, f, Head(log));
    var more := log + [e];
    var after := Inserted(h, more, g, Head(log));
    assert Place(more, g) == |more| && more[..|more|] == more && more[|more|..] == [];
    assert after[..|after| - 1] == more;
    assert after == more + [Linked(h, g, Head(log))] && Head(more) == e.hash;
    assert log[..|log|] == log;
    HashIsNew(h, log, |log|, e);
  }

  // ---- Backfilling ----

  /** Fills one organisation's rows, oldest first; previous is the hash before them. */
  function Filled(h: Hash, log: seq<Event>, previous: string): seq<Event> {
    if |log| == 0 then []
    else
      var e := log[0];
      var e' := if e.hash == "" then (var f := e.fields.(previous := previous); Event(f, h(f))) else e;
      [e'] + Filled(h, log[1..], e'.hash)
  }

  /** The same over rows of all organisations mixed, with one hash remembered for each. */
  function FilledAll(h: Hash, log: seq<Event>, previous: map<string, string>): (r: seq<Event>)
    ensures |r| == |log|
  {
    if |log| == 0 then []
    else
      var e := log[0];
      var e' := FillEvent(h, e, previous);
      [e'] + FilledAll(h, log[1..], previous[e.fields.org := e'.hash])
  }

  function PreviousOf(previous: map<string, string>, org: string): string {
    if org in previous then previous[org] else ""
  }

  function FillEvent(h: Hash, e: Event, previous: map<string, string>): Event {
    if e.hash == "" then (var f := e.fields.(previous := PreviousOf(previous, e.fields.org)); Event(f, h(f))) else e
  }

  /** The rows of one organisation, in order. */
  function Of(log: seq<Event>, org: string): seq<Event> {
    if |log| == 0 then [] else (if log[0].fields.org == org then [log[0]] else []) + Of(log[1..], org)
  }

  /** One pass over all organisations does to each what a pass over it alone does. */
  lemma {:induction false} OnePassIsEachAlone(h: Hash, log: seq<Event>, previous: map<string, string>, org: string)
    ensures Of(FilledAll(h, log, previous), org) == Filled(h, Of(log, org), PreviousOf(previous, org))
    decreases |log|
  {
    if |log| == 0 {
    } else {
      var e' := FillEvent(h, log[0], previous);
      var previous' := previous[log[0].fields.org := e'.hash];
      var rest := FilledAll(h, log[1..], previous');
      OnePassIsEachAlone(h, log[1..], previous', org);
      assert ([e'] + rest)[1..] == rest;
      if log[0].fields.org == org {
        assert Of(log, org)[1..] == Of(log[1..], org);
      } else {
        assert Of(log, org) == Of(log[1..], org);
        assert Of([e'] + rest, org) == Of(rest, org);
      }
    }
  }

  /** A row that already has a hash is left exactly as it is, and no other field of any row changes. */
  lemma {:induction false} FillKeepsRows(h: Hash, log: seq<Event>, previous: string, i: nat)
    requires i < |log|
    ensures |Filled(h, log, previous)| == |log|
    ensures log[i].hash != "" ==> Filled(h, log, previous)[i] == log[i]
    ensures Filled(h, log, previous)[i].fields.(previous := "") == log[i].fields.(previous := "")
  {
    var e := log[0];
    var hash := if e.hash == "" then h(e.fields.(previous := previous)) else e.hash;
    if |log| == 1 {
      assert log[1..] == [];
    } else {
      FillKeepsRows(h, log[1..], hash, if i == 0 then 0 else i - 1);
    }
  }

  /** Filling twice is filling once. */
  lemma {:induction false} FillIsIdempotent(h: Hash, log: seq<Event>, previous: string)
    requires NeverEmpty(h)
    ensures Filled(h, Filled(h, log, previous), previous) == Filled(h, log, previous)
    decreases |log|
  {
    if |log| == 0 {
    } else {
      var e := log[0];
      var e' := if e.hash == "" then Event(e.fields.(previous := previous), h(e.fields.(previous := previous))) else e;
      var rest := Filled(h, log[1..], e'.hash);
      FillIsIdempotent(h, log[1..], e'.hash);
      assert Filled(h, log, previous) == [e'] + rest && ([e'] + rest)[1..] == rest;
    }
  }

  /** The rows read forward, each linked to the one before it. */
  predicate Chain(h: Hash, log: seq<Event>, previous: string) {
    |log| == 0 || (Links(h, previous, log[0]) && Chain(h, log[1..], log[0].hash))
  }

  lemma {:induction false} ChainIsVerifies(h: Hash, log: seq<Event>, n: nat)
    requires n <= |log| && Verifies(h, log[..n]) && Chain(h, log[n..], Head(log[..n]))
    ensures Verifies(h, log)
    decreases |log| - n
  {
    if n == |log| {
      assert log[..n] == log;
    } else {
      assert log[..n + 1][..n] == log[..n] && log[n..][1..] == log[n + 1..];
      ChainIsVerifies(h, log, n + 1);
    }
  }

  lemma {:induction false} VerifiesIsChain(h: Hash, log: seq<Event>, n: nat)
    requires n <= |log| && Verifies(h, log)
    ensures Chain(h, log[n..], Head(log[..n]))
    decreases |log| - n
  {
    if n == |log| {
    } else {
      VerifiesAt(h, log, n);
      VerifiesIsChain(h, log, n + 1);
      assert log[n..][1..] == log[n + 1..] && log[..n + 1][n] == log[n];
    }
  }

  /** A row with a hash fits where the backfill will leave it. */
  predicate Fits(h: Hash, log: seq<Event>, previous: string) {
    |log| == 0
    || (var e := log[0];
        var hash := if e.hash == "" then h(e.fields.(previous := previous)) else e.hash;
        (e.hash != "" ==> Links(h, previous, e)) && Fits(h, log[1..], hash))
  }

  lemma {:induction false} FillChains(h: Hash, log: seq<Event>, previous: string)
    requires NeverEmpty(h)
    ensures Chain(h, Filled(h, log, previous), previous) <==> Fits(h, log, previous)
    decreases |log|
  {
    if |log| == 0 {
    } else {
      var e := log[0];
      var e' := if e.hash == "" then Event(e.fields.(previous := previous), h(e.fields.(previous := previous))) else e;
      FillChains(h, log[1..], e'.hash);
      assert ([e'] + Filled(h, log[1..], e'.hash))[1..] == Filled(h, log[1..], e'.hash);
    }
  }

  /** After a backfill the log verifies exactly when every row that already had a hash was linked right. */
  lemma BackfillVerifiesExactly(h: Hash, log: seq<Event>)
    requires NeverEmpty(h)
    ensures Verifies(h, Filled(h, log, "")) <==> Fits(h, log, "")
  {
    var filled := Filled(h, log, "");
    FillChains(h, log, "");
    assert filled[..0] == [] && filled[0..] == filled;
    if Fits(h, log, "") {
      ChainIsVerifies(h, filled, 0);
    }
    if Verifies(h, filled) {
      VerifiesIsChain(h, filled, 0);
    }
  }

  lemma {:induction false} PrefixThenUnhashedFits(h: Hash, log: seq<Event>, n: nat, previous: string)
    requires n <= |log| && Chain(h, log[..n], previous) && forall i | n <= i < |log| :: log[i].hash == ""
    ensures Fits(h, log, previous)
    decreases |log|
  {
    if |log| == 0 {
    } else {
      if n > 0 {
        assert log[..n][1..] == log[1..][..n - 1];
        PrefixThenUnhashedFits(h, log[1..], n - 1, log[0].hash);
      } else {
        assert log[1..][..0] == [];
        PrefixThenUnhashedFits(h, log[1..], 0, h(log[0].fields.(previous := previous)));
      }
    }
  }

  /** In particular a verified prefix followed by rows from before the chain. */
  lemma BackfillCompletesAVerifiedPrefix(h: Hash, log: seq<Event>, n: nat)
    requires NeverEmpty(h) && n <= |log| && Verifies(h, log[..n]) && forall i | n <= i < |log| :: log[i].hash == ""
    ensures Verifies(h, Filled(h, log, ""))
  {
    VerifiesIsChain(h, log[..n], 0);
    assert log[..n][0..] == log[..n] && log[..n][..0] == [];
    PrefixThenUnhashedFits(h, log, n, "");
    BackfillVerifiesExactly(h, log);
  }

  lemma FilledAllStep(h: Hash, e: Event, rest: seq<Event>, previous: map<string, string>, done: seq<Event>)
    ensures var e' := FillEvent(h, e, previous);
            done + FilledAll(h, [e] + rest, previous) ==
                (done + [e']) + FilledAll(h, rest, previous[e.fields.org := e'.hash])
  {
    assert ([e] + rest)[1..] == rest;
  }

  /** The backfill's loop, which updates the records it read in place. */
  method BackfillAuditHashChain(h: Hash, records: array<Event>)
    modifies records
    ensures records[..] == FilledAll(h, old(records[..]), map[])
  {
    var previousByOrg: map<string, string> := map[];
    ghost var all := records[..];
    var i := 0;
    while i < records.Length
      invariant 0 <= i <= records.Length
      invariant records[i..] == all[i..]
      invariant records[..i] + FilledAll(h, all[i..], previousByOrg) == FilledAll(h, all, map[])
    {
      FilledAllStep(h, all[i], all[i + 1..], previousByOrg, records[..i]);
      assert all[i..] == [all[i]] + all[i + 1..] && records[i] == all[i];
      BackfillOne(h, records, i, previousByOrg);
      assert records[..i + 1] == records[..i] + [records[i]];
      previousByOrg := previousByOrg[records[i].fields.org := records[i].hash];
      i := i + 1;
    }
    assert records[..i] == records[..] && all[i..] == [];
  }

  /** One turn of the loop: a record without a hash is linked to the last hash of its organisation. */
  method BackfillOne(h: Hash, records: array<Event>, i: nat, previousByOrg: map<string, string>)
    requires i < records.Length
    modifies records
    ensures records[i] == FillEvent(h, old(records[i]), previousByOrg)
    ensures records[..i] == old(records[..i]) && records[i + 1..] == old(records[i + 1..])
  {
    if records[i].hash == "" {
      var org := records[i].fields.org;
      var fields := records[i].fields.(previous := if org in previousByOrg then previousByOrg[org] else "");
      records[i] := Event(fields, h(fields));
    }
  }

  /** One organisation's rows, in the order the database reads them. */
  class AuditLog {
    var log: seq<Event>

    /** Rows are read in order, and no two share time and id. */
    ghost predicate Valid()
      reads this
    {
      Sorted(log)
    }

    method LatestAuditHash() returns (hash: string)
      ensures |log| == 0 ==> hash == ""
      ensures |log| > 0 ==> hash == log[|log| - 1].hash
    {
      if |log| == 0 {
        return "";
      }
      return log[|log| - 1].hash;
    }

    method FindPlace(f: Fields) returns (k: nat)
      ensures k == Place(log, f)
    {
      k := |log|;
      assert log[..k] == log;
      while k > 0 && !Before(log[k - 1].fields, f)
        invariant k <= |log| && Place(log[..k], f) == Place(log, f)
      {
        assert log[..k][..k - 1] == log[..k - 1];
        k := k - 1;
      }
    }

    /**
      The insert, which may come long after the look. The row carries the caller's
      fields, the hash seen and its own hash; every other row stays, in order; and
      the log still verifies exactly when nothing came between and the row sorts last.
     */
    method InsertAuditEvent(h: Hash, f: Fields, seen: string) returns (k: nat, row: Event)
      requires Valid() && NeverEmpty(h) && IsNew(log, f)
      modifies this
      ensures Valid()
      ensures k <= |old(log)| && log == old(log)[..k] + [row] + old(log)[k..]
      ensures row.fields == f.(previous := seen) && row.hash == h(row.fields)
      ensures forall i | 0 <= i < k ::
                var e := old(log)[i].fields;
                e.occurredAt < f.occurredAt || (e.occurredAt == f.occurredAt && e.id < f.id)
      ensures forall i | k <= i < |old(log)| ::
                var e := old(log)[i].fields;
                f.occurredAt < e.occurredAt || (f.occurredAt == e.occurredAt && f.id < e.id)
      ensures Verifies(h, old(log)) && NoCollision(h, old(log), [row]) ==>
                (Verifies(h, log) <==> seen == Head(old(log)) && k == |old(log)|)
    {
      PlaceSplits(log, f);
      k := FindPlace(f);
      var fields := f.(previous := seen);
      row := Event(fields, h(fields));
      InsertMeans(h, log, f, seen);
      log := log[..k] + [row] + log[k..];
    }

    /** Inside a transaction: the look and the insert with nothing between. */
    method WriteAuditEvent(h: Hash, f: Fields) returns (k: nat, row: Event)
      requires Valid() && NeverEmpty(h) && IsNew(log, f)
      modifies this
      ensures Valid()
      ensures k <= |old(log)| && log == old(log)[..k] + [row] + old(log)[k..]
      ensures row.fields == f.(previous := if old(log) == [] then "" else old(log)[|old(log)| - 1].hash)
      ensures row.hash == h(row.fields)
      ensures Verifies(h, old(log)) && NoCollision(h, old(log), [row]) ==> (Verifies(h, log) <==> k == |old(log)|)
    {
      var previous := LatestAuditHash();
      k, row := InsertAuditEvent(h, f, previous);
    }
  }

  /** No row has the time and id of f. */
  predicate IsNew(log: seq<Event>, f: Fields) {
    forall i | 0 <= i < |log| :: log[i].fields.occurredAt != f.occurredAt || log[i].fields.id != f.id
  }

  lemma InsertMeans(h: Hash, log: seq<Event>, f: Fields, seen: string)
    requires Sorted(log) && NeverEmpty(h) && IsNew(log, f)
    ensures Sorted(Inserted(h, log, f, seen))
    ensures Verifies(h, log) && NoCollision(h, log, [Linked(h, f, seen)]) ==>
              (Verifies(h, Inserted(h, log, f, seen)) <==> seen == Head(log) && Place(log, f) == |log|)
  {
    InsertedSorted(h, log, f, seen);
    if Verifies(h, log) && NoCollision(h, log, [Linked(h, f, seen)]) {
      InsertVerifiesExactly(h, log, f, seen);
    }
  }

  lemma {:induction false} PlaceSplits(log: seq<Event>, f: Fields)
    requires Sorted(log)
    ensures forall i | 0 <= i < Place(log, f) :: Before(log[i].fields, f)
    ensures forall i | Place(log, f) <= i < |log| :: !Before(log[i].fields, f)
  {
    if |log| == 0 {
    } else {
      var init := log[..|log| - 1];
      assert Sorted(init) by {
        assert forall i | 0 <= i < |init| :: init[i] == log[i];
      }
      PlaceSplits(init, f);
      if Before(log[|log| - 1].fields, f) {
        forall i | 0 <= i < |log| - 1 ensures Before(log[i].fields, f) {
          assert Before(log[i].fields, log[|log| - 1].fields);
        }
      }
    }
  }

  /** A row at a time and id of its own lands in order. */
  lemma InsertedSorted(h: Hash, log: seq<Event>, f: Fields, seen: string)
    requires Sorted(log) && IsNew(log, f)
    ensures Sorted(Inserted(h, log, f, seen))
  {
    var k, after := Place(log, f), Inserted(h, log, f, seen);
    PlaceSplits(log, f);
    assert forall i | 0 <= i < k :: after[i] == log[i];
    assert forall i | k < i < |after| :: after[i] == log[i - 1];
  }
}
