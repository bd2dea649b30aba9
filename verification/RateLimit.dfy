/** The bounded rate limiter: at most maxKeys windows are remembered, the oldest gives way. */
module RateLimit {
  import opened Common

  type Key = string

  datatype Bucket = Bucket(started: int, count: nat)

  datatype Config = Config(maxKeys: int, limit: int, window: int)

  type Entries = map<Key, Bucket>

  /** A fresh window opens for a key that has none, or whose window is over. */
  predicate Opens(c: Config, entries: Entries, key: Key, now: int) {
    key !in entries || now - entries[key].started >= c.window
  }

  predicate Oldest(entries: Entries, key: Key) {
    key in entries && forall k | k in entries :: entries[key].started <= entries[k].started
  }

  predicate MustEvict(c: Config, entries: Entries, key: Key) {
    key !in entries && |entries| >= c.maxKeys && |entries| > 0
  }

  /** The decision, which does not depend on what is evicted. */
  predicate Allows(c: Config, entries: Entries, key: Key, now: int) {
    Opens(c, entries, key, now) || entries[key].count < c.limit
  }

  /** The entries after a call, when the entry evicted, if one must be, is the victim. */
  function After(c: Config, entries: Entries, key: Key, now: int, victim: Key): Entries {
    if Opens(c, entries, key, now) then
      (if MustEvict(c, entries, key) then entries - {victim} else entries)[key := Bucket(now, 1)]
    else if entries[key].count >= c.limit then entries
    else entries[key := Bucket(entries[key].started, entries[key].count + 1)]
  }

  predicate LegalVictim(c: Config, entries: Entries, key: Key, victim: Key) {
    MustEvict(c, entries, key) ==> Oldest(entries, victim)
  }

  class BoundedRateLimiter {
    var entries: Entries
    const config: Config

    constructor (config: Config)
      ensures this.config == config && entries == map[]
    {
      this.config := config;
      entries := map[];
    }

    /** Ranges over the entries in any order; "" marks that none was met yet, so keys are not empty. */
    method EvictOldest() returns (victim: Key)
      requires "" !in entries
      modifies this`entries
      ensures old(entries) == map[] ==> entries == map[]
      ensures old(entries) != map[] ==> Oldest(old(entries), victim) && entries == old(entries) - {victim}
    {
      var oldestKey: Key := "";
      var oldest := 0;
      var todo := entries.Keys;
      while todo != {}
        invariant todo <= entries.Keys
        invariant oldestKey == "" ==> todo == entries.Keys
        invariant oldestKey != "" ==> oldestKey in entries && oldest == entries[oldestKey].started
        invariant oldestKey != "" ==> forall k | k in entries && k !in todo :: oldest <= entries[k].started
      {
        var k :| k in todo;
        if oldestKey == "" || entries[k].started < oldest {
          oldestKey, oldest := k, entries[k].started;
        }
        todo := todo - {k};
      }
      if oldestKey != "" {
        entries := entries - {oldestKey};
      }
      return oldestKey;
    }

    /** Refused exactly when the key's window is still open and has had its limit. */
    method Allow(key: Key, now: int) returns (ok: bool, ghost victim: Key)
      requires key != "" && "" !in entries
      modifies this`entries
      ensures "" !in entries
      ensures !ok <==>
                && key in old(entries) && now < old(entries)[key].started + config.window
                && old(entries)[key].count >= config.limit
      ensures ok ==>
                key in entries && entries[key] ==
                  if key in old(entries) && now < old(entries)[key].started + config.window
                  then Bucket(old(entries)[key].started, old(entries)[key].count + 1) else Bucket(now, 1)
      ensures forall k | k != key && k in entries :: k in old(entries) && entries[k] == old(entries)[k]
      ensures forall k | k != key && k in old(entries) && k !in entries ::
                && key !in old(entries) && |old(entries)| >= config.maxKeys
                && forall l | l in old(entries) :: old(entries)[k].started <= old(entries)[l].started
      ensures ok <==> Allows(config, old(entries), key, now)
      ensures LegalVictim(config, old(entries), key, victim)
      ensures entries == After(config, old(entries), key, now, victim)
    {
      victim := "";
      if key !in entries || now - entries[key].started >= config.window {
        if key !in entries && |entries| >= config.maxKeys {
          victim := EvictOldest();
          assert old(entries) == map[] <==> |old(entries)| == 0;
        }
        entries := entries[key := Bucket(now, 1)];
        return true, victim;
      }
      if entries[key].count >= config.limit {
        return false, victim;
      }
      entries := entries[key := Bucket(entries[key].started, entries[key].count + 1)];
      return true, victim;
    }
  }

  // ---- Runs ----

  datatype Call = Call(key: Key, now: int, victim: Key)

  function Run(c: Config, entries: Entries, calls: seq<Call>): Entries
    decreases |calls|
  {
    if |calls| == 0 then entries
    else Run(c, After(c, entries, calls[0].key, calls[0].now, calls[0].victim), calls[1..])
  }

  /** Every eviction of the run is one the limiter may make. */
  ghost predicate Legal(c: Config, entries: Entries, calls: seq<Call>)
    decreases |calls|
  {
    |calls| == 0
    || (LegalVictim(c, entries, calls[0].key, calls[0].victim)
        && Legal(c, After(c, entries, calls[0].key, calls[0].now, calls[0].victim), calls[1..]))
  }

  lemma StepIsBounded(c: Config, entries: Entries, call: Call)
    requires |entries| <= Max(1, c.maxKeys) && LegalVictim(c, entries, call.key, call.victim)
    ensures |After(c, entries, call.key, call.now, call.victim)| <= Max(1, c.maxKeys)
  {
    if Opens(c, entries, call.key, call.now) && MustEvict(c, entries, call.key) {
      assert (entries - {call.victim}).Keys == entries.Keys - {call.victim};
      assert |entries - {call.victim}| == |entries| - 1;
    }
  }

  /** However many keys are seen, at most max(1, maxKeys) windows are remembered. */
  lemma {:induction false} EntriesAreBounded(c: Config, entries: Entries, calls: seq<Call>)
    requires |entries| <= Max(1, c.maxKeys) && Legal(c, entries, calls)
    ensures |Run(c, entries, calls)| <= Max(1, c.maxKeys)
    decreases |calls|
  {
    if |calls| == 0 {
    } else {
      StepIsBounded(c, entries, calls[0]);
      EntriesAreBounded(c, After(c, entries, calls[0].key, calls[0].now, calls[0].victim), calls[1..]);
    }
  }

  /** How many calls of the run for the key are let through. */
  function Admitted(c: Config, entries: Entries, calls: seq<Call>, key: Key): nat
    decreases |calls|
  {
    if |calls| == 0 then 0
    else
      (if calls[0].key == key && Allows(c, entries, key, calls[0].now) then 1 else 0)
      + Admitted(c, After(c, entries, calls[0].key, calls[0].now, calls[0].victim), calls[1..], key)
  }

  /** The key is not evicted during the run. */
  ghost predicate Kept(c: Config, entries: Entries, calls: seq<Call>, key: Key)
    decreases |calls|
  {
    |calls| == 0
    || ((MustEvict(c, entries, calls[0].key) ==> calls[0].victim != key)
        && Kept(c, After(c, entries, calls[0].key, calls[0].now, calls[0].victim), calls[1..], key))
  }

  /** The clock does not run backwards from one call to the next, and ends before the limit. */
  predicate InSpan(calls: seq<Call>, from: int, to: int) {
    |calls| == 0 || (from <= calls[0].now < to && InSpan(calls[1..], calls[0].now, to))
  }

  /**
    What the key may still be allowed before the time runs out: the rest of its window,
    and one window more if it ends first.
   */
  function Allowance(c: Config, entries: Entries, key: Key, now: int, to: int): int {
    if key !in entries then 2 * c.limit
    else
      var left := Max(0, c.limit - entries[key].count);
      if entries[key].started + c.window < to then left + c.limit else left
  }

  lemma {:induction false} AdmittedWithinAllowance(
      c: Config, entries: Entries, calls: seq<Call>, key: Key, from: int, to: int)
    requires c.limit >= 1 && InSpan(calls, from, to) && to - from <= c.window
    requires Kept(c, entries, calls, key)
    ensures key in entries ==> Admitted(c, entries, calls, key) <= Allowance(c, entries, key, from, to)
    ensures key !in entries ==> Admitted(c, entries, calls, key) <= c.limit
    decreases |calls|
  {
    if |calls| == 0 {
    } else {
      var call := calls[0];
      var next := After(c, entries, call.key, call.now, call.victim);
      AdmittedWithinAllowance(c, next, calls[1..], key, call.now, to);
    }
  }

  /**
    A key that is not evicted gets at most twice the limit in any span no longer
    than the window, wherever the span begins.
   */
  lemma AtMostTwiceTheLimit(c: Config, entries: Entries, calls: seq<Call>, key: Key, from: int)
    requires c.limit >= 1 && InSpan(calls, from, from + c.window) && Kept(c, entries, calls, key)
    ensures Admitted(c, entries, calls, key) <= 2 * c.limit
  {
    AdmittedWithinAllowance(c, entries, calls, key, from, from + c.window);
  }

  /** How many of the key's calls that were let through came at the given time or later. */
  function AdmittedSince(c: Config, entries: Entries, calls: seq<Call>, key: Key, from: int): nat
    decreases |calls|
  {
    if |calls| == 0 then 0
    else
      (if calls[0].key == key && calls[0].now >= from && Allows(c, entries, key, calls[0].now) then 1 else 0)
      + AdmittedSince(c, After(c, entries, calls[0].key, calls[0].now, calls[0].victim), calls[1..], key, from)
  }

  lemma {:induction false} SinceIsMonotone(
      c: Config, entries: Entries, calls: seq<Call>, key: Key, from: int, later: int)
    requires from <= later
    ensures AdmittedSince(c, entries, calls, key, later) <= AdmittedSince(c, entries, calls, key, from)
    decreases |calls|
  {
    if |calls| == 0 {
    } else {
      SinceIsMonotone(
        c, After(c, entries, calls[0].key, calls[0].now, calls[0].victim), calls[1..], key, from, later);
    }
  }

  /** The count of a window that was there already. */
  function CountThere(entries: Entries, key: Key, started: int): nat {
    if key in entries && entries[key].started == started then entries[key].count else 0
  }

  /** A window's count is backed by calls that were let through since it opened. */
  lemma {:induction false} CountIsBacked(c: Config, entries: Entries, calls: seq<Call>, key: Key, from: int, to: int)
    requires InSpan(calls, from, to) && (key in entries ==> entries[key].started <= from)
    requires key in Run(c, entries, calls)
    ensures var b := Run(c, entries, calls)[key];
            b.count <= AdmittedSince(c, entries, calls, key, b.started) + CountThere(entries, key, b.started)
    decreases |calls|
  {
    if |calls| == 0 {
    } else {
      var next := After(c, entries, calls[0].key, calls[0].now, calls[0].victim);
      CountIsBacked(c, next, calls[1..], key, calls[0].now, to);
    }
  }

  /**
    Nobody is refused without cause: if a call is refused, as many calls of its key as
    the limit were let through less than a window before it, whatever other keys did.
   */
  lemma RefusalHasCause(c: Config, calls: seq<Call>, key: Key, from: int, now: int)
    requires InSpan(calls, from, now + 1) && !Allows(c, Run(c, map[], calls), key, now)
    ensures AdmittedSince(c, map[], calls, key, now - c.window + 1) >= c.limit
  {
    CountIsBacked(c, map[], calls, key, from, now + 1);
    SinceIsMonotone(c, map[], calls, key, now - c.window + 1, Run(c, map[], calls)[key].started);
  }

  // ---- Against a limiter that forgets nothing ----

  function UnboundedAfter(c: Config, entries: Entries, key: Key, now: int): Entries {
    if Opens(c, entries, key, now) then entries[key := Bucket(now, 1)]
    else if entries[key].count >= c.limit then entries
    else entries[key := Bucket(entries[key].started, entries[key].count + 1)]
  }

  function Keys(calls: seq<Call>): set<Key> { set i | 0 <= i < |calls| :: calls[i].key }

  function Decisions(c: Config, entries: Entries, calls: seq<Call>): seq<bool>
    decreases |calls|
  {
    if |calls| == 0 then []
    else
      [Allows(c, entries, calls[0].key, calls[0].now)]
      + Decisions(c, After(c, entries, calls[0].key, calls[0].now, calls[0].victim), calls[1..])
  }

  function UnboundedDecisions(c: Config, entries: Entries, calls: seq<Call>): seq<bool>
    decreases |calls|
  {
    if |calls| == 0 then []
    else
      [Allows(c, entries, calls[0].key, calls[0].now)]
      + UnboundedDecisions(c, UnboundedAfter(c, entries, calls[0].key, calls[0].now), calls[1..])
  }

  lemma KeysTail(calls: seq<Call>)
    requires |calls| > 0
    ensures Keys(calls) == {calls[0].key} + Keys(calls[1..])
  {
    assert calls == [calls[0]] + calls[1..];
    forall k | k in Keys(calls)
      ensures k in {calls[0].key} + Keys(calls[1..])
    {
      var i :| 0 <= i < |calls| && calls[i].key == k;
      assert i > 0 ==> calls[1..][i - 1].key == k;
    }
    forall k | k in Keys(calls[1..])
      ensures k in Keys(calls)
    {
      var i :| 0 <= i < |calls[1..]| && calls[1..][i].key == k;
      assert calls[i + 1].key == k;
    }
  }

  lemma NothingEvicted(c: Config, entries: Entries, key: Key, now: int, victim: Key, seen: set<Key>)
    requires key in seen && |entries.Keys + seen| <= c.maxKeys
    ensures After(c, entries, key, now, victim) == UnboundedAfter(c, entries, key, now)
    ensures After(c, entries, key, now, victim).Keys + seen == entries.Keys + seen
  {
    if key !in entries {
      SubsetSize(entries.Keys + {key}, entries.Keys + seen);
      assert |entries.Keys + {key}| == |entries| + 1;
    }
  }

  /** While no more keys are seen than it may remember, the limiter decides as if it remembered all. */
  lemma {:induction false} SameDecisionsWhileKeysFit(c: Config, entries: Entries, calls: seq<Call>)
    requires |entries.Keys + Keys(calls)| <= c.maxKeys
    ensures Decisions(c, entries, calls) == UnboundedDecisions(c, entries, calls)
    decreases |calls|
  {
    if |calls| == 0 {
    } else {
      var call := calls[0];
      var next := After(c, entries, call.key, call.now, call.victim);
      KeysTail(calls);
      NothingEvicted(c, entries, call.key, call.now, call.victim, Keys(calls));
      SubsetSize(next.Keys + Keys(calls[1..]), entries.Keys + Keys(calls));
      SameDecisionsWhileKeysFit(c, next, calls[1..]);
    }
  }
}
