/**
  The interval scheduler. Any number of loops read the due schedules, look
  whether automation is paused, work out the next instant and then claim it with
  a guarded update; the clock may move between any two of these steps.
 */
module Schedule {
  import opened Common
  import opened Arith

  type ScheduleId = nat
  type LoopId = nat
  type OrgId = nat

  // ---- The next instant ----

  /** The next instant; None stands for a stored time that is missing or cannot be read. */
  function Next(next: Option<int>, interval: int, now: int): int {
    if interval < 1 then now
    else if next.None? then now + interval
    else if next.value > now then next.value
    else next.value + ((now - next.value) / interval + 1) * interval
  }

  /** The next instant is the least one of the schedule's own that is still to come. */
  lemma NextIsLeast(next: int, interval: int, now: int, k: nat)
    requires interval >= 1
    ensures now < Next(Some(next), interval, now)
    ensures Multiple(Next(Some(next), interval, now) - next, interval) && Next(Some(next), interval, now) >= next
    ensures next + k * interval > now ==> Next(Some(next), interval, now) <= next + k * interval
  {
    if next > now {
      MultipleZero(interval);
      MulMono(0, k, interval);
    } else {
      var m := (now - next) / interval;
      DivBounds(now - next, interval);
      DivMono(0, now - next, interval);
      assert Next(Some(next), interval, now) - next == Times(m + 1, interval);
      if k <= m {
        MulMono(k, m, interval);
      } else {
        MulMono(m + 1, k, interval);
      }
    }
  }

  lemma NextWithin(next: int, interval: int, now: int)
    requires interval >= 1
    ensures Next(Some(next), interval, now) == next || Next(Some(next), interval, now) - interval <= now
  {
    if next <= now {
      DivBounds(now - next, interval);
    }
  }

  /** The loop that adds the interval until the instant lies ahead; it ends because the interval is positive. */
  method NextAfter(nextRunAt: Option<int>, interval: int, now: int) returns (r: int)
    ensures r == Next(nextRunAt, interval, now)
    ensures interval < 1 ==> r == now
    ensures interval >= 1 && nextRunAt.None? ==> r == now + interval
    ensures interval >= 1 && nextRunAt.Some? ==>
              && r > now && r >= nextRunAt.value && Multiple(r - nextRunAt.value, interval)
              && (r == nextRunAt.value || r - interval <= now)
  {
    if interval >= 1 && nextRunAt.Some? {
      NextIsLeast(nextRunAt.value, interval, now, 0);
      NextWithin(nextRunAt.value, interval, now);
    }
    if interval < 1 {
      return now;
    }
    if nextRunAt.None? {
      return now + interval;
    }
    r := nextRunAt.value;
    ghost var k := 0;
    while r <= now
      invariant k >= 0 && r == nextRunAt.value + k * interval
      invariant k > 0 ==> nextRunAt.value + (k - 1) * interval <= now
      decreases now - r
    {
      r := r + interval;
      k := k + 1;
      assert k * interval == (k - 1) * interval + interval;
    }
    if k > 0 {
      DivUnique(now - nextRunAt.value, interval, k - 1);
    }
  }

  // ---- The machine ----

  datatype Row = Row(org: OrgId, interval: int, next: int, enabled: bool)

  /** How far a loop has come with a schedule it read. */
  datatype Stage =
    | HasRead(id: ScheduleId, next: int)
    | NotPaused(id: ScheduleId, next: int)
    | Computed(id: ScheduleId, target: int)

  datatype Db = Db(now: int, rows: map<ScheduleId, Row>, paused: set<OrgId>, loops: map<LoopId, Stage>)

  datatype Step =
    | Tick(seconds: nat)
    | Create(id: ScheduleId, row: Row)
    | Disable(id: ScheduleId)
    | Pause(org: OrgId)
    | Resume(org: OrgId)
    | Read(loop: LoopId, id: ScheduleId)
    | Check(loop: LoopId)
    | Compute(loop: LoopId)
    | Claim(loop: LoopId)

  predicate Due(row: Row, now: int) { row.enabled && row.next <= now }

  /** The claim's guard; it asks only whether the row is still due. */
  predicate Claims(s: Db, loop: LoopId) {
    loop in s.loops && s.loops[loop].Computed? && s.loops[loop].id in s.rows && Due(s.rows[s.loops[loop].id], s.now)
  }

  function After(s: Db, step: Step): Db {
    match step
    case Tick(d) => s.(now := s.now + d)
    case Create(id, row) => if id in s.rows || row.interval < 60 then s
        else s.(rows := s.rows[id := row.(enabled := true)])
    case Disable(id) => if id in s.rows then s.(rows := s.rows[id := s.rows[id].(enabled := false)]) else s
    case Pause(org) => s.(paused := s.paused + {org})
    case Resume(org) => s.(paused := s.paused - {org})
    case Read(loop, id) =>
      if id in s.rows && Due(s.rows[id], s.now) then s.(loops := s.loops[loop := HasRead(id, s.rows[id].next)]) else s
    case Check(loop) =>
      if loop !in s.loops || !s.loops[loop].HasRead? || s.loops[loop].id !in s.rows then s
      else if s.rows[s.loops[loop].id].org in s.paused then s.(loops := s.loops - {loop})
      else s.(loops := s.loops[loop := NotPaused(s.loops[loop].id, s.loops[loop].next)])
    case Compute(loop) =>
      if loop !in s.loops || !s.loops[loop].NotPaused? || s.loops[loop].id !in s.rows then s
      else
        var x := s.loops[loop];
        s.(loops := s.loops[loop := Computed(x.id, Next(Some(x.next), s.rows[x.id].interval, s.now))])
    case Claim(loop) =>
      if loop !in s.loops || !s.loops[loop].Computed? then s
      else
        var x := s.loops[loop];
        var s0 := s.(loops := s.loops - {loop});
        if Claims(s, loop) then s0.(rows := s.rows[x.id := s.rows[x.id].(next := x.target)]) else s0
  }

  function Run(s: Db, steps: seq<Step>): Db
    decreases |steps|
  {
    if |steps| == 0 then s else Run(After(s, steps[0]), steps[1..])
  }

  const INIT: Db := Db(0, map[], {}, map[])

  ghost predicate OnLattice(row: Row, x: int) { Multiple(x - row.next, row.interval) }

  /**
    Whatever a loop still carries is one of the schedule's own instants; a computed one
    was the next at some earlier time.
   */
  ghost predicate Inv(s: Db) {
    && (forall id | id in s.rows :: s.rows[id].interval >= 60)
    && (forall l | l in s.loops ::
          && s.loops[l].id in s.rows
          && var row := s.rows[s.loops[l].id];
          if s.loops[l].Computed? then OnLattice(row, s.loops[l].target) && s.loops[l].target - row.interval <= s.now
          else OnLattice(row, s.loops[l].next) && s.loops[l].next <= s.now)
  }

  lemma ClaimKeepsInv(s: Db, loop: LoopId)
    requires Inv(s)
    ensures Inv(After(s, Claim(loop)))
  {
    if loop in s.loops && s.loops[loop].Computed? && Claims(s, loop) {
      var x := s.loops[loop];
      var row := s.rows[x.id];
      var s' := After(s, Claim(loop));
      forall l | l in s'.loops && s.loops[l].id == x.id
        ensures OnLattice(s'.rows[x.id], if s.loops[l].Computed? then s.loops[l].target else s.loops[l].next)
      {
        var held := if s.loops[l].Computed? then s.loops[l].target else s.loops[l].next;
        MultipleSub(held - row.next, x.target - row.next, row.interval);
      }
    }
  }

  lemma ComputeKeepsInv(s: Db, loop: LoopId)
    requires Inv(s)
    ensures Inv(After(s, Compute(loop)))
  {
    if loop in s.loops && s.loops[loop].NotPaused? {
      var x := s.loops[loop];
      var row := s.rows[x.id];
      var r := Next(Some(x.next), row.interval, s.now);
      NextIsLeast(x.next, row.interval, s.now, 0);
      MultipleAdd(x.next - row.next, r - x.next, row.interval);
      NextWithinInterval(x.next, row.interval, s.now);
    }
  }

  lemma NextWithinInterval(next: int, interval: int, now: int)
    requires interval >= 1 && next <= now
    ensures now < Next(Some(next), interval, now) <= now + interval
  {
    DivBounds(now - next, interval);
  }

  lemma InvStep(s: Db, step: Step)
    requires Inv(s)
    ensures Inv(After(s, step))
  {
    match step
    case Claim(loop) => ClaimKeepsInv(s, loop);
    case Compute(loop) => ComputeKeepsInv(s, loop);
    case Read(loop, id) => ReadKeepsInv(s, loop, id);
    case Check(loop) => CheckKeepsInv(s, loop);
    case Create(id, row) => CreateKeepsInv(s, id, row);
    case _ =>
  }

  lemma CheckKeepsInv(s: Db, loop: LoopId)
    requires Inv(s)
    ensures Inv(After(s, Check(loop)))
  {
  }

  lemma CreateKeepsInv(s: Db, id: ScheduleId, row: Row)
    requires Inv(s)
    ensures Inv(After(s, Create(id, row)))
  {
  }

  lemma ReadKeepsInv(s: Db, loop: LoopId, id: ScheduleId)
    requires Inv(s)
    ensures Inv(After(s, Read(loop, id)))
  {
    if id in s.rows {
      MultipleZero(s.rows[id].interval);
    }
  }

  lemma {:induction false} InvRun(s: Db, steps: seq<Step>)
    requires Inv(s)
    ensures Inv(Run(s, steps))
    decreases |steps|
  {
    if |steps| == 0 {
    } else {
      InvStep(s, steps[0]);
      InvRun(After(s, steps[0]), steps[1..]);
    }
  }

  /** The clock has not passed the instant the loop worked out. */
  predicate Timely(s: Db, loop: LoopId) {
    loop in s.loops && s.loops[loop].Computed? && s.now < s.loops[loop].target
  }

  /**
    In every reachable state, a claim moves the schedule to its next instant
    after now, however many were missed and however old the loop's read is,
    exactly when the clock has not passed the instant the loop worked out.
   */
  lemma ClaimMovesToNext(s: Db, loop: LoopId)
    requires Inv(s) && Claims(s, loop)
    ensures var id := s.loops[loop].id;
            After(s, Claim(loop)).rows[id].next == Next(Some(s.rows[id].next), s.rows[id].interval, s.now) <==>
                Timely(s, loop)
  {
    var x := s.loops[loop];
    var row := s.rows[x.id];
    var least := Next(Some(row.next), row.interval, s.now);
    NextIsLeast(row.next, row.interval, s.now, 0);
    NextWithinInterval(row.next, row.interval, s.now);
    if s.now < x.target {
      MultipleSub(x.target - row.next, least - row.next, row.interval);
      MultipleGap(x.target - least, row.interval);
    }
  }

  // ---- How often a schedule can start ----

  /** The step starts the schedule. */
  predicate StartsAt(s: Db, step: Step, id: ScheduleId) {
    step.Claim? && Claims(s, step.loop) && s.loops[step.loop].id == id
  }

  function Starts(s: Db, steps: seq<Step>, id: ScheduleId): nat
    decreases |steps|
  {
    if |steps| == 0 then 0
    else (if StartsAt(s, steps[0], id) then 1 else 0) + Starts(After(s, steps[0]), steps[1..], id)
  }

  /** The guarded update, column by column: the row is enabled and due, and a loop brings its next instant. */
  lemma StartsExactly(s: Db, step: Step, id: ScheduleId)
    ensures StartsAt(s, step, id) <==>
              && step.Claim? && step.loop in s.loops && s.loops[step.loop].Computed? && s.loops[step.loop].id == id
              && id in s.rows && s.rows[id].enabled && s.rows[id].next <= s.now
    ensures StartsAt(s, step, id) ==>
              After(s, step) == s.(loops := s.loops - {step.loop},
                                   rows := s.rows[id := s.rows[id].(next := s.loops[step.loop].target)])
  {
  }

  /** A loop reads only enabled rows that are due. */
  lemma ReadsExactly(s: Db, loop: LoopId, id: ScheduleId)
    ensures After(s, Read(loop, id)) ==
              if id in s.rows && s.rows[id].enabled && s.rows[id].next <= s.now
              then s.(loops := s.loops[loop := HasRead(id, s.rows[id].next)]) else s
  {
  }

  /** A schedule that has been disabled never starts again, whatever loops still carry. */
  lemma {:induction false} DisabledNeverStarts(s: Db, steps: seq<Step>, id: ScheduleId)
    requires id in s.rows && !s.rows[id].enabled
    ensures Starts(s, steps, id) == 0
    decreases |steps|
  {
    if |steps| == 0 {
    } else {
      StartsExactly(s, steps[0], id);
      DisabledStays(s, steps[0], id);
      DisabledNeverStarts(After(s, steps[0]), steps[1..], id);
    }
  }

  lemma DisabledStays(s: Db, step: Step, id: ScheduleId)
    requires id in s.rows && !s.rows[id].enabled
    ensures id in After(s, step).rows && !After(s, step).rows[id].enabled
  {
  }

  /** The starts by loops that stalled until the instant they worked out had passed. */
  function LateStarts(s: Db, steps: seq<Step>, id: ScheduleId): nat
    decreases |steps|
  {
    if |steps| == 0 then 0
    else
      (if StartsAt(s, steps[0], id) && !Timely(s, steps[0].loop) then 1 else 0)
      + LateStarts(After(s, steps[0]), steps[1..], id)
  }

  /** How many of the schedule's instants lie between x, one of them, and b. */
  function Instants(x: int, b: int, i: int): nat
    requires i >= 1
  {
    if x > b then 0 else (b - x) / i + 1
  }

  /** What may still start by the time b: one claim if the schedule is due, and one for each instant to come. */
  function Budget(row: Row, now: int, b: int): nat
    requires row.interval >= 1
  {
    Instants(Next(Some(row.next), row.interval, now), b, row.interval) + (if row.next <= now then 1 else 0)
  }

  lemma InstantsFall(x: int, y: int, b: int, i: int)
    requires i >= 1 && x <= y
    ensures Instants(y, b, i) <= Instants(x, b, i)
    ensures x + i <= y && x <= b ==> Instants(y, b, i) + 1 <= Instants(x, b, i)
  {
    if y <= b {
      DivMono(b - y, b - x, i);
      if x + i <= y {
        DivMono(b - y, b - x - i, i);
        DivSub(b - x, i);
      }
    }
  }

  lemma BudgetFallsWithTime(row: Row, now: int, d: nat, b: int)
    requires row.interval >= 1 && now + d <= b
    ensures Budget(row, now + d, b) <= Budget(row, now, b)
  {
    var x := Next(Some(row.next), row.interval, now);
    var y := Next(Some(row.next), row.interval, now + d);
    if row.next > now + d {
    } else if row.next > now {
      NextAfterPassing(row.next, row.interval, now + d);
      InstantsFall(x, y, b, row.interval);
    } else {
      NextMono(row.next, row.interval, now, now + d);
      InstantsFall(x, y, b, row.interval);
    }
  }

  lemma NextAfterPassing(next: int, interval: int, now: int)
    requires interval >= 1 && next <= now
    ensures Next(Some(next), interval, now) >= next + interval
  {
    DivMono(0, now - next, interval);
    MulMono(1, (now - next) / interval + 1, interval);
  }

  lemma NextMono(next: int, interval: int, now: int, later: int)
    requires interval >= 1 && next <= now <= later
    ensures Next(Some(next), interval, now) <= Next(Some(next), interval, later)
  {
    DivMono(now - next, later - next, interval);
    MulMono((now - next) / interval + 1, (later - next) / interval + 1, interval);
  }

  lemma {:induction false} ClockMonotone(s: Db, steps: seq<Step>)
    ensures s.now <= Run(s, steps).now
    decreases |steps|
  {
    if |steps| == 0 {
    } else {
      ClockMonotone(After(s, steps[0]), steps[1..]);
    }
  }

  /**
    A late start moves the schedule to an instant that has passed, so it is due again
    and no instant to come is used.
   */
  lemma LateStartIsFree(s: Db, loop: LoopId, b: int)
    requires Inv(s) && Claims(s, loop) && !Timely(s, loop)
    ensures var id := s.loops[loop].id;
            Budget(After(s, Claim(loop)).rows[id], s.now, b) == Budget(s.rows[id], s.now, b)
  {
    var x := s.loops[loop];
    var row := s.rows[x.id];
    var i := row.interval;
    var p, q := Next(Some(x.target), i, s.now), Next(Some(row.next), i, s.now);
    NextIsLeast(x.target, i, s.now, 0);
    NextIsLeast(row.next, i, s.now, 0);
    NextWithinInterval(x.target, i, s.now);
    NextWithinInterval(row.next, i, s.now);
    MultipleAdd(p - x.target, x.target - row.next, i);
    MultipleSub(p - row.next, q - row.next, i);
    MultipleGap(p - q, i);
  }

  lemma BudgetStep(s: Db, step: Step, id: ScheduleId, b: int)
    requires Inv(s) && id in s.rows && After(s, step).now <= b
    ensures id in After(s, step).rows
    ensures After(s, step).rows[id].interval == s.rows[id].interval
    ensures Budget(After(s, step).rows[id], After(s, step).now, b) + (if StartsAt(s, step, id) then 1 else 0)
         <= Budget(s.rows[id], s.now, b) + (if StartsAt(s, step, id) && !Timely(s, step.loop) then 1 else 0)
  {
    var row := s.rows[id];
    match step
    case Tick(d) => BudgetFallsWithTime(row, s.now, d, b);
    case Claim(loop) =>
      if StartsAt(s, step, id) {
        if Timely(s, loop) {
          ClaimMovesToNext(s, loop);
          NextIsLeast(row.next, row.interval, s.now, 0);
        } else {
          LateStartIsFree(s, loop, b);
        }
      }
    case _ =>
  }

  lemma {:induction false} StartsWithinBudget(s: Db, steps: seq<Step>, id: ScheduleId, b: int)
    requires Inv(s) && id in s.rows && Run(s, steps).now <= b
    ensures Starts(s, steps, id) <= Budget(s.rows[id], s.now, b) + LateStarts(s, steps, id)
    decreases |steps|
  {
    if |steps| == 0 {
    } else {
      ClockMonotone(After(s, steps[0]), steps[1..]);
      InvStep(s, steps[0]);
      BudgetStep(s, steps[0], id, b);
      StartsWithinBudget(After(s, steps[0]), steps[1..], id, b);
    }
  }

  function CeilDiv(t: int, i: int): int
    requires i >= 1
  {
    (t + i - 1) / i
  }

  /**
    In any reachable stretch of T seconds, with any number of loops, a schedule
    starts at most ceil(T / interval) + 1 times, and once more for every late start.
   */
  lemma StartsAreBounded(before: seq<Step>, steps: seq<Step>, id: ScheduleId)
    requires id in Run(INIT, before).rows
    ensures var s := Run(INIT, before);
            var interval := s.rows[id].interval;
            && interval >= 1
            && Starts(s, steps, id) <= CeilDiv(Run(s, steps).now - s.now, interval) + 1 + LateStarts(s, steps, id)
  {
    InvRun(INIT, before);
    var s := Run(INIT, before);
    var b := Run(s, steps).now;
    var row := s.rows[id];
    StartsWithinBudget(s, steps, id, b);
    ClockMonotone(s, steps);
    BudgetFitsSpan(row, s.now, b);
  }

  lemma BudgetFitsSpan(row: Row, now: int, b: int)
    requires row.interval >= 1 && now <= b
    ensures Budget(row, now, b) <= CeilDiv(b - now, row.interval) + 1
  {
    var x := Next(Some(row.next), row.interval, now);
    NextIsLeast(row.next, row.interval, now, 0);
    InstantsFall(now + 1, x, b, row.interval);
    DivSub(b - now - 1 + row.interval, row.interval);
    DivMono(0, b - now + row.interval - 1, row.interval);
  }

  const STALLED: seq<Step> :=
    [Create(1, Row(0, 60, 0, true)), Read(1, 1), Read(2, 1), Check(1), Check(2), Compute(1), Compute(2), Tick(100)]

  /**
    Without that, the bound fails: two loops that stall past the instant they worked out
    both start the schedule at one moment.
   */
  lemma StalledLoopsStartTwice()
    ensures exists before, steps, id ::
              Run(Run(INIT, before), steps).now == Run(INIT, before).now && Starts(Run(INIT, before), steps, id) == 2
  {
    var s := Run(INIT, STALLED);
    StalledState();
    var steps := [Claim(1), Claim(2)];
    var s1 := After(s, Claim(1));
    assert s1.rows[1].next == 60 && Claims(s1, 2);
    assert steps[1..] == [Claim(2)] && [Claim(2)][1..] == [];
    assert Starts(After(s1, Claim(2)), [], 1) == 0;
    assert Starts(s1, [Claim(2)], 1) == 1;
    assert Starts(s, steps, 1) == 2;
    assert Run(s, steps) == Run(s1, [Claim(2)]) == Run(After(s1, Claim(2)), []);
    assert Run(s, steps).now == s.now;
  }

  lemma StalledState()
    ensures Run(INIT, STALLED)
         == Db(100, map[1 := Row(0, 60, 0, true)], {}, map[1 := Computed(1, 60), 2 := Computed(1, 60)])
  {
    var s1 := Db(0, map[1 := Row(0, 60, 0, true)], {}, map[]);
    var read := s1.(loops := map[1 := HasRead(1, 0), 2 := HasRead(1, 0)]);
    var checked := s1.(loops := map[1 := NotPaused(1, 0), 2 := NotPaused(1, 0)]);
    var computed := s1.(loops := map[1 := Computed(1, 60), 2 := Computed(1, 60)]);
    RunCons(INIT, STALLED, s1);
    RunTwo(s1, STALLED[1..], s1.(loops := map[1 := HasRead(1, 0)]), read);
    RunTwo(read, STALLED[3..], read.(loops := map[1 := NotPaused(1, 0), 2 := HasRead(1, 0)]), checked);
    RunTwo(checked, STALLED[5..], checked.(loops := map[1 := Computed(1, 60), 2 := NotPaused(1, 0)]), computed);
    RunCons(computed, STALLED[7..], computed.(now := 100));
  }

  lemma RunTwo(s: Db, steps: seq<Step>, s1: Db, s2: Db)
    requires |steps| > 1 && After(s, steps[0]) == s1 && After(s1, steps[1]) == s2
    ensures Run(s, steps) == Run(s2, steps[2..])
  {
    assert steps[1..][1..] == steps[2..];
  }

  lemma RunCons(s: Db, steps: seq<Step>, s': Db)
    requires |steps| > 0 && After(s, steps[0]) == s'
    ensures Run(s, steps) == Run(s', steps[1..])
  {
  }

  // ---- Pausing ----

  /** No loop has already got past its look at the pause switch for this organisation. */
  ghost predicate NonePastCheck(s: Db, org: OrgId) {
    forall l | l in s.loops :: s.loops[l].id in s.rows && (s.rows[s.loops[l].id].org == org ==> s.loops[l].HasRead?)
  }

  ghost predicate NoResume(steps: seq<Step>, org: OrgId) { forall i | 0 <= i < |steps| :: steps[i] != Resume(org) }

  /** While an organisation is paused, no loop that looks starts any of its schedules. */
  lemma {:induction false} PausedMeansNoStart(s: Db, steps: seq<Step>, id: ScheduleId, org: OrgId)
    requires org in s.paused && NonePastCheck(s, org) && NoResume(steps, org)
    requires id in s.rows && s.rows[id].org == org
    ensures Starts(s, steps, id) == 0
    decreases |steps|
  {
    if |steps| == 0 {
    } else {
      var s' := After(s, steps[0]);
      assert org in s'.paused && NonePastCheck(s', org);
      PausedMeansNoStart(s', steps[1..], id, org);
    }
  }

  // ---- One pass over the due schedules ----

  /** What may happen around a loop besides schedules being created or disabled: time, pausing and resuming. */
  predicate Quiet(step: Step) { step.Tick? || step.Pause? || step.Resume? }

  predicate AllQuiet(steps: seq<Step>) { forall i | 0 <= i < |steps| :: Quiet(steps[i]) }

  /** What happens before a turn's pause check, and the time between its computing and its claim. */
  datatype Around = Around(before: seq<Step>, stall: nat)

  /** All rows are read first; the i-th is carried as loop first + i. */
  function Reads(first: LoopId, ids: seq<ScheduleId>): seq<Step> {
    if |ids| == 0 then [] else Reads(first, ids[..|ids| - 1]) + [Read(first + |ids| - 1, ids[|ids| - 1])]
  }

  function Tail(loop: LoopId, stall: nat): seq<Step> { [Check(loop), Compute(loop), Tick(stall), Claim(loop)] }

  function TurnOf(loop: LoopId, around: Around): seq<Step> { around.before + Tail(loop, around.stall) }

  function Turns(first: LoopId, arounds: seq<Around>): seq<Step> {
    if |arounds| == 0 then []
    else Turns(first, arounds[..|arounds| - 1]) + TurnOf(first + |arounds| - 1, arounds[|arounds| - 1])
  }

  lemma {:induction false} RunAppend(s: Db, a: seq<Step>, b: seq<Step>)
    ensures Run(s, a + b) == Run(Run(s, a), b)
    decreases |a|
  {
    if |a| == 0 {
      assert a + b == b;
    } else {
      assert (a + b)[1..] == a[1..] + b;
      RunAppend(After(s, a[0]), a[1..], b);
    }
  }

  lemma RunOne(s: Db, step: Step)
    ensures Run(s, [step]) == After(s, step)
  {
    assert [step][1..] == [];
  }

  lemma {:induction false} QuietRun(s: Db, steps: seq<Step>)
    requires AllQuiet(steps)
    ensures Run(s, steps).rows == s.rows && Run(s, steps).loops == s.loops && Run(s, steps).now >= s.now
    decreases |steps|
  {
    if |steps| == 0 {
    } else {
      assert Quiet(steps[0]);
      QuietRun(After(s, steps[0]), steps[1..]);
    }
  }

  /** What the loops carry after the reads. */
  function Held(rows: map<ScheduleId, Row>, first: LoopId, ids: seq<ScheduleId>): map<LoopId, Stage>
    requires forall i | 0 <= i < |ids| :: ids[i] in rows
  {
    if |ids| == 0 then map[]
    else
      var n := |ids| - 1;
      Held(rows, first, ids[..n])[first + n := HasRead(ids[n], rows[ids[n]].next)]
  }

  lemma {:induction false} ReadsRun(s: Db, first: LoopId, ids: seq<ScheduleId>)
    requires forall i | 0 <= i < |ids| :: ids[i] in s.rows && Due(s.rows[ids[i]], s.now)
    ensures Run(s, Reads(first, ids)) == s.(loops := s.loops + Held(s.rows, first, ids))
  {
    if |ids| == 0 {
      assert s.loops + map[] == s.loops;
    } else {
      var n := |ids| - 1;
      ReadsRun(s, first, ids[..n]);
      RunAppend(s, Reads(first, ids[..n]), [Read(first + n, ids[n])]);
      RunOne(Run(s, Reads(first, ids[..n])), Read(first + n, ids[n]));
      var held := Held(s.rows, first, ids[..n]);
      assert (s.loops + held)[first + n := HasRead(ids[n], s.rows[ids[n]].next)]
          == s.loops + held[first + n := HasRead(ids[n], s.rows[ids[n]].next)];
    }
  }

  lemma {:induction false} HeldAt(rows: map<ScheduleId, Row>, first: LoopId, ids: seq<ScheduleId>, i: nat)
    requires i < |ids| && forall j | 0 <= j < |ids| :: ids[j] in rows
    ensures first + i in Held(rows, first, ids)
    ensures Held(rows, first, ids)[first + i] == HasRead(ids[i], rows[ids[i]].next)
  {
    if i == |ids| - 1 {
    } else {
      HeldAt(rows, first, ids[..|ids| - 1], i);
    }
  }

  lemma {:induction false} HeldOnly(rows: map<ScheduleId, Row>, first: LoopId, ids: seq<ScheduleId>, l: LoopId)
    requires forall j | 0 <= j < |ids| :: ids[j] in rows
    ensures l in Held(rows, first, ids) ==> first <= l < first + |ids|
  {
    if |ids| == 0 {
    } else {
      HeldOnly(rows, first, ids[..|ids| - 1], l);
    }
  }

  /** The state a turn leaves, from the state its pause check meets and the next instant. */
  function TurnEnd(s: Db, loop: LoopId, id: ScheduleId, stall: nat, target: int): Db
    requires id in s.rows
  {
    var row := s.rows[id];
    var s2 := s.(now := s.now + stall, loops := s.loops - {loop});
    if row.org in s.paused || !Due(row, s2.now) then s2 else s2.(rows := s.rows[id := row.(next := target)])
  }

  lemma PausedTail(s: Db, loop: LoopId, stall: nat)
    requires loop in s.loops && s.loops[loop].HasRead? && s.loops[loop].id in s.rows
    requires s.rows[s.loops[loop].id].org in s.paused
    ensures Run(s, Tail(loop, stall)) == s.(now := s.now + stall, loops := s.loops - {loop})
  {
    var steps := Tail(loop, stall);
    var s1 := s.(loops := s.loops - {loop});
    var s2 := s1.(now := s.now + stall);
    RunTwo(s, steps, s1, s1);
    RunTwo(s1, steps[2..], s2, s2);
    assert steps[2..][2..] == [];
  }

  lemma OpenTail(s: Db, loop: LoopId, stall: nat, target: int)
    requires loop in s.loops && s.loops[loop].HasRead? && s.loops[loop].id in s.rows
    requires s.rows[s.loops[loop].id].org !in s.paused
    requires target == Next(Some(s.loops[loop].next), s.rows[s.loops[loop].id].interval, s.now)
    ensures var s' := s.(now := s.now + stall, loops := s.loops[loop := Computed(s.loops[loop].id, target)]);
            Run(s, Tail(loop, stall)) == After(s', Claim(loop))
  {
    var steps := Tail(loop, stall);
    var x := s.loops[loop];
    var s1 := s.(loops := s.loops[loop := NotPaused(x.id, x.next)]);
    var s2 := s.(loops := s.loops[loop := Computed(x.id, target)]);
    var s3 := s2.(now := s.now + stall);
    assert s1.loops[loop := Computed(x.id, target)] == s2.loops;
    RunTwo(s, steps, s1, s2);
    RunTwo(s2, steps[2..], s3, After(s3, Claim(loop)));
    assert steps[2..][2..] == [];
  }

  lemma ClaimEnd(s: Db, loop: LoopId, id: ScheduleId, stall: nat, target: int)
    requires loop in s.loops && id in s.rows && s.rows[id].org !in s.paused
    ensures var s' := s.(now := s.now + stall, loops := s.loops[loop := Computed(id, target)]);
            After(s', Claim(loop)) == TurnEnd(s, loop, id, stall, target)
  {
    assert s.loops[loop := Computed(id, target)] - {loop} == s.loops - {loop};
  }

  lemma TailRun(s: Db, loop: LoopId, stall: nat, id: ScheduleId, next: int, target: int)
    requires id in s.rows && loop in s.loops && s.loops[loop] == HasRead(id, next)
    requires target == Next(Some(next), s.rows[id].interval, s.now)
    ensures Run(s, Tail(loop, stall)) == TurnEnd(s, loop, id, stall, target)
  {
    if s.rows[id].org in s.paused {
      PausedTail(s, loop, stall);
    } else {
      OpenTail(s, loop, stall, target);
      ClaimEnd(s, loop, id, stall, target);
    }
  }

  /** One turn of the machine, with anything quiet before it. */
  lemma TurnRun(s: Db, s1: Db, loop: LoopId, around: Around, id: ScheduleId, next: int, target: int)
    requires AllQuiet(around.before) && id in s.rows && loop in s.loops && s.loops[loop] == HasRead(id, next)
    requires s1 == Run(s, around.before) && target == Next(Some(next), s.rows[id].interval, s1.now)
    ensures id in s1.rows && Run(s, TurnOf(loop, around)) == TurnEnd(s1, loop, id, around.stall, target)
  {
    QuietRun(s, around.before);
    RunAppend(s, around.before, Tail(loop, around.stall));
    TailRun(s1, loop, around.stall, id, next, target);
  }

  /** The schedules that ran, in order. */
  function Chosen(ids: seq<ScheduleId>, ran: seq<bool>): seq<ScheduleId>
    requires |ran| <= |ids|
  {
    if |ran| == 0 then []
    else Chosen(ids, ran[..|ran| - 1]) + if ran[|ran| - 1] then [ids[|ran| - 1]] else []
  }

  datatype Found = Found(id: ScheduleId, row: Row)

  /** The rows a pass has read, and what happens around the turn of each. */
  predicate AllFound(s: Db, ids: seq<ScheduleId>, due: seq<Found>, arounds: seq<Around>) {
    && |due| == |ids| == |arounds|
    && forall i | 0 <= i < |ids| ::
         && ids[i] in s.rows && due[i] == Found(ids[i], s.rows[ids[i]]) && Due(due[i].row, s.now)
         && AllQuiet(arounds[i].before)
  }

  /** The row after its turn. */
  function Moved(row: Row, ran: bool, at: int): Row {
    if ran then row.(next := Next(Some(row.next), row.interval, at)) else row
  }

  /** The schedule has had its turn. */
  predicate Took(s0: Db, s: Db, id: ScheduleId, ran: bool, at: int) {
    && id in s0.rows && id in s.rows && s0.now <= at <= s.now && s.rows[id] == Moved(s0.rows[id], ran, at)
  }

  /** The schedule's turn is to come, and its row is as it was read. */
  predicate Waits(s0: Db, s: Db, loop: LoopId, id: ScheduleId) {
    && id in s0.rows && id in s.rows && s.rows[id] == s0.rows[id]
    && loop in s.loops && s.loops[loop] == HasRead(id, s0.rows[id].next)
  }

  /** Nothing but the schedules read and their n-th and later loops has changed. */
  ghost predicate Frame(s0: Db, s: Db, first: LoopId, ids: seq<ScheduleId>, n: nat) {
    && s0.now <= s.now && s.rows.Keys == s0.rows.Keys
    && (forall id | id in s0.rows && id !in ids :: s.rows[id] == s0.rows[id])
    && (forall l | l in s0.loops :: l < first && l in s.loops && s.loops[l] == s0.loops[l])
    && (forall l | l in s.loops :: l in s0.loops || first + n <= l < first + |ids|)
  }

  /** The pass when as many turns are taken as ran tells. */
  ghost predicate Progress(
      s0: Db, s: Db, first: LoopId, ids: seq<ScheduleId>, ran: seq<bool>, times: seq<int>)
  {
    && |ran| == |times| <= |ids| && Frame(s0, s, first, ids, |ran|)
    && (forall i | 0 <= i < |ran| :: Took(s0, s, ids[i], ran[i], times[i]))
    && (forall i | |ran| <= i < |ids| :: Waits(s0, s, first + i, ids[i]))
  }

  lemma ReadsProgress(s: Db, first: LoopId, ids: seq<ScheduleId>)
    requires forall i | 0 <= i < |ids| :: ids[i] in s.rows
    requires forall l | l in s.loops :: l < first
    ensures Progress(s, s.(loops := s.loops + Held(s.rows, first, ids)), first, ids, [], [])
  {
    forall i | 0 <= i < |ids|
      ensures first + i in Held(s.rows, first, ids)
      ensures Held(s.rows, first, ids)[first + i] == HasRead(ids[i], s.rows[ids[i]].next)
    {
      HeldAt(s.rows, first, ids, i);
    }
    forall l | l in Held(s.rows, first, ids) ensures first <= l < first + |ids| {
      HeldOnly(s.rows, first, ids, l);
    }
  }

  lemma ProgressStep(
      s0: Db, s: Db, s': Db, first: LoopId, ids: seq<ScheduleId>, ran: seq<bool>, times: seq<int>, ran1: bool, at: int)
    requires Distinct(ids) && Progress(s0, s, first, ids, ran, times) && |ran| < |ids|
    requires s.now <= at <= s'.now && s'.loops == s.loops - {first + |ran|}
    requires var id := ids[|ran|]; s'.rows == s.rows[id := Moved(s.rows[id], ran1, at)]
    ensures Progress(s0, s', first, ids, ran + [ran1], times + [at])
  {
    var id := ids[|ran|];
    assert Waits(s0, s, first + |ran|, id);
    forall i | 0 <= i < |ran| ensures Took(s0, s', ids[i], ran[i], times[i]) {
      assert Took(s0, s, ids[i], ran[i], times[i]) && ids[i] != id;
    }
    forall i | |ran| < i < |ids| ensures Waits(s0, s', first + i, ids[i]) {
      assert Waits(s0, s, first + i, ids[i]) && ids[i] != id;
    }
  }

  /** The pass when every turn is taken. */
  lemma PassMeans(s0: Db, s: Db, first: LoopId, ids: seq<ScheduleId>, ran: seq<bool>, times: seq<int>)
    requires Progress(s0, s, first, ids, ran, times) && |ran| == |ids|
    ensures s.rows.Keys == s0.rows.Keys && s.loops == s0.loops
    ensures forall i | 0 <= i < |ids| ::
              && s0.now <= times[i] <= s.now && ids[i] in s.rows && ids[i] in s0.rows
              && s.rows[ids[i]] == Moved(s0.rows[ids[i]], ran[i], times[i])
    ensures forall id | id in s.rows && id !in ids :: s.rows[id] == s0.rows[id]
  {
    forall i | 0 <= i < |ids| ensures Took(s0, s, ids[i], ran[i], times[i]) {
    }
  }

  lemma PassRun(s: Db, first: LoopId, ids: seq<ScheduleId>, arounds: seq<Around>)
    requires Inv(s) && forall i | 0 <= i < |ids| :: ids[i] in s.rows && Due(s.rows[ids[i]], s.now)
    ensures var s' := Run(s.(loops := s.loops + Held(s.rows, first, ids)), Turns(first, arounds));
            Inv(s') && s' == Run(s, Reads(first, ids) + Turns(first, arounds))
  {
    ReadsRun(s, first, ids);
    InvRun(s, Reads(first, ids) + Turns(first, arounds));
    RunAppend(s, Reads(first, ids), Turns(first, arounds));
  }

  /** The state one turn of the machine leads to. */
  ghost predicate Ended(s: Db, end: Db, loop: LoopId, around: Around) {
    forall steps | steps == TurnOf(loop, around) :: end == Run(s, steps)
  }

  /** Each state is the one the turn before it leads to. */
  ghost predicate Chain(ends: seq<Db>, first: LoopId, arounds: seq<Around>) {
    && 1 <= |ends| <= |arounds| + 1
    && forall i | 0 <= i < |ends| - 1 :: Ended(ends[i], ends[i + 1], first + i, arounds[i])
  }

  lemma ChainNext(ends: seq<Db>, s: Db, first: LoopId, arounds: seq<Around>, i: nat)
    requires Chain(ends, first, arounds) && |ends| == i + 1 <= |arounds| && Ended(ends[i], s, first + i, arounds[i])
    ensures Chain(ends + [s], first, arounds)
  {
  }

  lemma {:induction false} ChainRun(ends: seq<Db>, first: LoopId, arounds: seq<Around>, n: nat)
    requires Chain(ends, first, arounds) && n < |ends|
    ensures ends[n] == Run(ends[0], Turns(first, arounds[..n]))
  {
    if n == 0 {
    } else {
      ChainRun(ends, first, arounds, n - 1);
      assert Ended(ends[n - 1], ends[n - 1 + 1], first + (n - 1), arounds[n - 1]);
      assert ends[n] == Run(ends[n - 1], TurnOf(first + (n - 1), arounds[n - 1]));
      assert arounds[..n][..n - 1] == arounds[..n - 1];
      RunAppend(ends[0], Turns(first, arounds[..n - 1]), TurnOf(first + n - 1, arounds[n - 1]));
    }
  }

  lemma ChosenNext(ids: seq<ScheduleId>, ran: seq<bool>, next: bool)
    requires |ran| < |ids|
    ensures Chosen(ids, ran + [next]) == Chosen(ids, ran) + if next then [ids[|ran|]] else []
  {
    assert (ran + [next])[..|ran|] == ran;
  }

  class SchedulerStore {
    var now: int
    var rows: map<ScheduleId, Row>
    var paused: set<OrgId>
    var started: seq<ScheduleId>
    ghost var loops: map<LoopId, Stage>

    ghost function State(): Db
      reads this
    {
      Db(now, rows, paused, loops)
    }

    ghost predicate Valid()
      reads this
    {
      Inv(State())
    }

    constructor ()
      ensures Valid() && State() == INIT && started == []
    {
      now, rows, paused, started, loops := 0, map[], {}, [], map[];
    }

    /** Time passes, and organisations are paused and resumed. */
    method Elapse(steps: seq<Step>)
      requires AllQuiet(steps)
      modifies this`now, this`paused
      ensures State() == Run(old(State()), steps)
    {
      var i := 0;
      while i < |steps|
        invariant 0 <= i <= |steps|
        invariant Run(State(), steps[i..]) == Run(old(State()), steps)
      {
        assert Quiet(steps[i]) && steps[i..][0] == steps[i] && steps[i..][1..] == steps[i + 1..];
        match steps[i] {
          case Tick(d) => now := now + d;
          case Pause(org) => paused := paused + {org};
          case Resume(org) => paused := paused - {org};
        }
        i := i + 1;
      }
      assert steps[i..] == [];
    }

    /** One turn: pause check, computing, and the claim's guarded update. */
    method TakeTurn(found: Found, around: Around, ghost loop: LoopId) returns (ran: bool, at: int)
      requires AllQuiet(around.before) && found.id in rows && rows[found.id] == found.row
      requires found.row.enabled && found.row.next <= now
      requires loop in loops && loops[loop] == HasRead(found.id, found.row.next)
      modifies this
      ensures State() == Run(old(State()), TurnOf(loop, around))
      ensures ran == (found.row.org !in Run(old(State()), around.before).paused)
      ensures old(now) <= at <= now && loops == old(loops) - {loop}
      ensures rows == old(rows)[found.id := Moved(found.row, ran, at)]
      ensures started == old(started) + if ran then [found.id] else []
    {
      ghost var s := State();
      QuietRun(s, around.before);
      Elapse(around.before);
      TurnRun(s, State(), loop, around, found.id, found.row.next, Next(Some(found.row.next), found.row.interval, now));
      at := now;
      loops := loops - {loop};
      now := now + around.stall;
      ran := false;
      if found.row.org !in paused {
        var next := NextAfter(Some(found.row.next), found.row.interval, at);
        if found.id in rows && rows[found.id].enabled && rows[found.id].next <= now {
          rows := rows[found.id := rows[found.id].(next := next)];
          started := started + [found.id];
          ran := true;
        }
      }
    }

    /**
      The scheduler's cycle over schedules that are due: it reads all rows and then
      takes their turns, with anything quiet around them. Every schedule whose
      organisation is not paused at its check starts once and moves to its next
      instant after that check; every other row stays as it is.
     */
    method RunDueSchedulesOnce(ids: seq<ScheduleId>, arounds: seq<Around>, ghost first: LoopId)
      returns (ran: seq<bool>, times: seq<int>)
      requires Valid() && Distinct(ids) && |ids| == |arounds|
      requires forall i | 0 <= i < |ids| ::
                 ids[i] in rows && rows[ids[i]].enabled && rows[ids[i]].next <= now && AllQuiet(arounds[i].before)
      requires forall l | l in loops :: l < first
      modifies this
      ensures Valid() && State() == Run(old(State()), Reads(first, ids) + Turns(first, arounds))
      ensures |ran| == |times| == |ids| && started == old(started) + Chosen(ids, ran)
      ensures forall i | 0 <= i < |ids| ::
                && old(now) <= times[i] <= now && ids[i] in rows
                && rows[ids[i]] == Moved(old(rows)[ids[i]], ran[i], times[i])
      ensures forall id | id !in ids :: id in rows <==> id in old(rows)
      ensures forall id | id !in ids && id in rows :: rows[id] == old(rows)[id]
      ensures loops == old(loops)
    {
      ghost var s0 := State();
      PassRun(s0, first, ids, arounds);
      ReadsProgress(s0, first, ids);
      var due := ReadDue(ids);
      loops := loops + Held(rows, first, ids);
      ghost var ends;
      ran, times, ends := TakeTurns(due, arounds, s0, first, ids);
      ChainRun(ends, first, arounds, |arounds|);
      assert arounds[..|arounds|] == arounds;
      PassMeans(s0, State(), first, ids, ran, times);
    }

    method ReadDue(ids: seq<ScheduleId>) returns (due: seq<Found>)
      requires forall i | 0 <= i < |ids| :: ids[i] in rows
      ensures |due| == |ids| && forall i | 0 <= i < |ids| :: due[i] == Found(ids[i], rows[ids[i]])
    {
      due := [];
      for i := 0 to |ids|
        invariant |due| == i && forall j | 0 <= j < i :: due[j] == Found(ids[j], rows[ids[j]])
      {
        due := due + [Found(ids[i], rows[ids[i]])];
      }
    }

    /** The turn of the next row read. */
    method TakeNext(
        due: seq<Found>, arounds: seq<Around>, i: nat, ghost s0: Db, ghost first: LoopId, ghost ids: seq<ScheduleId>,
        ghost before: seq<bool>, ghost times: seq<int>, ghost ends: seq<Db>,
        ghost was: seq<ScheduleId>)
      returns (ran: bool, at: int)
      requires Distinct(ids) && AllFound(s0, ids, due, arounds) && Progress(s0, State(), first, ids, before, times)
      requires i == |before| < |ids|
      requires Chain(ends, first, arounds) && |ends| == i + 1 && ends[i] == State()
      requires started == was + Chosen(ids, before)
      modifies this
      ensures Chain(ends + [State()], first, arounds)
      ensures Progress(s0, State(), first, ids, before + [ran], times + [at])
      ensures started == was + Chosen(ids, before + [ran])
    {
      ghost var s := State();
      ran, at := TakeTurn(due[i], arounds[i], first + i);
      ProgressStep(s0, s, State(), first, ids, before, times, ran, at);
      ChainNext(ends, State(), first, arounds, i);
      ChosenNext(ids, before, ran);
    }

    method TakeTurns(
        due: seq<Found>, arounds: seq<Around>, ghost s0: Db, ghost first: LoopId, ghost ids: seq<ScheduleId>)
      returns (ran: seq<bool>, times: seq<int>, ghost ends: seq<Db>)
      requires Distinct(ids) && AllFound(s0, ids, due, arounds) && Progress(s0, State(), first, ids, [], [])
      modifies this
      ensures |ends| == |ids| + 1 && ends[0] == old(State()) && ends[|ids|] == State()
      ensures Chain(ends, first, arounds)
      ensures Progress(s0, State(), first, ids, ran, times) && |ran| == |ids|
      ensures started == old(started) + Chosen(ids, ran)
    {
      ran, times, ends := [], [], [State()];
      for i := 0 to |due|
        invariant |ran| == i && Progress(s0, State(), first, ids, ran, times)
        invariant |ends| == i + 1 && ends[0] == old(State()) && ends[i] == State() && Chain(ends, first, arounds)
        invariant started == old(started) + Chosen(ids, ran)
      {
        var started1, at := TakeNext(due, arounds, i, s0, first, ids, ran, times, ends, old(started));
        ran, times, ends := ran + [started1], times + [at], ends + [State()];
      }
    }
  }
}
