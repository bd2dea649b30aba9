/** Runs from the empty database in which a sweep or a cancel that is not whole breaks what transactions keep. */
module QueueRaces {
  import opened Common
  import opened Queue
  import opened QueueInvariant
  import opened QueueAgreement
  import opened QueueTheorems
  import opened QueueLiveness
  import opened QueueSplit

  const SETUP: seq<Step> := [SetRunner(1, Runner(0, true, true, {})), Create(5, 0, 9, [7], [3])]

  /** One queued execution with one target, and a runner that may take it. */
  lemma AfterSetup() returns (s: Db)
    ensures s == Run(INIT, SETUP) && Sound(s) && s.cancelling == {} && s.tickets == map[] && s.sweeps == map[]
    ensures s.targets == map[7 := NewTarget(5, 0, 3)] && s.runners == map[1 := Runner(0, true, true, {})]
    ensures 5 in s.execs && s.execs[5] == Exec(0, 9, ExecQueued, 0)
  {
    s := Run(INIT, SETUP);
    assert SETUP == [SETUP[0]] + [SETUP[1]] && [SETUP[1]] == [SETUP[1]] + [];
    RunStep(INIT, SETUP[0], [SETUP[1]]);
    RunStep(After(INIT, SETUP[0]), SETUP[1], []);
    SoundStays(INIT, SETUP);
    assert NewTargets(5, 0, [7], [3]) == map[7 := NewTarget(5, 0, 3)] by {
      assert NewTargets(5, 0, [], []) == map[];
      assert [7][..0] == [] && [3][..0] == [];
    }
  }

  /** The target of the example on its n-th lease, which lapses at the given time. */
  ghost predicate OnLease(s: Db, n: nat, lapses: int) {
    && Sound(s) && s.cancelling == {}
    && s.runners == map[1 := Runner(0, true, true, {})]
    && s.targets.Keys == {7} && s.targets[7].org == 0 && s.targets[7].exec == 5 && s.targets[7].server == 3
    && s.targets[7].status == Running && s.targets[7].attempt == n && s.targets[7].maxAttempts == DEFAULT_MAX_ATTEMPTS
    && s.targets[7].expires == Some(lapses)
    && s.targets[7].runner == Some(1)
  }

  ghost predicate OnLapsedLease(s: Db, n: nat) { OnLease(s, n, s.now) }

  const ROUND: seq<Step> := Round(7, 1) + [Tick(LEASE_SECONDS)]

  lemma LapsedLeaseStep(s: Db)
    requires Sound(s) && s.cancelling == {} && s.runners == map[1 := Runner(0, true, true, {})]
    requires s.targets.Keys == {7} && s.targets[7].org == 0 && s.targets[7].exec == 5 && s.targets[7].server == 3
    requires s.targets[7].Open() && s.targets[7].attempt < s.targets[7].maxAttempts == DEFAULT_MAX_ATTEMPTS
    ensures OnLapsedLease(Run(s, ROUND), s.targets[7].attempt + 1)
  {
    OpenRowIsActive(s, 7);
    RoundLeases(s, 7, 1);
    RoundThenTick(s);
    TickLapses(Run(s, Round(7, 1)), s.targets[7].attempt + 1);
  }

  lemma RoundLeases(s: Db, t: TargetId, runner: RunnerId)
    requires Sound(s) && Wanted(s, t) && s.targets[t].attempt < s.targets[t].maxAttempts
    requires runner in s.runners && InScope(s.runners[runner], s.targets[t].org, s.targets[t].server)
    ensures var s' := Run(s, Round(t, runner));
            && Sound(s') && s'.runners == s.runners && s'.cancelling == s.cancelling && s'.now == s.now + LEASE_SECONDS
            && s'.targets == s.targets[t := Leased(s.targets[t], runner, s.nextLease, s'.now)]
  {
    RoundUsesAnAttempt(s, t, runner);
    SoundStays(s, Round(t, runner));
  }

  lemma RoundThenTick(s: Db)
    ensures Run(s, ROUND) == After(Run(s, Round(7, 1)), Tick(LEASE_SECONDS))
  {
    RunAppend(s, Round(7, 1), [Tick(LEASE_SECONDS)]);
    RunStep(Run(s, Round(7, 1)), Tick(LEASE_SECONDS), []);
    assert [Tick(LEASE_SECONDS)] == [Tick(LEASE_SECONDS)] + [];
  }

  lemma TickLapses(s: Db, n: nat)
    requires OnLease(s, n, s.now + LEASE_SECONDS)
    ensures OnLapsedLease(After(s, Tick(LEASE_SECONDS)), n)
  {
    SoundStep(s, Tick(LEASE_SECONDS));
  }

  lemma LapsedLeaseReachable() returns (steps: seq<Step>, s: Db)
    ensures s == Run(INIT, steps) && OnLapsedLease(s, 2)
  {
    var s0 := AfterSetup();
    LapsedLeaseStep(s0);
    var s1 := Run(s0, ROUND);
    LapsedLeaseStep(s1);
    s := Run(s1, ROUND);
    steps := SETUP + ROUND + ROUND;
    RunAppend(INIT, SETUP, ROUND);
    RunAppend(INIT, SETUP + ROUND, ROUND);
  }

  lemma LastLeaseReachable() returns (steps: seq<Step>, s: Db)
    ensures s == Run(INIT, steps) && OnLapsedLease(s, 3)
  {
    var before, s2 := LapsedLeaseReachable();
    LapsedLeaseStep(s2);
    RunAppend(INIT, before, ROUND);
    steps, s := before + ROUND, Run(s2, ROUND);
  }

  const ROWS: seq<Expired> := [Expired(7, 2, 3)]

  lemma LapsedRowIsRead(s: Db)
    requires OnLapsedLease(s, 2)
    ensures SweepRows(s, 0, ROWS) && s.execs[5].Active()
  {
    OpenRowIsActive(s, 7);
    assert RowOk(s, s.targets[7]);
    assert ROWS[0].target == 7;
  }

  // ---- A second grant before the first lease expires ----

  /** From s, which holds the lease until x, the run grants the target again before x and accepts no result. */
  ghost predicate GrantsTwice(s: Db, steps: seq<Step>, t: TargetId, r: RunnerId, l: LeaseId, x: int) {
    Holds(s, t, r, l, x) && Run(s, steps).now < x && NoneAccepted(s, steps, t, l) && !NoneGranted(s, steps, t)
  }

  lemma {:induction false} NoResultNoneAccepted(s: Db, steps: seq<Step>, t: TargetId, l: LeaseId)
    requires forall i | 0 <= i < |steps| :: !steps[i].Submit?
    ensures NoneAccepted(s, steps, t, l)
    decreases |steps|
  {
    if |steps| == 0 {
    } else {
      NoResultNoneAccepted(After(s, steps[0]), steps[1..], t, l);
    }
  }

  lemma {:induction false} GrantedLater(s: Db, a: seq<Step>, b: seq<Step>, t: TargetId)
    requires !NoneGranted(Run(s, a), b, t)
    ensures !NoneGranted(s, a + b, t)
    decreases |a|
  {
    if |a| == 0 {
      assert a + b == b;
    } else {
      assert (a + b)[1..] == a[1..] + b;
      GrantedLater(After(s, a[0]), a[1..], b, t);
    }
  }

  function Renewing(s: Db): Db
    requires 7 in s.targets
  {
    s.(targets := s.targets[7 := s.targets[7].(expires := Some(s.now + LEASE_SECONDS))])
  }

  /** The lease is renewed between the sweep's read and its update. */
  function RenewedUnderSweep(s: Db): Db
    requires 7 in s.targets
  {
    Renewing(s.(sweeps := s.sweeps[2 := Sweep(0, ROWS)]))
  }

  lemma ReadLapsed(s: Db)
    requires OnLapsedLease(s, 2)
    ensures After(s, SweepRead(2, 0, ROWS)) == s.(sweeps := s.sweeps[2 := Sweep(0, ROWS)])
  {
    LapsedRowIsRead(s);
  }

  lemma RenewedRow(s: Db, l: LeaseId)
    requires 7 in s.targets && HeldBy(s.targets[7], 5, 1, l)
    ensures After(s, Renew(5, 7, 1, l)) == Renewing(s)
  {
  }

  lemma RaceIs(s: Db, l: LeaseId)
    requires OnLapsedLease(s, 2) && s.targets[7].lease == Some(l)
    ensures Run(s, [SweepRead(2, 0, ROWS)] + [Renew(5, 7, 1, l)]) == RenewedUnderSweep(s)
  {
    ReadLapsed(s);
    RenewedRow(s.(sweeps := s.sweeps[2 := Sweep(0, ROWS)]), l);
    RunTwo(s, SweepRead(2, 0, ROWS), Renew(5, 7, 1, l));
  }

  lemma RenewedStillHolds(s: Db, l: LeaseId)
    requires OnLapsedLease(s, 2) && s.targets[7].lease == Some(l)
    ensures OnLease(RenewedUnderSweep(s), 2, s.now + LEASE_SECONDS)
  {
    var s1 := s.(sweeps := s.sweeps[2 := Sweep(0, ROWS)]);
    ReadLapsed(s);
    SoundStep(s, SweepRead(2, 0, ROWS));
    RenewedRow(s1, l);
    SoundStep(s1, Renew(5, 7, 1, l));
  }

  /** The row after the sweep's update and two seconds more: due again, though its runner still counts on the lease. */
  ghost predicate GivenBack(s: Db, now: int) {
    && s.now == now && s.runners == map[1 := Runner(0, true, true, {})]
    && s.targets.Keys == {7} && s.targets[7].org == 0 && s.targets[7].exec == 5 && s.targets[7].server == 3
    && s.targets[7].status == Pending && s.targets[7].attempt == 2 && s.targets[7].maxAttempts == DEFAULT_MAX_ATTEMPTS
    && s.targets[7].nextAttempt == Some(now)
    && 5 in s.execs && s.execs[5].Active() && s.execs[5].org == 0
  }

  lemma SweptAway(s: Db, x: int)
    requires OnLease(s, 2, x) && 2 in s.sweeps && s.sweeps[2] == Sweep(0, ROWS)
    ensures GivenBack(After(After(s, SweepApply(2)), Tick(2)), s.now + 2)
  {
    OpenRowIsActive(s, 7);
    assert RowOk(s, s.targets[7]);
    assert Pow2(0) == 1 && Pow2(1) == 2;
    assert Backoff(2) == 2;
  }

  lemma GivenBackIsGranted(s: Db, now: int)
    requires GivenBack(s, now)
    ensures var steps := [ClaimRead(0, 1, Some(7), Some(7))] + [ClaimCommit(0)];
            !NoneGranted(s, steps, 7) && Run(s, steps).now == now
  {
    assert Eligible(s, 1, Some(7), 7);
    var s1 := s.(tickets := s.tickets[0 := Ticket(1, 7, Pending)]);
    assert After(s, ClaimRead(0, 1, Some(7), Some(7))) == s1;
    CommitGrants(s1, 0);
    assert Granted(s1, ClaimCommit(0), 7);
    assert !NoneGranted(s1, [ClaimCommit(0)], 7);
    RunTwo(s, ClaimRead(0, 1, Some(7), Some(7)), ClaimCommit(0));
    var steps := [ClaimRead(0, 1, Some(7), Some(7))] + [ClaimCommit(0)];
    assert steps[1..] == [ClaimCommit(0)];
  }

  const TAKE: seq<Step> := [SweepApply(2)] + [Tick(2)]
  const CLAIM: seq<Step> := [ClaimRead(0, 1, Some(7), Some(7))] + [ClaimCommit(0)]

  lemma AfterTake(s: Db)
    ensures Run(s, TAKE) == After(After(s, SweepApply(2)), Tick(2))
  {
    RunTwo(s, SweepApply(2), Tick(2));
  }

  lemma TakenAndGranted(s: Db, l: LeaseId, x: int)
    requires OnLease(s, 2, x) && s.targets[7].lease == Some(l) && s.now + 2 < x
    requires 2 in s.sweeps && s.sweeps[2] == Sweep(0, ROWS)
    ensures GrantsTwice(s, TAKE + CLAIM, 7, 1, l, x)
  {
    AfterTake(s);
    SweptAway(s, x);
    GivenBackIsGranted(Run(s, TAKE), s.now + 2);
    GrantedLater(s, TAKE, CLAIM, 7);
    RunAppend(s, TAKE, CLAIM);
    NoResultNoneAccepted(s, TAKE + CLAIM, 7, l);
  }

  lemma RenewalReachable() returns (steps: seq<Step>, s: Db, l: LeaseId)
    ensures s == Run(INIT, steps) && OnLease(s, 2, s.now + LEASE_SECONDS) && s.targets[7].lease == Some(l)
    ensures 2 in s.sweeps && s.sweeps[2] == Sweep(0, ROWS)
  {
    var before, s0 := LapsedLeaseReachable();
    var race;
    race, s, l := Renewal(s0);
    RunAppend(INIT, before, race);
    steps := before + race;
  }

  lemma Renewal(s0: Db) returns (race: seq<Step>, s: Db, l: LeaseId)
    requires OnLapsedLease(s0, 2)
    ensures s == Run(s0, race) && OnLease(s, 2, s.now + LEASE_SECONDS) && s.targets[7].lease == Some(l)
    ensures 2 in s.sweeps && s.sweeps[2] == Sweep(0, ROWS)
  {
    l := LeaseOf(s0);
    race, s := [SweepRead(2, 0, ROWS)] + [Renew(5, 7, 1, l)], RenewedUnderSweep(s0);
    RaceIs(s0, l);
    RenewedStillHolds(s0, l);
    SweepIsUnderWay(s0);
  }

  lemma LeaseOf(s: Db) returns (l: LeaseId)
    requires OnLapsedLease(s, 2)
    ensures s.targets[7].lease == Some(l)
  {
    assert RowOk(s, s.targets[7]);
    l := s.targets[7].lease.value;
  }

  lemma SweepIsUnderWay(s: Db)
    requires OnLapsedLease(s, 2)
    ensures var s' := RenewedUnderSweep(s);
            && 2 in s'.sweeps && s'.sweeps[2] == Sweep(0, ROWS) && s'.now == s.now
            && s'.targets[7].lease == s.targets[7].lease
  {
  }

  /**
    A sweep reads a lapsed row, its runner renews the lease, the sweep's update takes it
    away, and it is granted again.
   */
  lemma SplitSweepGrantsTwice()
    ensures exists before, during, t, r, l, x :: GrantsTwice(Run(INIT, before), during, t, r, l, x)
  {
    var steps, s, l := RenewalReachable();
    TakenAndGranted(s, l, s.now + LEASE_SECONDS);
    assert GrantsTwice(Run(INIT, steps), TAKE + CLAIM, 7, 1, l, s.now + LEASE_SECONDS);
  }

  // ---- Stranded work ----

  /** Any update with the counters read at the second attempt strands a target on its last one. */
  lemma StaleUpdateStrands(s: Db)
    requires 2 in s.sweeps && s.sweeps[2] == Sweep(0, ROWS) && s.cancelling == {}
    requires 7 in s.targets && s.targets[7].exec == 5 && s.targets[7].status == Running
    requires s.targets[7].attempt == s.targets[7].maxAttempts
    requires 5 in s.execs && s.execs[5].status == ExecRunning
    ensures Stranded(After(s, SweepApply(2)), 7)
  {
  }

  lemma StaleSweepStrands(s: Db) returns (race: seq<Step>)
    requires OnLapsedLease(s, 2)
    ensures Stranded(Run(s, race), 7)
  {
    LapsedRowIsRead(s);
    assert RowOk(s, s.targets[7]);
    race := [SweepRead(2, 0, ROWS), ClaimRead(0, 1, Some(7), Some(7)), ClaimCommit(0)] + [SweepApply(2)];
    var s1 := s.(sweeps := s.sweeps[2 := Sweep(0, ROWS)]);
    assert Eligible(s1, 1, Some(7), 7);
    var s2 := s1.(tickets := s1.tickets[0 := Ticket(1, 7, Running)]);
    assert After(s, race[0]) == s1 && After(s1, race[1]) == s2;
    CommitGrants(s2, 0);
    var s3 := After(s2, race[2]);
    StaleUpdateStrands(s3);
    RunThree(s, race[0], race[1], race[2], [SweepApply(2)]);
    RunStep(s3, SweepApply(2), []);
    assert [SweepApply(2)] == [SweepApply(2)] + [];
  }

  /**
    A sweep reads the lapsed row at its second attempt, the third lease is given, and
    the sweep then strands the target.
   */
  lemma SplitSweepStrandsWork()
    ensures exists steps, t :: Stranded(Run(INIT, steps), t)
  {
    var steps, s := LapsedLeaseReachable();
    var race := StaleSweepStrands(s);
    RunAppend(INIT, steps, race);
    assert Stranded(Run(INIT, steps + race), 7);
  }

  // ---- An execution that runs with nothing open ----

  /** A running execution, not being cancelled, whose targets have all closed. */
  ghost predicate RunsOnNothing(s: Db, e: ExecId) {
    e in s.execs && s.execs[e].status == ExecRunning && e !in s.cancelling && !HasOpen(s.targets, e)
  }

  const LAST: seq<Expired> := [Expired(7, 3, 3)]

  lemma LastUpdateCloses(s: Db)
    requires OnLapsedLease(s, 3) && 2 in s.sweeps && s.sweeps[2] == Sweep(0, LAST)
    ensures Closes(s, SweepApply(2)) && RunsOnNothing(After(s, SweepApply(2)), 5)
  {
    RunningRowRuns(s, 7);
    assert forall t | t in s.targets :: t == 7;
    assert After(s, SweepApply(2)).targets[7].status == DeadLetter;
  }

  lemma LastLeaseCloses(s: Db) returns (race: seq<Step>)
    requires OnLapsedLease(s, 3)
    ensures RunsOnNothing(Run(s, race), 5)
  {
    race := [SweepRead(2, 0, LAST)] + [SweepApply(2)];
    OpenRowIsActive(s, 7);
    assert RowOk(s, s.targets[7]);
    assert LAST[0].target == 7;
    assert SweepRows(s, 0, LAST);
    var s1 := s.(sweeps := s.sweeps[2 := Sweep(0, LAST)]);
    assert After(s, SweepRead(2, 0, LAST)) == s1;
    SoundStep(s, SweepRead(2, 0, LAST));
    LastUpdateCloses(s1);
    RunTwo(s, SweepRead(2, 0, LAST), SweepApply(2));
  }

  /** A sweep's update dead-letters the last target, and until the sweep ends its execution counts as running. */
  lemma SplitSweepBreaksAgreement()
    ensures exists steps, e :: RunsOnNothing(Run(INIT, steps), e) && !Agreement(Run(INIT, steps))
  {
    var steps, s := LastLeaseReachable();
    var race := LastLeaseCloses(s);
    RunAppend(INIT, steps, race);
    AgreementIs(Run(s, race));
    assert RunsOnNothing(Run(INIT, steps + race), 5);
  }

  // ---- Cancelled work that runs ----

  /** A running target of a cancelled execution. */
  ghost predicate RunsCancelled(s: Db, t: TargetId) {
    && t in s.targets && s.targets[t].status == Running
    && s.targets[t].exec in s.execs && s.execs[s.targets[t].exec].status == ExecCancelled
  }

  lemma StaleClaimRunsCancelled(s: Db) returns (race: seq<Step>)
    requires Sound(s) && s.targets == map[7 := NewTarget(5, 0, 3)] && s.runners == map[1 := Runner(0, true, true, {})]
    requires 5 in s.execs && s.execs[5] == Exec(0, 9, ExecQueued, 0)
    ensures RunsCancelled(Run(s, race), 7)
  {
    race := [ClaimRead(0, 1, None, Some(7)), CancelExec(5, 0, 9, false), ClaimCommit(0)] + [];
    assert Eligible(s, 1, None, 7);
    var s1 := s.(tickets := s.tickets[0 := Ticket(1, 7, Pending)]);
    var s2 := s1.(execs := s1.execs[5 := Exec(0, 9, ExecCancelled, 0)], cancelling := s1.cancelling + {5});
    assert After(s, race[0]) == s1 && After(s1, race[1]) == s2;
    StaleCommit(s2);
    RunThree(s, race[0], race[1], race[2], []);
  }

  lemma StaleCommit(s: Db)
    requires 0 in s.tickets && s.tickets[0] == Ticket(1, 7, Pending)
    requires s.targets == map[7 := NewTarget(5, 0, 3)] && 5 in s.execs && s.execs[5].status == ExecCancelled
    ensures RunsCancelled(After(s, ClaimCommit(0)), 7)
  {
    CommitGrants(s, 0);
  }

  /** A claim that reads before a cancel and commits between its two updates runs a target of a cancelled execution. */
  lemma SplitCancelRunsCancelledWork()
    ensures exists steps, t :: RunsCancelled(Run(INIT, steps), t)
  {
    var s := AfterSetup();
    var race := StaleClaimRunsCancelled(s);
    RunAppend(INIT, SETUP, race);
    assert RunsCancelled(Run(INIT, SETUP + race), 7);
  }
}
