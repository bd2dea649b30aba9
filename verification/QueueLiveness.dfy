/** No stuck work: every open target, and with it every active execution, can be brought to an end. */
module QueueLiveness {
  import opened Common
  import opened Queue
  import opened QueueInvariant
  import opened QueueAgreement

  /** An open target of an execution that nobody cancelled. */
  predicate Wanted(s: Db, t: TargetId) {
    && t in s.targets && s.targets[t].Open()
    && s.targets[t].exec in s.execs && s.execs[s.targets[t].exec].status != ExecCancelled
  }

  /**
    Once a lease time has passed, a wanted target can be claimed by any runner in
    scope, or it has no attempt left and the next reconcile dead-letters it.
   */
  lemma NoStuckWork(s: Db, t: TargetId, wait: nat)
    requires Sound(s) && Wanted(s, t) && wait >= LEASE_SECONDS
    ensures var s' := After(s, Tick(wait));
            var row := s'.targets[t];
            if row.attempt < row.maxAttempts then
              forall runner | runner in s'.runners && InScope(s'.runners[runner], row.org, row.server) ::
                LegalAnswer(s', runner, Some(t), Some(t))
            else After(s', Reconcile(row.org)).targets[t].status == DeadLetter
  {
    OpenRowIsActive(s, t);
    assert RowOk(s, s.targets[t]);
  }

  /** So it is after every run from the empty database, sweeps outside transactions included, that strands no row. */
  lemma NoStuckWorkFromStart(steps: seq<Step>, t: TargetId, wait: nat)
    requires NoneStrands(INIT, steps) && Wanted(Run(INIT, steps), t) && wait >= LEASE_SECONDS
    ensures var s' := After(Run(INIT, steps), Tick(wait));
            var row := s'.targets[t];
            if row.attempt < row.maxAttempts then
              forall runner | runner in s'.runners && InScope(s'.runners[runner], row.org, row.server) ::
                LegalAnswer(s', runner, Some(t), Some(t))
            else After(s', Reconcile(row.org)).targets[t].status == DeadLetter
  {
    SoundRun(INIT, steps);
    NoStuckWork(Run(INIT, steps), t, wait);
  }

  // ---- Runs ----

  lemma RunStep(s: Db, step: Step, rest: seq<Step>)
    ensures Run(s, [step] + rest) == Run(After(s, step), rest)
  {
    assert ([step] + rest)[1..] == rest;
  }

  lemma RunTwo(s: Db, a: Step, b: Step)
    ensures Run(s, [a] + [b]) == After(After(s, a), b)
  {
    RunStep(s, a, [b]);
    RunStep(After(s, a), b, []);
    assert [b] == [b] + [];
  }

  lemma RunThree(s: Db, a: Step, b: Step, c: Step, rest: seq<Step>)
    ensures Run(s, [a, b, c] + rest) == Run(After(After(After(s, a), b), c), rest)
  {
    RunStep(s, a, [b, c] + rest);
    RunStep(After(s, a), b, [c] + rest);
    RunStep(After(After(s, a), b), c, rest);
    assert [a, b, c] + rest == [a] + ([b, c] + rest);
    assert [b, c] + rest == [b] + ([c] + rest);
  }

  lemma {:induction false} RunAppend(s: Db, a: seq<Step>, b: seq<Step>)
    ensures Run(s, a + b) == Run(Run(s, a), b)
    decreases |a|
  {
    if |a| == 0 {
      assert a + b == b;
    } else {
      assert (a + b)[1..] == a[1..] + b;
      RunAppend(After(s, a[0]), a[1..], b);
    }
  }

  // ---- One more lease ----

  /** The three requests that carry a wanted target with attempts left through one more lease. */
  function Round(t: TargetId, runner: RunnerId): seq<Step> {
    [Tick(LEASE_SECONDS), ClaimRead(0, runner, Some(t), Some(t)), ClaimCommit(0)]
  }

  lemma CommitGrants(s: Db, req: RequestId)
    requires req in s.tickets && s.tickets[req].target in s.targets
    requires ClaimGuard(s.targets[s.tickets[req].target], s.tickets[req].source, s.now)
    ensures var s' := After(s, ClaimCommit(req));
            var t := s.tickets[req].target;
            && s'.targets == s.targets[t := Leased(s.targets[t], s.tickets[req].runner, s.nextLease, s.now)]
            && s'.execs == Started(s.execs, s.targets[t].exec)
            && s'.runners == s.runners && s'.cancelling == s.cancelling && s'.sweeps == s.sweeps && s'.now == s.now
            && s'.nextLease == s.nextLease + 1
            && ReplyTo(s, ClaimCommit(req)) ==
                 Job(t, s.targets[t].exec, s.nextLease, s.tickets[req].runner, s.now + LEASE_SECONDS)
  {
  }

  /** A round gives the target one more lease, to the runner that asks. */
  lemma RoundUsesAnAttempt(s: Db, t: TargetId, runner: RunnerId)
    requires Sound(s) && Wanted(s, t) && s.targets[t].attempt < s.targets[t].maxAttempts
    requires runner in s.runners && InScope(s.runners[runner], s.targets[t].org, s.targets[t].server)
    ensures var s' := Run(s, Round(t, runner));
            && s'.runners == s.runners && s'.cancelling == s.cancelling && s'.now == s.now + LEASE_SECONDS
            && s'.targets == s.targets[t := Leased(s.targets[t], runner, s.nextLease, s.now + LEASE_SECONDS)]
            && s'.execs == Started(s.execs, s.targets[t].exec)
  {
    NoStuckWork(s, t, LEASE_SECONDS);
    var steps := Round(t, runner);
    var s1 := After(s, steps[0]);
    var s2 := After(s1, steps[1]);
    assert s2.tickets[0] == Ticket(runner, t, s.targets[t].status);
    assert Due(s1.targets[t], s1.now) by {
      assert RowOk(s, s.targets[t]);
    }
    CommitGrants(s2, 0);
    RunThree(s, steps[0], steps[1], steps[2], []);
    assert steps == [steps[0], steps[1], steps[2]] + [];
  }

  // ---- Bringing one target to an end ----

  /** The steps of a runner that polls: time passes, it claims, and leases are reconciled. */
  predicate Polling(step: Step) { step.Tick? || step.ClaimRead? || step.ClaimCommit? || step.Reconcile? }

  ghost predicate AllPolling(steps: seq<Step>) { forall i | 0 <= i < |steps| :: Polling(steps[i]) }

  ghost predicate Finishes(s: Db, steps: seq<Step>, t: TargetId) {
    AllPolling(steps) && t in Run(s, steps).targets && !Run(s, steps).targets[t].Open()
  }

  lemma LastAttemptFinishes(s: Db, t: TargetId)
    requires Sound(s) && Wanted(s, t) && s.targets[t].attempt >= s.targets[t].maxAttempts
    ensures Finishes(s, [Tick(LEASE_SECONDS), Reconcile(s.targets[t].org)], t)
  {
    var org := s.targets[t].org;
    NoStuckWork(s, t, LEASE_SECONDS);
    RunStep(s, Tick(LEASE_SECONDS), [Reconcile(org)]);
    RunStep(After(s, Tick(LEASE_SECONDS)), Reconcile(org), []);
    assert [Tick(LEASE_SECONDS), Reconcile(org)] == [Tick(LEASE_SECONDS)] + [Reconcile(org)];
    assert [Reconcile(org)] == [Reconcile(org)] + [];
  }

  /** After a round the target is still wanted, and has used an attempt. */
  lemma RoundKeepsWanted(s: Db, t: TargetId, runner: RunnerId)
    requires Sound(s) && Wanted(s, t) && s.targets[t].attempt < s.targets[t].maxAttempts
    requires runner in s.runners && InScope(s.runners[runner], s.targets[t].org, s.targets[t].server)
    ensures AllPolling(Round(t, runner))
    ensures var s' := Run(s, Round(t, runner));
            && Sound(s') && Wanted(s', t) && s'.runners == s.runners
            && s'.targets[t] == Leased(s.targets[t], runner, s.nextLease, s.now + LEASE_SECONDS)
  {
    RoundUsesAnAttempt(s, t, runner);
    SoundStays(s, Round(t, runner));
  }

  /** From every sound state, every wanted target with a runner in scope can still be brought to an end. */
  lemma {:induction false} EveryOpenTargetCanFinish(s: Db, t: TargetId, runner: RunnerId)
    requires Sound(s) && Wanted(s, t)
    requires runner in s.runners && InScope(s.runners[runner], s.targets[t].org, s.targets[t].server)
    ensures exists steps :: Finishes(s, steps, t)
    decreases s.targets[t].maxAttempts - s.targets[t].attempt
  {
    if s.targets[t].attempt >= s.targets[t].maxAttempts {
      LastAttemptFinishes(s, t);
    } else {
      var round := Round(t, runner);
      RoundKeepsWanted(s, t, runner);
      EveryOpenTargetCanFinish(Run(s, round), t, runner);
      var rest :| Finishes(Run(s, round), rest, t);
      RunAppend(s, round, rest);
      assert Finishes(s, round + rest, t);
    }
  }

  // ---- Bringing an execution to an end ----

  /** What polling leaves alone: it cancels nothing and opens no target again. */
  ghost predicate Polled(s: Db, s': Db) {
    && s'.runners == s.runners
    && s'.targets.Keys == s.targets.Keys && s'.execs.Keys == s.execs.Keys
    && (forall t | t in s.targets :: SameWork(s.targets[t], s'.targets[t]))
    && (forall e | e in s.execs :: s.execs[e].status != ExecCancelled ==> s'.execs[e].status != ExecCancelled)
  }

  predicate SameWork(row: Target, row': Target) {
    row'.exec == row.exec && row'.org == row.org && row'.server == row.server && (row'.Open() ==> row.Open())
  }

  lemma PolledStep(s: Db, step: Step)
    requires Polling(step)
    ensures Polled(s, After(s, step))
  {
  }

  lemma {:induction false} PolledRun(s: Db, steps: seq<Step>)
    requires AllPolling(steps)
    ensures Polled(s, Run(s, steps))
    decreases |steps|
  {
    if |steps| == 0 {
    } else {
      PolledStep(s, steps[0]);
      PolledRun(After(s, steps[0]), steps[1..]);
      PolledTwice(s, After(s, steps[0]), Run(s, steps));
    }
  }

  lemma PolledTwice(s: Db, s1: Db, s2: Db)
    requires Polled(s, s1) && Polled(s1, s2)
    ensures Polled(s, s2)
  {
    forall t | t in s.targets ensures SameWork(s.targets[t], s2.targets[t]) {
      assert SameWork(s.targets[t], s1.targets[t]) && SameWork(s1.targets[t], s2.targets[t]);
    }
  }

  function OpenOf(s: Db, e: ExecId): set<TargetId> {
    set t | t in s.targets && s.targets[t].exec == e && s.targets[t].Open()
  }

  ghost predicate Served(s: Db, row: Target) {
    exists runner :: runner in s.runners && InScope(s.runners[runner], row.org, row.server)
  }

  /** Some runner may take each open target of the execution. */
  ghost predicate AllServed(s: Db, e: ExecId) {
    forall t | t in OpenOf(s, e) :: Served(s, s.targets[t])
  }

  ghost predicate Ends(s: Db, steps: seq<Step>, e: ExecId) {
    && AllPolling(steps) && e in Run(s, steps).execs
    && (Run(s, steps).execs[e].status == ExecSucceeded || Run(s, steps).execs[e].status == ExecFailed)
  }

  /** One target closes, none opens, and every target that is still open is still served. */
  lemma OneFewer(s: Db, s': Db, e: ExecId, t: TargetId)
    requires Polled(s, s') && AllServed(s, e) && t in OpenOf(s, e) && !s'.targets[t].Open()
    ensures |OpenOf(s', e)| < |OpenOf(s, e)| && AllServed(s', e)
  {
    forall u | u in OpenOf(s', e) ensures u in OpenOf(s, e) && u != t && Served(s', s'.targets[u]) {
      assert SameWork(s.targets[u], s'.targets[u]);
      assert Served(s, s.targets[u]);
    }
    assert OpenOf(s', e) <= OpenOf(s, e) - {t};
    SubsetSize(OpenOf(s', e), OpenOf(s, e) - {t});
  }

  /** An execution that nobody cancelled, and whose open targets all have a runner in scope. */
  ghost predicate Endable(s: Db, e: ExecId) {
    Sound(s) && e in s.execs && s.execs[e].status != ExecCancelled && AllServed(s, e)
  }

  /** With nothing open left the verdict is there, or the next reconcile gives it. */
  lemma NothingOpen(s: Db, e: ExecId)
    requires Endable(s, e) && !HasOpen(s.targets, e)
    ensures Ends(s, [Reconcile(s.execs[e].org)], e)
  {
    var org := s.execs[e].org;
    assert CoheresAt(s, e);
    OwnRowsStay(s, org, e);
    RunStep(s, Reconcile(org), []);
    assert [Reconcile(org)] == [Reconcile(org)] + [];
  }

  lemma OwnRowsStay(s: Db, org: OrgId, e: ExecId)
    requires !HasOpen(s.targets, e)
    ensures var targets := ReconciledTargets(s, org);
            !HasOpen(targets, e) && (HasFailed(s.targets, e) <==> HasFailed(targets, e))
  {
    var targets := ReconciledTargets(s, org);
    forall t | t in s.targets
      ensures targets[t].exec == s.targets[t].exec && (s.targets[t].exec == e ==> targets[t] == s.targets[t])
    {
    }
  }

  lemma CloseOne(s: Db, e: ExecId) returns (steps: seq<Step>)
    requires Endable(s, e) && HasOpen(s.targets, e)
    ensures AllPolling(steps) && Endable(Run(s, steps), e) && |OpenOf(Run(s, steps), e)| < |OpenOf(s, e)|
  {
    var t :| t in s.targets && s.targets[t].exec == e && s.targets[t].Open();
    assert t in OpenOf(s, e);
    assert Served(s, s.targets[t]);
    var runner :| runner in s.runners && InScope(s.runners[runner], s.targets[t].org, s.targets[t].server);
    EveryOpenTargetCanFinish(s, t, runner);
    steps :| Finishes(s, steps, t);
    SoundStays(s, steps);
    PolledRun(s, steps);
    OneFewer(s, Run(s, steps), e, t);
  }

  /** From every sound state, every such execution can be brought to its verdict. */
  lemma {:induction false} EveryExecutionCanEnd(s: Db, e: ExecId)
    requires Endable(s, e)
    ensures exists steps :: Ends(s, steps, e)
    decreases |OpenOf(s, e)|
  {
    if !HasOpen(s.targets, e) {
      NothingOpen(s, e);
    } else {
      var steps := CloseOne(s, e);
      EveryExecutionCanEnd(Run(s, steps), e);
      var rest :| Ends(Run(s, steps), rest, e);
      RunAppend(s, steps, rest);
      assert Ends(s, steps + rest, e);
    }
  }
}
