/** Properties of whole runs of the queue. */
module QueueTheorems {
  import opened Common
  import opened Queue
  import opened QueueInvariant
  import opened QueueAgreement

  // ---- What a step may do to a row ----

  ghost predicate Granted(s: Db, step: Step, t: TargetId) {
    step.ClaimCommit? && ReplyTo(s, step).Job? && ReplyTo(s, step).target == t
  }

  ghost predicate Accepted(s: Db, step: Step, t: TargetId, l: LeaseId) {
    step.Submit? && step.result.target == t && step.result.lease == l && ReplyTo(s, step).Reply?
        && ReplyTo(s, step).code == 200
  }

  ghost predicate Effect(s: Db, step: Step, t: TargetId, row: Target, row': Target) {
    || row' == row
    || (Granted(s, step, t) && Due(row, s.now) && row.attempt < row.maxAttempts
        && exists runner :: row' == Leased(row, runner, s.nextLease, s.now))
    || (step.Renew? && row.status == Running && row' == row.(expires := Some(s.now + LEASE_SECONDS)))
    || (step.Submit? && HeldBy(row, step.result.exec, step.result.runner, step.result.lease)
        && Accepted(s, step, t, step.result.lease) && row' == Finished(row, step.result, s.now))
    || (step.Reconcile? && Lapsed(s, step.org, t) && row' == Reclaimed(row, row.attempt, row.maxAttempts, s.now))
    || (step.SweepApply? && row.status == Running && exists a: nat, m: nat :: row' == Reclaimed(row, a, m, s.now))
    || (step.CancelTargets? && row.exec in s.cancelling && row' == row.(status := Cancelled))
    || (step.Cancel? && row.exec in s.execs
        && (s.execs[row.exec].status == ExecQueued || s.execs[row.exec].status == ExecCreated)
        && row' == row.(status := Cancelled))
  }

  lemma RowEffect(s: Db, step: Step, t: TargetId)
    requires t in s.targets
    ensures t in After(s, step).targets
    ensures Effect(s, step, t, s.targets[t], After(s, step).targets[t])
  {
    match step
    case Create(exec, org, user, ids, servers) =>
    case ClaimCommit(req) => ClaimEffect(s, req, t);
    case Submit(org, r) => SubmitEffect(s, org, r, t);
    case Reconcile(org) => ReconcileEffect(s, org, t);
    case SweepApply(req) => SweepEffect(s, req, t);
    case _ =>
  }

  lemma ReconcileEffect(s: Db, org: OrgId, t: TargetId)
    requires t in s.targets
    ensures t in After(s, Reconcile(org)).targets
    ensures Effect(s, Reconcile(org), t, s.targets[t], After(s, Reconcile(org)).targets[t])
  {
  }

  lemma ClaimEffect(s: Db, req: RequestId, t: TargetId)
    requires t in s.targets
    ensures t in After(s, ClaimCommit(req)).targets
    ensures Effect(s, ClaimCommit(req), t, s.targets[t], After(s, ClaimCommit(req)).targets[t])
  {
  }

  lemma SweepEffect(s: Db, req: RequestId, t: TargetId)
    requires t in s.targets
    ensures t in After(s, SweepApply(req)).targets
    ensures Effect(s, SweepApply(req), t, s.targets[t], After(s, SweepApply(req)).targets[t])
  {
    if req in s.sweeps && |s.sweeps[req].expired| > 0 {
      var x := s.sweeps[req].expired[0];
      assert x.target == t ==> After(s, SweepApply(req)).targets[t] == Reclaimed(s.targets[t], x.attempt, x.max, s.now);
    }
  }

  lemma SubmitEffect(s: Db, org: OrgId, r: Result, t: TargetId)
    requires t in s.targets
    ensures t in SubmitStep(s, org, r).0.targets
    ensures SubmitStep(s, org, r).0.targets[t] == s.targets[t]
         || (t == r.target && SubmitStep(s, org, r).1 == Reply(200, SubmitStep(s, org, r).1.body)
             && HeldBy(s.targets[t], r.exec, r.runner, r.lease)
             && SubmitStep(s, org, r).0.targets[t] == Finished(s.targets[t], r, s.now))
  {
  }

  lemma {:induction false} RowsStay(s: Db, steps: seq<Step>, t: TargetId)
    requires t in s.targets
    ensures t in Run(s, steps).targets
    decreases |steps|
  {
    if |steps| == 0 {
    } else {
      RowEffect(s, steps[0], t);
      RowsStay(After(s, steps[0]), steps[1..], t);
    }
  }

  lemma ClockStep(s: Db, step: Step)
    ensures s.now <= After(s, step).now
  {
    match step
    case Submit(org, r) =>
    case _ =>
  }

  lemma {:induction false} ClockMonotone(s: Db, steps: seq<Step>)
    ensures s.now <= Run(s, steps).now
    decreases |steps|
  {
    if |steps| == 0 {
    } else {
      ClockStep(s, steps[0]);
      ClockMonotone(After(s, steps[0]), steps[1..]);
    }
  }

  lemma GrantUsesAnAttempt(s: Db, step: Step, t: TargetId)
    requires t in s.targets && Granted(s, step, t)
    ensures t in After(s, step).targets && After(s, step).targets[t].attempt == s.targets[t].attempt + 1
  {
  }

  // ---- Lease exclusion ----

  /** Row t is leased to r under l, at least until x. */
  ghost predicate Holds(s: Db, t: TargetId, r: RunnerId, l: LeaseId, x: int) {
    && t in s.targets
    && s.targets[t].status == Running
    && s.targets[t].runner == Some(r) && s.targets[t].lease == Some(l)
    && s.targets[t].expires.Some? && s.targets[t].expires.value >= x
  }

  /** No step of the run gets a result for t under l accepted. */
  ghost predicate NoneAccepted(s: Db, steps: seq<Step>, t: TargetId, l: LeaseId)
    decreases |steps|
  {
    |steps| == 0 || (!Accepted(s, steps[0], t, l) && NoneAccepted(After(s, steps[0]), steps[1..], t, l))
  }

  /** No step of the run hands t out. */
  ghost predicate NoneGranted(s: Db, steps: seq<Step>, t: TargetId)
    decreases |steps|
  {
    |steps| == 0 || (!Granted(s, steps[0], t) && NoneGranted(After(s, steps[0]), steps[1..], t))
  }

  /** A job reply or a renewal puts the lease in the row, until the time it promises. */
  lemma GrantHolds(s: Db, step: Step)
    ensures ReplyTo(s, step).Job? ==>
              var job := ReplyTo(s, step);
              Holds(After(s, step), job.target, job.runner, job.lease, job.expires)
                  && job.expires == s.now + LEASE_SECONDS
    ensures step.Renew? && ReplyTo(s, step) == Reply(200, Renewed) ==>
              Holds(After(s, step), step.target, step.runner, step.lease, s.now + LEASE_SECONDS)
  {
  }

  lemma HoldStep(s: Db, step: Step, t: TargetId, r: RunnerId, l: LeaseId, x: int)
    requires Base(s) && Coherence(s) && Transactional(step)
    requires Holds(s, t, r, l, x) && s.targets[t].exec !in s.cancelling
    requires After(s, step).now < x && !Accepted(s, step, t, l)
    ensures Holds(After(s, step), t, r, l, x) && !Granted(s, step, t)
    ensures After(s, step).targets[t].exec !in After(s, step).cancelling
  {
    CancellingStays(s, step);
    RowEffect(s, step, t);
    ClockStep(s, step);
    RunningRowRuns(s, t);
    EffectKeepsHold(s, step, t, After(s, step).targets[t], x);
    if Granted(s, step, t) {
      GrantUsesAnAttempt(s, step, t);
    }
  }

  lemma CancellingStays(s: Db, step: Step)
    requires Transactional(step)
    ensures After(s, step).cancelling == s.cancelling
  {
    match step
    case Submit(org, r) =>
    case _ =>
  }

  /** Neither the clock nor anybody's transaction but the runner's own result changes more than the expiry. */
  lemma EffectKeepsHold(s: Db, step: Step, t: TargetId, row': Target, x: int)
    requires t in s.targets && s.now < x && Transactional(step) && Effect(s, step, t, s.targets[t], row')
    requires s.targets[t].exec in s.execs && s.execs[s.targets[t].exec].status == ExecRunning
    requires s.targets[t].status == Running && s.targets[t].expires.Some? && s.targets[t].expires.value >= x
    requires s.targets[t].lease.Some? && !Accepted(s, step, t, s.targets[t].lease.value)
    requires x <= s.now + LEASE_SECONDS
    ensures row'.expires.Some? && row'.expires.value >= x && row' == s.targets[t].(expires := row'.expires)
  {
  }

  /**
    While a granted or renewed lease is unexpired and its result is not yet
    accepted, the row carries that runner and lease and nobody else gets the
    target, whatever claims, renewals, results, cancels and reconciles run.
   */
  lemma {:induction false} LeaseExclusion(s: Db, steps: seq<Step>, t: TargetId, r: RunnerId, l: LeaseId, x: int)
    requires Base(s) && Coherence(s) && AllTransactional(steps)
    requires Holds(s, t, r, l, x) && s.targets[t].exec !in s.cancelling
    requires Run(s, steps).now < x && NoneAccepted(s, steps, t, l)
    ensures Holds(Run(s, steps), t, r, l, x) && NoneGranted(s, steps, t)
    decreases |steps|
  {
    if |steps| == 0 {
    } else {
      ClockMonotone(After(s, steps[0]), steps[1..]);
      HoldStep(s, steps[0], t, r, l, x);
      CoherenceStep(s, steps[0]);
      LeaseExclusion(After(s, steps[0]), steps[1..], t, r, l, x);
    }
  }

  lemma LeaseExclusionAfter(s: Db, claim: Step, during: seq<Step>)
    requires Base(s) && Coherence(s) && AllTransactional(during) && ReplyTo(s, claim).Job?
    requires ReplyTo(s, claim).exec !in s.cancelling
    requires var job := ReplyTo(s, claim);
             && Run(After(s, claim), during).now < job.expires
             && NoneAccepted(After(s, claim), during, job.target, job.lease)
    ensures var job := ReplyTo(s, claim);
            && Holds(Run(After(s, claim), during), job.target, job.runner, job.lease, job.expires)
            && NoneGranted(After(s, claim), during, job.target)
  {
    GrantHolds(s, claim);
    GrantedExec(s, claim);
    CoherenceStep(s, claim);
    var job := ReplyTo(s, claim);
    LeaseExclusion(After(s, claim), during, job.target, job.runner, job.lease, job.expires);
  }

  lemma GrantedExec(s: Db, claim: Step)
    requires ReplyTo(s, claim).Job?
    ensures var job := ReplyTo(s, claim);
            && job.target in After(s, claim).targets && After(s, claim).targets[job.target].exec == job.exec
            && After(s, claim).cancelling == s.cancelling
  {
  }

  /**
    The same from the empty database: any run at all, then a job reply for an
    execution nobody is cancelling, then any run that stays within the lease.
   */
  lemma LeaseExclusionFromStart(before: seq<Step>, claim: Step, during: seq<Step>)
    requires AllTransactional(during) && ReplyTo(Run(INIT, before), claim).Job?
    requires ReplyTo(Run(INIT, before), claim).exec !in Run(INIT, before).cancelling
    requires var s := After(Run(INIT, before), claim);
             var job := ReplyTo(Run(INIT, before), claim);
             Run(s, during).now < job.expires && NoneAccepted(s, during, job.target, job.lease)
    ensures var s := After(Run(INIT, before), claim);
            var job := ReplyTo(Run(INIT, before), claim);
            Holds(Run(s, during), job.target, job.runner, job.lease, job.expires) && NoneGranted(s, during, job.target)
  {
    CoherenceRun(INIT, before);
    LeaseExclusionAfter(Run(INIT, before), claim, during);
  }

  // ---- Exactly-once results ----

  ghost predicate HasReceipt(s: Db, r: Result, reply: Reply) {
    && (r.target, r.lease) in s.receipts
    && s.receipts[(r.target, r.lease)].payload == r
    && reply == Reply(s.receipts[(r.target, r.lease)].code, s.receipts[(r.target, r.lease)].body)
  }

  lemma ReceiptsStay(s: Db, step: Step, k: (TargetId, LeaseId))
    requires k in s.receipts
    ensures k in After(s, step).receipts && After(s, step).receipts[k] == s.receipts[k]
  {
  }

  lemma AcceptanceLeavesReceipt(s: Db, org: OrgId, r: Result)
    requires Accepted(s, Submit(org, r), r.target, r.lease)
    ensures HasReceipt(After(s, Submit(org, r)), r, ReplyTo(s, Submit(org, r)))
  {
  }

  /** The steps that are not a replay of r. */
  ghost function WithoutReplays(steps: seq<Step>, r: Result): (out: seq<Step>)
    ensures |out| <= |steps|
  {
    if |steps| == 0 then []
    else if steps[0].Submit? && steps[0].result == r then WithoutReplays(steps[1..], r)
    else [steps[0]] + WithoutReplays(steps[1..], r)
  }

  /** Every replay of r in the run is answered with the given reply. */
  ghost predicate RepliesWith(s: Db, steps: seq<Step>, r: Result, reply: Reply)
    decreases |steps|
  {
    || |steps| == 0
    || ((steps[0].Submit? && steps[0].result == r ==> ReplyTo(s, steps[0]) == reply)
        && RepliesWith(After(s, steps[0]), steps[1..], r, reply))
  }

  lemma {:induction false} ReplaysAreIdle(s: Db, steps: seq<Step>, r: Result, reply: Reply)
    requires HasReceipt(s, r, reply)
    ensures Run(s, steps) == Run(s, WithoutReplays(steps, r)) && RepliesWith(s, steps, r, reply)
    decreases |steps|
  {
    if |steps| == 0 {
    } else {
      ReceiptsStay(s, steps[0], (r.target, r.lease));
      ReplaysAreIdle(After(s, steps[0]), steps[1..], r, reply);
      if steps[0].Submit? && steps[0].result == r {
        assert After(s, steps[0]) == s;
      } else {
        assert WithoutReplays(steps, r)[1..] == WithoutReplays(steps[1..], r);
      }
    }
  }

  /**
    Once a result is accepted, replays of it, at any later points of any run
    (the split sweep and the split cancel included), change nothing and are all
    answered as it was.
   */
  lemma ExactlyOnce(s: Db, org: OrgId, r: Result, steps: seq<Step>)
    requires Accepted(s, Submit(org, r), r.target, r.lease)
    ensures var s' := After(s, Submit(org, r));
            && Run(s', steps) == Run(s', WithoutReplays(steps, r))
            && RepliesWith(s', steps, r, ReplyTo(s, Submit(org, r)))
  {
    AcceptanceLeavesReceipt(s, org, r);
    ReplaysAreIdle(After(s, Submit(org, r)), steps, r, ReplyTo(s, Submit(org, r)));
  }

  lemma {:induction false} ReceiptsStayOverRuns(s: Db, steps: seq<Step>, k: (TargetId, LeaseId))
    requires k in s.receipts
    ensures k in Run(s, steps).receipts && Run(s, steps).receipts[k] == s.receipts[k]
    decreases |steps|
  {
    if |steps| == 0 {
    } else {
      ReceiptsStay(s, steps[0], k);
      ReceiptsStayOverRuns(After(s, steps[0]), steps[1..], k);
    }
  }

  /** After a result is accepted, any other payload for the same lease is refused, and changes nothing, for ever. */
  lemma OtherPayloadRefused(s: Db, org: OrgId, r: Result, steps: seq<Step>, org': OrgId, r': Result)
    requires Accepted(s, Submit(org, r), r.target, r.lease)
    requires r'.target == r.target && r'.lease == r.lease && r' != r
    ensures var s' := Run(After(s, Submit(org, r)), steps);
            Next(s', Submit(org', r')) == (s', Reply(409, PayloadConflict))
  {
    AcceptanceLeavesReceipt(s, org, r);
    ReceiptsStayOverRuns(After(s, Submit(org, r)), steps, (r.target, r.lease));
  }

  /** Lease l has been issued, and row t no longer carries it. */
  ghost predicate Superseded(s: Db, t: TargetId, l: LeaseId) {
    t in s.targets && l < s.nextLease && s.targets[t].lease != Some(l)
  }

  lemma SupersededStep(s: Db, step: Step, t: TargetId, l: LeaseId)
    requires Superseded(s, t, l)
    ensures Superseded(After(s, step), t, l)
  {
    RowEffect(s, step, t);
  }

  /** A lease that the row has lost never comes back, and a result sent under it leaves every target as it is. */
  lemma {:induction false} SupersededForever(s: Db, steps: seq<Step>, t: TargetId, l: LeaseId, org: OrgId, r: Result)
    requires Superseded(s, t, l)
    requires r.target == t && r.lease == l
    ensures Superseded(Run(s, steps), t, l)
    ensures After(Run(s, steps), Submit(org, r)) == Run(s, steps)
    decreases |steps|
  {
    if |steps| == 0 {
    } else {
      SupersededStep(s, steps[0], t, l);
      SupersededForever(After(s, steps[0]), steps[1..], t, l, org, r);
    }
  }

  // ---- Bounded work ----

  function Work(row: Target): int {
    if row.status == Pending then 2 * (row.maxAttempts - row.attempt)
    else if row.status == Running then 2 * (row.maxAttempts - row.attempt) + 1
    else 0
  }

  /** A claim, reclaim, accepted result, reconcile or cancel shows in the row's status or attempt counter. */
  ghost predicate Moved(s: Db, step: Step, t: TargetId)
    requires t in s.targets
  {
    t in After(s, step).targets
    && (After(s, step).targets[t].status != s.targets[t].status
        || After(s, step).targets[t].attempt != s.targets[t].attempt)
  }

  lemma EffectCostsWork(s: Db, step: Step, t: TargetId, row: Target, row': Target)
    requires Effect(s, step, t, row, row') && RowShape(row, s.now, s.nextLease) && row'.attempt <= row'.maxAttempts
    ensures 0 <= Work(row') <= Work(row) && row'.maxAttempts == row.maxAttempts
    ensures row'.status != row.status || row'.attempt != row.attempt ==>
              Work(row') < Work(row) || (Work(row) == 0 && row'.status == Cancelled)
    ensures row'.attempt == row.attempt + 1 || row'.attempt == row.attempt
    ensures row'.attempt != row.attempt ==> Granted(s, step, t)
  {
  }

  /** Every move of a row costs work; only a cancel may find none left to spend. */
  lemma MoveCostsWork(s: Db, step: Step, t: TargetId)
    requires Base(s) && t in s.targets
    ensures t in After(s, step).targets
    ensures var before := s.targets[t];
            var after := After(s, step).targets[t];
            && 0 <= Work(after) <= Work(before)
            && (Moved(s, step, t) ==> Work(after) < Work(before) || (Work(before) == 0 && after.status == Cancelled))
            && after.attempt == before.attempt + (if Granted(s, step, t) then 1 else 0)
            && after.maxAttempts == before.maxAttempts
  {
    RowEffect(s, step, t);
    BaseStep(s, step);
    var row, row' := s.targets[t], After(s, step).targets[t];
    assert RowOk(s, row) && RowOk(After(s, step), row');
    EffectCostsWork(s, step, t, row, row');
    if Granted(s, step, t) {
      GrantUsesAnAttempt(s, step, t);
    }
  }

  /** With whole sweeps and cancels, no move is free. */
  lemma TransactionalMoveCostsWork(s: Db, step: Step, t: TargetId)
    requires Sound(s) && Transactional(step) && t in s.targets && Moved(s, step, t)
    ensures Work(After(s, step).targets[t]) < Work(s.targets[t])
  {
    MoveCostsWork(s, step, t);
    RowEffect(s, step, t);
    if step.Cancel? && s.targets[t].exec in s.execs {
      assert CoheresAt(s, s.targets[t].exec);
    }
  }

  ghost function Grants(s: Db, steps: seq<Step>, t: TargetId): nat
    decreases |steps|
  {
    if |steps| == 0 then 0
    else (if Granted(s, steps[0], t) then 1 else 0) + Grants(After(s, steps[0]), steps[1..], t)
  }

  ghost function Moves(s: Db, steps: seq<Step>, t: TargetId): nat
    requires t in s.targets
    decreases |steps|
  {
    if |steps| == 0 then 0
    else
      RowEffect(s, steps[0], t);
      (if Moved(s, steps[0], t) then 1 else 0) + Moves(After(s, steps[0]), steps[1..], t)
  }

  /** The attempt counter counts the leases given, and stays within the budget, in every run. */
  lemma {:induction false} AttemptsCountGrants(s: Db, steps: seq<Step>, t: TargetId)
    requires Base(s) && t in s.targets
    ensures t in Run(s, steps).targets
    ensures Run(s, steps).targets[t].attempt == s.targets[t].attempt + Grants(s, steps, t)
    ensures Run(s, steps).targets[t].attempt <= Run(s, steps).targets[t].maxAttempts == s.targets[t].maxAttempts
    decreases |steps|
  {
    if |steps| == 0 {
    } else {
      MoveCostsWork(s, steps[0], t);
      BaseStep(s, steps[0]);
      AttemptsCountGrants(After(s, steps[0]), steps[1..], t);
    }
  }

  /** A target moves at most as often as its work allows, and once more if it is cancelled at the end. */
  lemma {:induction false} MovesBounded(s: Db, steps: seq<Step>, t: TargetId)
    requires Base(s) && t in s.targets
    ensures Moves(s, steps, t) <= Work(s.targets[t]) + (if s.targets[t].status == Cancelled then 0 else 1)
    decreases |steps|
  {
    if |steps| == 0 {
    } else {
      RowEffect(s, steps[0], t);
      MoveCostsWork(s, steps[0], t);
      BaseStep(s, steps[0]);
      MovesBounded(After(s, steps[0]), steps[1..], t);
    }
  }

  /** With whole sweeps and cancels, a target moves at most as often as its work allows. */
  lemma {:induction false} TransactionalMovesBounded(s: Db, steps: seq<Step>, t: TargetId)
    requires Sound(s) && AllTransactional(steps) && t in s.targets
    ensures Moves(s, steps, t) <= Work(s.targets[t]) <= 2 * s.targets[t].maxAttempts + 1
    decreases |steps|
  {
    if |steps| == 0 {
    } else {
      RowEffect(s, steps[0], t);
      MoveCostsWork(s, steps[0], t);
      if Moved(s, steps[0], t) {
        TransactionalMoveCostsWork(s, steps[0], t);
      }
      CoherenceStep(s, steps[0]);
      ReadyStep(s, steps[0]);
      TransactionalMovesBounded(After(s, steps[0]), steps[1..], t);
    }
  }
}
