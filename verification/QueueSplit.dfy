/**
  The background sweep and the cancel request, statement by statement: what
  they keep, and exactly which step breaks what they do not keep.
 */
module QueueSplit {
  import opened Common
  import opened Queue
  import opened QueueInvariant
  import opened QueueAgreement
  import opened QueueTheorems
  import opened QueueLiveness
  import opened QueueStore

  // ---- A sweep that nothing interrupts ----

  function Repeat(step: Step, n: nat): seq<Step> { if n == 0 then [] else [step] + Repeat(step, n - 1) }

  /** The state when the first k rows are updated. */
  function Swept(s: Db, req: RequestId, org: OrgId, rows: seq<Expired>, k: nat): Db
    requires k <= |rows|
  {
    s.(targets := ApplyRows(s.targets, rows[..k], s.now), sweeps := s.sweeps[req := Sweep(org, rows[k..])])
  }

  lemma SweepUpdate(s: Db, req: RequestId, org: OrgId, rows: seq<Expired>, k: nat)
    requires k < |rows|
    ensures After(Swept(s, req, org, rows, k), SweepApply(req)) == Swept(s, req, org, rows, k + 1)
  {
    var s' := Swept(s, req, org, rows, k);
    assert rows[..k + 1][..k] == rows[..k] && rows[k..][1..] == rows[k + 1..] && rows[k..][0] == rows[k];
    assert s'.sweeps[req := Sweep(org, rows[k + 1..])] == s.sweeps[req := Sweep(org, rows[k + 1..])];
  }

  lemma {:induction false} SweepUpdates(s: Db, req: RequestId, org: OrgId, rows: seq<Expired>, k: nat)
    requires k <= |rows|
    ensures Run(Swept(s, req, org, rows, k), Repeat(SweepApply(req), |rows| - k)) == Swept(s, req, org, rows, |rows|)
    decreases |rows| - k
  {
    if k == |rows| {
    } else {
      SweepUpdate(s, req, org, rows, k);
      SweepUpdates(s, req, org, rows, k + 1);
      RunStep(Swept(s, req, org, rows, k), SweepApply(req), Repeat(SweepApply(req), |rows| - k - 1));
    }
  }

  lemma SweepEnds(s: Db, s': Db, req: RequestId, org: OrgId, rows: seq<Expired>)
    requires SweepRows(s, org, rows) && req !in s.sweeps
    requires s' == s.(targets := ApplyRows(s.targets, rows, s.now), sweeps := s.sweeps[req := Sweep(org, [])])
    ensures After(s', SweepFinish(req)) == After(s, Reconcile(org))
  {
    ApplyRowsIsReconcile(s, org, rows);
    assert s'.sweeps - {req} == s.sweeps;
  }

  /** A sweep that nothing interrupts does what the transactional reconcile does. */
  lemma UninterruptedSweepReconciles(s: Db, req: RequestId, org: OrgId, rows: seq<Expired>)
    requires SweepRows(s, org, rows) && req !in s.sweeps
    ensures Run(s, [SweepRead(req, org, rows)] + (Repeat(SweepApply(req), |rows|) + [SweepFinish(req)]))
         == After(s, Reconcile(org))
  {
    var s1 := s.(sweeps := s.sweeps[req := Sweep(org, rows)]);
    var updates := Repeat(SweepApply(req), |rows|);
    RunStep(s, SweepRead(req, org, rows), updates + [SweepFinish(req)]);
    assert rows[..0] == [] && rows[0..] == rows;
    SweepUpdates(s, req, org, rows, 0);
    assert Swept(s, req, org, rows, 0) == s1 && rows[..|rows|] == rows && rows[|rows|..] == [];
    RunAppend(s1, updates, [SweepFinish(req)]);
    RunStep(Run(s1, updates), SweepFinish(req), []);
    assert [SweepFinish(req)] == [SweepFinish(req)] + [];
    SweepEnds(s, Run(s1, updates), req, org, rows);
  }

  // ---- Lease exclusion, exactly ----

  /** The row the sweep updates next. */
  predicate SweepsNext(s: Db, req: RequestId, t: TargetId) {
    req in s.sweeps && |s.sweeps[req].expired| > 0 && s.sweeps[req].expired[0].target == t
  }

  /** The row carries the lease: it is running until x at least, or its execution was cancelled meanwhile. */
  ghost predicate Carries(s: Db, t: TargetId, r: RunnerId, l: LeaseId, x: int) {
    && t in s.targets
    && s.targets[t].runner == Some(r) && s.targets[t].lease == Some(l)
    && (s.targets[t].status == Running || s.targets[t].status == Cancelled)
    && (s.targets[t].status == Running ==> s.targets[t].expires.Some? && s.targets[t].expires.value >= x)
  }

  /** A sweep outside a transaction is about to update this row, and the row is running, its lease expired or not. */
  predicate Takes(s: Db, step: Step, t: TargetId) {
    step.SweepApply? && SweepsNext(s, step.req, t) && t in s.targets && s.targets[t].status == Running
  }

  ghost predicate Taken(s: Db, steps: seq<Step>, t: TargetId)
    decreases |steps|
  {
    |steps| > 0 && (Takes(s, steps[0], t) || Taken(After(s, steps[0]), steps[1..], t))
  }

  lemma SweepCarries(s: Db, req: RequestId, t: TargetId, r: RunnerId, l: LeaseId, x: int)
    requires Base(s) && Carries(s, t, r, l, x)
    ensures if Takes(s, SweepApply(req), t) then Superseded(After(s, SweepApply(req)), t, l)
            else Carries(After(s, SweepApply(req)), t, r, l, x)
  {
    assert RowOk(s, s.targets[t]);
  }

  /** What any other step may do to a row that carries an unexpired lease. */
  lemma EffectCarries(s: Db, step: Step, t: TargetId, row': Target, r: RunnerId, l: LeaseId, x: int)
    requires Base(s) && Carries(s, t, r, l, x) && s.now < x && !step.SweepApply?
    requires Effect(s, step, t, s.targets[t], row') && !Accepted(s, step, t, l)
    ensures row'.runner == Some(r) && row'.lease == Some(l) && row'.attempt == s.targets[t].attempt
    ensures row'.status == Running || row'.status == Cancelled
    ensures row'.status == Running ==> row'.expires.Some? && row'.expires.value >= x
  {
    assert RowOk(s, s.targets[t]);
  }

  lemma CarriesStep(s: Db, step: Step, t: TargetId, r: RunnerId, l: LeaseId, x: int)
    requires Base(s) && Carries(s, t, r, l, x)
    requires After(s, step).now < x && !Accepted(s, step, t, l)
    ensures !Granted(s, step, t)
    ensures if Takes(s, step, t) then Superseded(After(s, step), t, l) else Carries(After(s, step), t, r, l, x)
  {
    if step.SweepApply? {
      SweepCarries(s, step.req, t, r, l, x);
    } else {
      RowEffect(s, step, t);
      ClockStep(s, step);
      EffectCarries(s, step, t, After(s, step).targets[t], r, l, x);
      if Granted(s, step, t) {
        GrantUsesAnAttempt(s, step, t);
      }
    }
  }

  lemma {:induction false} SupersededRun(s: Db, steps: seq<Step>, t: TargetId, l: LeaseId)
    requires Superseded(s, t, l)
    ensures Superseded(Run(s, steps), t, l)
    decreases |steps|
  {
    if |steps| == 0 {
    } else {
      SupersededStep(s, steps[0], t, l);
      SupersededRun(After(s, steps[0]), steps[1..], t, l);
    }
  }

  /**
    Over all steps, split sweeps and split cancels included: an unexpired lease
    without an accepted result stays in its row exactly when no sweep's update
    reaches that row while it runs, and until then nobody else gets the target.
   */
  lemma {:induction false} ExclusionExactly(s: Db, steps: seq<Step>, t: TargetId, r: RunnerId, l: LeaseId, x: int)
    requires Base(s) && Carries(s, t, r, l, x)
    requires Run(s, steps).now < x && NoneAccepted(s, steps, t, l)
    ensures Carries(Run(s, steps), t, r, l, x) <==> !Taken(s, steps, t)
    ensures !Taken(s, steps, t) ==> NoneGranted(s, steps, t)
    decreases |steps|
  {
    if |steps| == 0 {
    } else {
      ClockMonotone(After(s, steps[0]), steps[1..]);
      CarriesStep(s, steps[0], t, r, l, x);
      BaseStep(s, steps[0]);
      if Takes(s, steps[0], t) {
        SupersededRun(After(s, steps[0]), steps[1..], t, l);
      } else {
        ExclusionExactly(After(s, steps[0]), steps[1..], t, r, l, x);
      }
    }
  }

  /** From the empty database: any run, then a job reply, then any run that stays within the lease. */
  lemma ExclusionExactlyFromStart(before: seq<Step>, claim: Step, during: seq<Step>)
    requires ReplyTo(Run(INIT, before), claim).Job?
    requires var s := After(Run(INIT, before), claim);
             var job := ReplyTo(Run(INIT, before), claim);
             Run(s, during).now < job.expires && NoneAccepted(s, during, job.target, job.lease)
    ensures var s := After(Run(INIT, before), claim);
            var job := ReplyTo(Run(INIT, before), claim);
            && (Carries(Run(s, during), job.target, job.runner, job.lease, job.expires) <==>
                !Taken(s, during, job.target))
            && (!Taken(s, during, job.target) ==> NoneGranted(s, during, job.target))
  {
    var s, job := Run(INIT, before), ReplyTo(Run(INIT, before), claim);
    BaseRun(INIT, before);
    GrantHolds(s, claim);
    BaseStep(s, claim);
    ExclusionExactly(After(s, claim), during, job.target, job.runner, job.lease, job.expires);
  }

  // ---- Waiting rows keep an attempt, exactly ----

  /** Over all steps: every waiting row keeps an attempt exactly when no sweep's update strands one. */
  lemma {:induction false} ReadyExactly(s: Db, steps: seq<Step>)
    requires Base(s) && Ready(s)
    ensures AlwaysReady(s, steps) <==> NoneStrands(s, steps)
    decreases |steps|
  {
    if |steps| == 0 {
    } else {
      ReadyStep(s, steps[0]);
      BaseStep(s, steps[0]);
      if Ready(After(s, steps[0])) {
        ReadyExactly(After(s, steps[0]), steps[1..]);
      }
    }
  }

  /** Waiting, with no attempt left, in a running execution: neither a claim nor a reconcile applies. */
  ghost predicate Stranded(s: Db, t: TargetId) {
    && t in s.targets && s.targets[t].status == Pending && s.targets[t].attempt >= s.targets[t].maxAttempts
    && s.targets[t].exec in s.execs && s.execs[s.targets[t].exec].status == ExecRunning
    && s.targets[t].exec !in s.cancelling
  }

  lemma StrandedStep(s: Db, step: Step, t: TargetId)
    requires Stranded(s, t)
    ensures Stranded(After(s, step), t) && After(s, step).targets[t] == s.targets[t]
  {
    match step
    case Submit(org, r) => StrandedSubmit(s, org, r, t);
    case Reconcile(org) => StrandedReconcile(s, org, t);
    case SweepFinish(req) => StrandedFinish(s, req, t);
    case ClaimCommit(req) => StrandedClaim(s, req, t);
    case Cancel(exec, org, user, manager) => StrandedCancel(s, exec, org, user, manager, t);
    case CancelExec(exec, org, user, manager) => StrandedCancelExec(s, exec, org, user, manager, t);
    case SweepApply(req) => StrandedSweep(s, req, t);
    case _ =>
  }

  lemma StrandedFinish(s: Db, req: RequestId, t: TargetId)
    requires Stranded(s, t)
    ensures Stranded(After(s, SweepFinish(req)), t) && After(s, SweepFinish(req)).targets[t] == s.targets[t]
  {
    assert HasOpen(s.targets, s.targets[t].exec);
  }

  lemma StrandedCancelExec(s: Db, exec: ExecId, org: OrgId, user: UserId, manager: bool, t: TargetId)
    requires Stranded(s, t)
    ensures var s' := After(s, CancelExec(exec, org, user, manager)); Stranded(s', t) && s'.targets[t] == s.targets[t]
  {
  }

  lemma StrandedCancel(s: Db, exec: ExecId, org: OrgId, user: UserId, manager: bool, t: TargetId)
    requires Stranded(s, t)
    ensures var s' := After(s, Cancel(exec, org, user, manager)); Stranded(s', t) && s'.targets[t] == s.targets[t]
  {
  }

  lemma StrandedSweep(s: Db, req: RequestId, t: TargetId)
    requires Stranded(s, t)
    ensures Stranded(After(s, SweepApply(req)), t) && After(s, SweepApply(req)).targets[t] == s.targets[t]
  {
  }

  lemma StrandedClaim(s: Db, req: RequestId, t: TargetId)
    requires Stranded(s, t)
    ensures Stranded(After(s, ClaimCommit(req)), t) && After(s, ClaimCommit(req)).targets[t] == s.targets[t]
  {
  }

  lemma StrandedSubmit(s: Db, org: OrgId, r: Result, t: TargetId)
    requires Stranded(s, t)
    ensures Stranded(After(s, Submit(org, r)), t) && After(s, Submit(org, r)).targets[t] == s.targets[t]
  {
    if r.target in s.targets && r.target != t {
      assert s.targets[r.target := Finished(s.targets[r.target], r, s.now)][t].Open();
      assert HasOpen(s.targets[r.target := Finished(s.targets[r.target], r, s.now)], s.targets[t].exec);
    }
  }

  lemma StrandedReconcile(s: Db, org: OrgId, t: TargetId)
    requires Stranded(s, t)
    ensures Stranded(After(s, Reconcile(org)), t) && After(s, Reconcile(org)).targets[t] == s.targets[t]
  {
    assert ReconciledTargets(s, org)[t].Open();
    assert HasOpen(ReconciledTargets(s, org), s.targets[t].exec);
  }

  /** A stranded target stays stranded, and keeps its execution running, whatever else happens. */
  lemma {:induction false} StrandedForever(s: Db, steps: seq<Step>, t: TargetId)
    requires Stranded(s, t)
    ensures Stranded(Run(s, steps), t) && Run(s, steps).targets[t] == s.targets[t]
    decreases |steps|
  {
    if |steps| == 0 {
    } else {
      StrandedStep(s, steps[0], t);
      StrandedForever(After(s, steps[0]), steps[1..], t);
    }
  }

  // ---- Running targets have active executions, exactly ----

  ghost predicate RunningIsActive(s: Db) {
    forall t | t in s.targets && s.targets[t].status == Running ::
      s.targets[t].exec in s.execs && s.execs[s.targets[t].exec].Active()
  }

  /** Nothing of a queued execution has started, and an execution being cancelled is not queued any more. */
  ghost predicate QueuedIsFresh(s: Db) {
    && (forall e | e in s.cancelling :: e in s.execs && s.execs[e].status == ExecCancelled)
    && (forall e | e in s.execs :: s.execs[e].status != ExecCreated)
    && (forall t | t in s.targets && s.targets[t].exec in s.execs && s.execs[s.targets[t].exec].status == ExecQueued ::
          s.targets[t].status == Pending)
  }

  /** A claim goes through its guard, and its target's execution is no longer active. */
  predicate Stray(s: Db, step: Step) {
    && Granting(s, step)
    && var e := s.targets[s.tickets[step.req].target].exec;
    !(e in s.execs && s.execs[e].Active())
  }

  predicate Granting(s: Db, step: Step) {
    && step.ClaimCommit? && step.req in s.tickets && s.tickets[step.req].target in s.targets
    && ClaimGuard(s.targets[s.tickets[step.req].target], s.tickets[step.req].source, s.now)
  }

  ghost predicate NoneStray(s: Db, steps: seq<Step>)
    decreases |steps|
  {
    |steps| == 0 || (!Stray(s, steps[0]) && NoneStray(After(s, steps[0]), steps[1..]))
  }

  ghost predicate AlwaysActive(s: Db, steps: seq<Step>)
    decreases |steps|
  {
    RunningIsActive(s) && (|steps| == 0 || AlwaysActive(After(s, steps[0]), steps[1..]))
  }

  lemma ClaimRunning(s: Db, req: RequestId)
    requires RunningIsActive(s) && QueuedIsFresh(s)
    ensures RunningIsActive(After(s, ClaimCommit(req))) <==> !Stray(s, ClaimCommit(req))
    ensures QueuedIsFresh(After(s, ClaimCommit(req)))
  {
    if Granting(s, ClaimCommit(req)) {
      var s', t := After(s, ClaimCommit(req)), s.tickets[req].target;
      CommitGrants(s, req);
      assert s'.targets[t].status == Running && s'.targets[t].exec == s.targets[t].exec;
    }
  }

  lemma SubmitRunning(s: Db, org: OrgId, r: Result)
    requires RunningIsActive(s) && QueuedIsFresh(s)
    ensures var s' := SubmitStep(s, org, r).0; RunningIsActive(s') && QueuedIsFresh(s')
  {
    SubmitOutcome(s, org, r);
    var s' := SubmitStep(s, org, r).0;
    if s' != s {
      SubmittedRunning(s, s', r);
    }
  }

  lemma SubmittedRunning(s: Db, s': Db, r: Result)
    requires RunningIsActive(s) && QueuedIsFresh(s) && s'.cancelling == s.cancelling
    requires r.target in s.targets && HeldBy(s.targets[r.target], r.exec, r.runner, r.lease) && r.exec in s.execs
    requires s'.targets == s.targets[r.target := Finished(s.targets[r.target], r, s.now)]
    requires || s'.execs == s.execs
             || (s.execs[r.exec].status == ExecRunning && !HasOpen(s'.targets, r.exec)
                 && (|| s'.execs == s.execs[r.exec := s.execs[r.exec].(status := ExecFailed)]
                     || s'.execs == s.execs[r.exec := s.execs[r.exec].(status := ExecSucceeded)]))
    ensures RunningIsActive(s') && QueuedIsFresh(s')
  {
    assert forall t | t in s'.targets && s'.targets[t].Open() :: HasOpen(s'.targets, s'.targets[t].exec);
  }

  lemma ReconcileRunning(s: Db, org: OrgId)
    requires RunningIsActive(s) && QueuedIsFresh(s)
    ensures RunningIsActive(After(s, Reconcile(org))) && QueuedIsFresh(After(s, Reconcile(org)))
  {
    var targets := ReconciledTargets(s, org);
    forall t | t in s.targets
      ensures targets[t].exec == s.targets[t].exec
      ensures targets[t] == s.targets[t]
                || (s.targets[t].status == Running && s.execs[targets[t].exec].status == ExecRunning)
    {
    }
    FinaliseRunning(s.(targets := targets), org);
  }

  /** The finalising update fails executions without an open target. */
  lemma FinaliseRunning(s: Db, org: OrgId)
    requires RunningIsActive(s) && QueuedIsFresh(s)
    ensures var s' := s.(execs := FinalisedExecs(s.execs, s.targets, org)); RunningIsActive(s') && QueuedIsFresh(s')
  {
    forall t | t in s.targets && s.targets[t].Open() ensures HasOpen(s.targets, s.targets[t].exec) {
    }
  }

  lemma CancelRunning(s: Db, exec: ExecId, org: OrgId, user: UserId, manager: bool)
    requires RunningIsActive(s) && QueuedIsFresh(s)
    ensures var s' := CancelStep(s, exec, org, user, manager).0; RunningIsActive(s') && QueuedIsFresh(s')
  {
  }

  lemma CancelExecRunning(s: Db, exec: ExecId, org: OrgId, user: UserId, manager: bool)
    requires RunningIsActive(s) && QueuedIsFresh(s)
    ensures var s' := CancelExecStep(s, exec, org, user, manager).0; RunningIsActive(s') && QueuedIsFresh(s')
  {
  }

  lemma CancelTargetsRunning(s: Db, exec: ExecId)
    requires Base(s) && RunningIsActive(s) && QueuedIsFresh(s)
    ensures var s' := CancelTargetsStep(s, exec).0; RunningIsActive(s') && QueuedIsFresh(s')
  {
  }

  lemma RenewRunning(s: Db, exec: ExecId, t: TargetId, runner: RunnerId, lease: LeaseId)
    requires RunningIsActive(s) && QueuedIsFresh(s)
    ensures var s' := RenewStep(s, exec, t, runner, lease).0; RunningIsActive(s') && QueuedIsFresh(s')
  {
  }

  lemma SweepRunning(s: Db, req: RequestId)
    requires RunningIsActive(s) && QueuedIsFresh(s)
    ensures var s' := SweepApplyStep(s, req).0; RunningIsActive(s') && QueuedIsFresh(s')
  {
  }

  lemma CreateRunning(s: Db, exec: ExecId, org: OrgId, user: UserId, ids: seq<TargetId>, servers: seq<ServerId>)
    requires RunningIsActive(s) && QueuedIsFresh(s) && Base(s)
    ensures var s' := CreateStep(s, exec, org, user, ids, servers).0; RunningIsActive(s') && QueuedIsFresh(s')
  {
    if |servers| != 0 && Insertable(s, exec, ids, servers) {
      var rows := NewTargets(exec, org, ids, servers);
      var s' := CreateStep(s, exec, org, user, ids, servers).0;
      assert forall t | t in s'.targets ::
          if t in rows then s'.targets[t].status == Pending && s'.targets[t].exec == exec
                                           else t in s.targets && s'.targets[t] == s.targets[t];
      assert forall t | t in s.targets :: RowOk(s, s.targets[t]);
    }
  }

  lemma FinishRunning(s: Db, req: RequestId)
    requires RunningIsActive(s) && QueuedIsFresh(s)
    ensures var s' := SweepFinishStep(s, req).0; RunningIsActive(s') && QueuedIsFresh(s')
  {
    if req in s.sweeps && |s.sweeps[req].expired| == 0 {
      FinaliseRunning(s, s.sweeps[req].org);
    }
  }

  lemma IdleRunning(s: Db, s': Db)
    requires RunningIsActive(s) && QueuedIsFresh(s)
    requires s'.targets == s.targets && s'.execs == s.execs && s'.cancelling == s.cancelling
    ensures RunningIsActive(s') && QueuedIsFresh(s')
  {
  }

  lemma RunningStep(s: Db, step: Step)
    requires Base(s) && RunningIsActive(s) && QueuedIsFresh(s)
    ensures RunningIsActive(After(s, step)) <==> !Stray(s, step)
    ensures QueuedIsFresh(After(s, step))
  {
    match step
    case Create(exec, org, user, ids, servers) => CreateRunning(s, exec, org, user, ids, servers);
    case ClaimCommit(req) => ClaimRunning(s, req);
    case Submit(org, r) => SubmitRunning(s, org, r);
    case Reconcile(org) => ReconcileRunning(s, org);
    case Cancel(exec, org, user, manager) => CancelRunning(s, exec, org, user, manager);
    case CancelExec(exec, org, user, manager) => CancelExecRunning(s, exec, org, user, manager);
    case CancelTargets(exec) => CancelTargetsRunning(s, exec);
    case Renew(exec, t, runner, lease) => RenewRunning(s, exec, t, runner, lease);
    case SweepApply(req) => SweepRunning(s, req);
    case SweepFinish(req) => FinishRunning(s, req);
    case _ =>
      IdleStep(s, step);
      IdleRunning(s, After(s, step));
  }

  /**
    Over all steps, from the empty database: every state has only running targets
    of active executions exactly when no claim is granted after its execution ended.
   */
  lemma RunningExactlyFromStart(steps: seq<Step>)
    ensures AlwaysActive(INIT, steps) <==> NoneStray(INIT, steps)
  {
    RunningExactly(INIT, steps);
  }

  lemma {:induction false} RunningExactly(s: Db, steps: seq<Step>)
    requires Base(s) && RunningIsActive(s) && QueuedIsFresh(s)
    ensures AlwaysActive(s, steps) <==> NoneStray(s, steps)
    decreases |steps|
  {
    if |steps| == 0 {
    } else {
      RunningStep(s, steps[0]);
      BaseStep(s, steps[0]);
      if RunningIsActive(After(s, steps[0])) {
        RunningExactly(After(s, steps[0]), steps[1..]);
      }
    }
  }
}
