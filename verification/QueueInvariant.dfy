/** What every step of the queue keeps. */
module QueueInvariant {
  import opened Common
  import opened Queue

  /** Holds of every row after every step, the split sweep and the split cancel included. */
  ghost predicate RowOk(s: Db, row: Target) {
    && row.exec in s.execs && s.execs[row.exec].org == row.org
    && RowShape(row, s.now, s.nextLease)
  }

  predicate RowShape(row: Target, now: int, nextLease: LeaseId) {
    && row.status != Failed
    && row.attempt <= row.maxAttempts
    && (row.status == Running ==>
          row.runner.Some? && row.lease.Some? && row.expires.Some? && row.expires.value <= now + LEASE_SECONDS)
    && (row.lease.Some? ==> row.lease.value < nextLease)
    && (row.nextAttempt.Some? ==> row.nextAttempt.value <= now + BACKOFF_CAP)
  }

  ghost predicate Base(s: Db) {
    && (forall t | t in s.targets :: RowOk(s, s.targets[t]))
    && (forall k | k in s.receipts :: k.1 < s.nextLease)
  }

  /** An execution's status against the statuses of its targets. */
  ghost predicate Agrees(targets: map<TargetId, Target>, e: ExecId, status: ExecStatus) {
    match status
    case ExecCreated => false
    case ExecQueued =>
      && HasOpen(targets, e)
      && (forall t | t in targets && targets[t].exec == e :: targets[t].status == Pending && targets[t].attempt == 0)
    case ExecRunning =>
      && HasOpen(targets, e)
      && (forall t | t in targets && targets[t].exec == e :: targets[t].status != Cancelled)
    case ExecSucceeded => forall t | t in targets && targets[t].exec == e :: targets[t].status == Succeeded
    case ExecFailed =>
      && HasFailed(targets, e) && !HasOpen(targets, e)
      && (forall t | t in targets && targets[t].exec == e :: targets[t].status != Cancelled)
    case ExecCancelled => forall t | t in targets && targets[t].exec == e :: targets[t].status == Cancelled
  }

  /** Between the two updates of a cancel the execution is cancelled and its targets are not yet. */
  ghost predicate AgreesAt(s: Db, e: ExecId)
    requires e in s.execs
  {
    if e in s.cancelling then s.execs[e].status == ExecCancelled else Agrees(s.targets, e, s.execs[e].status)
  }

  ghost predicate Agreement(s: Db) {
    && s.cancelling <= s.execs.Keys
    && forall e | e in s.execs :: AgreesAt(s, e)
  }

  /** The same, except that a running execution whose targets have all closed may not have been failed yet. */
  ghost predicate Coheres(targets: map<TargetId, Target>, e: ExecId, status: ExecStatus) {
    if status == ExecRunning then
      && (HasOpen(targets, e) || HasFailed(targets, e))
      && (forall t | t in targets && targets[t].exec == e :: targets[t].status != Cancelled)
    else Agrees(targets, e, status)
  }

  ghost predicate CoheresAt(s: Db, e: ExecId)
    requires e in s.execs
  {
    if e in s.cancelling then s.execs[e].status == ExecCancelled else Coheres(s.targets, e, s.execs[e].status)
  }

  ghost predicate Coherence(s: Db) {
    && s.cancelling <= s.execs.Keys
    && forall e | e in s.execs :: CoheresAt(s, e)
  }

  /** Every running execution has an open target. */
  ghost predicate Busy(s: Db) {
    forall e | e in s.execs && s.execs[e].status == ExecRunning :: HasOpen(s.targets, e)
  }

  lemma AgreementIs(s: Db)
    ensures Agreement(s) <==> Coherence(s) && Busy(s)
  {
    if Agreement(s) {
      forall e | e in s.execs ensures CoheresAt(s, e) && (s.execs[e].status == ExecRunning ==> HasOpen(s.targets, e)) {
        assert AgreesAt(s, e);
      }
    }
    if Coherence(s) && Busy(s) {
      forall e | e in s.execs ensures AgreesAt(s, e) {
        assert CoheresAt(s, e);
      }
    }
  }

  /** A waiting row still has an attempt to use. */
  ghost predicate Ready(s: Db) {
    forall t | t in s.targets :: s.targets[t].status == Pending ==> s.targets[t].attempt < s.targets[t].maxAttempts
  }

  /** What transactions keep, and what splits keep as well unless a sweep's write breaks it. */
  ghost predicate Inv(s: Db) { Base(s) && Ready(s) && Agreement(s) }

  /** What is left when a sweep's write has closed a running execution's last open target. */
  ghost predicate Sound(s: Db) { Base(s) && Ready(s) && Coherence(s) }

  // ---- Steps that touch no target ----

  lemma BackoffBound(attempt: int)
    ensures 1 <= Backoff(attempt) <= BACKOFF_CAP
  {
    if attempt > 1 {
      Pow2Mono(0, attempt - 1);
    }
  }

  lemma CreateKeepsBase(s: Db, exec: ExecId, org: OrgId, user: UserId, ids: seq<TargetId>, servers: seq<ServerId>)
    requires Base(s)
    ensures Base(CreateStep(s, exec, org, user, ids, servers).0)
  {
  }

  /** Base speaks of each row, the executions' organisations and the clock. */
  lemma BaseFrame(s: Db, s': Db)
    requires Base(s) && s.now <= s'.now && s.nextLease <= s'.nextLease
    requires forall e | e in s.execs :: e in s'.execs && s'.execs[e].org == s.execs[e].org
    requires forall t | t in s'.targets :: (t in s.targets && s'.targets[t] == s.targets[t]) || RowOk(s', s'.targets[t])
    requires forall k | k in s'.receipts :: k.1 < s'.nextLease
    ensures Base(s')
  {
  }

  lemma ReclaimedOk(s: Db, row: Target, attempt: nat, max: nat)
    requires RowOk(s, row)
    ensures RowOk(s, Reclaimed(row, attempt, max, s.now))
  {
    BackoffBound(attempt);
  }

  lemma SweepApplyKeepsBase(s: Db, req: RequestId)
    requires Base(s)
    ensures Base(SweepApplyStep(s, req).0)
  {
    if req in s.sweeps && |s.sweeps[req].expired| > 0 && s.sweeps[req].expired[0].target in s.targets {
      var x := s.sweeps[req].expired[0];
      ReclaimedOk(s, s.targets[x.target], x.attempt, x.max);
      BaseFrame(s, SweepApplyStep(s, req).0);
    }
  }

  lemma ReconcileKeepsBase(s: Db, org: OrgId)
    requires Base(s)
    ensures Base(ReconcileStep(s, org).0)
  {
    var targets := ReconciledTargets(s, org);
    forall t | t in s.targets
      ensures RowOk(s, targets[t])
    {
      ReclaimedOk(s, s.targets[t], s.targets[t].attempt, s.targets[t].maxAttempts);
    }
    BaseFrame(s, ReconcileStep(s, org).0);
  }

  lemma FinishedOk(s: Db, row: Target, r: Result)
    requires RowOk(s, row) && row.status == Running
    ensures RowOk(s, Finished(row, r, s.now))
    ensures Finished(row, r, s.now).status == Pending ==> row.attempt < row.maxAttempts
  {
    BackoffBound(row.attempt);
  }

  /** The result transaction changes nothing, or finishes its row and perhaps its running execution. */
  lemma SubmitOutcome(s: Db, org: OrgId, r: Result)
    ensures var s' := SubmitStep(s, org, r).0;
            || s' == s
            || (&& SubmitAllowed(s, org, r)
                && s'.targets == s.targets[r.target := Finished(s.targets[r.target], r, s.now)]
                && s'.receipts.Keys == s.receipts.Keys + {(r.target, r.lease)}
                && s'.cancelling == s.cancelling && s'.nextLease == s.nextLease && s'.now == s.now
                && (|| s'.execs == s.execs
                    || (s.execs[r.exec].status == ExecRunning && !HasOpen(s'.targets, r.exec)
                        && (|| s'.execs == s.execs[r.exec := s.execs[r.exec].(status := ExecFailed)]
                            || s'.execs == s.execs[r.exec := s.execs[r.exec].(status := ExecSucceeded)]))))
  {
  }

  lemma SubmitKeepsBase(s: Db, org: OrgId, r: Result)
    requires Base(s)
    ensures Base(SubmitStep(s, org, r).0)
  {
    var s' := SubmitStep(s, org, r).0;
    SubmitOutcome(s, org, r);
    if s' != s {
      FinishedOk(s, s.targets[r.target], r);
      SubmittedBase(s, s', r);
    }
  }

  lemma SubmittedBase(s: Db, s': Db, r: Result)
    requires Base(s) && r.target in s.targets && s.targets[r.target].lease == Some(r.lease)
    requires RowOk(s, Finished(s.targets[r.target], r, s.now))
    requires s'.targets == s.targets[r.target := Finished(s.targets[r.target], r, s.now)]
    requires s'.receipts.Keys == s.receipts.Keys + {(r.target, r.lease)} && s'.nextLease == s.nextLease
              && s'.now == s.now
    requires forall e | e in s.execs :: e in s'.execs && s'.execs[e].org == s.execs[e].org
    ensures Base(s')
  {
    assert RowOk(s, s.targets[r.target]);
    BaseFrame(s, s');
  }

  lemma CancelTargetsKeepsBase(s: Db, exec: ExecId)
    requires Base(s)
    ensures Base(CancelTargetsStep(s, exec).0)
  {
  }

  lemma CancelKeepsBase(s: Db, exec: ExecId, org: OrgId, user: UserId, manager: bool)
    requires Base(s)
    ensures Base(CancelStep(s, exec, org, user, manager).0)
  {
  }

  lemma CancelExecKeepsBase(s: Db, exec: ExecId, org: OrgId, user: UserId, manager: bool)
    requires Base(s)
    ensures Base(CancelExecStep(s, exec, org, user, manager).0)
  {
  }

  lemma ClaimKeepsBase(s: Db, req: RequestId)
    requires Base(s)
    ensures Base(ClaimCommitStep(s, req).0)
  {
  }

  lemma RenewKeepsBase(s: Db, exec: ExecId, t: TargetId, runner: RunnerId, lease: LeaseId)
    requires Base(s)
    ensures Base(RenewStep(s, exec, t, runner, lease).0)
  {
  }

  lemma BaseStep(s: Db, step: Step)
    requires Base(s)
    ensures Base(After(s, step))
  {
    match step
    case Tick(d) =>
    case SetRunner(id, row) =>
    case Create(exec, org, user, ids, servers) => CreateKeepsBase(s, exec, org, user, ids, servers);
    case ClaimRead(req, runner, filter, answer) =>
    case ClaimCommit(req) => ClaimKeepsBase(s, req);
    case Renew(exec, target, runner, lease) => RenewKeepsBase(s, exec, target, runner, lease);
    case Submit(org, r) => SubmitKeepsBase(s, org, r);
    case Reconcile(org) => ReconcileKeepsBase(s, org);
    case Cancel(exec, org, user, manager) => CancelKeepsBase(s, exec, org, user, manager);
    case CancelExec(exec, org, user, manager) => CancelExecKeepsBase(s, exec, org, user, manager);
    case CancelTargets(exec) => CancelTargetsKeepsBase(s, exec);
    case SweepRead(req, org, rows) =>
    case SweepApply(req) => SweepApplyKeepsBase(s, req);
    case SweepFinish(req) =>
  }

  lemma {:induction false} BaseRun(s: Db, steps: seq<Step>)
    requires Base(s)
    ensures Base(Run(s, steps))
    decreases |steps|
  {
    if |steps| == 0 {
    } else {
      BaseStep(s, steps[0]);
      BaseRun(After(s, steps[0]), steps[1..]);
    }
  }

  // ---- Waiting rows ----

  lemma SubmitKeepsReady(s: Db, org: OrgId, r: Result)
    requires Base(s) && Ready(s)
    ensures Ready(SubmitStep(s, org, r).0)
  {
    if (r.target, r.lease) !in s.receipts && SubmitAllowed(s, org, r) {
      FinishedOk(s, s.targets[r.target], r);
    }
  }

  lemma ReconciledRow(s: Db, org: OrgId, t: TargetId)
    requires Base(s) && t in s.targets
    ensures var row := ReconciledTargets(s, org)[t];
            && row.exec == s.targets[t].exec
            && (row == s.targets[t]
                || (s.targets[t].status == Running && s.execs[row.exec].Active() && s.execs[row.exec].org == org
                    && ((row.status == Pending && row.attempt < row.maxAttempts) || row.status == DeadLetter)))
  {
  }

  /** The steps that change no execution and no target. */
  predicate Idle(step: Step) { step.Tick? || step.SetRunner? || step.ClaimRead? || step.SweepRead? }

  lemma IdleStep(s: Db, step: Step)
    requires Idle(step)
    ensures var s' := After(s, step);
            && s'.targets == s.targets && s'.execs == s.execs && s'.cancelling == s.cancelling
            && s'.receipts == s.receipts && s'.nextLease == s.nextLease && s'.now >= s.now
  {
  }

  /** A sweep's update gives a row back to the queue after its last attempt began. */
  predicate Strands(s: Db, step: Step) {
    && step.SweepApply? && step.req in s.sweeps && |s.sweeps[step.req].expired| > 0
    && var x := s.sweeps[step.req].expired[0];
    && x.target in s.targets && s.targets[x.target].status == Running
    && x.attempt < x.max && s.targets[x.target].attempt == s.targets[x.target].maxAttempts
  }

  ghost predicate NoneStrands(s: Db, steps: seq<Step>)
    decreases |steps|
  {
    |steps| == 0 || (!Strands(s, steps[0]) && NoneStrands(After(s, steps[0]), steps[1..]))
  }

  ghost predicate AlwaysReady(s: Db, steps: seq<Step>)
    decreases |steps|
  {
    Ready(s) && (|steps| == 0 || AlwaysReady(After(s, steps[0]), steps[1..]))
  }

  lemma SweepStrands(s: Db, req: RequestId)
    requires Base(s) && Ready(s)
    ensures Ready(After(s, SweepApply(req))) <==> !Strands(s, SweepApply(req))
  {
    if req in s.sweeps && |s.sweeps[req].expired| > 0 && s.sweeps[req].expired[0].target in s.targets {
      var x := s.sweeps[req].expired[0];
      var t, s' := x.target, After(s, SweepApply(req));
      assert s'.targets == s.targets[t := Reclaimed(s.targets[t], x.attempt, x.max, s.now)];
      assert RowOk(s, s.targets[t]);
      assert s'.targets[t].status == Pending && s.targets[t].status == Running ==> x.attempt < x.max;
    }
  }

  lemma ReconcileKeepsReady(s: Db, org: OrgId)
    requires Base(s) && Ready(s)
    ensures Ready(ReconcileStep(s, org).0)
  {
    forall t | t in s.targets
      ensures var row := ReconciledTargets(s, org)[t]; row.status == Pending ==> row.attempt < row.maxAttempts
    {
      ReconciledRow(s, org, t);
    }
  }

  lemma CreateKeepsReady(s: Db, exec: ExecId, org: OrgId, user: UserId, ids: seq<TargetId>, servers: seq<ServerId>)
    requires Ready(s)
    ensures Ready(CreateStep(s, exec, org, user, ids, servers).0)
  {
  }

  lemma ClaimKeepsReady(s: Db, req: RequestId)
    requires Ready(s)
    ensures Ready(ClaimCommitStep(s, req).0)
  {
  }

  lemma RenewKeepsReady(s: Db, exec: ExecId, t: TargetId, runner: RunnerId, lease: LeaseId)
    requires Ready(s)
    ensures Ready(RenewStep(s, exec, t, runner, lease).0)
  {
  }

  lemma CancelKeepsReady(s: Db, exec: ExecId, org: OrgId, user: UserId, manager: bool)
    requires Ready(s)
    ensures Ready(CancelStep(s, exec, org, user, manager).0)
  {
  }

  lemma CancelExecKeepsReady(s: Db, exec: ExecId, org: OrgId, user: UserId, manager: bool)
    requires Ready(s)
    ensures Ready(CancelExecStep(s, exec, org, user, manager).0)
  {
  }

  lemma CancelTargetsKeepsReady(s: Db, exec: ExecId)
    requires Ready(s)
    ensures Ready(CancelTargetsStep(s, exec).0)
  {
  }

  lemma ReadyStep(s: Db, step: Step)
    requires Base(s) && Ready(s)
    ensures Ready(After(s, step)) <==> !Strands(s, step)
  {
    match step
    case Create(exec, org, user, ids, servers) => CreateKeepsReady(s, exec, org, user, ids, servers);
    case ClaimCommit(req) => ClaimKeepsReady(s, req);
    case Renew(exec, t, runner, lease) => RenewKeepsReady(s, exec, t, runner, lease);
    case Submit(org, r) => SubmitKeepsReady(s, org, r);
    case Reconcile(org) => ReconcileKeepsReady(s, org);
    case Cancel(exec, org, user, manager) => CancelKeepsReady(s, exec, org, user, manager);
    case CancelExec(exec, org, user, manager) => CancelExecKeepsReady(s, exec, org, user, manager);
    case CancelTargets(exec) => CancelTargetsKeepsReady(s, exec);
    case SweepApply(req) => SweepStrands(s, req);
    case SweepFinish(req) =>
    case _ => IdleStep(s, step);
  }
}
