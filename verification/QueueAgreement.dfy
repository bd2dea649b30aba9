/**
  Executions against their targets: what every step keeps, and exactly which
  steps of a sweep outside a transaction break the rest.
 */
module QueueAgreement {
  import opened Common
  import opened Queue
  import opened QueueInvariant

  /** What every step but a sweep's update keeps. */
  ghost predicate Kept(s: Db, s': Db) {
    Base(s') && Coherence(s') && (Ready(s) ==> Ready(s')) && (Busy(s) ==> Busy(s'))
  }

  lemma KeptInv(s: Db, s': Db)
    requires Inv(s) && Kept(s, s')
    ensures Inv(s')
  {
    AgreementIs(s);
    AgreementIs(s');
  }

  lemma InvIsSound(s: Db)
    requires Inv(s)
    ensures Sound(s) && Busy(s)
  {
    AgreementIs(s);
  }

  // ---- Frames ----

  /** Coherence looks only at the execution's own rows. */
  lemma CoheresFrame(targets: map<TargetId, Target>, targets': map<TargetId, Target>, e: ExecId, status: ExecStatus)
    requires Coheres(targets, e, status)
    requires forall t | t in targets && targets[t].exec == e :: t in targets' && targets'[t] == targets[t]
    requires forall t | t in targets' && targets'[t].exec == e :: t in targets && targets'[t] == targets[t]
    ensures Coheres(targets', e, status)
    ensures HasOpen(targets, e) ==> HasOpen(targets', e)
  {
  }

  /** Steps that change one execution and its rows only. */
  ghost predicate Within(s: Db, s': Db, e0: ExecId) {
    && s'.execs.Keys == s.execs.Keys && s'.targets.Keys == s.targets.Keys
    && (forall e | e in s.execs && e != e0 :: s'.execs[e] == s.execs[e])
    && (forall t | t in s.targets ::
          s'.targets[t].exec == s.targets[t].exec && (s.targets[t].exec == e0 || s'.targets[t] == s.targets[t]))
    && s'.cancelling <= s'.execs.Keys && (forall e | e != e0 :: e in s'.cancelling <==> e in s.cancelling)
  }

  lemma CoherenceFrame(s: Db, s': Db, e0: ExecId)
    requires Coherence(s) && Within(s, s', e0) && (e0 in s.execs ==> CoheresAt(s', e0))
    ensures Coherence(s')
  {
    forall e | e in s'.execs ensures CoheresAt(s', e) {
      if e != e0 {
        assert CoheresAt(s, e);
        if e !in s.cancelling {
          CoheresFrame(s.targets, s'.targets, e, s.execs[e].status);
        }
      }
    }
  }

  lemma BusyFrame(s: Db, s': Db, e0: ExecId)
    requires Busy(s) && Within(s, s', e0)
    requires e0 in s.execs && s'.execs[e0].status == ExecRunning ==> HasOpen(s'.targets, e0)
    ensures Busy(s')
  {
    forall e | e in s'.execs && s'.execs[e].status == ExecRunning ensures HasOpen(s'.targets, e) {
      if e != e0 {
        var t :| t in s.targets && s.targets[t].exec == e && s.targets[t].Open();
        assert s'.targets[t].Open();
      }
    }
  }

  /** An open row belongs to an active execution, or to one whose cancel is half done. */
  lemma OpenRowIsActive(s: Db, t: TargetId)
    requires Base(s) && Coherence(s) && t in s.targets && s.targets[t].Open()
    ensures var e := s.targets[t].exec;
            && e in s.execs
            && (s.execs[e].Active() <==> e !in s.cancelling)
            && (e in s.cancelling <==> s.execs[e].status == ExecCancelled)
  {
    assert RowOk(s, s.targets[t]);
    assert CoheresAt(s, s.targets[t].exec);
  }

  /** A leased row's execution is running, or its cancel is half done. */
  lemma RunningRowRuns(s: Db, t: TargetId)
    requires Base(s) && Coherence(s) && t in s.targets && s.targets[t].status == Running
    ensures s.targets[t].exec in s.execs
    ensures s.execs[s.targets[t].exec].status ==
              if s.targets[t].exec in s.cancelling then ExecCancelled else ExecRunning
  {
    assert RowOk(s, s.targets[t]) && s.targets[t].Open();
    assert CoheresAt(s, s.targets[t].exec);
  }

  // ---- Creating ----

  lemma NewRowsAgree(s: Db, exec: ExecId, org: OrgId, ids: seq<TargetId>, servers: seq<ServerId>)
    requires Base(s) && Insertable(s, exec, ids, servers) && |ids| > 0
    ensures Agrees(s.targets + NewTargets(exec, org, ids, servers), exec, ExecQueued)
  {
    var rows := NewTargets(exec, org, ids, servers);
    assert ids[0] in rows && (s.targets + rows)[ids[0]].Open();
  }

  lemma CreateCoheres(s: Db, exec: ExecId, org: OrgId, user: UserId, ids: seq<TargetId>, servers: seq<ServerId>)
    requires Base(s) && Coherence(s) && Insertable(s, exec, ids, servers) && |ids| > 0
    ensures Coherence(CreateStep(s, exec, org, user, ids, servers).0)
    ensures Busy(s) ==> Busy(CreateStep(s, exec, org, user, ids, servers).0)
  {
    var targets := s.targets + NewTargets(exec, org, ids, servers);
    NewRowsAgree(s, exec, org, ids, servers);
    forall e | e in s.execs && e !in s.cancelling
      ensures Coheres(targets, e, s.execs[e].status) && (HasOpen(s.targets, e) ==> HasOpen(targets, e))
    {
      assert CoheresAt(s, e);
      CoheresFrame(s.targets, targets, e, s.execs[e].status);
    }
    var s' := CreateStep(s, exec, org, user, ids, servers).0;
    forall e | e in s'.execs ensures CoheresAt(s', e) {
      assert e != exec ==> CoheresAt(s, e);
    }
    forall e | Busy(s) && e in s'.execs && s'.execs[e].status == ExecRunning ensures HasOpen(targets, e) {
      assert CoheresAt(s, e);
    }
  }

  lemma CreateKeeps(s: Db, exec: ExecId, org: OrgId, user: UserId, ids: seq<TargetId>, servers: seq<ServerId>)
    requires Base(s) && Coherence(s)
    ensures Kept(s, CreateStep(s, exec, org, user, ids, servers).0)
  {
    CreateKeepsBase(s, exec, org, user, ids, servers);
    if Ready(s) {
      CreateKeepsReady(s, exec, org, user, ids, servers);
    }
    if |servers| != 0 && Insertable(s, exec, ids, servers) {
      CreateCoheres(s, exec, org, user, ids, servers);
    }
  }

  // ---- Claiming and renewing ----

  /** An open row of an active execution keeps it coherent, and running if it was started. */
  lemma ActiveCoheres(targets: map<TargetId, Target>, t: TargetId, row: Target, e: ExecId, status: ExecStatus)
    requires Coheres(targets, e, status) && (status == ExecQueued || status == ExecRunning)
    requires row.exec == e && row.Open() && t in targets && targets[t].exec == e
    ensures Coheres(targets[t := row], e, ExecRunning) && HasOpen(targets[t := row], e)
  {
    assert targets[t := row][t].Open();
  }

  /** The claim's two writes, or the renewal's one. */
  lemma LeasedKeeps(s: Db, s': Db, t: TargetId, row: Target)
    requires Base(s) && Coherence(s) && t in s.targets && s.targets[t].Open()
    requires row.exec == s.targets[t].exec && row.Open() && s'.targets == s.targets[t := row]
    requires s'.cancelling == s.cancelling
    requires s'.execs == Started(s.execs, row.exec) || (s'.execs == s.execs && s.targets[t].status == Running)
    ensures Coherence(s') && (Busy(s) ==> Busy(s'))
  {
    var e := row.exec;
    OpenRowIsActive(s, t);
    assert CoheresAt(s, e);
    if s.targets[t].status == Running {
      RunningRowRuns(s, t);
    }
    if e !in s.cancelling {
      ActiveCoheres(s.targets, t, row, e, s.execs[e].status);
    }
    CoherenceFrame(s, s', e);
    if Busy(s) {
      BusyFrame(s, s', e);
    }
  }

  lemma ClaimKeeps(s: Db, req: RequestId)
    requires Base(s) && Coherence(s)
    ensures Kept(s, ClaimCommitStep(s, req).0)
  {
    ClaimKeepsBase(s, req);
    if Ready(s) {
      ClaimKeepsReady(s, req);
    }
    if req in s.tickets && s.tickets[req].target in s.targets
        && ClaimGuard(s.targets[s.tickets[req].target], s.tickets[req].source, s.now) {
      var t := s.tickets[req].target;
      var s' := ClaimCommitStep(s, req).0;
      LeasedKeeps(s, s', t, s'.targets[t]);
    }
  }

  lemma RenewKeeps(s: Db, exec: ExecId, t: TargetId, runner: RunnerId, lease: LeaseId)
    requires Base(s) && Coherence(s)
    ensures Kept(s, RenewStep(s, exec, t, runner, lease).0)
  {
    RenewKeepsBase(s, exec, t, runner, lease);
    if Ready(s) {
      RenewKeepsReady(s, exec, t, runner, lease);
    }
    if t in s.targets && HeldBy(s.targets[t], exec, runner, lease) {
      var s' := RenewStep(s, exec, t, runner, lease).0;
      LeasedKeeps(s, s', t, s'.targets[t]);
    }
  }

  // ---- Results ----

  /** The verdict on a running execution after one of its open rows got a result. */
  lemma FinishCoheres(targets: map<TargetId, Target>, t: TargetId, row: Target, e: ExecId)
    requires Coheres(targets, e, ExecRunning) && t in targets && targets[t].exec == e
    requires forall u | u in targets :: targets[u].status != Failed
    requires row.exec == e && row.status != Failed && row.status != Cancelled
    ensures var targets' := targets[t := row];
            if HasOpen(targets', e) then Coheres(targets', e, ExecRunning)
            else Coheres(targets', e, if HasFailed(targets', e) then ExecFailed else ExecSucceeded)
  {
  }

  lemma SubmitVerdict(s: Db, org: OrgId, r: Result)
    requires (r.target, r.lease) !in s.receipts && SubmitAllowed(s, org, r) && s.execs[r.exec].status == ExecRunning
    ensures var s' := SubmitStep(s, org, r).0;
            && s'.targets == s.targets[r.target := Finished(s.targets[r.target], r, s.now)]
            && s'.cancelling == s.cancelling
            && s'.execs == s.execs[r.exec := s.execs[r.exec].(status :=
                 if HasOpen(s'.targets, r.exec) then ExecRunning
                 else if HasFailed(s'.targets, r.exec) then ExecFailed else ExecSucceeded)]
  {
  }

  /** A result for an execution whose cancel is half done may record its target and leaves every execution alone. */
  lemma SubmitToCancelled(s: Db, org: OrgId, r: Result)
    requires r.exec in s.execs && s.execs[r.exec].status == ExecCancelled
    ensures var s' := SubmitStep(s, org, r).0;
            && s'.execs == s.execs && s'.cancelling == s.cancelling && s'.targets.Keys == s.targets.Keys
            && forall t | t in s.targets ::
                 && s'.targets[t].exec == s.targets[t].exec
                 && (s.targets[t].exec == r.exec || s'.targets[t] == s.targets[t])
  {
  }

  lemma SubmitCoheres(s: Db, org: OrgId, r: Result)
    requires Base(s) && Coherence(s) && (r.target, r.lease) !in s.receipts && SubmitAllowed(s, org, r)
    ensures Coherence(SubmitStep(s, org, r).0)
    ensures Busy(s) ==> Busy(SubmitStep(s, org, r).0)
  {
    var s' := SubmitStep(s, org, r).0;
    RunningRowRuns(s, r.target);
    if r.exec in s.cancelling {
      SubmitToCancelled(s, org, r);
    } else {
      assert CoheresAt(s, r.exec);
      FinishedOk(s, s.targets[r.target], r);
      FinishCoheres(s.targets, r.target, Finished(s.targets[r.target], r, s.now), r.exec);
      SubmitVerdict(s, org, r);
    }
    CoherenceFrame(s, s', r.exec);
    if Busy(s) {
      BusyFrame(s, s', r.exec);
    }
  }

  lemma SubmitKeeps(s: Db, org: OrgId, r: Result)
    requires Base(s) && Coherence(s)
    ensures Kept(s, SubmitStep(s, org, r).0)
  {
    SubmitKeepsBase(s, org, r);
    if Ready(s) {
      SubmitKeepsReady(s, org, r);
    }
    if (r.target, r.lease) !in s.receipts && SubmitAllowed(s, org, r) {
      SubmitCoheres(s, org, r);
    }
  }

  // ---- Finalising and reconciling ----

  /** The finalising update fails just the running executions that nothing keeps running. */
  lemma FinaliseCoheres(s: Db, org: OrgId)
    requires Base(s) && Coherence(s)
    ensures var s' := s.(execs := FinalisedExecs(s.execs, s.targets, org)); Coherence(s') && (Busy(s) ==> Busy(s'))
    ensures var execs := FinalisedExecs(s.execs, s.targets, org);
            forall e | e in execs && execs[e].org == org && execs[e].status == ExecRunning :: HasOpen(s.targets, e)
  {
    var s' := s.(execs := FinalisedExecs(s.execs, s.targets, org));
    forall e | e in s'.execs
      ensures CoheresAt(s', e)
      ensures s'.execs[e].org == org && s'.execs[e].status == ExecRunning ==> HasOpen(s.targets, e)
    {
      assert CoheresAt(s, e);
    }
  }

  /** Reclaimed rows of a running execution are waiting or dead-lettered. */
  lemma ReclaimCoheres(targets: map<TargetId, Target>, targets': map<TargetId, Target>, e: ExecId)
    requires Coheres(targets, e, ExecRunning) && targets'.Keys == targets.Keys
    requires forall t | t in targets :: targets'[t].exec == targets[t].exec
    requires forall t | t in targets && targets[t].exec == e ::
               || targets'[t] == targets[t]
               || (targets[t].status == Running && (targets'[t].status == Pending || targets'[t].status == DeadLetter))
    ensures Coheres(targets', e, ExecRunning)
  {
    var t :| t in targets && targets[t].exec == e
      && (targets[t].Open() || targets[t].status == Failed || targets[t].status == DeadLetter);
    assert targets'[t].exec == e;
  }

  lemma ReconciledCoheres(s: Db, org: OrgId)
    requires Base(s) && Coherence(s)
    ensures Coherence(s.(targets := ReconciledTargets(s, org)))
  {
    var targets := ReconciledTargets(s, org);
    var s' := s.(targets := targets);
    forall t | t in s.targets
      ensures targets[t].exec == s.targets[t].exec
      ensures || targets[t] == s.targets[t]
              || (s.targets[t].status == Running && (targets[t].status == Pending || targets[t].status == DeadLetter))
    {
      ReconciledRow(s, org, t);
    }
    forall e | e in s'.execs ensures CoheresAt(s', e) {
      assert CoheresAt(s, e);
      if e !in s.cancelling {
        if s.execs[e].status == ExecRunning {
          ReclaimCoheres(s.targets, targets, e);
        } else {
          NoneRunning(s, e);
          CoheresFrame(s.targets, targets, e, s.execs[e].status);
        }
      }
    }
  }

  lemma NoneRunning(s: Db, e: ExecId)
    requires Base(s) && Coherence(s) && e in s.execs && e !in s.cancelling && s.execs[e].status != ExecRunning
    ensures forall t | t in s.targets && s.targets[t].exec == e :: s.targets[t].status != Running
  {
    forall t | t in s.targets && s.targets[t].exec == e ensures s.targets[t].status != Running {
      if s.targets[t].status == Running {
        RunningRowRuns(s, t);
      }
    }
  }

  lemma ReconcileBusy(s: Db, org: OrgId)
    requires Base(s) && Coherence(s) && Busy(s)
    ensures Busy(ReconcileStep(s, org).0)
  {
    var targets := ReconciledTargets(s, org);
    var s1 := s.(targets := targets);
    ReconcileKeepsBase(s, org);
    forall e | e in s.execs && s.execs[e].status == ExecRunning && s.execs[e].org != org ensures HasOpen(targets, e) {
      var t :| t in s.targets && s.targets[t].exec == e && s.targets[t].Open();
      ReconciledRow(s, org, t);
      assert targets[t].Open();
    }
    ReconciledCoheres(s, org);
    ReconciledBase(s, org);
    FinaliseCoheres(s1, org);
  }

  lemma ReconciledBase(s: Db, org: OrgId)
    requires Base(s)
    ensures Base(s.(targets := ReconciledTargets(s, org)))
  {
    forall t | t in s.targets ensures RowOk(s, ReconciledTargets(s, org)[t]) {
      ReclaimedOk(s, s.targets[t], s.targets[t].attempt, s.targets[t].maxAttempts);
    }
    BaseFrame(s, s.(targets := ReconciledTargets(s, org)));
  }

  lemma ReconcileKeeps(s: Db, org: OrgId)
    requires Base(s) && Coherence(s)
    ensures Kept(s, ReconcileStep(s, org).0)
  {
    ReconcileKeepsBase(s, org);
    ReconcileCoheres(s, org);
    if Ready(s) {
      ReconcileKeepsReady(s, org);
    }
    if Busy(s) {
      ReconcileBusy(s, org);
    }
  }

  lemma ReconcileCoheres(s: Db, org: OrgId)
    requires Base(s) && Coherence(s)
    ensures Coherence(ReconcileStep(s, org).0)
  {
    ReconciledCoheres(s, org);
    ReconciledBase(s, org);
    FinaliseCoheres(s.(targets := ReconciledTargets(s, org)), org);
  }

  /** After a reconcile every execution of the organisation agrees with its targets, whatever sweeps wrote before. */
  lemma ReconcileSettles(s: Db, org: OrgId, e: ExecId)
    requires Base(s) && Coherence(s) && e in s.execs && s.execs[e].org == org
    ensures e in ReconcileStep(s, org).0.execs && AgreesAt(ReconcileStep(s, org).0, e)
  {
    ReconciledCoheres(s, org);
    ReconciledBase(s, org);
    var s1 := s.(targets := ReconciledTargets(s, org));
    FinaliseCoheres(s1, org);
    assert CoheresAt(ReconcileStep(s, org).0, e);
  }

  lemma FinishKeeps(s: Db, req: RequestId)
    requires Base(s) && Coherence(s)
    ensures Kept(s, SweepFinishStep(s, req).0)
  {
    if req in s.sweeps && |s.sweeps[req].expired| == 0 {
      FinaliseCoheres(s, s.sweeps[req].org);
      FinishKeepsBase(s, req);
    }
  }

  lemma FinishKeepsBase(s: Db, req: RequestId)
    requires Base(s)
    ensures Base(SweepFinishStep(s, req).0)
  {
  }

  // ---- Cancelling ----

  lemma CancelKeeps(s: Db, exec: ExecId, org: OrgId, user: UserId, manager: bool)
    requires Base(s) && Coherence(s)
    ensures Kept(s, CancelStep(s, exec, org, user, manager).0)
  {
    CancelKeepsBase(s, exec, org, user, manager);
    if Ready(s) {
      CancelKeepsReady(s, exec, org, user, manager);
    }
    if CancelRefusal(s, exec, org, user, manager).None? {
      CancelledKeeps(s, CancelStep(s, exec, org, user, manager).0, exec);
    }
  }

  /** A cancelled execution coheres with cancelled targets, and with any while the cancel is half done. */
  lemma CancelledKeeps(s: Db, s': Db, exec: ExecId)
    requires Coherence(s) && Within(s, s', exec)
    requires exec in s.execs && s'.execs[exec].status == ExecCancelled
    requires exec in s'.cancelling
             || forall t | t in s'.targets && s'.targets[t].exec == exec :: s'.targets[t].status == Cancelled
    ensures Coherence(s') && (Busy(s) ==> Busy(s'))
  {
    CoherenceFrame(s, s', exec);
    if Busy(s) {
      BusyFrame(s, s', exec);
    }
  }

  /** The cancel's first update: its targets are open until the second one, which may never come. */
  lemma CancelExecKeeps(s: Db, exec: ExecId, org: OrgId, user: UserId, manager: bool)
    requires Base(s) && Coherence(s)
    ensures Kept(s, CancelExecStep(s, exec, org, user, manager).0)
  {
    CancelExecKeepsBase(s, exec, org, user, manager);
    if Ready(s) {
      CancelExecKeepsReady(s, exec, org, user, manager);
    }
    if CancelRefusal(s, exec, org, user, manager).None? {
      CancelledKeeps(s, CancelExecStep(s, exec, org, user, manager).0, exec);
    }
  }

  /** The cancel's second update. */
  lemma CancelTargetsKeeps(s: Db, exec: ExecId)
    requires Base(s) && Coherence(s)
    ensures Kept(s, CancelTargetsStep(s, exec).0)
  {
    CancelTargetsKeepsBase(s, exec);
    if Ready(s) {
      CancelTargetsKeepsReady(s, exec);
    }
    if exec in s.cancelling {
      assert CoheresAt(s, exec);
      CancelledKeeps(s, CancelTargetsStep(s, exec).0, exec);
    }
  }

  // ---- A sweep's update ----

  /** A sweep's update dead-letters the last open target of a running execution. */
  ghost predicate Closes(s: Db, step: Step) {
    && step.SweepApply? && step.req in s.sweeps && |s.sweeps[step.req].expired| > 0
    && var x := s.sweeps[step.req].expired[0];
    && x.target in s.targets && s.targets[x.target].status == Running && x.attempt >= x.max
    && s.targets[x.target].exec !in s.cancelling
    && forall t | t in s.targets && s.targets[t].exec == s.targets[x.target].exec && t != x.target ::
         !s.targets[t].Open()
  }

  lemma SweepCoheres(s: Db, req: RequestId)
    requires Base(s) && Coherence(s)
    ensures Coherence(SweepApplyStep(s, req).0)
  {
    var s' := SweepApplyStep(s, req).0;
    if req in s.sweeps && |s.sweeps[req].expired| > 0 && s.sweeps[req].expired[0].target in s.targets
        && s.targets[s.sweeps[req].expired[0].target].status == Running {
      var t := s.sweeps[req].expired[0].target;
      RunningRowRuns(s, t);
      assert CoheresAt(s, s.targets[t].exec);
      if s.targets[t].exec !in s.cancelling {
        ReclaimCoheres(s.targets, s'.targets, s.targets[t].exec);
      }
      CoherenceFrame(s, s', s.targets[t].exec);
    } else {
      assert s'.targets == s.targets;
      forall e | e in s'.execs ensures CoheresAt(s', e) {
        assert CoheresAt(s, e);
      }
    }
  }

  lemma SweepBusy(s: Db, req: RequestId)
    requires Base(s) && Coherence(s) && Busy(s)
    ensures Busy(SweepApplyStep(s, req).0) <==> !Closes(s, SweepApply(req))
  {
    var s' := SweepApplyStep(s, req).0;
    if req in s.sweeps && |s.sweeps[req].expired| > 0 && s.sweeps[req].expired[0].target in s.targets
        && s.targets[s.sweeps[req].expired[0].target].status == Running {
      var x := s.sweeps[req].expired[0];
      var t, e := x.target, s.targets[x.target].exec;
      RunningRowRuns(s, t);
      SweptRow(s, s', x);
      if e !in s.cancelling && !Closes(s, SweepApply(req)) {
        if x.attempt >= x.max {
          var u :| u in s.targets && s.targets[u].exec == e && s.targets[u].Open() && u != t;
          assert s'.targets[u].Open();
        } else {
          assert s'.targets[t].Open();
        }
      }
      if !Closes(s, SweepApply(req)) {
        BusyFrame(s, s', e);
      }
    } else {
      assert s'.targets == s.targets;
    }
  }

  lemma SweptRow(s: Db, s': Db, x: Expired)
    requires x.target in s.targets && s.targets[x.target].status == Running
    requires s'.targets == s.targets[x.target := Reclaimed(s.targets[x.target], x.attempt, x.max, s.now)]
    ensures s'.targets[x.target].exec == s.targets[x.target].exec
    ensures s'.targets[x.target].status == if x.attempt >= x.max then DeadLetter else Pending
    ensures forall u | u in s.targets && u != x.target :: s'.targets[u] == s.targets[u]
  {
  }

  // ---- One step ----

  lemma IdleKeeps(s: Db, s': Db)
    requires Base(s) && Coherence(s) && s'.targets == s.targets && s'.execs == s.execs && s'.cancelling == s.cancelling
    requires s'.receipts == s.receipts && s'.nextLease == s.nextLease && s'.now >= s.now
    ensures Kept(s, s')
  {
    BaseFrame(s, s');
    forall e | e in s'.execs ensures CoheresAt(s', e) {
      assert CoheresAt(s, e);
    }
  }

  /** Every step but a sweep's update keeps everything. */
  lemma StepKeeps(s: Db, step: Step)
    requires Base(s) && Coherence(s) && !step.SweepApply?
    ensures Kept(s, After(s, step))
  {
    match step
    case Create(exec, org, user, ids, servers) => CreateKeeps(s, exec, org, user, ids, servers);
    case ClaimCommit(req) => ClaimKeeps(s, req);
    case Renew(exec, t, runner, lease) => RenewKeeps(s, exec, t, runner, lease);
    case Submit(org, r) => SubmitKeeps(s, org, r);
    case Reconcile(org) => ReconcileKeeps(s, org);
    case Cancel(exec, org, user, manager) => CancelKeeps(s, exec, org, user, manager);
    case CancelExec(exec, org, user, manager) => CancelExecKeeps(s, exec, org, user, manager);
    case CancelTargets(exec) => CancelTargetsKeeps(s, exec);
    case SweepFinish(req) => FinishKeeps(s, req);
    case _ =>
      IdleStep(s, step);
      IdleKeeps(s, After(s, step));
  }

  /** Every step there is keeps coherence. */
  lemma CoherenceStep(s: Db, step: Step)
    requires Base(s) && Coherence(s)
    ensures Base(After(s, step)) && Coherence(After(s, step))
  {
    BaseStep(s, step);
    if step.SweepApply? {
      SweepCoheres(s, step.req);
    } else {
      StepKeeps(s, step);
    }
  }

  /** A step leaves a running execution nothing open exactly when it is a sweep's update that closes the last target. */
  lemma BusyStep(s: Db, step: Step)
    requires Base(s) && Coherence(s) && Busy(s)
    ensures Busy(After(s, step)) <==> !Closes(s, step)
  {
    if step.SweepApply? {
      SweepBusy(s, step.req);
    } else {
      StepKeeps(s, step);
    }
  }

  /** Every step keeps agreement exactly when it does not close an execution's last open target that way. */
  lemma AgreementStep(s: Db, step: Step)
    requires Base(s) && Agreement(s)
    ensures Agreement(After(s, step)) <==> !Closes(s, step)
  {
    AgreementIs(s);
    CoherenceStep(s, step);
    BusyStep(s, step);
    AgreementIs(After(s, step));
  }

  /** Every step keeps the whole invariant exactly when it neither closes nor strands. */
  lemma InvStep(s: Db, step: Step)
    requires Inv(s)
    ensures Inv(After(s, step)) <==> !Closes(s, step) && !Strands(s, step)
  {
    BaseStep(s, step);
    ReadyStep(s, step);
    AgreementStep(s, step);
  }

  // ---- Runs ----

  lemma {:induction false} CoherenceRun(s: Db, steps: seq<Step>)
    requires Base(s) && Coherence(s)
    ensures Base(Run(s, steps)) && Coherence(Run(s, steps))
    decreases |steps|
  {
    if |steps| == 0 {
    } else {
      CoherenceStep(s, steps[0]);
      CoherenceRun(After(s, steps[0]), steps[1..]);
    }
  }

  ghost predicate NoneCloses(s: Db, steps: seq<Step>)
    decreases |steps|
  {
    |steps| == 0 || (!Closes(s, steps[0]) && NoneCloses(After(s, steps[0]), steps[1..]))
  }

  ghost predicate AlwaysAgrees(s: Db, steps: seq<Step>)
    decreases |steps|
  {
    Agreement(s) && (|steps| == 0 || AlwaysAgrees(After(s, steps[0]), steps[1..]))
  }

  /** Over all steps: executions agree with their targets all along exactly when no step closes one that way. */
  lemma {:induction false} AgreementExactly(s: Db, steps: seq<Step>)
    requires Base(s) && Agreement(s)
    ensures AlwaysAgrees(s, steps) <==> NoneCloses(s, steps)
    decreases |steps|
  {
    if |steps| == 0 {
    } else {
      AgreementStep(s, steps[0]);
      BaseStep(s, steps[0]);
      if Agreement(After(s, steps[0])) {
        AgreementExactly(After(s, steps[0]), steps[1..]);
      }
    }
  }

  ghost predicate AlwaysInv(s: Db, steps: seq<Step>)
    decreases |steps|
  {
    Inv(s) && (|steps| == 0 || AlwaysInv(After(s, steps[0]), steps[1..]))
  }

  /** Over all steps: the invariant holds all along exactly when no step closes or strands. */
  lemma {:induction false} InvRun(s: Db, steps: seq<Step>)
    requires Inv(s)
    ensures AlwaysInv(s, steps) <==> NoneCloses(s, steps) && NoneStrands(s, steps)
    decreases |steps|
  {
    if |steps| == 0 {
    } else {
      InvStep(s, steps[0]);
      if Inv(After(s, steps[0])) {
        InvRun(After(s, steps[0]), steps[1..]);
      }
    }
  }

  /** In particular over every run without a sweep's writes. */
  lemma {:induction false} InvStays(s: Db, steps: seq<Step>)
    requires Inv(s) && AllUnswept(steps)
    ensures Inv(Run(s, steps))
    decreases |steps|
  {
    if |steps| == 0 {
    } else {
      InvStep(s, steps[0]);
      InvStays(After(s, steps[0]), steps[1..]);
    }
  }

  lemma SoundStep(s: Db, step: Step)
    requires Sound(s) && !Strands(s, step)
    ensures Sound(After(s, step))
  {
    CoherenceStep(s, step);
    ReadyStep(s, step);
  }

  /** What liveness rests on holds over every run in which no sweep's update strands a row. */
  lemma {:induction false} SoundRun(s: Db, steps: seq<Step>)
    requires Sound(s) && NoneStrands(s, steps)
    ensures Sound(Run(s, steps))
    decreases |steps|
  {
    if |steps| == 0 {
    } else {
      SoundStep(s, steps[0]);
      SoundRun(After(s, steps[0]), steps[1..]);
    }
  }

  lemma {:induction false} SoundStays(s: Db, steps: seq<Step>)
    requires Sound(s) && AllUnswept(steps)
    ensures Sound(Run(s, steps))
    decreases |steps|
  {
    if |steps| == 0 {
    } else {
      SoundStep(s, steps[0]);
      SoundStays(After(s, steps[0]), steps[1..]);
    }
  }
}
