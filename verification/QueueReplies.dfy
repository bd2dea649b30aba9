/**
  What the handlers' requests do, column by column: who is offered a job, which
  results succeed, what a reconcile and a cancel leave. Each is said without the
  conditions and rows that the steps of module Queue are built from.
 */
module QueueReplies {
  import opened Common
  import opened Queue

  // ---- Creating ----

  /** The request's row is queued, each server has one waiting row, and nothing else changes. */
  ghost predicate Creates(
      was: Db, end: Db, exec: ExecId, org: OrgId, user: UserId, ids: seq<TargetId>, servers: seq<ServerId>,
      reply: Reply)
    requires |ids| == |servers|
  {
    && reply in {Reply(400, NoServers), Reply(500, CreateFailed), Reply(201, QueuedBody)}
    && (reply == Reply(400, NoServers) <==> servers == [])
    && (reply == Reply(500, CreateFailed) <==>
          && servers != []
          && (|| exec in was.execs
              || (exists i :: 0 <= i < |ids| && ids[i] in was.targets)
              || (exists i, j :: 0 <= i < j < |ids| && (ids[i] == ids[j] || servers[i] == servers[j]))))
    && (reply != Reply(201, QueuedBody) ==> end == was)
    && (reply == Reply(201, QueuedBody) ==>
          && end == was.(execs := was.execs[exec := Exec(org, user, ExecQueued, was.now)], targets := end.targets)
          && (forall i | 0 <= i < |ids| ::
                && ids[i] in end.targets
                && end.targets[ids[i]] == Target(org, exec, servers[i], Pending, None, None, None, 0, 3, None))
          && (forall t | t in was.targets :: t in end.targets && end.targets[t] == was.targets[t])
          && (forall t | t in end.targets :: t in was.targets || t in ids))
  }

  lemma {:induction false} NewTargetsAt(
      exec: ExecId, org: OrgId, ids: seq<TargetId>, servers: seq<ServerId>, i: nat)
    requires i < |ids| == |servers| && Distinct(ids)
    ensures ids[i] in NewTargets(exec, org, ids, servers)
    ensures NewTargets(exec, org, ids, servers)[ids[i]]
         == Target(org, exec, servers[i], Pending, None, None, None, 0, 3, None)
  {
    var n := |ids| - 1;
    if i == n {
    } else {
      NewTargetsAt(exec, org, ids[..n], servers[..n], i);
    }
  }

  lemma CreationMeans(
      s: Db, exec: ExecId, org: OrgId, user: UserId, ids: seq<TargetId>, servers: seq<ServerId>)
    requires |ids| == |servers|
    ensures var (s', reply) := CreateStep(s, exec, org, user, ids, servers);
            Creates(s, s', exec, org, user, ids, servers, reply)
  {
    if Insertable(s, exec, ids, servers) {
      forall i | 0 <= i < |ids|
        ensures ids[i] in NewTargets(exec, org, ids, servers)
        ensures NewTargets(exec, org, ids, servers)[ids[i]]
             == Target(org, exec, servers[i], Pending, None, None, None, 0, 3, None)
      {
        NewTargetsAt(exec, org, ids, servers, i);
      }
    }
  }

  // ---- Claiming ----

  /** The runner may be given the target now. */
  predicate Offered(s: Db, runner: RunnerId, filter: Option<TargetId>, t: TargetId) {
    && runner in s.runners && t in s.targets && s.targets[t].exec in s.execs
    && var r, row, e := s.runners[runner], s.targets[t], s.execs[s.targets[t].exec];
    && r.active && r.org == e.org && (r.allServers || row.server in r.servers)
    && (e.status == ExecQueued || e.status == ExecRunning)
    && (filter == None || filter == Some(t))
    && row.attempt < row.maxAttempts
    && (match row.status
        case Pending => row.nextAttempt == None || row.nextAttempt.value <= s.now
        case Running => row.expires != None && row.expires.value <= s.now
        case _ => false)
  }

  /** No target offered to the runner was asked for earlier. */
  predicate OfferedFirst(s: Db, runner: RunnerId, filter: Option<TargetId>, t: TargetId) {
    && Offered(s, runner, filter, t)
    && forall u | u in s.targets && Offered(s, runner, filter, u) ::
         s.execs[s.targets[t].exec].requestedAt <= s.execs[s.targets[u].exec].requestedAt
  }

  lemma EligibleIsOffered(s: Db, runner: RunnerId, filter: Option<TargetId>, t: TargetId)
    ensures Eligible(s, runner, filter, t) <==> Offered(s, runner, filter, t)
  {
  }

  lemma AnswerIsOffered(s: Db, runner: RunnerId, filter: Option<TargetId>, answer: Option<TargetId>)
    ensures LegalAnswer(s, runner, filter, answer) <==>
              if answer.Some? then OfferedFirst(s, runner, filter, answer.value)
              else forall t | t in s.targets :: !Offered(s, runner, filter, t)
  {
    forall t ensures Eligible(s, runner, filter, t) <==> Offered(s, runner, filter, t) {
      EligibleIsOffered(s, runner, filter, t);
    }
  }

  /** The row is still as the claim read it, has an attempt left, and is due. */
  predicate Unclaimed(s: Db, ticket: Ticket) {
    && ticket.target in s.targets
    && var row := s.targets[ticket.target];
    && row.status == ticket.source && row.attempt < row.maxAttempts
    && (match row.status
        case Pending => row.nextAttempt == None || row.nextAttempt.value <= s.now
        case Running => row.expires != None && row.expires.value <= s.now
        case _ => false)
  }

  /** The claim's updates: the row is leased for 300 seconds and its execution runs, or only the ticket goes. */
  ghost predicate GivesLease(was: Db, end: Db, req: RequestId, reply: Reply) {
    if req !in was.tickets then end == was && reply == Silent
    else
      var ticket := was.tickets[req];
      if !Unclaimed(was, ticket) then
        end == was.(tickets := was.tickets - {req}) && reply == Reply(409, ClaimedByAnother)
      else
        var row := was.targets[ticket.target];
        && reply == Job(ticket.target, row.exec, was.nextLease, ticket.runner, was.now + 300)
        && end.targets == was.targets[ticket.target :=
             Target(row.org, row.exec, row.server, Running, Some(ticket.runner), Some(was.nextLease),
                    Some(was.now + 300), row.attempt + 1, row.maxAttempts, row.nextAttempt)]
        && end.execs.Keys == was.execs.Keys
        && (forall e | e in was.execs ::
              end.execs[e] == was.execs[e].(status :=
                if e == row.exec && (was.execs[e].status == ExecQueued || was.execs[e].status == ExecRunning)
                then ExecRunning else was.execs[e].status))
        && end == was.(tickets := was.tickets - {req}, targets := end.targets, execs := end.execs,
                       nextLease := was.nextLease + 1)
  }

  lemma ClaimMeans(s: Db, req: RequestId)
    ensures var (s', reply) := ClaimCommitStep(s, req); GivesLease(s, s', req, reply)
  {
  }

  // ---- Renewing ----

  /** The runner works on the target under this lease. */
  predicate WorksOn(s: Db, exec: ExecId, target: TargetId, runner: RunnerId, lease: LeaseId) {
    && target in s.targets && s.targets[target].exec == exec && s.targets[target].status == Running
    && s.targets[target].runner == Some(runner) && s.targets[target].lease == Some(lease)
  }

  lemma RenewalMeans(s: Db, exec: ExecId, target: TargetId, runner: RunnerId, lease: LeaseId)
    ensures var (s', reply) := RenewStep(s, exec, target, runner, lease);
            if WorksOn(s, exec, target, runner, lease) then
              && reply == Reply(200, Renewed)
              && s' == s.(targets := s.targets[target := s.targets[target].(expires := Some(s.now + 300))])
            else reply == Reply(409, LeaseInactive) && s' == s
  {
  }

  // ---- Results ----

  /** A runner of the organisation reports on the target it works on. */
  predicate Reports(s: Db, org: OrgId, r: Result) {
    && WorksOn(s, r.exec, r.target, r.runner, r.lease)
    && r.exec in s.execs && s.execs[r.exec].org == org
    && r.runner in s.runners && s.runners[r.runner].org == org
  }

  /** The row after the result: exit code 0 and no error is success; anything else is tried again while it may be. */
  predicate Verdict(row: Target, r: Result, now: int, row': Target) {
    if r.exitCode == 0 && r.error == "" then
      row' == row.(status := Succeeded, expires := None)
    else if row.attempt < row.maxAttempts then
      && row' == Target(row.org, row.exec, row.server, Pending, None, None, None, row.attempt, row.maxAttempts,
                        row'.nextAttempt)
      && row'.nextAttempt == Some(now + Backoff(row.attempt))
    else
      row' == row.(status := DeadLetter, expires := None)
  }

  /** The execution waits for its other targets, or has failed when any of them has, and succeeded otherwise. */
  ghost predicate Concludes(targets: map<TargetId, Target>, e: ExecId, was: ExecStatus, status: ExecStatus) {
    if exists t :: t in targets && targets[t].exec == e
                   && (targets[t].status == Pending || targets[t].status == Running)
    then status == was
    else if exists t :: t in targets && targets[t].exec == e
                    && (targets[t].status == Failed || targets[t].status == DeadLetter)
    then was == ExecRunning && status == ExecFailed
    else was == ExecRunning && status == ExecSucceeded
  }

  /** A result that is taken: its row, its execution and its receipt, and nothing else. */
  ghost predicate Takes(was: Db, end: Db, org: OrgId, r: Result, reply: Reply) {
    && Reports(was, org, r)
    && r.target in end.targets && r.exec in end.execs
    && Verdict(was.targets[r.target], r, was.now, end.targets[r.target])
    && reply == Reply(200, if end.targets[r.target].status == Pending then RetryBody else OkBody)
    && Concludes(end.targets, r.exec, was.execs[r.exec].status, end.execs[r.exec].status)
    && end == was.(
         targets := was.targets[r.target := end.targets[r.target]],
         execs := was.execs[r.exec := was.execs[r.exec].(status := end.execs[r.exec].status)],
         receipts := was.receipts[(r.target, r.lease) := Receipt(org, r, 200, reply.body)])
  }

  /** A result after which its execution, which is not running, would have nothing open. */
  ghost predicate Overtaken(s: Db, r: Result)
    requires r.exec in s.execs && r.target in s.targets
  {
    && s.execs[r.exec].status != ExecRunning
    && ((r.exitCode == 0 && r.error == "") || s.targets[r.target].attempt >= s.targets[r.target].maxAttempts)
    && forall t | t in s.targets && s.targets[t].exec == r.exec && t != r.target ::
         s.targets[t].status != Pending && s.targets[t].status != Running
  }

  /** A result is replayed, in conflict, from somebody who does not work on the target, too late, or taken. */
  ghost predicate Answers(was: Db, end: Db, org: OrgId, r: Result, reply: Reply) {
    if (r.target, r.lease) in was.receipts then
      var receipt := was.receipts[(r.target, r.lease)];
      && end == was
      && reply == if receipt.payload == r then Reply(receipt.code, receipt.body) else Reply(409, PayloadConflict)
    else if !Reports(was, org, r) then end == was && reply == Reply(409, NotAssigned)
    else if Overtaken(was, r) then end == was && reply == Reply(409, NotRunning)
    else Takes(was, end, org, r, reply)
  }

  lemma ResultMeans(s: Db, org: OrgId, r: Result)
    ensures var (s', reply) := SubmitStep(s, org, r); Answers(s, s', org, r, reply)
  {
    var (s', reply) := SubmitStep(s, org, r);
    if (r.target, r.lease) !in s.receipts && Reports(s, org, r) {
      var row := Finished(s.targets[r.target], r, s.now);
      StaysOpen(s, r, s.targets[r.target := row]);
      if !Overtaken(s, r) {
        TakenMeans(s, org, r);
      }
    }
  }

  lemma StaysOpen(s: Db, r: Result, targets: map<TargetId, Target>)
    requires r.exec in s.execs && r.target in s.targets && s.targets[r.target].exec == r.exec
    requires targets == s.targets[r.target := Finished(s.targets[r.target], r, s.now)]
    ensures Overtaken(s, r) <==> s.execs[r.exec].status != ExecRunning && !HasOpen(targets, r.exec)
  {
    if HasOpen(targets, r.exec) {
      var t :| t in targets && targets[t].exec == r.exec && targets[t].Open();
      assert t != r.target ==> s.targets[t] == targets[t];
    } else {
      assert !targets[r.target].Open();
      forall t | t in s.targets && s.targets[t].exec == r.exec && t != r.target
        ensures s.targets[t].status != Pending && s.targets[t].status != Running
      {
        assert targets[t] == s.targets[t];
      }
    }
  }

  lemma TakenMeans(s: Db, org: OrgId, r: Result)
    requires (r.target, r.lease) !in s.receipts && Reports(s, org, r)
    requires HasOpen(s.targets[r.target := Finished(s.targets[r.target], r, s.now)], r.exec)
             || s.execs[r.exec].status == ExecRunning
    ensures var (s', reply) := SubmitStep(s, org, r); Takes(s, s', org, r, reply)
  {
    var row := Finished(s.targets[r.target], r, s.now);
    var targets := s.targets[r.target := row];
    assert Verdict(s.targets[r.target], r, s.now, row);
    assert s.execs == s.execs[r.exec := s.execs[r.exec].(status := s.execs[r.exec].status)];
  }

  // ---- Reconciling ----

  /** A running row whose lease ended, of an active execution. */
  predicate Ended(s: Db, org: OrgId, t: TargetId) {
    && t in s.targets && s.targets[t].org == org && s.targets[t].status == Running
    && s.targets[t].expires != None && s.targets[t].expires.value <= s.now
    && s.targets[t].exec in s.execs && s.execs[s.targets[t].exec].org == org
    && (s.execs[s.targets[t].exec].status == ExecQueued || s.execs[s.targets[t].exec].status == ExecRunning)
  }

  /** The row is taken from its runner: it waits for its next attempt, or is dead-lettered when it has had them all. */
  predicate GivesUp(row: Target, attempt: nat, max: nat, now: int, row': Target) {
    row' == Target(row.org, row.exec, row.server, if attempt >= max then DeadLetter else Pending, None, None, None,
                   row.attempt, row.maxAttempts,
                   if attempt >= max then row.nextAttempt else Some(now + Backoff(attempt)))
  }

  /** An active execution of the organisation with nothing open and something dead-lettered. */
  ghost predicate LeftOver(execs: map<ExecId, Exec>, targets: map<TargetId, Target>, org: OrgId, e: ExecId)
    requires e in execs
  {
    && execs[e].org == org && (execs[e].status == ExecQueued || execs[e].status == ExecRunning)
    && (forall t | t in targets && targets[t].exec == e :: targets[t].status != Pending && targets[t].status != Running)
    && (exists t :: t in targets && targets[t].exec == e
                && (targets[t].status == Failed || targets[t].status == DeadLetter))
  }

  ghost predicate Fails(was: map<ExecId, Exec>, end: map<ExecId, Exec>, targets: map<TargetId, Target>, org: OrgId) {
    && end.Keys == was.Keys
    && forall e | e in was :: end[e] == if LeftOver(was, targets, org, e) then was[e].(status := ExecFailed) else was[e]
  }

  /** Every ended lease is taken back, every left-over execution has failed, and nothing else changes. */
  ghost predicate TakesBack(was: Db, end: Db, org: OrgId) {
    && end.targets.Keys == was.targets.Keys
    && (forall t | t in was.targets ::
          var row := was.targets[t];
          if Ended(was, org, t) then GivesUp(row, row.attempt, row.maxAttempts, was.now, end.targets[t])
          else end.targets[t] == row)
    && Fails(was.execs, end.execs, end.targets, org)
    && end == was.(targets := end.targets, execs := end.execs)
  }

  lemma FinalisedMeans(execs: map<ExecId, Exec>, targets: map<TargetId, Target>, org: OrgId)
    ensures Fails(execs, FinalisedExecs(execs, targets, org), targets, org)
  {
    forall e | e in execs
      ensures LeftOver(execs, targets, org, e) <==>
                execs[e].org == org && execs[e].Active() && !HasOpen(targets, e) && HasFailed(targets, e)
    {
    }
  }

  lemma ReconcileMeans(s: Db, org: OrgId)
    ensures TakesBack(s, ReconcileStep(s, org).0, org)
  {
    var targets := ReconciledTargets(s, org);
    FinalisedMeans(s.execs, targets, org);
    forall t | t in s.targets ensures Lapsed(s, org, t) <==> Ended(s, org, t) {
    }
  }

  /** One update of a sweep goes by the counters that were read, whatever the row has become meanwhile. */
  lemma SweepMeans(s: Db, req: RequestId)
    requires req in s.sweeps && |s.sweeps[req].expired| > 0
    ensures var x, s' := s.sweeps[req].expired[0], SweepApplyStep(s, req).0;
            && (x.target in s.targets && s.targets[x.target].status == Running ==>
                  && x.target in s'.targets
                  && GivesUp(s.targets[x.target], x.attempt, x.max, s.now, s'.targets[x.target])
                  && s'.targets == s.targets[x.target := s'.targets[x.target]])
            && (!(x.target in s.targets && s.targets[x.target].status == Running) ==> s'.targets == s.targets)
            && s'.execs == s.execs && s'.receipts == s.receipts && s'.cancelling == s.cancelling
  {
  }

  // ---- Cancelling ----

  /** Only an execution that has not started can be cancelled, and only by its requester or a manager. */
  predicate Cancels(s: Db, exec: ExecId, org: OrgId, user: UserId, manager: bool) {
    && exec in s.execs && s.execs[exec].org == org
    && (s.execs[exec].status == ExecCreated || s.execs[exec].status == ExecQueued)
    && (s.execs[exec].requester == user || manager)
  }

  /** The refusal of a cancel. */
  predicate Refuses(s: Db, exec: ExecId, org: OrgId, user: UserId, manager: bool, reply: Reply) {
    if exec in s.execs && s.execs[exec].org == org
        && (s.execs[exec].status == ExecCreated || s.execs[exec].status == ExecQueued)
    then reply == Reply(403, NotPermitted) && s.execs[exec].requester != user && !manager
    else reply == Reply(400, NotCancellable)
  }

  /** The execution is cancelled, its targets are as well when the second update is done, and nothing else changes. */
  ghost predicate Cancelling(was: Db, end: Db, exec: ExecId, whole: bool)
    requires exec in was.execs
  {
    && end.targets.Keys == was.targets.Keys
    && (forall t | t in was.targets ::
          end.targets[t] == was.targets[t].(status :=
            if whole && was.targets[t].exec == exec then Cancelled else was.targets[t].status))
    && end == was.(execs := was.execs[exec := was.execs[exec].(status := ExecCancelled)], targets := end.targets,
                   cancelling := if whole then was.cancelling else was.cancelling + {exec})
  }

  lemma CancelWritesOut(s: Db, exec: ExecId, org: OrgId, user: UserId, manager: bool)
    ensures var (s', reply) := CancelStep(s, exec, org, user, manager);
            if Cancels(s, exec, org, user, manager) then
              reply == Reply(200, CancelledBody) && Cancelling(s, s', exec, true)
            else s' == s && Refuses(s, exec, org, user, manager, reply)
    ensures var (s', refusal) := CancelExecStep(s, exec, org, user, manager);
            if Cancels(s, exec, org, user, manager) then refusal == Silent && Cancelling(s, s', exec, false)
            else s' == s && Refuses(s, exec, org, user, manager, refusal)
  {
  }

  // ---- Waiting ----

  /** The wait before each attempt. */
  lemma BackoffTable(attempt: int)
    ensures Backoff(attempt) ==
              match attempt
              case 2 => 2
              case 3 => 4
              case 4 => 8
              case 5 => 16
              case 6 => 32
              case _ => if attempt <= 1 then 1 else 60
  {
    assert Pow2(1) == 2 && Pow2(2) == 4 && Pow2(3) == 8 && Pow2(4) == 16 && Pow2(5) == 32 && Pow2(6) == 64;
    if attempt >= 7 {
      Pow2Mono(6, attempt - 1);
    }
  }
}
