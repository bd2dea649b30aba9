/**
  What the creating requests do, column by column, and where every execution
  comes from. Nothing here is stated through the drafts and rows that the steps of
  module Control are built from.
 */
module ControlReplies {
  import opened Common
  import opened Control
  import opened ControlTheorems

  // ---- One request ----

  /** A runbook run that a second person must approve. */
  predicate MustBeApproved(request: Request, plan: Plan) {
    && request.payload.RunPayload?
    && (|| plan.ruleNeedsApproval
        || (plan.env == Production && plan.risk in {High, Critical})
        || (plan.risk == High && !request.senior))
  }

  /** No check of the request refuses it. */
  predicate Admitted(b: Books, request: Request, plan: Plan, exec: ExecId, approval: ApprovalId) {
    && !plan.refused
    && (request.payload.RunPayload? ==> plan.command != "")
    && if MustBeApproved(request, plan) then !Blank(request.payload.reason) && approval !in b.approvals
       else plan.policyAllows && exec !in b.execs
  }

  /** The request's key, in the table of its kind and under its organisation. */
  predicate KeyOf(request: Request, id: KeyId) {
    && request.key == Some(id.key) && id.org == request.org
    && id.table == if request.payload.RunPayload? then RunbookKeys else ExecutionKeys
  }

  /** What an approval freezes: the requester and the run, as planned, for as long as the request allows. */
  predicate Asks(s: Db, request: Request, plan: Plan, lifetime: nat, a: Approval) {
    && a.org == request.org && a.requester == request.user && a.risk == plan.risk
    && a.intent.command == plan.command && a.intent.targets == plan.targets && a.intent.env == plan.env
    && a.expires == s.now + lifetime
  }

  /** What a request that needs no approval runs. */
  predicate RunsDirectly(request: Request, plan: Plan, e: Exec) {
    && e.org == request.org && e.actor == request.user && e.env == plan.env && e.risk == plan.risk
    && e.targets == plan.targets && e.approval == None
    && (match request.payload
        case RunPayload(_, _, _, _) => e.kind == Runbook && e.command == plan.command
        case CommandPayload(_, command, _, _) => e.kind == RawCommand && e.command == command)
  }

  /** A request that is neither refused nor a repetition adds its one row and its key, and nothing else. */
  ghost predicate Makes(
      was: Db, end: Db, request: Request, plan: Plan, exec: ExecId, approval: ApprovalId, lifetime: nat, reply: Reply)
  {
    && (if MustBeApproved(request, plan) then
          && reply == Created(ApprovalBody(approval))
          && approval in end.books.approvals
          && var a := end.books.approvals[approval];
          && Asks(was, request, plan, lifetime, a) && a.status == Pending && a.approver == None
          && end.books == was.books.(approvals := was.books.approvals[approval := a])
        else
          && reply == Created(ExecBody(exec))
          && exec in end.books.execs && RunsDirectly(request, plan, end.books.execs[exec])
          && end.books == was.books.(execs := was.books.execs[exec := end.books.execs[exec]]))
    && (request.key.None? ==> end.keys == was.keys)
    && (forall id | KeyOf(request, id) :: end.keys == was.keys[id := KeyRow(request.user, request.payload, reply.body)])
  }

  /** Refused, a repetition under a key in use, or made. */
  ghost predicate Replies(
      was: Db, end: Db, request: Request, plan: Plan, exec: ExecId, approval: ApprovalId, lifetime: nat, reply: Reply)
  {
    && (reply == Refused <==> !Admitted(was.books, request, plan, exec, approval))
    && (reply != Refused ==>
          && (forall id | KeyOf(request, id) && id in was.keys ::
                reply == if was.keys[id].user == request.user && was.keys[id].payload == request.payload
                         then Replayed(was.keys[id].body) else Conflict)
          && ((forall id | KeyOf(request, id) :: id !in was.keys) ==>
                Makes(was, end, request, plan, exec, approval, lifetime, reply)))
    && (!reply.Created? ==> end.books == was.books && end.keys == was.keys)
    && end.now == was.now && end.tickets == was.tickets
  }

  lemma OneKey(request: Request, id: KeyId)
    ensures KeyOf(request, id) <==> IdOf(request) == Some(id)
  {
  }

  lemma WithKeyMeans(s: Db, books: Books, request: Request, body: Body)
    ensures var s' := WithKey(s, books, request, body);
            && |s'.sent| == |s.sent| + 1 && s'.now == s.now && s'.tickets == s.tickets
            && var reply := s'.sent[|s.sent|].reply;
            match IdOf(request)
            case None => s'.books == books && s'.keys == s.keys && reply == Created(body)
            case Some(id) =>
              if id !in s.keys then
                && s'.books == books && reply == Created(body)
                && s'.keys == s.keys[id := KeyRow(request.user, request.payload, body)]
              else
                && s'.books == s.books && s'.keys == s.keys
                && reply == if s.keys[id].user == request.user && s.keys[id].payload == request.payload
                            then Replayed(s.keys[id].body) else Conflict
  {
  }

  lemma DraftMeans(
      s: Db, request: Request, plan: Plan, exec: ExecId, approval: ApprovalId, lifetime: nat)
    ensures match DraftOf(s.books, s.now, request, plan, exec, approval, lifetime)
            case NoDraft => !Admitted(s.books, request, plan, exec, approval)
            case ApprovalDraft(a) =>
              && Admitted(s.books, request, plan, exec, approval) && MustBeApproved(request, plan)
              && Asks(s, request, plan, lifetime, a) && a.status == Pending && a.approver == None
            case ExecDraft(e) =>
              && Admitted(s.books, request, plan, exec, approval) && !MustBeApproved(request, plan)
              && RunsDirectly(request, plan, e)
  {
  }

  lemma PerformReplies(
      s: Db, request: Request, plan: Plan, exec: ExecId, approval: ApprovalId, lifetime: nat)
    ensures var s' := Perform(s, request, plan, exec, approval, lifetime);
            && |s'.sent| == |s.sent| + 1
            && Replies(s, s', request, plan, exec, approval, lifetime, s'.sent[|s.sent|].reply)
  {
    var b := s.books;
    forall id ensures KeyOf(request, id) <==> IdOf(request) == Some(id) {
      OneKey(request, id);
    }
    DraftMeans(s, request, plan, exec, approval, lifetime);
    match DraftOf(b, s.now, request, plan, exec, approval, lifetime)
    case NoDraft =>
    case ApprovalDraft(row) =>
      WithKeyMeans(s, b.(approvals := b.approvals[approval := row]), request, ApprovalBody(approval));
    case ExecDraft(row) =>
      WithKeyMeans(s, b.(execs := b.execs[exec := row]), request, ExecBody(exec));
  }

  lemma CommitReplies(s: Db, req: RequestId, plan: Plan, exec: ExecId, approval: ApprovalId, lifetime: nat)
    requires req in s.requests
    ensures var s' := CommitStep(s, req, plan, exec, approval, lifetime);
            && |s'.sent| == |s.sent| + 1
            && Replies(s, s', s.requests[req], plan, exec, approval, lifetime, s'.sent[|s.sent|].reply)
  {
    PerformReplies(s.(requests := s.requests - {req}), s.requests[req], plan, exec, approval, lifetime);
  }

  /** The look at the key: this user's own answer, a conflict with another payload, or the request goes on. */
  lemma LookupMeans(s: Db, req: RequestId, request: Request)
    ensures var s' := LookupStep(s, req, request);
            var blank := request.payload.CommandPayload? && request.payload.command == "";
            if blank then s' == s.(sent := s'.sent) && |s'.sent| == |s.sent| + 1 && s'.sent[|s.sent|].reply == Refused
            else if id :| KeyOf(request, id) && id in s.keys && s.keys[id].user == request.user then
              && s' == s.(sent := s'.sent) && |s'.sent| == |s.sent| + 1
              && s'.sent[|s.sent|].reply ==
                   if s.keys[id].payload == request.payload then Replayed(s.keys[id].body) else Conflict
            else s' == s.(requests := s.requests[req := request])
  {
    forall id ensures KeyOf(request, id) <==> IdOf(request) == Some(id) {
      OneKey(request, id);
    }
  }

  // ---- Where an execution comes from ----

  lemma {:induction false} RunLast(s: Db, steps: seq<Step>)
    requires |steps| > 0
    ensures Run(s, steps) == After(Run(s, steps[..|steps| - 1]), steps[|steps| - 1])
    decreases |steps|
  {
    if |steps| == 1 {
      assert steps[1..] == [] && steps[..0] == [];
    } else {
      RunLast(After(s, steps[0]), steps[1..]);
      assert steps[1..][..|steps| - 2] == steps[..|steps| - 1][1..];
    }
  }

  /** The step is a request's transaction, and the request asked for this approval. */
  ghost predicate AskedBy(s: Db, step: Step, id: ApprovalId, a: Approval) {
    && step.Commit? && step.req in s.requests && step.approval == id
    && MustBeApproved(s.requests[step.req], step.plan) && !Blank(s.requests[step.req].payload.reason)
    && Asks(s, s.requests[step.req], step.plan, step.lifetime, a)
  }

  /** The step is a request's transaction, and the request runs this without an approval. */
  ghost predicate StartedBy(s: Db, step: Step, id: ExecId, e: Exec) {
    && step.Commit? && step.req in s.requests && step.exec == id
    && !MustBeApproved(s.requests[step.req], step.plan) && step.plan.policyAllows
    && RunsDirectly(s.requests[step.req], step.plan, e)
  }

  /** The step is the scheduler's. */
  predicate ScheduledBy(step: Step, id: ExecId, e: Exec) {
    && step.Scheduled? && step.exec == id && step.plan.risk !in {High, Critical}
    && e == Exec(step.org, step.automation, Runbook, step.plan.env, step.plan.risk, step.plan.command,
                 step.plan.targets, None)
  }

  /** The step is an approval's transaction, and the execution is what the ticket carries. */
  ghost predicate ApprovedBy(s: Db, step: Step, id: ExecId, e: Exec) {
    && step.ApproveCommit? && step.req in s.tickets && step.exec == id
    && var t := s.tickets[step.req];
    && e.approval == Some(t.approval) && e.org == t.org && e.actor == t.requester && e.kind == Runbook
    && e.risk == t.risk && e.command == t.intent.command && e.targets == t.intent.targets
    && e.env == (if t.intent.env == NoEnv then Development else t.intent.env)
  }

  lemma NewRows(s: Db, step: Step)
    ensures var b, b' := s.books, After(s, step).books;
            && (forall a | a in b'.approvals && a !in b.approvals :: AskedBy(s, step, a, b'.approvals[a]))
            && (forall e | e in b'.execs && e !in b.execs ::
                  || StartedBy(s, step, e, b'.execs[e])
                  || ScheduledBy(step, e, b'.execs[e])
                  || ApprovedBy(s, step, e, b'.execs[e]))
  {
    match step
    case Commit(req, plan, exec, approval, lifetime) =>
      if req in s.requests {
        CommitReplies(s, req, plan, exec, approval, lifetime);
      }
    case Lookup(req, request) => LookupMeans(s, req, request);
    case _ =>
  }

  /** Every approval was asked for by a request, and its row says so for ever. */
  lemma {:induction false} ApprovalOrigin(steps: seq<Step>, a: ApprovalId) returns (j: nat)
    requires a in Run(INIT, steps).books.approvals
    ensures j < |steps| && AskedBy(Run(INIT, steps[..j]), steps[j], a, Run(INIT, steps).books.approvals[a])
    decreases |steps|
  {
    var n := |steps| - 1;
    RunLast(INIT, steps);
    var s := Run(INIT, steps[..n]);
    if a in s.books.approvals {
      ApprovalInvRun(INIT, steps[..n]);
      ApprovalInvStep(s, steps[n]);
      j := ApprovalOrigin(steps[..n], a);
      assert steps[..n][..j] == steps[..j];
    } else {
      NewRows(s, steps[n]);
      j := n;
    }
  }

  /** The step that made the execution. */
  lemma {:induction false} ExecOrigin(steps: seq<Step>, e: ExecId) returns (i: nat)
    requires e in Run(INIT, steps).books.execs
    ensures i < |steps|
    ensures var s, x := Run(INIT, steps[..i]), Run(INIT, steps).books.execs[e];
            StartedBy(s, steps[i], e, x) || ScheduledBy(steps[i], e, x) || ApprovedBy(s, steps[i], e, x)
    decreases |steps|
  {
    var n := |steps| - 1;
    RunLast(INIT, steps);
    var s := Run(INIT, steps[..n]);
    if e in s.books.execs {
      StepAnswers(s, steps[n]);
      i := ExecOrigin(steps[..n], e);
      assert steps[..n][..i] == steps[..i];
    } else {
      NewRows(s, steps[n]);
      i := n;
    }
  }

  /** The execution is what the request of that step asked for, with the development environment for none. */
  ghost predicate RunsAsAsked(s: Db, step: Step, x: Exec) {
    && step.Commit? && step.req in s.requests && MustBeApproved(s.requests[step.req], step.plan)
    && !Blank(s.requests[step.req].payload.reason)
    && x == Exec(s.requests[step.req].org, s.requests[step.req].user, Runbook,
                 if step.plan.env == NoEnv then Development else step.plan.env, step.plan.risk,
                 step.plan.command, step.plan.targets, Some(step.approval))
  }

  lemma TicketRunsAsAsked(steps: seq<Step>, i: nat, e: ExecId, x: Exec) returns (j: nat)
    requires i < |steps| && ApprovedBy(Run(INIT, steps[..i]), steps[i], e, x)
    ensures j < i && RunsAsAsked(Run(INIT, steps[..j]), steps[j], x)
  {
    var s := Run(INIT, steps[..i]);
    ApprovalInvRun(INIT, steps[..i]);
    var t := s.tickets[steps[i].req];
    assert TicketFresh(s.books, t);
    j := ApprovalOrigin(steps[..i], t.approval);
    assert steps[..i][..j] == steps[..j];
  }

  /**
    After any run, every execution was started by a request that needed no
    approval and carries that request's own columns, or by the scheduler with a
    plan that is not high or critical; or it was approved, and then it carries
    the command, targets, environment, risk and user of the request that asked.
   */
  lemma WhatRunsWasAskedFor(steps: seq<Step>, e: ExecId) returns (i: nat)
    requires e in Run(INIT, steps).books.execs
    ensures i < |steps|
    ensures var s, x := Run(INIT, steps[..i]), Run(INIT, steps).books.execs[e];
            if x.approval.None? then StartedBy(s, steps[i], e, x) || ScheduledBy(steps[i], e, x)
            else RunsAsAsked(s, steps[i], x)
  {
    i := ExecOrigin(steps, e);
    var x := Run(INIT, steps).books.execs[e];
    if ApprovedBy(Run(INIT, steps[..i]), steps[i], e, x) {
      i := TicketRunsAsAsked(steps, i, e, x);
    }
  }

  /** What a request asked for is what is run, however long the decision takes and whatever else happens. */
  lemma FrozenAtRequest(
      s: Db, req: RequestId, plan: Plan, exec: ExecId, approval: ApprovalId, lifetime: nat, steps: seq<Step>, e: ExecId)
    requires ApprovalInv(s) && req in s.requests
    requires var s1 := CommitStep(s, req, plan, exec, approval, lifetime);
             && s1.sent == s.sent + [Sent(IdOf(s.requests[req]), Created(ApprovalBody(approval)))]
             && e in Run(s1, steps).books.execs && Run(s1, steps).books.execs[e].approval == Some(approval)
    ensures var s1, request := CommitStep(s, req, plan, exec, approval, lifetime), s.requests[req];
            Run(s1, steps).books.execs[e] ==
              Exec(request.org, request.user, Runbook, if plan.env == NoEnv then Development else plan.env, plan.risk,
                   plan.command, plan.targets, Some(approval))
  {
    var s1 := CommitStep(s, req, plan, exec, approval, lifetime);
    CommitReplies(s, req, plan, exec, approval, lifetime);
    CommitKeepsApprovals(s, req, plan, exec, approval, lifetime);
    FrozenSince(s1, steps, approval, e);
  }
}
