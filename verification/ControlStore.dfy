/**
  The tables behind the creating handlers, updated in place. Each method is one
  transaction or lookup of a handler: it takes the step of module Control that
  its contract names, and keeps the invariants of the approvals and the keys.
 */
module ControlStore {
  import opened Common
  import opened Control
  import opened ControlTheorems
  import opened ControlReplies

  class RequestStore {
    var now: int
    var approvals: map<ApprovalId, Approval>
    var execs: map<ExecId, Exec>
    var keys: map<KeyId, KeyRow>
    /** What a handler that is under way has read. */
    var requests: map<RequestId, Request>
    var tickets: map<RequestId, Ticket>
    ghost var decisions: seq<Decision>
    ghost var sent: seq<Sent>

    ghost function State(): Db
      reads this
    {
      Db(now, Books(approvals, execs, decisions), keys, requests, tickets, sent)
    }

    ghost predicate Valid()
      reads this
    {
      ApprovalInv(State()) && KeyInv(State())
    }

    constructor ()
      ensures Valid() && State() == INIT
    {
      now := 0;
      approvals, execs, keys, requests, tickets := map[], map[], map[], map[], map[];
      decisions, sent := [], [];
    }

    method Answer(id: Option<KeyId>, reply: Reply)
      modifies this`sent
      ensures State() == Send(old(State()), id, reply)
    {
      sent := sent + [Sent(id, reply)];
    }

    /** The answer a key already has for this caller: its own body, or a conflict with its own other payload. */
    method ReplayKey(request: Request) returns (replay: Option<Reply>)
      ensures replay == ReplayOf(keys, request)
    {
      var id := IdOf(request);
      replay := None;
      if id.Some? && id.value in keys {
        var row := keys[id.value];
        if row.user == request.user {
          if row.payload != request.payload {
            replay := Some(Conflict);
          } else {
            replay := Some(Replayed(row.body));
          }
        }
      }
    }

    /** A replayed answer is the stored one for this user and payload, and what it names exists. */
    method BeginRequest(req: RequestId, request: Request) returns (reply: Option<Reply>)
      requires Valid()
      modifies this`requests, this`sent
      ensures Valid() && State() == LookupStep(old(State()), req, request)
      ensures reply.None? ==> State() == old(State()).(requests := old(requests)[req := request])
      ensures reply.Some? ==> requests == old(requests)
      ensures reply == Some(Refused) <==> request.payload.CommandPayload? && request.payload.command == ""
      ensures reply != Some(Refused) ==>
                && (forall id | KeyOf(request, id) ::
                      reply == if id !in keys || keys[id].user != request.user then None
                               else if keys[id].payload == request.payload then Some(Replayed(keys[id].body))
                               else Some(Conflict))
                && (request.key.None? ==> reply == None)
      ensures reply.Some? && reply.value.Replayed? ==>
                && IdOf(request).Some? && IdOf(request).value in keys
                && keys[IdOf(request).value] == KeyRow(request.user, request.payload, reply.value.body)
                && There(State().books, reply.value.body)
    {
      ControlStep(State(), Lookup(req, request));
      forall id ensures KeyOf(request, id) <==> IdOf(request) == Some(id) {
        OneKey(request, id);
      }
      if request.payload.CommandPayload? && request.payload.command == "" {
        Answer(IdOf(request), Refused);
        return Some(Refused);
      }
      reply := ReplayKey(request);
      if reply.Some? {
        Answer(IdOf(request), reply.value);
      } else {
        requests := requests[req := request];
      }
    }

    /** Inserts the key row beside the resource just inserted; on a key in use it restores the saved tables. */
    method InsertKeyOrRollBack(
        request: Request, body: Body, savedApprovals: map<ApprovalId, Approval>, savedExecs: map<ExecId, Exec>)
      returns (reply: Reply)
      modifies this
      ensures var was := old(State());
              var saved := was.(books := was.books.(approvals := savedApprovals, execs := savedExecs));
              State() == WithKey(saved, was.books, request, body)
      ensures sent == old(sent) + [Sent(IdOf(request), reply)]
    {
      var id := IdOf(request);
      if id.Some? && id.value in keys {
        approvals, execs := savedApprovals, savedExecs;
        var replay := ReplayKey(request);
        reply := if replay.Some? then replay.value else Conflict;
        Answer(id, reply);
        return;
      }
      if id.Some? {
        keys := keys[id.value := KeyRow(request.user, request.payload, body)];
      }
      reply := Created(body);
      Answer(id, reply);
    }

    method Refuse(request: Request) returns (reply: Reply)
      modifies this`sent
      ensures State() == Send(old(State()), IdOf(request), Refused) && reply == Refused
    {
      Answer(IdOf(request), Refused);
      return Refused;
    }

    /** The insert of an approval request with its key. */
    method RequestApproval(request: Request, approval: ApprovalId, row: Approval) returns (reply: Reply)
      modifies this
      ensures var was := old(State());
              var books := was.books.(approvals := was.books.approvals[approval := row]);
              State() == WithKey(was, books, request, ApprovalBody(approval))
      ensures sent == old(sent) + [Sent(IdOf(request), reply)]
    {
      var saved := approvals;
      approvals := approvals[approval := row];
      reply := InsertKeyOrRollBack(request, ApprovalBody(approval), saved, execs);
    }

    /** The insert of an execution with its key. */
    method StartExecution(request: Request, exec: ExecId, row: Exec) returns (reply: Reply)
      modifies this
      ensures var was := old(State());
              State() == WithKey(was, was.books.(execs := was.books.execs[exec := row]), request, ExecBody(exec))
      ensures sent == old(sent) + [Sent(IdOf(request), reply)]
    {
      var saved := execs;
      execs := execs[exec := row];
      reply := InsertKeyOrRollBack(request, ExecBody(exec), approvals, saved);
    }

    /** The checks of a raw command. */
    method RunCommand(request: Request, plan: Plan, exec: ExecId, approval: ApprovalId, lifetime: nat)
      returns (reply: Reply)
      requires request.payload.CommandPayload?
      modifies this
      ensures State() == Perform(old(State()), request, plan, exec, approval, lifetime)
      ensures sent == old(sent) + [Sent(IdOf(request), reply)]
      ensures Replies(old(State()), State(), request, plan, exec, approval, lifetime, reply)
    {
      PerformReplies(State(), request, plan, exec, approval, lifetime);
      if plan.refused || !plan.policyAllows || exec in execs {
        reply := Refuse(request);
        return;
      }
      var row := Exec(
        request.org, request.user, RawCommand, plan.env, plan.risk, request.payload.command, plan.targets, None);
      reply := StartExecution(request, exec, row);
    }

    /** A run that needs an approval needs a reason as well. */
    method AskForApproval(request: Request, plan: Plan, approval: ApprovalId, lifetime: nat) returns (reply: Reply)
      requires request.payload.RunPayload?
      modifies this
      ensures var was := old(State());
              if Blank(request.payload.reason) || approval in was.books.approvals then
                State() == Send(was, IdOf(request), Refused)
              else
                State() == WithKey(was, was.books.(approvals := was.books.approvals[approval :=
                  Approval(request.org, request.user, plan.risk, Intent(plan.command, plan.targets, plan.env),
                           was.now + lifetime, Pending, None)]), request, ApprovalBody(approval))
      ensures sent == old(sent) + [Sent(IdOf(request), reply)]
    {
      if Blank(request.payload.reason) || approval in approvals {
        reply := Refuse(request);
        return;
      }
      var intent := Intent(plan.command, plan.targets, plan.env);
      var row := Approval(request.org, request.user, plan.risk, intent, now + lifetime, Pending, None);
      reply := RequestApproval(request, approval, row);
    }

    /** The checks of a runbook run, in the handler's order. */
    method RunRunbook(request: Request, plan: Plan, exec: ExecId, approval: ApprovalId, lifetime: nat)
      returns (reply: Reply)
      requires request.payload.RunPayload?
      modifies this
      ensures State() == Perform(old(State()), request, plan, exec, approval, lifetime)
      ensures sent == old(sent) + [Sent(IdOf(request), reply)]
      ensures Replies(old(State()), State(), request, plan, exec, approval, lifetime, reply)
    {
      PerformReplies(State(), request, plan, exec, approval, lifetime);
      if plan.refused || plan.command == "" {
        reply := Refuse(request);
        return;
      }
      var needsApproval := false;
      if plan.ruleNeedsApproval || (plan.env == Production && (plan.risk == High || plan.risk == Critical)) {
        needsApproval := true;
      }
      if plan.risk == High && !request.senior {
        needsApproval := true;
      }
      if needsApproval {
        reply := AskForApproval(request, plan, approval, lifetime);
        return;
      }
      if !plan.policyAllows || exec in execs {
        reply := Refuse(request);
        return;
      }
      var row := Exec(request.org, request.user, Runbook, plan.env, plan.risk, plan.command, plan.targets, None);
      reply := StartExecution(request, exec, row);
    }

    /**
      The transaction of a request that is under way. It creates something
      exactly when it answers so, and what it names is new and carries what was
      planned; no direct execution is sensitive; with its key in use nothing is created.
     */
    method CommitRequest(req: RequestId, plan: Plan, exec: ExecId, approval: ApprovalId, lifetime: nat)
      returns (reply: Reply)
      requires Valid() && req in requests
      modifies this
      ensures Valid() && State() == CommitStep(old(State()), req, plan, exec, approval, lifetime)
      ensures Answered(old(State()), State(), old(requests)[req], exec, approval, reply)
      ensures Replies(old(State()), State(), old(requests)[req], plan, exec, approval, lifetime, reply)
      ensures var request := old(requests)[req];
              && (reply == Created(ApprovalBody(approval)) ==>
                    && request.payload.RunPayload? && execs == old(execs)
                    && approvals == old(approvals)[approval :=
                         Approval(request.org, request.user, plan.risk, Intent(plan.command, plan.targets, plan.env),
                                  now + lifetime, Pending, None)])
              && (reply == Created(ExecBody(exec)) ==>
                    && approvals == old(approvals)
                    && execs == old(execs)[exec :=
                         Exec(request.org, request.user,
                              if request.payload.RunPayload? then Runbook else RawCommand, plan.env, plan.risk,
                              if request.payload.RunPayload? then plan.command else request.payload.command,
                              plan.targets, None)])
    {
      ControlStep(State(), Commit(req, plan, exec, approval, lifetime));
      CommitReplies(State(), req, plan, exec, approval, lifetime);
      CommitIsAnswered(State(), req, plan, exec, approval, lifetime);
      var request := requests[req];
      requests := requests - {req};
      if request.payload.CommandPayload? {
        reply := RunCommand(request, plan, exec, approval, lifetime);
      } else {
        reply := RunRunbook(request, plan, exec, approval, lifetime);
      }
    }

    // ---- Decisions ----

    /** What an approver has read is what the request froze; the approver is senior and did not ask for it. */
    method ReadApproval(
        req: RequestId, org: OrgId, user: UserId, senior: bool, approval: ApprovalId, requesterActive: bool)
      returns (ok: bool)
      requires Valid()
      modifies this`tickets, this`sent
      ensures Valid() && State() == ApproveReadStep(old(State()), req, org, user, senior, approval, requesterActive)
      ensures ok ==>
                && req in tickets && tickets[req].approval == approval && tickets[req].user == user
                && TicketFresh(State().books, tickets[req])
      ensures !ok ==> tickets == old(tickets)
      ensures ok <==> senior && requesterActive && approval in approvals && approvals[approval].org == org
                      && approvals[approval].requester != user
    {
      ControlStep(State(), ApproveRead(req, org, user, senior, approval, requesterActive));
      if !senior || approval !in approvals || approvals[approval].org != org || !requesterActive
         || approvals[approval].requester == user
      {
        Answer(None, Refused);
        return false;
      }
      var a := approvals[approval];
      tickets := tickets[req := Ticket(approval, user, senior, a.requester, a.risk, a.intent, org)];
      return true;
    }

    /** The guarded update of one approval row; changed says whether a row matched. */
    method UpdateApproval(org: OrgId, approval: ApprovalId, user: UserId, senior: bool, approved: bool)
      returns (changed: bool)
      modifies this`approvals, this`decisions
      ensures changed <==>
                && approval in old(approvals) && old(approvals)[approval].org == org
                && old(approvals)[approval].status == Pending && old(approvals)[approval].expires > now
      ensures changed ==>
                && approvals == old(approvals)[approval :=
                     old(approvals)[approval].(status := if approved then Approved else Denied, approver := Some(user))]
                && decisions == old(decisions) + [Decision(approval, user, senior, now, approved)]
      ensures var was := old(State());
              State() == if changed then was.(books := Decide(was.books, now, approval, user, senior, approved))
                  else was
    {
      changed := && approval in approvals && approvals[approval].org == org
                 && approvals[approval].status == Pending && approvals[approval].expires > now;
      if changed {
        var status := if approved then Approved else Denied;
        approvals := approvals[approval := approvals[approval].(status := status, approver := Some(user))];
        decisions := decisions + [Decision(approval, user, senior, now, approved)];
      }
    }

    method DecideAndRun(t: Ticket, exec: ExecId) returns (ok: bool)
      modifies this`approvals, this`decisions, this`execs, this`sent
      ensures State() == Approve(old(State()), t, exec)
      ensures ok <==> Approvable(old(State()), t, exec)
    {
      var savedApprovals := approvals;
      ghost var savedDecisions := decisions;
      var changed := UpdateApproval(t.org, t.approval, t.user, t.senior, true);
      if !changed {
        Answer(None, Refused);
        return false;
      }
      if t.intent.command == "" || exec in execs {
        approvals, decisions := savedApprovals, savedDecisions;
        Answer(None, Refused);
        return false;
      }
      execs := execs[exec := ApprovedExec(t)];
      Answer(None, Decided);
      return true;
    }

    /**
      Decision and execution together, or neither. The execution is what the
      approval froze, the approval is a proper one, and no other execution has it.
     */
    method CommitApproval(req: RequestId, exec: ExecId) returns (ok: bool)
      requires Valid() && req in tickets
      modifies this
      ensures Valid() && State() == ApproveCommitStep(old(State()), req, exec)
      ensures var a := old(tickets)[req].approval;
              ok ==>
                && exec !in old(execs) && exec in execs && execs[exec].approval == Some(a)
                && ProperlyApproved(State().books, a) && AsFrozen(execs[exec], approvals[a])
                && forall e | e in execs && e != exec :: execs[e].approval != Some(a)
      ensures !ok ==> approvals == old(approvals) && execs == old(execs)
      ensures var t := old(tickets)[req];
              && (ok <==>
                    && t.approval in old(approvals) && old(approvals)[t.approval].org == t.org
                    && old(approvals)[t.approval].status == Pending && old(approvals)[t.approval].expires > now
                    && t.intent.command != "" && exec !in old(execs))
              && (ok ==>
                    && approvals == old(approvals)[t.approval :=
                         old(approvals)[t.approval].(status := Approved, approver := Some(t.user))]
                    && execs == old(execs)[exec :=
                         Exec(t.org, t.requester, Runbook, if t.intent.env == NoEnv then Development else t.intent.env,
                              t.risk, t.intent.command, t.intent.targets, Some(t.approval))])
    {
      ControlStep(State(), ApproveCommit(req, exec));
      var t := tickets[req];
      tickets := tickets - {req};
      ok := DecideAndRun(t, exec);
      assert ok ==> ExecProper(State().books, execs[exec]);
    }

    method DenyApproval(org: OrgId, user: UserId, senior: bool, approval: ApprovalId, note: string) returns (ok: bool)
      requires Valid()
      modifies this
      ensures Valid() && State() == DenyStep(old(State()), org, user, senior, approval, note)
      ensures ok <==>
                && senior && !Blank(note) && approval in old(approvals) && old(approvals)[approval].org == org
                && old(approvals)[approval].status == Pending && old(approvals)[approval].expires > now
      ensures ok ==>
                && execs == old(execs)
                && approvals == old(approvals)[approval :=
                     old(approvals)[approval].(status := Denied, approver := Some(user))]
      ensures !ok ==> approvals == old(approvals) && execs == old(execs)
    {
      ControlStep(State(), Deny(org, user, senior, approval, note));
      if !senior || Blank(note) {
        Answer(None, Refused);
        return false;
      }
      ok := UpdateApproval(org, approval, user, senior, false);
      Answer(None, if ok then Decided else Refused);
    }

    // ---- The scheduler's executions ----

    /** A scheduled run needs no approval, because it is never sensitive; it adds one execution or nothing. */
    method ExecuteScheduledRun(org: OrgId, automation: UserId, plan: Plan, exec: ExecId) returns (ok: bool)
      requires Valid()
      modifies this`execs
      ensures Valid() && State() == ScheduledStep(old(State()), org, automation, plan, exec)
      ensures ok ==>
                && execs == old(execs)[exec :=
                     Exec(org, automation, Runbook, plan.env, plan.risk, plan.command, plan.targets, None)]
                && !Sensitive(execs[exec])
      ensures !ok ==> execs == old(execs)
      ensures ok <==> !plan.refused && plan.risk != High && plan.risk != Critical && exec !in old(execs)
    {
      ControlStep(State(), Scheduled(org, automation, plan, exec));
      if plan.risk == High || plan.risk == Critical {
        return false;
      }
      if plan.refused || exec in execs {
        return false;
      }
      execs := execs[exec := Exec(org, automation, Runbook, plan.env, plan.risk, plan.command, plan.targets, None)];
      return true;
    }
  }
}
