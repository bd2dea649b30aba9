/**
  Creating executions: runbook runs with their approvals and idempotency keys,
  raw commands with theirs, and scheduled runs. A request that looks a key or an
  approval up and writes later is two steps, so other requests may run between.
 */
module Control {
  import opened Common

  type OrgId = nat
  type UserId = nat
  type ExecId = nat
  type ApprovalId = nat
  type RequestId = nat
  type ServerId = nat
  type Key = nat

  /** Risk labels are compared as they are spelled; OtherRisk is any other label. */
  datatype Risk = Low | Medium | High | Critical | OtherRisk

  datatype Env = NoEnv | Development | Staging | Production | OtherEnv

  /** What an approval request freezes. */
  datatype Intent = Intent(command: string, targets: seq<ServerId>, env: Env)

  datatype ApprovalStatus = Pending | Approved | Denied

  datatype Approval = Approval(
    org: OrgId, requester: UserId, risk: Risk, intent: Intent, expires: int, status: ApprovalStatus,
        approver: Option<UserId>)

  datatype ExecKind = Runbook | RawCommand

  datatype Exec = Exec(
    org: OrgId, actor: UserId, kind: ExecKind, env: Env, risk: Risk, command: string, targets: seq<ServerId>,
    approval: Option<ApprovalId>)

  /** One decision on an approval, as it was taken, and whether its user was senior. */
  datatype Decision = Decision(approval: ApprovalId, user: UserId, senior: bool, at: int, approved: bool)

  datatype Books = Books(approvals: map<ApprovalId, Approval>, execs: map<ExecId, Exec>, decisions: seq<Decision>)

  datatype Table = RunbookKeys | ExecutionKeys

  datatype KeyId = KeyId(table: Table, org: OrgId, key: Key)

  /** The response bodies name what was created. */
  datatype Body = ExecBody(exec: ExecId) | ApprovalBody(approval: ApprovalId)

  /** A request's payload; its hash is modelled by the payload itself. */
  datatype Payload =
    | RunPayload(runbook: nat, target: nat, reason: string, params: nat)
    | CommandPayload(target: nat, command: string, reason: string, delegate: Option<UserId>)

  datatype KeyRow = KeyRow(user: UserId, payload: Payload, body: Body)

  datatype Request = Request(org: OrgId, user: UserId, senior: bool, key: Option<Key>, payload: Payload)

  /** What the handler reads before it writes: whether a check refuses, and the rendered command and its risk. */
  datatype Plan = Plan(
    refused: bool, command: string, risk: Risk, env: Env, targets: seq<ServerId>, ruleNeedsApproval: bool,
        policyAllows: bool)

  /** What an approver's request has read. */
  datatype Ticket = Ticket(
    approval: ApprovalId, user: UserId, senior: bool, requester: UserId, risk: Risk, intent: Intent, org: OrgId)

  datatype Reply = Created(body: Body) | Replayed(body: Body) | Conflict | Refused | Decided

  datatype Sent = Sent(id: Option<KeyId>, reply: Reply)

  datatype Db = Db(
    now: int,
    books: Books,
    keys: map<KeyId, KeyRow>,
    requests: map<RequestId, Request>,
    tickets: map<RequestId, Ticket>,
    sent: seq<Sent>)

  const INIT: Db := Db(0, Books(map[], map[], []), map[], map[], map[], [])

  datatype Step =
    | Tick(seconds: nat)
    | Lookup(req: RequestId, request: Request)
    | Commit(req: RequestId, plan: Plan, exec: ExecId, approval: ApprovalId, lifetime: nat)
    | ApproveRead(req: RequestId, org: OrgId, user: UserId, senior: bool, approval: ApprovalId, requesterActive: bool)
    | ApproveCommit(req: RequestId, exec: ExecId)
    | Deny(org: OrgId, user: UserId, senior: bool, approval: ApprovalId, note: string)
    | Scheduled(org: OrgId, automation: UserId, plan: Plan, exec: ExecId)

  function IdOf(request: Request): Option<KeyId> {
    if request.key.None? then None
    else Some(KeyId(if request.payload.RunPayload? then RunbookKeys else ExecutionKeys, request.org, request.key.value))
  }

  /** The key lookup; None when the caller's own use of the key is not there. */
  function ReplayOf(keys: map<KeyId, KeyRow>, request: Request): Option<Reply> {
    var id := IdOf(request);
    if id.None? || id.value !in keys || keys[id.value].user != request.user then None
    else if keys[id.value].payload != request.payload then Some(Conflict)
    else Some(Replayed(keys[id.value].body))
  }

  function Send(s: Db, id: Option<KeyId>, reply: Reply): Db { s.(sent := s.sent + [Sent(id, reply)]) }

  /** A raw command without a command is refused before its key is looked up. */
  function LookupStep(s: Db, req: RequestId, request: Request): Db {
    var replay := ReplayOf(s.keys, request);
    if request.payload.CommandPayload? && request.payload.command == "" then Send(s, IdOf(request), Refused)
    else if replay.Some? then Send(s, IdOf(request), replay.value)
    else s.(requests := s.requests[req := request])
  }

  predicate NeedsApproval(request: Request, plan: Plan) {
    || plan.ruleNeedsApproval
    || (plan.env == Production && (plan.risk == High || plan.risk == Critical))
    || (plan.risk == High && !request.senior)
  }

  /** The row the transaction inserts, when no check refuses it. */
  datatype Draft = NoDraft | ApprovalDraft(approval: Approval) | ExecDraft(exec: Exec)

  function DraftOf(
      books: Books, now: int, request: Request, plan: Plan, exec: ExecId, approval: ApprovalId, lifetime: nat): Draft
  {
    if plan.refused then NoDraft
    else if request.payload.CommandPayload? then
      if !plan.policyAllows || exec in books.execs then NoDraft
      else
        var command := request.payload.command;
        ExecDraft(Exec(request.org, request.user, RawCommand, plan.env, plan.risk, command, plan.targets, None))
    else if plan.command == "" then NoDraft
    else if NeedsApproval(request, plan) then
      if Blank(request.payload.reason) || approval in books.approvals then NoDraft
      else ApprovalDraft(Approval(request.org, request.user, plan.risk, Intent(plan.command, plan.targets, plan.env),
                                  now + lifetime, Pending, None))
    else if !plan.policyAllows || exec in books.execs then NoDraft
    else ExecDraft(Exec(request.org, request.user, Runbook, plan.env, plan.risk, plan.command, plan.targets, None))
  }

  /** The key row goes in with the resource; a key already in use undoes both, and the key is looked up again. */
  function WithKey(s: Db, books: Books, request: Request, body: Body): Db {
    var id := IdOf(request);
    if id.None? then Send(s.(books := books), None, Created(body))
    else if id.value in s.keys then
      var replay := ReplayOf(s.keys, request);
      Send(s, id, if replay.Some? then replay.value else Conflict)
    else
      var row := KeyRow(request.user, request.payload, body);
      Send(s.(books := books, keys := s.keys[id.value := row]), id, Created(body))
  }

  /** The transaction of one request: the draft's row with the key row, or nothing. */
  function Perform(s: Db, request: Request, plan: Plan, exec: ExecId, approval: ApprovalId, lifetime: nat): Db {
    match DraftOf(s.books, s.now, request, plan, exec, approval, lifetime)
    case NoDraft => Send(s, IdOf(request), Refused)
    case ApprovalDraft(row) =>
      WithKey(s, s.books.(approvals := s.books.approvals[approval := row]), request, ApprovalBody(approval))
    case ExecDraft(row) =>
      WithKey(s, s.books.(execs := s.books.execs[exec := row]), request, ExecBody(exec))
  }

  function CommitStep(s: Db, req: RequestId, plan: Plan, exec: ExecId, approval: ApprovalId, lifetime: nat): Db {
    if req !in s.requests then s
    else Perform(s.(requests := s.requests - {req}), s.requests[req], plan, exec, approval, lifetime)
  }

  predicate MayApprove(
      books: Books, org: OrgId, user: UserId, senior: bool, approval: ApprovalId, requesterActive: bool)
  {
    senior && approval in books.approvals && books.approvals[approval].org == org && requesterActive
    && books.approvals[approval].requester != user
  }

  function ApproveReadStep(
      s: Db, req: RequestId, org: OrgId, user: UserId, senior: bool, approval: ApprovalId, requesterActive: bool): Db
  {
    if !MayApprove(s.books, org, user, senior, approval, requesterActive) then Send(s, None, Refused)
    else
      var a := s.books.approvals[approval];
      s.(tickets := s.tickets[req := Ticket(approval, user, senior, a.requester, a.risk, a.intent, org)])
  }

  /** The guard of both decisions. */
  predicate Decidable(books: Books, now: int, org: OrgId, approval: ApprovalId) {
    && approval in books.approvals && books.approvals[approval].org == org
    && books.approvals[approval].status == Pending && books.approvals[approval].expires > now
  }

  function Decide(books: Books, now: int, approval: ApprovalId, user: UserId, senior: bool, approved: bool): Books
    requires approval in books.approvals
  {
    var row := books.approvals[approval].(status := if approved then Approved else Denied, approver := Some(user));
    books.(approvals := books.approvals[approval := row],
           decisions := books.decisions + [Decision(approval, user, senior, now, approved)])
  }

  function ApprovedExec(t: Ticket): Exec {
    Exec(t.org, t.requester, Runbook, if t.intent.env == NoEnv then Development else t.intent.env,
         t.risk, t.intent.command, t.intent.targets, Some(t.approval))
  }

  /** The approval can still be decided and its execution can be made. */
  predicate Approvable(s: Db, t: Ticket, exec: ExecId) {
    Decidable(s.books, s.now, t.org, t.approval) && t.intent.command != "" && exec !in s.books.execs
  }

  /** Decision and execution are one transaction; if the execution cannot be made, neither happens. */
  function Approve(s: Db, t: Ticket, exec: ExecId): Db {
    if !Approvable(s, t, exec) then Send(s, None, Refused)
    else
      var books := Decide(s.books, s.now, t.approval, t.user, t.senior, true);
      Send(s.(books := books.(execs := books.execs[exec := ApprovedExec(t)])), None, Decided)
  }

  function ApproveCommitStep(s: Db, req: RequestId, exec: ExecId): Db {
    if req !in s.tickets then s else Approve(s.(tickets := s.tickets - {req}), s.tickets[req], exec)
  }

  function DenyStep(s: Db, org: OrgId, user: UserId, senior: bool, approval: ApprovalId, note: string): Db {
    if !senior || Blank(note) || !Decidable(s.books, s.now, org, approval)
    then Send(s, None, Refused)
    else Send(s.(books := Decide(s.books, s.now, approval, user, senior, false)), None, Decided)
  }

  function ScheduledStep(s: Db, org: OrgId, automation: UserId, plan: Plan, exec: ExecId): Db {
    if plan.risk == High || plan.risk == Critical || plan.refused || exec in s.books.execs then s
    else
      var row := Exec(org, automation, Runbook, plan.env, plan.risk, plan.command, plan.targets, None);
      s.(books := s.books.(execs := s.books.execs[exec := row]))
  }

  function After(s: Db, step: Step): Db {
    match step
    case Tick(d) => s.(now := s.now + d)
    case Lookup(req, request) => LookupStep(s, req, request)
    case Commit(req, plan, exec, approval, lifetime) => CommitStep(s, req, plan, exec, approval, lifetime)
    case ApproveRead(req, org, user, senior, approval, active) =>
      ApproveReadStep(s, req, org, user, senior, approval, active)
    case ApproveCommit(req, exec) => ApproveCommitStep(s, req, exec)
    case Deny(org, user, senior, approval, note) => DenyStep(s, org, user, senior, approval, note)
    case Scheduled(org, automation, plan, exec) => ScheduledStep(s, org, automation, plan, exec)
  }

  function Run(s: Db, steps: seq<Step>): Db
    decreases |steps|
  {
    if |steps| == 0 then s else Run(After(s, steps[0]), steps[1..])
  }
}
