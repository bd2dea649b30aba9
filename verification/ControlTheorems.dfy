/** What holds of approvals and idempotency keys over every run of the creation machine. */
module ControlTheorems {
  import opened Common
  import opened Control

  // ---- Approvals ----

  predicate Sensitive(e: Exec) { e.kind == Runbook && e.env == Production && (e.risk == High || e.risk == Critical) }

  /** The execution is what the approval froze when it was asked for. */
  predicate AsFrozen(e: Exec, a: Approval) {
    && e.org == a.org && e.actor == a.requester && e.kind == Runbook && e.risk == a.risk
    && e.command == a.intent.command && e.targets == a.intent.targets
    && e.env == if a.intent.env == NoEnv then Development else a.intent.env
  }

  /** Decision d approved approval a before it expired; a senior user other than the requester took it. */
  predicate Approves(d: Decision, id: ApprovalId, a: Approval) {
    && d.approval == id && d.approved && d.senior && d.at < a.expires && d.user != a.requester
    && a.status == Approved && a.approver == Some(d.user)
  }

  ghost predicate ProperlyApproved(b: Books, id: ApprovalId) {
    id in b.approvals && exists i :: 0 <= i < |b.decisions| && Approves(b.decisions[i], id, b.approvals[id])
  }

  /** An execution needs an approval when sensitive, and deserves the one it names. */
  ghost predicate ExecProper(b: Books, e: Exec) {
    && (Sensitive(e) ==> e.approval.Some?)
    && (e.approval.Some? ==> ProperlyApproved(b, e.approval.value) && AsFrozen(e, b.approvals[e.approval.value]))
  }

  ghost predicate ExecsProper(b: Books) { forall e | e in b.execs :: ExecProper(b, b.execs[e]) }

  ghost predicate OneExecEach(b: Books) {
    forall e, f | e in b.execs && f in b.execs && e != f && b.execs[e].approval.Some? ::
      b.execs[e].approval != b.execs[f].approval
  }

  /** A pending approval has no decision yet, every approval at most one, and senior users take them all. */
  ghost predicate DecisionsOnce(b: Books) {
    && (forall i | 0 <= i < |b.decisions| :: b.decisions[i].senior)
    && (forall i | 0 <= i < |b.decisions| ::
          b.decisions[i].approval in b.approvals && b.approvals[b.decisions[i].approval].status != Pending)
    && (forall i, j | 0 <= i < j < |b.decisions| :: b.decisions[i].approval != b.decisions[j].approval)
  }

  /** A ticket still says what the approval's row says, and its user is senior and did not ask for it. */
  predicate TicketFresh(b: Books, t: Ticket) {
    && t.approval in b.approvals
    && var a := b.approvals[t.approval];
    a.requester == t.requester && a.risk == t.risk && a.intent == t.intent && a.org == t.org
    && t.senior && t.user != t.requester
  }

  ghost predicate BooksInv(b: Books) { ExecsProper(b) && OneExecEach(b) && DecisionsOnce(b) }

  ghost predicate ApprovalInv(s: Db) {
    BooksInv(s.books) && forall r | r in s.tickets :: TicketFresh(s.books, s.tickets[r])
  }

  /** The frozen columns of every approval stay, and a decided approval stays as it is. */
  ghost predicate RowsStay(b: Books, b': Books) {
    && b.decisions <= b'.decisions
    && forall a | a in b.approvals ::
         && a in b'.approvals
         && b'.approvals[a] == b.approvals[a].(status := b'.approvals[a].status, approver := b'.approvals[a].approver)
         && (b.approvals[a].status != Pending ==> b'.approvals[a] == b.approvals[a])
  }

  lemma ProperStays(b: Books, b': Books, e: Exec)
    requires ExecProper(b, e) && RowsStay(b, b')
    ensures ExecProper(b', e)
  {
    if e.approval.Some? {
      var id := e.approval.value;
      var i :| 0 <= i < |b.decisions| && Approves(b.decisions[i], id, b.approvals[id]);
      assert b'.decisions[i] == b.decisions[i];
    }
  }

  lemma InsertExecKeeps(b: Books, exec: ExecId, row: Exec)
    requires BooksInv(b) && exec !in b.execs && row.approval.None? && !Sensitive(row)
    ensures BooksInv(b.(execs := b.execs[exec := row]))
  {
    var b' := b.(execs := b.execs[exec := row]);
    forall e | e in b'.execs ensures ExecProper(b', b'.execs[e]) {
      if e != exec {
        ProperStays(b, b', b.execs[e]);
      }
    }
  }

  lemma InsertApprovalKeeps(b: Books, approval: ApprovalId, row: Approval)
    requires BooksInv(b) && approval !in b.approvals
    ensures BooksInv(b.(approvals := b.approvals[approval := row]))
  {
    var b' := b.(approvals := b.approvals[approval := row]);
    forall e | e in b'.execs ensures ExecProper(b', b'.execs[e]) {
      ProperStays(b, b', b.execs[e]);
    }
  }

  lemma DecideKeeps(
      b: Books, now: int, org: OrgId, approval: ApprovalId, user: UserId, senior: bool, approved: bool)
    requires BooksInv(b) && senior && Decidable(b, now, org, approval)
    ensures BooksInv(Decide(b, now, approval, user, senior, approved))
    ensures RowsStay(b, Decide(b, now, approval, user, senior, approved))
  {
    var b' := Decide(b, now, approval, user, senior, approved);
    forall e | e in b'.execs ensures ExecProper(b', b'.execs[e]) {
      ProperStays(b, b', b.execs[e]);
    }
  }

  /** Approving takes an approval no execution names yet, and makes it one that deserves the new execution. */
  lemma ApproveKeeps(b: Books, now: int, t: Ticket, exec: ExecId)
    requires BooksInv(b) && Decidable(b, now, t.org, t.approval) && TicketFresh(b, t) && exec !in b.execs
    ensures var b1 := Decide(b, now, t.approval, t.user, t.senior, true);
            BooksInv(b1.(execs := b1.execs[exec := ApprovedExec(t)]))
  {
    var b1 := Decide(b, now, t.approval, t.user, t.senior, true);
    DecideKeeps(b, now, t.org, t.approval, t.user, t.senior, true);
    assert Approves(b1.decisions[|b.decisions|], t.approval, b1.approvals[t.approval]);
    assert ExecProper(b1, ApprovedExec(t));
    forall e | e in b.execs ensures b.execs[e].approval != Some(t.approval) {
      assert ExecProper(b, b.execs[e]);
    }
    var b' := b1.(execs := b1.execs[exec := ApprovedExec(t)]);
    forall e | e in b'.execs ensures ExecProper(b', b'.execs[e]) {
      ProperStays(b1, b', b'.execs[e]);
    }
  }

  /** The rows a request may insert: an execution without an approval is not sensitive. */
  lemma DraftIsSafe(b: Books, now: int, request: Request, plan: Plan, exec: ExecId, approval: ApprovalId, lifetime: nat)
    ensures var d := DraftOf(b, now, request, plan, exec, approval, lifetime);
            && (d.ExecDraft? ==> exec !in b.execs && d.exec.approval.None? && !Sensitive(d.exec))
            && (d.ApprovalDraft? ==> approval !in b.approvals && d.approval.status == Pending)
  {
  }

  lemma WithKeyBooks(s: Db, books: Books, request: Request, body: Body)
    ensures var s' := WithKey(s, books, request, body);
            s'.books in {s.books, books} && s'.tickets == s.tickets && s'.now == s.now
  {
  }

  /** Books that keep every row leave every ticket fresh. */
  lemma TicketsStay(s: Db, s': Db)
    requires ApprovalInv(s) && BooksInv(s'.books) && RowsStay(s.books, s'.books)
    requires forall r | r in s'.tickets :: r in s.tickets && s'.tickets[r] == s.tickets[r]
    ensures ApprovalInv(s')
  {
  }

  lemma CommitKeepsApprovals(s: Db, req: RequestId, plan: Plan, exec: ExecId, approval: ApprovalId, lifetime: nat)
    requires ApprovalInv(s)
    ensures ApprovalInv(CommitStep(s, req, plan, exec, approval, lifetime))
    ensures RowsStay(s.books, CommitStep(s, req, plan, exec, approval, lifetime).books)
  {
    var s' := CommitStep(s, req, plan, exec, approval, lifetime);
    if req in s.requests {
      var b, request, s0 := s.books, s.requests[req], s.(requests := s.requests - {req});
      DraftIsSafe(b, s.now, request, plan, exec, approval, lifetime);
      match DraftOf(b, s.now, request, plan, exec, approval, lifetime)
      case NoDraft =>
      case ApprovalDraft(row) =>
        InsertApprovalKeeps(b, approval, row);
        WithKeyBooks(s0, b.(approvals := b.approvals[approval := row]), request, ApprovalBody(approval));
      case ExecDraft(row) =>
        InsertExecKeeps(b, exec, row);
        WithKeyBooks(s0, b.(execs := b.execs[exec := row]), request, ExecBody(exec));
    }
    TicketsStay(s, s');
  }

  lemma ApproveKeepsApprovals(s: Db, req: RequestId, exec: ExecId)
    requires ApprovalInv(s)
    ensures ApprovalInv(ApproveCommitStep(s, req, exec))
    ensures RowsStay(s.books, ApproveCommitStep(s, req, exec).books)
  {
    if req in s.tickets && Decidable(s.books, s.now, s.tickets[req].org, s.tickets[req].approval)
        && exec !in s.books.execs {
      var t := s.tickets[req];
      DecideKeeps(s.books, s.now, t.org, t.approval, t.user, t.senior, true);
      ApproveKeeps(s.books, s.now, s.tickets[req], exec);
    }
    TicketsStay(s, ApproveCommitStep(s, req, exec));
  }

  lemma DenyKeepsApprovals(s: Db, org: OrgId, user: UserId, senior: bool, approval: ApprovalId, note: string)
    requires ApprovalInv(s)
    ensures ApprovalInv(DenyStep(s, org, user, senior, approval, note))
    ensures RowsStay(s.books, DenyStep(s, org, user, senior, approval, note).books)
  {
    if senior && Decidable(s.books, s.now, org, approval) {
      DecideKeeps(s.books, s.now, org, approval, user, senior, false);
    }
    TicketsStay(s, DenyStep(s, org, user, senior, approval, note));
  }

  lemma ScheduledKeepsApprovals(s: Db, org: OrgId, automation: UserId, plan: Plan, exec: ExecId)
    requires ApprovalInv(s)
    ensures ApprovalInv(ScheduledStep(s, org, automation, plan, exec))
    ensures RowsStay(s.books, ScheduledStep(s, org, automation, plan, exec).books)
  {
    if exec !in s.books.execs && plan.risk != High && plan.risk != Critical {
      InsertExecKeeps(s.books, exec,
          Exec(org, automation, Runbook, plan.env, plan.risk, plan.command, plan.targets, None));
    }
    TicketsStay(s, ScheduledStep(s, org, automation, plan, exec));
  }

  lemma ApprovalInvStep(s: Db, step: Step)
    requires ApprovalInv(s)
    ensures ApprovalInv(After(s, step))
    ensures RowsStay(s.books, After(s, step).books)
  {
    match step
    case Tick(d) =>
    case Lookup(req, request) =>
    case Commit(req, plan, exec, approval, lifetime) => CommitKeepsApprovals(s, req, plan, exec, approval, lifetime);
    case ApproveRead(req, org, user, senior, approval, active) =>
    case ApproveCommit(req, exec) => ApproveKeepsApprovals(s, req, exec);
    case Deny(org, user, senior, approval, note) => DenyKeepsApprovals(s, org, user, senior, approval, note);
    case Scheduled(org, automation, plan, exec) => ScheduledKeepsApprovals(s, org, automation, plan, exec);
  }

  /** Over any run: the invariant holds, no decision is taken back, and what an approval froze stays frozen. */
  lemma {:induction false} ApprovalInvRun(s: Db, steps: seq<Step>)
    requires ApprovalInv(s)
    ensures ApprovalInv(Run(s, steps))
    ensures RowsStay(s.books, Run(s, steps).books)
    decreases |steps|
  {
    if |steps| == 0 {
    } else {
      ApprovalInvStep(s, steps[0]);
      ApprovalInvRun(After(s, steps[0]), steps[1..]);
      StayTwice(s.books, After(s, steps[0]).books, Run(s, steps).books);
    }
  }

  lemma StayTwice(b: Books, c: Books, d: Books)
    requires RowsStay(b, c) && RowsStay(c, d)
    ensures RowsStay(b, d)
  {
  }

  /**
    After any run, a runbook execution in production at high or critical risk,
    whichever way it was created, points to a proper approval and carries what
    was frozen; no approval has two executions, and none has two decisions.
   */
  lemma SensitiveRunsAreApproved(steps: seq<Step>)
    ensures var b := Run(INIT, steps).books;
            && (forall e | e in b.execs && (Sensitive(b.execs[e]) || b.execs[e].approval.Some?) ::
                  && b.execs[e].approval.Some?
                  && ProperlyApproved(b, b.execs[e].approval.value)
                  && AsFrozen(b.execs[e], b.approvals[b.execs[e].approval.value]))
            && (forall e, f | e in b.execs && f in b.execs && e != f && b.execs[e].approval.Some? ::
                  b.execs[e].approval != b.execs[f].approval)
            && (forall i, j | 0 <= i < j < |b.decisions| :: b.decisions[i].approval != b.decisions[j].approval)
            && (forall i | 0 <= i < |b.decisions| :: b.decisions[i].senior)
  {
    ApprovalInvRun(INIT, steps);
    var b := Run(INIT, steps).books;
    assert forall e | e in b.execs :: ExecProper(b, b.execs[e]);
  }

  /** What the approval's row says is what is run, however long the decision takes. */
  lemma FrozenSince(s: Db, steps: seq<Step>, a: ApprovalId, e: ExecId)
    requires ApprovalInv(s) && a in s.books.approvals
    requires var b := Run(s, steps).books; e in b.execs && b.execs[e].approval == Some(a)
    ensures AsFrozen(Run(s, steps).books.execs[e], s.books.approvals[a])
  {
    ApprovalInvRun(s, steps);
    assert ExecProper(Run(s, steps).books, Run(s, steps).books.execs[e]);
  }

  // ---- Idempotency keys ----

  predicate Success(reply: Reply) { reply.Created? || reply.Replayed? }

  predicate Extends<K, V(==)>(m: map<K, V>, m': map<K, V>) { forall k | k in m :: k in m' && m'[k] == m[k] }

  predicate There(b: Books, body: Body) {
    match body case ExecBody(e) => e in b.execs case ApprovalBody(a) => a in b.approvals
  }

  /** Every successful answer to a key carries the stored body, and only one of them created anything. */
  ghost predicate SentOk(keys: map<KeyId, KeyRow>, sent: seq<Sent>) {
    && (forall i | 0 <= i < |sent| && sent[i].id.Some? && Success(sent[i].reply) ::
          sent[i].id.value in keys && sent[i].reply.body == keys[sent[i].id.value].body)
    && (forall i, j | 0 <= i < j < |sent| && sent[i].id.Some? && sent[i].id == sent[j].id ::
          !(sent[i].reply.Created? && sent[j].reply.Created?))
  }

  ghost predicate KeyInv(s: Db) {
    SentOk(s.keys, s.sent) && forall id | id in s.keys :: There(s.books, s.keys[id].body)
  }

  /** The answer fits the keys before and after it. */
  predicate Fits(keys: map<KeyId, KeyRow>, keys': map<KeyId, KeyRow>, x: Sent) {
    && Extends(keys, keys')
    && (x.id.Some? && Success(x.reply) ==> x.id.value in keys' && x.reply.body == keys'[x.id.value].body)
    && (x.id.Some? && x.reply.Created? ==> x.id.value !in keys)
  }

  lemma SendOne(keys: map<KeyId, KeyRow>, keys': map<KeyId, KeyRow>, sent: seq<Sent>, x: Sent)
    requires SentOk(keys, sent) && Fits(keys, keys', x)
    ensures SentOk(keys', sent + [x])
  {
    var sent' := sent + [x];
    forall i, j | 0 <= i < j < |sent'| && sent'[i].id.Some? && sent'[i].id == sent'[j].id
      ensures !(sent'[i].reply.Created? && sent'[j].reply.Created?)
    {
      if j == |sent| {
        assert sent'[i] == sent[i];
      }
    }
  }

  /** What a step may do to the books, the keys and the answers. */
  ghost predicate Answers(s: Db, s': Db) {
    && Extends(s.keys, s'.keys)
    && Extends(s.books.execs, s'.books.execs)
    && s.books.approvals.Keys <= s'.books.approvals.Keys
    && (forall id | id in s'.keys && id !in s.keys :: There(s'.books, s'.keys[id].body))
    && ((s'.sent == s.sent && s'.keys == s.keys)
        || (|s'.sent| == |s.sent| + 1 && s'.sent == s.sent + [s'.sent[|s.sent|]]
            && Fits(s.keys, s'.keys, s'.sent[|s.sent|])))
  }

  lemma CommitAnswers(s: Db, req: RequestId, plan: Plan, exec: ExecId, approval: ApprovalId, lifetime: nat)
    ensures Answers(s, CommitStep(s, req, plan, exec, approval, lifetime))
  {
    if req in s.requests {
      var b, request, s0 := s.books, s.requests[req], s.(requests := s.requests - {req});
      DraftIsSafe(b, s.now, request, plan, exec, approval, lifetime);
      match DraftOf(b, s.now, request, plan, exec, approval, lifetime)
      case NoDraft =>
      case ApprovalDraft(row) =>
        WithKeyAnswers(s0, b.(approvals := b.approvals[approval := row]), request, ApprovalBody(approval));
      case ExecDraft(row) =>
        WithKeyAnswers(s0, b.(execs := b.execs[exec := row]), request, ExecBody(exec));
    }
  }

  lemma WithKeyAnswers(s: Db, books: Books, request: Request, body: Body)
    requires Extends(s.books.execs, books.execs) && s.books.approvals.Keys <= books.approvals.Keys && There(books, body)
    ensures Answers(s, WithKey(s, books, request, body))
  {
  }

  lemma StepAnswers(s: Db, step: Step)
    ensures Answers(s, After(s, step))
  {
    match step
    case Lookup(req, request) => LookupAnswers(s, req, request);
    case Commit(req, plan, exec, approval, lifetime) => CommitAnswers(s, req, plan, exec, approval, lifetime);
    case ApproveCommit(req, exec) => ApproveAnswers(s, req, exec);
    case _ =>
  }

  lemma LookupAnswers(s: Db, req: RequestId, request: Request)
    ensures Answers(s, LookupStep(s, req, request))
  {
  }

  lemma ApproveAnswers(s: Db, req: RequestId, exec: ExecId)
    ensures Answers(s, ApproveCommitStep(s, req, exec))
  {
  }

  lemma KeyInvStep(s: Db, s': Db)
    requires KeyInv(s) && Answers(s, s')
    ensures KeyInv(s')
  {
    if s'.sent != s.sent {
      SendOne(s.keys, s'.keys, s.sent, s'.sent[|s.sent|]);
    }
  }

  /** Every step keeps both invariants. */
  lemma ControlStep(s: Db, step: Step)
    requires ApprovalInv(s) && KeyInv(s)
    ensures ApprovalInv(After(s, step)) && KeyInv(After(s, step))
  {
    ApprovalInvStep(s, step);
    StepAnswers(s, step);
    KeyInvStep(s, After(s, step));
  }

  lemma {:induction false} KeyInvRun(s: Db, steps: seq<Step>)
    requires KeyInv(s)
    ensures KeyInv(Run(s, steps)) && Extends(s.keys, Run(s, steps).keys)
    decreases |steps|
  {
    if |steps| == 0 {
    } else {
      StepAnswers(s, steps[0]);
      KeyInvStep(s, After(s, steps[0]));
      KeyInvRun(After(s, steps[0]), steps[1..]);
    }
  }

  /**
    In any run, whatever lookups and inserts interleave: at most one answer to
    a key created something, all successful answers to it carry one body, and
    what they name exists.
   */
  lemma KeysAnswerOnce(steps: seq<Step>, i: nat, j: nat)
    requires var sent := Run(INIT, steps).sent; i < j < |sent| && sent[i].id.Some? && sent[i].id == sent[j].id
    ensures var s := Run(INIT, steps);
            && !(s.sent[i].reply.Created? && s.sent[j].reply.Created?)
            && (Success(s.sent[i].reply) && Success(s.sent[j].reply) ==>
                  s.sent[i].reply.body == s.sent[j].reply.body && There(s.books, s.sent[i].reply.body))
  {
    KeyInvRun(INIT, steps);
  }

  /** A retry by the same user with the same payload is answered with the stored body, at any later time. */
  lemma RetryIsAnswered(s: Db, steps: seq<Step>, req: RequestId, request: Request)
    requires KeyInv(s) && IdOf(request).Some? && IdOf(request).value in s.keys
    requires !(request.payload.CommandPayload? && request.payload.command == "")
    ensures var s' := Run(s, steps);
            var row := s.keys[IdOf(request).value];
            && (row.user == request.user && row.payload == request.payload ==>
                  LookupStep(s', req, request) == Send(s', IdOf(request), Replayed(row.body)))
            && (row.user == request.user && row.payload != request.payload ==>
                  LookupStep(s', req, request) == Send(s', IdOf(request), Conflict))
  {
    KeyInvRun(s, steps);
  }

  lemma WithKeyCreates(s: Db, books: Books, request: Request, body: Body)
    ensures var s' := WithKey(s, books, request, body);
            var id := IdOf(request);
            && |s'.sent| == |s.sent| + 1 && s'.sent[|s.sent|].id == id
            && (s'.sent[|s.sent|].reply.Created? <==> id.None? || id.value !in s.keys)
            && (id.None? || id.value !in s.keys ==> s'.books == books && s'.sent[|s.sent|].reply == Created(body))
            && (id.Some? && id.value in s.keys ==> s'.books == s.books && s'.keys == s.keys)
            && (id.Some? && id.value in s.keys
                && (s.keys[id.value].user != request.user || s.keys[id.value].payload != request.payload) ==>
                  s'.sent[|s.sent|].reply == Conflict)
  {
  }

  /**
    A request changes the books exactly when it is answered Created, and then by
    the one resource the answer names. With a key in use it creates nothing; a
    changed payload or another user is answered Conflict unless refused.
   */
  lemma CreatedExactlyWhenAnswered(s: Db, req: RequestId, plan: Plan, exec: ExecId, approval: ApprovalId, lifetime: nat)
    requires req in s.requests
    ensures var s' := CommitStep(s, req, plan, exec, approval, lifetime);
            && |s'.sent| == |s.sent| + 1
            && var x, id, request := s'.sent[|s.sent|], IdOf(s.requests[req]), s.requests[req];
            && x.id == id
            && (x.reply.Created? <==> s'.books != s.books)
            && (match x.reply
                case Created(ExecBody(e)) =>
                  && e !in s.books.execs && e in s'.books.execs
                  && s'.books == s.books.(execs := s.books.execs[e := s'.books.execs[e]])
                case Created(ApprovalBody(a)) =>
                  && a !in s.books.approvals && a in s'.books.approvals
                  && s'.books == s.books.(approvals := s.books.approvals[a := s'.books.approvals[a]])
                case _ => true)
            && (id.Some? && id.value in s.keys ==>
                  && !x.reply.Created? && s'.keys == s.keys
                  && (s.keys[id.value].user != request.user || s.keys[id.value].payload != request.payload
                      ==> x.reply == Conflict || x.reply == Refused))
  {
    var b, request, s0 := s.books, s.requests[req], s.(requests := s.requests - {req});
    DraftIsSafe(b, s.now, request, plan, exec, approval, lifetime);
    match DraftOf(b, s.now, request, plan, exec, approval, lifetime)
    case NoDraft =>
    case ApprovalDraft(row) =>
      var b' := b.(approvals := b.approvals[approval := row]);
      assert approval in b'.approvals;
      WithKeyCreates(s0, b', request, ApprovalBody(approval));
    case ExecDraft(row) =>
      var b' := b.(execs := b.execs[exec := row]);
      assert exec in b'.execs;
      WithKeyCreates(s0, b', request, ExecBody(exec));
  }

  /** The step creates an execution or an approval under the key. */
  predicate MakesUnder(s: Db, step: Step, id: KeyId) {
    && step.Commit? && step.req in s.requests && IdOf(s.requests[step.req]) == Some(id)
    && After(s, step).books != s.books
  }

  function MadeUnder(s: Db, steps: seq<Step>, id: KeyId): nat
    decreases |steps|
  {
    if |steps| == 0 then 0
    else (if MakesUnder(s, steps[0], id) then 1 else 0) + MadeUnder(After(s, steps[0]), steps[1..], id)
  }

  lemma MakingTakesTheKey(s: Db, step: Step, id: KeyId)
    requires MakesUnder(s, step, id)
    ensures id !in s.keys && id in After(s, step).keys
  {
    CreatedExactlyWhenAnswered(s, step.req, step.plan, step.exec, step.approval, step.lifetime);
    CommitAnswers(s, step.req, step.plan, step.exec, step.approval, step.lifetime);
  }

  lemma {:induction false} MadeWhileFree(s: Db, steps: seq<Step>, id: KeyId)
    ensures MadeUnder(s, steps, id) <= if id in s.keys then 0 else 1
    decreases |steps|
  {
    if |steps| == 0 {
    } else {
      StepAnswers(s, steps[0]);
      if MakesUnder(s, steps[0], id) {
        MakingTakesTheKey(s, steps[0], id);
      }
      MadeWhileFree(After(s, steps[0]), steps[1..], id);
    }
  }

  /** In any run, whatever lookups and inserts interleave, a key makes at most one execution or approval. */
  lemma KeysMakeOnce(steps: seq<Step>, id: KeyId)
    ensures MadeUnder(INIT, steps, id) <= 1
  {
    MadeWhileFree(INIT, steps, id);
  }

  /** What a caller may rely on after the transaction of its request. */
  ghost predicate Answered(was: Db, end: Db, request: Request, exec: ExecId, approval: ApprovalId, reply: Reply) {
    && (reply.Created? <==> end.books != was.books)
    && (reply == Created(ExecBody(exec)) ==>
          exec !in was.books.execs && exec in end.books.execs && !Sensitive(end.books.execs[exec]))
    && (reply == Created(ApprovalBody(approval)) ==>
          && approval !in was.books.approvals && approval in end.books.approvals
          && end.books.approvals[approval].status == Pending)
    && (IdOf(request).Some? ==>
          && (IdOf(request).value in was.keys ==> !reply.Created? && end.keys == was.keys)
          && (reply.Created? ==> IdOf(request).value in end.keys && end.keys[IdOf(request).value].body == reply.body))
  }

  lemma CommitIsAnswered(s: Db, req: RequestId, plan: Plan, exec: ExecId, approval: ApprovalId, lifetime: nat)
    requires req in s.requests
    ensures var s' := CommitStep(s, req, plan, exec, approval, lifetime);
            && |s'.sent| == |s.sent| + 1
            && Answered(s, s', s.requests[req], exec, approval, s'.sent[|s.sent|].reply)
  {
    var b, request, s0 := s.books, s.requests[req], s.(requests := s.requests - {req});
    DraftIsSafe(b, s.now, request, plan, exec, approval, lifetime);
    match DraftOf(b, s.now, request, plan, exec, approval, lifetime)
    case NoDraft =>
    case ApprovalDraft(row) =>
      var b' := b.(approvals := b.approvals[approval := row]);
      assert approval in b'.approvals;
      WithKeyCreates(s0, b', request, ApprovalBody(approval));
      if IdOf(request).Some? && IdOf(request).value !in s.keys {
        WithKeyStores(s0, b', request, ApprovalBody(approval));
      }
    case ExecDraft(row) =>
      var b' := b.(execs := b.execs[exec := row]);
      assert exec in b'.execs;
      WithKeyCreates(s0, b', request, ExecBody(exec));
      if IdOf(request).Some? && IdOf(request).value !in s.keys {
        WithKeyStores(s0, b', request, ExecBody(exec));
      }
  }

  lemma WithKeyStores(s: Db, books: Books, request: Request, body: Body)
    requires IdOf(request).Some? && IdOf(request).value !in s.keys
    ensures WithKey(s, books, request, body).keys
         == s.keys[IdOf(request).value := KeyRow(request.user, request.payload, body)]
  {
  }
}
