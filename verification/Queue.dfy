/**
  The lease-based job queue as a state machine over its tables.

  `Db` holds the rows the handlers read and write. Every transaction, and every
  statement that the handlers run outside a transaction, is one `Step`; `Next`
  gives the state it leaves and the reply it sends. A request that reads first
  and writes later is two steps, so other requests may run in between.
*/
module Queue {
  import opened Common

  type OrgId = nat
  type UserId = nat
  type RunnerId = nat
  type ServerId = nat
  type ExecId = nat
  type TargetId = nat
  type RequestId = nat
  /** Lease names are drawn at random; the model draws them from a counter, so no two are equal. */
  type LeaseId = nat

  const LEASE_SECONDS: nat := 300
  const BACKOFF_CAP: nat := 60
  const DEFAULT_MAX_ATTEMPTS: nat := 3

  datatype TargetStatus = Pending | Running | Succeeded | Failed | DeadLetter | Cancelled

  datatype ExecStatus = ExecCreated | ExecQueued | ExecRunning | ExecSucceeded | ExecFailed | ExecCancelled

  datatype Target = Target(
    org: OrgId, exec: ExecId, server: ServerId, status: TargetStatus,
    runner: Option<RunnerId>, lease: Option<LeaseId>, expires: Option<int>,
    attempt: nat, maxAttempts: nat, nextAttempt: Option<int>)
  {
    predicate Open() { status == Pending || status == Running }
  }

  datatype Exec = Exec(org: OrgId, requester: UserId, status: ExecStatus, requestedAt: int)
  {
    predicate Active() { status == ExecQueued || status == ExecRunning }
  }

  datatype Runner = Runner(org: OrgId, active: bool, allServers: bool, servers: set<ServerId>)

  /** What a runner reports; the payload hash is modelled by the payload itself. */
  datatype Result = Result(
    exec: ExecId, target: TargetId, runner: RunnerId, lease: LeaseId,
    exitCode: int, stdout: string, stderr: string, error: string, duration: int)
  {
    predicate Failure() { exitCode != 0 || error != "" }
  }

  /** The JSON bodies the handlers send. */
  datatype Body =
    | QueuedBody | NoServers | CreateFailed
    | NoJobs | ClaimedByAnother
    | Renewed | LeaseInactive
    | OkBody | RetryBody | PayloadConflict | NotAssigned | NotRunning
    | CancelledBody | NotCancellable | NotPermitted

  datatype Receipt = Receipt(org: OrgId, payload: Result, code: nat, body: Body)

  /** What a claim remembers between its read and its update. */
  datatype Ticket = Ticket(runner: RunnerId, target: TargetId, source: TargetStatus)

  /** One row of the sweep's read. */
  datatype Expired = Expired(target: TargetId, attempt: nat, max: nat)

  datatype Sweep = Sweep(org: OrgId, expired: seq<Expired>)

  datatype Db = Db(
    now: int,
    runners: map<RunnerId, Runner>,
    execs: map<ExecId, Exec>,
    targets: map<TargetId, Target>,
    receipts: map<(TargetId, LeaseId), Receipt>,
    nextLease: LeaseId,
    tickets: map<RequestId, Ticket>,
    sweeps: map<RequestId, Sweep>,
    cancelling: set<ExecId>)

  const INIT: Db := Db(0, map[], map[], map[], map[], 0, map[], map[], {})

  datatype Reply =
    | Reply(code: nat, body: Body)
    | Job(target: TargetId, exec: ExecId, lease: LeaseId, runner: RunnerId, expires: int)
    | Silent

  datatype Step =
    | Tick(seconds: nat)
    | SetRunner(id: RunnerId, row: Runner)
    | Create(exec: ExecId, org: OrgId, user: UserId, ids: seq<TargetId>, servers: seq<ServerId>)
    | ClaimRead(req: RequestId, runner: RunnerId, filter: Option<TargetId>, answer: Option<TargetId>)
    | ClaimCommit(req: RequestId)
    | Renew(exec: ExecId, target: TargetId, runner: RunnerId, lease: LeaseId)
    | Submit(org: OrgId, result: Result)
    | Reconcile(org: OrgId)
    | Cancel(exec: ExecId, org: OrgId, user: UserId, manager: bool)
    // The same work as Cancel and Reconcile, statement by statement.
    | CancelExec(exec: ExecId, org: OrgId, user: UserId, manager: bool)
    | CancelTargets(exec: ExecId)
    | SweepRead(req: RequestId, org: OrgId, rows: seq<Expired>)
    | SweepApply(req: RequestId)
    | SweepFinish(req: RequestId)

  /** The steps that leave the sweep and the cancel request whole. */
  predicate Transactional(step: Step) {
    !step.CancelExec? && !step.CancelTargets? && !step.SweepRead? && !step.SweepApply? && !step.SweepFinish?
  }

  /** The steps a sweep outside a transaction does not write with; the split cancel is among them. */
  predicate Unswept(step: Step) { !step.SweepApply? && !step.SweepFinish? }

  // ---- Creating an execution ----

  function NewTarget(exec: ExecId, org: OrgId, server: ServerId): Target {
    Target(org, exec, server, Pending, None, None, None, 0, DEFAULT_MAX_ATTEMPTS, None)
  }

  function NewTargets(
      exec: ExecId, org: OrgId, ids: seq<TargetId>, servers: seq<ServerId>): (rows: map<TargetId, Target>)
    requires |ids| == |servers|
    ensures forall t :: t in rows <==> t in ids
    ensures forall t | t in rows :: rows[t] == NewTarget(exec, org, rows[t].server)
  {
    if |ids| == 0 then map[]
    else
      var n := |ids| - 1;
      NewTargets(exec, org, ids[..n], servers[..n])[ids[n] := NewTarget(exec, org, servers[n])]
  }

  /** The keys the insert statements must not collide with: the row ids, and one row for each server. */
  predicate Insertable(s: Db, exec: ExecId, ids: seq<TargetId>, servers: seq<ServerId>) {
    && |ids| == |servers|
    && exec !in s.execs
    && Distinct(ids) && Distinct(servers)
    && (forall i | 0 <= i < |ids| :: ids[i] !in s.targets)
  }

  function CreateStep(
      s: Db, exec: ExecId, org: OrgId, user: UserId, ids: seq<TargetId>, servers: seq<ServerId>): (Db, Reply)
  {
    if |servers| == 0 then (s, Reply(400, NoServers))
    else if !Insertable(s, exec, ids, servers) then (s, Reply(500, CreateFailed))
    else
      (s.(execs := s.execs[exec := Exec(org, user, ExecQueued, s.now)],
          targets := s.targets + NewTargets(exec, org, ids, servers)),
       Reply(201, QueuedBody))
  }

  // ---- Claiming ----

  /** The time condition shared by the claim's query and its guarded update. */
  predicate Due(row: Target, now: int) {
    || (row.status == Pending && (row.nextAttempt.None? || row.nextAttempt.value <= now))
    || (row.status == Running && row.expires.Some? && row.expires.value <= now)
  }

  predicate InScope(r: Runner, org: OrgId, server: ServerId) {
    r.org == org && r.active && (r.allServers || server in r.servers)
  }

  /** The WHERE clause of the claim's query. */
  predicate Eligible(s: Db, runner: RunnerId, filter: Option<TargetId>, t: TargetId) {
    && runner in s.runners
    && t in s.targets
    && (filter.None? || filter.value == t)
    && var row := s.targets[t];
    && row.exec in s.execs
    && s.execs[row.exec].Active()
    && s.execs[row.exec].org == s.runners[runner].org
    && Due(row, s.now)
    && row.attempt < row.maxAttempts
    && InScope(s.runners[runner], s.runners[runner].org, row.server)
  }

  /** What the database may answer to the claim's query: an oldest eligible row, or none when there is none. */
  predicate LegalAnswer(s: Db, runner: RunnerId, filter: Option<TargetId>, answer: Option<TargetId>) {
    match answer
    case None => forall t | t in s.targets :: !Eligible(s, runner, filter, t)
    case Some(t) =>
      && Eligible(s, runner, filter, t)
      && forall u | u in s.targets && Eligible(s, runner, filter, u) ::
           s.execs[s.targets[t].exec].requestedAt <= s.execs[s.targets[u].exec].requestedAt
  }

  function ClaimReadStep(
      s: Db, req: RequestId, runner: RunnerId, filter: Option<TargetId>, answer: Option<TargetId>): (Db, Reply)
  {
    if !LegalAnswer(s, runner, filter, answer) then (s, Silent)
    else if answer.None? then (s, Reply(404, NoJobs))
    else (s.(tickets := s.tickets[req := Ticket(runner, answer.value, s.targets[answer.value].status)]), Silent)
  }

  /** The row a successful claim leaves. */
  function Leased(row: Target, runner: RunnerId, lease: LeaseId, now: int): Target {
    row.(status := Running, runner := Some(runner), lease := Some(lease),
         expires := Some(now + LEASE_SECONDS), attempt := row.attempt + 1)
  }

  /** The guard of the claim's update; it does not look at the execution. */
  predicate ClaimGuard(row: Target, source: TargetStatus, now: int) {
    row.status == source && row.attempt < row.maxAttempts && Due(row, now)
  }

  function ClaimCommitStep(s: Db, req: RequestId): (Db, Reply) {
    if req !in s.tickets then (s, Silent)
    else
      var ticket := s.tickets[req];
      var s0 := s.(tickets := s.tickets - {req});
      if ticket.target !in s.targets || !ClaimGuard(s.targets[ticket.target], ticket.source, s.now)
      then (s0, Reply(409, ClaimedByAnother))
      else
        var row := s.targets[ticket.target];
        (s0.(targets := s.targets[ticket.target := Leased(row, ticket.runner, s.nextLease, s.now)],
             execs := Started(s.execs, row.exec),
             nextLease := s.nextLease + 1),
         Job(ticket.target, row.exec, s.nextLease, ticket.runner, s.now + LEASE_SECONDS))
  }

  /** The claim's second update: a queued or running execution becomes running; no row is also accepted. */
  function Started(execs: map<ExecId, Exec>, e: ExecId): map<ExecId, Exec> {
    if e in execs && execs[e].Active() then execs[e := execs[e].(status := ExecRunning)] else execs
  }

  // ---- Renewing ----

  predicate HeldBy(row: Target, exec: ExecId, runner: RunnerId, lease: LeaseId) {
    row.exec == exec && row.runner == Some(runner) && row.lease == Some(lease) && row.status == Running
  }

  function RenewStep(s: Db, exec: ExecId, target: TargetId, runner: RunnerId, lease: LeaseId): (Db, Reply) {
    if target in s.targets && HeldBy(s.targets[target], exec, runner, lease) then
      (s.(targets := s.targets[target := s.targets[target].(expires := Some(s.now + LEASE_SECONDS))]),
          Reply(200, Renewed))
    else (s, Reply(409, LeaseInactive))
  }

  // ---- Recording a result ----

  /** min(60, 2^(attempt-1)) seconds from the second attempt on, and one second before that. */
  function Backoff(attempt: int): nat {
    if attempt <= 1 then 1 else Min(BACKOFF_CAP, Pow2(attempt - 1))
  }

  function Retried(row: Target, now: int): Target {
    row.(status := Pending, runner := None, lease := None, expires := None,
        nextAttempt := Some(now + Backoff(row.attempt)))
  }

  /** The row an accepted result leaves: retried while attempts are left, and terminal otherwise. */
  function Finished(row: Target, r: Result, now: int): Target {
    if !r.Failure() then row.(status := Succeeded, expires := None)
    else if row.attempt < row.maxAttempts then Retried(row, now)
    else row.(status := DeadLetter, expires := None)
  }

  predicate HasOpen(targets: map<TargetId, Target>, e: ExecId) {
    exists t :: t in targets && targets[t].exec == e && targets[t].Open()
  }

  predicate HasFailed(targets: map<TargetId, Target>, e: ExecId) {
    exists t :: t in targets && targets[t].exec == e && (targets[t].status == Failed || targets[t].status == DeadLetter)
  }

  predicate SubmitAllowed(s: Db, org: OrgId, r: Result) {
    && r.target in s.targets
    && HeldBy(s.targets[r.target], r.exec, r.runner, r.lease)
    && r.exec in s.execs && s.execs[r.exec].org == org
    && r.runner in s.runners && s.runners[r.runner].org == org
  }

  function Recorded(
      s: Db, org: OrgId, r: Result, targets: map<TargetId, Target>, execs: map<ExecId, Exec>, body: Body): (Db, Reply)
  {
    (s.(targets := targets, execs := execs, receipts := s.receipts[(r.target, r.lease) := Receipt(org, r, 200, body)]),
     Reply(200, body))
  }

  function SubmitStep(s: Db, org: OrgId, r: Result): (Db, Reply) {
    if (r.target, r.lease) in s.receipts then
      var receipt := s.receipts[(r.target, r.lease)];
      if receipt.payload == r then (s, Reply(receipt.code, receipt.body))
      else (s, Reply(409, PayloadConflict))
    else if !SubmitAllowed(s, org, r) then (s, Reply(409, NotAssigned))
    else
      var row := Finished(s.targets[r.target], r, s.now);
      var targets := s.targets[r.target := row];
      var body := if row.status == Pending then RetryBody else OkBody;
      if HasOpen(targets, r.exec) then Recorded(s, org, r, targets, s.execs, body)
      else if s.execs[r.exec].status != ExecRunning then (s, Reply(409, NotRunning))
      else
        var final := if HasFailed(targets, r.exec) then ExecFailed else ExecSucceeded;
        Recorded(s, org, r, targets, s.execs[r.exec := s.execs[r.exec].(status := final)], body)
  }

  // ---- Reconciling expired leases ----

  /** The WHERE clause of the reconcile query. */
  predicate Lapsed(s: Db, org: OrgId, t: TargetId) {
    && t in s.targets
    && var row := s.targets[t];
    && row.org == org
    && row.exec in s.execs && s.execs[row.exec].org == org && s.execs[row.exec].Active()
    && row.status == Running
    && row.expires.Some? && row.expires.value <= s.now
  }

  /** The row the reconcile updates leave, given the attempt counters that were read. */
  function Reclaimed(row: Target, attempt: nat, max: nat, now: int): Target {
    if row.status != Running then row
    else if attempt >= max then row.(status := DeadLetter, runner := None, lease := None, expires := None)
    else row.(status := Pending, runner := None, lease := None, expires := None,
        nextAttempt := Some(now + Backoff(attempt)))
  }

  function ReconciledTargets(s: Db, org: OrgId): (m: map<TargetId, Target>)
    ensures m.Keys == s.targets.Keys
  {
    map t | t in s.targets ::
      if Lapsed(s, org, t) then Reclaimed(s.targets[t], s.targets[t].attempt, s.targets[t].maxAttempts, s.now)
      else s.targets[t]
  }

  /** The finalising update: an active execution with no open target and a failed one has failed. */
  function FinalisedExecs(execs: map<ExecId, Exec>, targets: map<TargetId, Target>, org: OrgId): (m: map<ExecId, Exec>)
    ensures m.Keys == execs.Keys
  {
    map e | e in execs ::
      if execs[e].org == org && execs[e].Active() && !HasOpen(targets, e) && HasFailed(targets, e)
      then execs[e].(status := ExecFailed) else execs[e]
  }

  function ReconcileStep(s: Db, org: OrgId): (Db, Reply) {
    var targets := ReconciledTargets(s, org);
    (s.(targets := targets, execs := FinalisedExecs(s.execs, targets, org)), Silent)
  }

  /** What the sweep's read may return: each lapsed row once, with its counters. */
  ghost predicate SweepRows(s: Db, org: OrgId, rows: seq<Expired>) {
    && (forall i | 0 <= i < |rows| ::
          Lapsed(s, org, rows[i].target)
          && rows[i].attempt == s.targets[rows[i].target].attempt
              && rows[i].max == s.targets[rows[i].target].maxAttempts)
    && (forall i, j | 0 <= i < j < |rows| :: rows[i].target != rows[j].target)
    && (forall t :: Lapsed(s, org, t) ==> exists i :: 0 <= i < |rows| && rows[i].target == t)
  }

  ghost function SweepReadStep(s: Db, req: RequestId, org: OrgId, rows: seq<Expired>): (Db, Reply) {
    if SweepRows(s, org, rows) then (s.(sweeps := s.sweeps[req := Sweep(org, rows)]), Silent) else (s, Silent)
  }

  /** One update of the sweep, for the first row still to do; it is guarded only by the row being running. */
  function SweepApplyStep(s: Db, req: RequestId): (Db, Reply) {
    if req !in s.sweeps || |s.sweeps[req].expired| == 0 then (s, Silent)
    else
      var sweep := s.sweeps[req];
      var x := sweep.expired[0];
      var s0 := s.(sweeps := s.sweeps[req := sweep.(expired := sweep.expired[1..])]);
      if x.target !in s.targets then (s0, Silent)
      else (s0.(targets := s.targets[x.target := Reclaimed(s.targets[x.target], x.attempt, x.max, s.now)]), Silent)
  }

  function SweepFinishStep(s: Db, req: RequestId): (Db, Reply) {
    if req !in s.sweeps || |s.sweeps[req].expired| != 0 then (s, Silent)
    else (s.(sweeps := s.sweeps - {req}, execs := FinalisedExecs(s.execs, s.targets, s.sweeps[req].org)), Silent)
  }

  // ---- Cancelling ----

  /** None when the cancel may go ahead, and otherwise the refusal. */
  function CancelRefusal(s: Db, exec: ExecId, org: OrgId, user: UserId, manager: bool): Option<Reply> {
    if !(exec in s.execs && s.execs[exec].org == org
        && (s.execs[exec].status == ExecCreated || s.execs[exec].status == ExecQueued))
    then Some(Reply(400, NotCancellable))
    else if user != s.execs[exec].requester && !manager
    then Some(Reply(403, NotPermitted))
    else None
  }

  function CancelledTargets(targets: map<TargetId, Target>, e: ExecId): (m: map<TargetId, Target>)
    ensures m.Keys == targets.Keys
  {
    map t | t in targets :: if targets[t].exec == e then targets[t].(status := Cancelled) else targets[t]
  }

  function CancelExecStep(s: Db, exec: ExecId, org: OrgId, user: UserId, manager: bool): (Db, Reply) {
    var refusal := CancelRefusal(s, exec, org, user, manager);
    if refusal.Some? then (s, refusal.value)
    else (s.(execs := s.execs[exec := s.execs[exec].(status := ExecCancelled)], cancelling := s.cancelling + {exec}),
        Silent)
  }

  function CancelTargetsStep(s: Db, exec: ExecId): (Db, Reply) {
    if exec !in s.cancelling then (s, Silent)
    else (s.(targets := CancelledTargets(s.targets, exec), cancelling := s.cancelling - {exec}),
        Reply(200, CancelledBody))
  }

  function CancelStep(s: Db, exec: ExecId, org: OrgId, user: UserId, manager: bool): (Db, Reply) {
    var refusal := CancelRefusal(s, exec, org, user, manager);
    if refusal.Some? then (s, refusal.value)
    else
      (s.(execs := s.execs[exec := s.execs[exec].(status := ExecCancelled)],
          targets := CancelledTargets(s.targets, exec)),
       Reply(200, CancelledBody))
  }

  // ---- Runs ----

  ghost function Next(s: Db, step: Step): (Db, Reply) {
    match step
    case Tick(d) => (s.(now := s.now + d), Silent)
    case SetRunner(id, row) => (s.(runners := s.runners[id := row]), Silent)
    case Create(exec, org, user, ids, servers) => CreateStep(s, exec, org, user, ids, servers)
    case ClaimRead(req, runner, filter, answer) => ClaimReadStep(s, req, runner, filter, answer)
    case ClaimCommit(req) => ClaimCommitStep(s, req)
    case Renew(exec, target, runner, lease) => RenewStep(s, exec, target, runner, lease)
    case Submit(org, result) => SubmitStep(s, org, result)
    case Reconcile(org) => ReconcileStep(s, org)
    case Cancel(exec, org, user, manager) => CancelStep(s, exec, org, user, manager)
    case CancelExec(exec, org, user, manager) => CancelExecStep(s, exec, org, user, manager)
    case CancelTargets(exec) => CancelTargetsStep(s, exec)
    case SweepRead(req, org, rows) => SweepReadStep(s, req, org, rows)
    case SweepApply(req) => SweepApplyStep(s, req)
    case SweepFinish(req) => SweepFinishStep(s, req)
  }

  ghost function After(s: Db, step: Step): Db { Next(s, step).0 }

  ghost function ReplyTo(s: Db, step: Step): Reply { Next(s, step).1 }

  ghost function Run(s: Db, steps: seq<Step>): Db
    decreases |steps|
  {
    if |steps| == 0 then s else Run(After(s, steps[0]), steps[1..])
  }

  ghost predicate AllUnswept(steps: seq<Step>) { forall i | 0 <= i < |steps| :: Unswept(steps[i]) }

  ghost predicate AllTransactional(steps: seq<Step>) { forall i | 0 <= i < |steps| :: Transactional(steps[i]) }
}
