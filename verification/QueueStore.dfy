/**
  The handlers themselves: each method is one transaction (or one statement of
  the sweep) over the store's tables, working on copies until it commits. Each
  takes the step of module Queue that its contract names, and keeps the invariants.
 */
module QueueStore {
  import opened Common
  import opened Queue
  import opened QueueInvariant
  import opened QueueAgreement
  import opened QueueTheorems
  import opened QueueReplies

  /** The reconcile updates for the rows read, one after another. */
  function ApplyRows(targets: map<TargetId, Target>, rows: seq<Expired>, now: int): (m: map<TargetId, Target>)
    ensures m.Keys == targets.Keys
  {
    if |rows| == 0 then targets
    else
      var before := ApplyRows(targets, rows[..|rows| - 1], now);
      var x := rows[|rows| - 1];
      if x.target in before then before[x.target := Reclaimed(before[x.target], x.attempt, x.max, now)] else before
  }

  lemma {:induction false} ApplyRowsAt(targets: map<TargetId, Target>, rows: seq<Expired>, now: int, t: TargetId)
    requires forall i, j | 0 <= i < j < |rows| :: rows[i].target != rows[j].target
    requires t in targets
    ensures forall i | 0 <= i < |rows| && rows[i].target == t ::
              ApplyRows(targets, rows, now)[t] == Reclaimed(targets[t], rows[i].attempt, rows[i].max, now)
    ensures (forall i | 0 <= i < |rows| :: rows[i].target != t) ==> ApplyRows(targets, rows, now)[t] == targets[t]
  {
    if |rows| == 0 {
    } else {
      var init := rows[..|rows| - 1];
      ApplyRowsAt(targets, init, now, t);
      assert forall i | 0 <= i < |init| :: init[i] == rows[i];
    }
  }

  /** Updating the rows read, one after another, is the reconcile of all lapsed rows at once. */
  lemma ApplyRowsIsReconcile(s: Db, org: OrgId, rows: seq<Expired>)
    requires SweepRows(s, org, rows)
    ensures ApplyRows(s.targets, rows, s.now) == ReconciledTargets(s, org)
  {
    forall t | t in s.targets
      ensures ApplyRows(s.targets, rows, s.now)[t] == ReconciledTargets(s, org)[t]
    {
      ApplyRowsAt(s.targets, rows, s.now, t);
      if Lapsed(s, org, t) {
        var i :| 0 <= i < |rows| && rows[i].target == t;
      } else {
        assert forall i | 0 <= i < |rows| :: rows[i].target != t;
      }
    }
  }

  method RetryBackoffSeconds(attempt: int) returns (seconds: nat)
    ensures seconds == Backoff(attempt)
  {
    var backoff := 1;
    var i := 1;
    while i < attempt && backoff < 60
      invariant 1 <= i && (attempt <= 1 ==> i == 1) && (attempt >= 1 ==> i <= attempt)
      invariant backoff == Pow2(i - 1)
      decreases attempt - i
    {
      backoff := backoff * 2;
      i := i + 1;
    }
    if attempt > 1 {
      Pow2Mono(i - 1, attempt - 1);
    }
    if backoff > 60 {
      return 60;
    }
    return backoff;
  }

  /** A count of rows is zero exactly when there is no such row. */
  lemma CountedOpen(rows: map<TargetId, Target>, e: ExecId, open: set<TargetId>)
    requires open == set t | t in rows && rows[t].exec == e && rows[t].Open()
    ensures |open| == 0 <==> !HasOpen(rows, e)
  {
    if t :| t in rows && rows[t].exec == e && rows[t].Open() {
      assert t in open;
    } else {
      assert open == {};
    }
  }

  lemma CountedFailed(rows: map<TargetId, Target>, e: ExecId, failed: set<TargetId>)
    requires failed == set t | t in rows && rows[t].exec == e
              && (rows[t].status == Failed || rows[t].status == DeadLetter)
    ensures |failed| > 0 <==> HasFailed(rows, e)
  {
    if t :| t in rows && rows[t].exec == e && (rows[t].status == Failed || rows[t].status == DeadLetter) {
      assert t in failed;
    } else {
      assert failed == {};
    }
  }

  lemma NewTargetsPrefix(exec: ExecId, org: OrgId, ids: seq<TargetId>, servers: seq<ServerId>, i: nat)
    requires i < |ids| == |servers|
    ensures NewTargets(exec, org, ids[..i + 1], servers[..i + 1])
         == NewTargets(exec, org, ids[..i], servers[..i])[ids[i] := NewTarget(exec, org, servers[i])]
  {
    assert ids[..i + 1][..i] == ids[..i] && servers[..i + 1][..i] == servers[..i];
  }

  predicate Unused(targets: map<TargetId, Target>, ids: seq<TargetId>) {
    forall i | 0 <= i < |ids| :: ids[i] !in targets
  }

  /** The first n rows can all be inserted. */
  predicate Fresh(existing: map<TargetId, Target>, ids: seq<TargetId>, servers: seq<ServerId>, n: nat)
    requires n <= |ids| == |servers|
  {
    Distinct(ids[..n]) && Distinct(servers[..n]) && Unused(existing, ids[..n])
  }

  lemma FreshStep(existing: map<TargetId, Target>, ids: seq<TargetId>, servers: seq<ServerId>, i: nat)
    requires i < |ids| == |servers| && Fresh(existing, ids, servers, i)
    ensures Fresh(existing, ids, servers, i + 1) <==>
              ids[i] !in existing && ids[i] !in ids[..i] && servers[i] !in servers[..i]
  {
    DistinctStep(ids, i);
    DistinctStep(servers, i);
    assert forall j | 0 <= j < i :: ids[..i + 1][j] == ids[..i][j];
    assert ids[..i + 1][i] == ids[i];
  }

  lemma DistinctStep(s: seq<nat>, i: nat)
    requires i < |s| && Distinct(s[..i])
    ensures Distinct(s[..i + 1]) <==> s[i] !in s[..i]
  {
    assert forall j | 0 <= j < i :: s[..i + 1][j] == s[..i][j] == s[j];
  }

  lemma FreshPrefix(existing: map<TargetId, Target>, ids: seq<TargetId>, servers: seq<ServerId>, n: nat)
    requires n <= |ids| == |servers|
    ensures Fresh(existing, ids, servers, |ids|) ==> Fresh(existing, ids, servers, n)
  {
    assert ids[..|ids|] == ids && servers[..|servers|] == servers;
  }

  /** The insert loop; None when an insert meets a row id, or a server of this execution, that is already there. */
  method InsertTargets(
      existing: map<TargetId, Target>, exec: ExecId, org: OrgId, ids: seq<TargetId>, servers: seq<ServerId>)
    returns (rows: Option<map<TargetId, Target>>)
    requires |ids| == |servers|
    ensures rows == if Distinct(ids) && Distinct(servers) && Unused(existing, ids)
                    then Some(NewTargets(exec, org, ids, servers)) else None
  {
    assert ids[..|ids|] == ids && servers[..|servers|] == servers;
    var inserted: map<TargetId, Target> := map[];
    var i := 0;
    while i < |servers|
      invariant 0 <= i <= |servers|
      invariant inserted == NewTargets(exec, org, ids[..i], servers[..i])
      invariant Fresh(existing, ids, servers, i)
    {
      NewTargetsPrefix(exec, org, ids, servers, i);
      FreshStep(existing, ids, servers, i);
      FreshPrefix(existing, ids, servers, i + 1);
      if ids[i] in existing || ids[i] in inserted || servers[i] in servers[..i] {
        return None;
      }
      inserted := inserted[ids[i] := NewTarget(exec, org, servers[i])];
      i := i + 1;
    }
    return Some(inserted);
  }

  /** A transaction keeps what always holds, and the whole invariant. */
  ghost predicate Keeps(s: Db, s': Db) { Base(s') && Coherence(s') && (Inv(s) ==> Inv(s')) }

  lemma KeptKeeps(s: Db, s': Db)
    requires Kept(s, s')
    ensures Keeps(s, s')
  {
    if Inv(s) {
      KeptInv(s, s');
    }
  }

  /** A job reply's lease is new, and holds until the time the reply names. */
  lemma CommitMeans(s: Db, req: RequestId)
    requires Base(s) && Coherence(s)
    ensures var (s', reply) := ClaimCommitStep(s, req);
            && Keeps(s, s')
            && (reply.Job? ==>
                  && Holds(s', reply.target, reply.runner, reply.lease, s.now + LEASE_SECONDS)
                  && forall t | t in s.targets :: s.targets[t].lease != Some(reply.lease))
            && (!reply.Job? ==> s'.targets == s.targets && s'.execs == s.execs)
  {
    ClaimKeeps(s, req);
    KeptKeeps(s, ClaimCommitStep(s, req).0);
    assert forall t | t in s.targets :: RowOk(s, s.targets[t]);
  }

  /** A renewed lease is held for its time again. */
  lemma RenewMeans(s: Db, exec: ExecId, target: TargetId, runner: RunnerId, lease: LeaseId)
    requires Base(s) && Coherence(s)
    ensures var (s', reply) := RenewStep(s, exec, target, runner, lease);
            && Keeps(s, s')
            && (reply == Reply(200, Renewed) ==> Holds(s', target, runner, lease, s.now + LEASE_SECONDS))
  {
    RenewKeeps(s, exec, target, runner, lease);
    KeptKeeps(s, RenewStep(s, exec, target, runner, lease).0);
  }

  lemma SubmitMeans(s: Db, org: OrgId, r: Result)
    requires Base(s) && Coherence(s)
    ensures var (s', reply) := SubmitStep(s, org, r);
            && Keeps(s, s')
            && reply.Reply?
            && (reply.code == 200 ==> HasReceipt(s', r, reply))
            && (reply.code != 200 ==> s' == s)
  {
    SubmitKeeps(s, org, r);
    KeptKeeps(s, SubmitStep(s, org, r).0);
  }

  /** A reconcile leaves no expired lease of the organisation, and no failed execution that still counts as active. */
  lemma NothingLapsed(s: Db, org: OrgId)
    ensures var s' := ReconcileStep(s, org).0;
            && (forall t | t in s'.targets :: !Lapsed(s', org, t))
            && (forall e | e in s'.execs && s'.execs[e].org == org && s'.execs[e].Active() ::
                  HasOpen(s'.targets, e) || !HasFailed(s'.targets, e))
  {
  }

  /** The two updates of a cancel, one directly after the other, are the whole cancel; the first leaves it half done. */
  lemma CancelMeans(s: Db, exec: ExecId, org: OrgId, user: UserId, manager: bool)
    requires Base(s) && Coherence(s)
    ensures var (s1, refusal) := CancelExecStep(s, exec, org, user, manager);
            if refusal != Silent then s1 == s && refusal == CancelStep(s, exec, org, user, manager).1
            else
              && exec in s1.cancelling && s1.targets == s.targets
              && exec in s1.execs && s1.execs[exec].status == ExecCancelled
              && Keeps(s, s1) && Keeps(s, CancelTargetsStep(s1, exec).0)
              && CancelTargetsStep(s1, exec).0 == CancelStep(s, exec, org, user, manager).0
  {
    var s1 := CancelExecStep(s, exec, org, user, manager).0;
    CancelExecKeeps(s, exec, org, user, manager);
    KeptKeeps(s, s1);
    if CancelRefusal(s, exec, org, user, manager).None? {
      CancelKeeps(s, exec, org, user, manager);
      KeptKeeps(s, CancelStep(s, exec, org, user, manager).0);
      TwoUpdates(s, exec, org, user, manager);
    }
  }

  lemma TwoUpdates(s: Db, exec: ExecId, org: OrgId, user: UserId, manager: bool)
    requires Coherence(s) && CancelRefusal(s, exec, org, user, manager).None?
    ensures CancelTargetsStep(CancelExecStep(s, exec, org, user, manager).0, exec).0
         == CancelStep(s, exec, org, user, manager).0
  {
    assert CoheresAt(s, exec);
    assert s.cancelling + {exec} - {exec} == s.cancelling;
  }

  class JobStore {
    var now: int
    var runners: map<RunnerId, Runner>
    var execs: map<ExecId, Exec>
    var targets: map<TargetId, Target>
    var receipts: map<(TargetId, LeaseId), Receipt>
    var nextLease: LeaseId
    var tickets: map<RequestId, Ticket>
    var sweeps: map<RequestId, Sweep>
    var cancelling: set<ExecId>

    ghost function State(): Db
      reads this
    {
      Db(now, runners, execs, targets, receipts, nextLease, tickets, sweeps, cancelling)
    }

    /** Every row's shape, and executions that cohere with their targets; every statement keeps it, the sweep's too. */
    ghost predicate Valid()
      reads this
    {
      Base(State()) && Coherence(State())
    }

    /** Executions agree with their targets and waiting rows have attempts; every transaction keeps it. */
    ghost predicate Agreeing()
      reads this
    {
      Inv(State())
    }

    constructor ()
      ensures Valid() && Agreeing() && State() == INIT
    {
      now, nextLease := 0, 0;
      runners, execs, targets, receipts := map[], map[], map[], map[];
      tickets, sweeps, cancelling := map[], map[], {};
    }

    method CreateExecution(exec: ExecId, org: OrgId, user: UserId, ids: seq<TargetId>, servers: seq<ServerId>)
      returns (reply: Reply)
      requires Valid() && |ids| == |servers|
      modifies this`execs, this`targets
      ensures Valid() && (old(Agreeing()) ==> Agreeing())
      ensures (State(), reply) == CreateStep(old(State()), exec, org, user, ids, servers)
      ensures Creates(old(State()), State(), exec, org, user, ids, servers, reply)
    {
      CreationMeans(State(), exec, org, user, ids, servers);
      CreateKeeps(State(), exec, org, user, ids, servers);
      KeptKeeps(State(), CreateStep(State(), exec, org, user, ids, servers).0);
      reply := InsertExecution(exec, org, user, ids, servers);
    }

    method InsertExecution(exec: ExecId, org: OrgId, user: UserId, ids: seq<TargetId>, servers: seq<ServerId>)
      returns (reply: Reply)
      requires |ids| == |servers|
      modifies this`execs, this`targets
      ensures (State(), reply) == CreateStep(old(State()), exec, org, user, ids, servers)
    {
      if |servers| == 0 {
        return Reply(400, NoServers);
      }
      if exec in execs {
        return Reply(500, CreateFailed);
      }
      var rows := InsertTargets(targets, exec, org, ids, servers);
      if rows.None? {
        return Reply(500, CreateFailed);
      }
      execs := execs[exec := Exec(org, user, ExecQueued, now)];
      targets := targets + rows.value;
      return Reply(201, QueuedBody);
    }

    /** The claim's query: an oldest row that this runner may take now, or none if there is none. */
    method OldestEligible(runner: RunnerId, filter: Option<TargetId>) returns (answer: Option<TargetId>)
      ensures LegalAnswer(State(), runner, filter, answer)
      ensures answer.Some? ==> OfferedFirst(State(), runner, filter, answer.value)
      ensures answer.None? ==> forall t | t in targets :: !Offered(State(), runner, filter, t)
    {
      answer := None;
      var todo := targets.Keys;
      while todo != {}
        invariant todo <= targets.Keys
        invariant answer.None? ==> forall t | t in targets && t !in todo :: !Eligible(State(), runner, filter, t)
        invariant answer.Some? ==> Eligible(State(), runner, filter, answer.value)
        invariant answer.Some? ==>
                    forall t | t in targets && t !in todo && Eligible(State(), runner, filter, t) ::
                      execs[targets[answer.value].exec].requestedAt <= execs[targets[t].exec].requestedAt
      {
        var t :| t in todo;
        todo := todo - {t};
        var row := targets[t];
        if && runner in runners && (filter.None? || filter.value == t)
           && row.exec in execs && (execs[row.exec].status == ExecQueued || execs[row.exec].status == ExecRunning)
           && execs[row.exec].org == runners[runner].org
           && Due(row, now) && row.attempt < row.maxAttempts
               && InScope(runners[runner], runners[runner].org, row.server)
        {
          if answer.None? || execs[row.exec].requestedAt < execs[targets[answer.value].exec].requestedAt {
            answer := Some(t);
          }
        }
      }
      AnswerIsOffered(State(), runner, filter, answer);
    }

    /**
      The reply is 404 exactly when every row fails one of the query's conditions;
      otherwise the claim goes on with a row that meets them all, asked for no later
      than any other such row.
     */
    method ReadClaim(req: RequestId, runner: RunnerId, filter: Option<TargetId>) returns (reply: Reply)
      requires Valid()
      modifies this`tickets
      ensures Valid() && (old(Agreeing()) ==> Agreeing())
      ensures reply == Reply(404, NoJobs) <==>
                forall t | t in targets ::
                  || runner !in runners || !runners[runner].active
                  || !(runners[runner].allServers || targets[t].server in runners[runner].servers)
                  || targets[t].exec !in execs || execs[targets[t].exec].org != runners[runner].org
                  || (execs[targets[t].exec].status != ExecQueued && execs[targets[t].exec].status != ExecRunning)
                  || (filter != None && filter != Some(t))
                  || targets[t].attempt >= targets[t].maxAttempts
                  || !(|| (targets[t].status == Pending
                           && (targets[t].nextAttempt == None || targets[t].nextAttempt.value <= now))
                       || (targets[t].status == Running
                           && targets[t].expires != None && targets[t].expires.value <= now))
      ensures reply == Reply(404, NoJobs) ==> tickets == old(tickets)
      ensures reply != Reply(404, NoJobs) ==>
                && req in tickets && tickets[req].runner == runner
                && tickets == old(tickets)[req := tickets[req]]
                && OfferedFirst(old(State()), runner, filter, tickets[req].target)
                && tickets[req].source == targets[tickets[req].target].status
                && (State(), reply) == ClaimReadStep(old(State()), req, runner, filter, Some(tickets[req].target))
    {
      var answer := OldestEligible(runner, filter);
      if answer.None? {
        return Reply(404, NoJobs);
      }
      tickets := tickets[req := Ticket(runner, answer.value, targets[answer.value].status)];
      return Silent;
    }

    /** The claim's guarded updates; a job reply puts a lease that is new in the row until the time it names. */
    method CommitClaim(req: RequestId) returns (reply: Reply)
      requires Valid()
      modifies this
      ensures Valid() && (old(Agreeing()) ==> Agreeing())
      ensures (State(), reply) == ClaimCommitStep(old(State()), req)
      ensures GivesLease(old(State()), State(), req, reply)
      ensures reply.Job? ==>
                && Holds(State(), reply.target, reply.runner, reply.lease, now + LEASE_SECONDS)
                && forall t | t in old(targets) :: old(targets)[t].lease != Some(reply.lease)
      ensures !reply.Job? ==> targets == old(targets) && execs == old(execs)
    {
      CommitMeans(State(), req);
      ClaimMeans(State(), req);
      reply := TakeLease(req);
    }

    method TakeLease(req: RequestId) returns (reply: Reply)
      modifies this`tickets, this`targets, this`execs, this`nextLease
      ensures (State(), reply) == ClaimCommitStep(old(State()), req)
    {
      if req !in tickets {
        return Silent;
      }
      var ticket := tickets[req];
      tickets := tickets - {req};
      var t := ticket.target;
      if !(t in targets && targets[t].status == ticket.source && targets[t].attempt < targets[t].maxAttempts
          && Due(targets[t], now)) {
        return Reply(409, ClaimedByAnother);
      }
      var lease := nextLease;
      var expires := now + LEASE_SECONDS;
      nextLease := nextLease + 1;
      targets := targets[t := targets[t].(status := Running, runner := Some(ticket.runner), lease := Some(lease),
                                          expires := Some(expires), attempt := targets[t].attempt + 1)];
      var e := targets[t].exec;
      if e in execs && (execs[e].status == ExecQueued || execs[e].status == ExecRunning) {
        execs := execs[e := execs[e].(status := ExecRunning)];
      }
      return Job(t, e, lease, ticket.runner, expires);
    }

    /**
      Whoever carries the lease, expired or not, may renew it, and nobody else;
      afterwards it holds for 300 seconds, and no other column or row has changed.
     */
    method RenewLease(exec: ExecId, target: TargetId, runner: RunnerId, lease: LeaseId) returns (reply: Reply)
      requires Valid()
      modifies this`targets
      ensures Valid() && (old(Agreeing()) ==> Agreeing())
      ensures (State(), reply) == RenewStep(old(State()), exec, target, runner, lease)
      ensures forall x | Holds(old(State()), target, runner, lease, x) && old(targets)[target].exec == exec ::
                reply == Reply(200, Renewed)
      ensures reply == Reply(200, Renewed) ==>
                && Holds(State(), target, runner, lease, now + LEASE_SECONDS) && target in old(targets)
                && targets == old(targets)[target := old(targets)[target].(expires := Some(now + LEASE_SECONDS))]
      ensures reply != Reply(200, Renewed) ==> targets == old(targets)
      ensures reply == Reply(200, Renewed) <==>
                && target in old(targets) && old(targets)[target].exec == exec
                && old(targets)[target].status == Running
                && old(targets)[target].runner == Some(runner) && old(targets)[target].lease == Some(lease)
      ensures reply in {Reply(200, Renewed), Reply(409, LeaseInactive)}
    {
      RenewMeans(State(), exec, target, runner, lease);
      RenewalMeans(State(), exec, target, runner, lease);
      reply := ExtendLease(exec, target, runner, lease);
    }

    method ExtendLease(exec: ExecId, target: TargetId, runner: RunnerId, lease: LeaseId) returns (reply: Reply)
      modifies this`targets
      ensures (State(), reply) == RenewStep(old(State()), exec, target, runner, lease)
    {
      if target in targets && HeldBy(targets[target], exec, runner, lease) {
        targets := targets[target := targets[target].(expires := Some(now + LEASE_SECONDS))];
        return Reply(200, Renewed);
      }
      return Reply(409, LeaseInactive);
    }

    /** An accepted result has a receipt with its reply from now on; any other changes nothing. */
    method SubmitResult(org: OrgId, r: Result) returns (reply: Reply)
      requires Valid()
      modifies this`targets, this`execs, this`receipts
      ensures Valid() && (old(Agreeing()) ==> Agreeing())
      ensures (State(), reply) == SubmitStep(old(State()), org, r)
      ensures reply.Reply?
      ensures reply.code == 200 ==> HasReceipt(State(), r, reply)
      ensures reply.code != 200 ==> State() == old(State())
      ensures Answers(old(State()), State(), org, r, reply)
      ensures reply.code == 200 && (r.target, r.lease) !in old(receipts) ==>
                && r.target in old(targets) && r.target in targets
                && var row, row' := old(targets)[r.target], targets[r.target];
                && row.status == Running && row.exec == r.exec
                && row.runner == Some(r.runner) && row.lease == Some(r.lease)
                && (r.exitCode == 0 && r.error == "" ==> row'.status == Succeeded && reply.body == OkBody)
                && (!(r.exitCode == 0 && r.error == "") && row.attempt < row.maxAttempts ==>
                      row'.status == Pending && reply.body == RetryBody)
                && (!(r.exitCode == 0 && r.error == "") && row.attempt >= row.maxAttempts ==>
                      row'.status == DeadLetter && reply.body == OkBody)
    {
      SubmitMeans(State(), org, r);
      ResultMeans(State(), org, r);
      reply := RecordResult(org, r);
    }

    /** The result transaction. */
    method RecordResult(org: OrgId, r: Result) returns (reply: Reply)
      modifies this`targets, this`execs, this`receipts
      ensures (State(), reply) == SubmitStep(old(State()), org, r)
    {
      var key := (r.target, r.lease);
      if key in receipts {
        if receipts[key].payload != r {
          return Reply(409, PayloadConflict);
        }
        return Reply(receipts[key].code, receipts[key].body);
      }
      if r.target !in targets || !HeldBy(targets[r.target], r.exec, r.runner, r.lease) {
        return Reply(409, NotAssigned);
      }
      var row := targets[r.target];
      if !(r.exec in execs && execs[r.exec].org == org && r.runner in runners && runners[r.runner].org == org) {
        return Reply(409, NotAssigned);
      }
      var status := if r.exitCode != 0 || r.error != "" then Failed else Succeeded;
      if status == Failed && row.attempt >= row.maxAttempts {
        status := DeadLetter;
      }
      var rows := targets[r.target := row.(status := status, expires := None)];
      if status == Failed && row.attempt < row.maxAttempts {
        var backoff := RetryBackoffSeconds(row.attempt);
        rows := rows[r.target := rows[r.target].(
          status := Pending, runner := None, lease := None, expires := None, nextAttempt := Some(now + backoff))];
        assert rows == targets[r.target := Finished(row, r, now)];
        assert rows[r.target].Open() && HasOpen(rows, r.exec);
        targets := rows;
        receipts := receipts[key := Receipt(org, r, 200, RetryBody)];
        return Reply(200, RetryBody);
      }
      assert rows == targets[r.target := Finished(row, r, now)];
      var open := set t | t in rows && rows[t].exec == r.exec && rows[t].Open();
      var failed := set t | t in rows && rows[t].exec == r.exec
          && (rows[t].status == Failed || rows[t].status == DeadLetter);
      CountedOpen(rows, r.exec, open);
      CountedFailed(rows, r.exec, failed);
      if |open| == 0 {
        var final := if |failed| > 0 then ExecFailed else ExecSucceeded;
        if execs[r.exec].status != ExecRunning {
          return Reply(409, NotRunning);
        }
        execs := execs[r.exec := execs[r.exec].(status := final)];
      }
      targets := rows;
      receipts := receipts[key := Receipt(org, r, 200, OkBody)];
      return Reply(200, OkBody);
    }

    /** The reconcile of one organisation inside one transaction, with the rows the database answered. */
    method ReconcileExpiredLeases(org: OrgId, rows: seq<Expired>)
      requires Valid() && SweepRows(State(), org, rows)
      modifies this`targets, this`execs
      ensures Valid() && (old(Agreeing()) ==> Agreeing())
      ensures State() == ReconcileStep(old(State()), org).0
      ensures TakesBack(old(State()), State(), org)
      ensures forall t | t in targets :: !Lapsed(State(), org, t)
      ensures forall e | e in execs && execs[e].org == org && execs[e].Active() ::
                HasOpen(targets, e) || !HasFailed(targets, e)
    {
      ReconcileKeeps(State(), org);
      KeptKeeps(State(), ReconcileStep(State(), org).0);
      NothingLapsed(State(), org);
      ReconcileMeans(State(), org);
      Reclaim(org, rows);
    }

    method Reclaim(org: OrgId, rows: seq<Expired>)
      requires SweepRows(State(), org, rows)
      modifies this`targets, this`execs
      ensures State() == ReconcileStep(old(State()), org).0
    {
      ApplyRowsIsReconcile(State(), org, rows);
      UpdateAll(rows);
      Finalise(org);
    }

    /** The loop over the rows read. */
    method UpdateAll(rows: seq<Expired>)
      modifies this`targets
      ensures targets == ApplyRows(old(targets), rows, now)
    {
      var i := 0;
      while i < |rows|
        invariant 0 <= i <= |rows|
        invariant targets == ApplyRows(old(targets), rows[..i], now)
      {
        assert rows[..i + 1][..i] == rows[..i];
        UpdateExpired(rows[i]);
        i := i + 1;
      }
      assert rows[..i] == rows;
    }

    /** One guarded update of the reconcile loop. */
    method UpdateExpired(x: Expired)
      modifies this`targets
      ensures targets == if x.target in old(targets)
                         then old(targets)[x.target := Reclaimed(old(targets)[x.target], x.attempt, x.max, now)]
                         else old(targets)
      ensures if x.target in old(targets) && old(targets)[x.target].status == Running then
                && x.target in targets && targets == old(targets)[x.target := targets[x.target]]
                && GivesUp(old(targets)[x.target], x.attempt, x.max, now, targets[x.target])
              else targets == old(targets)
    {
      if x.attempt >= x.max {
        if x.target in targets && targets[x.target].status == Running {
          targets := targets[x.target := targets[x.target].(status := DeadLetter, runner := None, lease := None,
              expires := None)];
        }
        return;
      }
      var backoff := RetryBackoffSeconds(x.attempt);
      if x.target in targets && targets[x.target].status == Running {
        targets := targets[x.target := targets[x.target].(
          status := Pending, runner := None, lease := None, expires := None, nextAttempt := Some(now + backoff))];
      }
    }

    method Finalise(org: OrgId)
      modifies this`execs
      ensures execs == FinalisedExecs(old(execs), targets, org)
    {
      execs := map e | e in execs ::
        if execs[e].org == org && execs[e].Active() && !HasOpen(targets, e) && HasFailed(targets, e)
        then execs[e].(status := ExecFailed) else execs[e];
    }

    /** One step of the background sweep, which runs the same loop outside a transaction. */
    method SweepOne(req: RequestId)
      requires Valid()
      modifies this`targets, this`sweeps
      ensures Valid() && State() == SweepApplyStep(old(State()), req).0
    {
      SweepApplyKeepsBase(State(), req);
      SweepCoheres(State(), req);
      if req in sweeps && |sweeps[req].expired| > 0 {
        var sweep := sweeps[req];
        sweeps := sweeps[req := sweep.(expired := sweep.expired[1..])];
        UpdateExpired(sweep.expired[0]);
      }
    }

    /** The cancel request's first update, after its checks. */
    method BeginCancel(exec: ExecId, org: OrgId, user: UserId, manager: bool) returns (refusal: Reply)
      modifies this`execs, this`cancelling
      ensures (State(), refusal) == CancelExecStep(old(State()), exec, org, user, manager)
      ensures if Cancels(old(State()), exec, org, user, manager) then
                refusal == Silent && Cancelling(old(State()), State(), exec, false)
              else State() == old(State()) && Refuses(old(State()), exec, org, user, manager, refusal)
    {
      CancelWritesOut(State(), exec, org, user, manager);
      if !(exec in execs && execs[exec].org == org
          && (execs[exec].status == ExecCreated || execs[exec].status == ExecQueued)) {
        return Reply(400, NotCancellable);
      }
      if user != execs[exec].requester && !manager {
        return Reply(403, NotPermitted);
      }
      execs := execs[exec := execs[exec].(status := ExecCancelled)];
      cancelling := cancelling + {exec};
      return Silent;
    }

    /** Its second update, for every target of the execution whatever its status. */
    method FinishCancel(exec: ExecId)
      requires exec in cancelling
      modifies this`targets, this`cancelling
      ensures State() == CancelTargetsStep(old(State()), exec).0
    {
      targets := map t | t in targets ::
        if targets[t].exec == exec then targets[t].(status := Cancelled) else targets[t];
      cancelling := cancelling - {exec};
    }

    /**
      Both, with nothing between them. The second one's error is ignored: then
      the answer is 200 all the same, and the cancel stays half done.
     */
    method CancelExecution(exec: ExecId, org: OrgId, user: UserId, manager: bool, fault: bool) returns (reply: Reply)
      requires Valid()
      modifies this`execs, this`targets, this`cancelling
      ensures Valid() && (old(Agreeing()) ==> Agreeing())
      ensures reply == Reply(200, CancelledBody) ==>
                && exec in execs && execs[exec].status == ExecCancelled && (fault <==> exec in cancelling)
                && (!fault ==> forall t | t in targets && targets[t].exec == exec :: targets[t].status == Cancelled)
                && State() == if fault then CancelExecStep(old(State()), exec, org, user, manager).0
                              else CancelStep(old(State()), exec, org, user, manager).0
      ensures reply != Reply(200, CancelledBody) ==>
                State() == old(State()) && reply == CancelStep(old(State()), exec, org, user, manager).1
      ensures reply == Reply(200, CancelledBody) <==>
                && exec in old(execs) && old(execs)[exec].org == org
                && (old(execs)[exec].status == ExecCreated || old(execs)[exec].status == ExecQueued)
                && (old(execs)[exec].requester == user || manager)
      ensures reply == Reply(200, CancelledBody) ==> Cancelling(old(State()), State(), exec, !fault)
      ensures reply != Reply(200, CancelledBody) ==> Refuses(old(State()), exec, org, user, manager, reply)
    {
      CancelWritesOut(State(), exec, org, user, manager);
      CancelMeans(State(), exec, org, user, manager);
      reply := BeginCancel(exec, org, user, manager);
      if reply == Silent {
        if !fault {
          FinishCancel(exec);
        }
        reply := Reply(200, CancelledBody);
      }
    }
  }
}
