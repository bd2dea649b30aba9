/** Over whole runs from the empty database: what a success rests on, and where every job comes from. */
module QueueRuns {
  import opened Common
  import opened Queue
  import opened QueueInvariant
  import opened QueueAgreement
  import opened QueueTheorems
  import opened QueueReplies

  // ---- Successes ----

  /** A stored result with exit code 0 and no error. */
  predicate Success(receipt: Receipt) { receipt.payload.exitCode == 0 && receipt.payload.error == "" }

  /** The target's runner reported success under its lease. */
  predicate Vouched(s: Db, t: TargetId)
    requires t in s.targets
  {
    var row := s.targets[t];
    && row.lease.Some? && (t, row.lease.value) in s.receipts
    && var receipt := s.receipts[(t, row.lease.value)];
    && Success(receipt)
    && receipt.payload.target == t && receipt.payload.exec == row.exec && Some(receipt.payload.runner) == row.runner
  }

  /** The target reached success under the lease, and was at most cancelled since. */
  predicate Reached(s: Db, t: TargetId, l: LeaseId) {
    && t in s.targets
    && (s.targets[t].status == Cancelled || (s.targets[t].status == Succeeded && s.targets[t].lease == Some(l)))
  }

  ghost predicate Honest(s: Db) {
    && (forall t | t in s.targets && s.targets[t].status == Succeeded :: Vouched(s, t))
    && (forall k | k in s.receipts && Success(s.receipts[k]) :: Reached(s, k.0, k.1))
  }

  lemma SubmitHonest(s: Db, org: OrgId, r: Result)
    requires Honest(s)
    ensures Honest(SubmitStep(s, org, r).0)
  {
    ResultMeans(s, org, r);
    var s' := SubmitStep(s, org, r).0;
    if s' != s {
      forall t | t in s'.targets && s'.targets[t].status == Succeeded ensures Vouched(s', t) {
        if t != r.target {
          assert Vouched(s, t);
        }
      }
      forall k | k in s'.receipts && Success(s'.receipts[k]) ensures Reached(s', k.0, k.1) {
        if k != (r.target, r.lease) {
          assert Reached(s, k.0, k.1);
        }
      }
    }
  }

  /** No other step makes a success, or takes one away but by cancelling it. */
  lemma SuccessEffect(s: Db, step: Step, t: TargetId)
    requires t in s.targets && !step.Submit?
    ensures t in After(s, step).targets
    ensures var row, row' := s.targets[t], After(s, step).targets[t];
            && (row'.status == Succeeded ==> row' == row)
            && (row.status == Succeeded || row.status == Cancelled ==> row' == row || row'.status == Cancelled)
  {
    RowEffect(s, step, t);
  }

  lemma OtherReceipts(s: Db, step: Step)
    requires !step.Submit?
    ensures After(s, step).receipts == s.receipts
    ensures forall t | t in After(s, step).targets && t !in s.targets :: After(s, step).targets[t].status == Pending
  {
  }

  lemma HonestStep(s: Db, step: Step)
    requires Honest(s)
    ensures Honest(After(s, step))
  {
    if step.Submit? {
      SubmitHonest(s, step.org, step.result);
    } else {
      var s' := After(s, step);
      OtherReceipts(s, step);
      forall t | t in s'.targets && s'.targets[t].status == Succeeded ensures Vouched(s', t) {
        SuccessEffect(s, step, t);
        assert Vouched(s, t);
      }
      forall k | k in s'.receipts && Success(s'.receipts[k]) ensures Reached(s', k.0, k.1) {
        assert Reached(s, k.0, k.1);
        SuccessEffect(s, step, k.0);
      }
    }
  }

  lemma {:induction false} HonestRun(s: Db, steps: seq<Step>)
    requires Honest(s)
    ensures Honest(Run(s, steps))
    decreases |steps|
  {
    if |steps| == 0 {
    } else {
      HonestStep(s, steps[0]);
      HonestRun(After(s, steps[0]), steps[1..]);
    }
  }

  /**
    After any run, split sweeps and cancels included, a target has succeeded only
    if a receipt for its own lease says exit code 0 and no error, and whenever one
    says so the target has succeeded, or was cancelled since.
   */
  lemma SuccessesAreReported(steps: seq<Step>, t: TargetId)
    requires t in Run(INIT, steps).targets
    ensures var s := Run(INIT, steps);
            var row := s.targets[t];
            && (row.status == Succeeded ==>
                  && row.lease.Some? && (t, row.lease.value) in s.receipts
                  && var result := s.receipts[(t, row.lease.value)].payload;
                  && result.exitCode == 0 && result.error == ""
                  && result.target == t && result.exec == row.exec && Some(result.runner) == row.runner)
            && (forall l | (t, l) in s.receipts
                    && s.receipts[(t, l)].payload.exitCode == 0 && s.receipts[(t, l)].payload.error == "" ::
                  row.status == Cancelled || (row.status == Succeeded && row.lease == Some(l)))
  {
    HonestRun(INIT, steps);
    var s := Run(INIT, steps);
    if s.targets[t].status == Succeeded {
      assert Vouched(s, t);
    }
    forall l | (t, l) in s.receipts && Success(s.receipts[(t, l)])
      ensures s.targets[t].status == Cancelled || (s.targets[t].status == Succeeded && s.targets[t].lease == Some(l))
    {
      assert Reached(s, t, l);
    }
  }

  /** An execution has succeeded only if every one of its targets has such a receipt. */
  lemma SucceededExecutionsAreReported(steps: seq<Step>, e: ExecId, t: TargetId)
    requires var s := Run(INIT, steps);
             e in s.execs && s.execs[e].status == ExecSucceeded && t in s.targets && s.targets[t].exec == e
    ensures var s := Run(INIT, steps);
            && s.targets[t].status == Succeeded && s.targets[t].lease.Some?
            && (t, s.targets[t].lease.value) in s.receipts
            && var result := s.receipts[(t, s.targets[t].lease.value)].payload;
            result.exec == e && result.exitCode == 0 && result.error == ""
  {
    CoherenceRun(INIT, steps);
    assert CoheresAt(Run(INIT, steps), e);
    SuccessesAreReported(steps, t);
  }

  // ---- Jobs ----

  lemma {:induction false} RunLast(s: Db, steps: seq<Step>)
    requires |steps| > 0
    ensures Run(s, steps) == After(Run(s, steps[..|steps| - 1]), steps[|steps| - 1])
    decreases |steps|
  {
    if |steps| == 1 {
      assert steps[1..] == [] && steps[..0] == [];
    } else {
      RunLast(After(s, steps[0]), steps[1..]);
      assert steps[1..][..|steps| - 2] == steps[..|steps| - 1][1..];
    }
  }

  /** The i-th step is the read that made the ticket, and then the target was offered to the ticket's runner. */
  ghost predicate ReadAt(steps: seq<Step>, i: nat, req: RequestId, ticket: Ticket) {
    && i < |steps| && steps[i].ClaimRead? && steps[i].req == req && steps[i].runner == ticket.runner
    && steps[i].answer == Some(ticket.target)
    && OfferedFirst(Run(INIT, steps[..i]), ticket.runner, steps[i].filter, ticket.target)
    && Run(INIT, steps[..i]).targets[ticket.target].status == ticket.source
  }

  lemma TicketStep(s: Db, step: Step, req: RequestId)
    requires req in After(s, step).tickets
    ensures (req in s.tickets && s.tickets[req] == After(s, step).tickets[req])
         || (&& step.ClaimRead? && step.req == req && step.answer == Some(After(s, step).tickets[req].target)
             && step.runner == After(s, step).tickets[req].runner
             && OfferedFirst(s, step.runner, step.filter, After(s, step).tickets[req].target)
             && s.targets[After(s, step).tickets[req].target].status == After(s, step).tickets[req].source)
  {
    if step.ClaimRead? {
      AnswerIsOffered(s, step.runner, step.filter, step.answer);
    }
  }

  lemma {:induction false} TicketsAreRead(steps: seq<Step>, req: RequestId) returns (i: nat)
    requires req in Run(INIT, steps).tickets
    ensures ReadAt(steps, i, req, Run(INIT, steps).tickets[req])
    decreases |steps|
  {
    var n := |steps| - 1;
    RunLast(INIT, steps);
    var s := Run(INIT, steps[..n]);
    TicketStep(s, steps[n], req);
    if req in s.tickets && s.tickets[req] == Run(INIT, steps).tickets[req] {
      i := TicketsAreRead(steps[..n], req);
      assert steps[..n][..i] == steps[..i];
    } else {
      i := n;
    }
  }

  /** A row's execution, organisation and server never change. */
  lemma {:induction false} RowBelongs(s: Db, steps: seq<Step>, t: TargetId)
    requires t in s.targets
    ensures t in Run(s, steps).targets
    ensures var row, row' := s.targets[t], Run(s, steps).targets[t];
            row'.exec == row.exec && row'.org == row.org && row'.server == row.server
    decreases |steps|
  {
    if |steps| == 0 {
    } else {
      RowEffect(s, steps[0], t);
      RowBelongs(After(s, steps[0]), steps[1..], t);
    }
  }

  lemma {:induction false} RunSplit(s: Db, steps: seq<Step>, i: nat)
    requires i <= |steps|
    ensures Run(s, steps) == Run(Run(s, steps[..i]), steps[i..])
    decreases |steps|
  {
    if i == 0 {
      assert steps[0..] == steps && steps[..0] == [];
    } else {
      RunSplit(After(s, steps[0]), steps[1..], i - 1);
      assert steps[..i][1..] == steps[1..][..i - 1] && steps[1..][i - 1..] == steps[i..];
    }
  }

  /**
    In any run, every job goes back to a read of the same request at which its
    runner was active, belonged to the execution's organisation and was in scope
    of the target's server, the target was due, and none offered was asked for earlier.
   */
  lemma JobsWereOffered(steps: seq<Step>, n: nat) returns (i: nat)
    requires n < |steps| && ReplyTo(Run(INIT, steps[..n]), steps[n]).Job?
    ensures i < n && steps[n].ClaimCommit? && steps[i].ClaimRead? && steps[i].req == steps[n].req
    ensures var s, job := Run(INIT, steps[..i]), ReplyTo(Run(INIT, steps[..n]), steps[n]);
            && steps[i].runner == job.runner && job.runner in s.runners && job.target in s.targets
            && s.targets[job.target].exec == job.exec && job.exec in s.execs
            && var r, row, e := s.runners[job.runner], s.targets[job.target], s.execs[job.exec];
            && r.active && r.org == e.org && (r.allServers || row.server in r.servers)
            && (e.status == ExecQueued || e.status == ExecRunning) && row.attempt < row.maxAttempts
            && OfferedFirst(s, job.runner, steps[i].filter, job.target)
  {
    var before := steps[..n];
    var s1 := Run(INIT, before);
    var req := steps[n].req;
    JobHasTicket(s1, steps[n]);
    i := TicketsAreRead(before, req);
    assert before[..i] == steps[..i];
    RunSplit(INIT, before, i);
    RowBelongs(Run(INIT, steps[..i]), before[i..], s1.tickets[req].target);
  }

  lemma JobHasTicket(s: Db, step: Step)
    requires ReplyTo(s, step).Job?
    ensures step.ClaimCommit? && step.req in s.tickets
    ensures var job, ticket := ReplyTo(s, step), s.tickets[step.req];
            && job.target == ticket.target && job.runner == ticket.runner && job.target in s.targets
            && job.exec == s.targets[job.target].exec
  {
    if step.ClaimCommit? {
      ClaimMeans(s, step.req);
    }
  }
}
