/**
  When rows are leased, over whole runs: the lease budget, exclusive leases for
  thirty seconds, and backoff between attempts.
 */
module Scheduling {
  import opened Prelude
  import opened Outbox
  import opened Incidents
  import opened WorkerProtocol
  import opened Fencing
  import opened Settlement

  /******* The lease budget *******/

  function TotalAttempts(messages: seq<Message>): nat {
    if messages == [] then 0
    else TotalAttempts(messages[..|messages| - 1]) + messages[|messages| - 1].attempts
  }

  function TotalMaxAttempts(messages: seq<Message>): nat {
    if messages == [] then 0
    else TotalMaxAttempts(messages[..|messages| - 1]) + messages[|messages| - 1].maxAttempts
  }

  /** The lease statements of a run that returned a row. */
  function LeasesGranted(s: System, run: seq<Action>): nat
    requires Valid(s, run)
    decreases |run|
  {
    if run == [] then 0
    else
      LeasesGranted(Step(s, run[0]), run[1..])
      + if run[0].Lease? && NextToLease(s.messages, s.clock, run[0].locked).Some? then 1 else 0
  }

  lemma {:induction false} TotalsUpdate(messages: seq<Message>, id: nat, row: Message)
    requires id < |messages|
    ensures TotalAttempts(messages[id := row]) == TotalAttempts(messages) + row.attempts - messages[id].attempts
  {
    var last := |messages| - 1;
    if id == last {
      assert messages[id := row][..last] == messages[..last];
    } else {
      assert messages[id := row][..last] == messages[..last][id := row];
      TotalsUpdate(messages[..last], id, row);
    }
  }

  lemma {:induction false} TotalsBounded(messages: seq<Message>)
    requires RowsAreSound(messages)
    ensures TotalAttempts(messages) <= TotalMaxAttempts(messages)
  {
    if messages != [] {
      assert RowIsSound(messages[|messages| - 1]);
      TotalsBounded(messages[..|messages| - 1]);
    }
  }

  lemma EnqueueSpendsNothing(messages: seq<Message>, m: Message)
    requires m.attempts == 0
    ensures TotalAttempts(messages + [m]) == TotalAttempts(messages)
  {
    assert (messages + [m])[..|messages|] == messages;
  }

  lemma LeaseSpendsOne(s: System, w: WorkerId, locked: set<nat>, delivered: bool)
    requires w in s.workers
    ensures TotalAttempts(LeaseStep(s, w, locked, delivered).messages)
         == TotalAttempts(s.messages) + if NextToLease(s.messages, s.clock, locked).Some? then 1 else 0
  {
    var next := NextToLease(s.messages, s.clock, locked);
    if next.Some? {
      TotalsUpdate(s.messages, next.value, LeaseRow(s.messages[next.value], w, s.clock));
    }
  }

  lemma ReleaseSpendsNothing(s: System, a: Action, w: WorkerId)
    requires Inv(s) && Enabled(s, a) && Releases(a, w)
    ensures TotalAttempts(Step(s, a).messages) == TotalAttempts(s.messages)
  {
    hide Classify, NextToLease, FindActive, UpdateIncident, TotalAttempts;
    var id := s.workers[w].m.id;
    assert id < |s.messages|;
    var row := Step(s, a).messages[id];
    assert row.attempts == s.messages[id].attempts;
    assert Step(s, a).messages == s.messages[id := row];
    TotalsUpdate(s.messages, id, row);
  }

  lemma StepSpendsBudget(s: System, a: Action)
    requires Inv(s) && Enabled(s, a)
    ensures TotalAttempts(Step(s, a).messages)
         == TotalAttempts(s.messages)
            + if a.Lease? && NextToLease(s.messages, s.clock, a.locked).Some? then 1 else 0
  {
    hide Classify, NextToLease, FindActive, UpdateIncident, TotalAttempts, Inv;
    match a
    case Enqueue(topic, aggregateId, payload, maxAttempts) =>
      EnqueueSpendsNothing(s.messages, NewMessage(topic, aggregateId, payload, maxAttempts, s.clock));
    case Lease(w, locked, delivered) => LeaseSpendsOne(s, w, locked, delivered);
    case Complete(w, _, _) => ReleaseSpendsNothing(s, a, w);
    case Retry(w, _) => ReleaseSpendsNothing(s, a, w);
    case CommitBurial(w, _) => ReleaseSpendsNothing(s, a, w);
    case _ => assert Step(s, a).messages == s.messages;
  }

  lemma {:induction false} RunSpendsBudget(s: System, run: seq<Action>)
    requires Inv(s) && Valid(s, run)
    ensures TotalAttempts(Run(s, run).messages) == TotalAttempts(s.messages) + LeasesGranted(s, run)
    decreases |run|
  {
    if run != [] {
      StepKeepsInv(s, run[0]);
      StepSpendsBudget(s, run[0]);
      RunSpendsBudget(Step(s, run[0]), run[1..]);
    }
  }

  /** Every lease spends one attempt, so a run never grants more leases than the rows allow. */
  lemma LeaseBudget(s: System, run: seq<Action>)
    requires Reachable(s) && Valid(s, run)
    ensures LeasesGranted(s, run) == TotalAttempts(Run(s, run).messages) - TotalAttempts(s.messages)
    ensures LeasesGranted(s, run) <= TotalMaxAttempts(Run(s, run).messages) - TotalAttempts(s.messages)
  {
    ReachableKeepsInv(s);
    RunSpendsBudget(s, run);
    RunKeepsInv(s, run);
    TotalsBounded(Run(s, run).messages);
  }

  /******* Exclusive leases and backoff *******/

  lemma {:induction false} ClockNeverGoesBack(s: System, run: seq<Action>)
    requires Valid(s, run)
    ensures s.clock <= Run(s, run).clock
    decreases |run|
  {
    if run != [] {
      ClockNeverGoesBack(Step(s, run[0]), run[1..]);
    }
  }

  /** No action of the run is worker w giving a message back. */
  predicate NeverReleases(run: seq<Action>, w: WorkerId) {
    forall i | 0 <= i < |run| :: !Releases(run[i], w)
  }

  /** A row nobody can lease before `until`, and whose owner, if any, is silent, stays as it is. */
  lemma {:induction false} RowIsStable(s: System, run: seq<Action>, id: nat, until: Instant)
    requires Inv(s) && Valid(s, run) && id < |s.messages|
    requires forall now | now <= until :: !Eligible(s.messages[id], now)
    requires s.messages[id].leasedBy.Some? ==> NeverReleases(run, s.messages[id].leasedBy.value)
    requires Run(s, run).clock <= until
    ensures id < |Run(s, run).messages| && Run(s, run).messages[id] == s.messages[id]
    decreases |run|
  {
    if run != [] {
      ClockNeverGoesBack(s, run);
      RowChangesOnlyByLeaseOrOwner(s, run[0], id);
      StepKeepsInv(s, run[0]);
      assert forall i | 0 <= i < |run[1..]| :: run[1..][i] == run[i + 1];
      RowIsStable(Step(s, run[0]), run[1..], id, until);
    }
  }

  /**
    For thirty seconds after a lease nobody but its worker can change the row, so
    nobody else can lease it unless that worker gives it back.
   */
  lemma LeaseIsExclusive(s: System, w: WorkerId, locked: set<nat>, delivered: bool, run: seq<Action>)
    requires Reachable(s) && Enabled(s, Action.Lease(w, locked, delivered))
    requires NextToLease(s.messages, s.clock, locked).Some?
    requires Valid(LeaseStep(s, w, locked, delivered), run) && NeverReleases(run, w)
    requires Run(LeaseStep(s, w, locked, delivered), run).clock <= s.clock + 30 * SECOND
    ensures var id := NextToLease(s.messages, s.clock, locked).value;
            var s' := Run(LeaseStep(s, w, locked, delivered), run);
            id < |s'.messages| && s'.messages[id] == LeaseRow(s.messages[id], w, s.clock)
  {
    ReachableKeepsInv(s);
    StepKeepsInv(s, Action.Lease(w, locked, delivered));
    var id := NextToLease(s.messages, s.clock, locked).value;
    RowIsStable(LeaseStep(s, w, locked, delivered), run, id, s.clock + 30 * SECOND);
  }

  /** A failed row is left alone until its backoff has passed. */
  lemma BackoffIsRespected(s: System, w: WorkerId, acknowledged: bool, run: seq<Action>)
    requires Reachable(s) && Enabled(s, Retry(w, acknowledged))
    requires var m := s.workers[w].m; m.id < |s.messages| && s.messages[m.id].leasedBy == Some(w)
    requires Valid(RetryStep(s, w, acknowledged), run)
    requires Run(RetryStep(s, w, acknowledged), run).clock
          < s.clock + RetryDelaySeconds(s.messages[s.workers[w].m.id].attempts) * SECOND
    ensures var id := s.workers[w].m.id;
            var s' := Run(RetryStep(s, w, acknowledged), run);
            id < |s'.messages| && s'.messages[id] == RetryStep(s, w, acknowledged).messages[id]
            && s'.messages[id].leasedBy.None? && s'.messages[id].processedAt.None?
            && s'.messages[id].attempts == s.messages[id].attempts
  {
    ReachableKeepsInv(s);
    StepKeepsInv(s, Retry(w, acknowledged));
    var id := s.workers[w].m.id;
    RowIsStable(RetryStep(s, w, acknowledged), run, id, RetryStep(s, w, acknowledged).messages[id].availableAt - 1);
  }
}
