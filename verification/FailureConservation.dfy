/**
  The failure ledger from end to end, as theorems about every reachable state:
  failures counted by incidents against correlations committed, and those against
  the messages and the attempts they took.
 */
module FailureConservation {
  import opened Prelude
  import opened Outbox
  import opened Incidents
  import opened WorkerProtocol
  import opened Settlement
  import opened FailureLedger
  import opened IncidentLedger

  /******* Conservation *******/

  /** The incidents of a key have counted exactly the correlations committed for it. */
  lemma FailuresAreConserved(s: System, key: FailureKey)
    requires Reachable(s)
    ensures FailuresCounted(s.incidents, key) == CommitsFor(s.commits, key)
  {
    ReachableKeepsLedger(s);
  }

  predicate Reports(m: Message, key: FailureKey) {
    m.Work().Correlate? && m.Work().failure.key == key
  }

  /** Messages below n that report the key and have completed. */
  function CompletedReports(s: System, key: FailureKey, n: nat): nat
    requires n <= |s.messages|
  {
    if n == 0 then 0
    else
      CompletedReports(s, key, n - 1)
      + if Reports(s.messages[n - 1], key) && SettlementOf(s, n - 1).Completed? then 1 else 0
  }

  /** The attempts taken on messages below n that report the key. */
  function AttemptsOnReports(messages: seq<Message>, key: FailureKey, n: nat): nat
    requires n <= |messages|
  {
    if n == 0 then 0
    else
      AttemptsOnReports(messages, key, n - 1) + if Reports(messages[n - 1], key) then messages[n - 1].attempts else 0
  }

  /** The correlations committed for messages below n that report the key. */
  function CommitsOnReports(messages: seq<Message>, commits: seq<Commit>, key: FailureKey, n: nat): nat
    requires n <= |messages|
  {
    if n == 0 then 0
    else
      CommitsOnReports(messages, commits, key, n - 1)
      + if Reports(messages[n - 1], key) then |AttemptsCommitted(commits, n - 1)| else 0
  }

  lemma {:induction false} OneMoreCommit(messages: seq<Message>, commits: seq<Commit>, key: FailureKey, n: nat)
    requires n <= |messages| && commits != []
    ensures CommitsOnReports(messages, commits, key, n)
         == CommitsOnReports(messages, commits[..|commits| - 1], key, n)
            + if commits[|commits| - 1].messageId < n && Reports(messages[commits[|commits| - 1].messageId], key) then 1 else 0
  {
    if n > 0 {
      OneMoreCommit(messages, commits, key, n - 1);
    }
  }

  lemma {:induction false} NoCommits(messages: seq<Message>, key: FailureKey, n: nat)
    requires n <= |messages|
    ensures CommitsOnReports(messages, [], key, n) == 0
  {
    if n > 0 {
      NoCommits(messages, key, n - 1);
    }
  }

  /** Counting commits by key, or by the message that asked for them, is the same. */
  lemma {:induction false} CommitsByMessage(messages: seq<Message>, commits: seq<Commit>, key: FailureKey)
    requires forall i | 0 <= i < |commits| :: CommitMatches(messages, commits[i])
    ensures CommitsFor(commits, key) == CommitsOnReports(messages, commits, key, |messages|)
  {
    if commits == [] {
      NoCommits(messages, key, |messages|);
    } else {
      assert CommitMatches(messages, commits[|commits| - 1]);
      CommitsByMessage(messages, commits[..|commits| - 1], key);
      OneMoreCommit(messages, commits, key, |messages|);
    }
  }

  lemma {:induction false} ReportsAreBounded(s: System, key: FailureKey, n: nat)
    requires Reachable(s) && n <= |s.messages|
    ensures CompletedReports(s, key, n) <= CommitsOnReports(s.messages, s.commits, key, n)
         <= AttemptsOnReports(s.messages, key, n)
  {
    hide Classify, Reachable, AttemptsCommitted;
    if n > 0 {
      ReportsAreBounded(s, key, n - 1);
      MessageIsCorrelatedAtMostOncePerAttempt(s, n - 1);
    }
  }

  /**
    Every completed failure report is counted at least once, and a report is counted
    at most once per attempt: no failure is lost, and duplicates come from retries only.
   */
  lemma NoFailureIsLost(s: System, key: FailureKey)
    requires Reachable(s)
    ensures CompletedReports(s, key, |s.messages|)
         <= FailuresCounted(s.incidents, key)
         <= AttemptsOnReports(s.messages, key, |s.messages|)
  {
    FailuresAreConserved(s, key);
    ReachableKeepsCommits(s);
    CommitsByMessage(s.messages, s.commits, key);
    ReportsAreBounded(s, key, |s.messages|);
  }

  /******* Correlation is not idempotent *******/

  /** One message, reported n times by one worker that keeps hearing that its commit failed. */
  predicate AfterLostCommits(s: System, payload: Payload, failure: Failure, maxAttempts: nat, n: nat) {
    && |s.messages| == 1
    && s.messages[0].topic == TelemetryAccepted && s.messages[0].payload == payload
    && s.messages[0].attempts == n && s.messages[0].maxAttempts == maxAttempts
    && s.messages[0].processedAt.None? && s.messages[0].leaseExpiresAt.None? && s.messages[0].leasedBy.None?
    && s.deadLetters == []
    && s.workers == map[0 := Idle]
    && failure.key.automationId in s.automations
    && (n == 0 ==> s.incidents == [])
    && (n > 0 ==> |s.incidents| == 1 && ActiveFor(s.incidents[0], failure.key) && s.incidents[0].failureCount == n)
  }

  /** Wait for the backoff to pass, then lease the only row. */
  lemma LeaseOnlyRow(s: System, payload: Payload, failure: Failure, maxAttempts: nat, n: nat)
    returns (s': System)
    requires Reachable(s) && AfterLostCommits(s, payload, failure, maxAttempts, n) && n < maxAttempts
    ensures Reachable(s')
    ensures |s'.messages| == 1 && s'.messages[0] == LeaseRow(s.messages[0], 0, s'.clock)
    ensures s' == s.(clock := s'.clock, messages := s'.messages, workers := map[0 := Holding(Snapshot(0, s'.messages[0]))])
  {
    var tick := Tick(Max(s.clock, s.messages[0].availableAt));
    ReachableStep(s, tick);
    var s1 := Step(s, tick);
    assert Candidate(s1.messages, s1.clock, {}, 0);
    assert NextToLease(s1.messages, s1.clock, {}) == Some(0);
    ReachableStep(s1, Lease(0, {}, true));
    s' := LeaseStep(s1, 0, {}, true);
  }

  /** Lease, select, write: the part that a good and a bad attempt share. */
  lemma CorrelateOnce(s: System, payload: Payload, failure: Failure, maxAttempts: nat, n: nat, acknowledged: bool)
    returns (s': System)
    requires Reachable(s) && AfterLostCommits(s, payload, failure, maxAttempts, n) && n < maxAttempts
    requires Classify(TelemetryAccepted, payload) == Correlate(failure)
    ensures Reachable(s')
    ensures |s'.messages| == 1 && s'.messages[0] == LeaseRow(s.messages[0], 0, s'.clock)
    ensures |s'.incidents| == 1 && ActiveFor(s'.incidents[0], failure.key) && s'.incidents[0].failureCount == n + 1
    ensures s'.automations == s.automations && s'.deadLetters == []
    ensures var m := Snapshot(0, s'.messages[0]);
            s'.workers == map[0 := if acknowledged then Correlated(m) else Failing(m, ConnectionLost)]
  {
    hide Classify, NextToLease, LeaseStep, MatchesSchema, Valid, Reachable;
    var s2 := LeaseOnlyRow(s, payload, failure, maxAttempts, n);
    var m := Snapshot(0, s2.messages[0]);
    assert m.Work() == Correlate(failure);
    var found := FindActive(s2.incidents, failure.key);
    assert found == if n == 0 then None else Some(0);
    ReachableStep(s2, SelectIncident(0));
    var s3 := MoveTo(s2, 0, Reading(m, found));
    ReachableStep(s3, WriteIncident(0, acknowledged));
    s' := WriteStep(s3, 0, acknowledged);
  }

  lemma {:induction false} LoseCommits(payload: Payload, failure: Failure, tier: Severity, maxAttempts: nat, n: nat)
    returns (s: System)
    requires 1 <= maxAttempts <= 20 && n < maxAttempts
    requires Classify(TelemetryAccepted, payload) == Correlate(failure)
    ensures Reachable(s) && AfterLostCommits(s, payload, failure, maxAttempts, n)
  {
    hide Classify, WriteStep, FindActive, NextToLease;
    if n == 0 {
      InitialIsReachable(0);
      var s1 := Step(Initial(0), Synchronize(failure.key.automationId, tier));
      ReachableStep(Initial(0), Synchronize(failure.key.automationId, tier));
      var s2 := Step(s1, StartWorker(0));
      ReachableStep(s1, StartWorker(0));
      var enqueue := Enqueue(TelemetryAccepted, "", payload, maxAttempts);
      ReachableStep(s2, enqueue);
      s := Step(s2, enqueue);
    } else {
      var before := LoseCommits(payload, failure, tier, maxAttempts, n - 1);
      var failing := CorrelateOnce(before, payload, failure, maxAttempts, n - 1, false);
      ReachableStep(failing, Retry(0, true));
      s := Step(failing, Retry(0, true));
    }
  }

  /** A state in which one completed message was counted n times. */
  ghost predicate CountedTimes(s: System, payload: Payload, key: FailureKey, n: nat) {
    && Reachable(s) && |s.messages| == 1 && Reports(s.messages[0], key)
    && s.messages[0].topic == TelemetryAccepted && s.messages[0].payload == payload
    && SettlementOf(s, 0).Completed? && s.messages[0].attempts == n
    && |s.incidents| == 1 && s.incidents[0].key == key && s.incidents[0].failureCount == n
  }

  /** The bound is met: any failure report can be counted as often as it has attempts. */
  lemma ReportCanBeCountedOncePerAttempt(payload: Payload, failure: Failure, maxAttempts: nat, n: nat)
    requires Classify(TelemetryAccepted, payload) == Correlate(failure)
    requires 1 <= n <= maxAttempts <= 20
    ensures exists s :: CountedTimes(s, payload, failure.key, n) && s.messages[0].maxAttempts == maxAttempts
  {
    hide Classify, WriteStep, FindActive, NextToLease, LeaseStep;
    var before := LoseCommits(payload, failure, Low, maxAttempts, n - 1);
    var correlated := CorrelateOnce(before, payload, failure, maxAttempts, n - 1, true);
    ReachableStep(correlated, Complete(0, true, true));
    var s := Step(correlated, Complete(0, true, true));
    assert CountedTimes(s, payload, failure.key, n);
  }

  /** In whatever state a report of this payload has completed at attempt n, it was counted exactly once. */
  ghost predicate AlwaysCountedOnce(payload: Payload, n: nat) {
    forall s, id: nat |
      && Reachable(s) && id < |s.messages|
      && s.messages[id].topic == TelemetryAccepted && s.messages[id].payload == payload
      && SettlementOf(s, id).Completed? && s.messages[id].attempts == n ::
      |AttemptsCommitted(s.commits, id)| == 1
  }

  /**
    Correlation is idempotent, in that a completed report is sure to have been counted
    once, if and only if it completes at its first attempt.
   */
  lemma CountedOnceExactlyAtFirstAttempt(payload: Payload, failure: Failure, n: nat)
    requires Classify(TelemetryAccepted, payload) == Correlate(failure)
    requires 1 <= n <= 20
    ensures AlwaysCountedOnce(payload, n) <==> n == 1
  {
    hide Classify, Reachable, AttemptsCommitted;
    forall s, id: nat |
      && Reachable(s) && id < |s.messages|
      && s.messages[id].topic == TelemetryAccepted && s.messages[id].payload == payload
      && SettlementOf(s, id).Completed? && s.messages[id].attempts == n && n == 1
      ensures |AttemptsCommitted(s.commits, id)| == 1
    {
      MessageIsCorrelatedAtMostOncePerAttempt(s, id);
    }
    ReportCanBeCountedOncePerAttempt(payload, failure, n, n);
    var s :| CountedTimes(s, payload, failure.key, n);
    OnlyMessageIsCounted(s, failure.key, n);
    assert AlwaysCountedOnce(payload, n) ==> |AttemptsCommitted(s.commits, 0)| == 1;
  }

  lemma OnlyMessageIsCounted(s: System, key: FailureKey, n: nat)
    requires Reachable(s) && |s.messages| == 1 && Reports(s.messages[0], key)
    requires |s.incidents| == 1 && s.incidents[0].key == key && s.incidents[0].failureCount == n
    ensures |AttemptsCommitted(s.commits, 0)| == n
  {
    hide Classify, Reachable;
    FailuresAreConserved(s, key);
    ReachableKeepsCommits(s);
    CommitsByMessage(s.messages, s.commits, key);
    assert s.incidents[..0] == [] && FailuresCounted(s.incidents[..0], key) == 0;
    assert FailuresCounted(s.incidents, key) == n;
    assert CommitsOnReports(s.messages, s.commits, key, 0) == 0;
  }

  /******* Incidents over whole runs *******/

  /** At most one OPEN or ACKNOWLEDGED incident per key, whatever workers and operators do. */
  lemma ActiveIncidentIsUnique(s: System, i: nat, j: nat)
    requires Reachable(s) && i < |s.incidents| && j < |s.incidents|
    requires ActiveFor(s.incidents[i], s.incidents[j].key) && s.incidents[j].Active()
    ensures i == j
  {
    ReachableKeepsLedger(s);
  }

  /******* Races to open an incident *******/

  /** The worker's transaction has found no incident for this failure, of a registered automation. */
  predicate AboutToOpen(s: System, w: WorkerId, failure: Failure) {
    && w in s.workers && s.workers[w].Reading? && s.workers[w].found.None?
    && s.workers[w].m.Work() == Correlate(failure)
    && failure.key.automationId in s.automations
    && forall i | 0 <= i < |s.incidents| :: !ActiveFor(s.incidents[i], failure.key)
  }

  /** A writer that found no incident, and now finds the index taken, adds no row and goes on to fail its message. */
  lemma LosingWriterLeavesNoTrace(s: System, w: WorkerId, acknowledged: bool, i: nat, failure: Failure)
    requires w in s.workers && s.workers[w].Reading? && s.workers[w].found.None?
    requires s.workers[w].m.Work() == Correlate(failure) && failure.key.automationId in s.automations
    requires i < |s.incidents| && ActiveFor(s.incidents[i], failure.key)
    ensures Step(s, WriteIncident(w, acknowledged)) == MoveTo(s, w, Failing(s.workers[w].m, ActiveIncidentExists))
  {
    hide Classify;
  }

  /**
    Two transactions that both found no incident for one key: whichever writes first
    opens it; the other adds no row to any table and fails its message.
   */
  lemma RaceOpensOneIncident(s: System, first: WorkerId, second: WorkerId, f: Failure, g: Failure, heard: bool, heard': bool)
    requires first != second && f.key == g.key
    requires AboutToOpen(s, first, f) && AboutToOpen(s, second, g)
    ensures Enabled(Step(s, WriteIncident(first, heard)), WriteIncident(second, heard'))
    ensures var s' := Step(Step(s, WriteIncident(first, heard)), WriteIncident(second, heard'));
            var m := s.workers[first].m;
            && s' == s.(incidents := s.incidents + [OpenIncident(f, s.automations[f.key.automationId], s.clock)],
                        history := s.history + [OpenedEntry(|s.incidents|, f, s.clock)],
                        commits := s.commits + [Commit(m.id, m.attempts, f, |s.incidents|)],
                        workers := s'.workers)
            && s'.workers[second] == Failing(s.workers[second].m, ActiveIncidentExists)
  {
    hide Classify;
    var s1 := Step(s, WriteIncident(first, heard));
    LosingWriterLeavesNoTrace(s1, second, heard', |s.incidents|, g);
  }

  /** Two idle workers and the two messages, nothing else. */
  lemma TwoMessages(p: Payload, q: Payload, a: string, b: string, tiers: map<string, Severity>) returns (s: System)
    requires a in tiers && b in tiers
    ensures Reachable(s)
    ensures s == Initial(0).(
                   automations := map[a := tiers[a], b := tiers[b]],
                   messages := [NewMessage(TelemetryAccepted, "", p, 1, 0), NewMessage(TelemetryAccepted, "", q, 1, 0)],
                   workers := map[0 := Idle, 1 := Idle])
  {
    hide Reachable;
    InitialIsReachable(0);
    var s1 := AfterStep(Initial(0), Synchronize(a, tiers[a]));
    var s2 := AfterStep(s1, Synchronize(b, tiers[b]));
    var s3 := AfterStep(s2, StartWorker(0));
    var s4 := AfterStep(s3, StartWorker(1));
    var s5 := AfterStep(s4, Enqueue(TelemetryAccepted, "", p, 1));
    s := AfterStep(s5, Enqueue(TelemetryAccepted, "", q, 1));
  }

  lemma TwoLeases(s: System) returns (s': System)
    requires Reachable(s) && s.workers == map[0 := Idle, 1 := Idle] && |s.messages| == 2
    requires Eligible(s.messages[0], s.clock) && Eligible(s.messages[1], s.clock)
    requires s.messages[0].availableAt <= s.messages[1].availableAt
    ensures Reachable(s')
    ensures var row, row' := LeaseRow(s.messages[0], 0, s.clock), LeaseRow(s.messages[1], 1, s.clock);
            s' == s.(messages := [row, row'], workers := map[0 := Holding(Snapshot(0, row)), 1 := Holding(Snapshot(1, row'))])
  {
    hide Reachable, Classify;
    assert Candidate(s.messages, s.clock, {}, 0) && Candidate(s.messages, s.clock, {}, 1);
    assert NextToLease(s.messages, s.clock, {}) == Some(0);
    var s1 := AfterStep(s, Lease(0, {}, true));
    assert Candidate(s1.messages, s.clock, {}, 1) && !Candidate(s1.messages, s.clock, {}, 0);
    assert NextToLease(s1.messages, s.clock, {}) == Some(1);
    hide NextToLease;
    s' := AfterStep(s1, Lease(1, {}, true));
  }

  lemma SelectFindsNothing(s: System, w: WorkerId) returns (s': System)
    requires Reachable(s) && w in s.workers && s.workers[w].Holding? && s.workers[w].m.Work().Correlate? && s.incidents == []
    ensures Reachable(s') && s' == MoveTo(s, w, Reading(s.workers[w].m, None))
  {
    hide Reachable, Classify;
    s' := AfterStep(s, SelectIncident(w));
  }

  /** The state in which any two failures race, or open side by side. */
  lemma TwoWorkersAboutToOpen(p: Payload, f: Failure, q: Payload, g: Failure, tiers: map<string, Severity>) returns (s: System)
    requires Classify(TelemetryAccepted, p) == Correlate(f) && Classify(TelemetryAccepted, q) == Correlate(g)
    requires f.key.automationId in tiers && g.key.automationId in tiers
    ensures Reachable(s) && s.clock == 0 && s.incidents == [] && s.history == []
    ensures AboutToOpen(s, 0, f) && AboutToOpen(s, 1, g)
    ensures s.automations[f.key.automationId] == tiers[f.key.automationId]
    ensures s.automations[g.key.automationId] == tiers[g.key.automationId]
  {
    hide Classify, Reachable, NextToLease;
    var s1 := TwoMessages(p, q, f.key.automationId, g.key.automationId, tiers);
    var s2 := TwoLeases(s1);
    assert s2.workers[0].m.Work() == Correlate(f) && s2.workers[1].m.Work() == Correlate(g);
    var s3 := SelectFindsNothing(s2, 0);
    s := SelectFindsNothing(s3, 1);
  }

  lemma AfterStep(s: System, a: Action) returns (s': System)
    requires Reachable(s) && Enabled(s, a)
    ensures Reachable(s') && s' == Step(s, a)
  {
    ReachableStep(s, a);
    s' := Step(s, a);
  }

  /** The race can occur, for every two reports of one key. */
  lemma RaceIsReachable(p: Payload, f: Failure, q: Payload, g: Failure, tier: Severity)
    requires Classify(TelemetryAccepted, p) == Correlate(f) && Classify(TelemetryAccepted, q) == Correlate(g)
    requires f.key == g.key
    ensures exists s :: Reachable(s) && AboutToOpen(s, 0, f) && AboutToOpen(s, 1, g)
  {
    hide Classify, Reachable, AboutToOpen;
    var s := TwoWorkersAboutToOpen(p, f, q, g, map[f.key.automationId := tier]);
  }

  /** A history tells its incident's row: status, count, recovery note and times. */
  lemma HistoryExplainsIncident(s: System, i: nat)
    requires Reachable(s) && i < |s.incidents|
    ensures Explains(HistoryOf(s.history, i), s.incidents[i])
    ensures Counts(s.incidents[i], OccurrencesOf(s.commits, i))
  {
    ReachableKeepsLedger(s);
  }

  /** Equal histories tell the same of their rows, in whatever states; the theorems at the end say what they leave open. */
  lemma EqualHistoriesTellTheSame(s: System, t: System, i: nat, j: nat)
    requires Reachable(s) && Reachable(t) && i < |s.incidents| && j < |t.incidents|
    requires HistoryOf(s.history, i) == HistoryOf(t.history, j)
    ensures ToldOf(s.incidents[i]) == ToldOf(t.incidents[j])
  {
    HistoryExplainsIncident(s, i);
    HistoryExplainsIncident(t, j);
    HistoryTellsExactly(HistoryOf(s.history, i), s.incidents[i], t.incidents[j]);
  }

  /** What may change of an incident: nothing that failures touch, once it is not active. */
  predicate Evolves(before: Incident, after: Incident) {
    && after.key == before.key && after.severity == before.severity
    && after.firstOccurredAt == before.firstOccurredAt && after.createdAt == before.createdAt
    && Rank(before.status) <= Rank(after.status)
    && before.failureCount <= after.failureCount
    && before.lastOccurredAt <= after.lastOccurredAt
    && (!before.Active() ==>
          && !after.Active()
          && after.failureCount == before.failureCount
          && after.lastOccurredAt == before.lastOccurredAt
          && after.recoveryNote == before.recoveryNote
          && after.assignee == before.assignee
          && after.acknowledgedAt == before.acknowledgedAt
          && after.resolvedAt == before.resolvedAt)
    && (before.status.Closed? ==> after == before)
  }

  lemma OnlyWritesAndOperatorsTouchIncidents(s: System, a: Action)
    requires Enabled(s, a) && !a.WriteIncident? && !a.Operate?
    ensures Step(s, a).incidents == s.incidents
  {
  }

  lemma ActionEvolves(incident: Incident, action: IncidentAction, now: Instant)
    requires UpdateIncident(incident, action, now).Some?
    ensures Evolves(incident, UpdateIncident(incident, action, now).value)
  {
  }

  lemma RepeatEvolves(incident: Incident, occurredAt: Instant, now: Instant)
    requires incident.Active()
    ensures Evolves(incident, RepeatFailure(incident, occurredAt, now))
  {
  }

  lemma WriteEvolves(s: System, w: WorkerId, acknowledged: bool, i: nat)
    requires LocksHold(s.incidents, s.workers) && i < |s.incidents|
    requires w in s.workers && s.workers[w].Reading?
    ensures i < |WriteStep(s, w, acknowledged).incidents|
    ensures Evolves(s.incidents[i], WriteStep(s, w, acknowledged).incidents[i])
  {
    var found := s.workers[w].found;
    if found == Some(i) {
      assert s.incidents[i].Active();
      var occurredAt := s.workers[w].m.Work().failure.occurredAt;
      assert WriteStep(s, w, acknowledged).incidents[i] == RepeatFailure(s.incidents[i], occurredAt, s.clock);
      RepeatEvolves(s.incidents[i], occurredAt, s.clock);
    } else {
      assert WriteStep(s, w, acknowledged).incidents[i] == s.incidents[i];
    }
  }

  lemma OperateEvolves(s: System, incident: nat, action: IncidentAction, actor: Actor, i: nat)
    requires incident < |s.incidents| && i < |s.incidents|
    ensures i < |OperateStep(s, incident, action, actor).incidents|
    ensures Evolves(s.incidents[i], OperateStep(s, incident, action, actor).incidents[i])
  {
    if UpdateIncident(s.incidents[incident], action, s.clock).Some? {
      ActionEvolves(s.incidents[incident], action, s.clock);
    }
  }

  lemma StepEvolves(s: System, a: Action, i: nat)
    requires LedgerInv(s) && Enabled(s, a) && i < |s.incidents|
    ensures i < |Step(s, a).incidents| && Evolves(s.incidents[i], Step(s, a).incidents[i])
  {
    match a
    case WriteIncident(w, acknowledged) => WriteEvolves(s, w, acknowledged, i);
    case Operate(incident, action, actor) => OperateEvolves(s, incident, action, actor, i);
    case _ => OnlyWritesAndOperatorsTouchIncidents(s, a);
  }

  /** Over any run, ranks only rise and a resolved incident's failures are frozen. */
  lemma {:induction false} RunEvolves(s: System, run: seq<Action>, i: nat)
    requires LedgerInv(s) && Valid(s, run) && i < |s.incidents|
    ensures i < |Run(s, run).incidents| && Evolves(s.incidents[i], Run(s, run).incidents[i])
    decreases |run|
  {
    if run != [] {
      StepKeepsLedger(s, run[0]);
      StepEvolves(s, run[0], i);
      RunEvolves(Step(s, run[0]), run[1..], i);
    }
  }

  /** Once a key's incidents are all resolved, the next committed failure opens a new one. */
  lemma NextFailureOpensNewIncident(s: System, w: WorkerId, acknowledged: bool)
    requires Reachable(s) && w in s.workers && s.workers[w].Reading?
    requires s.workers[w].m.Work().Correlate?
    requires var key := s.workers[w].m.Work().failure.key;
             && key.automationId in s.automations
             && forall i | 0 <= i < |s.incidents| :: !ActiveFor(s.incidents[i], key)
    ensures var failure := s.workers[w].m.Work().failure;
            var s' := Step(s, WriteIncident(w, acknowledged));
            && |s'.incidents| == |s.incidents| + 1 && s'.incidents[..|s.incidents|] == s.incidents
            && ActiveFor(s'.incidents[|s.incidents|], failure.key)
            && s'.incidents[|s.incidents|].failureCount == 1
            && s'.incidents[|s.incidents|].lastOccurredAt == failure.occurredAt
            && s'.incidents[|s.incidents|].severity == s.automations[failure.key.automationId]
  {
    ReachableKeepsLedger(s);
    assert s.workers[w].found.None?;
  }

  /** Both states have this one incident, just opened. */
  ghost predicate JustOpened(s: System, failure: Failure, severity: Severity) {
    Reachable(s) && s.incidents == [OpenIncident(failure, severity, 0)] && s.history == [OpenedEntry(0, failure, 0)]
  }

  /**
    What a history does not tell, as to its opening: any two failures with one error
    code leave the same history, whatever their automations, correlation keys,
    severities and occurrence times.
   */
  lemma OpeningIsNotRecorded(p: Payload, f: Failure, q: Payload, g: Failure, tiers: map<string, Severity>)
    requires Classify(TelemetryAccepted, p) == Correlate(f) && Classify(TelemetryAccepted, q) == Correlate(g)
    requires f.key.automationId in tiers && g.key.automationId in tiers
    requires f.key.errorCode == g.key.errorCode
    ensures exists left, right ::
              && JustOpened(left, f, tiers[f.key.automationId])
              && JustOpened(right, g, tiers[g.key.automationId])
              && left.history == right.history
  {
    hide Classify, Reachable;
    var s := TwoWorkersAboutToOpen(p, f, q, g, tiers);
    assert Step(s, WriteIncident(0, true)) == WriteStep(s, 0, true);
    assert Step(s, WriteIncident(1, true)) == WriteStep(s, 1, true);
    var left := AfterStep(s, WriteIncident(0, true));
    var right := AfterStep(s, WriteIncident(1, true));
    assert JustOpened(left, f, tiers[f.key.automationId]) && JustOpened(right, g, tiers[g.key.automationId]);
  }

  /** One undisturbed correlation by the worker leads from s to s'. */
  predicate CorrelationLeads(s: System, w: WorkerId, s': System) {
    && Enabled(s, SelectIncident(w))
    && Enabled(Step(s, SelectIncident(w)), WriteIncident(w, true))
    && s' == Step(Step(s, SelectIncident(w)), WriteIncident(w, true))
  }

  predicate HoldsReport(s: System, w: WorkerId, f: Failure) {
    w in s.workers && s.workers[w].Holding? && s.workers[w].m.Work() == Correlate(f)
  }

  lemma RepetitionIs(s: System, w: WorkerId, i: nat, f: Failure) returns (s': System)
    requires HoldsReport(s, w, f)
    requires FindActive(s.incidents, f.key) == Some(i) && Unlocked(s, i)
    ensures CorrelationLeads(s, w, s')
    ensures s'.incidents == s.incidents[i := RepeatFailure(s.incidents[i], f.occurredAt, s.clock)]
    ensures s'.history == s.history + [RepeatedEntry(i, f, s.clock)]
  {
    hide Classify, FindActive;
    var read := MoveTo(s, w, Reading(s.workers[w].m, Some(i)));
    assert Step(s, SelectIncident(w)) == read;
    s' := WriteStep(read, w, true);
    assert Step(read, WriteIncident(w, true)) == s';
  }

  /** Nor, as to a repetition, when it occurred: two workers with reports of one key leave the same history. */
  lemma OccurrenceIsNotRecorded(s: System, v: WorkerId, w: WorkerId, i: nat, f: Failure, g: Failure)
    returns (left: System, right: System)
    requires Reachable(s) && HoldsReport(s, v, f) && HoldsReport(s, w, g) && f.key == g.key
    requires i < |s.incidents| && ActiveFor(s.incidents[i], f.key) && Unlocked(s, i)
    requires s.incidents[i].lastOccurredAt < f.occurredAt < g.occurredAt
    ensures left.history == right.history
    ensures left.incidents == s.incidents[i := RepeatFailure(s.incidents[i], f.occurredAt, s.clock)]
    ensures right.incidents == s.incidents[i := RepeatFailure(s.incidents[i], g.occurredAt, s.clock)]
    ensures left.incidents != right.incidents
    ensures CorrelationLeads(s, v, left) && CorrelationLeads(s, w, right)
  {
    hide Classify, Reachable, HoldsReport, Unlocked, CorrelationLeads;
    var found := FindActive(s.incidents, f.key);
    ActiveIncidentIsUnique(s, i, found.value);
    left := RepetitionIs(s, v, i, f);
    right := RepetitionIs(s, w, i, g);
    assert left.incidents[i].lastOccurredAt < right.incidents[i].lastOccurredAt;
  }

  /** Nor who is assigned: two assignments may leave the same history. */
  lemma AssigneeIsNotRecorded(s: System, i: nat, one: string, other: string, note: string, actor: Actor)
    requires Reachable(s) && Enabled(s, Operate(i, Assign(one, note), actor))
    requires s.incidents[i].Active() && one != other
    ensures Enabled(s, Operate(i, Assign(other, note), actor))
    ensures var left, right := Step(s, Operate(i, Assign(one, note), actor)), Step(s, Operate(i, Assign(other, note), actor));
            && left.history == right.history
            && left.incidents[i].assignee != right.incidents[i].assignee
  {
  }
}
