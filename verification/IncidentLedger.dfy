/**
  Incidents under workers and operators at once: at most one active incident per
  key, counts that add up to the committed correlations, and a history that
  explains every row.
 */
module IncidentLedger {
  import opened Prelude
  import opened Outbox
  import opened Incidents
  import opened WorkerProtocol

  /******* Commits against incidents *******/

  /** The committed correlations of one key. */
  function CommitsFor(commits: seq<Commit>, key: FailureKey): nat {
    if commits == [] then 0
    else CommitsFor(commits[..|commits| - 1], key) + if commits[|commits| - 1].failure.key == key then 1 else 0
  }

  /** The occurrence times that correlations carried into one incident, in commit order. */
  function OccurrencesOf(commits: seq<Commit>, incident: nat): seq<Instant> {
    if commits == [] then []
    else
      var last := commits[|commits| - 1];
      var before := OccurrencesOf(commits[..|commits| - 1], incident);
      if last.incident == incident then before + [last.failure.occurredAt] else before
  }

  /** The row counts and dates exactly these occurrences. */
  predicate Counts(incident: Incident, occurrences: seq<Instant>) {
    && occurrences != []
    && incident.failureCount == |occurrences|
    && incident.firstOccurredAt == occurrences[0]
    && incident.lastOccurredAt == Latest(occurrences)
  }

  lemma CommitsForAppend(commits: seq<Commit>, c: Commit, key: FailureKey)
    ensures CommitsFor(commits + [c], key) == CommitsFor(commits, key) + if c.failure.key == key then 1 else 0
  {
    assert (commits + [c])[..|commits|] == commits;
  }

  lemma OccurrencesOfAppend(commits: seq<Commit>, c: Commit, incident: nat)
    ensures OccurrencesOf(commits + [c], incident)
         == if c.incident == incident then OccurrencesOf(commits, incident) + [c.failure.occurredAt]
            else OccurrencesOf(commits, incident)
  {
    assert (commits + [c])[..|commits|] == commits;
  }

  /** No occurrence is recorded against an incident that does not exist yet. */
  lemma {:induction false} NothingBeforeOpening(commits: seq<Commit>, incident: nat)
    requires forall k | 0 <= k < |commits| :: commits[k].incident < incident
    ensures OccurrencesOf(commits, incident) == []
  {
    if commits != [] {
      NothingBeforeOpening(commits[..|commits| - 1], incident);
    }
  }

  /******* The invariant *******/

  predicate AtMostOneActive(incidents: seq<Incident>) {
    forall i, j | 0 <= i < j < |incidents| ::
      incidents[i].Active() && incidents[j].Active() ==> incidents[i].key != incidents[j].key
  }

  /** A transaction that locked an incident still finds it active, and is alone on it. */
  predicate LocksHold(incidents: seq<Incident>, workers: map<WorkerId, Worker>) {
    && (forall w | w in workers && workers[w].Reading? && workers[w].found.Some? ::
          && workers[w].m.Work().Correlate?
          && workers[w].found.value < |incidents|
          && ActiveFor(incidents[workers[w].found.value], workers[w].m.Work().failure.key))
    && (forall v, w | v in workers && w in workers && v != w
                      && workers[v].Reading? && workers[w].Reading? && workers[v].found.Some? ::
          workers[v].found != workers[w].found)
  }

  predicate HistoryExplains(incidents: seq<Incident>, history: seq<HistoryEntry>) {
    && (forall k | 0 <= k < |history| :: history[k].incident < |incidents|)
    && (forall i: nat | i < |incidents| :: Explains(HistoryOf(history, i), incidents[i]))
  }

  predicate CommitsCounted(incidents: seq<Incident>, commits: seq<Commit>) {
    && (forall k | 0 <= k < |commits| ::
          commits[k].incident < |incidents| && incidents[commits[k].incident].key == commits[k].failure.key)
    && (forall i: nat | i < |incidents| :: Counts(incidents[i], OccurrencesOf(commits, i)))
  }

  ghost predicate Balanced(incidents: seq<Incident>, commits: seq<Commit>) {
    forall key :: FailuresCounted(incidents, key) == CommitsFor(commits, key)
  }

  ghost predicate LedgerInv(s: System) {
    && AtMostOneActive(s.incidents)
    && LocksHold(s.incidents, s.workers)
    && HistoryExplains(s.incidents, s.history)
    && CommitsCounted(s.incidents, s.commits)
    && Balanced(s.incidents, s.commits)
  }

  /******* Every action keeps it *******/

  /** No incident changes, and whoever is reading had been reading before. */
  lemma ReadersKeepLedger(s: System, s': System)
    requires LedgerInv(s)
    requires s'.incidents == s.incidents && s'.history == s.history && s'.commits == s.commits
    requires forall w | w in s'.workers && s'.workers[w].Reading? :: w in s.workers && s.workers[w] == s'.workers[w]
    ensures LedgerInv(s')
  {
    hide HistoryExplains, CommitsCounted, Balanced, AtMostOneActive, Classify;
  }

  lemma SelectKeepsLocks(incidents: seq<Incident>, workers: map<WorkerId, Worker>, w: WorkerId, reader: Worker)
    requires LocksHold(incidents, workers)
    requires reader.Reading? && reader.m.Work().Correlate?
    requires reader.found.Some? ==>
               && reader.found.value < |incidents|
               && ActiveFor(incidents[reader.found.value], reader.m.Work().failure.key)
               && forall v | v in workers && workers[v].Reading? :: workers[v].found != reader.found
    ensures LocksHold(incidents, workers[w := reader])
  {
  }

  lemma SelectKeepsLedger(s: System, w: WorkerId)
    requires LedgerInv(s) && Enabled(s, SelectIncident(w))
    ensures LedgerInv(Step(s, SelectIncident(w)))
  {
    hide Classify, HistoryExplains, CommitsCounted, Balanced, AtMostOneActive;
    var m := s.workers[w].m;
    var found := FindActive(s.incidents, m.Work().failure.key);
    assert found.Some? ==> forall v | v in s.workers :: !LockedBy(s, v, found.value);
    SelectKeepsLocks(s.incidents, s.workers, w, Reading(m, found));
  }

  /** An incident that nobody has locked may change in any way that keeps its key. */
  lemma ChangeKeepsLocks(incidents: seq<Incident>, workers: map<WorkerId, Worker>, i: nat, changed: Incident)
    requires LocksHold(incidents, workers) && i < |incidents|
    requires changed.key == incidents[i].key
    requires changed.Active() || forall w | w in workers && workers[w].Reading? :: workers[w].found != Some(i)
    ensures LocksHold(incidents[i := changed], workers)
  {
  }

  /** Ending a transaction, or opening an incident, breaks no other lock. */
  lemma EndKeepsLocks(incidents: seq<Incident>, workers: map<WorkerId, Worker>, w: WorkerId, after: Worker, more: seq<Incident>)
    requires LocksHold(incidents, workers) && !after.Reading?
    ensures LocksHold(incidents + more, workers[w := after])
  {
  }

  lemma RepeatKeepsHistory(incidents: seq<Incident>, history: seq<HistoryEntry>, i: nat, changed: Incident, entry: HistoryEntry)
    requires HistoryExplains(incidents, history)
    requires i < |incidents| && entry.incident == i
    requires Explains(HistoryOf(history, i) + [entry], changed)
    ensures HistoryExplains(incidents[i := changed], history + [entry])
  {
    forall j: nat | j < |incidents|
      ensures Explains(HistoryOf(history + [entry], j), incidents[i := changed][j])
    {
      SelectAppend(history, entry, OfIncident(j));
      assert Explains(HistoryOf(history, j), incidents[j]);
    }
  }

  lemma OpenKeepsHistory(incidents: seq<Incident>, history: seq<HistoryEntry>, incident: Incident, entry: HistoryEntry)
    requires HistoryExplains(incidents, history)
    requires entry.incident == |incidents| && Explains([entry], incident)
    ensures HistoryExplains(incidents + [incident], history + [entry])
  {
    forall j: nat | j < |incidents + [incident]|
      ensures Explains(HistoryOf(history + [entry], j), (incidents + [incident])[j])
    {
      SelectAppend(history, entry, OfIncident(j));
      if j < |incidents| {
        assert Explains(HistoryOf(history, j), incidents[j]);
      } else {
        SelectNone(history, OfIncident(j));
      }
    }
  }

  lemma RepeatKeepsCounts(incidents: seq<Incident>, commits: seq<Commit>, c: Commit, now: Instant)
    requires CommitsCounted(incidents, commits) && Balanced(incidents, commits)
    requires c.incident < |incidents| && incidents[c.incident].key == c.failure.key
    ensures var incidents' := incidents[c.incident := RepeatFailure(incidents[c.incident], c.failure.occurredAt, now)];
            CommitsCounted(incidents', commits + [c]) && Balanced(incidents', commits + [c])
  {
    var changed := RepeatFailure(incidents[c.incident], c.failure.occurredAt, now);
    var incidents' := incidents[c.incident := changed];
    forall j: nat | j < |incidents|
      ensures Counts(incidents'[j], OccurrencesOf(commits + [c], j))
    {
      OccurrencesOfAppend(commits, c, j);
      var before := OccurrencesOf(commits, j);
      assert Counts(incidents[j], before);
      assert (before + [c.failure.occurredAt])[..|before|] == before;
    }
    forall key
      ensures FailuresCounted(incidents', key) == CommitsFor(commits + [c], key)
    {
      CommitsForAppend(commits, c, key);
      FailuresCountedUpdate(incidents, c.incident, changed, key);
    }
  }

  lemma OpenKeepsCounts(incidents: seq<Incident>, commits: seq<Commit>, c: Commit, severity: Severity, now: Instant)
    requires CommitsCounted(incidents, commits) && Balanced(incidents, commits)
    requires c.incident == |incidents|
    ensures var incidents' := incidents + [OpenIncident(c.failure, severity, now)];
            CommitsCounted(incidents', commits + [c]) && Balanced(incidents', commits + [c])
  {
    var incident := OpenIncident(c.failure, severity, now);
    var incidents' := incidents + [incident];
    forall j: nat | j < |incidents'|
      ensures Counts(incidents'[j], OccurrencesOf(commits + [c], j))
    {
      OccurrencesOfAppend(commits, c, j);
      if j < |incidents| {
        assert Counts(incidents[j], OccurrencesOf(commits, j));
      } else {
        NothingBeforeOpening(commits, j);
      }
    }
    forall key
      ensures FailuresCounted(incidents', key) == CommitsFor(commits + [c], key)
    {
      CommitsForAppend(commits, c, key);
      FailuresCountedAppend(incidents, incident, key);
    }
  }

  lemma WriteRepeatKeepsLedger(s: System, w: WorkerId, acknowledged: bool)
    requires LedgerInv(s) && w in s.workers && s.workers[w].Reading? && s.workers[w].found.Some?
    ensures LedgerInv(WriteStep(s, w, acknowledged))
  {
    hide Classify, FindActive, Explains;
    var m, i := s.workers[w].m, s.workers[w].found.value;
    var failure := m.Work().failure;
    var changed := RepeatFailure(s.incidents[i], failure.occurredAt, s.clock);
    assert Explains(HistoryOf(s.history, i), s.incidents[i]);
    RepeatIsExplained(HistoryOf(s.history, i), s.incidents[i], i, failure, s.clock);
    RepeatKeepsHistory(s.incidents, s.history, i, changed, RepeatedEntry(i, failure, s.clock));
    RepeatKeepsCounts(s.incidents, s.commits, Commit(m.id, m.attempts, failure, i), s.clock);
    ChangeKeepsLocks(s.incidents, s.workers, i, changed);
    var s' := WriteStep(s, w, acknowledged);
    EndKeepsLocks(s'.incidents, s.workers, w, s'.workers[w], []);
    assert s'.incidents + [] == s'.incidents;
  }

  lemma OpenKeepsLedger(s: System, s': System, w: WorkerId, after: Worker, severity: Severity, c: Commit)
    requires LedgerInv(s) && c.incident == |s.incidents|
    requires forall i | 0 <= i < |s.incidents| :: !ActiveFor(s.incidents[i], c.failure.key)
    requires s'.incidents == s.incidents + [OpenIncident(c.failure, severity, s.clock)]
    requires s'.history == s.history + [OpenedEntry(c.incident, c.failure, s.clock)]
    requires s'.commits == s.commits + [c]
    requires s'.workers == s.workers[w := after] && !after.Reading?
    ensures LedgerInv(s')
  {
    var opening := OpenIncident(c.failure, severity, s.clock);
    OpeningIsExplained(c.incident, c.failure, severity, s.clock);
    OpenKeepsHistory(s.incidents, s.history, opening, OpenedEntry(c.incident, c.failure, s.clock));
    OpenKeepsCounts(s.incidents, s.commits, c, severity, s.clock);
    EndKeepsLocks(s.incidents, s.workers, w, after, [opening]);
  }

  lemma WriteOpenKeepsLedger(s: System, w: WorkerId, acknowledged: bool)
    requires LedgerInv(s) && w in s.workers && s.workers[w].Reading? && s.workers[w].found.None?
    ensures LedgerInv(WriteStep(s, w, acknowledged))
  {
    hide Classify, LedgerInv;
    var m := s.workers[w].m;
    if m.Work().Correlate? {
      var failure := m.Work().failure;
      if failure.key.automationId !in s.automations {
        ReadersKeepLedger(s, WriteStep(s, w, acknowledged));
      } else if FindActive(s.incidents, failure.key).Some? {
        ReadersKeepLedger(s, WriteStep(s, w, acknowledged));
      } else {
        OpenKeepsLedger(s, WriteStep(s, w, acknowledged), w,
                        if acknowledged then Correlated(m) else Failing(m, ConnectionLost),
                        s.automations[failure.key.automationId], Commit(m.id, m.attempts, failure, |s.incidents|));
      }
    }
  }

  lemma ActionKeepsCounts(incidents: seq<Incident>, commits: seq<Commit>, i: nat, changed: Incident)
    requires CommitsCounted(incidents, commits) && Balanced(incidents, commits)
    requires i < |incidents|
    requires changed.key == incidents[i].key && changed.failureCount == incidents[i].failureCount
    requires changed.firstOccurredAt == incidents[i].firstOccurredAt
    requires changed.lastOccurredAt == incidents[i].lastOccurredAt
    ensures CommitsCounted(incidents[i := changed], commits) && Balanced(incidents[i := changed], commits)
  {
    forall key
      ensures FailuresCounted(incidents[i := changed], key) == CommitsFor(commits, key)
    {
      FailuresCountedUpdate(incidents, i, changed, key);
    }
    forall j: nat | j < |incidents|
      ensures Counts(incidents[i := changed][j], OccurrencesOf(commits, j))
    {
      assert Counts(incidents[j], OccurrencesOf(commits, j));
    }
  }

  lemma UpdateKeepsColumns(incident: Incident, action: IncidentAction, now: Instant)
    requires UpdateIncident(incident, action, now).Some?
    ensures var updated := UpdateIncident(incident, action, now).value;
            && updated.key == incident.key && updated.failureCount == incident.failureCount
            && updated.firstOccurredAt == incident.firstOccurredAt && updated.lastOccurredAt == incident.lastOccurredAt
            && (updated.Active() ==> incident.Active())
  {
  }

  lemma OperateKeepsLedger(s: System, i: nat, action: IncidentAction, actor: Actor)
    requires LedgerInv(s) && Enabled(s, Operate(i, action, actor))
    ensures LedgerInv(OperateStep(s, i, action, actor))
  {
    hide Classify, Explains, Counts, FailuresCounted, CommitsFor, UpdateIncident, HistoryOf;
    var updated := UpdateIncident(s.incidents[i], action, s.clock);
    if updated.Some? {
      UpdateKeepsColumns(s.incidents[i], action, s.clock);
      var entry := ActionEntry(i, action, actor, s.clock);
      assert Explains(HistoryOf(s.history, i), s.incidents[i]);
      ActionIsExplained(HistoryOf(s.history, i), s.incidents[i], i, action, actor, s.clock);
      RepeatKeepsHistory(s.incidents, s.history, i, updated.value, entry);
      ActionKeepsCounts(s.incidents, s.commits, i, updated.value);
      assert forall w | w in s.workers :: !LockedBy(s, w, i);
      ChangeKeepsLocks(s.incidents, s.workers, i, updated.value);
    }
  }

  /** The actions on outbox, clock and catalog; they may end a worker's transaction, but begin none. */
  lemma OtherActionsBeginNothing(s: System, a: Action)
    requires Enabled(s, a) && !a.SelectIncident? && !a.WriteIncident? && !a.Operate?
    ensures var s' := Step(s, a);
            && s'.incidents == s.incidents && s'.history == s.history && s'.commits == s.commits
            && forall w | w in s'.workers && s'.workers[w].Reading? :: w in s.workers && s.workers[w] == s'.workers[w]
  {
    hide Classify, NextToLease;
  }

  lemma StepKeepsLedger(s: System, a: Action)
    requires LedgerInv(s) && Enabled(s, a)
    ensures LedgerInv(Step(s, a))
  {
    hide LedgerInv, WriteStep, OperateStep, Classify, NextToLease, FindActive;
    match a
    case SelectIncident(w) => SelectKeepsLedger(s, w);
    case WriteIncident(w, acknowledged) =>
      if s.workers[w].found.Some? {
        WriteRepeatKeepsLedger(s, w, acknowledged);
      } else {
        WriteOpenKeepsLedger(s, w, acknowledged);
      }
    case Operate(i, action, actor) => OperateKeepsLedger(s, i, action, actor);
    case _ =>
      OtherActionsBeginNothing(s, a);
      ReadersKeepLedger(s, Step(s, a));
  }

  lemma {:induction false} RunKeepsLedger(s: System, run: seq<Action>)
    requires LedgerInv(s) && Valid(s, run)
    ensures LedgerInv(Run(s, run))
    decreases |run|
  {
    if run != [] {
      StepKeepsLedger(s, run[0]);
      RunKeepsLedger(Step(s, run[0]), run[1..]);
    }
  }

  lemma ReachableKeepsLedger(s: System)
    requires Reachable(s)
    ensures LedgerInv(s)
  {
    var clock, run :| Valid(Initial(clock), run) && Run(Initial(clock), run) == s;
    RunKeepsLedger(Initial(clock), run);
  }
}
