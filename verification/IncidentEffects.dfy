/**
  What workers and operators leave in an incident and its history, column by column,
  and where the columns that never change came from.
 */
module IncidentEffects {
  import opened Prelude
  import opened Outbox
  import opened Incidents
  import opened WorkerProtocol
  import opened IncidentLedger
  import opened FailureConservation

  /** A failure opens an incident of its automation's present tier, as a worker's doing. */
  lemma OpeningTakesEffect(s: System, w: WorkerId, acknowledged: bool, failure: Failure)
    requires AboutToOpen(s, w, failure)
    ensures var s' := Step(s, WriteIncident(w, acknowledged));
            && s'.incidents
               == s.incidents
                  + [Incident(failure.key, s.automations[failure.key.automationId], IncidentStatus.Open, 1,
                              failure.occurredAt, failure.occurredAt, None, None, None, None, None, s.clock, s.clock)]
            && s'.history
               == s.history + [HistoryEntry(|s.incidents|, Opened, ControlPlaneWorker, failure.key.errorCode, s.clock)]
  {
    hide Classify;
  }

  /** A repetition counts one more failure, keeps the later time, and changes nothing else of the row. */
  lemma RepetitionTakesEffect(s: System, w: WorkerId, acknowledged: bool, i: nat, failure: Failure)
    requires w in s.workers && s.workers[w].Reading? && s.workers[w].found == Some(i) && i < |s.incidents|
    requires s.workers[w].m.Work() == Correlate(failure)
    ensures var s' := Step(s, WriteIncident(w, acknowledged));
            var row := s.incidents[i];
            && s'.incidents
               == s.incidents[i := row.(failureCount := row.failureCount + 1, updatedAt := s.clock,
                                        lastOccurredAt := if failure.occurredAt > row.lastOccurredAt then failure.occurredAt
                                                          else row.lastOccurredAt)]
            && s'.history == s.history + [HistoryEntry(i, FailureCorrelated, ControlPlaneWorker, failure.key.errorCode, s.clock)]
  {
    hide Classify, FindActive;
  }

  /** The row after an action that its state allows. */
  function Acted(row: Incident, action: IncidentAction, now: Instant): Incident {
    var stamped := row.(updatedAt := now);
    match action
    case Acknowledge(_) => stamped.(status := IncidentStatus.Acknowledged, acknowledgedAt := Some(now))
    case Assign(assignee, _) => stamped.(assignee := Some(assignee))
    case RecordRecovery(note) => stamped.(recoveryNote := Some(note))
    case Resolve(note) => stamped.(status := IncidentStatus.Resolved, resolvedAt := Some(now), recoveryNote := Some(note))
    case Close(_) => stamped.(status := IncidentStatus.Closed, closedAt := Some(now))
  }

  /** The states in which each action may be taken. */
  function AllowedIn(action: IncidentAction): set<IncidentStatus> {
    match action
    case Acknowledge(_) => {IncidentStatus.Open}
    case Close(_) => {IncidentStatus.Resolved}
    case _ => {IncidentStatus.Open, IncidentStatus.Acknowledged}
  }

  function RecordedAs(action: IncidentAction): HistoryEvent {
    match action
    case Acknowledge(_) => AcknowledgedBy
    case Assign(_, _) => Assigned
    case RecordRecovery(_) => RecoveryRecorded
    case Resolve(_) => ResolvedBy
    case Close(_) => ClosedBy
  }

  /** An operator's action changes the row and is recorded under the operator's name, or does neither. */
  lemma ActionTakesEffect(s: System, i: nat, action: IncidentAction, actor: Actor)
    requires Enabled(s, Operate(i, action, actor))
    ensures var s' := Step(s, Operate(i, action, actor));
            if s.incidents[i].status in AllowedIn(action) then
              && s'.incidents == s.incidents[i := Acted(s.incidents[i], action, s.clock)]
              && s'.history == s.history + [HistoryEntry(i, RecordedAs(action), actor, action.note, s.clock)]
            else
              s' == s
  {
  }

  /******* Where an incident's fixed columns come from *******/

  /** The action is a worker's write that opens incident i, for a failure at its first time, with the tier of then. */
  predicate Opens(before: System, a: Action, i: nat, row: Incident) {
    && |before.incidents| == i && a.WriteIncident?
    && AboutToOpen(before, a.w, Failure(row.key, row.firstOccurredAt))
    && row.severity == before.automations[row.key.automationId]
    && row.createdAt == before.clock
  }

  /** Action k of the run opens it. */
  predicate OpensAt(s: System, run: seq<Action>, k: nat, i: nat, row: Incident) {
    k < |run| && Valid(s, run[..k]) && Opens(Run(s, run[..k]), run[k], i, row)
  }

  lemma NewIncidentIsOpened(s: System, a: Action, i: nat)
    requires Reachable(s) && Enabled(s, a) && |s.incidents| <= i < |Step(s, a).incidents|
    ensures Opens(s, a, i, Step(s, a).incidents[i])
  {
    hide Classify, Reachable;
    if !a.WriteIncident? && !a.Operate? {
      OnlyWritesAndOperatorsTouchIncidents(s, a);
    }
    var failure := s.workers[a.w].m.Work().failure;
    assert AboutToOpen(s, a.w, failure);
    OpeningTakesEffect(s, a.w, a.acknowledged, failure);
    hide Step, Enabled;
  }

  lemma {:induction false} RowWasOpened(s: System, run: seq<Action>, i: nat) returns (k: nat)
    requires Reachable(s) && Valid(s, run) && |s.incidents| <= i < |Run(s, run).incidents|
    ensures OpensAt(s, run, k, i, Run(s, run).incidents[i])
    decreases |run|
  {
    hide Reachable, Step, Enabled, Opens;
    var s', rest := Step(s, run[0]), run[1..];
    ReachableStep(s, run[0]);
    if i < |s'.incidents| {
      NewIncidentIsOpened(s, run[0], i);
      ReachableKeepsLedger(s');
      RunEvolves(s', rest, i);
      k := 0;
      OpeningSurvives(s, run[0], i, s'.incidents[i], Run(s', rest).incidents[i]);
    } else {
      var k' := RowWasOpened(s', rest, i);
      k := k' + 1;
      assert run[..k][1..] == rest[..k'] && run[..k][0] == run[0];
    }
  }

  lemma OpeningSurvives(before: System, a: Action, i: nat, row: Incident, later: Incident)
    requires Opens(before, a, i, row) && Evolves(row, later)
    ensures Opens(before, a, i, later)
  {
  }

  /**
    Every incident of a run was opened by one of its writes, for a failure that occurred
    at the incident's first time, with the tier that its automation had then, whatever
    has happened since.
   */
  lemma SeverityIsTheTierAtOpening(clock: Instant, run: seq<Action>, i: nat)
    requires Valid(Initial(clock), run) && i < |Run(Initial(clock), run).incidents|
    ensures exists k: nat :: OpensAt(Initial(clock), run, k, i, Run(Initial(clock), run).incidents[i])
  {
    hide OpensAt;
    InitialIsReachable(clock);
    var k := RowWasOpened(Initial(clock), run, i);
  }
}
