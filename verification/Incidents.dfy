/**
  Incident rows, their append-only history, the operator actions guarded by SQL,
  and the reading of a history that must explain the row.
 */
module Incidents {
  import opened Prelude
  import opened Outbox

  datatype IncidentStatus = Open | Acknowledged | Resolved | Closed

  datatype Incident = Incident(
    key: FailureKey,
    severity: Severity,
    status: IncidentStatus,
    failureCount: nat,
    firstOccurredAt: Instant,
    lastOccurredAt: Instant,
    assignee: Option<string>,
    recoveryNote: Option<string>,
    acknowledgedAt: Option<Instant>,
    resolvedAt: Option<Instant>,
    closedAt: Option<Instant>,
    createdAt: Instant,
    updatedAt: Instant)
  {
    predicate Active() {
      status.Open? || status.Acknowledged?
    }
  }

  datatype HistoryEvent =
    | Opened | FailureCorrelated | AcknowledgedBy | Assigned | RecoveryRecorded | ResolvedBy | ClosedBy

  datatype Actor = ControlPlaneWorker | Operator(subject: string)

  /** A worker's note has fixed wording around the error code, which stands for it here. */
  datatype HistoryEntry = HistoryEntry(incident: nat, event: HistoryEvent, actor: Actor, note: string, createdAt: Instant)

  /******* What correlation does *******/

  function OpenIncident(failure: Failure, severity: Severity, now: Instant): Incident {
    Incident(failure.key, severity, IncidentStatus.Open, 1, failure.occurredAt, failure.occurredAt,
             None, None, None, None, None, now, now)
  }

  function RepeatFailure(incident: Incident, occurredAt: Instant, now: Instant): Incident {
    incident.(
    failureCount := incident.failureCount + 1,
    lastOccurredAt := Max(incident.lastOccurredAt, occurredAt),
    updatedAt := now)
  }

  function OpenedEntry(incident: nat, failure: Failure, now: Instant): HistoryEntry {
    HistoryEntry(incident, Opened, ControlPlaneWorker, failure.key.errorCode, now)
  }

  function RepeatedEntry(incident: nat, failure: Failure, now: Instant): HistoryEntry {
    HistoryEntry(incident, FailureCorrelated, ControlPlaneWorker, failure.key.errorCode, now)
  }

  predicate ActiveFor(incident: Incident, key: FailureKey) {
    incident.key == key && incident.Active()
  }

  /** The incident that `status in ('OPEN', 'ACKNOWLEDGED')` selects for a key. */
  function FindActive(incidents: seq<Incident>, key: FailureKey): (found: Option<nat>)
    ensures found.Some? ==> found.value < |incidents| && ActiveFor(incidents[found.value], key)
    ensures found.None? ==> forall i :: 0 <= i < |incidents| ==> !ActiveFor(incidents[i], key)
  {
    if incidents == [] then
      None
    else
      var last := |incidents| - 1;
      if ActiveFor(incidents[last], key) then Some(last) else FindActive(incidents[..last], key)
  }

  /******* What operators do *******/

  datatype IncidentAction =
    | Acknowledge(note: string)
    | Assign(assignee: string, note: string)
    | RecordRecovery(note: string)
    | Resolve(note: string)
    | Close(note: string)

  /** The check that the service makes on the status it has read. */
  predicate IsIncidentActionAllowed(status: IncidentStatus, action: IncidentAction) {
    if action.Close? then status.Resolved?
    else if action.Acknowledge? then status.Open?
    else status.Open? || status.Acknowledged?
  }

  /** The guarded update statements; None when the guard matches no row. */
  function UpdateIncident(incident: Incident, action: IncidentAction, now: Instant): Option<Incident> {
    match action
    case Acknowledge(_) =>
      if incident.status.Open? then
        Some(incident.(status := IncidentStatus.Acknowledged, acknowledgedAt := Some(now), updatedAt := now))
      else None
    case Assign(assignee, _) =>
      if incident.Active() then Some(incident.(assignee := Some(assignee), updatedAt := now)) else None
    case RecordRecovery(note) =>
      if incident.Active() then Some(incident.(recoveryNote := Some(note), updatedAt := now)) else None
    case Resolve(note) =>
      if incident.Active() then
        Some(incident.(status := IncidentStatus.Resolved, recoveryNote := Some(note), resolvedAt := Some(now), updatedAt := now))
      else None
    case Close(_) =>
      if incident.status.Resolved? then
        Some(incident.(status := IncidentStatus.Closed, closedAt := Some(now), updatedAt := now))
      else None
  }

  function HistoryEventType(action: IncidentAction): HistoryEvent {
    match action
    case Acknowledge(_) => AcknowledgedBy
    case Assign(_, _) => Assigned
    case RecordRecovery(_) => RecoveryRecorded
    case Resolve(_) => ResolvedBy
    case Close(_) => ClosedBy
  }

  function ActionEntry(incident: nat, action: IncidentAction, actor: Actor, now: Instant): HistoryEntry {
    HistoryEntry(incident, HistoryEventType(action), actor, action.note, now)
  }

  function Rank(status: IncidentStatus): nat {
    match status
    case Open => 0
    case Acknowledged => 1
    case Resolved => 2
    case Closed => 3
  }

  /** The service's check and the SQL guard are the same condition. */
  lemma GuardMatchesPolicy(incident: Incident, action: IncidentAction, now: Instant)
    ensures UpdateIncident(incident, action, now).Some? <==> IsIncidentActionAllowed(incident.status, action)
  {
  }

  /******* Reading a history *******/

  function OfIncident(incident: nat): HistoryEntry -> bool {
    (entry: HistoryEntry) => entry.incident == incident
  }

  /** The rows `where incident_id = $1`, in the order they were appended. */
  function HistoryOf(history: seq<HistoryEntry>, incident: nat): seq<HistoryEntry> {
    Select(history, OfIncident(incident))
  }

  /** Failures that a history records: its OPENED and FAILURE_CORRELATED entries. */
  function CountFailures(h: seq<HistoryEntry>): nat {
    if h == [] then 0
    else
      var last := h[|h| - 1];
      CountFailures(h[..|h| - 1]) + if last.event.Opened? || last.event.FailureCorrelated? then 1 else 0
  }

  /** The time of the last entry of a kind. */
  function LastTime(h: seq<HistoryEntry>, event: HistoryEvent): Option<Instant> {
    if h == [] then None
    else
      var last := h[|h| - 1];
      if last.event == event then Some(last.createdAt) else LastTime(h[..|h| - 1], event)
  }

  /** The note of the last RECOVERY_RECORDED or RESOLVED entry. */
  function LastRecoveryNote(h: seq<HistoryEntry>): Option<string> {
    if h == [] then None
    else
      var last := h[|h| - 1];
      if last.event.RecoveryRecorded? || last.event.ResolvedBy? then Some(last.note)
      else LastRecoveryNote(h[..|h| - 1])
  }

  /** The status that the last status-changing entry leads to. */
  function StatusAfter(h: seq<HistoryEntry>): IncidentStatus {
    if h == [] then IncidentStatus.Open
    else
      match h[|h| - 1].event
      case Opened => IncidentStatus.Open
      case AcknowledgedBy => IncidentStatus.Acknowledged
      case ResolvedBy => IncidentStatus.Resolved
      case ClosedBy => IncidentStatus.Closed
      case _ => StatusAfter(h[..|h| - 1])
  }

  /** Every column of the row that its history determines agrees with its history. */
  predicate Explains(h: seq<HistoryEntry>, incident: Incident) {
    && h != []
    && h[0].event.Opened?
    && incident.key.errorCode == h[0].note
    && incident.status == StatusAfter(h)
    && incident.failureCount == CountFailures(h)
    && incident.recoveryNote == LastRecoveryNote(h)
    && incident.acknowledgedAt == LastTime(h, AcknowledgedBy)
    && incident.resolvedAt == LastTime(h, ResolvedBy)
    && incident.closedAt == LastTime(h, ClosedBy)
    && incident.createdAt == h[0].createdAt
    && incident.updatedAt == h[|h| - 1].createdAt
    && (incident.assignee.Some? <==> LastTime(h, Assigned).Some?)
  }

  /** The columns of a row that its history tells; of the assignee, only whether there is one. */
  datatype Told = Told(
    errorCode: string,
    status: IncidentStatus,
    failureCount: nat,
    recoveryNote: Option<string>,
    acknowledgedAt: Option<Instant>,
    resolvedAt: Option<Instant>,
    closedAt: Option<Instant>,
    createdAt: Instant,
    updatedAt: Instant,
    hasAssignee: bool)

  function ToldOf(i: Incident): Told {
    Told(i.key.errorCode, i.status, i.failureCount, i.recoveryNote, i.acknowledgedAt, i.resolvedAt, i.closedAt,
         i.createdAt, i.updatedAt, i.assignee.Some?)
  }

  /** A history that explains a row explains exactly the rows that agree with it on these columns. */
  lemma HistoryTellsExactly(h: seq<HistoryEntry>, incident: Incident, other: Incident)
    requires Explains(h, incident)
    ensures Explains(h, other) <==> ToldOf(other) == ToldOf(incident)
  {
  }

  lemma OpeningIsExplained(incident: nat, failure: Failure, severity: Severity, now: Instant)
    ensures Explains([OpenedEntry(incident, failure, now)], OpenIncident(failure, severity, now))
  {
  }

  lemma RepeatIsExplained(h: seq<HistoryEntry>, incident: Incident, i: nat, failure: Failure, now: Instant)
    requires Explains(h, incident)
    ensures Explains(h + [RepeatedEntry(i, failure, now)], RepeatFailure(incident, failure.occurredAt, now))
  {
    assert (h + [RepeatedEntry(i, failure, now)])[..|h|] == h;
  }

  /** An action that passes its guard is explained by the entry it appends. */
  lemma ActionIsExplained(h: seq<HistoryEntry>, incident: Incident, i: nat, action: IncidentAction, actor: Actor, now: Instant)
    requires Explains(h, incident)
    requires UpdateIncident(incident, action, now).Some?
    ensures Explains(h + [ActionEntry(i, action, actor, now)], UpdateIncident(incident, action, now).value)
  {
    assert (h + [ActionEntry(i, action, actor, now)])[..|h|] == h;
  }

  /******* Sums over incidents *******/

  /** The failures counted by all the incidents of one key. */
  function FailuresCounted(incidents: seq<Incident>, key: FailureKey): nat {
    if incidents == [] then 0
    else
      var last := incidents[|incidents| - 1];
      FailuresCounted(incidents[..|incidents| - 1], key) + if last.key == key then last.failureCount else 0
  }

  lemma {:induction false} FailuresCountedUpdate(incidents: seq<Incident>, i: nat, changed: Incident, key: FailureKey)
    requires i < |incidents| && changed.key == incidents[i].key
    ensures FailuresCounted(incidents[i := changed], key)
         == FailuresCounted(incidents, key)
            + if changed.key == key then changed.failureCount - incidents[i].failureCount else 0
  {
    var last := |incidents| - 1;
    if i == last {
      assert incidents[i := changed][..last] == incidents[..last];
    } else {
      assert incidents[i := changed][..last] == incidents[..last][i := changed];
      FailuresCountedUpdate(incidents[..last], i, changed, key);
    }
  }

  lemma FailuresCountedAppend(incidents: seq<Incident>, incident: Incident, key: FailureKey)
    ensures FailuresCounted(incidents + [incident], key)
         == FailuresCounted(incidents, key) + if incident.key == key then incident.failureCount else 0
  {
    assert (incidents + [incident])[..|incidents|] == incidents;
  }
}
