/**
  The operator's side of incidents as it is written: a service that reads and
  checks, above a repository whose update is guarded again in SQL.
 */
module IncidentService {
  import opened Prelude
  import opened Incidents
  import opened IncidentEffects

  datatype ServiceError = NotFound | Conflict | ConnectionFailed

  /** The action is allowed in the state of the row with this id. */
  predicate Allows(incidents: seq<Incident>, id: nat, action: IncidentAction) {
    id < |incidents| && incidents[id].status in AllowedIn(action)
  }

  class IncidentRepository {
    var incidents: seq<Incident>
    var history: seq<HistoryEntry>

    /** The guarded update statement of each action; None when it matches no row. */
    method UpdateIncident(id: nat, action: IncidentAction, now: Instant) returns (r: Option<Incident>)
      modifies this`incidents
      ensures r.Some? <==> Allows(old(incidents), id, action)
      ensures r.Some? ==> r.value == Acted(old(incidents)[id], action, now)
      ensures incidents == if r.Some? then old(incidents)[id := r.value] else old(incidents)
    {
      if id >= |incidents| {
        return None;
      }
      var row := incidents[id];
      match action {
        case Acknowledge(_) =>
          if row.status != IncidentStatus.Open { return None; }
          row := row.(status := IncidentStatus.Acknowledged, acknowledgedAt := Some(now), updatedAt := now);
        case Assign(assignee, _) =>
          if !row.Active() { return None; }
          row := row.(assignee := Some(assignee), updatedAt := now);
        case RecordRecovery(note) =>
          if !row.Active() { return None; }
          row := row.(recoveryNote := Some(note), updatedAt := now);
        case Resolve(note) =>
          if !row.Active() { return None; }
          row := row.(status := IncidentStatus.Resolved, recoveryNote := Some(note), resolvedAt := Some(now), updatedAt := now);
        case Close(_) =>
          if row.status != IncidentStatus.Resolved { return None; }
          row := row.(status := IncidentStatus.Closed, closedAt := Some(now), updatedAt := now);
      }
      incidents := incidents[id := row];
      return Some(row);
    }

    /**
      Updates the row and appends to its history, or does neither: exactly if the action
      is allowed and the transaction commits, whether its caller hears of that or not.
     */
    method ApplyAction(id: nat, action: IncidentAction, principal: string, now: Instant, connection: Connection)
      returns (r: Result<Option<Incident>, ServiceError>)
      modifies this
      ensures r.Ok? <==> connection == Healthy
      ensures r.Ok? ==>
                r.value == if Allows(old(incidents), id, action) then Some(Acted(old(incidents)[id], action, now)) else None
      ensures r.Err? ==> r.error == ConnectionFailed
      ensures if Allows(old(incidents), id, action) && connection != Refused then
                && incidents == old(incidents)[id := Acted(old(incidents)[id], action, now)]
                && history == old(history) + [HistoryEntry(id, RecordedAs(action), Operator(principal), action.note, now)]
              else
                incidents == old(incidents) && history == old(history)
    {
      var savedIncidents, savedHistory := incidents, history;
      var updated := UpdateIncident(id, action, now);
      if updated.Some? {
        history := history + [HistoryEntry(id, HistoryEventType(action), Operator(principal), action.note, now)];
      }
      if updated.None? || connection == Refused {
        incidents, history := savedIncidents, savedHistory;
      }
      return if connection == Healthy then Ok(updated) else Err(ConnectionFailed);
    }
  }

  class IncidentService {
    const repository: IncidentRepository

    constructor (repository: IncidentRepository)
      ensures this.repository == repository
    {
      this.repository := repository;
    }

    /**
      Read, check, act; the read is taken as a parameter, for it may be stale by the
      time of the update. An error leaves the action undone, except that of a commit
      whose answer was lost.
     */
    method ApplyAction(
        id: nat, seen: Option<Incident>, action: IncidentAction, principal: string, now: Instant, connection: Connection)
      returns (r: Result<Incident, ServiceError>)
      modifies repository
      ensures seen.None? <==> r == Err(NotFound)
      ensures r.Ok? <==>
              && seen.Some? && seen.value.status in AllowedIn(action)
              && Allows(old(repository.incidents), id, action)
              && connection == Healthy
      ensures r.Ok? ==> r.value == Acted(old(repository.incidents)[id], action, now)
      ensures if && seen.Some? && seen.value.status in AllowedIn(action)
                 && Allows(old(repository.incidents), id, action) && connection != Refused
              then
                && repository.incidents == old(repository.incidents)[id := Acted(old(repository.incidents)[id], action, now)]
                && repository.history
                   == old(repository.history) + [HistoryEntry(id, RecordedAs(action), Operator(principal), action.note, now)]
              else
                repository.incidents == old(repository.incidents) && repository.history == old(repository.history)
    {
      if seen.None? {
        return Err(NotFound);
      }
      if !IsIncidentActionAllowed(seen.value.status, action) {
        return Err(Conflict);
      }
      var updated := repository.ApplyAction(id, action, principal, now, connection);
      if updated.Err? {
        return Err(updated.error);
      }
      if updated.value.None? {
        return Err(Conflict);
      }
      return Ok(updated.value.value);
    }
  }
}
