/** The telemetry repository as it is written: one transaction over three tables. */
module TelemetryService {
  import opened Prelude
  import opened Outbox
  import opened Telemetry

  class TelemetryRepository {
    var automations: set<string>
    var events: seq<AcceptedEvent>
    var executions: map<ExecutionKey, Execution>
    var messages: seq<Message>

    ghost function View(): Store
      reads this
    {
      Store(events, executions, messages)
    }

    constructor (automations: set<string>)
      ensures View() == EMPTY_STORE && this.automations == automations
    {
      this.automations := automations;
      events, executions, messages := [], map[], [];
    }

    /** `on conflict (event_id) do nothing returning accepted_at`: None on a conflict. */
    method InsertEvent(event: Event, machineClientId: string, now: Instant)
      returns (r: Result<Option<Instant>, AcceptError>)
      modifies this`events
      ensures r.Ok? && r.value.Some? <==>
              MeetsRowCheck(event) && FindEvent(old(events), event.id).None? && event.automationId in automations
      ensures r.Ok? && r.value.Some? ==>
                r.value.value == now && events == old(events) + [AcceptedEvent(event, machineClientId, now)]
      ensures r.Ok? && r.value.None? <==> MeetsRowCheck(event) && FindEvent(old(events), event.id).Some?
      ensures r.Err? || r.value.None? ==> events == old(events)
      ensures r.Err? ==> r.error == if MeetsRowCheck(event) then ForeignKeyViolation else CheckViolation
    {
      if !MeetsRowCheck(event) {
        return Err(CheckViolation);
      }
      if FindEvent(events, event.id).Some? {
        return Ok(None);
      }
      if event.automationId !in automations {
        return Err(ForeignKeyViolation);
      }
      events := events + [AcceptedEvent(event, machineClientId, now)];
      return Ok(Some(now));
    }

    method UpdateExecution(event: Event, now: Instant)
      modifies this`executions
      ensures executions == Upsert(old(executions), event, now)
    {
      var key := event.Key();
      if key !in executions {
        executions := executions[key := NewExecution(event, now)];
        return;
      }
      var row := executions[key];
      if row.status == Started && event.status != Started {
        row := row.(status := event.status, duration := event.duration, errorCode := event.errorCode);
      }
      if row.correlationId == None {
        row := row.(correlationId := event.correlationId);
      }
      row := row.(
      firstOccurredAt := Min(row.firstOccurredAt, event.occurredAt),
      latestOccurredAt := Max(row.latestOccurredAt, event.occurredAt),
      eventCount := row.eventCount + 1,
      updatedAt := now);
      executions := executions[key := row];
    }

    /**
      One transaction: an error before the commit takes everything back, and a commit
      whose answer is lost is an error that changed the tables. It keeps what
      ingestion keeps in every case.
     */
    method Accept(event: Event, machineClientId: string, now: Instant, connection: Connection)
      returns (r: Result<Receipt, AcceptError>)
      modifies this`events, this`executions, this`messages
      ensures (View(), r) == AcceptCall(old(View()), Delivery(event, machineClientId, now, automations), connection)
      ensures r.Ok? && !r.value.replayed ==>
                && r.value == Receipt(now, event.id, false)
                && events == old(events) + [AcceptedEvent(event, machineClientId, now)]
                && |messages| == |old(messages)| + 1 && messages[..|old(messages)|] == old(messages)
                && WorkFor(messages[|old(messages)|], event, now)
      ensures old(StoreInv(View())) ==> StoreInv(View())
    {
      var delivery := Delivery(event, machineClientId, now, automations);
      if Telemetry.Accept(View(), delivery).1.Ok? && !Telemetry.Accept(View(), delivery).1.value.replayed {
        AcceptanceWrites(View(), delivery);
      }
      AcceptCallPreserves(View(), Delivery(event, machineClientId, now, automations), connection);
      hide StoreInv, Encode, AggregateId, Upsert, WorkFor;
      var savedEvents, savedExecutions, savedMessages := events, executions, messages;
      var accepted := InsertEvent(event, machineClientId, now);
      if accepted.Err? {
        return Err(if connection == Refused then ConnectionFailed else accepted.error);
      }
      var receipt: Receipt;
      if accepted.value.None? {
        var existing := FindEvent(events, event.id);
        receipt := Receipt(events[existing.value].acceptedAt, event.id, true);
      } else {
        UpdateExecution(event, now);
        messages := messages + [NewMessage(TelemetryAccepted, AggregateId(event), Encode(event), DEFAULT_MAX_ATTEMPTS, now)];
        receipt := Receipt(accepted.value.value, event.id, false);
      }
      if connection == Refused {
        events, executions, messages := savedEvents, savedExecutions, savedMessages;
      }
      return if connection == Healthy then Ok(receipt) else Err(ConnectionFailed);
    }
  }

  lemma AcceptCallPreserves(s: Store, d: Delivery, connection: Connection)
    ensures StoreInv(s) ==> StoreInv(AcceptCall(s, d, connection).0)
  {
    hide StoreInv, Telemetry.Accept;
    if StoreInv(s) {
      AcceptKeepsInv(s, d);
    }
  }
}
