/**
  Telemetry ingestion: one transaction that records an event once, keeps the
  `executions` aggregate up to date, and leaves work for the outbox.
 */
module Telemetry {
  import opened Prelude
  import opened Outbox

  datatype Event = Event(
    id: nat,
    automationId: string,
    releaseVersion: string,
    platform: string,
    environment: string,
    executionId: string,
    status: ExecutionStatus,
    occurredAt: Instant,
    duration: Option<nat>,
    errorCode: Option<string>,
    correlationId: Option<string>)
  {
    predicate Terminal() {
      !status.Started?
    }

    predicate IsFailure() {
      status.Failed? || status.TimedOut?
    }

    function Key(): ExecutionKey {
      ExecutionKey(automationId, environment, executionId)
    }
  }

  datatype ExecutionKey = ExecutionKey(automationId: string, environment: string, executionId: string)

  /** The refinements of the event contract, beyond the shape of each field. */
  predicate MeetsContract(e: Event) {
    && e.automationId != "" && e.environment != "" && e.executionId != ""
    && (e.correlationId.Some? ==> e.correlationId.value != "")
    && (e.IsFailure() ==> e.errorCode.Some?)
    && (e.Terminal() ==> e.duration.Some?)
  }

  /** The table's check constraint on failure details, which is stricter. */
  predicate MeetsRowCheck(e: Event) {
    match e.status
    case Started => true
    case Succeeded => e.errorCode.None? && e.duration.Some?
    case _ => e.errorCode.Some? && e.duration.Some?
  }

  /** The constraint as rules: which fields an event must, and must not, carry for its status. */
  lemma RowCheckRules(e: Event)
    ensures MeetsRowCheck(e) <==>
              && (e.status in {Failed, TimedOut} ==> e.errorCode.Some?)
              && (e.status in {Succeeded} ==> e.errorCode.None?)
              && (e.status in {Succeeded, Failed, TimedOut} ==> e.duration.Some?)
  {
  }

  /** The one kind of event that the contract lets in and the table refuses. */
  lemma ContractAgainstRowCheck(e: Event)
    requires MeetsContract(e)
    ensures MeetsRowCheck(e) <==> !(e.status.Succeeded? && e.errorCode.Some?)
  {
  }

  /******* The tables *******/

  datatype AcceptedEvent = AcceptedEvent(event: Event, machineClientId: string, acceptedAt: Instant)

  datatype Execution = Execution(
    releaseVersion: string,
    platform: string,
    status: ExecutionStatus,
    firstOccurredAt: Instant,
    latestOccurredAt: Instant,
    duration: Option<nat>,
    errorCode: Option<string>,
    correlationId: Option<string>,
    eventCount: nat,
    updatedAt: Instant)

  /** Accepted events are kept in the order in which they were accepted. */
  datatype Store = Store(
    events: seq<AcceptedEvent>,
    executions: map<ExecutionKey, Execution>,
    messages: seq<Message>)

  datatype Receipt = Receipt(acceptedAt: Instant, eventId: nat, replayed: bool)

  datatype AcceptError = CheckViolation | ForeignKeyViolation | ConnectionFailed

  const EMPTY_STORE := Store([], map[], [])

  predicate HasId(events: seq<AcceptedEvent>, id: nat, i: nat) {
    i < |events| && events[i].event.id == id
  }

  function FindEvent(events: seq<AcceptedEvent>, id: nat): (found: Option<nat>)
    ensures found.Some? ==> HasId(events, id, found.value)
    ensures found.None? ==> forall i: nat :: !HasId(events, id, i)
  {
    if events == [] then None
    else
      var last := |events| - 1;
      if events[last].event.id == id then Some(last)
      else
        var found := FindEvent(events[..last], id);
        assert forall i: nat | i < last :: HasId(events, id, i) == HasId(events[..last], id, i);
        found
  }

  /******* The upsert *******/

  function NewExecution(e: Event, now: Instant): Execution {
    Execution(e.releaseVersion, e.platform, e.status, e.occurredAt, e.occurredAt,
              e.duration, e.errorCode, e.correlationId, 1, now)
  }

  function MergeExecution(x: Execution, e: Event, now: Instant): Execution {
    var decides := x.status.Started? && !e.status.Started?;
    x.(
    firstOccurredAt := Min(x.firstOccurredAt, e.occurredAt),
    latestOccurredAt := Max(x.latestOccurredAt, e.occurredAt),
    status := if decides then e.status else x.status,
    duration := if decides then e.duration else x.duration,
    errorCode := if decides then e.errorCode else x.errorCode,
    correlationId := if x.correlationId.Some? then x.correlationId else e.correlationId,
    eventCount := x.eventCount + 1,
    updatedAt := now)
  }

  function Upsert(executions: map<ExecutionKey, Execution>, e: Event, now: Instant): map<ExecutionKey, Execution> {
    executions[e.Key() := if e.Key() in executions then MergeExecution(executions[e.Key()], e, now) else NewExecution(e, now)]
  }

  /******* The outbox intent *******/

  function CorrelationKey(e: Event): string {
    if e.correlationId.Some? then e.correlationId.value else e.executionId
  }

  /** JSON.stringify leaves out an undefined error code. */
  function Encode(e: Event): Payload {
    var fields := map[
                    AutomationId := Text(e.automationId),
                    CorrelationId := Text(CorrelationKey(e)),
                    Environment := Text(e.environment),
                    EventId := Uuid(e.id),
                    ExecutionId := Text(e.executionId),
                    OccurredAt := Timestamp(e.occurredAt),
                    Status := StatusName(e.status)];
    if e.errorCode.Some? then fields[ErrorCode := Text(e.errorCode.value)] else fields
  }

  function AggregateId(e: Event): string {
    e.automationId + ":" + e.environment + ":" + e.executionId
  }

  function Intent(a: AcceptedEvent): Message {
    NewMessage(TelemetryAccepted, AggregateId(a.event), Encode(a.event), DEFAULT_MAX_ATTEMPTS, a.acceptedAt)
  }

  /** Work that ingestion writes takes no contract-error branch: it is correlated if and only if it reports a failure. */
  lemma IngestedWorkIsNeverRejected(a: AcceptedEvent)
    requires MeetsContract(a.event)
    ensures Intent(a).Work()
         == if a.event.IsFailure()
            then Correlate(Failure(FailureKey(a.event.automationId, CorrelationKey(a.event), a.event.errorCode.value),
                                   a.event.occurredAt))
            else Nothing
  {
    var payload := Encode(a.event);
    assert forall field | field in payload :: !field.Unexpected?;
    assert MatchesSchema(payload);
  }

  /** The payload tells of the event what the worker is to know, field by field, and nothing else. */
  predicate Tells(payload: Payload, e: Event) {
    && payload.Keys == {AutomationId, CorrelationId, Environment, EventId, ExecutionId, OccurredAt, Status}
                       + (if e.errorCode.Some? then {ErrorCode} else {})
    && payload[AutomationId] == Text(e.automationId)
    && payload[CorrelationId] == Text(if e.correlationId.Some? then e.correlationId.value else e.executionId)
    && payload[Environment] == Text(e.environment)
    && payload[EventId] == Uuid(e.id)
    && payload[ExecutionId] == Text(e.executionId)
    && payload[OccurredAt] == Timestamp(e.occurredAt)
    && payload[Status] == StatusName(e.status)
    && (e.errorCode.Some? ==> payload[ErrorCode] == Text(e.errorCode.value))
  }

  lemma EncodingTells(e: Event)
    ensures Tells(Encode(e), e)
  {
  }

  lemma TellingIsUnique(p: Payload, q: Payload, e: Event)
    requires Tells(p, e) && Tells(q, e)
    ensures p == q
  {
  }

  /** What a payload that passes the worker's schema says, as an event; the rest of the event is left blank. */
  function ReadEvent(p: Payload): Event
    requires MatchesSchema(p)
  {
    Event(p[EventId].uuid, p[AutomationId].text, "", "", p[Environment].text, p[ExecutionId].text, p[Status].status,
          p[OccurredAt].at, None, if ErrorCode in p then Some(p[ErrorCode].text) else None, Some(p[CorrelationId].text))
  }

  predicate IsNamed(e: Event) {
    && e.automationId != "" && e.environment != "" && e.executionId != ""
    && (e.correlationId.Some? ==> e.correlationId.value != "")
  }

  ghost predicate TellsOfSomeEvent(p: Payload) {
    exists e :: IsNamed(e) && Tells(p, e)
  }

  /** The worker's schema lets in exactly what ingestion could have written, of any event with names. */
  lemma SchemaIsWhatIngestionWrites(p: Payload)
    ensures MatchesSchema(p) <==> TellsOfSomeEvent(p)
  {
    if MatchesSchema(p) {
      var e := ReadEvent(p);
      forall field
        ensures field in p <==> field in Encode(e)
      {
        assert field in p ==> !field.Unexpected?;
      }
      EncodingTells(e);
      assert IsNamed(e) && Tells(p, e);
    }
    if TellsOfSomeEvent(p) {
      var e :| IsNamed(e) && Tells(p, e);
      assert forall field | field in p :: !field.Unexpected?;
    }
  }

  /**
    What a worker has to do with any message, in terms of the event it tells of: only
    failures are correlated, by automation, correlation key and error code; and only
    foreign topics, foreign payloads and failures without an error code are rejected.
   */
  lemma WorkFollowsFromEvent(topic: Topic, p: Payload, e: Event)
    requires IsNamed(e) && Tells(p, e)
    ensures Classify(topic, p)
         == if topic.UnknownTopic? then Reject(UnsupportedTopic(topic))
            else if e.status !in {Failed, TimedOut} then Nothing
            else if e.errorCode.None? then Reject(MissingErrorCode)
            else Correlate(Failure(FailureKey(e.automationId, CorrelationKey(e), e.errorCode.value), e.occurredAt))
  {
    assert TellsOfSomeEvent(p);
    SchemaIsWhatIngestionWrites(p);
  }

  lemma ForeignPayloadsAreRejected(topic: Topic, p: Payload)
    requires !TellsOfSomeEvent(p)
    ensures Classify(topic, p) == Reject(if topic.UnknownTopic? then UnsupportedTopic(topic) else SchemaMismatch)
  {
    SchemaIsWhatIngestionWrites(p);
  }

  /** Nothing that the payload is meant to carry is lost in it. */
  lemma EncodingIsFaithful(e: Event, f: Event)
    requires Encode(e) == Encode(f)
    ensures e.id == f.id && e.Key() == f.Key() && e.status == f.status && e.occurredAt == f.occurredAt
    ensures e.errorCode == f.errorCode && CorrelationKey(e) == CorrelationKey(f)
  {
    assert Encode(e)[AutomationId] == Text(e.automationId) && Encode(f)[AutomationId] == Text(f.automationId);
    assert Encode(e)[Environment] == Text(e.environment) && Encode(f)[Environment] == Text(f.environment);
    assert Encode(e)[ExecutionId] == Text(e.executionId) && Encode(f)[ExecutionId] == Text(f.executionId);
    assert Encode(e)[EventId] == Uuid(e.id) && Encode(f)[EventId] == Uuid(f.id);
    assert Encode(e)[OccurredAt] == Timestamp(e.occurredAt) && Encode(f)[OccurredAt] == Timestamp(f.occurredAt);
    assert Encode(e)[Status] == StatusName(e.status) && Encode(f)[Status] == StatusName(f.status);
    assert Encode(e)[CorrelationId] == Text(CorrelationKey(e)) && Encode(f)[CorrelationId] == Text(CorrelationKey(f));
    assert ErrorCode in Encode(e) <==> e.errorCode.Some?;
    assert ErrorCode in Encode(f) <==> f.errorCode.Some?;
  }

  /******* The transaction *******/

  /** One request to accept an event; `registered` holds the automations that the catalog has by then. */
  datatype Delivery = Delivery(event: Event, machineClientId: string, now: Instant, registered: set<string>)
  {
    predicate Acceptable() {
      MeetsRowCheck(event) && event.automationId in registered
    }

    function Accepted(): AcceptedEvent {
      AcceptedEvent(event, machineClientId, now)
    }
  }

  /** The row check comes before the conflict on event_id, and the foreign key after it. */
  function Accept(s: Store, d: Delivery): (Store, Result<Receipt, AcceptError>) {
    if !MeetsRowCheck(d.event) then
      (s, Err(CheckViolation))
    else
      match FindEvent(s.events, d.event.id)
      case Some(i) => (s, Ok(Receipt(s.events[i].acceptedAt, d.event.id, true)))
      case None =>
        if d.event.automationId !in d.registered then
          (s, Err(ForeignKeyViolation))
        else
          (Store(s.events + [d.Accepted()], Upsert(s.executions, d.event, d.now), s.messages + [Intent(d.Accepted())]),
           Ok(Receipt(d.now, d.event.id, false)))
  }

  /** The transaction as its caller sees it: it may be refused, or commit without telling. */
  function AcceptCall(s: Store, d: Delivery, connection: Connection): (Store, Result<Receipt, AcceptError>) {
    var (s', r) := Accept(s, d);
    if connection.Refused? then (s, Err(ConnectionFailed))
    else if connection.Lost? && r.Ok? then (s', Err(ConnectionFailed))
    else (s', r)
  }

  function DeliverAll(s: Store, deliveries: seq<Delivery>): Store {
    if deliveries == [] then s
    else Accept(DeliverAll(s, deliveries[..|deliveries| - 1]), deliveries[|deliveries| - 1]).0
  }

  /******* The aggregate, computed in one go *******/

  function OfExecution(key: ExecutionKey): AcceptedEvent -> bool {
    (a: AcceptedEvent) => a.event.Key() == key
  }

  function EventsOf(events: seq<AcceptedEvent>, key: ExecutionKey): seq<AcceptedEvent> {
    Select(events, OfExecution(key))
  }

  function Times(es: seq<AcceptedEvent>): (times: seq<Instant>)
    ensures |times| == |es| && forall i | 0 <= i < |es| :: times[i] == es[i].event.occurredAt
  {
    if es == [] then [] else Times(es[..|es| - 1]) + [es[|es| - 1].event.occurredAt]
  }

  function FirstTerminal(es: seq<AcceptedEvent>): (i: Option<nat>)
    ensures i.Some? ==> i.value < |es| && es[i.value].event.Terminal()
                        && forall j | 0 <= j < i.value :: !es[j].event.Terminal()
    ensures i.None? ==> forall j | 0 <= j < |es| :: !es[j].event.Terminal()
  {
    if es == [] then None
    else
      var before := FirstTerminal(es[..|es| - 1]);
      if before.Some? then before
      else if es[|es| - 1].event.Terminal() then Some(|es| - 1)
      else None
  }

  /** The event that settles status, duration and error code: the first terminal one, or else the first. */
  function Decisive(es: seq<AcceptedEvent>): Event
    requires es != []
  {
    es[if FirstTerminal(es).Some? then FirstTerminal(es).value else 0].event
  }

  function FirstCorrelationId(es: seq<AcceptedEvent>): (id: Option<string>)
    ensures id.Some? ==> exists i :: 0 <= i < |es| && es[i].event.correlationId == id
                                     && forall j :: 0 <= j < i ==> es[j].event.correlationId.None?
    ensures id.None? ==> forall i :: 0 <= i < |es| ==> es[i].event.correlationId.None?
  {
    if es == [] then None
    else
      var rest := es[..|es| - 1];
      var before := FirstCorrelationId(rest);
      assert forall i | 0 <= i < |rest| :: rest[i] == es[i];
      if before.Some? then before else es[|es| - 1].event.correlationId
  }

  /** The row that a group-by over the events of one execution would give. */
  function Aggregate(es: seq<AcceptedEvent>): Execution
    requires es != []
  {
    var decisive := Decisive(es);
    Execution(es[0].event.releaseVersion, es[0].event.platform, decisive.status, Earliest(Times(es)), Latest(Times(es)),
              decisive.duration, decisive.errorCode, FirstCorrelationId(es), |es|, es[|es| - 1].acceptedAt)
  }

  ghost predicate Agrees(executions: map<ExecutionKey, Execution>, events: seq<AcceptedEvent>, key: ExecutionKey) {
    && (key in executions <==> EventsOf(events, key) != [])
    && (key in executions ==> executions[key] == Aggregate(EventsOf(events, key)))
  }

  lemma MergeIsAggregate(es: seq<AcceptedEvent>, a: AcceptedEvent)
    requires es != []
    ensures MergeExecution(Aggregate(es), a.event, a.acceptedAt) == Aggregate(es + [a])
  {
    assert (es + [a])[..|es|] == es;
    assert Times(es + [a]) == Times(es) + [a.event.occurredAt];
    assert (Times(es) + [a.event.occurredAt])[..|es|] == Times(es);
  }

  lemma UpsertAgrees(executions: map<ExecutionKey, Execution>, events: seq<AcceptedEvent>, a: AcceptedEvent, key: ExecutionKey)
    requires Agrees(executions, events, key)
    ensures Agrees(Upsert(executions, a.event, a.acceptedAt), events + [a], key)
  {
    hide EventsOf, Aggregate, MergeExecution, NewExecution;
    EventsOfAppend(events, a, key);
    if key == a.event.Key() {
      if EventsOf(events, key) != [] {
        MergeIsAggregate(EventsOf(events, key), a);
      } else {
        assert EventsOf(events + [a], key) == [a];
        FirstIsAggregate(a);
      }
    }
  }

  lemma UpsertKeepsAgreement(executions: map<ExecutionKey, Execution>, events: seq<AcceptedEvent>, a: AcceptedEvent)
    requires forall key :: Agrees(executions, events, key)
    ensures forall key :: Agrees(Upsert(executions, a.event, a.acceptedAt), events + [a], key)
  {
    hide Agrees, Upsert;
    forall key
      ensures Agrees(Upsert(executions, a.event, a.acceptedAt), events + [a], key)
    {
      UpsertAgrees(executions, events, a, key);
    }
  }

  lemma EventsOfAppend(events: seq<AcceptedEvent>, a: AcceptedEvent, key: ExecutionKey)
    ensures EventsOf(events + [a], key) == if a.event.Key() == key then EventsOf(events, key) + [a] else EventsOf(events, key)
  {
    SelectAppend(events, a, OfExecution(key));
  }

  lemma FirstIsAggregate(a: AcceptedEvent)
    ensures NewExecution(a.event, a.acceptedAt) == Aggregate([a])
  {
    assert [a][..0] == [];
  }

  /******* What ingestion keeps *******/

  predicate DistinctIds(es: seq<AcceptedEvent>) {
    forall i, j | 0 <= i < j < |es| :: es[i].event.id != es[j].event.id
  }

  ghost predicate StoreInv(s: Store) {
    && DistinctIds(s.events)
    && (forall i | 0 <= i < |s.events| :: MeetsRowCheck(s.events[i].event))
    && (forall key :: Agrees(s.executions, s.events, key))
    && |s.messages| == |s.events|
    && (forall i | 0 <= i < |s.events| :: s.messages[i] == Intent(s.events[i]))
  }

  lemma AcceptKeepsInv(s: Store, d: Delivery)
    requires StoreInv(s)
    ensures StoreInv(Accept(s, d).0)
  {
    hide Encode, AggregateId, Upsert, Agrees;
    var s' := Accept(s, d).0;
    if s'.events != s.events {
      forall i: nat | i < |s.events|
        ensures s.events[i].event.id != d.event.id
      {
        assert !HasId(s.events, d.event.id, i);
      }
      UpsertKeepsAgreement(s.executions, s.events, d.Accepted());
    }
  }

  /**
    After any deliveries, duplicates and refusals included, the aggregate is the
    group-by of the accepted log, and the outbox holds one intent per accepted
    event, in order.
   */
  lemma {:induction false} IngestionKeepsInv(deliveries: seq<Delivery>)
    ensures StoreInv(DeliverAll(EMPTY_STORE, deliveries))
  {
    if deliveries != [] {
      IngestionKeepsInv(deliveries[..|deliveries| - 1]);
      AcceptKeepsInv(DeliverAll(EMPTY_STORE, deliveries[..|deliveries| - 1]), deliveries[|deliveries| - 1]);
    }
  }

  /** The batch row's times: the least and the greatest occurrence. */
  lemma AggregateTimes(es: seq<AcceptedEvent>)
    requires es != []
    ensures forall a | a in es :: Aggregate(es).firstOccurredAt <= a.event.occurredAt <= Aggregate(es).latestOccurredAt
    ensures exists a | a in es :: a.event.occurredAt == Aggregate(es).firstOccurredAt
    ensures exists a | a in es :: a.event.occurredAt == Aggregate(es).latestOccurredAt
  {
    hide Decisive, FirstCorrelationId, Times, Earliest, Latest;
    var times := Times(es);
    var first :| 0 <= first < |es| && times[first] == Earliest(times);
    var last :| 0 <= last < |es| && times[last] == Latest(times);
    assert es[first] in es && es[last] in es;
    forall a | a in es
      ensures Earliest(times) <= a.event.occurredAt <= Latest(times)
    {
      var i :| 0 <= i < |es| && es[i] == a;
      assert times[i] in times;
    }
  }

  /** Its correlation id: the first that any event has. */
  lemma AggregateCorrelation(es: seq<AcceptedEvent>)
    requires es != []
    ensures Aggregate(es).correlationId.None? ==> forall a | a in es :: a.event.correlationId.None?
    ensures Aggregate(es).correlationId.Some? ==>
              exists i | 0 <= i < |es| :: es[i].event.correlationId == Aggregate(es).correlationId && NoneBefore(es, i)
  {
    hide Decisive, FirstCorrelationId, Times, Earliest, Latest;
    if FirstCorrelationId(es).Some? {
      var i :| 0 <= i < |es| && es[i].event.correlationId == FirstCorrelationId(es)
        && forall j :: 0 <= j < i ==> es[j].event.correlationId.None?;
      assert NoneBefore(es, i);
    }
  }

  /** Its outcome: all three columns from the one event that decides. */
  lemma AggregateOutcome(es: seq<AcceptedEvent>)
    requires es != []
    ensures exists i | 0 <= i < |es| ::
              && es[i].event.status == Aggregate(es).status && es[i].event.duration == Aggregate(es).duration
              && es[i].event.errorCode == Aggregate(es).errorCode && DecidesAt(es, i)
  {
    hide FirstTerminal, FirstCorrelationId, Times, Earliest, Latest;
    var decisive := if FirstTerminal(es).Some? then FirstTerminal(es).value else 0;
    assert DecidesAt(es, decisive);
  }

  /** And the rest: the first event's release and platform, the count, and the last acceptance. */
  lemma AggregateRest(es: seq<AcceptedEvent>)
    requires es != []
    ensures Aggregate(es).releaseVersion == es[0].event.releaseVersion && Aggregate(es).platform == es[0].event.platform
    ensures Aggregate(es).eventCount == |es| && Aggregate(es).updatedAt == es[|es| - 1].acceptedAt
  {
    hide Decisive, FirstCorrelationId, Times, Earliest, Latest;
  }

  predicate NoneBefore(es: seq<AcceptedEvent>, i: nat)
    requires i < |es|
  {
    forall j | 0 <= j < i :: es[j].event.correlationId.None?
  }

  /** Event i is the first whose status is not STARTED, or the first of all if every status is. */
  predicate DecidesAt(es: seq<AcceptedEvent>, i: nat)
    requires i < |es|
  {
    if es[i].event.status == Started then i == 0 && forall j | 0 <= j < |es| :: es[j].event.status == Started
    else forall j | 0 <= j < i :: es[j].event.status == Started
  }

  lemma IncrementalEqualsBatch(deliveries: seq<Delivery>, key: ExecutionKey)
    ensures var s := DeliverAll(EMPTY_STORE, deliveries);
            && (key in s.executions <==> EventsOf(s.events, key) != [])
            && (key in s.executions ==> s.executions[key] == Aggregate(EventsOf(s.events, key)))
  {
    IngestionKeepsInv(deliveries);
    assert Agrees(DeliverAll(EMPTY_STORE, deliveries).executions, DeliverAll(EMPTY_STORE, deliveries).events, key);
  }

  /**
    Accepting is all or nothing, and once only: a replay of the id, however often and
    whatever its caller was told before, returns the first acceptance time.
   */
  lemma {:induction false} ReplayReturnsFirstAcceptance(s: Store, d: Delivery, between: seq<Delivery>, again: Delivery)
    requires StoreInv(s) && Accept(s, d).1.Ok?
    requires again.event.id == d.event.id && MeetsRowCheck(again.event)
    ensures var (first, receipt) := Accept(s, d);
            var s' := DeliverAll(first, between);
            Accept(s', again) == (s', Ok(receipt.value.(replayed := true)))
    ensures StoreInv(DeliverAll(Accept(s, d).0, between))
  {
    hide Encode, AggregateId, Upsert;
    var first := Accept(s, d).0;
    AcceptKeepsInv(s, d);
    var i := FindEvent(first.events, d.event.id).value;
    EventsStay(first, between);
    var s' := DeliverAll(first, between);
    assert HasId(s'.events, d.event.id, i);
    assert FindEvent(s'.events, d.event.id) == Some(i);
  }

  lemma {:induction false} EventsStay(s: Store, deliveries: seq<Delivery>)
    requires StoreInv(s)
    ensures StoreInv(DeliverAll(s, deliveries))
    ensures s.events <= DeliverAll(s, deliveries).events
  {
    hide Encode, AggregateId, Upsert;
    if deliveries != [] {
      EventsStay(s, deliveries[..|deliveries| - 1]);
      AcceptKeepsInv(DeliverAll(s, deliveries[..|deliveries| - 1]), deliveries[|deliveries| - 1]);
    }
  }

  /**
    What an acceptance writes: the event as it came, a message that says so to the
    worker and can be leased at once, for up to five attempts; and what it answers.
   */
  lemma AcceptanceWrites(s: Store, d: Delivery)
    requires Accept(s, d).1.Ok? && !Accept(s, d).1.value.replayed
    ensures var (s', r) := Accept(s, d);
            && r.value == Receipt(d.now, d.event.id, false)
            && s'.events == s.events + [AcceptedEvent(d.event, d.machineClientId, d.now)]
            && |s'.messages| == |s.messages| + 1 && s'.messages[..|s.messages|] == s.messages
            && WorkFor(s'.messages[|s.messages|], d.event, d.now)
  {
    EncodingTells(d.event);
    hide Encode, Upsert;
  }

  /** A new message about the event: unleased, untried, and to be had from now on. */
  ghost predicate WorkFor(m: Message, e: Event, now: Instant) {
    && m.topic == TelemetryAccepted && Tells(m.payload, e)
    && m.aggregateId == e.automationId + ":" + e.environment + ":" + e.executionId
    && m.attempts == 0 && m.maxAttempts == 5
    && m.leasedBy.None? && m.processedAt.None? && m.lastError.None?
    && forall later :: Eligible(m, later) <==> later >= now
  }

  /** A refused or replayed delivery changes no table; an accepted one adds one event and one intent. */
  lemma AcceptIsAtomic(s: Store, d: Delivery)
    requires StoreInv(s)
    ensures var (s', r) := Accept(s, d);
            && (r.Err? || r.value.replayed ==> s' == s)
            && (r.Ok? && !r.value.replayed ==>
                  |s'.events| == |s.events| + 1 && |s'.messages| == |s.messages| + 1
                  && s.events <= s'.events && s.messages <= s'.messages
                  && FindEvent(s.events, d.event.id).None? && r.value.acceptedAt == d.now)
            && (r.Ok? <==> MeetsRowCheck(d.event) && (d.Acceptable() || FindEvent(s.events, d.event.id).Some?))
  {
    hide Encode, AggregateId;
  }

  /** Whatever a failing connection did with a request, the same request then gets the one acceptance there is. */
  lemma RetryAfterFailure(s: Store, d: Delivery, connection: Connection, again: Delivery)
    requires StoreInv(s) && AcceptCall(s, d, connection).1 == Err(ConnectionFailed)
    requires again.event == d.event && again.Acceptable()
    ensures var (s', r) := Accept(AcceptCall(s, d, connection).0, again);
            && r.Ok?
            && (connection.Refused? ==> s' == Accept(s, again).0)
            && (connection.Lost? ==> s' == Accept(s, d).0 && r.value == Accept(s, d).1.value.(replayed := true))
  {
    hide Encode, AggregateId, Upsert;
    if connection.Lost? {
      ReplayReturnsFirstAcceptance(s, d, [], again);
    }
  }
}
