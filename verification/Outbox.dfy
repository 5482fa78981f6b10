/**
  The outbox table and what each statement of the outbox repository does to a
  row: choosing a row to lease, completing it, retrying it, burying it. Message
  ids are positions in the table, because rows are only ever appended.
 */
module Outbox {
  import opened Prelude

  type WorkerId = nat

  const LEASE_DURATION: int := 30 * SECOND
  const DEFAULT_MAX_ATTEMPTS: nat := 5

  /******* Payloads *******/

  /** The fields a stored payload may carry; `Unexpected` is any other name. */
  datatype Field =
    | AutomationId | CorrelationId | Environment | ErrorCode
    | EventId | ExecutionId | OccurredAt | Status
    | Unexpected(name: string)

  datatype ExecutionStatus = Started | Succeeded | Failed | TimedOut

  /** A JSON value; a string is tagged by the format that the schemas ask of it. */
  datatype Json =
    | Null
    | Text(text: string)
    | Uuid(uuid: nat)
    | Timestamp(at: Instant)
    | StatusName(status: ExecutionStatus)
    | Composite

  type Payload = map<Field, Json>

  /** `telemetry.execution.accepted`, or a topic that no worker handles. */
  datatype Topic = TelemetryAccepted | UnknownTopic(name: string)

  /** The kinds of error that processOne passes to `fail`, whose text goes to `last_error`. */
  datatype ErrorDetail =
    | UnsupportedTopic(topic: Topic)
    | SchemaMismatch
    | MissingErrorCode
    | UnregisteredAutomation
    | ActiveIncidentExists
    | ConnectionLost

  datatype FailureKey = FailureKey(automationId: string, correlationKey: string, errorCode: string)

  datatype Failure = Failure(key: FailureKey, occurredAt: Instant)

  /** What a worker has to do with a message once it has looked inside. */
  datatype Work =
    | Reject(reason: ErrorDetail)
    | Nothing
    | Correlate(failure: Failure)

  predicate NonEmptyText(payload: Payload, field: Field) {
    field in payload && payload[field].Text? && payload[field].text != ""
  }

  /** The worker's strict payload schema. */
  predicate MatchesSchema(payload: Payload) {
    && (forall field | field in payload :: !field.Unexpected?)
    && NonEmptyText(payload, AutomationId)
    && NonEmptyText(payload, CorrelationId)
    && NonEmptyText(payload, Environment)
    && NonEmptyText(payload, ExecutionId)
    && (ErrorCode in payload ==> payload[ErrorCode].Text?)
    && EventId in payload && payload[EventId].Uuid?
    && OccurredAt in payload && payload[OccurredAt].Timestamp?
    && Status in payload && payload[Status].StatusName?
  }

  /** The branches of processOne before its first database call. */
  function Classify(topic: Topic, payload: Payload): Work {
    if topic != TelemetryAccepted then
      Reject(UnsupportedTopic(topic))
    else if !MatchesSchema(payload) then
      Reject(SchemaMismatch)
    else
      var status := payload[Status].status;
      if status.Failed? || status.TimedOut? then
        if ErrorCode !in payload then
          Reject(MissingErrorCode)
        else
          Correlate(Failure(
                      FailureKey(payload[AutomationId].text, payload[CorrelationId].text, payload[ErrorCode].text),
                      payload[OccurredAt].at))
      else
        Nothing
  }

  /******* Rows *******/

  datatype Message = Message(
    topic: Topic,
    aggregateId: string,
    payload: Payload,
    availableAt: Instant,
    attempts: nat,
    maxAttempts: nat,
    leasedBy: Option<WorkerId>,
    leaseExpiresAt: Option<Instant>,
    processedAt: Option<Instant>,
    lastError: Option<ErrorDetail>)
  {
    function Work(): Work {
      Classify(topic, payload)
    }
  }

  datatype DeadLetter = DeadLetter(
    messageId: nat,
    topic: Topic,
    aggregateId: string,
    payload: Payload,
    attempts: nat,
    lastError: ErrorDetail)

  /** The copy of a row that a lease hands to a worker. */
  datatype LeasedMessage = LeasedMessage(
    id: nat,
    topic: Topic,
    aggregateId: string,
    payload: Payload,
    attempts: nat,
    maxAttempts: nat)
  {
    function Work(): Work {
      Classify(topic, payload)
    }

    predicate Exhausted() {
      attempts >= maxAttempts
    }
  }

  function NewMessage(topic: Topic, aggregateId: string, payload: Payload, maxAttempts: nat, now: Instant): Message {
    Message(topic, aggregateId, payload, now, 0, maxAttempts, None, None, None, None)
  }

  function Snapshot(id: nat, m: Message): LeasedMessage {
    LeasedMessage(id, m.topic, m.aggregateId, m.payload, m.attempts, m.maxAttempts)
  }

  /******* Choosing the row to lease *******/

  predicate Eligible(m: Message, now: Instant) {
    && m.processedAt.None?
    && m.availableAt <= now
    && m.attempts < m.maxAttempts
    && (m.leaseExpiresAt.None? || m.leaseExpiresAt.value < now)
  }

  /** `locked` holds the rows that other transactions have locked: they are skipped. */
  predicate Candidate(messages: seq<Message>, now: Instant, locked: set<nat>, id: nat) {
    id < |messages| && id !in locked && Eligible(messages[id], now)
  }

  /** The order `available_at, id`. */
  predicate Precedes(messages: seq<Message>, i: nat, j: nat)
    requires i < |messages| && j < |messages|
  {
    messages[i].availableAt < messages[j].availableAt
    || (messages[i].availableAt == messages[j].availableAt && i <= j)
  }

  /** The row the lease statement picks: the first candidate, if there is any. */
  function NextToLease(messages: seq<Message>, now: Instant, locked: set<nat>): (next: Option<nat>)
    ensures next.Some? ==> Candidate(messages, now, locked, next.value)
    ensures next.Some? ==>
              forall id: nat | Candidate(messages, now, locked, id) :: Precedes(messages, next.value, id)
    ensures next.None? ==> forall id: nat :: !Candidate(messages, now, locked, id)
  {
    if messages == [] then
      None
    else
      var last := |messages| - 1;
      var earlier := NextToLease(messages[..last], now, locked);
      assert forall id: nat | id < last ::
          Candidate(messages, now, locked, id) == Candidate(messages[..last], now, locked, id);
      if Candidate(messages, now, locked, last)
         && (earlier.None? || messages[last].availableAt < messages[earlier.value].availableAt)
      then
        Some(last)
      else
        earlier
  }

  /******* What the statements do to one row *******/

  function LeaseRow(m: Message, w: WorkerId, now: Instant): Message {
    m.(attempts := m.attempts + 1, leasedBy := Some(w), leaseExpiresAt := Some(now + LEASE_DURATION))
  }

  function CompleteRow(m: Message, w: WorkerId, now: Instant): Message {
    if m.leasedBy != Some(w) then m
    else m.(processedAt := Some(now), leasedBy := None, leaseExpiresAt := None)
  }

  function RetryRow(m: Message, w: WorkerId, now: Instant, delaySeconds: nat, error: ErrorDetail): Message {
    if m.leasedBy != Some(w) then m
    else m.(availableAt := now + delaySeconds * SECOND, lastError := Some(error), leasedBy := None, leaseExpiresAt := None)
  }

  function BuryRow(m: Message, w: WorkerId, now: Instant, error: ErrorDetail): Message {
    if m.leasedBy != Some(w) then m
    else m.(processedAt := Some(now), lastError := Some(error), leasedBy := None, leaseExpiresAt := None)
  }

  /** The rows that `insert ... select ... where leased_by = $2` would insert: at most one. */
  function LetterFor(id: nat, m: Message, w: WorkerId, error: ErrorDetail): Option<DeadLetter> {
    if m.leasedBy != Some(w) then None
    else Some(DeadLetter(id, m.topic, m.aggregateId, m.payload, m.attempts, error))
  }

  predicate HasLetter(letters: seq<DeadLetter>, id: nat) {
    exists i :: 0 <= i < |letters| && letters[i].messageId == id
  }

  /** `on conflict (outbox_message_id) do nothing`. */
  function InsertLetter(letters: seq<DeadLetter>, letter: Option<DeadLetter>): seq<DeadLetter> {
    if letter.None? || HasLetter(letters, letter.value.messageId) then letters
    else letters + [letter.value]
  }

  /******* Backoff *******/

  function Pow2(n: nat): nat {
    if n == 0 then 1 else 2 * Pow2(n - 1)
  }

  function RetryDelaySeconds(attempts: int): nat {
    Min(Pow2(Max(0, attempts - 1)), 60)
  }

  /** The delays asked for by failures of attempts 1 to n, added up. */
  function TotalBackoffSeconds(n: nat): nat {
    if n == 0 then 0 else TotalBackoffSeconds(n - 1) + RetryDelaySeconds(n)
  }

  lemma {:induction false} Pow2Grows(m: nat, n: nat)
    requires m <= n
    ensures Pow2(m) <= Pow2(n)
  {
    if m < n {
      Pow2Grows(m, n - 1);
    }
  }

  lemma {:induction false} TotalBackoff(n: nat)
    ensures n <= 6 ==> TotalBackoffSeconds(n) == Pow2(n) - 1
    ensures n >= 6 ==> TotalBackoffSeconds(n) == 63 + 60 * (n - 6)
  {
    if n > 0 {
      TotalBackoff(n - 1);
      assert Pow2(6) == 64 by { assert Pow2(3) == 8; assert Pow2(4) == 16; assert Pow2(5) == 32; }
      if n <= 6 {
        Pow2Grows(n - 1, 5);
      } else {
        Pow2Grows(6, n - 1);
      }
    }
  }
}
