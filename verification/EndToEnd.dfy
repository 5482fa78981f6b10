/**
  From the delivery of an event to the incident that counts it: ingestion and the
  worker protocol over the same tables, in any interleaving.
 */
module EndToEnd {
  import opened Prelude
  import opened Outbox
  import opened Incidents
  import opened WorkerProtocol
  import opened Fencing
  import opened Settlement
  import opened FailureConservation
  import opened Ingestion
  import T = Telemetry

  datatype World = World(store: T.Store, system: System)

  function NewWorld(clock: Instant): World {
    World(T.EMPTY_STORE, Initial(clock))
  }

  /** A request to ingest an event that the API's contract lets in, or any action but the enqueueing of other messages. */
  datatype Move = Deliver(event: T.Event, machineClientId: string) | Act(action: Action)

  function DeliveryTo(w: World, m: Move): T.Delivery
    requires m.Deliver?
  {
    T.Delivery(m.event, m.machineClientId, w.system.clock, w.system.automations.Keys)
  }

  predicate IsAccepted(w: World, m: Move)
    requires m.Deliver?
  {
    |T.Accept(w.store, DeliveryTo(w, m)).0.events| > |w.store.events|
  }

  predicate CanMove(w: World, m: Move) {
    match m
    case Deliver(event, _) => T.MeetsContract(event)
    case Act(a) => !a.Enqueue? && Enabled(w.system, a)
  }

  /** An accepted event and its message appear together. */
  function After(w: World, m: Move): World
    requires CanMove(w, m)
  {
    match m
    case Deliver(event, _) =>
      World(T.Accept(w.store, DeliveryTo(w, m)).0,
            if IsAccepted(w, m) then Step(w.system, IngestAction(event)) else w.system)
    case Act(a) => World(w.store, Step(w.system, a))
  }

  predicate CanMoveAll(w: World, moves: seq<Move>)
    decreases |moves|
  {
    moves == [] || (CanMove(w, moves[0]) && CanMoveAll(After(w, moves[0]), moves[1..]))
  }

  function AfterAll(w: World, moves: seq<Move>): World
    requires CanMoveAll(w, moves)
    decreases |moves|
  {
    if moves == [] then w else AfterAll(After(w, moves[0]), moves[1..])
  }

  /******* Events and messages stay in step *******/

  /** The message that an event was accepted with, whatever has become of its lease since. */
  predicate Carries(m: Message, a: T.AcceptedEvent) {
    && T.MeetsContract(a.event)
    && m.topic == TelemetryAccepted && m.payload == T.Encode(a.event) && m.maxAttempts == DEFAULT_MAX_ATTEMPTS
  }

  ghost predicate InStep(w: World) {
    && T.StoreInv(w.store) && Reachable(w.system)
    && |w.system.messages| == |w.store.events|
    && forall id | 0 <= id < |w.system.messages| :: Carries(w.system.messages[id], w.store.events[id])
  }

  lemma DeliveryKeepsInStep(w: World, m: Move)
    requires InStep(w) && CanMove(w, m) && m.Deliver?
    ensures InStep(After(w, m))
  {
    hide T.Encode, T.StoreInv, Reachable, T.Upsert;
    T.AcceptKeepsInv(w.store, DeliveryTo(w, m));
    if IsAccepted(w, m) {
      var a := DeliveryTo(w, m).Accepted();
      IngestActionAddsIntent(w.system, a);
      ReachableStep(w.system, IngestAction(m.event));
      assert Carries(T.Intent(a), a);
    }
  }

  lemma ActionKeepsInStep(w: World, m: Move)
    requires InStep(w) && CanMove(w, m) && m.Act?
    ensures InStep(After(w, m))
  {
    hide T.Encode, T.StoreInv, Reachable, Step, T.MeetsContract;
    ReachableStep(w.system, m.action);
    RowsKeepTheirWork(w.system, m.action);
  }

  lemma {:induction false} MovesKeepInStep(w: World, moves: seq<Move>)
    requires InStep(w) && CanMoveAll(w, moves)
    ensures InStep(AfterAll(w, moves))
    decreases |moves|
  {
    hide InStep;
    if moves != [] {
      if moves[0].Deliver? {
        DeliveryKeepsInStep(w, moves[0]);
      } else {
        ActionKeepsInStep(w, moves[0]);
      }
      MovesKeepInStep(After(w, moves[0]), moves[1..]);
    }
  }

  lemma NewWorldIsInStep(clock: Instant)
    ensures InStep(NewWorld(clock))
  {
    InitialIsReachable(clock);
    assert T.DeliverAll(T.EMPTY_STORE, []) == T.EMPTY_STORE;
    T.IngestionKeepsInv([]);
  }

  /******* Failures, from event to incident *******/

  /** The event reports a failure of this key. */
  predicate IsFailureOf(e: T.Event, key: FailureKey) {
    e.IsFailure() && e.errorCode.Some? && key == FailureKey(e.automationId, T.CorrelationKey(e), e.errorCode.value)
  }

  /** The accepted failure events of a key among the first n. */
  function FailureEvents(events: seq<T.AcceptedEvent>, key: FailureKey, n: nat): nat
    requires n <= |events|
  {
    if n == 0 then 0
    else FailureEvents(events, key, n - 1) + if IsFailureOf(events[n - 1].event, key) then 1 else 0
  }

  /** Those of them whose message has been completed. */
  function CompletedFailureEvents(w: World, key: FailureKey, n: nat): nat
    requires n <= |w.store.events| && n <= |w.system.messages|
  {
    if n == 0 then 0
    else
      CompletedFailureEvents(w, key, n - 1)
      + if IsFailureOf(w.store.events[n - 1].event, key) && SettlementOf(w.system, n - 1).Completed? then 1 else 0
  }

  lemma CarriesReport(m: Message, a: T.AcceptedEvent, key: FailureKey)
    requires Carries(m, a)
    ensures Reports(m, key) <==> IsFailureOf(a.event, key)
  {
    T.IngestedWorkIsNeverRejected(a);
    assert m.Work() == T.Intent(a).Work();
    hide Classify, T.Encode;
  }

  lemma {:induction false} CountsAgree(w: World, key: FailureKey, n: nat)
    requires InStep(w) && n <= |w.system.messages|
    ensures CompletedReports(w.system, key, n) == CompletedFailureEvents(w, key, n)
    ensures AttemptsOnReports(w.system.messages, key, n) <= DEFAULT_MAX_ATTEMPTS * FailureEvents(w.store.events, key, n)
  {
    hide T.StoreInv, Reachable, Reports, IsFailureOf;
    if n > 0 {
      CountsAgree(w, key, n - 1);
      var m := w.system.messages[n - 1];
      CarriesReport(m, w.store.events[n - 1], key);
      ReachableKeepsInv(w.system);
      assert RowIsSound(m) && m.attempts <= DEFAULT_MAX_ATTEMPTS;
    }
  }

  /**
    Whatever is delivered, duplicated, refused, leased, retried, crashed and decided:
    for each key, the incidents have counted every accepted failure event whose message
    has completed, and at most five failures for each accepted one.
   */
  lemma AcceptedFailuresAreCounted(clock: Instant, moves: seq<Move>, key: FailureKey)
    requires CanMoveAll(NewWorld(clock), moves)
    ensures InStep(AfterAll(NewWorld(clock), moves))
    ensures var w := AfterAll(NewWorld(clock), moves);
            && CompletedFailureEvents(w, key, |w.store.events|)
            <= FailuresCounted(w.system.incidents, key)
            <= 5 * FailureEvents(w.store.events, key, |w.store.events|)
  {
    hide CanMoveAll, AfterAll;
    NewWorldIsInStep(clock);
    MovesKeepInStep(NewWorld(clock), moves);
    var w := AfterAll(NewWorld(clock), moves);
    NoFailureIsLost(w.system, key);
    CountsAgree(w, key, |w.system.messages|);
  }
}
