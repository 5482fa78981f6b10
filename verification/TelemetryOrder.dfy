/**
  Telemetry under duplication and reordering: what the `executions` row owes to
  the events alone, and exactly when its outcome does not depend on their order.
 */
module TelemetryOrder {
  import opened Prelude
  import opened Outbox
  import opened Telemetry

  /******* Which events are accepted *******/

  /** One content for each event id. */
  predicate OneContentPerId(deliveries: seq<Delivery>) {
    forall d, o | d in deliveries && o in deliveries :: d.event.id == o.event.id ==> d.event == o.event
  }

  /** Some delivery of the event was acceptable when it came: a retry may succeed where an earlier one was refused. */
  predicate Delivers(deliveries: seq<Delivery>, e: Event) {
    exists d | d in deliveries :: d.event == e && d.Acceptable()
  }

  predicate Holds(events: seq<AcceptedEvent>, e: Event) {
    exists a | a in events :: a.event == e
  }

  lemma HoldsAppend(events: seq<AcceptedEvent>, a: AcceptedEvent, e: Event)
    ensures Holds(events + [a], e) <==> Holds(events, e) || a.event == e
  {
    if Holds(events, e) {
      var b :| b in events && b.event == e;
      assert b in events + [a];
    }
    assert a in events + [a];
  }

  /** What one delivery adds. */
  lemma AcceptAdds(s: Store, d: Delivery, e: Event)
    ensures Holds(Accept(s, d).0.events, e) <==>
              || Holds(s.events, e)
              || (e == d.event && d.Acceptable() && FindEvent(s.events, e.id).None?)
  {
    hide Encode, Upsert, AggregateId, Holds;
    HoldsAppend(s.events, d.Accepted(), e);
  }

  lemma {:induction false} AcceptedEvents(deliveries: seq<Delivery>, e: Event)
    requires OneContentPerId(deliveries)
    ensures Holds(DeliverAll(EMPTY_STORE, deliveries).events, e) <==> Delivers(deliveries, e)
    decreases |deliveries|, 0
  {
    hide Accept;
    if deliveries != [] {
      var rest := deliveries[..|deliveries| - 1];
      var d := deliveries[|deliveries| - 1];
      assert deliveries == rest + [d];
      assert Delivers(deliveries, e) <==> Delivers(rest, e) || (d.event == e && d.Acceptable()) by {
        assert forall o :: o in deliveries <==> o in rest || o == d;
      }
      AcceptedEvents(rest, e);
      var s := DeliverAll(EMPTY_STORE, rest);
      AcceptAdds(s, d, e);
      if e == d.event && FindEvent(s.events, e.id).Some? {
        SameIdSameEvent(deliveries, rest, d, s.events[FindEvent(s.events, e.id).value]);
      }
    }
  }

  /** An event found under a delivery's id is that delivery's event. */
  lemma SameIdSameEvent(deliveries: seq<Delivery>, rest: seq<Delivery>, d: Delivery, a: AcceptedEvent)
    requires OneContentPerId(deliveries) && deliveries == rest + [d]
    requires a in DeliverAll(EMPTY_STORE, rest).events && a.event.id == d.event.id
    ensures a.event == d.event && Holds(DeliverAll(EMPTY_STORE, rest).events, d.event)
    decreases |rest|, 1
  {
    hide Accept;
    assert OneContentPerId(rest);
    assert Holds(DeliverAll(EMPTY_STORE, rest).events, a.event);
    AcceptedEvents(rest, a.event);
    var o :| o in rest && o.event == a.event;
    assert o in deliveries && d in deliveries;
  }

  /******* Order does not matter to times and counts *******/

  lemma {:induction false} EventsOfDiffer(events: seq<AcceptedEvent>, key: ExecutionKey)
    requires DistinctIds(events)
    ensures DistinctIds(EventsOf(events, key))
  {
    if events != [] {
      var rest := events[..|events| - 1];
      var last := events[|events| - 1];
      EventsOfDiffer(rest, key);
      SelectIn(rest, OfExecution(key));
      var es := EventsOf(rest, key);
      forall k | 0 <= k < |es|
        ensures es[k].event.id != last.event.id
      {
        assert es[k] in es;
        var i :| 0 <= i < |rest| && rest[i] == es[k];
        assert events[i].event.id != last.event.id;
      }
    }
  }

  /** The same events, possibly in another order and accepted at other times. */
  ghost predicate SameEvents(es: seq<AcceptedEvent>, fs: seq<AcceptedEvent>) {
    forall e :: Holds(es, e) <==> Holds(fs, e)
  }

  function Ids(es: seq<AcceptedEvent>): set<nat> {
    set a | a in es :: a.event.id
  }

  lemma {:induction false} DistinctIdsCount(es: seq<AcceptedEvent>)
    requires DistinctIds(es)
    ensures |Ids(es)| == |es|
  {
    if es != [] {
      var rest := es[..|es| - 1];
      var last := es[|es| - 1];
      DistinctIdsCount(rest);
      assert es == rest + [last];
      forall a | a in rest
        ensures a.event.id != last.event.id
      {
        var i :| 0 <= i < |rest| && rest[i] == a;
      }
      assert Ids(es) == Ids(rest) + {last.event.id};
    }
  }

  lemma SameEventsSameIds(es: seq<AcceptedEvent>, fs: seq<AcceptedEvent>)
    requires SameEvents(es, fs)
    ensures Ids(es) <= Ids(fs)
  {
    forall id | id in Ids(es)
      ensures id in Ids(fs)
    {
      var a :| a in es && a.event.id == id;
      assert Holds(es, a.event);
      var b :| b in fs && b.event == a.event;
    }
  }

  lemma SameEventsSameTimes(es: seq<AcceptedEvent>, fs: seq<AcceptedEvent>, t: Instant)
    requires SameEvents(es, fs) && t in Times(es)
    ensures t in Times(fs)
  {
    var i :| 0 <= i < |es| && es[i].event.occurredAt == t;
    assert es[i] in es && Holds(es, es[i].event);
    var j :| 0 <= j < |fs| && fs[j].event == es[i].event;
    assert Times(fs)[j] == t;
  }

  /** First and latest times and the event count depend on the events only. */
  lemma TimesAndCountIgnoreOrder(es: seq<AcceptedEvent>, fs: seq<AcceptedEvent>)
    requires SameEvents(es, fs) && DistinctIds(es) && DistinctIds(fs)
    requires es != [] && fs != []
    ensures Aggregate(es).firstOccurredAt == Aggregate(fs).firstOccurredAt
    ensures Aggregate(es).latestOccurredAt == Aggregate(fs).latestOccurredAt
    ensures Aggregate(es).eventCount == Aggregate(fs).eventCount
  {
    hide Earliest, Latest, FirstTerminal, FirstCorrelationId;
    SameEventsSameTimes(es, fs, Earliest(Times(es)));
    SameEventsSameTimes(es, fs, Latest(Times(es)));
    SameEventsSameTimes(fs, es, Earliest(Times(fs)));
    SameEventsSameTimes(fs, es, Latest(Times(fs)));
    SameEventsSameIds(es, fs);
    SameEventsSameIds(fs, es);
    assert Ids(es) == Ids(fs);
    DistinctIdsCount(es);
    DistinctIdsCount(fs);
  }

  /******* When order does not matter to the outcome *******/

  datatype Outcome = Outcome(status: ExecutionStatus, duration: Option<nat>, errorCode: Option<string>)

  function OutcomeOf(e: Event): Outcome {
    Outcome(e.status, e.duration, e.errorCode)
  }

  function OutcomeOfRow(x: Execution): Outcome {
    Outcome(x.status, x.duration, x.errorCode)
  }

  /** The events that some order could make decisive. */
  predicate CanDecide(es: seq<AcceptedEvent>, e: Event) {
    Holds(es, e) && (e.Terminal() || forall a | a in es :: !a.event.Terminal())
  }

  /** All events that could be decisive report one outcome. */
  ghost predicate OutcomesAgree(es: seq<AcceptedEvent>) {
    forall e, f | CanDecide(es, e) && CanDecide(es, f) :: OutcomeOf(e) == OutcomeOf(f)
  }

  lemma DecisiveCanDecide(es: seq<AcceptedEvent>)
    requires es != []
    ensures CanDecide(es, Decisive(es))
  {
    var i := if FirstTerminal(es).Some? then FirstTerminal(es).value else 0;
    assert es[i] in es;
  }

  lemma SameEventsSameCandidates(es: seq<AcceptedEvent>, fs: seq<AcceptedEvent>, e: Event)
    requires SameEvents(es, fs) && CanDecide(fs, e)
    ensures CanDecide(es, e)
  {
    assert Holds(es, e);
    if !e.Terminal() {
      forall a | a in es
        ensures !a.event.Terminal()
      {
        assert Holds(es, a.event);
        assert Holds(fs, a.event);
      }
    }
  }

  lemma DecisiveGivesOutcome(es: seq<AcceptedEvent>)
    requires es != []
    ensures OutcomeOfRow(Aggregate(es)) == OutcomeOf(Decisive(es))
  {
    hide Decisive;
  }

  lemma AgreeingOutcomesDecide(es: seq<AcceptedEvent>, fs: seq<AcceptedEvent>)
    requires es != [] && fs != [] && SameEvents(es, fs) && OutcomesAgree(es)
    ensures OutcomeOfRow(Aggregate(fs)) == OutcomeOfRow(Aggregate(es))
  {
    hide CanDecide, SameEvents, Decisive, Aggregate;
    DecisiveGivesOutcome(es);
    DecisiveGivesOutcome(fs);
    DecisiveCanDecide(es);
    DecisiveCanDecide(fs);
    SameEventsSameCandidates(es, fs, Decisive(fs));
  }

  /** A candidate that comes first is decisive. */
  lemma FirstCandidateDecides(es: seq<AcceptedEvent>, fs: seq<AcceptedEvent>)
    requires fs != [] && SameEvents(es, fs) && CanDecide(es, fs[0].event)
    ensures Decisive(fs) == fs[0].event
  {
    if fs[0].event.Terminal() {
      assert FirstTerminal(fs) == Some(0);
    } else {
      forall a | a in fs
        ensures !a.event.Terminal()
      {
        assert Holds(fs, a.event);
        assert Holds(es, a.event);
      }
    }
  }

  /******* From end to end *******/

  /** The accepted events of one execution, after a stream. */
  function EventsAfter(deliveries: seq<Delivery>, key: ExecutionKey): seq<AcceptedEvent> {
    EventsOf(DeliverAll(EMPTY_STORE, deliveries).events, key)
  }

  /**
    The second stream permutes and repeats the first at will, and comes with other
    clocks and clients, and with other deliveries that are refused.
   */
  ghost predicate SameContent(deliveries: seq<Delivery>, others: seq<Delivery>) {
    && OneContentPerId(deliveries) && OneContentPerId(others)
    && forall e :: Delivers(deliveries, e) <==> Delivers(others, e)
  }

  lemma PermutationsHaveSameContent(deliveries: seq<Delivery>, others: seq<Delivery>)
    requires OneContentPerId(deliveries) && multiset(others) == multiset(deliveries)
    ensures SameContent(deliveries, others)
  {
    forall d
      ensures d in others <==> d in deliveries
    {
      assert d in multiset(others) <==> d in multiset(deliveries);
    }
  }

  lemma KeyedEvents(deliveries: seq<Delivery>, key: ExecutionKey)
    requires OneContentPerId(deliveries)
    ensures DistinctIds(EventsAfter(deliveries, key))
    ensures forall e :: Holds(EventsAfter(deliveries, key), e) <==> Delivers(deliveries, e) && e.Key() == key
  {
    hide DeliverAll, Select, Delivers, Agrees;
    var events := DeliverAll(EMPTY_STORE, deliveries).events;
    IngestionKeepsInv(deliveries);
    SelectIn(events, OfExecution(key));
    EventsOfDiffer(events, key);
    forall e
      ensures Holds(EventsOf(events, key), e) <==> Delivers(deliveries, e) && e.Key() == key
    {
      AcceptedEvents(deliveries, e);
      if Holds(events, e) && e.Key() == key {
        var a :| a in events && a.event == e;
        assert a in EventsOf(events, key);
      }
    }
  }

  lemma SameContentSameEvents(deliveries: seq<Delivery>, others: seq<Delivery>, key: ExecutionKey)
    requires SameContent(deliveries, others)
    ensures DistinctIds(EventsAfter(deliveries, key)) && DistinctIds(EventsAfter(others, key))
    ensures SameEvents(EventsAfter(deliveries, key), EventsAfter(others, key))
    ensures EventsAfter(deliveries, key) == [] <==> EventsAfter(others, key) == []
  {
    hide EventsAfter, Delivers, OneContentPerId;
    KeyedEvents(deliveries, key);
    KeyedEvents(others, key);
    var es, fs := EventsAfter(deliveries, key), EventsAfter(others, key);
    assert es != [] ==> Holds(es, es[0].event);
    assert fs != [] ==> Holds(fs, fs[0].event);
  }

  /** Reordering and duplication: both streams give a row or neither does, with the same times and count. */
  lemma ReorderingAndDuplication(deliveries: seq<Delivery>, others: seq<Delivery>, key: ExecutionKey)
    requires SameContent(deliveries, others)
    ensures var left := DeliverAll(EMPTY_STORE, deliveries).executions;
            var right := DeliverAll(EMPTY_STORE, others).executions;
            && (key in left <==> key in right)
            && (key in left ==>
                  && left[key].firstOccurredAt == right[key].firstOccurredAt
                  && left[key].latestOccurredAt == right[key].latestOccurredAt
                  && left[key].eventCount == right[key].eventCount)
  {
    hide DeliverAll, EventsOf, Aggregate, SameContent;
    SameContentSameEvents(deliveries, others, key);
    IncrementalEqualsBatch(deliveries, key);
    IncrementalEqualsBatch(others, key);
    if EventsAfter(deliveries, key) != [] {
      TimesAndCountIgnoreOrder(EventsAfter(deliveries, key), EventsAfter(others, key));
    }
  }

  /******* Exactly when order does not matter to the outcome *******/

  predicate HasRow(deliveries: seq<Delivery>, key: ExecutionKey) {
    key in DeliverAll(EMPTY_STORE, deliveries).executions
  }

  /** Status, duration and error code of the row that a stream leaves. */
  function OutcomeAfter(deliveries: seq<Delivery>, key: ExecutionKey): Outcome
    requires HasRow(deliveries, key)
  {
    OutcomeOfRow(DeliverAll(EMPTY_STORE, deliveries).executions[key])
  }

  predicate SameOutcome(deliveries: seq<Delivery>, others: seq<Delivery>, key: ExecutionKey)
    requires HasRow(deliveries, key)
  {
    HasRow(others, key) && OutcomeAfter(others, key) == OutcomeAfter(deliveries, key)
  }

  lemma {:induction false} DeliverInTurn(s: Store, deliveries: seq<Delivery>, more: seq<Delivery>)
    ensures DeliverAll(s, deliveries + more) == DeliverAll(DeliverAll(s, deliveries), more)
  {
    hide Accept;
    if more == [] {
      assert deliveries + more == deliveries;
    } else {
      var rest := more[..|more| - 1];
      assert (deliveries + more)[..|deliveries + more| - 1] == deliveries + rest;
      DeliverInTurn(s, deliveries, rest);
    }
  }

  lemma {:induction false} EventsOfPrefix(events: seq<AcceptedEvent>, more: seq<AcceptedEvent>, key: ExecutionKey)
    ensures EventsOf(events, key) <= EventsOf(events + more, key)
  {
    if more == [] {
      assert events + more == events;
    } else {
      var rest := more[..|more| - 1];
      assert events + more == events + rest + [more[|more| - 1]];
      EventsOfPrefix(events, rest, key);
      EventsOfAppend(events + rest, more[|more| - 1], key);
    }
  }

  /** A stream's first delivery, if acceptable, is its execution's first event. */
  lemma FirstDeliveryIsFirstEvent(d: Delivery, rest: seq<Delivery>)
    requires d.Acceptable()
    ensures var es := EventsAfter([d] + rest, d.event.Key()); es != [] && es[0].event == d.event
  {
    hide Encode, AggregateId, Upsert, StoreInv;
    var first := DeliverAll(EMPTY_STORE, [d]);
    assert [d][..0] == [] && DeliverAll(EMPTY_STORE, []) == EMPTY_STORE;
    assert FindEvent([], d.event.id).None?;
    assert first.events == [d.Accepted()];
    IngestionKeepsInv([d]);
    EventsStay(first, rest);
    DeliverInTurn(EMPTY_STORE, [d], rest);
    var events := DeliverAll(EMPTY_STORE, [d] + rest).events;
    assert events == first.events + events[1..];
    EventsOfPrefix(first.events, events[1..], d.event.Key());
    EventsOfAppend([], d.Accepted(), d.event.Key());
    assert [] + [d.Accepted()] == first.events;
  }

  /** The stream with the delivery of a candidate moved to the front: there the candidate decides. */
  lemma CandidateFirst(deliveries: seq<Delivery>, key: ExecutionKey, e: Event) returns (others: seq<Delivery>)
    requires OneContentPerId(deliveries) && CanDecide(EventsAfter(deliveries, key), e)
    ensures multiset(others) == multiset(deliveries)
    ensures HasRow(others, key) && OutcomeAfter(others, key) == OutcomeOf(e)
  {
    hide DeliverAll, EventsOf, Accept, CanDecide;
    KeyedEvents(deliveries, key);
    assert Holds(EventsAfter(deliveries, key), e) by { CandidatesAreHeld(EventsAfter(deliveries, key), e); }
    var d :| d in deliveries && d.event == e && d.Acceptable();
    var i :| 0 <= i < |deliveries| && deliveries[i] == d;
    others := [d] + (deliveries[..i] + deliveries[i + 1..]);
    assert deliveries == deliveries[..i] + [d] + deliveries[i + 1..];
    PermutationsHaveSameContent(deliveries, others);
    SameContentSameEvents(deliveries, others, key);
    FirstDeliveryIsFirstEvent(d, deliveries[..i] + deliveries[i + 1..]);
    FirstCandidateDecides(EventsAfter(deliveries, key), EventsAfter(others, key));
    IncrementalEqualsBatch(others, key);
  }

  lemma CandidatesAreHeld(es: seq<AcceptedEvent>, e: Event)
    requires CanDecide(es, e)
    ensures Holds(es, e)
  {
  }

  ghost predicate PermutationsAgree(deliveries: seq<Delivery>, key: ExecutionKey)
    requires HasRow(deliveries, key)
  {
    forall others | multiset(others) == multiset(deliveries) :: SameOutcome(deliveries, others, key)
  }

  ghost predicate SameContentAgrees(deliveries: seq<Delivery>, key: ExecutionKey)
    requires HasRow(deliveries, key)
  {
    forall others | SameContent(deliveries, others) :: SameOutcome(deliveries, others, key)
  }

  /**
    Status, duration and error code are the same for every order and repetition of a
    stream if and only if all its events that could be decisive report one outcome;
    and permutations alone are enough to tell outcomes apart that differ.
   */
  lemma OutcomeIgnoresOrderExactly(deliveries: seq<Delivery>, key: ExecutionKey)
    requires OneContentPerId(deliveries) && HasRow(deliveries, key)
    ensures SameContentAgrees(deliveries, key) <==> OutcomesAgree(EventsAfter(deliveries, key))
    ensures PermutationsAgree(deliveries, key) <==> OutcomesAgree(EventsAfter(deliveries, key))
  {
    hide DeliverAll, EventsOf, Accept, SameContent, CanDecide, OneContentPerId, SameEvents, Aggregate;
    var es := EventsAfter(deliveries, key);
    IncrementalEqualsBatch(deliveries, key);
    forall others | SameContent(deliveries, others)
      ensures OutcomesAgree(es) ==> SameOutcome(deliveries, others, key)
    {
      SameContentSameEvents(deliveries, others, key);
      IncrementalEqualsBatch(others, key);
      if OutcomesAgree(es) {
        AgreeingOutcomesDecide(es, EventsAfter(others, key));
      }
    }
    forall others | multiset(others) == multiset(deliveries)
      ensures SameContent(deliveries, others)
    {
      PermutationsHaveSameContent(deliveries, others);
    }
    if PermutationsAgree(deliveries, key) {
      forall e, f | CanDecide(es, e) && CanDecide(es, f)
        ensures OutcomeOf(e) == OutcomeOf(f)
      {
        var es1 := CandidateFirst(deliveries, key, e);
        var es2 := CandidateFirst(deliveries, key, f);
        assert SameOutcome(deliveries, es1, key) && SameOutcome(deliveries, es2, key);
      }
    }
  }

  /** The case that platforms promise: one terminal event, delivered as often and as late as it may be. */
  lemma OneTerminalEventDecides(deliveries: seq<Delivery>, others: seq<Delivery>, e: Event)
    requires SameContent(deliveries, others) && Delivers(deliveries, e) && e.Terminal()
    requires forall f | Delivers(deliveries, f) && f.Key() == e.Key() && f.Terminal() :: f == e
    ensures HasRow(others, e.Key()) && OutcomeAfter(others, e.Key()) == OutcomeOf(e)
  {
    hide DeliverAll, EventsOf, Accept, Aggregate, Delivers;
    var fs := EventsAfter(others, e.Key());
    KeyedEvents(others, e.Key());
    assert Holds(fs, e);
    OnlyTerminalDecides(fs, e);
    IncrementalEqualsBatch(others, e.Key());
  }

  lemma OnlyTerminalDecides(es: seq<AcceptedEvent>, e: Event)
    requires es != [] && Holds(es, e) && e.Terminal()
    requires forall f | Holds(es, f) && f.Terminal() :: f == e
    ensures OutcomeOfRow(Aggregate(es)) == OutcomeOf(e)
  {
    DecisiveCanDecide(es);
    assert Decisive(es).Terminal();
    DecisiveGivesOutcome(es);
    hide Aggregate;
  }
}
