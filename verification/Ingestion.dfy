/**
  Telemetry and outbox together: in runs whose messages all come from accepted
  events, workers meet no contract errors and no unregistered automations.
 */
module Ingestion {
  import opened Prelude
  import opened Outbox
  import opened Incidents
  import opened WorkerProtocol
  import opened Fencing
  import opened Settlement
  import opened FailureLedger
  import T = Telemetry

  /** The message that accepting an event adds, as an action of the protocol. */
  function IngestAction(e: T.Event): Action {
    Enqueue(TelemetryAccepted, T.AggregateId(e), T.Encode(e), DEFAULT_MAX_ATTEMPTS)
  }

  lemma IngestActionAddsIntent(s: System, a: T.AcceptedEvent)
    requires a.acceptedAt == s.clock
    ensures Enabled(s, IngestAction(a.event))
    ensures Step(s, IngestAction(a.event)) == s.(messages := s.messages + [T.Intent(a)])
  {
  }

  ghost predicate IsIngested(s: System, a: Action) {
    exists e: T.Event :: a == IngestAction(e) && T.MeetsContract(e) && e.automationId in s.automations
  }

  /** Every message of the run comes from ingestion. */
  ghost predicate IngestedRun(s: System, run: seq<Action>)
    requires Valid(s, run)
    decreases |run|
  {
    run == [] || ((run[0].Enqueue? ==> IsIngested(s, run[0])) && IngestedRun(Step(s, run[0]), run[1..]))
  }

  predicate Processable(automations: map<string, Severity>, work: Work) {
    match work
    case Reject(_) => false
    case Nothing => true
    case Correlate(failure) => failure.key.automationId in automations
  }

  predicate AllProcessable(s: System) {
    forall id | 0 <= id < |s.messages| :: Processable(s.automations, s.messages[id].Work())
  }

  lemma IngestedIsProcessable(s: System, a: Action)
    requires Enabled(s, a) && a.Enqueue? && IsIngested(s, a)
    ensures Processable(s.automations, Classify(a.topic, a.payload))
  {
    var e: T.Event :| a == IngestAction(e) && T.MeetsContract(e) && e.automationId in s.automations;
    T.IngestedWorkIsNeverRejected(T.AcceptedEvent(e, "", s.clock));
  }

  /** What a message asks for, and how often it may be tried. */
  predicate SameTask(m: Message, m': Message) {
    m'.topic == m.topic && m'.payload == m.payload && m'.maxAttempts == m.maxAttempts
  }

  lemma CorrelationLeavesMessages(s: System, w: WorkerId, acknowledged: bool)
    requires w in s.workers && s.workers[w].Reading?
    ensures WriteStep(s, w, acknowledged).messages == s.messages
    ensures WriteStep(s, w, acknowledged).automations == s.automations
  {
    hide Classify, FindActive;
  }

  lemma RowsKeepTheirWork(s: System, a: Action)
    requires Enabled(s, a)
    ensures |s.messages| <= |Step(s, a).messages| <= |s.messages| + if a.Enqueue? then 1 else 0
    ensures forall id | 0 <= id < |s.messages| :: SameTask(s.messages[id], Step(s, a).messages[id])
    ensures s.automations.Keys <= Step(s, a).automations.Keys
  {
    hide Classify, FindActive, NextToLease, UpdateIncident, WriteStep;
    if a.WriteIncident? {
      CorrelationLeavesMessages(s, a.w, a.acknowledged);
    }
  }

  lemma StepKeepsProcessable(s: System, a: Action)
    requires AllProcessable(s) && Enabled(s, a) && (a.Enqueue? ==> IsIngested(s, a))
    ensures AllProcessable(Step(s, a))
  {
    hide Classify, IsIngested;
    RowsKeepTheirWork(s, a);
    if a.Enqueue? {
      IngestedIsProcessable(s, a);
    } else {
      assert forall id | 0 <= id < |s.messages| :: Step(s, a).messages[id].Work() == s.messages[id].Work();
    }
  }

  lemma {:induction false} RunKeepsProcessable(s: System, run: seq<Action>)
    requires AllProcessable(s) && Valid(s, run) && IngestedRun(s, run)
    ensures AllProcessable(Run(s, run))
    decreases |run|
  {
    if run != [] {
      StepKeepsProcessable(s, run[0]);
      RunKeepsProcessable(Step(s, run[0]), run[1..]);
    }
  }

  /**
    After any run over ingested messages, no worker can reject its message, and a
    correlation that is written never fails for want of its automation.
   */
  lemma IngestedWorkNeverFailsItsContract(clock: Instant, run: seq<Action>, w: WorkerId)
    requires Valid(Initial(clock), run) && IngestedRun(Initial(clock), run)
    ensures var s := Run(Initial(clock), run);
            && !Enabled(s, RejectMessage(w))
            && (forall acknowledged | Enabled(s, WriteIncident(w, acknowledged)) ::
                  Step(s, WriteIncident(w, acknowledged)).workers[w] != Failing(s.workers[w].m, UnregisteredAutomation))
  {
    hide Classify, FindActive, Valid, Run, CommitsInv;
    var s := Run(Initial(clock), run);
    RunKeepsProcessable(Initial(clock), run);
    assert Reachable(s);
    ReachableKeepsInv(s);
    if w in s.workers && s.workers[w].Holds() {
      var m := s.workers[w].m;
      assert Tracks(s.messages, m);
      assert m.Work() == s.messages[m.id].Work();
      assert Processable(s.automations, s.messages[m.id].Work());
    }
    hide Inv, AllProcessable;
  }
}
