/**
  The control plane as a transition system: any number of workers lease outbox
  rows, correlate failures into incidents, then complete, retry or bury the row,
  while operators act on incidents, the clock advances and workers crash. One
  action is one statement or transaction against the database, except where a
  transaction is split in two so that others can come in between: correlation is
  a select and a later write, and burial an insert and a later update.
 */
module WorkerProtocol {
  import opened Prelude
  import opened Outbox
  import opened Incidents

  /** Where a worker stands in processOne, with the message it was handed. */
  datatype Worker =
    | Idle
    | Holding(m: LeasedMessage)
    | Reading(m: LeasedMessage, found: Option<nat>)
    | Correlated(m: LeasedMessage)
    | Failing(m: LeasedMessage, error: ErrorDetail)
    | Burying(m: LeasedMessage, error: ErrorDetail, letter: Option<DeadLetter>)
    | Crashed
  {
    predicate Holds() {
      !Idle? && !Crashed?
    }

    /** The correlate transaction has not committed for this lease. */
    predicate BeforeCorrelation() {
      Holding? || Reading?
    }

    /** Ready for `complete`: nothing to correlate, or correlation has committed. */
    predicate ReadyToComplete() {
      Correlated? || (Holding? && m.Work().Nothing?)
    }
  }

  /** One committed correlateFailure call: who made it and where it went. No table stores it. */
  datatype Commit = Commit(messageId: nat, attempt: nat, failure: Failure, incident: nat)

  datatype System = System(
    clock: Instant,
    automations: map<string, Severity>,
    messages: seq<Message>,
    deadLetters: seq<DeadLetter>,
    incidents: seq<Incident>,
    history: seq<HistoryEntry>,
    commits: seq<Commit>,
    workers: map<WorkerId, Worker>)

  function Initial(clock: Instant): System {
    System(clock, map[], [], [], [], [], [], map[])
  }

  datatype Action =
    | Tick(to: Instant)
    | Synchronize(automationId: string, tier: Severity)
    | StartWorker(w: WorkerId)
    | Enqueue(topic: Topic, aggregateId: string, payload: Payload, maxAttempts: nat)
      /** `delivered` is false when the lease commits but its answer is lost. */
    | Lease(w: WorkerId, locked: set<nat>, delivered: bool)
    | RejectMessage(w: WorkerId)
    | SelectIncident(w: WorkerId)
      /** `acknowledged` is false when the commit succeeds but reports an error. */
    | WriteIncident(w: WorkerId, acknowledged: bool)
    | AbortCorrelation(w: WorkerId, error: ErrorDetail)
    | Complete(w: WorkerId, committed: bool, acknowledged: bool)
    | Retry(w: WorkerId, acknowledged: bool)
    | Bury(w: WorkerId)
    | CommitBurial(w: WorkerId, acknowledged: bool)
    | Crash(w: WorkerId)
    | Operate(incident: nat, action: IncidentAction, actor: Actor)

  /** The row lock that `for update` takes on an incident until its transaction ends. */
  predicate LockedBy(s: System, w: WorkerId, incident: nat) {
    w in s.workers && s.workers[w].Reading? && s.workers[w].found == Some(incident)
  }

  predicate Unlocked(s: System, incident: nat) {
    forall w :: w in s.workers ==> !LockedBy(s, w, incident)
  }

  predicate Enabled(s: System, a: Action) {
    match a
    case Tick(to) => s.clock <= to
    case Synchronize(_, _) => true
    case StartWorker(w) => w !in s.workers
    case Enqueue(_, _, _, maxAttempts) => 1 <= maxAttempts <= 20
    case Lease(w, _, _) => w in s.workers && s.workers[w].Idle?
    case RejectMessage(w) => w in s.workers && s.workers[w].Holding? && s.workers[w].m.Work().Reject?
    case SelectIncident(w) =>
      && w in s.workers && s.workers[w].Holding? && s.workers[w].m.Work().Correlate?
      && var found := FindActive(s.incidents, s.workers[w].m.Work().failure.key);
         found.Some? ==> Unlocked(s, found.value)
    case WriteIncident(w, _) => w in s.workers && s.workers[w].Reading?
    case AbortCorrelation(w, _) =>
      && w in s.workers
      && (s.workers[w].Reading? || (s.workers[w].Holding? && s.workers[w].m.Work().Correlate?))
    case Complete(w, committed, acknowledged) =>
      && w in s.workers && s.workers[w].ReadyToComplete()
      && (acknowledged ==> committed)
    case Retry(w, _) => w in s.workers && s.workers[w].Failing? && !s.workers[w].m.Exhausted()
    case Bury(w) => w in s.workers && s.workers[w].Failing? && s.workers[w].m.Exhausted()
    case CommitBurial(w, _) => w in s.workers && s.workers[w].Burying?
    case Crash(w) => w in s.workers && !s.workers[w].Crashed?
    case Operate(incident, action, _) =>
      && incident < |s.incidents|
      && Unlocked(s, incident)
  }

  function MoveTo(s: System, w: WorkerId, worker: Worker): System {
    s.(workers := s.workers[w := worker])
  }

  function LeaseStep(s: System, w: WorkerId, locked: set<nat>, delivered: bool): System
    requires w in s.workers
  {
    var next := NextToLease(s.messages, s.clock, locked);
    if next.None? then s
    else
      var row := LeaseRow(s.messages[next.value], w, s.clock);
      MoveTo(s.(messages := s.messages[next.value := row]), w,
             if delivered then Holding(Snapshot(next.value, row)) else Crashed)
  }

  /** The write half of correlateFailure, by a worker whose select found `found`. */
  function WriteStep(s: System, w: WorkerId, acknowledged: bool): System
    requires w in s.workers && s.workers[w].Reading?
  {
    var m := s.workers[w].m;
    var after := if acknowledged then Correlated(m) else Failing(m, ConnectionLost);
    if !m.Work().Correlate? then s
    else
      var failure := m.Work().failure;
      match s.workers[w].found
      case Some(i) =>
        if i >= |s.incidents| then s
        else
          MoveTo(s.(incidents := s.incidents[i := RepeatFailure(s.incidents[i], failure.occurredAt, s.clock)],
                 history := s.history + [RepeatedEntry(i, failure, s.clock)],
                 commits := s.commits + [Commit(m.id, m.attempts, failure, i)]), w, after)
      case None =>
        if failure.key.automationId !in s.automations then
          MoveTo(s, w, Failing(m, UnregisteredAutomation))
        else if FindActive(s.incidents, failure.key).Some? then
          MoveTo(s, w, Failing(m, ActiveIncidentExists))
        else
          var i := |s.incidents|;
          MoveTo(s.(incidents := s.incidents + [OpenIncident(failure, s.automations[failure.key.automationId], s.clock)],
                 history := s.history + [OpenedEntry(i, failure, s.clock)],
                 commits := s.commits + [Commit(m.id, m.attempts, failure, i)]), w, after)
  }

  /** A row statement `where id = $1 and leased_by = $2`, if the id exists. */
  function CompleteStep(s: System, w: WorkerId, committed: bool, acknowledged: bool): System
    requires w in s.workers && s.workers[w].Holds()
  {
    var m := s.workers[w].m;
    var after := if acknowledged then Idle else Failing(m, ConnectionLost);
    if committed && m.id < |s.messages| then
      MoveTo(s.(messages := s.messages[m.id := CompleteRow(s.messages[m.id], w, s.clock)]), w, after)
    else
      MoveTo(s, w, after)
  }

  function RetryStep(s: System, w: WorkerId, acknowledged: bool): System
    requires w in s.workers && s.workers[w].Failing?
  {
    var m := s.workers[w].m;
    var after := if acknowledged then Idle else Crashed;
    if m.id < |s.messages| then
      var row := RetryRow(s.messages[m.id], w, s.clock, RetryDelaySeconds(m.attempts), s.workers[w].error);
      MoveTo(s.(messages := s.messages[m.id := row]), w, after)
    else
      MoveTo(s, w, after)
  }

  /** The insert half of burial: it reads the row but nothing is visible yet. */
  function BuryStep(s: System, w: WorkerId): System
    requires w in s.workers && s.workers[w].Failing?
  {
    var m := s.workers[w].m;
    var error := s.workers[w].error;
    MoveTo(s, w, Burying(m, error, if m.id < |s.messages| then LetterFor(m.id, s.messages[m.id], w, error) else None))
  }

  /** The update half of burial, and the commit that publishes both halves. */
  function CommitBurialStep(s: System, w: WorkerId, acknowledged: bool): System
    requires w in s.workers && s.workers[w].Burying?
  {
    var m := s.workers[w].m;
    var after := if acknowledged then Idle else Crashed;
    if m.id < |s.messages| then
      var row := BuryRow(s.messages[m.id], w, s.clock, s.workers[w].error);
      MoveTo(s.(messages := s.messages[m.id := row],
             deadLetters := InsertLetter(s.deadLetters, s.workers[w].letter)), w, after)
    else
      MoveTo(s, w, after)
  }

  /** The repository's applyAction: no row, no history entry. */
  function OperateStep(s: System, incident: nat, action: IncidentAction, actor: Actor): System
    requires incident < |s.incidents|
  {
    var updated := UpdateIncident(s.incidents[incident], action, s.clock);
    if updated.None? then s
    else s.(incidents := s.incidents[incident := updated.value],
         history := s.history + [ActionEntry(incident, action, actor, s.clock)])
  }

  function Step(s: System, a: Action): System
    requires Enabled(s, a)
  {
    match a
    case Tick(to) => s.(clock := to)
    case Synchronize(automationId, tier) => s.(automations := s.automations[automationId := tier])
    case StartWorker(w) => MoveTo(s, w, Idle)
    case Enqueue(topic, aggregateId, payload, maxAttempts) =>
      s.(messages := s.messages + [NewMessage(topic, aggregateId, payload, maxAttempts, s.clock)])
    case Lease(w, locked, delivered) => LeaseStep(s, w, locked, delivered)
    case RejectMessage(w) => MoveTo(s, w, Failing(s.workers[w].m, s.workers[w].m.Work().reason))
    case SelectIncident(w) =>
      MoveTo(s, w, Reading(s.workers[w].m, FindActive(s.incidents, s.workers[w].m.Work().failure.key)))
    case WriteIncident(w, acknowledged) => WriteStep(s, w, acknowledged)
    case AbortCorrelation(w, error) => MoveTo(s, w, Failing(s.workers[w].m, error))
    case Complete(w, committed, acknowledged) => CompleteStep(s, w, committed, acknowledged)
    case Retry(w, acknowledged) => RetryStep(s, w, acknowledged)
    case Bury(w) => BuryStep(s, w)
    case CommitBurial(w, acknowledged) => CommitBurialStep(s, w, acknowledged)
    case Crash(w) => MoveTo(s, w, Crashed)
    case Operate(incident, action, actor) => OperateStep(s, incident, action, actor)
  }

  /******* Runs *******/

  predicate Valid(s: System, run: seq<Action>)
    decreases |run|
  {
    run == [] || (Enabled(s, run[0]) && Valid(Step(s, run[0]), run[1..]))
  }

  function Run(s: System, run: seq<Action>): System
    requires Valid(s, run)
    decreases |run|
  {
    if run == [] then s else Run(Step(s, run[0]), run[1..])
  }

  ghost predicate Reachable(s: System) {
    exists clock, run :: Valid(Initial(clock), run) && Run(Initial(clock), run) == s
  }

  lemma {:induction false} RunConcat(s: System, run: seq<Action>, more: seq<Action>)
    requires Valid(s, run) && Valid(Run(s, run), more)
    ensures Valid(s, run + more) && Run(s, run + more) == Run(Run(s, run), more)
    decreases |run|
  {
    if run == [] {
      assert run + more == more;
    } else {
      RunConcat(Step(s, run[0]), run[1..], more);
      assert (run + more)[1..] == run[1..] + more;
    }
  }

  lemma ReachableRun(s: System, run: seq<Action>)
    requires Reachable(s) && Valid(s, run)
    ensures Reachable(Run(s, run))
  {
    var clock, before :| Valid(Initial(clock), before) && Run(Initial(clock), before) == s;
    RunConcat(Initial(clock), before, run);
  }

  lemma InitialIsReachable(clock: Instant)
    ensures Reachable(Initial(clock))
  {
    assert Valid(Initial(clock), []) && Run(Initial(clock), []) == Initial(clock);
  }

  lemma ReachableStep(s: System, a: Action)
    requires Reachable(s) && Enabled(s, a)
    ensures Reachable(Step(s, a))
  {
    assert [a][1..] == [];
    assert Valid(Step(s, a), []) && Run(Step(s, a), []) == Step(s, a);
    assert Valid(s, [a]) && Run(s, [a]) == Step(s, a);
    ReachableRun(s, [a]);
  }
}
