/**
  The repository's calls and the worker's loop as functions of the whole state,
  for a worker that nobody comes in between of, each shown to be a run of the
  worker protocol. OutboxService proves the methods against these functions.
 */
module OutboxCalls {
  import opened Prelude
  import opened Outbox
  import opened Incidents
  import opened WorkerProtocol
  import opened Scheduling

  /** Everything around one turn of the loop that the worker does not control. */
  datatype Conditions = Conditions(
    elapsed: nat,
    locked: set<nat>,
    lease: Connection,
    correlate: Connection,
    complete: Connection,
    fail: Connection)

  /******* The calls *******/

  predicate CanLease(s: System, w: WorkerId) {
    w in s.workers && s.workers[w].Idle?
  }

  function LeaseCall(s: System, w: WorkerId, around: Conditions): (s': System)
    requires CanLease(s, w)
  {
    var now := s.(clock := s.clock + around.elapsed);
    match around.lease
    case Healthy => LeaseStep(now, w, around.locked, true)
    case Lost =>
      if NextToLease(now.messages, now.clock, around.locked).None? then MoveTo(now, w, Crashed)
      else LeaseStep(now, w, around.locked, false)
    case Refused => MoveTo(now, w, Crashed)
  }

  predicate CanCorrelate(s: System, w: WorkerId) {
    w in s.workers && s.workers[w].Holding? && s.workers[w].m.Work().Correlate?
  }

  function CorrelateCall(s: System, w: WorkerId, connection: Connection): (s': System)
    requires CanCorrelate(s, w)
  {
    var m := s.workers[w].m;
    if connection.Refused? then MoveTo(s, w, Failing(m, ConnectionLost))
    else WriteStep(MoveTo(s, w, Reading(m, FindActive(s.incidents, m.Work().failure.key))), w, connection.Healthy?)
  }

  predicate CanComplete(s: System, w: WorkerId) {
    w in s.workers && s.workers[w].ReadyToComplete()
  }

  function CompleteCall(s: System, w: WorkerId, connection: Connection): (s': System)
    requires CanComplete(s, w)
    ensures w in s'.workers && (s'.workers[w].Idle? || s'.workers[w].Failing?)
  {
    CompleteStep(s, w, !connection.Refused?, connection.Healthy?)
  }

  predicate CanFail(s: System, w: WorkerId) {
    w in s.workers && s.workers[w].Failing?
  }

  function FailCall(s: System, w: WorkerId, connection: Connection): (s': System)
    requires CanFail(s, w)
    ensures w in s'.workers && (s'.workers[w].Idle? || s'.workers[w].Crashed?)
  {
    if connection.Refused? then MoveTo(s, w, Crashed)
    else if s.workers[w].m.Exhausted() then CommitBurialStep(BuryStep(s, w), w, connection.Healthy?)
    else RetryStep(s, w, connection.Healthy?)
  }

  /** A call of `fail` that commits, in one go. */
  lemma FailCallIs(s: System, w: WorkerId, m: LeasedMessage, error: ErrorDetail, connection: Connection)
    requires w in s.workers && s.workers[w] == Failing(m, error) && connection != Refused
    ensures FailCall(s, w, connection)
         == MoveTo(if m.id >= |s.messages| then s
                   else if m.Exhausted() then
                     s.(messages := s.messages[m.id := BuryRow(s.messages[m.id], w, s.clock, error)],
                        deadLetters := InsertLetter(s.deadLetters, LetterFor(m.id, s.messages[m.id], w, error)))
                   else
                     s.(messages := s.messages[m.id := RetryRow(s.messages[m.id], w, s.clock, RetryDelaySeconds(m.attempts), error)]),
                   w, if connection.Healthy? then Idle else Crashed)
  {
    hide BuryRow, RetryRow, LetterFor, RetryDelaySeconds, Classify;
  }

  predicate CanProcess(s: System, w: WorkerId) {
    w in s.workers && s.workers[w].Holding?
  }

  /** The part of processOne up to `complete`. */
  function Attempt(s: System, w: WorkerId, around: Conditions): (s': System)
    requires CanProcess(s, w)
    ensures CanComplete(s', w) || CanFail(s', w)
  {
    match s.workers[w].m.Work()
    case Reject(reason) => MoveTo(s, w, Failing(s.workers[w].m, reason))
    case Correlate(_) => CorrelateCall(s, w, around.correlate)
    case Nothing => s
  }

  /** `complete`, if the attempt got that far. */
  function Finish(s: System, w: WorkerId, around: Conditions): (s': System)
    requires CanComplete(s, w) || CanFail(s, w)
    ensures CanFail(s', w) || (w in s'.workers && s'.workers[w].Idle?)
  {
    if CanFail(s, w) then s else CompleteCall(s, w, around.complete)
  }

  /** processOne: any error on the way ends in `fail`. */
  function ProcessCall(s: System, w: WorkerId, around: Conditions): (s': System)
    requires CanProcess(s, w)
    ensures w in s'.workers && (s'.workers[w].Idle? || s'.workers[w].Crashed?)
  {
    var finished := Finish(Attempt(s, w, around), w, around);
    if CanFail(finished, w) then FailCall(finished, w, around.fail) else finished
  }

  /** Where the loop ends, and how: with a count, or with an error that ends the process. */
  datatype LoopResult = LoopResult(system: System, answer: Result<nat, ErrorDetail>)

  function Loop(s: System, w: WorkerId, limit: nat, around: nat -> Conditions, processed: nat): LoopResult
    requires CanLease(s, w) && processed <= limit
    decreases limit - processed
  {
    if processed == limit then LoopResult(s, Ok(processed))
    else
      var leased := LeaseCall(s, w, around(processed));
      if !CanProcess(leased, w) then
        LoopResult(leased, if CanLease(leased, w) then Ok(processed) else Err(ConnectionLost))
      else
        var done := ProcessCall(leased, w, around(processed));
        if CanLease(done, w) then Loop(done, w, limit, around, processed + 1)
        else LoopResult(done, Err(ConnectionLost))
  }

  /******* Row locks *******/

  /** The incident that the worker's report would be counted on, if any, is not locked by another transaction. */
  predicate FindsNoLock(s: System, w: WorkerId)
    requires CanProcess(s, w)
  {
    CanCorrelate(s, w) ==>
      var found := FindActive(s.incidents, s.workers[w].m.Work().failure.key);
      found.Some? ==> Unlocked(s, found.value)
  }

  /** No turn of the loop finds its incident locked: the loop never waits for others to move. */
  predicate LoopFindsNoLock(s: System, w: WorkerId, limit: nat, around: nat -> Conditions, processed: nat)
    requires CanLease(s, w) && processed <= limit
    decreases limit - processed
  {
    processed == limit ||
    var leased := LeaseCall(s, w, around(processed));
    CanProcess(leased, w) ==>
      && FindsNoLock(leased, w)
      && var done := ProcessCall(leased, w, around(processed));
         CanLease(done, w) ==> LoopFindsNoLock(done, w, limit, around, processed + 1)
  }

  /******* Each call is a run *******/

  /** `s'` is where the run takes `s`, granting `leases` leases. */
  predicate Leads(s: System, run: seq<Action>, s': System, leases: nat) {
    Valid(s, run) && Run(s, run) == s' && LeasesGranted(s, run) == leases
  }

  ghost predicate IsRun(s: System, s': System, leases: nat) {
    exists run :: Leads(s, run, s', leases)
  }

  lemma NoStepIsRun(s: System)
    ensures IsRun(s, s, 0)
  {
    assert Leads(s, [], s, 0);
  }

  lemma OneStepIsRun(s: System, a: Action)
    requires Enabled(s, a)
    ensures IsRun(s, Step(s, a), if a.Lease? && NextToLease(s.messages, s.clock, a.locked).Some? then 1 else 0)
  {
    var s' := Step(s, a);
    assert [a][1..] == [];
    assert Leads(s', [], s', 0);
    assert Leads(s, [a], s', if a.Lease? && NextToLease(s.messages, s.clock, a.locked).Some? then 1 else 0);
  }

  lemma {:induction false} LeasesAddUp(s: System, run: seq<Action>, more: seq<Action>)
    requires Valid(s, run) && Valid(Run(s, run), more)
    ensures Valid(s, run + more)
    ensures LeasesGranted(s, run + more) == LeasesGranted(s, run) + LeasesGranted(Run(s, run), more)
    decreases |run|
  {
    RunConcat(s, run, more);
    if run == [] {
      assert run + more == more;
    } else {
      LeasesAddUp(Step(s, run[0]), run[1..], more);
      assert (run + more)[1..] == run[1..] + more;
    }
  }

  lemma RunsCompose(s: System, s': System, s'': System, leases: nat, more: nat)
    requires IsRun(s, s', leases) && IsRun(s', s'', more)
    ensures IsRun(s, s'', leases + more)
  {
    var first :| Leads(s, first, s', leases);
    var second :| Leads(s', second, s'', more);
    RunConcat(s, first, second);
    LeasesAddUp(s, first, second);
    assert Leads(s, first + second, s'', leases + more);
  }

  /** The leases that a lease call grants: one, unless it was refused or found nothing. */
  function Granted(s: System, around: Conditions): nat {
    if around.lease.Refused? || NextToLease(s.messages, s.clock + around.elapsed, around.locked).None? then 0 else 1
  }

  lemma LeaseCallIsRun(s: System, w: WorkerId, around: Conditions)
    requires CanLease(s, w)
    ensures IsRun(s, LeaseCall(s, w, around), Granted(s, around))
  {
    var tick := Tick(s.clock + around.elapsed);
    var now := Step(s, tick);
    OneStepIsRun(s, tick);
    var call := if Granted(s, around) == 0 && !around.lease.Healthy? then Crash(w)
                else Action.Lease(w, around.locked, around.lease.Healthy?);
    OneStepIsRun(now, call);
    RunsCompose(s, now, Step(now, call), 0, Granted(s, around));
  }

  lemma CorrelateCallIsRun(s: System, w: WorkerId, connection: Connection)
    requires CanCorrelate(s, w) && FindsNoLock(s, w)
    ensures IsRun(s, CorrelateCall(s, w, connection), 0)
  {
    hide Classify, FindActive, IsRun;
    if connection.Refused? {
      OneStepIsRun(s, AbortCorrelation(w, ConnectionLost));
    } else {
      var select, write := SelectIncident(w), WriteIncident(w, connection.Healthy?);
      OneStepIsRun(s, select);
      OneStepIsRun(Step(s, select), write);
      RunsCompose(s, Step(s, select), CorrelateCall(s, w, connection), 0, 0);
    }
  }

  lemma CompleteCallIsRun(s: System, w: WorkerId, connection: Connection)
    requires CanComplete(s, w)
    ensures IsRun(s, CompleteCall(s, w, connection), 0)
  {
    OneStepIsRun(s, Complete(w, !connection.Refused?, connection.Healthy?));
  }

  lemma FailCallIsRun(s: System, w: WorkerId, connection: Connection)
    requires CanFail(s, w)
    ensures IsRun(s, FailCall(s, w, connection), 0)
  {
    if connection.Refused? {
      OneStepIsRun(s, Crash(w));
    } else if s.workers[w].m.Exhausted() {
      OneStepIsRun(s, Bury(w));
      OneStepIsRun(BuryStep(s, w), CommitBurial(w, connection.Healthy?));
      RunsCompose(s, BuryStep(s, w), FailCall(s, w, connection), 0, 0);
    } else {
      OneStepIsRun(s, Retry(w, connection.Healthy?));
    }
  }

  lemma AttemptIsRun(s: System, w: WorkerId, around: Conditions)
    requires CanProcess(s, w) && FindsNoLock(s, w)
    ensures IsRun(s, Attempt(s, w, around), 0)
  {
    match s.workers[w].m.Work()
    case Reject(_) => OneStepIsRun(s, RejectMessage(w));
    case Correlate(_) => CorrelateCallIsRun(s, w, around.correlate);
    case Nothing => NoStepIsRun(s);
  }

  lemma ProcessCallIsRun(s: System, w: WorkerId, around: Conditions)
    requires CanProcess(s, w) && FindsNoLock(s, w)
    ensures IsRun(s, ProcessCall(s, w, around), 0)
  {
    hide Classify, IsRun, CorrelateCall, CompleteCall, FailCall;
    var attempted := Attempt(s, w, around);
    AttemptIsRun(s, w, around);
    var finished := Finish(attempted, w, around);
    if !CanFail(attempted, w) {
      CompleteCallIsRun(attempted, w, around.complete);
      RunsCompose(s, attempted, finished, 0, 0);
    }
    if CanFail(finished, w) {
      FailCallIsRun(finished, w, around.fail);
      RunsCompose(s, finished, ProcessCall(s, w, around), 0, 0);
    }
  }

  /** A lease call that leads to work has granted its one lease. */
  lemma LeaseCallAnswers(s: System, w: WorkerId, around: Conditions)
    requires CanLease(s, w)
    ensures var s' := LeaseCall(s, w, around);
            && (CanProcess(s', w) ==> Granted(s, around) == 1)
            && (CanLease(s', w) ==>
                  && Granted(s, around) == 0
                  && NothingToLease(s', around.locked))
            && w in s'.workers && (s'.workers[w].Holding? || s'.workers[w].Idle? || s'.workers[w].Crashed?)
  {
  }

  /** How the loop ends: idle with a count, having found nothing more to lease if it stopped short; or crashed. */
  predicate LoopEndsWell(end: LoopResult, w: WorkerId, limit: nat, around: nat -> Conditions, processed: nat) {
    && w in end.system.workers
    && (end.answer.Ok? ==>
          && processed <= end.answer.value <= limit
          && end.system.workers[w].Idle?
          && (end.answer.value < limit ==> NothingToLease(end.system, around(end.answer.value).locked)))
    && (end.answer.Err? ==> end.system.workers[w].Crashed?)
  }

  predicate NothingToLease(s: System, locked: set<nat>) {
    NextToLease(s.messages, s.clock, locked).None?
  }

  lemma {:induction false} LoopAnswers(s: System, w: WorkerId, limit: nat, around: nat -> Conditions, processed: nat)
    requires CanLease(s, w) && processed <= limit
    ensures LoopEndsWell(Loop(s, w, limit, around, processed), w, limit, around, processed)
    decreases limit - processed
  {
    hide LeaseCall, ProcessCall;
    if processed < limit {
      LeaseCallAnswers(s, w, around(processed));
      var leased := LeaseCall(s, w, around(processed));
      if CanProcess(leased, w) {
        var done := ProcessCall(leased, w, around(processed));
        if CanLease(done, w) {
          LoopAnswers(done, w, limit, around, processed + 1);
        }
      }
    }
  }

  /** The leases behind an end of the loop: at most `budget`, and as many as it counts. */
  ghost predicate LoopRuns(s: System, end: LoopResult, processed: nat, budget: nat) {
    exists leases: nat :: IsRun(s, end.system, leases) && leases <= budget
                          && (end.answer.Ok? ==> end.answer.value == processed + leases)
  }

  /** The loop is a run of the protocol that grants at most `limit` leases, one for each message it counts. */
  lemma {:induction false} LoopIsRun(s: System, w: WorkerId, limit: nat, around: nat -> Conditions, processed: nat)
    requires CanLease(s, w) && processed <= limit && LoopFindsNoLock(s, w, limit, around, processed)
    ensures LoopRuns(s, Loop(s, w, limit, around, processed), processed, limit - processed)
    decreases limit - processed
  {
    hide LeaseCall, ProcessCall, IsRun, FindsNoLock;
    if processed == limit {
      NoStepIsRun(s);
    } else {
      var leased := LeaseCall(s, w, around(processed));
      LeaseCallIsRun(s, w, around(processed));
      LeaseCallAnswers(s, w, around(processed));
      if CanProcess(leased, w) {
        var done := ProcessCall(leased, w, around(processed));
        ProcessCallIsRun(leased, w, around(processed));
        RunsCompose(s, leased, done, 1, 0);
        if CanLease(done, w) {
          LoopIsRun(done, w, limit, around, processed + 1);
          LoopContinues(s, done, Loop(done, w, limit, around, processed + 1), processed, limit - processed);
        }
      }
    }
  }

  lemma LoopContinues(s: System, done: System, end: LoopResult, processed: nat, budget: nat)
    requires budget > 0 && IsRun(s, done, 1) && LoopRuns(done, end, processed + 1, budget - 1)
    ensures LoopRuns(s, end, processed, budget)
  {
    var leases: nat :| IsRun(done, end.system, leases) && leases <= budget - 1
      && (end.answer.Ok? ==> end.answer.value == processed + 1 + leases);
    RunsCompose(s, done, end.system, 1, leases);
  }

  /** What the loop does to the tables is reachable whenever its start is. */
  lemma LoopStaysReachable(s: System, w: WorkerId, limit: nat, around: nat -> Conditions)
    requires Reachable(s) && CanLease(s, w) && LoopFindsNoLock(s, w, limit, around, 0)
    ensures Reachable(Loop(s, w, limit, around, 0).system)
    ensures TotalAttempts(Loop(s, w, limit, around, 0).system.messages) <= TotalAttempts(s.messages) + limit
  {
    LoopIsRun(s, w, limit, around, 0);
    var end := Loop(s, w, limit, around, 0).system;
    var leases: nat :| IsRun(s, end, leases) && leases <= limit;
    var run :| Leads(s, run, end, leases);
    ReachableRun(s, run);
    LeaseBudget(s, run);
  }
}
