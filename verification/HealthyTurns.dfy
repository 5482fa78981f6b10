/**
  What the worker's turns come to: exactly when a message is completed or given up, and
  what the loop achieves when nothing goes wrong, where every message that can be
  leased is completed and every failure report among them is counted once.
 */
module HealthyTurns {
  import opened Prelude
  import opened Outbox
  import opened Incidents
  import opened WorkerProtocol
  import opened Fencing
  import opened Settlement
  import opened OutboxCalls
  import opened OutboxEffects
  import opened Ingestion

  predicate Healthy(around: Conditions) {
    around.lease.Healthy? && around.correlate.Healthy? && around.complete.Healthy? && around.locked == {}
  }

  /** The worker has just leased a row and holds the copy of it. */
  predicate HoldsLease(s: System, w: WorkerId, id: nat) {
    && CanProcess(s, w) && id < |s.messages|
    && s.messages[id].leasedBy == Some(w) && s.workers[w].m == Snapshot(id, s.messages[id])
  }

  function CommitsExpected(work: Work): nat {
    if work.Correlate? then 1 else 0
  }

  /** The correlate transaction commits once, for work that ingestion may have written. */
  lemma HealthyAttempt(s: System, w: WorkerId, around: Conditions)
    requires CanProcess(s, w) && Healthy(around) && Processable(s.automations, s.workers[w].m.Work())
    ensures var s' := Attempt(s, w, around);
            && CanComplete(s', w) && s'.workers[w].m == s.workers[w].m
            && s'.messages == s.messages && s'.deadLetters == s.deadLetters
            && s'.automations == s.automations && s'.clock == s.clock
            && |s'.commits| == |s.commits| + CommitsExpected(s.workers[w].m.Work())
  {
    hide Classify;
  }

  lemma AttemptKeepsInv(s: System, w: WorkerId, around: Conditions)
    requires Inv(s) && CanProcess(s, w)
    ensures Inv(Attempt(s, w, around))
  {
    hide Classify, Inv, FindActive;
    var m := s.workers[w].m;
    match m.Work()
    case Reject(reason) => MoveKeepsInv(s, Attempt(s, w, around), w, Failing(m, reason));
    case Nothing =>
    case Correlate(failure) =>
      if around.correlate.Refused? {
        MoveKeepsInv(s, Attempt(s, w, around), w, Failing(m, ConnectionLost));
      } else {
        var reading := Reading(m, FindActive(s.incidents, failure.key));
        MoveKeepsInv(s, MoveTo(s, w, reading), w, reading);
        WriteKeepsInv(MoveTo(s, w, reading), w, around.correlate.Healthy?);
      }
  }

  lemma LeasedHasNoLetter(s: System, id: nat)
    requires Inv(s) && id < |s.messages| && s.messages[id].leasedBy.Some?
    ensures !HasLetter(s.deadLetters, id)
  {
    assert RowIsSound(s.messages[id]);
    if HasLetter(s.deadLetters, id) {
      LetterMeansSettled(s, id);
    }
  }

  /** A healthy turn completes its message, with one more correlation if it is a failure report and none if not. */
  lemma HealthyTurn(s: System, w: WorkerId, id: nat, around: Conditions)
    requires Inv(s) && HoldsLease(s, w, id) && Healthy(around) && Processable(s.automations, s.messages[id].Work())
    ensures var s' := ProcessCall(s, w, around);
            && CanLease(s', w) && Inv(s')
            && s'.messages == s.messages[id := CompleteRow(s.messages[id], w, s.clock)]
            && s'.deadLetters == s.deadLetters && s'.automations == s.automations && s'.clock == s.clock
            && SettlementOf(s', id).Completed?
            && |s'.commits| == |s.commits| + CommitsExpected(s.messages[id].Work())
  {
    LeasedHasNoLetter(s, id);
    assert s.workers[w].m.Work() == s.messages[id].Work();
    hide Classify, Inv, Attempt, CommitsExpected, Processable, HasLetter;
    HealthyAttempt(s, w, around);
    AttemptKeepsInv(s, w, around);
    HealthyCompletion(Attempt(s, w, around), w, id);
    hide CompleteCall;
  }

  /** The owner's `complete` settles its row and nothing else. */
  lemma HealthyCompletion(s: System, w: WorkerId, id: nat)
    requires Inv(s) && CanComplete(s, w)
    requires id < |s.messages| && s.messages[id].leasedBy == Some(w) && s.workers[w].m.id == id
    ensures var s' := CompleteCall(s, w, Connection.Healthy);
            && CanLease(s', w) && Inv(s')
            && s' == s.(messages := s.messages[id := CompleteRow(s.messages[id], w, s.clock)], workers := s'.workers)
            && s'.messages[id].processedAt.Some?
  {
    hide Classify, Inv;
    CompleteKeepsInv(s, w, true, true);
  }

  /******* Turns that fail *******/

  /** The error, if any, that the part of a turn before `complete` ends in. */
  function AttemptError(s: System, work: Work, around: Conditions): Option<ErrorDetail> {
    match work
    case Reject(reason) => Some(reason)
    case Nothing => None
    case Correlate(failure) =>
      if around.correlate == Refused then Some(ConnectionLost)
      else if failure.key.automationId !in s.automations && FindActive(s.incidents, failure.key).None? then Some(UnregisteredAutomation)
      else if around.correlate == Lost then Some(ConnectionLost)
      else None
  }

  lemma AttemptEndsInError(s: System, w: WorkerId, around: Conditions)
    requires CanProcess(s, w)
    ensures var s' := Attempt(s, w, around);
            var m := s.workers[w].m;
            && s'.messages == s.messages && s'.deadLetters == s.deadLetters && s'.clock == s.clock
            && match AttemptError(s, m.Work(), around)
               case Some(error) => CanFail(s', w) && s'.workers[w] == Failing(m, error)
               case None => CanComplete(s', w) && s'.workers[w].m == m
  {
    hide Classify;
  }

  /** The row of a turn that failed with the error: back in line after its backoff, or buried. */
  predicate IsGivenUp(row: Message, row': Message, now: Instant, error: ErrorDetail) {
    && row.attempts >= 1
    && if row.attempts < row.maxAttempts then
         row' == row.(availableAt := now + BackoffSeconds(row.attempts) * 1_000_000, lastError := Some(error),
                      leasedBy := None, leaseExpiresAt := None)
       else
         row' == row.(processedAt := Some(now), lastError := Some(error), leasedBy := None, leaseExpiresAt := None)
  }

  lemma FailGivesUp(s: System, w: WorkerId, id: nat, m: LeasedMessage, error: ErrorDetail, connection: Connection)
    requires id < |s.messages| && s.messages[id].leasedBy == Some(w) && m == Snapshot(id, s.messages[id])
    requires w in s.workers && s.workers[w] == Failing(m, error) && m.attempts >= 1
    ensures var s' := FailCall(s, w, connection);
            && OnlyRow(s.messages, s'.messages, id)
            && (connection == Refused ==> s'.messages == s.messages && s'.deadLetters == s.deadLetters)
            && (connection != Refused ==> IsGivenUp(s.messages[id], s'.messages[id], s.clock, error))
            && (connection != Refused ==>
                  (s'.deadLetters != s.deadLetters ==> s.messages[id].attempts >= s.messages[id].maxAttempts)
                  && (s.messages[id].attempts >= s.messages[id].maxAttempts ==> HasLetter(s'.deadLetters, id)))
  {
    DelayIsBackoff(m.attempts);
    hide Classify, RetryDelaySeconds, BackoffSeconds;
    var s' := FailCall(s, w, connection);
    if connection != Refused && m.Exhausted() && !HasLetter(s.deadLetters, id) {
      assert s'.deadLetters[|s.deadLetters|].messageId == id;
    }
  }

  lemma FailAfterCompletion(s: System, w: WorkerId, id: nat, error: ErrorDetail, connection: Connection)
    requires id < |s.messages| && s.messages[id].leasedBy.None?
    requires w in s.workers && s.workers[w].Failing? && s.workers[w].error == error && s.workers[w].m.id == id
    ensures FailCall(s, w, connection).messages == s.messages
    ensures FailCall(s, w, connection).deadLetters == s.deadLetters
  {
    hide Classify, RetryDelaySeconds;
    assert s.messages[id := s.messages[id]] == s.messages;
  }

  /**
    What one turn comes to, whatever goes wrong: the row is completed exactly if the
    attempt raised no error and the completion committed, heard of or not; otherwise it
    is given up with the error of the step that failed, unless `fail` is refused too,
    and then it stays leased.
   */
  lemma TurnComesTo(s: System, w: WorkerId, id: nat, around: Conditions)
    requires Inv(s) && HoldsLease(s, w, id)
    ensures var s' := ProcessCall(s, w, around);
            var row := s.messages[id];
            var error := AttemptError(s, row.Work(), around);
            && OnlyRow(s.messages, s'.messages, id)
            && if error.None? && around.complete != Refused then
                 s'.messages[id] == row.(processedAt := Some(s.clock), leasedBy := None, leaseExpiresAt := None)
               else if around.fail == Refused then s'.messages == s.messages
               else IsGivenUp(row, s'.messages[id], s.clock, if error.Some? then error.value else ConnectionLost)
  {
    assert RowIsSound(s.messages[id]);
    var m := s.workers[w].m;
    assert m.Work() == s.messages[id].Work();
    hide Classify, Inv, RowIsSound, Attempt, FailCall, AttemptError, IsGivenUp;
    AttemptEndsInError(s, w, around);
    var attempted := Attempt(s, w, around);
    var error := AttemptError(s, m.Work(), around);
    if error.Some? {
      FailGivesUp(attempted, w, id, m, error.value, around.fail);
    } else if around.complete == Refused {
      FailGivesUp(CompleteCall(attempted, w, around.complete), w, id, m, ConnectionLost, around.fail);
    } else if around.complete == Lost {
      FailAfterCompletion(CompleteCall(attempted, w, around.complete), w, id, ConnectionLost, around.fail);
    }
  }

  /******* The whole loop *******/

  function Unsettled(messages: seq<Message>): nat {
    if messages == [] then 0
    else Unsettled(messages[..|messages| - 1]) + if messages[|messages| - 1].processedAt.None? then 1 else 0
  }

  lemma {:induction false} SettlingLowersUnsettled(messages: seq<Message>, id: nat, row: Message)
    requires id < |messages| && messages[id].processedAt.None? && row.processedAt.Some?
    ensures Unsettled(messages[id := row]) == Unsettled(messages) - 1
  {
    var last := |messages| - 1;
    if id == last {
      assert messages[id := row][..last] == messages[..last];
    } else {
      assert messages[id := row][..last] == messages[..last][id := row];
      SettlingLowersUnsettled(messages[..last], id, row);
    }
  }

  lemma {:induction false} NothingUnsettled(messages: seq<Message>, id: nat)
    requires Unsettled(messages) == 0 && id < |messages|
    ensures messages[id].processedAt.Some?
  {
    if id < |messages| - 1 {
      NothingUnsettled(messages[..|messages| - 1], id);
    }
  }

  /** One row goes through an update that keeps its topic and payload. */
  lemma UpdateKeepsProcessable(s: System, s': System, id: nat, row: Message)
    requires AllProcessable(s) && id < |s.messages| && s'.messages == s.messages[id := row]
    requires row.Work() == s.messages[id].Work() && s'.automations == s.automations
    ensures AllProcessable(s')
  {
    hide Classify;
  }

  /** A healthy lease call: the row it takes is held, everything else stays. */
  lemma HealthyLease(s: System, w: WorkerId, around: Conditions)
    requires Inv(s) && AllProcessable(s) && CanLease(s, w) && Healthy(around)
    requires NextToLease(s.messages, s.clock + around.elapsed, {}).Some?
    ensures var s' := LeaseCall(s, w, around);
            var id := NextToLease(s.messages, s.clock + around.elapsed, {}).value;
            && Inv(s') && AllProcessable(s') && HoldsLease(s', w, id)
            && s.messages[id].processedAt.None?
            && s'.messages == s.messages[id := s'.messages[id]] && s'.deadLetters == s.deadLetters
            && s'.clock == s.clock + around.elapsed
  {
    hide Classify, NextToLease, Inv;
    var now := s.(clock := s.clock + around.elapsed);
    OtherTablesKeepInv(s, now);
    LeaseKeepsInv(now, w, {}, true);
    var id := NextToLease(now.messages, now.clock, {}).value;
    UpdateKeepsProcessable(s, LeaseCall(s, w, around), id, LeaseRow(s.messages[id], w, now.clock));
  }

  /** Every row is as it was, or has been completed. */
  predicate OnlyCompletes(s: System, s': System) {
    && |s'.messages| == |s.messages| && s.clock <= s'.clock && s'.deadLetters == s.deadLetters
    && forall id: nat | id < |s.messages| :: s'.messages[id] == s.messages[id] || SettlementOf(s', id).Completed?
  }

  /** The end of a healthy loop with room for all: no row changed but to be completed, and all that could be leased were. */
  ghost predicate Exhausts(s: System, end: System) {
    && OnlyCompletes(s, end) && Inv(end)
    && forall id: nat | id < |s.messages| && Eligible(s.messages[id], s.clock) :: end.messages[id].processedAt.Some?
  }

  lemma TurnThenLoop(s: System, done: System, end: System, id: nat)
    requires OnlyCompletes(s, done) && Exhausts(done, end)
    requires id < |s.messages| && SettlementOf(done, id).Completed? && done.messages == s.messages[id := done.messages[id]]
    ensures Exhausts(s, end)
  {
    hide Inv;
    forall i: nat | i < |s.messages| && Eligible(s.messages[i], s.clock)
      ensures end.messages[i].processedAt.Some?
    {
      assert i != id ==> Eligible(done.messages[i], done.clock);
    }
  }

  lemma NothingToExhaust(s: System)
    requires Inv(s) && forall id: nat | id < |s.messages| :: !Eligible(s.messages[id], s.clock)
    ensures Exhausts(s, s)
  {
  }

  lemma {:induction false} HealthyLoopExhausts(s: System, w: WorkerId, limit: nat, around: nat -> Conditions, processed: nat)
    requires Inv(s) && AllProcessable(s) && CanLease(s, w) && (forall n :: Healthy(around(n)))
    requires processed + Unsettled(s.messages) <= limit
    ensures Loop(s, w, limit, around, processed).answer.Ok? && Exhausts(s, Loop(s, w, limit, around, processed).system)
    decreases limit - processed
  {
    hide Inv, AllProcessable, NextToLease, LeaseCall, ProcessCall, Classify, Exhausts, OnlyCompletes, SettlementOf;
    if processed == limit {
      forall id: nat | id < |s.messages|
        ensures !Eligible(s.messages[id], s.clock)
      {
        NothingUnsettled(s.messages, id);
      }
      NothingToExhaust(s);
    } else {
      var leased := LeaseCall(s, w, around(processed));
      var next := NextToLease(s.messages, s.clock + around(processed).elapsed, {});
      if next.None? {
        NothingIsLeft(s, w, around(processed));
      } else {
        HealthyLease(s, w, around(processed));
        var id := next.value;
        var done := ProcessCall(leased, w, around(processed));
        TurnOfLoop(s, leased, done, w, id, around(processed));
        HealthyLoopExhausts(done, w, limit, around, processed + 1);
        TurnThenLoop(s, done, Loop(done, w, limit, around, processed + 1).system, id);
      }
    }
  }

  lemma NothingIsLeft(s: System, w: WorkerId, around: Conditions)
    requires Inv(s) && CanLease(s, w) && Healthy(around) && NextToLease(s.messages, s.clock + around.elapsed, {}).None?
    ensures var s' := LeaseCall(s, w, around);
            CanLease(s', w) && !CanProcess(s', w) && Exhausts(s, s')
  {
    hide NextToLease;
    forall id: nat | id < |s.messages|
      ensures !Eligible(s.messages[id], s.clock)
    {
      assert !Candidate(s.messages, s.clock + around.elapsed, {}, id);
    }
  }

  lemma TurnOfLoop(s: System, leased: System, done: System, w: WorkerId, id: nat, around: Conditions)
    requires Inv(leased) && AllProcessable(leased) && HoldsLease(leased, w, id) && Healthy(around)
    requires id < |s.messages| && s.messages[id].processedAt.None? && s.clock <= leased.clock
    requires leased.messages == s.messages[id := leased.messages[id]] && leased.deadLetters == s.deadLetters
    requires done == ProcessCall(leased, w, around)
    ensures CanLease(done, w) && Inv(done) && AllProcessable(done) && OnlyCompletes(s, done)
    ensures Unsettled(done.messages) == Unsettled(s.messages) - 1
    ensures SettlementOf(done, id).Completed?
    ensures done.messages == s.messages[id := done.messages[id]]
  {
    hide Classify, Inv, ProcessCall;
    assert Processable(leased.automations, leased.messages[id].Work());
    HealthyTurn(leased, w, id, around);
    UpdateKeepsProcessable(leased, done, id, done.messages[id]);
    SettlingLowersUnsettled(s.messages, id, done.messages[id]);
    assert done.messages == s.messages[id := done.messages[id]];
  }

  /** From any reachable state a healthy loop with room for all unsettled rows completes every row that it can lease. */
  lemma HealthyLoopCompletesAll(s: System, w: WorkerId, limit: nat, around: nat -> Conditions, id: nat)
    requires Reachable(s) && AllProcessable(s) && CanLease(s, w) && (forall n :: Healthy(around(n)))
    requires Unsettled(s.messages) <= limit && id < |s.messages| && Eligible(s.messages[id], s.clock)
    ensures var end := Loop(s, w, limit, around, 0);
            end.answer.Ok? && id < |end.system.messages| && SettlementOf(end.system, id).Completed?
  {
    assert s.messages[id].processedAt.None?;
    hide Inv, AllProcessable, Eligible, Reachable, Loop;
    ReachableKeepsInv(s);
    HealthyLoopExhausts(s, w, limit, around, 0);
  }
}
