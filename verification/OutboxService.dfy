/**
  The outbox repository and processor as they are written: methods that update
  the tables in place, and the worker's loop. Each is proved to do what its
  function in OutboxCalls says, hence to be a run of the worker protocol.
 */
module OutboxService {
  import opened Prelude
  import opened Outbox
  import opened Incidents
  import opened WorkerProtocol
  import opened OutboxCalls
  import opened OutboxEffects

  predicate OwnedRow(messages: seq<Message>, id: nat, w: WorkerId) {
    id < |messages| && messages[id].leasedBy == Some(w)
  }

  class OutboxRepository {
    var clock: Instant
    var automations: map<string, Severity>
    var messages: seq<Message>
    var deadLetters: seq<DeadLetter>
    var incidents: seq<Incident>
    var history: seq<HistoryEntry>
    ghost var commits: seq<Commit>
    ghost var workers: map<WorkerId, Worker>

    ghost function View(): System
      reads this
    {
      System(clock, automations, messages, deadLetters, incidents, history, commits, workers)
    }

    constructor (clock: Instant)
      ensures View() == Initial(clock)
    {
      this.clock := clock;
      automations, messages, deadLetters, incidents, history := map[], [], [], [], [];
      commits, workers := [], map[];
    }

    method Lease(instanceId: WorkerId, around: Conditions) returns (r: Result<Option<LeasedMessage>, ErrorDetail>)
      requires CanLease(View(), instanceId)
      modifies this`clock, this`messages, this`workers
      ensures View() == LeaseCall(old(View()), instanceId, around)
      ensures instanceId in workers
      ensures r.Err? <==> around.lease != Healthy
      ensures r.Err? ==> workers[instanceId].Crashed?
      ensures r.Ok? && r.value.Some? ==>
                && workers[instanceId] == Holding(r.value.value)
                && NextToLease(old(messages), clock, around.locked) == Some(r.value.value.id)
                && var id := r.value.value.id;
                   && OnlyRow(old(messages), messages, id)
                   && messages[id] == old(messages)[id].(attempts := old(messages)[id].attempts + 1, leasedBy := Some(instanceId),
                                                         leaseExpiresAt := Some(clock + 30_000_000))
      ensures r.Ok? && r.value.None? ==> CanLease(View(), instanceId) && NothingToLease(View(), around.locked)
    {
      clock := clock + around.elapsed;
      if around.lease == Refused {
        workers := workers[instanceId := Crashed];
        return Err(ConnectionLost);
      }
      var next := NextToLease(messages, clock, around.locked);
      if next.Some? {
        var row := messages[next.value];
        row := row.(attempts := row.attempts + 1, leasedBy := Some(instanceId), leaseExpiresAt := Some(clock + 30 * SECOND));
        messages := messages[next.value := row];
        if around.lease == Healthy {
          workers := workers[instanceId := Holding(Snapshot(next.value, row))];
          return Ok(Some(LeasedMessage(next.value, row.topic, row.aggregateId, row.payload, row.attempts, row.maxAttempts)));
        }
      }
      if around.lease == Lost {
        workers := workers[instanceId := Crashed];
        return Err(ConnectionLost);
      }
      return Ok(None);
    }

    method Complete(id: nat, instanceId: WorkerId, connection: Connection) returns (r: Result<(), ErrorDetail>)
      requires CanComplete(View(), instanceId) && workers[instanceId].m.id == id
      modifies this`messages, this`workers
      ensures View() == CompleteCall(old(View()), instanceId, connection)
      ensures connection != Refused && OwnedRow(old(messages), id, instanceId) ==>
                && OnlyRow(old(messages), messages, id)
                && messages[id] == old(messages)[id].(processedAt := Some(clock), leasedBy := None, leaseExpiresAt := None)
      ensures r == if connection == Healthy then Ok(()) else Err(ConnectionLost)
      ensures instanceId in workers
      ensures workers[instanceId] == if r.Ok? then Idle else Failing(old(workers[instanceId].m), ConnectionLost)
    {
      ghost var m := workers[instanceId].m;
      ghost var before := messages;
      if connection != Refused && id < |messages| && messages[id].leasedBy == Some(instanceId) {
        messages := messages[id := messages[id].(processedAt := Some(clock), leasedBy := None, leaseExpiresAt := None)];
      }
      assert connection != Refused && id < |before| ==>
          messages == before[id := CompleteRow(before[id], instanceId, clock)];
      if connection == Healthy {
        workers := workers[instanceId := Idle];
        return Ok(());
      }
      workers := workers[instanceId := Failing(m, ConnectionLost)];
      return Err(ConnectionLost);
    }

    /** The branch of `fail` for the last attempt: a dead letter, and the row is settled. */
    method Bury(id: nat, instanceId: WorkerId, error: ErrorDetail)
      modifies this`messages, this`deadLetters
      ensures id < |old(messages)| ==>
                && messages == old(messages)[id := BuryRow(old(messages)[id], instanceId, clock, error)]
                && deadLetters == InsertLetter(old(deadLetters), LetterFor(id, old(messages)[id], instanceId, error))
      ensures !OwnedRow(old(messages), id, instanceId) ==> messages == old(messages) && deadLetters == old(deadLetters)
      ensures OwnedRow(old(messages), id, instanceId) ==>
                && HasLetter(deadLetters, id)
                && messages == old(messages)[id := old(messages)[id].(processedAt := Some(clock), lastError := Some(error),
                                                                      leasedBy := None, leaseExpiresAt := None)]
    {
      if id < |messages| && messages[id].leasedBy == Some(instanceId) {
        var row := messages[id];
        if !HasLetter(deadLetters, id) {
          deadLetters := deadLetters + [DeadLetter(id, row.topic, row.aggregateId, row.payload, row.attempts, error)];
          assert deadLetters[|deadLetters| - 1].messageId == id;
        }
        messages := messages[id := row.(processedAt := Some(clock), lastError := Some(error),
          leasedBy := None, leaseExpiresAt := None)];
      }
    }

    /** The branch for earlier attempts: the row waits for its next one. */
    method Reschedule(id: nat, instanceId: WorkerId, delaySeconds: nat, error: ErrorDetail)
      modifies this`messages
      ensures id < |old(messages)| ==>
                messages == old(messages)[id := RetryRow(old(messages)[id], instanceId, clock, delaySeconds, error)]
      ensures !OwnedRow(old(messages), id, instanceId) ==> messages == old(messages)
      ensures OwnedRow(old(messages), id, instanceId) ==>
                messages == old(messages)[id := old(messages)[id].(
                                              availableAt := clock + delaySeconds * 1_000_000, lastError := Some(error),
                                              leasedBy := None, leaseExpiresAt := None)]
    {
      if id < |messages| && messages[id].leasedBy == Some(instanceId) {
        messages := messages[id := messages[id].(
        availableAt := clock + delaySeconds * SECOND, lastError := Some(error),
        leasedBy := None, leaseExpiresAt := None)];
      }
    }

    method Fail(message: LeasedMessage, instanceId: WorkerId, error: ErrorDetail, connection: Connection)
      returns (r: Result<(), ErrorDetail>)
      requires instanceId in workers && workers[instanceId] == Failing(message, error)
      modifies this`messages, this`deadLetters, this`workers
      ensures View() == FailCall(old(View()), instanceId, connection)
      ensures connection == Refused || !OwnedRow(old(messages), message.id, instanceId) ==>
                messages == old(messages) && deadLetters == old(deadLetters)
      ensures connection != Refused && OwnedRow(old(messages), message.id, instanceId) && 1 <= message.attempts < message.maxAttempts ==>
                && deadLetters == old(deadLetters)
                && messages == old(messages)[message.id := old(messages)[message.id].(
                                               availableAt := clock + BackoffSeconds(message.attempts) * 1_000_000,
                                               lastError := Some(error), leasedBy := None, leaseExpiresAt := None)]
      ensures connection != Refused && OwnedRow(old(messages), message.id, instanceId) && message.attempts >= message.maxAttempts ==>
                && HasLetter(deadLetters, message.id)
                && messages == old(messages)[message.id := old(messages)[message.id].(
                                               processedAt := Some(clock), lastError := Some(error),
                                               leasedBy := None, leaseExpiresAt := None)]
      ensures r.Ok? <==> connection == Healthy
      ensures instanceId in workers && workers[instanceId] == if r.Ok? then Idle else Crashed
    {
      if message.attempts >= 1 {
        DelayIsBackoff(message.attempts);
      }
      if connection != Refused {
        FailCallIs(View(), instanceId, message, error, connection);
      }
      hide Classify, BuryRow, RetryRow, InsertLetter, LetterFor, RetryDelaySeconds, BackoffSeconds, HasLetter;
      hide CommitBurialStep, BuryStep, RetryStep;
      if connection == Refused {
        workers := workers[instanceId := Crashed];
        return Err(ConnectionLost);
      }
      if message.attempts >= message.maxAttempts {
        Bury(message.id, instanceId, error);
      } else {
        Reschedule(message.id, instanceId, RetryDelaySeconds(message.attempts), error);
      }
      workers := workers[instanceId := if connection == Healthy then Idle else Crashed];
      assert workers == old(workers)[instanceId := if connection == Healthy then Idle else Crashed];
      return if connection == Healthy then Ok(()) else Err(ConnectionLost);
    }

    method CorrelateFailure(failure: Failure, ghost instanceId: WorkerId, connection: Connection)
      returns (r: Result<(), ErrorDetail>)
      requires CanCorrelate(View(), instanceId) && workers[instanceId].m.Work() == Correlate(failure)
      modifies this`incidents, this`history, this`commits, this`workers
      ensures View() == CorrelateCall(old(View()), instanceId, connection)
      ensures instanceId in workers
      ensures workers[instanceId]
           == if r.Ok? then Correlated(old(workers[instanceId].m)) else Failing(old(workers[instanceId].m), r.error)
      ensures r.Ok? <==>
              && connection == Healthy
              && (failure.key.automationId in automations || FindActive(old(incidents), failure.key).Some?)
      ensures connection != Refused && FindActive(old(incidents), failure.key).None? && failure.key.automationId in automations ==>
                && |incidents| == |old(incidents)| + 1 && incidents[..|old(incidents)|] == old(incidents)
                && history == old(history)
                     + [HistoryEntry(|old(incidents)|, Opened, ControlPlaneWorker, failure.key.errorCode, clock)]
                && var row := incidents[|old(incidents)|];
                   && row.key == failure.key && row.severity == automations[failure.key.automationId]
                   && row.status == IncidentStatus.Open && row.failureCount == 1
                   && row.firstOccurredAt == row.lastOccurredAt == failure.occurredAt
      ensures connection != Refused && FindActive(old(incidents), failure.key).Some? ==>
                var i := FindActive(old(incidents), failure.key).value;
                && |incidents| == |old(incidents)|
                && incidents[i].failureCount == old(incidents)[i].failureCount + 1
                && incidents[i].lastOccurredAt == Max(old(incidents)[i].lastOccurredAt, failure.occurredAt)
                && history == old(history)
                     + [HistoryEntry(i, FailureCorrelated, ControlPlaneWorker, failure.key.errorCode, clock)]
    {
      hide Classify;
      ghost var m := workers[instanceId].m;
      if connection == Refused {
        workers := workers[instanceId := Failing(m, ConnectionLost)];
        return Err(ConnectionLost);
      }
      var incident := FindActive(incidents, failure.key);
      if incident.None? && failure.key.automationId !in automations {
        workers := workers[instanceId := Failing(m, UnregisteredAutomation)];
        return Err(UnregisteredAutomation);
      }
      match incident {
        case None =>
          var id := |incidents|;
          incidents := incidents + [OpenIncident(failure, automations[failure.key.automationId], clock)];
          history := history + [OpenedEntry(id, failure, clock)];
          commits := commits + [Commit(m.id, m.attempts, failure, id)];
        case Some(id) =>
          var row := incidents[id];
          incidents := incidents[id := row.(failureCount := row.failureCount + 1,
            lastOccurredAt := Max(row.lastOccurredAt, failure.occurredAt), updatedAt := clock)];
          history := history + [RepeatedEntry(id, failure, clock)];
          commits := commits + [Commit(m.id, m.attempts, failure, id)];
      }
      workers := workers[instanceId := if connection == Healthy then Correlated(m) else Failing(m, ConnectionLost)];
      return if connection == Healthy then Ok(()) else Err(ConnectionLost);
    }
  }

  class OutboxProcessor {
    const repository: OutboxRepository

    constructor (repository: OutboxRepository)
      ensures this.repository == repository
    {
      this.repository := repository;
    }

    /** One message, from just after its lease; an error here has escaped from `fail`. */
    method ProcessOne(message: LeasedMessage, instanceId: WorkerId, around: Conditions) returns (r: Result<(), ErrorDetail>)
      requires instanceId in repository.workers && repository.workers[instanceId] == Holding(message)
      modifies repository
      ensures repository.View() == ProcessCall(old(repository.View()), instanceId, around)
      ensures r.Ok? <==> CanLease(repository.View(), instanceId)
    {
      hide LeaseCall, CorrelateCall, CompleteCall, FailCall, Classify;
      var outcome: Result<(), ErrorDetail>;
      match message.Work() {
        case Reject(reason) =>
          outcome := Err(reason);
          repository.workers := repository.workers[instanceId := Failing(message, reason)];
        case Correlate(failure) =>
          outcome := repository.CorrelateFailure(failure, instanceId, around.correlate);
        case Nothing =>
          outcome := Ok(());
      }
      if outcome.Ok? {
        outcome := repository.Complete(message.id, instanceId, around.complete);
      }
      r := Ok(());
      if outcome.Err? {
        r := repository.Fail(message, instanceId, outcome.error, around.fail);
      }
    }

    /**
      The worker's loop: from any reachable state it handles at most `limit`
      messages, one lease each, stops early only when nothing can be leased, and
      leaves the tables in a reachable state.
     */
    method ProcessAvailable(instanceId: WorkerId, limit: nat, around: nat -> Conditions) returns (r: Result<nat, ErrorDetail>)
      requires CanLease(repository.View(), instanceId)
      modifies repository
      ensures LoopResult(repository.View(), r) == Loop(old(repository.View()), instanceId, limit, around, 0)
      ensures LoopEndsWell(LoopResult(repository.View(), r), instanceId, limit, around, 0)
      ensures old(LoopFindsNoLock(repository.View(), instanceId, limit, around, 0) && Reachable(repository.View())) ==>
                && Reachable(repository.View())
                && LoopRuns(old(repository.View()), LoopResult(repository.View(), r), 0, limit)
    {
      hide LeaseCall, ProcessCall, LoopRuns, LoopEndsWell, Reachable, LoopFindsNoLock;
      ghost var start := repository.View();
      LoopAnswers(start, instanceId, limit, around, 0);
      if LoopFindsNoLock(start, instanceId, limit, around, 0) && Reachable(start) {
        LoopIsRun(start, instanceId, limit, around, 0);
        LoopStaysReachable(start, instanceId, limit, around);
      }
      var processed := 0;
      while processed < limit
        invariant processed <= limit
        invariant CanLease(repository.View(), instanceId)
        invariant Loop(repository.View(), instanceId, limit, around, processed) == Loop(start, instanceId, limit, around, 0)
      {
        var leased := repository.Lease(instanceId, around(processed));
        if leased.Err? {
          return Err(ConnectionLost);
        }
        if leased.value.None? {
          break;
        }
        var outcome := ProcessOne(leased.value.value, instanceId, around(processed));
        if outcome.Err? {
          return Err(ConnectionLost);
        }
        processed := processed + 1;
      }
      r := Ok(processed);
    }
  }
}
