/**
  What each statement on the outbox leaves in the tables, as anyone sees it who
  looks there next: when the row can be leased, which columns changed, and that no
  other row did.
 */
module OutboxEffects {
  import opened Prelude
  import opened Outbox
  import opened WorkerProtocol
  import opened Fencing
  import opened Settlement

  /** Only this row may differ. */
  predicate OnlyRow(messages: seq<Message>, messages': seq<Message>, id: nat) {
    |messages'| == |messages| && forall i | 0 <= i < |messages| && i != id :: messages'[i] == messages[i]
  }

  /** The seconds to wait after the failure of attempts 1, 2, and so on; from the seventh on it is a minute. */
  function BackoffSeconds(attempt: nat): nat
    requires attempt >= 1
  {
    if attempt >= 7 then 60 else [1, 2, 4, 8, 16, 32][attempt - 1]
  }

  lemma DelayIsBackoff(attempt: nat)
    requires attempt >= 1
    ensures RetryDelaySeconds(attempt) == BackoffSeconds(attempt)
  {
    assert Pow2(3) == 8 && Pow2(4) == 16 && Pow2(5) == 32;
    assert Pow2(6) == 64;
    if attempt >= 7 {
      Pow2Grows(6, attempt - 1);
    }
  }

  /** The worker owns the row of its message. */
  predicate OwnsItsRow(s: System, w: WorkerId) {
    && w in s.workers && s.workers[w].Holds() && s.workers[w].m.id < |s.messages|
    && s.messages[s.workers[w].m.id].leasedBy == Some(w)
  }

  /** A failed row can be leased again from the end of its backoff on, and not before. */
  lemma RetryIsLeasableExactly(s: System, w: WorkerId, acknowledged: bool, later: Instant)
    requires Reachable(s) && Enabled(s, Retry(w, acknowledged)) && OwnsItsRow(s, w)
    ensures var id := s.workers[w].m.id;
            var s' := Step(s, Retry(w, acknowledged));
            && OnlyRow(s.messages, s'.messages, id) && s'.deadLetters == s.deadLetters
            && s.messages[id].attempts >= 1
            && (Eligible(s'.messages[id], later) <==> later >= s.clock + BackoffSeconds(s.messages[id].attempts) * 1_000_000)
            && s'.messages[id] == s.messages[id].(availableAt := s'.messages[id].availableAt,
                                                  lastError := Some(s.workers[w].error),
                                                  leasedBy := None, leaseExpiresAt := None)
  {
    ReachableKeepsInv(s);
    var id := s.workers[w].m.id;
    assert Tracks(s.messages, s.workers[w].m) && RowIsSound(s.messages[id]);
    assert OwnedBy(s.messages, s.workers, id, w);
    DelayIsBackoff(s.messages[id].attempts);
    hide Classify, Inv, Pow2, RetryDelaySeconds;
  }

  /**
    A lease takes an attempt and keeps everyone off for exactly thirty seconds; after
    that the row can be leased if an attempt is left. Whoever hears of it holds a copy
    of the row as it now is.
   */
  lemma LeaseHoldsForThirtySeconds(s: System, w: WorkerId, locked: set<nat>, delivered: bool, later: Instant)
    requires Enabled(s, Action.Lease(w, locked, delivered)) && NextToLease(s.messages, s.clock, locked).Some?
    ensures var id := NextToLease(s.messages, s.clock, locked).value;
            var s' := Step(s, Action.Lease(w, locked, delivered));
            && id < |s.messages| && OnlyRow(s.messages, s'.messages, id) && s'.deadLetters == s.deadLetters
            && (later >= s.clock ==>
                  (Eligible(s'.messages[id], later) <==>
                     s.messages[id].attempts + 1 < s.messages[id].maxAttempts && later > s.clock + 30_000_000))
            && s'.messages[id] == s.messages[id].(attempts := s.messages[id].attempts + 1, leasedBy := Some(w),
                                                  leaseExpiresAt := s'.messages[id].leaseExpiresAt)
            && s'.workers[w] == if !delivered then Crashed else
                 Holding(LeasedMessage(id, s.messages[id].topic, s.messages[id].aggregateId, s.messages[id].payload,
                                       s.messages[id].attempts + 1, s.messages[id].maxAttempts))
  {
    hide Classify, NextToLease;
  }

  /** A completion that commits stamps the row and lets go of it; nobody can lease it again. */
  lemma CompletionSettles(s: System, w: WorkerId, acknowledged: bool, later: Instant)
    requires Enabled(s, Complete(w, true, acknowledged)) && OwnsItsRow(s, w)
    ensures var id := s.workers[w].m.id;
            var s' := Step(s, Complete(w, true, acknowledged));
            && OnlyRow(s.messages, s'.messages, id) && s'.deadLetters == s.deadLetters
            && !Eligible(s'.messages[id], later)
            && s'.messages[id] == s.messages[id].(processedAt := Some(s.clock), leasedBy := None, leaseExpiresAt := None)
  {
    hide Classify;
  }

  /** A burial leaves a letter with the row's contents and the worker's error, and the same error on the settled row. */
  lemma BurialLeavesLetter(s: System, w: WorkerId, acknowledged: bool)
    requires Reachable(s) && Enabled(s, CommitBurial(w, acknowledged)) && OwnsItsRow(s, w)
    ensures var id := s.workers[w].m.id;
            var row := s.messages[id];
            var s' := Step(s, CommitBurial(w, acknowledged));
            && OnlyRow(s.messages, s'.messages, id)
            && s'.deadLetters
               == s.deadLetters
                  + [DeadLetter(id, row.topic, row.aggregateId, row.payload, row.maxAttempts, s.workers[w].error)]
            && s'.messages[id] == row.(processedAt := Some(s.clock), lastError := Some(s.workers[w].error),
                                       leasedBy := None, leaseExpiresAt := None)
  {
    ReachableKeepsInv(s);
    var id := s.workers[w].m.id;
    assert BurialIsBacked(s.messages, s.workers, w);
    BurialIsAtomic(s, w, acknowledged);
    hide Classify, Inv;
  }
}
