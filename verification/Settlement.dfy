/**
  What the fence buys, over whole runs: stale workers are harmless, settlement is
  permanent, a dead letter and `processed_at` appear together, and no unowned row
  is abandoned.
 */
module Settlement {
  import opened Prelude
  import opened Outbox
  import opened Incidents
  import opened WorkerProtocol
  import opened Fencing

  lemma {:induction false} RunKeepsInv(s: System, run: seq<Action>)
    requires Inv(s) && Valid(s, run)
    ensures Inv(Run(s, run))
    decreases |run|
  {
    if run != [] {
      StepKeepsInv(s, run[0]);
      RunKeepsInv(Step(s, run[0]), run[1..]);
    }
  }

  lemma ReachableKeepsInv(s: System)
    requires Reachable(s)
    ensures Inv(s)
  {
    var clock, run :| Valid(Initial(clock), run) && Run(Initial(clock), run) == s;
    RunKeepsInv(Initial(clock), run);
  }

  /**
    The fence itself: whoever a row is leased to has crashed, or still works on that
    very lease; and everyone else who has a copy of the row, of an older one.
   */
  lemma OwnerHoldsTheLease(s: System, id: nat, w: WorkerId)
    requires Reachable(s)
    requires id < |s.messages| && s.messages[id].leasedBy == Some(w)
    ensures w in s.workers
    ensures s.workers[w].Crashed? || (s.workers[w].Holds() && s.workers[w].m == Snapshot(id, s.messages[id]))
    ensures s.messages[id].processedAt.None?
    ensures forall v | v in s.workers && v != w && s.workers[v].Holds() && s.workers[v].m.id == id ::
              s.workers[v].m.attempts < s.messages[id].attempts
  {
    ReachableKeepsInv(s);
  }

  /** The actions by which a worker gives a message back. */
  predicate Releases(a: Action, w: WorkerId) {
    match a
    case Complete(v, _, _) => v == w
    case Retry(v, _) => v == w
    case CommitBurial(v, _) => v == w
    case _ => false
  }

  /** A worker whose message was re-leased or settled changes nothing, whatever it still does. */
  lemma StaleWorkerChangesNothing(s: System, w: WorkerId, a: Action)
    requires Reachable(s) && Enabled(s, a)
    requires Releases(a, w) && w in s.workers && s.workers[w].Holds()
    requires var m := s.workers[w].m;
             m.id < |s.messages| ==>
               s.messages[m.id].attempts != m.attempts || s.messages[m.id].processedAt.Some?
    ensures Step(s, a).messages == s.messages
    ensures Step(s, a).deadLetters == s.deadLetters
  {
    ReachableKeepsInv(s);
    var m := s.workers[w].m;
    assert s.messages[m.id].leasedBy != Some(w);
    assert s.messages[m.id := s.messages[m.id]] == s.messages;
  }

  /******* Settlement *******/

  datatype Settlement = Pending | Completed | DeadLettered

  function SettlementOf(s: System, id: nat): Settlement
    requires id < |s.messages|
  {
    if HasLetter(s.deadLetters, id) then DeadLettered
    else if s.messages[id].processedAt.Some? then Completed
    else Pending
  }

  lemma LetterMeansSettled(s: System, id: nat)
    requires Inv(s) && HasLetter(s.deadLetters, id)
    ensures id < |s.messages| && s.messages[id].processedAt.Some?
  {
    var i :| 0 <= i < |s.deadLetters| && s.deadLetters[i].messageId == id;
    assert LetterMatches(s.messages, s.deadLetters[i]);
  }

  /** What a row and its dead letter say of a settled message. */
  lemma SettlementIsConsistent(s: System, id: nat)
    requires Reachable(s) && id < |s.messages|
    ensures s.messages[id].processedAt.Some? <==> !SettlementOf(s, id).Pending?
    ensures s.messages[id].processedAt.Some? ==> s.messages[id].leasedBy.None? && s.messages[id].leaseExpiresAt.None?
    ensures SettlementOf(s, id).DeadLettered? ==>
              exists i :: 0 <= i < |s.deadLetters| && s.deadLetters[i].messageId == id
                          && s.deadLetters[i].attempts == s.messages[id].attempts == s.messages[id].maxAttempts
                          && s.messages[id].lastError == Some(s.deadLetters[i].lastError)
                          && forall j :: 0 <= j < |s.deadLetters| && s.deadLetters[j].messageId == id ==> j == i
  {
    ReachableKeepsInv(s);
    if HasLetter(s.deadLetters, id) {
      var i :| 0 <= i < |s.deadLetters| && s.deadLetters[i].messageId == id;
      assert LetterMatches(s.messages, s.deadLetters[i]);
    }
  }

  /** Rows change one at a time: by a lease of an eligible row, or by the owner giving it back. */
  lemma RowChangesOnlyByLeaseOrOwner(s: System, a: Action, id: nat)
    requires Enabled(s, a) && id < |s.messages|
    ensures |s.messages| <= |Step(s, a).messages|
    ensures Step(s, a).messages[id] != s.messages[id] ==>
              || (a.Lease? && Eligible(s.messages[id], s.clock))
              || (s.messages[id].leasedBy.Some? && Releases(a, s.messages[id].leasedBy.value))
  {
    hide Classify, FindActive, UpdateIncident, NextToLease;
  }

  lemma LettersChangeOnlyByBurial(s: System, a: Action)
    requires Enabled(s, a)
    ensures Step(s, a).deadLetters == s.deadLetters || a.CommitBurial?
  {
    hide Classify, FindActive, UpdateIncident, NextToLease;
  }

  /** The burial transaction inserts its letter exactly when it also settles the row. */
  lemma BurialIsAtomic(s: System, w: WorkerId, acknowledged: bool)
    requires Inv(s) && w in s.workers && s.workers[w].Burying?
    ensures var s' := CommitBurialStep(s, w, acknowledged);
            var id := s.workers[w].m.id;
            && id < |s.messages|
            && (s.messages[id].leasedBy == Some(w) ==>
                  && !HasLetter(s.deadLetters, id) && HasLetter(s'.deadLetters, id)
                  && s'.deadLetters == s.deadLetters + [s'.deadLetters[|s.deadLetters|]]
                  && s.messages[id].processedAt.None? && s'.messages[id].processedAt.Some?
                  && s.messages[id].attempts == s.messages[id].maxAttempts)
            && (s.messages[id].leasedBy != Some(w) ==>
                  s'.messages == s.messages && s'.deadLetters == s.deadLetters)
  {
    var s' := CommitBurialStep(s, w, acknowledged);
    var id := s.workers[w].m.id;
    assert BurialIsBacked(s.messages, s.workers, w);
    if s.messages[id].leasedBy == Some(w) {
      assert !HasLetter(s.deadLetters, id);
      assert s'.deadLetters[|s.deadLetters|].messageId == id;
    } else {
      assert s.messages[id := s.messages[id]] == s.messages;
    }
  }

  lemma RowSettlesOnlyByOwner(s: System, a: Action, id: nat)
    requires Enabled(s, a) && id < |s.messages| && s.messages[id].processedAt.None?
    ensures id < |Step(s, a).messages|
    ensures Step(s, a).messages[id].processedAt.Some? ==>
              && (a.Complete? || a.CommitBurial?)
              && s.messages[id].leasedBy == Some(a.w) && s.workers[a.w].m.id == id
              && Step(s, a).messages[id].processedAt == Some(s.clock)
  {
    hide Classify, FindActive, UpdateIncident, NextToLease;
    RowChangesOnlyByLeaseOrOwner(s, a, id);
  }

  /** How a message leaves Pending: its owner completes it, or buries it on the last attempt. */
  lemma SettlingStep(s: System, a: Action, id: nat)
    requires Reachable(s) && Enabled(s, a) && id < |s.messages|
    ensures id < |Step(s, a).messages|
    ensures SettlementOf(s, id).Pending? && SettlementOf(Step(s, a), id).Completed? ==>
              a.Complete? && s.messages[id].leasedBy == Some(a.w) && s.workers[a.w].ReadyToComplete()
              && s.workers[a.w].m == Snapshot(id, s.messages[id])
    ensures SettlementOf(s, id).Pending? && SettlementOf(Step(s, a), id).DeadLettered? ==>
              a.CommitBurial? && s.messages[id].leasedBy == Some(a.w)
              && s.messages[id].attempts == s.messages[id].maxAttempts
              && Step(s, a).messages[id].processedAt == Some(s.clock)
  {
    hide Classify, Step, Enabled, Inv;
    ReachableKeepsInv(s);
    StepKeepsInv(s, a);
    RowChangesOnlyByLeaseOrOwner(s, a, id);
    if HasLetter(s.deadLetters, id) {
      LetterMeansSettled(s, id);
    }
    if HasLetter(Step(s, a).deadLetters, id) {
      LetterMeansSettled(Step(s, a), id);
    }
    if s.messages[id].processedAt.None? {
      RowSettlesOnlyByOwner(s, a, id);
      BurialDecides(s, a, id);
      if Step(s, a).messages[id].processedAt.Some? {
        OwnerHoldsTheLease(s, id, a.w);
      }
    }
  }

  /** Of the two actions that settle a row, burial is the one that leaves a letter. */
  lemma BurialDecides(s: System, a: Action, id: nat)
    requires Inv(s) && Enabled(s, a) && id < |s.messages| && s.messages[id].processedAt.None?
    ensures id < |Step(s, a).messages|
    ensures HasLetter(Step(s, a).deadLetters, id) ==> a.CommitBurial?
    ensures a.CommitBurial? && Step(s, a).messages[id].processedAt.Some? ==>
              HasLetter(Step(s, a).deadLetters, id) && s.messages[id].attempts == s.messages[id].maxAttempts
    ensures a.Complete? ==> s.workers[a.w].ReadyToComplete()
  {
    hide Classify, NextToLease, FindActive;
    if HasLetter(s.deadLetters, id) {
      LetterMeansSettled(s, id);
    }
    LettersChangeOnlyByBurial(s, a);
    if a.CommitBurial? {
      BurialIsAtomic(s, a.w, a.acknowledged);
    }
  }

  /** Settlement is permanent: the row and its letter never change again. */
  lemma {:induction false} SettlementIsPermanent(s: System, run: seq<Action>, id: nat)
    requires Inv(s) && Valid(s, run) && id < |s.messages|
    requires s.messages[id].processedAt.Some?
    ensures id < |Run(s, run).messages| && Run(s, run).messages[id] == s.messages[id]
    ensures SettlementOf(Run(s, run), id) == SettlementOf(s, id)
    decreases |run|
  {
    if run != [] {
      var s' := Step(s, run[0]);
      StepKeepsInv(s, run[0]);
      RowChangesOnlyByLeaseOrOwner(s, run[0], id);
      SettledLettersStay(s, run[0], id);
      SettlementIsPermanent(s', run[1..], id);
    }
  }

  lemma SettledLettersStay(s: System, a: Action, id: nat)
    requires Inv(s) && Enabled(s, a) && id < |s.messages|
    requires s.messages[id].processedAt.Some?
    ensures HasLetter(Step(s, a).deadLetters, id) <==> HasLetter(s.deadLetters, id)
  {
    LettersChangeOnlyByBurial(s, a);
    if a.CommitBurial? {
      BurialIsAtomic(s, a.w, a.acknowledged);
      var s' := Step(s, a);
      if i :| 0 <= i < |s.deadLetters| && s.deadLetters[i].messageId == id {
        assert s'.deadLetters[i].messageId == id;
      }
    }
  }

  /******* No silent abandonment *******/

  /** At some time to come the row could be leased as it stands. */
  ghost predicate EventuallyEligible(m: Message, now: Instant) {
    exists later :: later >= now && Eligible(m, later)
  }

  /**
    An unsettled row can be leased in time exactly when an attempt is left; without
    one it is in the hands of the worker that took the last attempt.
   */
  lemma UnsettledRowIsLeasableOrOwned(s: System, id: nat)
    requires Reachable(s) && id < |s.messages| && s.messages[id].processedAt.None?
    ensures EventuallyEligible(s.messages[id], s.clock) <==> s.messages[id].attempts < s.messages[id].maxAttempts
    ensures s.messages[id].leasedBy.None? ==>
              forall later | later >= s.messages[id].availableAt :: Eligible(s.messages[id], later)
    ensures s.messages[id].attempts == s.messages[id].maxAttempts ==>
              && s.messages[id].leasedBy.Some?
              && var w := s.messages[id].leasedBy.value;
                 && w in s.workers
                 && (s.workers[w].Crashed?
                     || (s.workers[w].Holds() && s.workers[w].m.id == id && s.workers[w].m.Exhausted()))
  {
    ReachableKeepsInv(s);
    var m := s.messages[id];
    if m.attempts < m.maxAttempts {
      var expiry := if m.leaseExpiresAt.Some? then m.leaseExpiresAt.value + 1 else s.clock;
      assert Eligible(m, Max(s.clock, Max(m.availableAt, expiry)));
    }
  }
}
