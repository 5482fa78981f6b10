/**
  What a worker crash leaves behind. The documentation promises that the work
  stays available for recovery by lease; the code keeps that promise exactly when
  the crashed worker was not on the row's last attempt.
 */
module Recovery {
  import opened Prelude
  import opened Outbox
  import opened Incidents
  import opened WorkerProtocol
  import opened Fencing
  import opened Settlement

  /** Some run from here leases the row once more. */
  ghost predicate CanBeLeasedAgain(s: System, id: nat)
    requires id < |s.messages|
  {
    exists run :: Valid(s, run) && LeasedFurther(s, Run(s, run), id)
  }

  predicate LeasedFurther(s: System, s': System, id: nat)
    requires id < |s.messages|
  {
    id < |s'.messages| && s'.messages[id].attempts > s.messages[id].attempts
  }

  /** Instance ids never run out: one above all those in use. */
  ghost function FreshWorker(workers: set<WorkerId>): (w: WorkerId)
    ensures forall v | v in workers :: v < w
  {
    if workers == {} then
      0
    else
      var v :| v in workers;
      assert forall u | u in workers :: u == v || u in workers - {v};
      Max(v + 1, FreshWorker(workers - {v}))
  }

  function Below(n: nat): (ids: set<nat>)
    ensures forall id: nat :: id in ids <==> id < n
  {
    if n == 0 then {} else Below(n - 1) + {n - 1}
  }

  lemma {:induction false} RunOfThree(s: System, a: Action, b: Action, c: Action)
    requires Enabled(s, a) && Enabled(Step(s, a), b) && Enabled(Step(Step(s, a), b), c)
    ensures Valid(s, [a, b, c]) && Run(s, [a, b, c]) == Step(Step(Step(s, a), b), c)
  {
    var s1 := Step(s, a);
    var s2 := Step(s1, b);
    var s3 := Step(s2, c);
    assert [a, b, c][1..] == [b, c] && [b, c][1..] == [c] && [c][1..] == [];
    assert Valid(s3, []) && Run(s3, []) == s3;
    assert Valid(s2, [c]) && Run(s2, [c]) == s3;
    assert Valid(s1, [b, c]) && Run(s1, [b, c]) == s3;
  }

  /** The next lease takes row `id` when every other row is locked and `id` is eligible. */
  lemma LeaseTakes(messages: seq<Message>, now: Instant, locked: set<nat>, id: nat)
    requires Candidate(messages, now, locked, id)
    requires forall other: nat | other < |messages| && other != id :: other in locked
    ensures NextToLease(messages, now, locked) == Some(id)
  {
    assert !NextToLease(messages, now, locked).None?;
  }

  /** An attempt left is enough: wait for lease and backoff, and a fresh worker takes the row. */
  lemma AttemptsLeftSuffice(s: System, id: nat)
    requires Inv(s) && id < |s.messages|
    requires s.messages[id].processedAt.None? && s.messages[id].attempts < s.messages[id].maxAttempts
    ensures CanBeLeasedAgain(s, id)
  {
    hide Classify, NextToLease, Inv;
    var m := s.messages[id];
    var w := FreshWorker(s.workers.Keys);
    assert w !in s.workers;
    var later := Max(s.clock, Max(m.availableAt, if m.leaseExpiresAt.Some? then m.leaseExpiresAt.value + 1 else s.clock));
    var others := Below(|s.messages|) - {id};
    var tick, start, lease := Tick(later), StartWorker(w), Action.Lease(w, others, true);
    var waiting := Step(Step(s, tick), start);
    assert waiting.messages == s.messages && waiting.clock == later;
    assert Eligible(m, later);
    LeaseTakes(waiting.messages, waiting.clock, others, id);
    RunOfThree(s, tick, start, lease);
    assert LeasedFurther(s, Run(s, [tick, start, lease]), id);
  }

  /** Without an attempt left, a crashed owner leaves its row as it is for ever. */
  lemma {:induction false} StrandedForever(s: System, run: seq<Action>, id: nat)
    requires Inv(s) && Valid(s, run) && id < |s.messages|
    requires s.messages[id].leasedBy.Some?
    requires s.messages[id].leasedBy.value in s.workers && s.workers[s.messages[id].leasedBy.value].Crashed?
    requires s.messages[id].attempts == s.messages[id].maxAttempts
    ensures id < |Run(s, run).messages| && Run(s, run).messages[id] == s.messages[id]
    decreases |run|
  {
    if run != [] {
      var w := s.messages[id].leasedBy.value;
      RowChangesOnlyByLeaseOrOwner(s, run[0], id);
      assert !Releases(run[0], w);
      StepKeepsInv(s, run[0]);
      CrashIsForGood(s, run[0], w);
      StrandedForever(Step(s, run[0]), run[1..], id);
    }
  }

  lemma CrashIsForGood(s: System, a: Action, w: WorkerId)
    requires Enabled(s, a) && w in s.workers && s.workers[w].Crashed?
    ensures w in Step(s, a).workers && Step(s, a).workers[w].Crashed?
  {
    hide Classify, NextToLease, FindActive, UpdateIncident;
  }

  /**
    After the worker that owns a row crashes, the row can be leased again if and
    only if the lease it held was not the last one; otherwise the row never settles.
   */
  lemma CrashRecovery(s: System, w: WorkerId, id: nat)
    requires Reachable(s) && Enabled(s, Crash(w))
    requires id < |s.messages| && s.messages[id].leasedBy == Some(w)
    ensures CanBeLeasedAgain(Step(s, Crash(w)), id) <==> s.messages[id].attempts < s.messages[id].maxAttempts
    ensures s.messages[id].attempts == s.messages[id].maxAttempts ==>
              forall run | Valid(Step(s, Crash(w)), run) ::
                var s' := Run(Step(s, Crash(w)), run);
                id < |s'.messages| && s'.messages[id] == s.messages[id] && s'.messages[id].processedAt.None?
  {
    ReachableKeepsInv(s);
    StepKeepsInv(s, Crash(w));
    var s1 := Step(s, Crash(w));
    if s.messages[id].attempts < s.messages[id].maxAttempts {
      AttemptsLeftSuffice(s1, id);
    } else {
      forall run | Valid(s1, run)
        ensures id < |Run(s1, run).messages| && Run(s1, run).messages[id] == s.messages[id]
      {
        StrandedForever(s1, run, id);
      }
    }
  }

  /******* The promise does fail *******/

  /** The row after n leases, each lost to a crash before the next could begin. */
  function CrashedLeases(row: Message, n: nat): Message {
    if n == 0 then row else LeaseRow(CrashedLeases(row, n - 1), n - 1, (n - 1) * 31 * SECOND)
  }

  /**
    A message of any attempt budget can be stranded: one row, and as many crashes
    as it has attempts. The default budget of five is an instance.
   */
  lemma {:induction false} StrandingRun(payload: Payload, maxAttempts: nat, n: nat) returns (s: System)
    requires 1 <= maxAttempts <= 20 && n <= maxAttempts
    ensures Reachable(s)
    ensures |s.messages| == 1 && s.messages[0] == CrashedLeases(NewMessage(TelemetryAccepted, "", payload, maxAttempts, 0), n)
    ensures s.messages[0].attempts == n && s.messages[0].maxAttempts == maxAttempts
    ensures s.messages[0].processedAt.None? && s.messages[0].availableAt == 0
    ensures s.clock == if n == 0 then 0 else (n - 1) * 31 * SECOND
    ensures forall w | w in s.workers :: w < n && s.workers[w].Crashed?
    ensures n == 0 <==> s.messages[0].leasedBy.None?
    ensures n > 0 ==> s.messages[0].leasedBy == Some(n - 1) && n - 1 in s.workers
    ensures n > 0 ==> s.messages[0].leaseExpiresAt == Some(s.clock + LEASE_DURATION)
    ensures n == 0 ==> s.messages[0].leaseExpiresAt.None?
  {
    hide Classify, Reachable, NextToLease;
    if n == 0 {
      var enqueue := Enqueue(TelemetryAccepted, "", payload, maxAttempts);
      InitialIsReachable(0);
      ReachableStep(Initial(0), enqueue);
      s := Step(Initial(0), enqueue);
    } else {
      var before := StrandingRun(payload, maxAttempts, n - 1);
      var tick, start, lease := Tick((n - 1) * 31 * SECOND), StartWorker(n - 1), Action.Lease(n - 1, {}, false);
      var waiting := Step(Step(before, tick), start);
      LeaseTakes(waiting.messages, waiting.clock, {}, 0);
      ReachableStep(before, tick);
      ReachableStep(Step(before, tick), start);
      ReachableStep(waiting, lease);
      s := Step(waiting, lease);
    }
  }

  /** Neither leased again nor settled in any run from here. */
  ghost predicate Stranded(s: System, id: nat) {
    && id < |s.messages| && s.messages[id].processedAt.None?
    && !CanBeLeasedAgain(s, id)
    && forall run | Valid(s, run) :: id < |Run(s, run).messages| && SettlementOf(Run(s, run), id).Pending?
  }

  /** A message of the default budget can be stranded, whatever its payload. */
  lemma StrandedMessageIsReachable(payload: Payload)
    ensures exists s :: Reachable(s) && |s.messages| == 1 && Stranded(s, 0)
                        && s.messages[0].maxAttempts == DEFAULT_MAX_ATTEMPTS && s.messages[0].payload == payload
  {
    var s := StrandingRun(payload, DEFAULT_MAX_ATTEMPTS, DEFAULT_MAX_ATTEMPTS);
    CrashedLeasesKeepPayload(NewMessage(TelemetryAccepted, "", payload, DEFAULT_MAX_ATTEMPTS, 0), DEFAULT_MAX_ATTEMPTS);
    ReachableKeepsInv(s);
    forall run | Valid(s, run)
      ensures 0 < |Run(s, run).messages| && Run(s, run).messages[0] == s.messages[0]
      ensures SettlementOf(Run(s, run), 0).Pending?
    {
      StrandedForever(s, run, 0);
      ReachableRun(s, run);
      SettlementIsConsistent(Run(s, run), 0);
    }
    assert Stranded(s, 0);
  }

  lemma CrashedLeasesKeepPayload(row: Message, n: nat)
    ensures CrashedLeases(row, n).payload == row.payload
  {
  }
}
