/**
  The failure ledger: committed correlateFailure calls against the messages that
  asked for them, and against the incidents and histories they ended up in.
 */
module FailureLedger {
  import opened Outbox
  import opened WorkerProtocol
  import opened Fencing
  import opened Settlement

  /******* Commits against messages *******/

  predicate IsCommitOf(c: Commit, id: nat, attempt: nat) {
    c.messageId == id && c.attempt == attempt
  }

  predicate HasCommit(commits: seq<Commit>, id: nat, attempt: nat) {
    exists i :: 0 <= i < |commits| && IsCommitOf(commits[i], id, attempt)
  }

  predicate CommitMatches(messages: seq<Message>, c: Commit) {
    && c.messageId < |messages|
    && 1 <= c.attempt <= messages[c.messageId].attempts
    && messages[c.messageId].Work() == Correlate(c.failure)
  }

  /** Where a worker stands agrees with what it has committed for its lease. */
  predicate PlaceMatches(worker: Worker, commits: seq<Commit>) {
    && (worker.Reading? || worker.Correlated? ==> worker.m.Work().Correlate?)
    && (worker.BeforeCorrelation() ==> !HasCommit(commits, worker.m.id, worker.m.attempts))
    && (worker.Correlated? ==> HasCommit(commits, worker.m.id, worker.m.attempts))
  }

  /** A message that settled without a dead letter had nothing to correlate, or was correlated. */
  ghost predicate OutcomeMatches(messages: seq<Message>, letters: seq<DeadLetter>, commits: seq<Commit>, id: nat)
    requires id < |messages|
  {
    messages[id].processedAt.Some? && !HasLetter(letters, id) ==>
      match messages[id].Work()
      case Reject(_) => false
      case Nothing => true
      case Correlate(_) => exists attempt: nat :: HasCommit(commits, id, attempt)
  }

  ghost predicate CommitsInv(messages: seq<Message>, letters: seq<DeadLetter>, workers: map<WorkerId, Worker>, commits: seq<Commit>) {
    && (forall i | 0 <= i < |commits| :: CommitMatches(messages, commits[i]))
    && (forall i, j | 0 <= i < j < |commits| :: !IsCommitOf(commits[i], commits[j].messageId, commits[j].attempt))
    && (forall w | w in workers :: PlaceMatches(workers[w], commits))
    && (forall id: nat | id < |messages| :: OutcomeMatches(messages, letters, commits, id))
  }

  /** A worker moves without committing a correlation or settling a row. */
  lemma MoveKeepsCommits(s: System, w: WorkerId, worker: Worker)
    requires CommitsInv(s.messages, s.deadLetters, s.workers, s.commits)
    requires PlaceMatches(worker, s.commits)
    ensures CommitsInv(s.messages, s.deadLetters, s.workers[w := worker], s.commits)
  {
  }

  lemma EnqueueKeepsCommits(s: System, m: Message)
    requires CommitsInv(s.messages, s.deadLetters, s.workers, s.commits)
    requires m.processedAt.None?
    ensures CommitsInv(s.messages + [m], s.deadLetters, s.workers, s.commits)
  {
    forall id: nat | id < |s.messages + [m]|
      ensures OutcomeMatches(s.messages + [m], s.deadLetters, s.commits, id)
    {
      if id < |s.messages| {
        assert OutcomeMatches(s.messages, s.deadLetters, s.commits, id);
      }
    }
  }

  lemma LeaseKeepsCommits(s: System, w: WorkerId, locked: set<nat>, delivered: bool)
    requires Inv(s) && CommitsInv(s.messages, s.deadLetters, s.workers, s.commits)
    requires w in s.workers && s.workers[w].Idle?
    ensures var s' := LeaseStep(s, w, locked, delivered);
            CommitsInv(s'.messages, s'.deadLetters, s'.workers, s'.commits)
  {
    hide Classify;
    var s' := LeaseStep(s, w, locked, delivered);
    forall id: nat | id < |s'.messages|
      ensures OutcomeMatches(s'.messages, s'.deadLetters, s'.commits, id)
    {
      assert OutcomeMatches(s.messages, s.deadLetters, s.commits, id);
    }
  }

  /** A row that is not settled by the step keeps its outcome. */
  lemma ReleaseKeepsCommits(s: System, s': System, w: WorkerId, id: nat)
    requires CommitsInv(s.messages, s.deadLetters, s.workers, s.commits)
    requires id < |s.messages| == |s'.messages| && s'.messages == s.messages[id := s'.messages[id]]
    requires s'.messages[id].attempts == s.messages[id].attempts
    requires s'.messages[id].Work() == s.messages[id].Work()
    requires w in s'.workers && s'.workers == s.workers[w := s'.workers[w]] && PlaceMatches(s'.workers[w], s.commits)
    requires s'.commits == s.commits
    requires forall i | 0 <= i < |s.messages| && HasLetter(s.deadLetters, i) :: HasLetter(s'.deadLetters, i)
    requires OutcomeMatches(s'.messages, s'.deadLetters, s'.commits, id)
    ensures CommitsInv(s'.messages, s'.deadLetters, s'.workers, s'.commits)
  {
    forall i: nat | i < |s'.messages|
      ensures OutcomeMatches(s'.messages, s'.deadLetters, s'.commits, i)
    {
      assert OutcomeMatches(s.messages, s.deadLetters, s.commits, i);
    }
  }

  lemma CompleteKeepsCommits(s: System, w: WorkerId, committed: bool, acknowledged: bool)
    requires Inv(s) && CommitsInv(s.messages, s.deadLetters, s.workers, s.commits)
    requires w in s.workers && s.workers[w].ReadyToComplete() && (acknowledged ==> committed)
    ensures var s' := CompleteStep(s, w, committed, acknowledged);
            CommitsInv(s'.messages, s'.deadLetters, s'.workers, s'.commits)
  {
    hide Classify;
    var s' := CompleteStep(s, w, committed, acknowledged);
    var id := s.workers[w].m.id;
    assert Tracks(s.messages, s.workers[w].m);
    assert OutcomeMatches(s.messages, s.deadLetters, s.commits, id);
    assert PlaceMatches(s.workers[w], s.commits);
    assert s.messages[id := s.messages[id]] == s.messages;
    ReleaseKeepsCommits(s, s', w, id);
  }

  lemma RetryKeepsCommits(s: System, w: WorkerId, acknowledged: bool)
    requires Inv(s) && CommitsInv(s.messages, s.deadLetters, s.workers, s.commits)
    requires w in s.workers && s.workers[w].Failing? && !s.workers[w].m.Exhausted()
    ensures var s' := RetryStep(s, w, acknowledged);
            CommitsInv(s'.messages, s'.deadLetters, s'.workers, s'.commits)
  {
    var s' := RetryStep(s, w, acknowledged);
    var id := s.workers[w].m.id;
    assert Tracks(s.messages, s.workers[w].m);
    assert OutcomeMatches(s.messages, s.deadLetters, s.commits, id);
    ReleaseKeepsCommits(s, s', w, id);
  }

  lemma BurialKeepsCommits(s: System, w: WorkerId, acknowledged: bool)
    requires Inv(s) && CommitsInv(s.messages, s.deadLetters, s.workers, s.commits)
    requires w in s.workers && s.workers[w].Burying?
    ensures var s' := CommitBurialStep(s, w, acknowledged);
            CommitsInv(s'.messages, s'.deadLetters, s'.workers, s'.commits)
  {
    var s' := CommitBurialStep(s, w, acknowledged);
    var id := s.workers[w].m.id;
    BurialIsAtomic(s, w, acknowledged);
    assert OutcomeMatches(s.messages, s.deadLetters, s.commits, id);
    forall i | 0 <= i < |s.messages| && HasLetter(s.deadLetters, i)
      ensures HasLetter(s'.deadLetters, i)
    {
      var k :| 0 <= k < |s.deadLetters| && s.deadLetters[k].messageId == i;
      assert s'.deadLetters[k].messageId == i;
    }
    ReleaseKeepsCommits(s, s', w, id);
  }

  /** A correlation that commits is the first and only one of its lease. */
  lemma CommitKeepsCommits(s: System, w: WorkerId, worker: Worker, c: Commit)
    requires Inv(s) && CommitsInv(s.messages, s.deadLetters, s.workers, s.commits)
    requires w in s.workers && s.workers[w].Reading?
    requires var m := s.workers[w].m;
             && IsCommitOf(c, m.id, m.attempts) && m.Work() == Correlate(c.failure)
             && (worker == Correlated(m) || worker == Failing(m, ConnectionLost))
    ensures CommitsInv(s.messages, s.deadLetters, s.workers[w := worker], s.commits + [c])
  {
    var m := s.workers[w].m;
    var commits := s.commits + [c];
    assert Tracks(s.messages, m);
    assert PlaceMatches(s.workers[w], s.commits);
    forall id: nat, attempt: nat
      ensures HasCommit(commits, id, attempt) <==> HasCommit(s.commits, id, attempt) || IsCommitOf(c, id, attempt)
    {
      if i :| 0 <= i < |s.commits| && IsCommitOf(s.commits[i], id, attempt) {
        assert IsCommitOf(commits[i], id, attempt);
      }
      if IsCommitOf(c, id, attempt) {
        assert IsCommitOf(commits[|s.commits|], id, attempt);
      }
    }
    forall id: nat | id < |s.messages|
      ensures OutcomeMatches(s.messages, s.deadLetters, commits, id)
    {
      assert OutcomeMatches(s.messages, s.deadLetters, s.commits, id);
    }
    var workers := s.workers[w := worker];
    forall v | v in workers
      ensures PlaceMatches(workers[v], commits)
    {
      if v != w {
        assert PlaceMatches(s.workers[v], s.commits);
      }
    }
  }

  lemma WriteKeepsCommits(s: System, w: WorkerId, acknowledged: bool)
    requires Inv(s) && CommitsInv(s.messages, s.deadLetters, s.workers, s.commits)
    requires w in s.workers && s.workers[w].Reading?
    ensures var s' := WriteStep(s, w, acknowledged);
            CommitsInv(s'.messages, s'.deadLetters, s'.workers, s'.commits)
  {
    var s' := WriteStep(s, w, acknowledged);
    if s'.commits != s.commits {
      CommitKeepsCommits(s, w, s'.workers[w], s'.commits[|s.commits|]);
    } else if s' != s {
      MoveKeepsCommits(s, w, s'.workers[w]);
    }
  }

  lemma {:induction false} StepKeepsCommits(s: System, a: Action)
    requires Inv(s) && CommitsInv(s.messages, s.deadLetters, s.workers, s.commits)
    requires Enabled(s, a)
    ensures var s' := Step(s, a);
            CommitsInv(s'.messages, s'.deadLetters, s'.workers, s'.commits)
  {
    match a
    case Tick(_) =>
    case Synchronize(_, _) =>
    case Operate(_, _, _) =>
    case StartWorker(w) => MoveKeepsCommits(s, w, Idle);
    case Enqueue(topic, aggregateId, payload, maxAttempts) =>
      EnqueueKeepsCommits(s, NewMessage(topic, aggregateId, payload, maxAttempts, s.clock));
    case Lease(w, locked, delivered) => LeaseKeepsCommits(s, w, locked, delivered);
    case RejectMessage(w) => MoveKeepsCommits(s, w, Step(s, a).workers[w]);
    case SelectIncident(w) =>
      assert PlaceMatches(s.workers[w], s.commits);
      MoveKeepsCommits(s, w, Step(s, a).workers[w]);
    case AbortCorrelation(w, error) => MoveKeepsCommits(s, w, Failing(s.workers[w].m, error));
    case Crash(w) => MoveKeepsCommits(s, w, Crashed);
    case Bury(w) => MoveKeepsCommits(s, w, BuryStep(s, w).workers[w]);
    case WriteIncident(w, acknowledged) => WriteKeepsCommits(s, w, acknowledged);
    case Complete(w, committed, acknowledged) => CompleteKeepsCommits(s, w, committed, acknowledged);
    case Retry(w, acknowledged) => RetryKeepsCommits(s, w, acknowledged);
    case CommitBurial(w, acknowledged) => BurialKeepsCommits(s, w, acknowledged);
  }

  lemma {:induction false} RunKeepsCommits(s: System, run: seq<Action>)
    requires Inv(s) && CommitsInv(s.messages, s.deadLetters, s.workers, s.commits)
    requires Valid(s, run)
    ensures var s' := Run(s, run);
            CommitsInv(s'.messages, s'.deadLetters, s'.workers, s'.commits)
    decreases |run|
  {
    if run != [] {
      StepKeepsInv(s, run[0]);
      StepKeepsCommits(s, run[0]);
      RunKeepsCommits(Step(s, run[0]), run[1..]);
    }
  }

  lemma ReachableKeepsCommits(s: System)
    requires Reachable(s)
    ensures CommitsInv(s.messages, s.deadLetters, s.workers, s.commits)
  {
    var clock, run :| Valid(Initial(clock), run) && Run(Initial(clock), run) == s;
    RunKeepsCommits(Initial(clock), run);
  }

  /******* Counting commits *******/

  /** The attempts at which a message was correlated. */
  function AttemptsCommitted(commits: seq<Commit>, id: nat): seq<nat> {
    if commits == [] then []
    else
      var last := commits[|commits| - 1];
      var before := AttemptsCommitted(commits[..|commits| - 1], id);
      if last.messageId == id then before + [last.attempt] else before
  }

  lemma {:induction false} AttemptsCommittedAre(commits: seq<Commit>, id: nat)
    ensures forall attempt :: attempt in AttemptsCommitted(commits, id) <==> HasCommit(commits, id, attempt)
  {
    if commits != [] {
      var n := |commits| - 1;
      AttemptsCommittedAre(commits[..n], id);
      forall attempt
        ensures HasCommit(commits, id, attempt) <==> HasCommit(commits[..n], id, attempt) || IsCommitOf(commits[n], id, attempt)
      {
        if i :| 0 <= i < n && IsCommitOf(commits[..n][i], id, attempt) {
          assert IsCommitOf(commits[i], id, attempt);
        }
        if i :| 0 <= i < |commits| && IsCommitOf(commits[i], id, attempt) {
          assert i < n ==> IsCommitOf(commits[..n][i], id, attempt);
        }
      }
    }
  }

  predicate AllDiffer(xs: seq<nat>) {
    forall i, j | 0 <= i < j < |xs| :: xs[i] != xs[j]
  }

  lemma {:induction false} AttemptsCommittedDiffer(commits: seq<Commit>, id: nat)
    requires forall i, j | 0 <= i < j < |commits| :: !IsCommitOf(commits[i], commits[j].messageId, commits[j].attempt)
    ensures AllDiffer(AttemptsCommitted(commits, id))
  {
    if commits != [] {
      var n := |commits| - 1;
      AttemptsCommittedDiffer(commits[..n], id);
      AttemptsCommittedAre(commits[..n], id);
      var before := AttemptsCommitted(commits[..n], id);
      assert commits[n].messageId == id ==> commits[n].attempt !in before;
      assert forall i | 0 <= i < |before| :: before[i] in before;
    }
  }

  /** Distinct numbers between 1 and n: there are at most n of them. */
  lemma {:induction false} Pigeonhole(xs: seq<nat>, n: nat)
    requires forall x | x in xs :: 1 <= x <= n
    requires AllDiffer(xs)
    ensures |xs| <= n
  {
    assert xs != [] ==> xs[0] in xs;
    if n > 0 {
      if i :| 0 <= i < |xs| && xs[i] == n {
        var rest := xs[..i] + xs[i + 1..];
        forall x | x in rest
          ensures 1 <= x <= n - 1
        {
          var k :| 0 <= k < |rest| && rest[k] == x;
          var j := if k < i then k else k + 1;
          assert x == xs[j] && xs[j] in xs;
          assert j < i ==> xs[j] != xs[i];
        }
        Pigeonhole(rest, n - 1);
      } else {
        Pigeonhole(xs, n - 1);
      }
    }
  }

  /** Each lease of a message commits at most one correlation; settling without a letter takes one. */
  lemma MessageIsCorrelatedAtMostOncePerAttempt(s: System, id: nat)
    requires Reachable(s) && id < |s.messages|
    ensures |AttemptsCommitted(s.commits, id)| <= s.messages[id].attempts <= s.messages[id].maxAttempts
    ensures AttemptsCommitted(s.commits, id) != [] ==> s.messages[id].Work().Correlate?
    ensures SettlementOf(s, id).Completed? ==> !s.messages[id].Work().Reject?
    ensures SettlementOf(s, id).Completed? && s.messages[id].Work().Correlate? ==>
              |AttemptsCommitted(s.commits, id)| >= 1
  {
    hide Classify, Reachable, AttemptsCommitted;
    ReachableKeepsInv(s);
    ReachableKeepsCommits(s);
    AttemptsCommittedAre(s.commits, id);
    AttemptsCommittedDiffer(s.commits, id);
    var attempts := AttemptsCommitted(s.commits, id);
    forall attempt | attempt in attempts
      ensures 1 <= attempt <= s.messages[id].attempts && s.messages[id].Work().Correlate?
    {
      var i :| 0 <= i < |s.commits| && IsCommitOf(s.commits[i], id, attempt);
      assert CommitMatches(s.messages, s.commits[i]);
    }
    Pigeonhole(attempts, s.messages[id].attempts);
    if attempts != [] {
      assert attempts[0] in attempts;
    }
    assert OutcomeMatches(s.messages, s.deadLetters, s.commits, id);
  }
}
