/**
  The fence that `leased_by` alone provides. No statement of the repository states
  it: it is an invariant over every interleaving of the worker protocol.
 */
module Fencing {
  import opened Prelude
  import opened Outbox
  import Incidents
  import opened WorkerProtocol

  /******* The invariant *******/

  predicate RowIsSound(m: Message) {
    && 1 <= m.maxAttempts <= 20
    && m.attempts <= m.maxAttempts
    && (m.leasedBy.Some? <==> m.leaseExpiresAt.Some?)
    && (m.leasedBy.Some? ==> m.attempts >= 1)
    && (m.processedAt.Some? ==> m.leasedBy.None?)
    && (m.processedAt.None? && m.leasedBy.None? ==> m.attempts < m.maxAttempts)
  }

  predicate RowsAreSound(messages: seq<Message>) {
    forall id | 0 <= id < |messages| :: RowIsSound(messages[id])
  }

  /** A worker's copy never runs ahead of the row, and differs from it in `attempts` only. */
  predicate Tracks(messages: seq<Message>, m: LeasedMessage) {
    && m.id < |messages|
    && 1 <= m.attempts <= messages[m.id].attempts
    && m == Snapshot(m.id, messages[m.id]).(attempts := m.attempts)
  }

  predicate CopiesTrack(messages: seq<Message>, workers: map<WorkerId, Worker>) {
    forall w | w in workers && workers[w].Holds() :: Tracks(messages, workers[w].m)
  }

  /** `w` took the current lease of row `id`, and has crashed or is still at work on it. */
  predicate OwnedBy(messages: seq<Message>, workers: map<WorkerId, Worker>, id: nat, w: WorkerId)
    requires id < |messages|
  {
    && w in workers
    && (workers[w].Holds() || workers[w].Crashed?)
    && (workers[w].Holds() ==> workers[w].m.id == id && workers[w].m.attempts == messages[id].attempts)
  }

  predicate Fenced(messages: seq<Message>, workers: map<WorkerId, Worker>) {
    forall id | 0 <= id < |messages| && messages[id].leasedBy.Some? ::
      OwnedBy(messages, workers, id, messages[id].leasedBy.value)
  }

  /** No two workers hold copies of one lease. */
  predicate LeasesAreDistinct(workers: map<WorkerId, Worker>) {
    forall v, w | v in workers && w in workers && v != w && workers[v].Holds() && workers[w].Holds() ::
      workers[v].m.id == workers[w].m.id ==> workers[v].m.attempts != workers[w].m.attempts
  }

  /** Every copy of an owned row but its owner's is of an older lease, even when the owner has crashed. */
  predicate OthersAreOlder(messages: seq<Message>, workers: map<WorkerId, Worker>) {
    forall v | v in workers && workers[v].Holds() && workers[v].m.id < |messages| ::
      var m := messages[workers[v].m.id];
      m.leasedBy.Some? && m.leasedBy != Some(v) ==> workers[v].m.attempts < m.attempts
  }

  predicate LetterMatches(messages: seq<Message>, letter: DeadLetter) {
    && letter.messageId < |messages|
    && var m := messages[letter.messageId];
       && m.processedAt.Some?
       && m.lastError == Some(letter.lastError)
       && letter.attempts == m.attempts == m.maxAttempts
       && letter.topic == m.topic && letter.aggregateId == m.aggregateId && letter.payload == m.payload
  }

  predicate LettersMatch(messages: seq<Message>, letters: seq<DeadLetter>) {
    && (forall i | 0 <= i < |letters| :: LetterMatches(messages, letters[i]))
    && (forall i, j | 0 <= i < j < |letters| :: letters[i].messageId != letters[j].messageId)
  }

  /** A burial in progress is backed by the lease exactly when it carries a letter. */
  predicate BurialIsBacked(messages: seq<Message>, workers: map<WorkerId, Worker>, w: WorkerId)
    requires w in workers && workers[w].Burying? && workers[w].m.id < |messages|
  {
    && workers[w].m.Exhausted()
    && workers[w].letter == LetterFor(workers[w].m.id, messages[workers[w].m.id], w, workers[w].error)
  }

  predicate BurialsAreBacked(messages: seq<Message>, workers: map<WorkerId, Worker>) {
    forall w | w in workers && workers[w].Burying? ::
      workers[w].m.id < |messages| && BurialIsBacked(messages, workers, w)
  }

  predicate Inv(s: System) {
    && RowsAreSound(s.messages)
    && CopiesTrack(s.messages, s.workers)
    && Fenced(s.messages, s.workers)
    && LeasesAreDistinct(s.workers)
    && OthersAreOlder(s.messages, s.workers)
    && LettersMatch(s.messages, s.deadLetters)
    && BurialsAreBacked(s.messages, s.workers)
  }

  /******* Every action keeps it *******/

  /** Actions that leave the outbox alone and move one worker on, or crash it. */
  lemma MoveKeepsInv(s: System, s': System, w: WorkerId, worker: Worker)
    requires Inv(s) && w in s.workers
    requires s'.messages == s.messages && s'.deadLetters == s.deadLetters
    requires s'.workers == s.workers[w := worker]
    requires worker.Crashed? || (s.workers[w].Holds() && worker.Holds() && worker.m == s.workers[w].m)
    requires worker.Burying? ==>
               && worker.m.Exhausted()
               && worker.letter == LetterFor(worker.m.id, s.messages[worker.m.id], w, worker.error)
    ensures Inv(s')
  {
  }

  lemma StartKeepsInv(s: System, w: WorkerId)
    requires Inv(s) && w !in s.workers
    ensures Inv(MoveTo(s, w, Idle))
  {
  }

  lemma EnqueueKeepsInv(s: System, m: Message)
    requires Inv(s)
    requires RowIsSound(m) && m.leasedBy.None?
    ensures Inv(s.(messages := s.messages + [m]))
  {
  }

  /******* One row and one worker change *******/

  lemma ChangeKeepsCopies(messages: seq<Message>, workers: map<WorkerId, Worker>, id: nat, row: Message, w: WorkerId, worker: Worker)
    requires CopiesTrack(messages, workers) && id < |messages|
    requires Snapshot(id, row) == Snapshot(id, messages[id]).(attempts := row.attempts)
    requires messages[id].attempts <= row.attempts
    requires worker.Holds() ==> Tracks(messages[id := row], worker.m)
    ensures CopiesTrack(messages[id := row], workers[w := worker])
  {
  }

  lemma ChangeKeepsFence(messages: seq<Message>, workers: map<WorkerId, Worker>, id: nat, row: Message, w: WorkerId, worker: Worker)
    requires Fenced(messages, workers) && id < |messages|
    requires forall j | 0 <= j < |messages| && j != id :: messages[j].leasedBy != Some(w)
    requires row.leasedBy.Some? ==> OwnedBy(messages[id := row], workers[w := worker], id, row.leasedBy.value)
    ensures Fenced(messages[id := row], workers[w := worker])
  {
    var messages', workers' := messages[id := row], workers[w := worker];
    forall j | 0 <= j < |messages'| && messages'[j].leasedBy.Some?
      ensures OwnedBy(messages', workers', j, messages'[j].leasedBy.value)
    {
      if j != id {
        assert OwnedBy(messages, workers, j, messages[j].leasedBy.value);
      }
    }
  }

  /** The row goes to its leaser, or keeps its owner, or has none. */
  lemma ChangeKeepsOthersOlder(messages: seq<Message>, workers: map<WorkerId, Worker>, id: nat, row: Message, w: WorkerId, worker: Worker)
    requires CopiesTrack(messages, workers) && OthersAreOlder(messages, workers) && id < |messages|
    requires || row.leasedBy.None?
             || (row.leasedBy == Some(w) && messages[id].attempts < row.attempts)
             || (row.leasedBy == messages[id].leasedBy && row.attempts == messages[id].attempts)
    requires worker.Holds() ==>
               || (row.leasedBy == Some(w) && worker.m.id == id)
               || (w in workers && workers[w].Holds() && worker.m == workers[w].m)
    ensures OthersAreOlder(messages[id := row], workers[w := worker])
  {
  }

  /** A settled row does not change, so letters go on matching. */
  lemma ChangeKeepsLetters(messages: seq<Message>, letters: seq<DeadLetter>, id: nat, row: Message)
    requires LettersMatch(messages, letters) && id < |messages|
    requires messages[id].processedAt.Some? ==> row == messages[id]
    ensures LettersMatch(messages[id := row], letters)
  {
    forall i | 0 <= i < |letters|
      ensures LetterMatches(messages[id := row], letters[i])
    {
      assert LetterMatches(messages, letters[i]);
    }
  }

  /** No burial by another worker sees the row change. */
  lemma ChangeKeepsBurials(messages: seq<Message>, workers: map<WorkerId, Worker>, id: nat, row: Message, w: WorkerId, worker: Worker)
    requires BurialsAreBacked(messages, workers) && id < |messages| && !worker.Burying?
    requires forall v | v in workers && workers[v].Burying? && v != w && workers[v].m.id == id ::
               LetterFor(id, row, v, workers[v].error) == LetterFor(id, messages[id], v, workers[v].error)
    ensures BurialsAreBacked(messages[id := row], workers[w := worker])
  {
    forall v | v in workers[w := worker] && workers[w := worker][v].Burying?
      ensures workers[v].m.id < |messages| && BurialIsBacked(messages[id := row], workers[w := worker], v)
    {
      assert BurialIsBacked(messages, workers, v);
    }
  }

  /** A worker owns no row but the one it holds. */
  lemma OwnsNothingElse(s: System, w: WorkerId, j: nat)
    requires Inv(s) && w in s.workers && j < |s.messages| && !s.workers[w].Crashed?
    requires s.workers[w].Holds() ==> s.workers[w].m.id != j
    ensures s.messages[j].leasedBy != Some(w)
  {
    assert s.messages[j].leasedBy.Some? ==> OwnedBy(s.messages, s.workers, j, s.messages[j].leasedBy.value);
  }

  lemma LeaseKeepsInv(s: System, w: WorkerId, locked: set<nat>, delivered: bool)
    requires Inv(s) && w in s.workers && s.workers[w].Idle?
    ensures Inv(LeaseStep(s, w, locked, delivered))
  {
    hide Classify, NextToLease;
    var next := NextToLease(s.messages, s.clock, locked);
    if next.Some? {
      var id := next.value;
      var row := LeaseRow(s.messages[id], w, s.clock);
      var worker := if delivered then Holding(Snapshot(id, row)) else Crashed;
      NewLeaseKeepsInv(s, w, id, row, worker);
    }
  }

  lemma NewLeaseKeepsInv(s: System, w: WorkerId, id: nat, row: Message, worker: Worker)
    requires Inv(s) && w in s.workers && s.workers[w].Idle?
    requires id < |s.messages| && Eligible(s.messages[id], s.clock) && row == LeaseRow(s.messages[id], w, s.clock)
    requires worker == Holding(Snapshot(id, row)) || worker == Crashed
    ensures Inv(MoveTo(s.(messages := s.messages[id := row]), w, worker))
  {
    forall j: nat | j < |s.messages|
      ensures s.messages[j].leasedBy != Some(w)
    {
      OwnsNothingElse(s, w, j);
    }
    assert RowIsSound(s.messages[id]) && RowIsSound(row);
    ChangeKeepsCopies(s.messages, s.workers, id, row, w, worker);
    ChangeKeepsFence(s.messages, s.workers, id, row, w, worker);
    ChangeKeepsOthersOlder(s.messages, s.workers, id, row, w, worker);
    ChangeKeepsLetters(s.messages, s.deadLetters, id, row);
    NobodyBuriesEligible(s, id);
    ChangeKeepsBurials(s.messages, s.workers, id, row, w, worker);
    NewLeaseIsDistinct(s, w, id, worker);
    hide CopiesTrack, Fenced, OthersAreOlder, LettersMatch, BurialsAreBacked, LeasesAreDistinct;
  }

  /** Nobody is burying a row that can be leased: whoever buries has seen its last attempt. */
  lemma NobodyBuriesEligible(s: System, id: nat)
    requires Inv(s) && id < |s.messages| && Eligible(s.messages[id], s.clock)
    ensures forall v | v in s.workers && s.workers[v].Burying? :: s.workers[v].m.id != id
  {
    hide LettersMatch, LeasesAreDistinct, OthersAreOlder;
    forall v | v in s.workers && s.workers[v].Burying?
      ensures s.workers[v].m.id != id
    {
      assert BurialIsBacked(s.messages, s.workers, v) && Tracks(s.messages, s.workers[v].m);
    }
  }

  lemma NewLeaseIsDistinct(s: System, w: WorkerId, id: nat, worker: Worker)
    requires CopiesTrack(s.messages, s.workers) && LeasesAreDistinct(s.workers) && id < |s.messages|
    requires worker.Holds() ==> worker.m.id == id && worker.m.attempts == s.messages[id].attempts + 1
    ensures LeasesAreDistinct(s.workers[w := worker])
  {
    assert forall v | v in s.workers && s.workers[v].Holds() :: Tracks(s.messages, s.workers[v].m);
  }

  /** What a statement guarded by `leased_by` makes of a row when its worker gives it back. */
  predicate GivesBack(before: Message, w: WorkerId, row: Message) {
    if before.leasedBy != Some(w) then row == before
    else
      && row == before.(leasedBy := None, leaseExpiresAt := None,
                        processedAt := row.processedAt, availableAt := row.availableAt, lastError := row.lastError)
      && (row.processedAt.Some? || before.attempts < before.maxAttempts)
  }

  /** A worker gives up its copy; `Failing` is for another try at it. */
  lemma ReleaseKeepsInv(s: System, s': System, w: WorkerId, row: Message, worker: Worker)
    requires Inv(s) && w in s.workers && s.workers[w].Holds()
    requires var m := s.workers[w].m;
             && s'.messages == s.messages[m.id := row]
             && s'.deadLetters == s.deadLetters
             && s'.workers == s.workers[w := worker]
             && (worker.Idle? || worker.Crashed? || worker == Failing(m, ConnectionLost))
             && GivesBack(s.messages[m.id], w, row)
    ensures Inv(s')
  {
    var m := s.workers[w].m;
    assert Tracks(s.messages, m);
    forall j: nat | j < |s.messages| && j != m.id
      ensures s.messages[j].leasedBy != Some(w)
    {
      OwnsNothingElse(s, w, j);
    }
    assert RowIsSound(s.messages[m.id]) && RowIsSound(row);
    if row.leasedBy.Some? {
      assert OwnedBy(s.messages, s.workers, m.id, row.leasedBy.value);
    }
    ChangeKeepsCopies(s.messages, s.workers, m.id, row, w, worker);
    ChangeKeepsFence(s.messages, s.workers, m.id, row, w, worker);
    ChangeKeepsOthersOlder(s.messages, s.workers, m.id, row, w, worker);
    ChangeKeepsLetters(s.messages, s.deadLetters, m.id, row);
    ChangeKeepsBurials(s.messages, s.workers, m.id, row, w, worker);
    assert LeasesAreDistinct(s'.workers);
    hide CopiesTrack, Fenced, OthersAreOlder, LettersMatch, BurialsAreBacked, LeasesAreDistinct;
  }

  lemma CommitBurialKeepsInv(s: System, w: WorkerId, acknowledged: bool)
    requires Inv(s) && w in s.workers && s.workers[w].Burying?
    ensures Inv(CommitBurialStep(s, w, acknowledged))
  {
    hide Classify;
    var s' := CommitBurialStep(s, w, acknowledged);
    var m := s.workers[w].m;
    var row := s'.messages[m.id];
    ReleaseKeepsInv(s, s'.(deadLetters := s.deadLetters), w, row, s'.workers[w]);
    assert BurialIsBacked(s.messages, s.workers, w) && Tracks(s.messages, m);
    if s.messages[m.id].leasedBy == Some(w) {
      NewLetterMatches(s'.messages, s.deadLetters, s.workers[w].letter.value);
    }
    hide CopiesTrack, Fenced, OthersAreOlder, LettersMatch, BurialsAreBacked, LeasesAreDistinct, RowsAreSound;
  }

  lemma NewLetterMatches(messages: seq<Message>, letters: seq<DeadLetter>, letter: DeadLetter)
    requires LettersMatch(messages, letters) && LetterMatches(messages, letter)
    ensures LettersMatch(messages, InsertLetter(letters, Some(letter)))
  {
  }

  lemma CompleteKeepsInv(s: System, w: WorkerId, committed: bool, acknowledged: bool)
    requires Inv(s) && w in s.workers && s.workers[w].Holds() && (acknowledged ==> committed)
    ensures Inv(CompleteStep(s, w, committed, acknowledged))
  {
    var m := s.workers[w].m;
    assert Tracks(s.messages, m);
    hide Inv, Tracks, Classify;
    var s' := CompleteStep(s, w, committed, acknowledged);
    var after := if acknowledged then Idle else Failing(m, ConnectionLost);
    if committed {
      var row := CompleteRow(s.messages[m.id], w, s.clock);
      assert GivesBack(s.messages[m.id], w, row);
      ReleaseKeepsInv(s, s', w, row, after);
    } else {
      MoveKeepsInv(s, s', w, after);
    }
  }

  lemma RetryKeepsInv(s: System, w: WorkerId, acknowledged: bool)
    requires Inv(s) && w in s.workers && s.workers[w].Failing? && !s.workers[w].m.Exhausted()
    ensures Inv(RetryStep(s, w, acknowledged))
  {
    var m := s.workers[w].m;
    assert Tracks(s.messages, m) && RowIsSound(s.messages[m.id]);
    assert s.messages[m.id].leasedBy == Some(w) ==> OwnedBy(s.messages, s.workers, m.id, w);
    hide Inv, RowIsSound, Classify;
    var row := RetryRow(s.messages[m.id], w, s.clock, RetryDelaySeconds(m.attempts), s.workers[w].error);
    assert GivesBack(s.messages[m.id], w, row);
    ReleaseKeepsInv(s, RetryStep(s, w, acknowledged), w, row, if acknowledged then Idle else Crashed);
  }

  lemma WriteKeepsInv(s: System, w: WorkerId, acknowledged: bool)
    requires Inv(s) && w in s.workers && s.workers[w].Reading?
    ensures Inv(WriteStep(s, w, acknowledged))
  {
    hide Classify, Incidents.FindActive, Inv;
    var s' := WriteStep(s, w, acknowledged);
    if s' != s {
      MoveKeepsInv(s, s', w, s'.workers[w]);
    }
  }

  lemma BuryKeepsInv(s: System, w: WorkerId)
    requires Inv(s) && w in s.workers && s.workers[w].Failing? && s.workers[w].m.Exhausted()
    ensures Inv(BuryStep(s, w))
  {
    assert Tracks(s.messages, s.workers[w].m);
    hide Inv, Classify;
    MoveKeepsInv(s, BuryStep(s, w), w, BuryStep(s, w).workers[w]);
  }

  /** Nothing that a step does to clock, automations, incidents or history matters to the fence. */
  lemma OtherTablesKeepInv(s: System, s': System)
    requires Inv(s)
    requires s'.messages == s.messages && s'.deadLetters == s.deadLetters && s'.workers == s.workers
    ensures Inv(s')
  {
  }

  lemma {:induction false} StepKeepsInv(s: System, a: Action)
    requires Inv(s) && Enabled(s, a)
    ensures Inv(Step(s, a))
  {
    hide Classify, Incidents.FindActive, NextToLease, Inv;
    hide LeaseStep, WriteStep, CompleteStep, RetryStep, BuryStep, CommitBurialStep;
    match a
    case Tick(_) => OtherTablesKeepInv(s, Step(s, a));
    case Synchronize(_, _) => OtherTablesKeepInv(s, Step(s, a));
    case Operate(_, _, _) => OtherTablesKeepInv(s, Step(s, a));
    case StartWorker(w) => StartKeepsInv(s, w);
    case Enqueue(topic, aggregateId, payload, maxAttempts) =>
      EnqueueKeepsInv(s, NewMessage(topic, aggregateId, payload, maxAttempts, s.clock));
    case Lease(w, locked, delivered) => LeaseKeepsInv(s, w, locked, delivered);
    case RejectMessage(w) => MoveKeepsInv(s, Step(s, a), w, Step(s, a).workers[w]);
    case SelectIncident(w) => MoveKeepsInv(s, Step(s, a), w, Step(s, a).workers[w]);
    case AbortCorrelation(w, _) => MoveKeepsInv(s, Step(s, a), w, Step(s, a).workers[w]);
    case Crash(w) => MoveKeepsInv(s, MoveTo(s, w, Crashed), w, Crashed);
    case Bury(w) => BuryKeepsInv(s, w);
    case WriteIncident(w, acknowledged) => WriteKeepsInv(s, w, acknowledged);
    case Complete(w, committed, acknowledged) => CompleteKeepsInv(s, w, committed, acknowledged);
    case Retry(w, acknowledged) => RetryKeepsInv(s, w, acknowledged);
    case CommitBurial(w, acknowledged) => CommitBurialKeepsInv(s, w, acknowledged);
  }
}
