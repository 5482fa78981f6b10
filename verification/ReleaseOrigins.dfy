/**
  Where releases and decisions come from, over every interleaving: each was asked
  for in the run, by the person and in the words that the ledger has.
 */
module ReleaseOrigins {
  import opened Prelude
  import opened ReleaseLedger

  /** The policy that is registered for the proposal's automation has its manifest, artifact and environment. */
  predicate Registered(s: Ledger, p: Proposal) {
    && p.automationId in s.automations
    && var policy := s.automations[p.automationId];
       && p.environment in policy.environments
       && p.manifestVersion == policy.manifestVersion && p.artifactChecksum == policy.observedChecksum
       && p.evidenceExpiresAt > s.clock
  }

  /** Action k of the run is this proposal, made when the registered policy matched it. */
  predicate ProposesAt(clock: Instant, run: seq<Action>, k: nat, p: Proposal, proposer: Principal) {
    && k < |run| && Valid(Initial(clock), run[..k])
    && run[k].BeginProposal? && run[k].proposal == p && run[k].principal == proposer
    && Registered(Run(Initial(clock), run[..k]), p)
  }

  predicate WasProposed(clock: Instant, run: seq<Action>, p: Proposal, proposer: Principal) {
    exists k | 0 <= k < |run| :: ProposesAt(clock, run, k, p, proposer)
  }

  /** Action k of the run asks, in this session, for the decision on the release. */
  predicate AsksAt(run: seq<Action>, k: nat, session: nat, release: nat, status: ReleaseStatus, rationale: string, principal: Principal) {
    && k < |run| && run[k].BeginDecision? && run[k].session == session && run[k].release == release
    && run[k].rationale == rationale && run[k].principal == principal
    && (status == Approved <==> run[k].approve) && (status == Rejected <==> !run[k].approve)
  }

  predicate WasAsked(run: seq<Action>, session: nat, release: nat, status: ReleaseStatus, rationale: string, principal: Principal) {
    exists k | 0 <= k < |run| :: AsksAt(run, k, session, release, status, rationale, principal)
  }

  /** Action k of the run commits the decision, in a session that had asked for it. */
  predicate DecidesAt(clock: Instant, run: seq<Action>, k: nat, release: nat, status: ReleaseStatus, d: Decision) {
    && k < |run| && Valid(Initial(clock), run[..k])
    && run[k].CommitDecision? && d.decidedAt == Run(Initial(clock), run[..k]).clock
    && WasAsked(run[..k], run[k].session, release, status, d.rationale, d.approver)
  }

  predicate WasDecided(clock: Instant, run: seq<Action>, release: nat, status: ReleaseStatus, d: Decision) {
    exists k | 0 <= k < |run| :: DecidesAt(clock, run, k, release, status, d)
  }

  /******* Runs, one action longer *******/

  lemma {:induction false} RunSplits(s: Ledger, run: seq<Action>, a: Action)
    requires Valid(s, run + [a])
    ensures Valid(s, run) && Enabled(Run(s, run), a) && Run(s, run + [a]) == Step(Run(s, run), a)
    decreases |run|
  {
    hide Enabled, Step;
    if run == [] {
      assert run + [a] == [a] && [a][1..] == [];
    } else {
      assert (run + [a])[1..] == run[1..] + [a];
      RunSplits(Step(s, run[0]), run[1..], a);
    }
  }

  lemma ProposedStays(clock: Instant, run: seq<Action>, a: Action, p: Proposal, proposer: Principal)
    requires WasProposed(clock, run, p, proposer)
    ensures WasProposed(clock, run + [a], p, proposer)
  {
    hide Registered;
    var k :| 0 <= k < |run| && ProposesAt(clock, run, k, p, proposer);
    assert (run + [a])[..k] == run[..k];
    assert ProposesAt(clock, run + [a], k, p, proposer);
  }

  lemma AskedStays(run: seq<Action>, a: Action, session: nat, release: nat, status: ReleaseStatus, rationale: string, principal: Principal)
    requires WasAsked(run, session, release, status, rationale, principal)
    ensures WasAsked(run + [a], session, release, status, rationale, principal)
  {
    var k :| 0 <= k < |run| && AsksAt(run, k, session, release, status, rationale, principal);
    assert AsksAt(run + [a], k, session, release, status, rationale, principal);
  }

  lemma DecidedStays(clock: Instant, run: seq<Action>, a: Action, release: nat, status: ReleaseStatus, d: Decision)
    requires WasDecided(clock, run, release, status, d)
    ensures WasDecided(clock, run + [a], release, status, d)
  {
    hide WasAsked;
    var k :| 0 <= k < |run| && DecidesAt(clock, run, k, release, status, d);
    assert (run + [a])[..k] == run[..k];
    assert DecidesAt(clock, run + [a], k, release, status, d);
  }

  /******* The invariant *******/

  predicate ReleaseHasOrigin(clock: Instant, run: seq<Action>, i: nat, r: Release) {
    && WasProposed(clock, run, r.proposal, r.proposer)
    && (r.decision.Some? ==> WasDecided(clock, run, i, r.status, r.decision.value))
  }

  predicate SessionHasOrigin(clock: Instant, run: seq<Action>, session: nat, place: Session) {
    match place
    case Proposing(p, principal) => WasProposed(clock, run, p, principal)
    case Deciding(i, _, status, rationale, principal) => WasAsked(run, session, i, status, rationale, principal)
    case Cleared(i, status, rationale, principal, _) => WasAsked(run, session, i, status, rationale, principal)
    case Ended => true
  }

  predicate Origins(clock: Instant, run: seq<Action>, s: Ledger) {
    && (forall i: nat | i < |s.releases| :: ReleaseHasOrigin(clock, run, i, s.releases[i]))
    && (forall n | n in s.sessions :: SessionHasOrigin(clock, run, n, s.sessions[n]))
  }

  lemma OriginsStay(clock: Instant, run: seq<Action>, a: Action, s: Ledger)
    requires Origins(clock, run, s)
    ensures Origins(clock, run + [a], s)
  {
    hide WasProposed, WasAsked, WasDecided;
    forall i: nat | i < |s.releases|
      ensures ReleaseHasOrigin(clock, run + [a], i, s.releases[i])
    {
      var r := s.releases[i];
      assert ReleaseHasOrigin(clock, run, i, r);
      ProposedStays(clock, run, a, r.proposal, r.proposer);
      if r.decision.Some? {
        DecidedStays(clock, run, a, i, r.status, r.decision.value);
      }
    }
    forall n | n in s.sessions
      ensures SessionHasOrigin(clock, run + [a], n, s.sessions[n])
    {
      assert SessionHasOrigin(clock, run, n, s.sessions[n]);
      match s.sessions[n]
      case Proposing(p, principal) => ProposedStays(clock, run, a, p, principal);
      case Deciding(i, _, status, rationale, principal) => AskedStays(run, a, n, i, status, rationale, principal);
      case Cleared(i, status, rationale, principal, _) => AskedStays(run, a, n, i, status, rationale, principal);
      case Ended =>
    }
  }

  lemma SessionMoves(clock: Instant, run: seq<Action>, s: Ledger, session: nat, place: Session)
    requires Origins(clock, run, s) && SessionHasOrigin(clock, run, session, place)
    ensures Origins(clock, run, MoveTo(s, session, place))
  {
    hide ReleaseHasOrigin, SessionHasOrigin;
  }

  lemma ProposalAsked(clock: Instant, run: seq<Action>, s: Ledger, a: Action)
    requires Valid(Initial(clock), run) && s == Run(Initial(clock), run) && a.BeginProposal? && Enabled(s, a)
    ensures SessionHasOrigin(clock, run + [a], a.session, Step(s, a).sessions[a.session])
  {
    if Step(s, a).sessions[a.session].Proposing? {
      assert (run + [a])[..|run|] == run;
      assert Registered(s, a.proposal);
      assert ProposesAt(clock, run + [a], |run|, a.proposal, a.principal);
    }
  }

  lemma DecisionAsked(clock: Instant, run: seq<Action>, s: Ledger, a: Action)
    requires a.BeginDecision? && Enabled(s, a)
    ensures SessionHasOrigin(clock, run + [a], a.session, Step(s, a).sessions[a.session])
  {
    var place := Step(s, a).sessions[a.session];
    if place.Deciding? {
      assert AsksAt(run + [a], |run|, a.session, place.release, place.status, place.rationale, place.principal);
    }
  }

  lemma ReleaseChanges(clock: Instant, run: seq<Action>, s: Ledger, s': Ledger, i: nat, r: Release)
    requires Origins(clock, run, s) && i < |s.releases|
    requires s'.releases == s.releases[i := r] && ReleaseHasOrigin(clock, run, i, r)
    requires forall n | n in s'.sessions :: s'.sessions[n].Ended? || (n in s.sessions && s'.sessions[n] == s.sessions[n])
    ensures Origins(clock, run, s')
  {
    hide ReleaseHasOrigin, WasProposed, WasAsked;
  }

  lemma CommitIsAskedFor(clock: Instant, run: seq<Action>, s: Ledger, session: nat)
    requires Valid(Initial(clock), run) && s == Run(Initial(clock), run) && Enabled(s, CommitDecision(session))
    requires SessionHasOrigin(clock, run, session, s.sessions[session])
    ensures var place := s.sessions[session];
            WasDecided(clock, run + [CommitDecision(session)], place.release, place.status,
                       Decision(place.principal, place.rationale, s.clock))
  {
    hide WasAsked;
    var place := s.sessions[session];
    assert (run + [CommitDecision(session)])[..|run|] == run;
    assert DecidesAt(clock, run + [CommitDecision(session)], |run|, place.release, place.status,
                     Decision(place.principal, place.rationale, s.clock));
  }

  /** A commit gives the release the origin that its session has. */
  lemma CommitHasOrigin(clock: Instant, run: seq<Action>, s: Ledger, session: nat)
    requires Inv(s) && Valid(Initial(clock), run) && s == Run(Initial(clock), run)
    requires Enabled(s, CommitDecision(session)) && Origins(clock, run, s)
    ensures Origins(clock, run + [CommitDecision(session)], Step(s, CommitDecision(session)))
  {
    var a := CommitDecision(session);
    OriginsStay(clock, run, a, s);
    FirstDecisionTakesEffect(s, session);
    CommitIsAskedFor(clock, run, s, session);
    hide Valid, Run, Inv, Step, Enabled, WasProposed, WasAsked, WasDecided, SessionHasOrigin;
    var place, s' := s.sessions[session], Step(s, a);
    assert ReleaseHasOrigin(clock, run + [a], place.release, s.releases[place.release]);
    ReleaseChanges(clock, run + [a], s, s', place.release, s'.releases[place.release]);
  }

  lemma ProposalHasOrigin(clock: Instant, run: seq<Action>, s: Ledger, a: Action)
    requires a.CommitProposal? && Enabled(s, a) && Origins(clock, run, s)
    ensures Origins(clock, run + [a], Step(s, a))
  {
    hide WasProposed, WasDecided;
    OriginsStay(clock, run, a, s);
    assert SessionHasOrigin(clock, run + [a], a.session, s.sessions[a.session]);
    hide ProposesAt;
  }

  lemma StepKeepsOrigins(clock: Instant, run: seq<Action>, s: Ledger, a: Action)
    requires Inv(s) && Valid(Initial(clock), run) && s == Run(Initial(clock), run) && Enabled(s, a) && Origins(clock, run, s)
    ensures Origins(clock, run + [a], Step(s, a))
  {
    hide Inv, MayPropose, Origins, Valid, Run, SessionHasOrigin, CommitProposalStep, CommitDecisionStep;
    OriginsStay(clock, run, a, s);
    match a
    case Tick(_) => SameReleasesAndSessions(clock, run + [a], s, Step(s, a));
    case Synchronize(_, _) => SameReleasesAndSessions(clock, run + [a], s, Step(s, a));
    case BeginProposal(session, _, _) =>
      ProposalAsked(clock, run, s, a);
      SessionMoves(clock, run + [a], s, session, Step(s, a).sessions[session]);
    case CommitProposal(_) => ProposalHasOrigin(clock, run, s, a);
    case BeginDecision(session, _, _, _, _) =>
      DecisionAsked(clock, run, s, a);
      SessionMoves(clock, run + [a], s, session, Step(s, a).sessions[session]);
    case ReadPolicy(session) =>
      ReadKeepsOrigin(clock, run + [a], s, session);
      SessionMoves(clock, run + [a], s, session, Step(s, a).sessions[session]);
    case CommitDecision(session) => CommitHasOrigin(clock, run, s, session);
  }

  lemma SameReleasesAndSessions(clock: Instant, run: seq<Action>, s: Ledger, s': Ledger)
    requires Origins(clock, run, s) && s'.releases == s.releases && s'.sessions == s.sessions
    ensures Origins(clock, run, s')
  {
  }

  lemma ReadKeepsOrigin(clock: Instant, run: seq<Action>, s: Ledger, session: nat)
    requires Origins(clock, run, s) && Enabled(s, ReadPolicy(session))
    ensures SessionHasOrigin(clock, run, session, ReadPolicyStep(s, session).sessions[session])
  {
    assert SessionHasOrigin(clock, run, session, s.sessions[session]);
    hide WasAsked;
  }

  lemma {:induction false} RunKeepsOrigins(clock: Instant, run: seq<Action>)
    requires Valid(Initial(clock), run)
    ensures Origins(clock, run, Run(Initial(clock), run))
    decreases |run|
  {
    hide Enabled, Step, Origins, Inv;
    if run == [] {
      NothingNeedsOrigin(clock);
    } else {
      var before, a := run[..|run| - 1], run[|run| - 1];
      assert run == before + [a];
      RunSplits(Initial(clock), before, a);
      RunKeepsOrigins(clock, before);
      InitialIsSound(clock);
      RunKeepsInv(Initial(clock), before);
      StepKeepsOrigins(clock, before, Run(Initial(clock), before), a);
    }
  }

  lemma NothingNeedsOrigin(clock: Instant)
    ensures Origins(clock, [], Initial(clock))
  {
  }

  lemma InitialIsSound(clock: Instant)
    ensures Inv(Initial(clock))
  {
  }

  /**
    Every release was proposed in the run by its proposer, when the registered policy
    matched it; and a decided one was decided by a commit, at the time it has, in a
    session in which its approver had asked for just that, in those words.
   */
  lemma EveryReleaseHasOrigin(clock: Instant, run: seq<Action>, i: nat)
    requires Valid(Initial(clock), run) && i < |Run(Initial(clock), run).releases|
    ensures ReleaseHasOrigin(clock, run, i, Run(Initial(clock), run).releases[i])
  {
    RunKeepsOrigins(clock, run);
  }
}
