/**
  The release ledger as a transition system: proposers, deciders and catalog
  synchronizations in any interleaving. A service call is split where the code
  reads and acts in separate statements: policy, then insert; release, then
  policy, then guarded update.
 */
module ReleaseLedger {
  import opened Prelude

  datatype Principal = Principal(subject: string, displayName: string)

  /** What the ledger reads of a catalog row. */
  datatype Policy = Policy(manifestVersion: string, observedChecksum: string, tier: Severity, environments: set<string>)

  datatype Proposal = Proposal(
    automationId: string,
    version: string,
    environment: string,
    manifestVersion: string,
    artifactChecksum: string,
    evidenceExpiresAt: Instant)

  datatype ReleaseStatus = Proposed | Approved | Rejected

  datatype Decision = Decision(approver: Principal, rationale: string, decidedAt: Instant)

  datatype Release = Release(proposal: Proposal, proposer: Principal, status: ReleaseStatus, decision: Option<Decision>)

  datatype ReleaseEntry = ReleaseEntry(release: nat, event: ReleaseStatus, actor: Principal, rationale: string)

  const PROPOSAL_NOTE := "Release proposal recorded."

  /******* Statements *******/

  predicate RequiresIndependentApproval(tier: Severity, proposerSubject: string, approverSubject: string) {
    (tier.High? || tier.Critical?) && proposerSubject == approverSubject
  }

  predicate SameSlot(p: Proposal, q: Proposal) {
    p.automationId == q.automationId && p.version == q.version && p.environment == q.environment
  }

  predicate SlotTaken(releases: seq<Release>, p: Proposal) {
    exists i :: 0 <= i < |releases| && SameSlot(releases[i].proposal, p)
  }

  /** The checks that propose makes on the policy row it has read. */
  predicate MayPropose(automations: map<string, Policy>, p: Proposal, now: Instant) {
    && p.automationId in automations
    && p.environment in automations[p.automationId].environments
    && p.manifestVersion == automations[p.automationId].manifestVersion
    && p.artifactChecksum == automations[p.automationId].observedChecksum
    && p.evidenceExpiresAt > now
  }

  function NewRelease(p: Proposal, proposer: Principal): Release {
    Release(p, proposer, Proposed, None)
  }

  function Decided(r: Release, status: ReleaseStatus, approver: Principal, rationale: string, now: Instant): Release {
    r.(status := status, decision := Some(Decision(approver, rationale, now)))
  }

  /******* The system *******/

  /** A service call between two of its statements. */
  datatype Session =
    | Proposing(proposal: Proposal, principal: Principal)
    | Deciding(release: nat, read: Release, status: ReleaseStatus, rationale: string, principal: Principal)
    | Cleared(release: nat, status: ReleaseStatus, rationale: string, principal: Principal, tier: Option<Severity>)
    | Ended

  /** `clearances` remembers the tier that the decider of a release had read; no table stores it. */
  datatype Ledger = Ledger(
    clock: Instant,
    automations: map<string, Policy>,
    releases: seq<Release>,
    history: seq<ReleaseEntry>,
    clearances: map<nat, Option<Severity>>,
    sessions: map<nat, Session>)

  function Initial(clock: Instant): Ledger {
    Ledger(clock, map[], [], [], map[], map[])
  }

  datatype Action =
    | Tick(to: Instant)
    | Synchronize(automationId: string, policy: Policy)
    | BeginProposal(session: nat, proposal: Proposal, principal: Principal)
    | CommitProposal(session: nat)
    | BeginDecision(session: nat, release: nat, approve: bool, rationale: string, principal: Principal)
    | ReadPolicy(session: nat)
    | CommitDecision(session: nat)

  predicate Enabled(s: Ledger, a: Action) {
    match a
    case Tick(to) => s.clock <= to
    case Synchronize(_, _) => true
    case BeginProposal(session, _, _) => session !in s.sessions
    case CommitProposal(session) => session in s.sessions && s.sessions[session].Proposing?
    case BeginDecision(session, _, _, _, _) => session !in s.sessions
    case ReadPolicy(session) => session in s.sessions && s.sessions[session].Deciding?
    case CommitDecision(session) => session in s.sessions && s.sessions[session].Cleared?
  }

  function MoveTo(s: Ledger, session: nat, place: Session): Ledger {
    s.(sessions := s.sessions[session := place])
  }

  /** The insert fails on the unique index, or goes in with its history row. */
  function CommitProposalStep(s: Ledger, session: nat): Ledger
    requires session in s.sessions && s.sessions[session].Proposing?
  {
    var Proposing(proposal, principal) := s.sessions[session];
    if SlotTaken(s.releases, proposal) then MoveTo(s, session, Ended)
    else
      MoveTo(s.(releases := s.releases + [NewRelease(proposal, principal)],
             history := s.history + [ReleaseEntry(|s.releases|, Proposed, principal, PROPOSAL_NOTE)]),
             session, Ended)
  }

  function ReadPolicyStep(s: Ledger, session: nat): Ledger
    requires session in s.sessions && s.sessions[session].Deciding?
  {
    var Deciding(release, read, status, rationale, principal) := s.sessions[session];
    var tier := if read.proposal.automationId in s.automations then Some(s.automations[read.proposal.automationId].tier) else None;
    if status.Approved? && tier.Some? && RequiresIndependentApproval(tier.value, read.proposer.subject, principal.subject)
    then MoveTo(s, session, Ended)
    else MoveTo(s, session, Cleared(release, status, rationale, principal, tier))
  }

  /** `where id = $1 and status = 'PROPOSED'`: the first decision wins, later ones change nothing. */
  function CommitDecisionStep(s: Ledger, session: nat): Ledger
    requires session in s.sessions && s.sessions[session].Cleared?
  {
    var Cleared(release, status, rationale, principal, tier) := s.sessions[session];
    if release >= |s.releases| || !s.releases[release].status.Proposed? then MoveTo(s, session, Ended)
    else
      MoveTo(s.(releases := s.releases[release := Decided(s.releases[release], status, principal, rationale, s.clock)],
             history := s.history + [ReleaseEntry(release, status, principal, rationale)],
             clearances := s.clearances[release := tier]),
             session, Ended)
  }

  function Step(s: Ledger, a: Action): Ledger
    requires Enabled(s, a)
  {
    match a
    case Tick(to) => s.(clock := to)
    case Synchronize(automationId, policy) => s.(automations := s.automations[automationId := policy])
    case BeginProposal(session, proposal, principal) =>
      MoveTo(s, session, if MayPropose(s.automations, proposal, s.clock) then Proposing(proposal, principal) else Ended)
    case CommitProposal(session) => CommitProposalStep(s, session)
    case BeginDecision(session, release, approve, rationale, principal) =>
      MoveTo(s, session,
             if release < |s.releases| then
               Deciding(release, s.releases[release], if approve then Approved else Rejected, rationale, principal)
             else Ended)
    case ReadPolicy(session) => ReadPolicyStep(s, session)
    case CommitDecision(session) => CommitDecisionStep(s, session)
  }

  predicate Valid(s: Ledger, run: seq<Action>)
    decreases |run|
  {
    run == [] || (Enabled(s, run[0]) && Valid(Step(s, run[0]), run[1..]))
  }

  function Run(s: Ledger, run: seq<Action>): Ledger
    requires Valid(s, run)
    decreases |run|
  {
    if run == [] then s else Run(Step(s, run[0]), run[1..])
  }

  /******* What every step keeps *******/

  function OfRelease(release: nat): ReleaseEntry -> bool {
    (entry: ReleaseEntry) => entry.release == release
  }

  function HistoryOf(history: seq<ReleaseEntry>, release: nat): seq<ReleaseEntry> {
    Select(history, OfRelease(release))
  }

  lemma HistoryOfAppend(history: seq<ReleaseEntry>, entry: ReleaseEntry, release: nat)
    ensures HistoryOf(history + [entry], release)
         == if entry.release == release then HistoryOf(history, release) + [entry] else HistoryOf(history, release)
  {
    SelectAppend(history, entry, OfRelease(release));
  }

  /** PROPOSED by the proposer, then at most one decision, which is the row's. */
  predicate Tells(h: seq<ReleaseEntry>, i: nat, r: Release) {
    && (r.status.Proposed? <==> r.decision.None?)
    && var proposed := ReleaseEntry(i, Proposed, r.proposer, PROPOSAL_NOTE);
       h == if r.status.Proposed? then [proposed]
            else [proposed, ReleaseEntry(i, r.status, r.decision.value.approver, r.decision.value.rationale)]
  }

  /** The decider had read a tier that allowed its decision. */
  predicate Independent(s: Ledger, i: nat)
    requires i < |s.releases|
  {
    var r := s.releases[i];
    r.decision.Some? ==>
      && i in s.clearances && s.clearances[i].Some?
      && (r.status.Approved? ==>
            !RequiresIndependentApproval(s.clearances[i].value, r.proposer.subject, r.decision.value.approver.subject))
  }

  predicate SessionIsSound(s: Ledger, place: Session) {
    match place
    case Proposing(p, _) => p.automationId in s.automations
    case Deciding(i, read, status, _, _) =>
      i < |s.releases| && !status.Proposed? && s.releases[i].proposal == read.proposal && s.releases[i].proposer == read.proposer
    case Cleared(i, status, _, principal, tier) =>
      && i < |s.releases| && !status.Proposed? && tier.Some?
      && (status.Approved? ==>
            !RequiresIndependentApproval(tier.value, s.releases[i].proposer.subject, principal.subject))
    case _ => true
  }

  predicate Inv(s: Ledger) {
    && (forall i, j | 0 <= i < j < |s.releases| :: !SameSlot(s.releases[i].proposal, s.releases[j].proposal))
    && (forall i | 0 <= i < |s.releases| :: s.releases[i].proposal.automationId in s.automations)
    && (forall k | 0 <= k < |s.history| :: s.history[k].release < |s.releases|)
    && (forall i: nat | i < |s.releases| :: Tells(HistoryOf(s.history, i), i, s.releases[i]))
    && (forall i: nat | i < |s.releases| :: Independent(s, i))
    && (forall n | n in s.sessions :: SessionIsSound(s, s.sessions[n]))
  }

  lemma NothingBeforeProposal(history: seq<ReleaseEntry>, i: nat)
    requires forall k | 0 <= k < |history| :: history[k].release < i
    ensures HistoryOf(history, i) == []
  {
    SelectNone(history, OfRelease(i));
  }

  lemma MoveKeepsInv(s: Ledger, session: nat, place: Session)
    requires Inv(s) && SessionIsSound(s, place)
    ensures Inv(MoveTo(s, session, place))
  {
    hide HistoryOf;
    var s' := MoveTo(s, session, place);
    assert forall i: nat | i < |s.releases| :: Independent(s, i) == Independent(s', i);
  }

  lemma ProposalKeepsInv(s: Ledger, proposal: Proposal, principal: Principal)
    requires Inv(s) && proposal.automationId in s.automations && !SlotTaken(s.releases, proposal)
    ensures Inv(s.(releases := s.releases + [NewRelease(proposal, principal)],
                history := s.history + [ReleaseEntry(|s.releases|, Proposed, principal, PROPOSAL_NOTE)]))
  {
    hide HistoryOf, PROPOSAL_NOTE;
    var entry := ReleaseEntry(|s.releases|, Proposed, principal, PROPOSAL_NOTE);
    var s' := s.(releases := s.releases + [NewRelease(proposal, principal)], history := s.history + [entry]);
    forall i: nat | i < |s'.releases|
      ensures Tells(HistoryOf(s'.history, i), i, s'.releases[i]) && Independent(s', i)
    {
      HistoryOfAppend(s.history, entry, i);
      if i < |s.releases| {
        assert Tells(HistoryOf(s.history, i), i, s.releases[i]) && Independent(s, i);
      } else {
        NothingBeforeProposal(s.history, i);
      }
    }
    assert forall n | n in s.sessions :: SessionIsSound(s, s.sessions[n]) && SessionIsSound(s', s.sessions[n]);
  }

  lemma CommitProposalKeepsInv(s: Ledger, session: nat)
    requires Inv(s) && Enabled(s, CommitProposal(session))
    ensures Inv(CommitProposalStep(s, session))
  {
    hide HistoryOf, PROPOSAL_NOTE, Independent, Tells;
    var Proposing(proposal, principal) := s.sessions[session];
    assert SessionIsSound(s, s.sessions[session]);
    if SlotTaken(s.releases, proposal) {
      MoveKeepsInv(s, session, Ended);
    } else {
      ProposalKeepsInv(s, proposal, principal);
      var entry := ReleaseEntry(|s.releases|, Proposed, principal, PROPOSAL_NOTE);
      MoveKeepsInv(s.(releases := s.releases + [NewRelease(proposal, principal)], history := s.history + [entry]), session, Ended);
    }
  }

  lemma CommitDecisionKeepsInv(s: Ledger, session: nat)
    requires Inv(s) && Enabled(s, CommitDecision(session))
    ensures Inv(CommitDecisionStep(s, session))
  {
    hide HistoryOf, PROPOSAL_NOTE;
    var s' := CommitDecisionStep(s, session);
    var Cleared(release, status, rationale, principal, tier) := s.sessions[session];
    assert SessionIsSound(s, s.sessions[session]);
    if !s.releases[release].status.Proposed? {
      MoveKeepsInv(s, session, Ended);
    } else {
      forall i: nat | i < |s'.releases|
        ensures Tells(HistoryOf(s'.history, i), i, s'.releases[i]) && Independent(s', i)
      {
        HistoryOfAppend(s.history, ReleaseEntry(release, status, principal, rationale), i);
        assert Tells(HistoryOf(s.history, i), i, s.releases[i]) && Independent(s, i);
      }
      assert forall n | n in s.sessions :: SessionIsSound(s, s.sessions[n]);
    }
  }

  lemma OtherFieldsKeepInv(s: Ledger, s': Ledger)
    requires Inv(s) && s' == s.(clock := s'.clock, automations := s'.automations)
    requires s.automations.Keys <= s'.automations.Keys
    ensures Inv(s')
  {
    hide HistoryOf;
    assert forall i: nat | i < |s.releases| :: Independent(s, i) == Independent(s', i);
    assert forall n | n in s.sessions :: SessionIsSound(s, s.sessions[n]) && SessionIsSound(s', s'.sessions[n]);
  }

  lemma StepKeepsInv(s: Ledger, a: Action)
    requires Inv(s) && Enabled(s, a)
    ensures Inv(Step(s, a))
  {
    hide Inv, MayPropose;
    match a
    case Tick(_) => OtherFieldsKeepInv(s, Step(s, a));
    case Synchronize(_, _) => OtherFieldsKeepInv(s, Step(s, a));
    case BeginProposal(session, proposal, _) =>
      MayProposeIsRegistered(s.automations, proposal, s.clock);
      MoveKeepsInv(s, session, Step(s, a).sessions[session]);
    case CommitProposal(session) => CommitProposalKeepsInv(s, session);
    case BeginDecision(session, _, _, _, _) => MoveKeepsInv(s, session, Step(s, a).sessions[session]);
    case ReadPolicy(session) => ReadPolicyKeepsInv(s, session);
    case CommitDecision(session) => CommitDecisionKeepsInv(s, session);
  }

  lemma MayProposeIsRegistered(automations: map<string, Policy>, p: Proposal, now: Instant)
    ensures MayPropose(automations, p, now) ==> p.automationId in automations
  {
  }

  lemma ReadPolicyKeepsInv(s: Ledger, session: nat)
    requires Inv(s) && Enabled(s, ReadPolicy(session))
    ensures Inv(ReadPolicyStep(s, session))
  {
    assert SessionIsSound(s, s.sessions[session]);
    MoveKeepsInv(s, session, ReadPolicyStep(s, session).sessions[session]);
  }

  lemma {:induction false} RunKeepsInv(s: Ledger, run: seq<Action>)
    requires Inv(s) && Valid(s, run)
    ensures Inv(Run(s, run))
    decreases |run|
  {
    hide Inv;
    if run != [] {
      StepKeepsInv(s, run[0]);
      RunKeepsInv(Step(s, run[0]), run[1..]);
    }
  }

  /******* Theorems over every interleaving *******/

  /** What the unique constraint compares. */
  datatype Slot = Slot(automationId: string, version: string, environment: string)

  function SlotOf(p: Proposal): Slot {
    Slot(p.automationId, p.version, p.environment)
  }

  predicate HasSlot(releases: seq<Release>, slot: Slot) {
    exists r | r in releases :: SlotOf(r.proposal) == slot
  }

  /** What a ledger says of each release, whoever else was at work. */
  lemma ReleaseIsAccountedFor(clock: Instant, run: seq<Action>, i: nat)
    requires Valid(Initial(clock), run) && i < |Run(Initial(clock), run).releases|
    ensures var s := Run(Initial(clock), run);
            var r := s.releases[i];
            && Tells(HistoryOf(s.history, i), i, r)
            && (forall j: nat | j < |s.releases| && SlotOf(s.releases[j].proposal) == SlotOf(r.proposal) :: j == i)
            && (r.status.Approved? ==>
                  i in s.clearances && s.clearances[i].Some?
                  && (s.clearances[i].value in {High, Critical} ==>
                        r.decision.value.approver.subject != r.proposer.subject))
  {
    RunKeepsInv(Initial(clock), run);
    assert Independent(Run(Initial(clock), run), i);
  }

  /** A decision is final: neither the row nor its history changes again. */
  lemma {:induction false} DecisionIsFinal(s: Ledger, run: seq<Action>, i: nat)
    requires Inv(s) && Valid(s, run) && i < |s.releases| && !s.releases[i].status.Proposed?
    ensures i < |Run(s, run).releases| && Run(s, run).releases[i] == s.releases[i]
    ensures HistoryOf(Run(s, run).history, i) == HistoryOf(s.history, i)
    decreases |run|
  {
    if run != [] {
      StepKeepsInv(s, run[0]);
      DecisionSurvivesStep(s, run[0], i);
      DecisionIsFinal(Step(s, run[0]), run[1..], i);
    }
  }

  lemma DecisionSurvivesStep(s: Ledger, a: Action, i: nat)
    requires Inv(s) && Enabled(s, a) && i < |s.releases| && !s.releases[i].status.Proposed?
    ensures i < |Step(s, a).releases| && Step(s, a).releases[i] == s.releases[i]
    ensures HistoryOf(Step(s, a).history, i) == HistoryOf(s.history, i)
  {
    hide HistoryOf, MayPropose;
    var s' := Step(s, a);
    if |s'.history| > |s.history| {
      HistoryOfAppend(s.history, s'.history[|s.history|], i);
      assert s'.history == s.history + [s'.history[|s.history|]];
    }
  }

  /******* The tier may be stale *******/

  predicate HighRiskNow(s: Ledger, automationId: string) {
    automationId in s.automations && s.automations[automationId].tier in {High, Critical}
  }

  /** Committing the session approves a release on behalf of its own proposer. */
  predicate ApprovesOwn(s: Ledger, session: nat) {
    && session in s.sessions && s.sessions[session].Cleared? && s.sessions[session].status.Approved?
    && s.sessions[session].release < |s.releases|
    && s.releases[s.sessions[session].release].status.Proposed?
    && s.releases[s.sessions[session].release].proposer.subject == s.sessions[session].principal.subject
  }

  /** A commit leaves a release of a high-risk automation approved by its own proposer. */
  predicate CommitBreaksSeparation(s: Ledger, session: nat)
    requires Enabled(s, CommitDecision(session))
  {
    var i := s.sessions[session].release;
    var s' := Step(s, CommitDecision(session));
    && i < |s.releases| && s'.releases[i] != s.releases[i] && s'.releases[i].status.Approved?
    && s'.releases[i].decision.value.approver.subject == s'.releases[i].proposer.subject
    && HighRiskNow(s', s'.releases[i].proposal.automationId)
  }

  /**
    Separation of duties as of the moment of the commit: it is broken if and only if
    a proposer approves, having read a tier that was not high risk, and the tier is
    high risk by now.
   */
  lemma SeparationFailsExactlyOnStaleTier(s: Ledger, session: nat)
    requires Inv(s) && Enabled(s, CommitDecision(session))
    ensures CommitBreaksSeparation(s, session) <==>
            && ApprovesOwn(s, session)
            && HighRiskNow(s, s.releases[s.sessions[session].release].proposal.automationId)
            && s.sessions[session].tier.Some? && s.sessions[session].tier.value !in {High, Critical}
  {
    hide HistoryOf;
    assert SessionIsSound(s, s.sessions[session]);
  }

  /******* From the read of the policy to the commit *******/

  predicate Resynchronizes(a: Action, automationId: string) {
    a.Synchronize? && a.automationId == automationId
  }

  /** Whether a run leaves the automation high-risk, given whether it was at first. */
  predicate HighAfter(run: seq<Action>, automationId: string, high: bool) {
    if run == [] then high
    else HighAfter(run[1..], automationId, if Resynchronizes(run[0], automationId) then run[0].policy.tier in {High, Critical} else high)
  }

  lemma {:induction false} TierFollowsRun(s: Ledger, run: seq<Action>, automationId: string)
    requires Valid(s, run)
    ensures HighRiskNow(Run(s, run), automationId) <==> HighAfter(run, automationId, HighRiskNow(s, automationId))
    decreases |run|
  {
    hide MayPropose, CommitProposalStep, CommitDecisionStep;
    if run != [] {
      StepSetsTier(s, run[0], automationId);
      TierFollowsRun(Step(s, run[0]), run[1..], automationId);
    }
  }

  lemma StepSetsTier(s: Ledger, a: Action, automationId: string)
    requires Enabled(s, a)
    ensures HighRiskNow(Step(s, a), automationId)
       <==> if Resynchronizes(a, automationId) then a.policy.tier in {High, Critical} else HighRiskNow(s, automationId)
  {
    hide MayPropose;
  }

  predicate IsPastReads(place: Session) {
    place.Cleared? || place.Ended?
  }

  /** The session is as it was, or over by now; releases are for what, and by whom, they were. */
  predicate Keeps(s: Ledger, s': Ledger, session: nat)
    requires session in s.sessions
  {
    && session in s'.sessions
    && (s'.sessions[session] == s.sessions[session] || s'.sessions[session].Ended?)
    && |s.releases| <= |s'.releases|
    && forall i | 0 <= i < |s.releases| ::
         s'.releases[i].proposal == s.releases[i].proposal && s'.releases[i].proposer == s.releases[i].proposer
  }

  lemma StepKeeps(s: Ledger, a: Action, session: nat)
    requires Enabled(s, a) && session in s.sessions && IsPastReads(s.sessions[session])
    ensures Keeps(s, Step(s, a), session)
  {
    hide MayPropose, PROPOSAL_NOTE;
  }

  /** A session that is past its reads is committed as it stands, or is over. */
  lemma {:induction false} RunKeeps(s: Ledger, run: seq<Action>, session: nat)
    requires Valid(s, run) && session in s.sessions && IsPastReads(s.sessions[session])
    ensures Keeps(s, Run(s, run), session)
    decreases |run|
  {
    hide Step, Enabled;
    if run != [] {
      StepKeeps(s, run[0], session);
      RunKeeps(Step(s, run[0]), run[1..], session);
    }
  }

  /**
    Separation of duties over every run from the read of the policy to the commit of
    one decision: a proposer's own approval takes effect on a high-risk release if and
    only if the last synchronization of its automation in between made it so.
   */
  lemma SeparationFailsExactlyOnRaise(s: Ledger, session: nat, run: seq<Action>)
    requires Inv(s) && Enabled(s, ReadPolicy(session))
    requires Valid(Step(s, ReadPolicy(session)), run)
    requires Enabled(Run(Step(s, ReadPolicy(session)), run), CommitDecision(session))
    ensures var end := Run(Step(s, ReadPolicy(session)), run);
            CommitBreaksSeparation(end, session) <==>
            && ApprovesOwn(end, session)
            && HighAfter(run, end.releases[end.sessions[session].release].proposal.automationId, false)
  {
    var read := Step(s, ReadPolicy(session));
    var end := Run(read, run);
    StepKeepsInv(s, ReadPolicy(session));
    RunKeepsInv(read, run);
    RunKeeps(read, run, session);
    SeparationFailsExactlyOnStaleTier(end, session);
    ClearanceIsTheTierRead(s, session);
    assert read.sessions[session] == end.sessions[session];
    var i := end.sessions[session].release;
    assert SessionIsSound(read, read.sessions[session]) && SessionIsSound(end, end.sessions[session]);
    TierFollowsRun(read, run, end.releases[i].proposal.automationId);
    hide Inv, MayPropose, CommitBreaksSeparation, Valid, Run, Step;
  }

  lemma ClearanceIsTheTierRead(s: Ledger, session: nat)
    requires Inv(s) && Enabled(s, ReadPolicy(session))
    ensures var read := ReadPolicyStep(s, session);
            read.sessions[session].Cleared? ==>
              && read.sessions[session].release < |read.releases|
              && var automationId := read.releases[read.sessions[session].release].proposal.automationId;
                 && automationId in read.automations
                 && read.sessions[session].tier == Some(read.automations[automationId].tier)
  {
    hide HistoryOf;
    assert SessionIsSound(s, s.sessions[session]);
  }

  /** So separation holds in every run in which no synchronization makes the automation high-risk in between. */
  lemma {:induction false} NoRaiseNoFailure(run: seq<Action>, automationId: string)
    requires forall k | 0 <= k < |run| :: Resynchronizes(run[k], automationId) ==> run[k].policy.tier !in {High, Critical}
    ensures !HighAfter(run, automationId, false)
  {
    if run != [] {
      NoRaiseNoFailure(run[1..], automationId);
    }
  }

  /** And from every such session, a synchronization is enough to make it fail. */
  lemma RaiseBreaksSeparation(s: Ledger, session: nat, policy: Policy)
    requires ApprovesOwn(s, session) && policy.tier in {High, Critical}
    ensures CommitBreaksSeparation(
              Step(s, Synchronize(s.releases[s.sessions[session].release].proposal.automationId, policy)), session)
  {
    var s' := Step(s, Synchronize(s.releases[s.sessions[session].release].proposal.automationId, policy));
    BreaksWhenStale(s', session);
  }

  /** An insert adds its release, proposed, and its history, exactly if no release has its slot. */
  lemma ProposalTakesFreeSlot(s: Ledger, session: nat)
    requires Enabled(s, CommitProposal(session))
    ensures var place := s.sessions[session];
            var s' := Step(s, CommitProposal(session));
            if HasSlot(s.releases, SlotOf(place.proposal)) then
              s'.releases == s.releases && s'.history == s.history
            else
              && s'.releases == s.releases + [Release(place.proposal, place.principal, Proposed, None)]
              && s'.history == s.history + [ReleaseEntry(|s.releases|, Proposed, place.principal, PROPOSAL_NOTE)]
  {
    hide PROPOSAL_NOTE;
    TakenSlots(s.releases, s.sessions[session].proposal);
  }

  lemma TakenSlots(releases: seq<Release>, p: Proposal)
    ensures SlotTaken(releases, p) <==> HasSlot(releases, SlotOf(p))
  {
    if SlotTaken(releases, p) {
      var i :| 0 <= i < |releases| && SameSlot(releases[i].proposal, p);
      assert releases[i] in releases;
    }
    if HasSlot(releases, SlotOf(p)) {
      var r :| r in releases && SlotOf(r.proposal) == SlotOf(p);
      var i :| 0 <= i < |releases| && releases[i] == r;
      assert SameSlot(releases[i].proposal, p);
    }
  }

  /** Reading the policy stops a proposer's own approval on the two high tiers, and lets every other decision through. */
  lemma PolicyStopsOwnHighRiskApproval(s: Ledger, session: nat)
    requires Inv(s) && Enabled(s, ReadPolicy(session))
    ensures var place := s.sessions[session];
            var r := s.releases[place.release];
            && place.release < |s.releases| && r.proposal.automationId in s.automations
            && Step(s, ReadPolicy(session)).sessions[session]
               == var tier := s.automations[r.proposal.automationId].tier;
                  if place.status == Approved && tier in {High, Critical} && place.principal.subject == r.proposer.subject then
                    Ended
                  else
                    Cleared(place.release, place.status, place.rationale, place.principal, Some(tier))
  {
    hide HistoryOf;
    assert SessionIsSound(s, s.sessions[session]);
  }

  /** A cleared decision on a proposed release takes effect as it was cleared; on a decided one it does nothing. */
  lemma FirstDecisionTakesEffect(s: Ledger, session: nat)
    requires Inv(s) && Enabled(s, CommitDecision(session))
    ensures var place := s.sessions[session];
            var s' := Step(s, CommitDecision(session));
            && place.release < |s.releases| && s'.sessions == s.sessions[session := Ended]
            && var r := s.releases[place.release];
               if r.status == Proposed then
                 && s'.releases
                    == s.releases[place.release := Release(r.proposal, r.proposer, place.status,
                                                           Some(Decision(place.principal, place.rationale, s.clock)))]
                 && s'.history == s.history + [ReleaseEntry(place.release, place.status, place.principal, place.rationale)]
               else
                 s'.releases == s.releases && s'.history == s.history
  {
    hide HistoryOf;
    assert SessionIsSound(s, s.sessions[session]);
  }

  ghost predicate Reachable(s: Ledger) {
    exists clock, run :: Valid(Initial(clock), run) && Run(Initial(clock), run) == s
  }

  lemma {:induction false} RunOn(s: Ledger, run: seq<Action>, a: Action)
    requires Valid(s, run) && Enabled(Run(s, run), a)
    ensures Valid(s, run + [a]) && Run(s, run + [a]) == Step(Run(s, run), a)
    decreases |run|
  {
    hide Enabled, Step;
    if run == [] {
      assert run + [a] == [a] && [a][1..] == [];
    } else {
      RunOn(Step(s, run[0]), run[1..], a);
      assert (run + [a])[1..] == run[1..] + [a];
    }
  }

  lemma ReachableStep(s: Ledger, a: Action)
    requires Reachable(s) && Enabled(s, a)
    ensures Reachable(Step(s, a))
  {
    hide Enabled, Step;
    var clock, run :| Valid(Initial(clock), run) && Run(Initial(clock), run) == s;
    RunOn(Initial(clock), run, a);
  }

  /** A low-risk automation with one proposal, alone in the ledger. */
  lemma OneProposal(p: Proposal, policy: Policy, principal: Principal) returns (s: Ledger)
    requires MayPropose(map[p.automationId := policy], p, 0)
    ensures Reachable(s) && s.automations == map[p.automationId := policy]
    ensures s.releases == [NewRelease(p, principal)] && s.sessions.Keys == {0}
  {
    assert Valid(Initial(0), []) && Run(Initial(0), []) == Initial(0);
    var synchronize, begin, commit := Synchronize(p.automationId, policy), BeginProposal(0, p, principal), CommitProposal(0);
    var s1 := Initial(0).(automations := map[p.automationId := policy]);
    ReachableStep(Initial(0), synchronize);
    assert Step(Initial(0), synchronize) == s1;
    ReachableStep(s1, begin);
    var s2 := MoveTo(s1, 0, Proposing(p, principal));
    ReachableStep(s2, commit);
    s := CommitProposalStep(s2, 0);
  }

  /** It can happen: a tier raised between the read and the commit. */
  lemma StaleTierIsReachable(p: Proposal, policy: Policy, principal: Principal)
    requires policy.tier.Low? && MayPropose(map[p.automationId := policy], p, 0)
    ensures exists s :: Reachable(s) && Enabled(s, CommitDecision(1)) && CommitBreaksSeparation(s, 1)
  {
    hide MayPropose, CommitProposalStep, CommitDecisionStep, Reachable, Valid, Run;
    var s3 := OneProposal(p, policy, principal);
    ReachableStep(s3, BeginDecision(1, 0, true, "", principal));
    var s4 := MoveTo(s3, 1, Deciding(0, s3.releases[0], Approved, "", principal));
    ReachableStep(s4, ReadPolicy(1));
    var s5 := MoveTo(s4, 1, Cleared(0, Approved, "", principal, Some(Low)));
    assert ReadPolicyStep(s4, 1) == s5;
    var raise := Synchronize(p.automationId, policy.(tier := Critical));
    ReachableStep(s5, raise);
    var s6 := Step(s5, raise);
    assert CommitBreaksSeparation(s6, 1) by {
      assert ApprovesOwn(s6, 1) && HighRiskNow(s6, p.automationId);
      BreaksWhenStale(s6, 1);
    }
  }

  lemma BreaksWhenStale(s: Ledger, session: nat)
    requires ApprovesOwn(s, session)
    requires HighRiskNow(s, s.releases[s.sessions[session].release].proposal.automationId)
    ensures CommitBreaksSeparation(s, session)
  {
  }
}
