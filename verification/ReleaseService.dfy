/** The release repository and service as they are written; each call is the uninterrupted run of its session. */
module ReleaseService {
  import opened Prelude
  import opened ReleaseLedger

  datatype ServiceError = NotFound | BadRequest | Conflict | ConnectionFailed

  datatype CreateError = UniqueViolation | QueryFailed

  predicate IsProposed(releases: seq<Release>, id: nat) {
    id < |releases| && releases[id].status.Proposed?
  }

  class ReleaseRepository {
    var automations: map<string, Policy>
    var releases: seq<Release>
    var history: seq<ReleaseEntry>
    ghost var clearances: map<nat, Option<Severity>>

    ghost function View(clock: Instant): Ledger
      reads this
    {
      Ledger(clock, automations, releases, history, clearances, map[])
    }

    /** Inserts the release and its history, or neither: exactly if the slot is free and the transaction commits. */
    method Create(proposal: Proposal, principal: Principal, connection: Connection) returns (r: Result<Release, CreateError>)
      modifies this`releases, this`history
      ensures r == if connection == Refused then Err(QueryFailed)
                   else if HasSlot(old(releases), SlotOf(proposal)) then Err(UniqueViolation)
                   else if connection == Lost then Err(QueryFailed)
                   else Ok(Release(proposal, principal, Proposed, None))
      ensures if connection != Refused && !HasSlot(old(releases), SlotOf(proposal)) then
                && releases == old(releases) + [Release(proposal, principal, Proposed, None)]
                && history == old(history) + [ReleaseEntry(|old(releases)|, Proposed, principal, PROPOSAL_NOTE)]
              else
                releases == old(releases) && history == old(history)
    {
      if connection == Refused {
        return Err(QueryFailed);
      }
      TakenSlots(releases, proposal);
      if SlotTaken(releases, proposal) {
        return Err(UniqueViolation);
      }
      var release := Release(proposal, principal, Proposed, None);
      history := history + [ReleaseEntry(|releases|, Proposed, principal, PROPOSAL_NOTE)];
      releases := releases + [release];
      return if connection == Healthy then Ok(release) else Err(QueryFailed);
    }

    /** Decides the row and appends the decision, or neither: exactly if it is still proposed and the transaction commits. */
    method Decide(
        id: nat, status: ReleaseStatus, rationale: string, principal: Principal, now: Instant, connection: Connection,
        ghost tier: Option<Severity>)
      returns (r: Result<Option<Release>, ServiceError>)
      modifies this`releases, this`history, this`clearances
      ensures r.Ok? <==> connection == Healthy
      ensures r.Ok? ==>
                r.value == if IsProposed(old(releases), id)
                           then Some(old(releases)[id].(status := status, decision := Some(Decision(principal, rationale, now)))) else None
      ensures r.Err? ==> r.error == ConnectionFailed
      ensures if IsProposed(old(releases), id) && connection != Refused then
                && releases
                   == old(releases)[id := old(releases)[id].(status := status, decision := Some(Decision(principal, rationale, now)))]
                && history == old(history) + [ReleaseEntry(id, status, principal, rationale)]
                && clearances == old(clearances)[id := tier]
              else
                View(now) == old(View(now))
    {
      if connection == Refused {
        return Err(ConnectionFailed);
      }
      if id >= |releases| || releases[id].status != Proposed {
        return if connection == Healthy then Ok(None) else Err(ConnectionFailed);
      }
      var release := releases[id].(status := status, decision := Some(Decision(principal, rationale, now)));
      releases := releases[id := release];
      history := history + [ReleaseEntry(id, status, principal, rationale)];
      clearances := clearances[id := tier];
      return if connection == Healthy then Ok(Some(release)) else Err(ConnectionFailed);
    }
  }

  class ReleaseService {
    const repository: ReleaseRepository

    constructor (repository: ReleaseRepository)
      ensures this.repository == repository
    {
      this.repository := repository;
    }

    /** An error leaves no release behind, except that of a commit whose answer was lost. */
    method Propose(proposal: Proposal, principal: Principal, now: Instant, connection: Connection)
      returns (r: Result<Release, ServiceError>)
      modifies repository
      ensures r.Ok? <==>
              && MatchesPolicy(repository.automations, proposal, now)
              && !HasSlot(old(repository.releases), SlotOf(proposal))
              && connection == Healthy
      ensures r == Err(NotFound) <==> proposal.automationId !in repository.automations
      ensures r == Err(Conflict) <==>
                && proposal.automationId in repository.automations
                && var policy := repository.automations[proposal.automationId];
                   && proposal.environment in policy.environments
                   && (proposal.manifestVersion == policy.manifestVersion && proposal.artifactChecksum == policy.observedChecksum ==>
                         && proposal.evidenceExpiresAt > now
                         && HasSlot(old(repository.releases), SlotOf(proposal)) && connection != Refused)
      ensures r.Ok? ==> r.value == Release(proposal, principal, Proposed, None)
      ensures if && MatchesPolicy(repository.automations, proposal, now)
                 && !HasSlot(old(repository.releases), SlotOf(proposal)) && connection != Refused
              then
                && repository.releases == old(repository.releases) + [Release(proposal, principal, Proposed, None)]
                && repository.history
                   == old(repository.history) + [ReleaseEntry(|old(repository.releases)|, Proposed, principal, PROPOSAL_NOTE)]
              else
                repository.View(now) == old(repository.View(now))
      ensures repository.automations == old(repository.automations)
      ensures old(Inv(repository.View(now))) ==> Inv(repository.View(now))
    {
      ghost var before := repository.View(now);
      if proposal.automationId !in repository.automations {
        return Err(NotFound);
      }
      var policy := repository.automations[proposal.automationId];
      if proposal.environment !in policy.environments {
        return Err(BadRequest);
      }
      if proposal.manifestVersion != policy.manifestVersion || proposal.artifactChecksum != policy.observedChecksum {
        return Err(Conflict);
      }
      if proposal.evidenceExpiresAt <= now {
        return Err(BadRequest);
      }
      TakenSlots(repository.releases, proposal);
      var created := repository.Create(proposal, principal, connection);
      if Inv(before) && repository.View(now) != before {
        ProposalKeepsInv(before, proposal, principal);
      }
      if created.Err? {
        return Err(if created.error == UniqueViolation then Conflict else ConnectionFailed);
      }
      return Ok(created.value);
    }

    /** An error leaves the release undecided by this call, except that of a commit whose answer was lost. */
    method Decide(id: nat, approve: bool, rationale: string, principal: Principal, now: Instant, connection: Connection)
      returns (r: Result<Release, ServiceError>)
      modifies repository
      ensures r == Err(NotFound) <==> id >= |old(repository.releases)|
      ensures r.Ok? <==> old(MayDecide(repository.View(now), id, approve, principal)) && connection == Healthy
      ensures r.Ok? ==>
                r.value == old(repository.releases)[id].(status := if approve then Approved else Rejected,
                                                          decision := Some(Decision(principal, rationale, now)))
      ensures var status := if approve then Approved else Rejected;
              if old(MayDecide(repository.View(now), id, approve, principal)) && connection != Refused then
                && repository.releases
                   == old(repository.releases)[id := old(repository.releases)[id].(
                                                status := status, decision := Some(Decision(principal, rationale, now)))]
                && repository.history == old(repository.history) + [ReleaseEntry(id, status, principal, rationale)]
              else
                repository.View(now) == old(repository.View(now))
      ensures old(Inv(repository.View(now))) ==> Inv(repository.View(now))
    {
      ghost var before := repository.View(now);
      if id >= |repository.releases| {
        return Err(NotFound);
      }
      var current := repository.releases[id];
      var policy := if current.proposal.automationId in repository.automations
        then Some(repository.automations[current.proposal.automationId]) else None;
      if approve && policy.Some?
         && RequiresIndependentApproval(policy.value.tier, current.proposer.subject, principal.subject) {
        return Err(Conflict);
      }
      ghost var tier := if policy.Some? then Some(policy.value.tier) else None;
      var status := if approve then Approved else Rejected;
      var decided := repository.Decide(id, status, rationale, principal, now, connection, tier);
      if Inv(before) && repository.View(now) != before {
        UninterruptedDecisionKeepsInv(before, id, status, rationale, principal, tier);
      }
      if decided.Err? {
        return Err(decided.error);
      }
      if decided.value.None? {
        return Err(Conflict);
      }
      return Ok(decided.value.value);
    }
  }

  /** The registered policy has the proposal's manifest, artifact and environment, and its evidence is good beyond now. */
  predicate MatchesPolicy(automations: map<string, Policy>, p: Proposal, now: Instant) {
    exists id | id in automations :: id == p.automationId && PolicyFits(automations[id], p) && now < p.evidenceExpiresAt
  }

  predicate PolicyFits(policy: Policy, p: Proposal) {
    policy.manifestVersion == p.manifestVersion && policy.observedChecksum == p.artifactChecksum && p.environment in policy.environments
  }

  /** The release is still proposed, and this is not its proposer's own approval of a high-risk release. */
  predicate MayDecide(s: Ledger, id: nat, approve: bool, principal: Principal) {
    && IsProposed(s.releases, id)
    && !(&& approve
         && HighRiskNow(s, s.releases[id].proposal.automationId)
         && s.releases[id].proposer.subject == principal.subject)
  }

  /** A decision whose session nobody interrupts is the session's commit. */
  lemma UninterruptedDecisionKeepsInv(
      s: Ledger, id: nat, status: ReleaseStatus, rationale: string, principal: Principal, tier: Option<Severity>)
    requires Inv(s) && s.sessions == map[] && id < |s.releases| && s.releases[id].status.Proposed? && !status.Proposed?
    requires tier.Some?
    requires status.Approved? ==> !RequiresIndependentApproval(tier.value, s.releases[id].proposer.subject, principal.subject)
    ensures Inv(s.(releases := s.releases[id := Decided(s.releases[id], status, principal, rationale, s.clock)],
                history := s.history + [ReleaseEntry(id, status, principal, rationale)],
                clearances := s.clearances[id := tier]))
  {
    hide HistoryOf, PROPOSAL_NOTE;
    var cleared := MoveTo(s, 0, Cleared(id, status, rationale, principal, tier));
    MoveKeepsInv(s, 0, cleared.sessions[0]);
    CommitDecisionKeepsInv(cleared, 0);
    SessionsDoNotMatter(CommitDecisionStep(cleared, 0));
  }

  lemma SessionsDoNotMatter(s: Ledger)
    requires Inv(s)
    ensures Inv(s.(sessions := map[]))
  {
    hide HistoryOf, PROPOSAL_NOTE;
    var s' := s.(sessions := map[]);
    forall i: nat | i < |s.releases|
      ensures Independent(s', i) && Tells(HistoryOf(s'.history, i), i, s'.releases[i])
    {
      assert Independent(s, i) && Tells(HistoryOf(s.history, i), i, s.releases[i]);
    }
  }
}
