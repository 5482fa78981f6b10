/**
  Catalog synchronization: one transaction that upserts the catalog's automations
  in turn and appends an audit record whenever a source checksum is new.
 */
module Catalog {
  import opened Prelude

  /** A loaded manifest, as far as the tables' constraints and the audit depend on it. */
  datatype CatalogItem = CatalogItem(
    id: string,
    manifestVersion: string,
    riskTier: Severity,
    observedChecksum: string,
    manifestChecksum: string,
    expectedSlaSeconds: int,
    alertAfterSeconds: int)
  {
    /** The check constraints on service levels. */
    predicate MeetsChecks() {
      0 < expectedSlaSeconds <= alertAfterSeconds
    }
  }

  datatype AuditEvent = Registered | SourceChecksumChanged

  datatype AuditRecord = AuditRecord(
    automationId: string,
    event: AuditEvent,
    previous: Option<string>,
    current: string,
    manifestChecksum: string)

  datatype CatalogState = CatalogState(automations: map<string, CatalogItem>, audit: seq<AuditRecord>)

  /******* One automation *******/

  function ObservedChecksum(automations: map<string, CatalogItem>, id: string): Option<string> {
    if id in automations then Some(automations[id].observedChecksum) else None
  }

  function SynchronizeAutomation(s: CatalogState, item: CatalogItem): CatalogState {
    var previous := ObservedChecksum(s.automations, item.id);
    var automations := s.automations[item.id := item];
    if previous != Some(item.observedChecksum) then
      CatalogState(automations,
                   s.audit + [AuditRecord(item.id, if previous.None? then Registered else SourceChecksumChanged,
                                          previous, item.observedChecksum, item.manifestChecksum)])
    else
      CatalogState(automations, s.audit)
  }

  /******* The transaction *******/

  /** What becomes of a transaction: it may fail at any item, or at its commit, or commit without telling. */
  datatype Fate = Commits | CommitsUnheard | Fails(at: nat)

  /** The state after a prefix of the catalog, before the commit; None once a statement has failed. */
  function Attempt(s: CatalogState, catalog: seq<CatalogItem>, fate: Fate): Option<CatalogState> {
    if catalog == [] then Some(s)
    else
      match Attempt(s, catalog[..|catalog| - 1], fate)
      case None => None
      case Some(before) =>
        var item := catalog[|catalog| - 1];
        if item.MeetsChecks() && fate != Fails(|catalog| - 1) then Some(SynchronizeAutomation(before, item)) else None
  }

  /** The transaction that gets through its statements fails at the commit if it is to fail at all. */
  function Synchronize(s: CatalogState, catalog: seq<CatalogItem>, fate: Fate): CatalogState {
    var attempted := Attempt(s, catalog, fate);
    if attempted.Some? && !fate.Fails? then attempted.value else s
  }

  datatype Run = Run(catalog: seq<CatalogItem>, fate: Fate)

  function SynchronizeAll(s: CatalogState, runs: seq<Run>): CatalogState {
    if runs == [] then s
    else
      var last := runs[|runs| - 1];
      Synchronize(SynchronizeAll(s, runs[..|runs| - 1]), last.catalog, last.fate)
  }

  /******* The audit chain *******/

  function OfAutomation(id: string): AuditRecord -> bool {
    (record: AuditRecord) => record.automationId == id
  }

  function AuditOf(audit: seq<AuditRecord>, id: string): seq<AuditRecord> {
    Select(audit, OfAutomation(id))
  }

  /** Registered first, then changes that each start from the checksum the previous record left. */
  predicate IsChain(records: seq<AuditRecord>) {
    forall k: nat | k < |records| :: Continues(LastChecksum(records[..k]), records[k])
  }

  predicate Continues(last: Option<string>, record: AuditRecord) {
    && record.previous == last
    && record.previous != Some(record.current)
    && (record.event.Registered? <==> last.None?)
  }

  function LastChecksum(records: seq<AuditRecord>): Option<string> {
    if records == [] then None else Some(records[|records| - 1].current)
  }

  /** An automation's records form a chain that ends at the checksum in its row. */
  predicate ChainEndsAtRow(s: CatalogState, id: string) {
    IsChain(AuditOf(s.audit, id)) && LastChecksum(AuditOf(s.audit, id)) == ObservedChecksum(s.automations, id)
  }

  ghost predicate ChainInv(s: CatalogState) {
    forall id :: ChainEndsAtRow(s, id)
  }

  lemma ChainGrows(records: seq<AuditRecord>, record: AuditRecord)
    requires IsChain(records) && Continues(LastChecksum(records), record)
    ensures IsChain(records + [record])
  {
    var longer := records + [record];
    assert longer[..|records|] == records;
    forall k: nat | k < |longer|
      ensures Continues(LastChecksum(longer[..k]), longer[k])
    {
      if k < |records| {
        assert longer[..k] == records[..k];
      }
    }
  }

  lemma SynchronizeAutomationKeepsChain(s: CatalogState, item: CatalogItem)
    requires ChainInv(s)
    ensures ChainInv(SynchronizeAutomation(s, item))
  {
    var s' := SynchronizeAutomation(s, item);
    var previous := ObservedChecksum(s.automations, item.id);
    var record := AuditRecord(item.id, if previous.None? then Registered else SourceChecksumChanged,
                              previous, item.observedChecksum, item.manifestChecksum);
    forall id
      ensures ChainEndsAtRow(s', id)
    {
      assert ChainEndsAtRow(s, id);
      SelectAppend(s.audit, record, OfAutomation(id));
      if id == item.id && previous != Some(item.observedChecksum) {
        ChainGrows(AuditOf(s.audit, id), record);
      }
    }
  }

  lemma {:induction false} AttemptKeepsChain(s: CatalogState, catalog: seq<CatalogItem>, fate: Fate)
    requires ChainInv(s) && Attempt(s, catalog, fate).Some?
    ensures ChainInv(Attempt(s, catalog, fate).value)
  {
    hide ChainInv, SynchronizeAutomation;
    if catalog != [] {
      AttemptKeepsChain(s, catalog[..|catalog| - 1], fate);
      SynchronizeAutomationKeepsChain(Attempt(s, catalog[..|catalog| - 1], fate).value, catalog[|catalog| - 1]);
    }
  }

  lemma SynchronizeKeepsChain(s: CatalogState, catalog: seq<CatalogItem>, fate: Fate)
    requires ChainInv(s)
    ensures ChainInv(Synchronize(s, catalog, fate))
  {
    hide ChainInv;
    if Attempt(s, catalog, fate).Some? {
      AttemptKeepsChain(s, catalog, fate);
    }
  }

  /** Over any run of synchronizations, however they end, every automation's audit is a chain to its row. */
  lemma {:induction false} AuditIsAChain(runs: seq<Run>)
    ensures ChainInv(SynchronizeAll(CatalogState(map[], []), runs))
  {
    if runs != [] {
      AuditIsAChain(runs[..|runs| - 1]);
      var last := runs[|runs| - 1];
      SynchronizeKeepsChain(SynchronizeAll(CatalogState(map[], []), runs[..|runs| - 1]), last.catalog, last.fate);
    }
  }

  /******* All or nothing, and nothing twice *******/

  predicate AllMeetChecks(catalog: seq<CatalogItem>) {
    forall i | 0 <= i < |catalog| :: catalog[i].MeetsChecks()
  }

  lemma {:induction false} AttemptFailsExactly(s: CatalogState, catalog: seq<CatalogItem>, fate: Fate)
    ensures Attempt(s, catalog, fate).Some? <==> AllMeetChecks(catalog) && !(fate.Fails? && fate.at < |catalog|)
  {
    if catalog != [] {
      AttemptFailsExactly(s, catalog[..|catalog| - 1], fate);
      assert catalog == catalog[..|catalog| - 1] + [catalog[|catalog| - 1]];
    }
  }

  /** Whatever does not fail does the same. */
  lemma {:induction false} AttemptsAgree(s: CatalogState, catalog: seq<CatalogItem>, fate: Fate, fate': Fate)
    requires Attempt(s, catalog, fate).Some? && Attempt(s, catalog, fate').Some?
    ensures Attempt(s, catalog, fate) == Attempt(s, catalog, fate')
  {
    if catalog != [] {
      AttemptsAgree(s, catalog[..|catalog| - 1], fate, fate');
    }
  }

  /**
    A synchronization leaves everything as it was if any statement or the commit
    fails, wherever that is; else what the undisturbed one leaves, whether its caller
    hears of it or not.
   */
  lemma SynchronizeIsAtomic(s: CatalogState, catalog: seq<CatalogItem>, fate: Fate)
    ensures Synchronize(s, catalog, fate)
         == if fate.Fails? || !AllMeetChecks(catalog) then s else Synchronize(s, catalog, Commits)
  {
    AttemptFailsExactly(s, catalog, fate);
    AttemptFailsExactly(s, catalog, Commits);
    if Attempt(s, catalog, fate).Some? && Attempt(s, catalog, Commits).Some? {
      AttemptsAgree(s, catalog, fate, Commits);
    }
  }

  /******* What a synchronization stores and audits *******/

  predicate DistinctIds(catalog: seq<CatalogItem>) {
    forall i, j | 0 <= i < j < |catalog| :: catalog[i].id != catalog[j].id
  }

  predicate Lists(catalog: seq<CatalogItem>, id: string) {
    exists i | 0 <= i < |catalog| :: catalog[i].id == id
  }

  /** What the audit has to say of one listed item, given the row before: nothing if its checksum was known. */
  function AuditDue(before: map<string, CatalogItem>, item: CatalogItem): seq<AuditRecord> {
    if item.id !in before then
      [AuditRecord(item.id, Registered, None, item.observedChecksum, item.manifestChecksum)]
    else if before[item.id].observedChecksum != item.observedChecksum then
      [AuditRecord(item.id, SourceChecksumChanged, Some(before[item.id].observedChecksum), item.observedChecksum, item.manifestChecksum)]
    else
      []
  }

  lemma UnlistedIsUntouched(s: CatalogState, catalog: seq<CatalogItem>, fate: Fate, id: string)
    requires Attempt(s, catalog, fate).Some? && !Lists(catalog, id)
    ensures var t := Attempt(s, catalog, fate).value;
            && (id in t.automations <==> id in s.automations)
            && (id in t.automations ==> t.automations[id] == s.automations[id])
            && AuditOf(t.audit, id) == AuditOf(s.audit, id)
    decreases |catalog|
  {
    if catalog != [] {
      var rest, item := catalog[..|catalog| - 1], catalog[|catalog| - 1];
      assert catalog == rest + [item];
      assert forall i | 0 <= i < |rest| :: rest[i] == catalog[i];
      UnlistedIsUntouched(s, rest, fate, id);
      ItemTouchesItself(Attempt(s, rest, fate).value, item, id);
    }
  }

  /** One item sets its own row to itself and adds its own audit, if any is due. */
  lemma ItemTouchesItself(s: CatalogState, item: CatalogItem, id: string)
    ensures var t := SynchronizeAutomation(s, item);
            && t.automations == s.automations[item.id := item]
            && AuditOf(t.audit, id)
               == if id == item.id then AuditOf(s.audit, id) + AuditDue(s.automations, item) else AuditOf(s.audit, id)
  {
    hide Select;
    var due := AuditDue(s.automations, item);
    AuditsWhatIsDue(s, item);
    if due == [] {
      assert s.audit + due == s.audit;
      assert AuditOf(s.audit, id) + due == AuditOf(s.audit, id);
    } else {
      SelectAppend(s.audit, due[0], OfAutomation(id));
      assert due == [due[0]];
    }
  }

  lemma AuditsWhatIsDue(s: CatalogState, item: CatalogItem)
    ensures SynchronizeAutomation(s, item).audit == s.audit + AuditDue(s.automations, item)
    ensures |AuditDue(s.automations, item)| <= 1
    ensures forall record | record in AuditDue(s.automations, item) :: record.automationId == item.id
  {
  }

  /**
    After a synchronization that commits, every listed automation's row is its item,
    its audit has exactly the record that was due, and everything else is as it was.
   */
  lemma {:induction false} SynchronizeStoresCatalog(s: CatalogState, catalog: seq<CatalogItem>, fate: Fate, i: nat)
    requires DistinctIds(catalog) && i < |catalog| && Attempt(s, catalog, fate).Some?
    ensures var t := Attempt(s, catalog, fate).value;
            && catalog[i].id in t.automations && t.automations[catalog[i].id] == catalog[i]
            && AuditOf(t.audit, catalog[i].id) == AuditOf(s.audit, catalog[i].id) + AuditDue(s.automations, catalog[i])
    decreases |catalog|
  {
    var rest, item := catalog[..|catalog| - 1], catalog[|catalog| - 1];
    assert forall k | 0 <= k < |rest| :: rest[k] == catalog[k];
    var before := Attempt(s, rest, fate).value;
    ItemTouchesItself(before, item, catalog[i].id);
    if i < |rest| {
      SynchronizeStoresCatalog(s, rest, fate, i);
    } else {
      UnlistedIsUntouched(s, rest, fate, item.id);
    }
  }

  /** The constraints on service levels, as the tables state them. */
  lemma ChecksAre(catalog: seq<CatalogItem>)
    ensures AllMeetChecks(catalog) <==>
            forall item | item in catalog :: item.expectedSlaSeconds > 0 && item.alertAfterSeconds >= item.expectedSlaSeconds
  {
    if AllMeetChecks(catalog) {
      forall item | item in catalog
        ensures item.expectedSlaSeconds > 0 && item.alertAfterSeconds >= item.expectedSlaSeconds
      {
        var i :| 0 <= i < |catalog| && catalog[i] == item;
        assert catalog[i].MeetsChecks();
      }
    }
    if forall item | item in catalog :: item.expectedSlaSeconds > 0 && item.alertAfterSeconds >= item.expectedSlaSeconds {
      forall i | 0 <= i < |catalog|
        ensures catalog[i].MeetsChecks()
      {
        assert catalog[i] in catalog;
      }
    }
  }

  /** One id comes with one checksum. The loader refuses repeated ids, so it holds of every catalog it loads. */
  predicate IsConsistent(catalog: seq<CatalogItem>) {
    forall i, j | 0 <= i < j < |catalog| :: catalog[i].id == catalog[j].id ==> catalog[i].observedChecksum == catalog[j].observedChecksum
  }

  /** The rows do not depend on the rows before, where the catalog has the id. */
  lemma {:induction false} RowsComeFromCatalog(s: CatalogState, s': CatalogState, catalog: seq<CatalogItem>, id: string)
    requires Attempt(s, catalog, Commits).Some? && Attempt(s', catalog, Commits).Some?
    ensures var t, t' := Attempt(s, catalog, Commits).value.automations, Attempt(s', catalog, Commits).value.automations;
            if exists i :: 0 <= i < |catalog| && catalog[i].id == id then id in t && id in t' && t[id] == t'[id]
            else (id in t <==> id in s.automations) && (id in t ==> t[id] == s.automations[id])
  {
    if catalog != [] {
      var rest := catalog[..|catalog| - 1];
      RowsComeFromCatalog(s, s', rest, id);
      assert catalog == rest + [catalog[|catalog| - 1]];
      if i :| 0 <= i < |rest| && rest[i].id == id {
        assert catalog[i].id == id;
      }
    }
  }

  lemma RowsSettle(s: CatalogState, catalog: seq<CatalogItem>)
    requires Attempt(s, catalog, Commits).Some? && Attempt(Attempt(s, catalog, Commits).value, catalog, Commits).Some?
    ensures var once := Attempt(s, catalog, Commits).value;
            Attempt(once, catalog, Commits).value.automations == once.automations
  {
    var once := Attempt(s, catalog, Commits).value;
    var twice := Attempt(once, catalog, Commits).value;
    forall id
      ensures id in twice.automations <==> id in once.automations
      ensures id in once.automations ==> twice.automations[id] == once.automations[id]
    {
      RowsComeFromCatalog(once, s, catalog, id);
    }
  }

  /** Nothing is audited exactly if every item finds, and leaves, its own checksum. */
  lemma {:induction false} UnauditedMeansKnown(s: CatalogState, catalog: seq<CatalogItem>)
    requires Attempt(s, catalog, Commits).Some?
    ensures var t := Attempt(s, catalog, Commits).value;
            && |s.audit| <= |t.audit|
            && (t.audit == s.audit ==>
                  forall i | 0 <= i < |catalog| ::
                    ObservedChecksum(t.automations, catalog[i].id) == Some(catalog[i].observedChecksum))
  {
    if catalog != [] {
      var rest := catalog[..|catalog| - 1];
      UnauditedMeansKnown(s, rest);
      var before := Attempt(s, rest, Commits).value;
      var t := Attempt(s, catalog, Commits).value;
      if t.audit == s.audit {
        assert |before.audit| == |s.audit|;
        assert before.audit == s.audit;
        assert forall i | 0 <= i < |rest| :: rest[i] == catalog[i];
      }
    }
  }

  lemma {:induction false} KnownMeansUnaudited(s: CatalogState, catalog: seq<CatalogItem>)
    requires Attempt(s, catalog, Commits).Some?
    requires forall i | 0 <= i < |catalog| ::
               ObservedChecksum(s.automations, catalog[i].id) == Some(catalog[i].observedChecksum)
    ensures Attempt(s, catalog, Commits).value.audit == s.audit
    ensures forall id :: ObservedChecksum(Attempt(s, catalog, Commits).value.automations, id) == ObservedChecksum(s.automations, id)
  {
    if catalog != [] {
      var rest := catalog[..|catalog| - 1];
      assert forall i | 0 <= i < |rest| :: rest[i] == catalog[i];
      KnownMeansUnaudited(s, rest);
    }
  }

  lemma {:induction false} ConsistentIsKnown(s: CatalogState, catalog: seq<CatalogItem>)
    requires Attempt(s, catalog, Commits).Some? && IsConsistent(catalog)
    ensures forall i | 0 <= i < |catalog| ::
              ObservedChecksum(Attempt(s, catalog, Commits).value.automations, catalog[i].id) == Some(catalog[i].observedChecksum)
  {
    if catalog != [] {
      var rest := catalog[..|catalog| - 1];
      assert forall i | 0 <= i < |rest| :: rest[i] == catalog[i];
      ConsistentIsKnown(s, rest);
    }
  }

  /**
    Synchronizing the same catalog again changes neither rows nor audit, if and only
    if it fails a check or lists no id with two checksums.
   */
  lemma ResynchronizationChangesNothing(s: CatalogState, catalog: seq<CatalogItem>)
    ensures Synchronize(Synchronize(s, catalog, Commits), catalog, Commits) == Synchronize(s, catalog, Commits)
       <==> !AllMeetChecks(catalog) || IsConsistent(catalog)
  {
    AttemptFailsExactly(s, catalog, Commits);
    if AllMeetChecks(catalog) {
      var once := Attempt(s, catalog, Commits).value;
      AttemptFailsExactly(once, catalog, Commits);
      RowsSettle(s, catalog);
      UnauditedMeansKnown(once, catalog);
      if IsConsistent(catalog) {
        ConsistentIsKnown(s, catalog);
        KnownMeansUnaudited(once, catalog);
      }
    }
  }

  predicate AllOf(runs: seq<Run>, catalog: seq<CatalogItem>) {
    forall i | 0 <= i < |runs| :: runs[i].catalog == catalog
  }

  /** However many attempts at a catalog failed or were not heard of, a complete one leaves what one alone would. */
  lemma {:induction false} RetriesConverge(s: CatalogState, catalog: seq<CatalogItem>, runs: seq<Run>)
    requires IsConsistent(catalog) && AllOf(runs, catalog)
    ensures SynchronizeAll(s, runs) == s || SynchronizeAll(s, runs) == Synchronize(s, catalog, Commits)
    ensures Synchronize(SynchronizeAll(s, runs), catalog, Commits) == Synchronize(s, catalog, Commits)
  {
    hide Synchronize, IsConsistent;
    ResynchronizationChangesNothing(s, catalog);
    if runs != [] {
      RetriesConverge(s, catalog, runs[..|runs| - 1]);
      SynchronizeIsAtomic(SynchronizeAll(s, runs[..|runs| - 1]), catalog, runs[|runs| - 1].fate);
    }
  }
}
