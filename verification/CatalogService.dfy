/** The catalog repository as it is written: a loop inside one transaction. */
module CatalogService {
  import opened Prelude
  import opened Catalog

  class CatalogRepository {
    var automations: map<string, CatalogItem>
    var audit: seq<AuditRecord>

    ghost function View(): CatalogState
      reads this
    {
      CatalogState(automations, audit)
    }

    /** Begin, one automation after the other, commit; or roll everything back. */
    method Synchronize(catalog: seq<CatalogItem>, fate: Fate) returns (ok: bool)
      modifies this
      ensures View() == Catalog.Synchronize(old(View()), catalog, fate)
      ensures ok <==> AllMeetChecks(catalog) && fate.Commits?
      ensures DistinctIds(catalog) && ok ==> StoresAll(old(View()), View(), catalog)
      ensures old(ChainInv(View())) ==> ChainInv(View())
    {
      ghost var start := View();
      AttemptFailsExactly(start, catalog, fate);
      if ChainInv(start) {
        SynchronizeKeepsChain(start, catalog, fate);
      }
      if DistinctIds(catalog) && AllMeetChecks(catalog) && fate.Commits? {
        CommittedIsStored(start, catalog, fate);
      }
      hide ChainInv, StoresAll;
      var savedAutomations, savedAudit := automations, audit;
      for i := 0 to |catalog|
        invariant Attempt(start, catalog[..i], fate) == Some(View())
      {
        assert catalog[..i + 1][..i] == catalog[..i];
        assert catalog[..i + 1][i] == catalog[i];
        if !catalog[i].MeetsChecks() || fate == Fails(i) {
          automations, audit := savedAutomations, savedAudit;
          return false;
        }
        SynchronizeAutomation(catalog[i]);
      }
      assert catalog[..|catalog|] == catalog;
      if fate.Fails? {
        automations, audit := savedAutomations, savedAudit;
      }
      return fate == Commits;
    }

    method SynchronizeAutomation(item: CatalogItem)
      modifies this
      ensures View() == Catalog.SynchronizeAutomation(old(View()), item)
      ensures automations == old(automations)[item.id := item] && audit == old(audit) + AuditDue(old(automations), item)
    {
      var existing := ObservedChecksum(automations, item.id);
      automations := automations[item.id := item];
      if existing.None? {
        audit := audit + [AuditRecord(item.id, Registered, None, item.observedChecksum, item.manifestChecksum)];
      } else if existing.value != item.observedChecksum {
        audit := audit + [AuditRecord(item.id, SourceChecksumChanged, existing, item.observedChecksum, item.manifestChecksum)];
      }
    }
  }

  /** Every listed automation has its item as its row, and the audit that was due. */
  predicate StoresAll(before: CatalogState, after: CatalogState, catalog: seq<CatalogItem>) {
    forall i | 0 <= i < |catalog| ::
      && catalog[i].id in after.automations && after.automations[catalog[i].id] == catalog[i]
      && AuditOf(after.audit, catalog[i].id) == AuditOf(before.audit, catalog[i].id) + AuditDue(before.automations, catalog[i])
  }

  lemma CommittedIsStored(s: CatalogState, catalog: seq<CatalogItem>, fate: Fate)
    requires DistinctIds(catalog) && AllMeetChecks(catalog) && !fate.Fails?
    ensures StoresAll(s, Catalog.Synchronize(s, catalog, fate), catalog)
  {
    AttemptFailsExactly(s, catalog, fate);
    forall i | 0 <= i < |catalog|
      ensures var t := Catalog.Synchronize(s, catalog, fate);
              && catalog[i].id in t.automations && t.automations[catalog[i].id] == catalog[i]
              && AuditOf(t.audit, catalog[i].id) == AuditOf(s.audit, catalog[i].id) + AuditDue(s.automations, catalog[i])
    {
      SynchronizeStoresCatalog(s, catalog, fate, i);
    }
  }
}
