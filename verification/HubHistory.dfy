/** What the catalog promises over whole histories of calls. */
module HubHistory {
  import opened Collections
  import opened HubCatalog
  import opened HubRuns
  import opened Text

  /** Any state of a hub that started empty. */
  function After(h: Hashes, calls: seq<Call>): Catalog {
    Run(h, EMPTY, calls)
  }

  lemma {:induction false} RunFromKeepsInv(h: Hashes, c: Catalog, calls: seq<Call>)
    requires Inv(h, c)
    ensures Inv(h, Run(h, c, calls))
    decreases |calls|
  {
    hide Inv, Apply;
    if calls != [] {
      RunFromKeepsInv(h, c, calls[..|calls| - 1]);
      ApplyKeepsInv(h, Run(h, c, calls[..|calls| - 1]), calls[|calls| - 1]);
    }
  }

  // --- provenance ---

  /** Outcome evidence is asset evidence, which is bundle evidence, which has a frozen copy. */
  lemma {:induction false} OutcomeEvidenceIsFrozen(h: Hashes, calls: seq<Call>, o: Id, e: Id)
    requires o in After(h, calls).outcomes && e in After(h, calls).outcomes[o].evidenceIds
    ensures var c := After(h, calls);
            && c.outcomes[o].assetId in c.assets
            && var asset := c.assets[c.outcomes[o].assetId];
            && e in asset.evidenceIds
            && LineageBundle(c, asset).Some?
            && var bundle := LineageBundle(c, asset).value;
            && bundle.bundleId in c.bundles && c.bundles[bundle.bundleId] == bundle
            && e in bundle.evidenceIds
            && FrozenKey(bundle.bundleId, e) in c.frozen && c.frozen[FrozenKey(bundle.bundleId, e)].evidenceId == e
  {
    RunKeepsInv(h, calls);
    hide Run, LogOk, LineageOk, SnapshotOk, ValidBundle;
    var c := After(h, calls);
    assert OutcomeOk(c, o);
    var asset := c.assets[c.outcomes[o].assetId];
    assert AssetOk(c, c.outcomes[o].assetId);
    assert BundleOk(c, LineageBundleId(c, asset));
  }

  function LineageBundleId(c: Catalog, a: Asset): Id {
    if a.bundleId.Some? then a.bundleId.value
    else if a.caseId.Some? && a.caseId.value in c.cases then c.cases[a.caseId.value].bundleId
    else ""
  }

  // --- bundles resolve, identically, forever ---

  lemma {:induction false} FrozenItemsComplete(c: Catalog, b: Bundle, k: nat)
    requires k <= |b.evidenceIds|
    requires forall e | e in b.evidenceIds :: FrozenKey(b.bundleId, e) in c.frozen
    ensures FrozenItems(c, b, k).Ok?
    ensures var items := FrozenItems(c, b, k).value;
            |items| == k && forall i | 0 <= i < k :: items[i] == c.frozen[FrozenKey(b.bundleId, b.evidenceIds[i])]
    decreases k
  {
    if k > 0 { FrozenItemsComplete(c, b, k - 1); }
  }

  lemma {:induction false} FrozenItemsStay(c: Catalog, d: Catalog, b: Bundle, k: nat)
    requires k <= |b.evidenceIds| && Kept(c.frozen, d.frozen) && FrozenItems(c, b, k).Ok?
    ensures FrozenItems(d, b, k) == FrozenItems(c, b, k)
    decreases k
  {
    if k > 0 { FrozenItemsStay(c, d, b, k - 1); }
  }

  /** A registered bundle resolves: one item per member, in the bundle's order. */
  lemma {:induction false} RegisteredBundleResolves(h: Hashes, calls: seq<Call>, b: Id)
    requires b in After(h, calls).bundles
    ensures var r := Resolve(After(h, calls), b);
            && r.Ok? && r.value.0 == After(h, calls).bundles[b] && |r.value.1| == |r.value.0.evidenceIds|
            && forall i | 0 <= i < |r.value.1| :: r.value.1[i].evidenceId == r.value.0.evidenceIds[i]
  {
    RunKeepsInv(h, calls);
    hide Run, LogOk, LineageOk, SnapshotOk, RecordsOk, ValidBundle;
    var c := After(h, calls);
    assert BundleOk(c, b);
    FrozenItemsComplete(c, c.bundles[b], |c.bundles[b].evidenceIds|);
  }

  /** Whatever is called later, the bundle resolves to the same record and the same items. */
  lemma {:induction false} ResolutionIsForever(h: Hashes, calls: seq<Call>, later: seq<Call>, b: Id)
    requires b in After(h, calls).bundles
    ensures Resolve(Run(h, After(h, calls), later), b) == Resolve(After(h, calls), b)
    ensures Resolve(After(h, calls), b).Ok?
  {
    RegisteredBundleResolves(h, calls, b);
    RunExtends(h, After(h, calls), later);
    hide Run;
    var c, d := After(h, calls), Run(h, After(h, calls), later);
    FrozenItemsStay(c, d, c.bundles[b], |c.bundles[b].evidenceIds|);
  }

  /** A new bundle freezes the rows that are current when it is registered. */
  lemma {:induction false} NewBundleFreezesCurrentRows(c: Catalog, b: Bundle)
    requires ValidBundle(b) && b.bundleId !in c.bundles && WithBundle(c, b).Ok?
    ensures var d := WithBundle(c, b).value.0;
            && AllCurrent(c, b.evidenceIds) && Resolve(d, b.bundleId).Ok? && Resolve(d, b.bundleId).value.0 == b
            && |Resolve(d, b.bundleId).value.1| == |b.evidenceIds|
            && forall i | 0 <= i < |b.evidenceIds| :: Resolve(d, b.bundleId).value.1[i] == c.items[b.evidenceIds[i]]
  {
    FrozenKeeps(c, b, |b.evidenceIds|);
    hide Frozen, FrozenIds, IdSet, Distinct, FrozenItems;
    FrozenItemsComplete(WithBundle(c, b).value.0, b, |b.evidenceIds|);
  }

  // --- lineage ---

  /** The call is a refresh or a sync that commits. */
  predicate Lands(c: Catalog, call: Call) {
    match call
    case Refresh(sources, items, aborted) => !aborted && ValidSnapshot(sources, items)
    case Sync(source, items, aborted) =>
      !aborted && ValidSnapshot([source], items) && ValidCombination(c, source, items)
    case _ => false
  }

  function CallSources(call: Call): seq<Source> {
    match call
    case Refresh(sources, _, _) => sources
    case Sync(source, _, _) => [source]
    case _ => []
  }

  function CallItems(call: Call): seq<Item> {
    match call
    case Refresh(_, items, _) => items
    case Sync(_, items, _) => items
    case _ => []
  }

  /** The call commits, and lists this evidence id. */
  predicate Commits(c: Catalog, call: Call, e: Id) {
    Lands(c, call) && Listed(CallItems(call), e)
  }

  predicate EverCommitted(h: Hashes, c: Catalog, calls: seq<Call>, e: Id)
    decreases |calls|
  {
    calls != [] && (
      || EverCommitted(h, c, calls[..|calls| - 1], e)
      || Commits(Run(h, c, calls[..|calls| - 1]), calls[|calls| - 1], e))
  }

  lemma {:induction false} ArchivedOnlyListed(
      h: Hashes, m: map<Id, LineageItem>, sources: seq<Source>, items: seq<Item>, k: nat, e: Id)
    requires k <= |items| && forall i | 0 <= i < |items| :: items[i].sourceId in SourceIds(sources)
    ensures e in ArchivedItems(h, m, sources, items, k)
        <==> e in m || exists i :: 0 <= i < k && items[i].evidenceId == e
    decreases k
  {
    hide LineageId, SourceOf, SourceIds;
    if k > 0 {
      ArchivedOnlyListed(h, m, sources, items, k - 1, e);
      if items[k - 1].evidenceId == e { assert e in ArchivedItems(h, m, sources, items, k); }
    }
  }

  lemma {:induction false} RefreshArchives(h: Hashes, c: Catalog, sources: seq<Source>, items: seq<Item>)
    requires ValidSnapshot(sources, items)
    ensures Refreshed(h, c, sources, items).lineageItems == ArchivedItems(h, c.lineageItems, sources, items, |items|)
    ensures forall e :: e in Refreshed(h, c, sources, items).lineageItems <==> e in c.lineageItems || Listed(items, e)
  {
    forall e ensures e in ArchivedItems(h, c.lineageItems, sources, items, |items|)
      <==> e in c.lineageItems || Listed(items, e) {
      ArchivedOnlyListed(h, c.lineageItems, sources, items, |items|, e);
    }
    hide DigestOf, ChangeCounts, MaxSequence, ArchivedItems, ArchivedSources, WithSources, WithItems, Distinct,
         SourceIds;
  }

  lemma {:induction false} SyncArchives(h: Hashes, c: Catalog, source: Source, items: seq<Item>)
    requires ValidSnapshot([source], items)
    ensures Synced(h, c, source, items).lineageItems == ArchivedItems(h, c.lineageItems, [source], items, |items|)
    ensures forall e :: e in Synced(h, c, source, items).lineageItems <==> e in c.lineageItems || Listed(items, e)
  {
    forall e ensures e in ArchivedItems(h, c.lineageItems, [source], items, |items|)
      <==> e in c.lineageItems || Listed(items, e) {
      ArchivedOnlyListed(h, c.lineageItems, [source], items, |items|, e);
    }
    hide DigestOf, ChangeCounts, MaxSequence, ArchivedItems, ArchivedSources, WithItems, Distinct, SourceIds,
         OtherItems, OtherSources;
  }

  /** Snapshot, lineage and log are untouched. */
  predicate SameSnapshot(c: Catalog, d: Catalog) {
    && d.sources == c.sources && d.items == c.items && d.lineageSources == c.lineageSources
    && d.lineageItems == c.lineageItems && d.receipts == c.receipts && d.snapshotSha == c.snapshotSha
  }

  lemma {:induction false} OnlyBundles(c: Catalog, b: Bundle)
    requires ValidBundle(b) && WithBundle(c, b).Ok?
    ensures SameSnapshot(c, WithBundle(c, b).value.0)
  {
    hide Frozen, FrozenIds, IdSet;
  }

  lemma {:induction false} OnlyCases(h: Hashes, c: Catalog, r: CaseRequest)
    requires WithCase(h, c, r).Ok?
    ensures SameSnapshot(c, WithCase(h, c, r).value.0)
  {
  }

  lemma {:induction false} OnlyAssets(h: Hashes, c: Catalog, a: Asset)
    requires WithAsset(h, c, a).Ok?
    ensures SameSnapshot(c, WithAsset(h, c, a).value.0)
  {
    hide AssetAccepted;
  }

  lemma {:induction false} OnlyOutcomes(h: Hashes, c: Catalog, o: Outcome)
    requires WithOutcome(h, c, o).Ok?
    ensures SameSnapshot(c, WithOutcome(h, c, o).value.0)
  {
    hide OutcomeAccepted;
  }

  /** Registering a record leaves snapshot, lineage and log alone. */
  lemma {:induction false} RegistrationKeepsSnapshot(h: Hashes, c: Catalog, call: Call)
    requires !call.Refresh? && !call.Sync?
    ensures SameSnapshot(c, Apply(h, c, call)) && forall e :: !Commits(c, call, e)
  {
    hide WithBundle, WithCase, WithAsset, WithOutcome, ValidBundle;
    match call
    case RegisterBundle(b) => if ValidBundle(b) && WithBundle(c, b).Ok? { OnlyBundles(c, b); }
    case RegisterCase(r) => if WithCase(h, c, r).Ok? { OnlyCases(h, c, r); }
    case RegisterAsset(a) => if WithAsset(h, c, a).Ok? { OnlyAssets(h, c, a); }
    case RegisterOutcome(o) => if WithOutcome(h, c, o).Ok? { OnlyOutcomes(h, c, o); }
  }

  lemma {:induction false} ApplyRefreshArchives(
      h: Hashes, c: Catalog, sources: seq<Source>, items: seq<Item>, aborted: bool, e: Id)
    ensures e in AfterRefresh(h, c, sources, items, aborted).lineageItems <==>
            e in c.lineageItems || Commits(c, Refresh(sources, items, aborted), e)
  {
    hide Refreshed, ArchivedItems, MaxSequence, ValidSnapshot, Listed;
    if !aborted && ValidSnapshot(sources, items) { RefreshArchives(h, c, sources, items); }
  }

  lemma {:induction false} ApplySyncArchives(
      h: Hashes, c: Catalog, source: Source, items: seq<Item>, aborted: bool, e: Id)
    ensures e in AfterSync(h, c, source, items, aborted).lineageItems <==>
            e in c.lineageItems || Commits(c, Sync(source, items, aborted), e)
  {
    hide Synced, MaxSequence, ValidCombination, ValidSnapshot, Listed;
    if !aborted && ValidSnapshot([source], items) { SyncArchives(h, c, source, items); }
  }

  lemma {:induction false} ApplyArchives(h: Hashes, c: Catalog, call: Call, e: Id)
    ensures e in Apply(h, c, call).lineageItems <==> e in c.lineageItems || Commits(c, call, e)
  {
    hide AfterRefresh, AfterSync, Commits, WithBundle, WithCase, WithAsset, WithOutcome, ValidBundle;
    match call
    case Refresh(sources, items, aborted) => ApplyRefreshArchives(h, c, sources, items, aborted, e);
    case Sync(source, items, aborted) => ApplySyncArchives(h, c, source, items, aborted, e);
    case _ => RegistrationKeepsSnapshot(h, c, call);
  }

  lemma {:induction false} ArchiveIsWhatWasCommitted(h: Hashes, c: Catalog, calls: seq<Call>, e: Id)
    ensures e in Run(h, c, calls).lineageItems <==> e in c.lineageItems || EverCommitted(h, c, calls, e)
    decreases |calls|
  {
    hide Apply, Commits;
    if calls != [] {
      ArchiveIsWhatWasCommitted(h, c, calls[..|calls| - 1], e);
      ApplyArchives(h, Run(h, c, calls[..|calls| - 1]), calls[|calls| - 1], e);
    }
  }

  lemma {:induction false} QueriesAgree(h: Hashes, c: Catalog, e: Id)
    requires Inv(h, c)
    ensures GetEvidence(c, e).Some? <==> e in c.lineageItems
    ensures GetLineage(c, e).Some? <==> e in c.lineageItems
    ensures GetLineage(c, e).Some? ==>
              GetEvidence(c, e) == Some(GetLineage(c, e).value.0) && GetLineage(c, e).value.0.evidenceId == e
    ensures GetLineage(c, e).Some? && e in c.items ==>
              GetLineage(c, e).value.1.sourceId == GetLineage(c, e).value.0.sourceId
  {
    hide LogOk, RecordsOk, BundlesOk;
    if e in c.lineageItems { assert LineageRowOk(c, e); }
  }

  /** Evidence is found, with a source record, exactly if some refresh or sync committed it. */
  lemma {:induction false} FoundIffCommitted(h: Hashes, calls: seq<Call>, e: Id)
    ensures var c := After(h, calls);
            && (GetEvidence(c, e).Some? <==> EverCommitted(h, EMPTY, calls, e))
            && (GetLineage(c, e).Some? <==> EverCommitted(h, EMPTY, calls, e))
            && (GetLineage(c, e).Some? ==>
                 GetEvidence(c, e) == Some(GetLineage(c, e).value.0) && GetLineage(c, e).value.0.evidenceId == e)
  {
    RunKeepsInv(h, calls);
    ArchiveIsWhatWasCommitted(h, EMPTY, calls, e);
    hide Run, Inv, EverCommitted, GetEvidence, GetLineage;
    QueriesAgree(h, After(h, calls), e);
  }

  /** Once found, always found. */
  lemma {:induction false} FoundForever(h: Hashes, calls: seq<Call>, later: seq<Call>, e: Id)
    requires GetEvidence(After(h, calls), e).Some?
    ensures GetEvidence(Run(h, After(h, calls), later), e).Some?
    ensures GetLineage(Run(h, After(h, calls), later), e).Some?
  {
    RunKeepsInv(h, calls);
    QueriesAgree(h, After(h, calls), e);
    RunFromKeepsInv(h, After(h, calls), later);
    RunExtends(h, After(h, calls), later);
    hide Run, Inv, GetEvidence, GetLineage;
    QueriesAgree(h, Run(h, After(h, calls), later), e);
  }

  // --- the source record of archived evidence ---

  function CommittedSources(h: Hashes, calls: seq<Call>): set<Source>
    decreases |calls|
  {
    if calls == [] then {} else
    var front, last := calls[..|calls| - 1], calls[|calls| - 1];
    CommittedSources(h, front) + (if Lands(After(h, front), last) then set s | s in CallSources(last) else {})
  }

  /** The lineage hash does not confuse two source ids among these sources. */
  predicate Separates(h: Hashes, sources: set<Source>) {
    forall a, b | a in sources && b in sources && LineageId(h, a) == LineageId(h, b) :: a.sourceId == b.sourceId
  }

  /** The row names the lineage id of one of these sources, which has the source id of the item. */
  predicate RowFrom(h: Hashes, sources: set<Source>, row: LineageItem) {
    exists s :: s in sources && s.sourceId == row.item.sourceId && LineageId(h, s) == row.lineageSourceId
  }

  /** The archive was filled from these sources. */
  predicate LineageFrom(h: Hashes, c: Catalog, sources: set<Source>) {
    && (forall l | l in c.lineageSources :: c.lineageSources[l] in sources && LineageId(h, c.lineageSources[l]) == l)
    && (forall e | e in c.lineageItems :: RowFrom(h, sources, c.lineageItems[e]))
  }

  lemma {:induction false} ArchiveFrom(
      h: Hashes, c: Catalog, known: set<Source>, sources: seq<Source>, items: seq<Item>, d: Catalog)
    requires LineageFrom(h, c, known)
    requires forall i | 0 <= i < |items| :: items[i].sourceId in SourceIds(sources)
    requires d.lineageSources == Archive(h, c, sources, items).lineageSources
    requires d.lineageItems == Archive(h, c, sources, items).lineageItems
    ensures LineageFrom(h, d, known + set s | s in sources)
  {
    var all := known + set s | s in sources;
    hide ArchivedSources, ArchivedItems, LineageId, SourceIds;
    forall l | l in d.lineageSources ensures d.lineageSources[l] in all && LineageId(h, d.lineageSources[l]) == l {
      ArchivedSourcesOrigin(h, c.lineageSources, sources, |sources|, l);
    }
    forall e | e in d.lineageItems ensures RowFrom(h, all, d.lineageItems[e]) {
      ArchivedItemsOrigin(h, c.lineageItems, sources, items, |items|, e);
      var row := d.lineageItems[e];
      if e in c.lineageItems && row == c.lineageItems[e] {
        var s :| s in known && s.sourceId == row.item.sourceId && LineageId(h, s) == row.lineageSourceId;
        assert s in all;
      } else {
        var i :| 0 <= i < |sources| && sources[i].sourceId == row.item.sourceId
          && row.lineageSourceId == LineageId(h, sources[i]);
        assert sources[i] in all;
      }
    }
  }

  lemma {:induction false} ApplyFrom(h: Hashes, c: Catalog, call: Call, known: set<Source>)
    requires LineageFrom(h, c, known)
    ensures LineageFrom(h, Apply(h, c, call), known + if Lands(c, call) then set s | s in CallSources(call) else {})
  {
    hide LineageFrom, ArchivedItems, ArchivedSources, WithSources, WithItems, OtherItems, OtherSources, DigestOf,
         ChangeCounts, MaxSequence, Distinct, SourceIds, ItemIds, ValidCombination;
    assert known + {} == known;
    match call
    case Refresh(sources, items, aborted) =>
      if Lands(c, call) { ArchiveFrom(h, c, known, sources, items, Apply(h, c, call)); }
      else { SameLineage(h, c, Apply(h, c, call), known); }
    case Sync(source, items, aborted) =>
      if Lands(c, call) { ArchiveFrom(h, c, known, [source], items, Apply(h, c, call)); }
      else { SameLineage(h, c, Apply(h, c, call), known); }
    case _ =>
      hide Apply;
      RegistrationKeepsSnapshot(h, c, call);
      SameLineage(h, c, Apply(h, c, call), known);
  }

  lemma {:induction false} SameLineage(h: Hashes, c: Catalog, d: Catalog, known: set<Source>)
    requires LineageFrom(h, c, known) && d.lineageSources == c.lineageSources && d.lineageItems == c.lineageItems
    ensures LineageFrom(h, d, known)
  {
    hide RowFrom, LineageId;
  }

  /** After any calls the archive was filled from the sources that the calls committed. */
  lemma {:induction false} RunFrom(h: Hashes, calls: seq<Call>)
    ensures LineageFrom(h, After(h, calls), CommittedSources(h, calls))
    decreases |calls|
  {
    hide Apply, Lands, CallSources, LineageFrom;
    if calls == [] {
      NothingArchived(h);
    } else {
      var front := calls[..|calls| - 1];
      RunFrom(h, front);
      ApplyFrom(h, After(h, front), calls[|calls| - 1], CommittedSources(h, front));
    }
  }

  lemma {:induction false} NothingArchived(h: Hashes)
    ensures LineageFrom(h, EMPTY, {})
  {
  }

  /** The source record found with an item has the item's source id, unless the item left the snapshot and the lineage
      hash confuses two of the sources that were committed. */
  lemma {:induction false} LineageNamesOwnSource(h: Hashes, calls: seq<Call>, e: Id)
    requires GetLineage(After(h, calls), e).Some?
    requires e in After(h, calls).items || Separates(h, CommittedSources(h, calls))
    ensures GetLineage(After(h, calls), e).value.1.sourceId == GetLineage(After(h, calls), e).value.0.sourceId
  {
    RunKeepsInv(h, calls);
    RunFrom(h, calls);
    var c, known := After(h, calls), CommittedSources(h, calls);
    QueriesAgree(h, c, e);
    hide After, CommittedSources, Inv, LineageId;
    if e !in c.items {
      var row := c.lineageItems[e];
      var s :| s in known && s.sourceId == row.item.sourceId && LineageId(h, s) == row.lineageSourceId;
      assert LineageId(h, c.lineageSources[row.lineageSourceId]) == LineageId(h, s);
    }
  }

  // --- the first version stays ---

  /** The item a committing call lists under this id. */
  function ListedItem(items: seq<Item>, e: Id): (r: Item)
    requires Listed(items, e)
    ensures r in items && r.evidenceId == e
    decreases |items|
  {
    if items[0].evidenceId == e then items[0]
    else
      assert Listed(items[1..], e) by {
        var i :| 0 <= i < |items| && items[i].evidenceId == e;
        assert items[1..][i - 1].evidenceId == e;
      }
      ListedItem(items[1..], e)
  }

  lemma {:induction false} ArchivedVersion(
      h: Hashes, m: map<Id, LineageItem>, sources: seq<Source>, items: seq<Item>, k: nat, e: Id)
    requires k <= |items| && forall i | 0 <= i < |items| :: items[i].sourceId in SourceIds(sources)
    requires e !in m && e in ArchivedItems(h, m, sources, items, k)
    ensures exists i ::
              0 <= i < k && items[i] == ArchivedItems(h, m, sources, items, k)[e].item && items[i].evidenceId == e
    decreases k
  {
    hide LineageId, SourceOf, SourceIds;
    if e in ArchivedItems(h, m, sources, items, k - 1) {
      ArchivedVersion(h, m, sources, items, k - 1, e);
    } else {
      assert items[k - 1].evidenceId == e;
    }
  }

  lemma {:induction false} UniqueItem(items: seq<Item>, i: nat, j: nat)
    requires Distinct(ItemIds(items)) && i < |items| && j < |items| && items[i].evidenceId == items[j].evidenceId
    ensures i == j
  {
    assert ItemIds(items)[i] == ItemIds(items)[j];
  }

  lemma {:induction false} TheListedItem(items: seq<Item>, i: nat)
    requires Distinct(ItemIds(items)) && i < |items|
    ensures Listed(items, items[i].evidenceId) && ListedItem(items, items[i].evidenceId) == items[i]
  {
    hide ItemIds, Distinct;
    var r := ListedItem(items, items[i].evidenceId);
    var k :| 0 <= k < |items| && items[k] == r;
    UniqueItem(items, i, k);
  }

  lemma {:induction false} ArchivedFirst(
      h: Hashes, m: map<Id, LineageItem>, sources: seq<Source>, items: seq<Item>, e: Id)
    requires Distinct(ItemIds(items)) && Listed(items, e) && e !in m
    requires forall i | 0 <= i < |items| :: items[i].sourceId in SourceIds(sources)
    ensures e in ArchivedItems(h, m, sources, items, |items|)
    ensures ArchivedItems(h, m, sources, items, |items|)[e].item == ListedItem(items, e)
  {
    ArchivedItemsKeeps(h, m, sources, items, |items|);
    hide ArchivedItems, SourceIds, Distinct, ItemIds, ListedItem;
    var i :| 0 <= i < |items| && items[i].evidenceId == e;
    ArchivedVersion(h, m, sources, items, |items|, e);
    var j :| 0 <= j < |items| && items[j] == ArchivedItems(h, m, sources, items, |items|)[e].item
      && items[j].evidenceId == e;
    TheListedItem(items, j);
  }

  lemma {:induction false} CommitArchivesFirst(h: Hashes, c: Catalog, call: Call, e: Id)
    requires Commits(c, call, e) && e !in c.lineageItems
    ensures e in Apply(h, c, call).lineageItems
    ensures Apply(h, c, call).lineageItems[e].item == ListedItem(CallItems(call), e)
  {
    hide Refreshed, Synced, ArchivedItems, ValidCombination, SourceIds, Distinct, ItemIds, ListedItem, Listed;
    match call
    case Refresh(sources, items, aborted) =>
      RefreshArchives(h, c, sources, items);
      ArchivedFirst(h, c.lineageItems, sources, items, e);
    case Sync(source, items, aborted) =>
      SyncArchives(h, c, source, items);
      ArchivedFirst(h, c.lineageItems, [source], items, e);
  }

  /** The archived version of an id is the one committed first: no later call replaces it. */
  lemma {:induction false} FirstVersionIsArchived(h: Hashes, calls: seq<Call>, call: Call, later: seq<Call>, e: Id)
    requires Commits(After(h, calls), call, e) && !EverCommitted(h, EMPTY, calls, e)
    ensures var d := Run(h, Apply(h, After(h, calls), call), later);
            e in d.lineageItems && d.lineageItems[e].item == ListedItem(CallItems(call), e)
  {
    ArchiveIsWhatWasCommitted(h, EMPTY, calls, e);
    CommitArchivesFirst(h, After(h, calls), call, e);
    hide Apply, Run, Commits, ListedItem;
    RunExtends(h, Apply(h, After(h, calls), call), later);
  }

  // --- which version is found ---

  /** The item listed by the first call that committed the id. */
  function FirstVersion(h: Hashes, calls: seq<Call>, e: Id): Item
    requires EverCommitted(h, EMPTY, calls, e)
    decreases |calls|
  {
    var front, last := calls[..|calls| - 1], calls[|calls| - 1];
    if EverCommitted(h, EMPTY, front, e) then FirstVersion(h, front, e) else ListedItem(CallItems(last), e)
  }

  /** The item listed by the last call that committed the id. */
  function LastVersion(h: Hashes, calls: seq<Call>, e: Id): Item
    requires EverCommitted(h, EMPTY, calls, e)
    decreases |calls|
  {
    var front, last := calls[..|calls| - 1], calls[|calls| - 1];
    if Commits(After(h, front), last, e) then ListedItem(CallItems(last), e) else LastVersion(h, front, e)
  }

  lemma {:induction false} ArchiveHoldsFirst(h: Hashes, calls: seq<Call>, e: Id)
    requires EverCommitted(h, EMPTY, calls, e)
    ensures e in After(h, calls).lineageItems && After(h, calls).lineageItems[e].item == FirstVersion(h, calls, e)
    decreases |calls|
  {
    hide Apply, Commits, ListedItem, CallItems;
    var front, last := calls[..|calls| - 1], calls[|calls| - 1];
    if EverCommitted(h, EMPTY, front, e) {
      ArchiveHoldsFirst(h, front, e);
      ApplyExtends(h, After(h, front), last);
    } else {
      ArchiveIsWhatWasCommitted(h, EMPTY, front, e);
      CommitArchivesFirst(h, After(h, front), last, e);
    }
  }

  lemma {:induction false} RefreshedRows(h: Hashes, c: Catalog, sources: seq<Source>, items: seq<Item>)
    requires ValidSnapshot(sources, items)
    ensures var d := Refreshed(h, c, sources, items);
            d.sources == WithSources(map[], sources, |sources|) && d.items == WithItems(map[], items, |items|)
  {
    hide WithSources, WithItems, Distinct, SourceIds, ItemIds, DigestOf, ChangeCounts, MaxSequence, ArchivedSources,
         ArchivedItems;
  }

  lemma {:induction false} SyncedRows(h: Hashes, c: Catalog, source: Source, items: seq<Item>)
    requires ValidSnapshot([source], items)
    ensures var d := Synced(h, c, source, items);
            && d.sources == OtherSources(c, source.sourceId)[source.sourceId := source]
            && d.items == WithItems(OtherItems(c, source.sourceId), items, |items|)
  {
    hide WithItems, Distinct, SourceIds, ItemIds, DigestOf, ChangeCounts, MaxSequence, ArchivedSources, ArchivedItems,
         OtherItems, OtherSources;
  }

  /** A current row is the one the call lists, or an old one that the call does not list. */
  lemma {:induction false} SnapshotStep(h: Hashes, c: Catalog, call: Call, e: Id)
    requires e in Apply(h, c, call).items && Apply(h, c, call).items[e].evidenceId == e
    ensures var row := Apply(h, c, call).items[e];
            if Commits(c, call, e) then row == ListedItem(CallItems(call), e) else e in c.items && row == c.items[e]
  {
    hide ListedItem, Refreshed, Synced, WithItems, Distinct, SourceIds, ItemIds, Listed, WithBundle, WithCase,
         WithAsset, WithOutcome;
    match call
    case Refresh(sources, items, aborted) =>
      if Lands(c, call) {
        RefreshedRows(h, c, sources, items);
        LandedRow(map[], items, e);
      }
    case Sync(source, items, aborted) =>
      if Lands(c, call) {
        SyncedRows(h, c, source, items);
        LandedRow(OtherItems(c, source.sourceId), items, e);
      }
    case _ =>
      hide Apply, Commits;
      RegistrationKeepsSnapshot(h, c, call);
  }

  lemma {:induction false} LandedRow(m: map<Id, Item>, items: seq<Item>, e: Id)
    requires Distinct(ItemIds(items)) && forall i | 0 <= i < |items| :: items[i].evidenceId !in m
    requires e in WithItems(m, items, |items|) && WithItems(m, items, |items|)[e].evidenceId == e
    ensures if Listed(items, e) then WithItems(m, items, |items|)[e] == ListedItem(items, e)
            else e in m && WithItems(m, items, |items|)[e] == m[e]
  {
    WithItemsOrigin(m, items, |items|, e);
    hide WithItems, ListedItem, Distinct, ItemIds;
    assert Listed(items, e) ==> e !in m;
    if i :| 0 <= i < |items| && items[i] == WithItems(m, items, |items|)[e] { TheListedItem(items, i); }
  }

  lemma {:induction false} SnapshotHoldsLast(h: Hashes, calls: seq<Call>, e: Id)
    requires e in After(h, calls).items
    ensures EverCommitted(h, EMPTY, calls, e) && After(h, calls).items[e] == LastVersion(h, calls, e)
    decreases |calls|
  {
    hide Apply, Commits, ListedItem, CallItems;
    RunKeepsInv(h, calls);
    assert SnapshotOk(After(h, calls));
    hide Inv, SnapshotOk;
    var front, last := calls[..|calls| - 1], calls[|calls| - 1];
    SnapshotStep(h, After(h, front), last, e);
    if !Commits(After(h, front), last, e) { SnapshotHoldsLast(h, front, e); }
  }

  /** Evidence in the snapshot is found in its last committed version, evidence that left it in its first. */
  lemma {:induction false} FoundVersion(h: Hashes, calls: seq<Call>, e: Id)
    requires EverCommitted(h, EMPTY, calls, e)
    ensures GetEvidence(After(h, calls), e)
         == Some(if e in After(h, calls).items then LastVersion(h, calls, e) else FirstVersion(h, calls, e))
  {
    ArchiveHoldsFirst(h, calls, e);
    if e in After(h, calls).items { SnapshotHoldsLast(h, calls, e); }
    hide After, EverCommitted, FirstVersion, LastVersion;
  }

  /** The latest version is found exactly while the evidence is in the snapshot or never changed. */
  lemma {:induction false} LatestFoundIffCurrent(h: Hashes, calls: seq<Call>, e: Id)
    requires EverCommitted(h, EMPTY, calls, e)
    ensures GetEvidence(After(h, calls), e) == Some(LastVersion(h, calls, e))
       <==> e in After(h, calls).items || FirstVersion(h, calls, e) == LastVersion(h, calls, e)
  {
    hide After, EverCommitted, FirstVersion, LastVersion, GetEvidence;
    FoundVersion(h, calls, e);
  }

  predicate OnlyOf(c: Catalog, id: Id) {
    forall e | e in c.items :: c.items[e].sourceId == id
  }

  lemma {:induction false} SyncLands(c: Catalog, s: Source, items: seq<Item>)
    requires OnlyOf(c, s.sourceId) && |items| <= 1 && forall v | v in items :: v.sourceId == s.sourceId
    ensures OtherItems(c, s.sourceId) == map[] && Lands(c, Sync(s, items, false))
  {
    assert SourceIds([s])[0] == s.sourceId;
    assert OtherItems(c, s.sourceId) == map[];
    hide OtherItems, OtherSources, Listed;
  }

  lemma {:induction false} OnlyListedRows(items: seq<Item>, id: Id, e: Id)
    requires (forall v | v in items :: v.sourceId == id) && e in WithItems(map[], items, |items|)
    ensures Listed(items, e) && WithItems(map[], items, |items|)[e].sourceId == id
  {
    WithItemsFiled(map[], items, |items|);
    WithItemsOrigin(map[], items, |items|, e);
    hide WithItems;
  }

  /** Syncing the only source of a snapshot lands, and leaves the listed items only. */
  lemma {:induction false} SyncAlone(h: Hashes, c: Catalog, s: Source, items: seq<Item>)
    requires OnlyOf(c, s.sourceId) && |items| <= 1 && forall v | v in items :: v.sourceId == s.sourceId
    ensures Lands(c, Sync(s, items, false))
    ensures var d := Apply(h, c, Sync(s, items, false));
            OnlyOf(d, s.sourceId) && forall e | e in d.items :: Listed(items, e)
  {
    SyncLands(c, s, items);
    SyncedRows(h, c, s, items);
    hide Synced, OtherItems, WithItems, ItemIds, Listed, ValidSnapshot, ValidCombination, OtherSources;
    forall e | e in WithItems(map[], items, |items|)
      ensures Listed(items, e) && WithItems(map[], items, |items|)[e].sourceId == s.sourceId
    {
      OnlyListedRows(items, s.sourceId, e);
    }
  }

  lemma {:induction false} SyncVersion(h: Hashes, calls: seq<Call>, s: Source, v: Item)
    requires OnlyOf(After(h, calls), s.sourceId) && v.sourceId == s.sourceId
    ensures var more, e := calls + [Sync(s, [v], false)], v.evidenceId;
            && OnlyOf(After(h, more), s.sourceId) && EverCommitted(h, EMPTY, more, e) && LastVersion(h, more, e) == v
            && FirstVersion(h, more, e)
            == if EverCommitted(h, EMPTY, calls, e) then FirstVersion(h, calls, e) else v
  {
    SyncAlone(h, After(h, calls), s, [v]);
    hide Apply, Lands, OnlyOf;
    var more := calls + [Sync(s, [v], false)];
    assert more[..|more| - 1] == calls;
    assert [v][0] == v && Listed([v], v.evidenceId) && ListedItem([v], v.evidenceId) == v;
  }

  lemma {:induction false} SyncNothing(h: Hashes, calls: seq<Call>, s: Source, e: Id)
    requires OnlyOf(After(h, calls), s.sourceId) && EverCommitted(h, EMPTY, calls, e)
    ensures var more := calls + [Sync(s, [], false)];
            && e !in After(h, more).items && EverCommitted(h, EMPTY, more, e)
            && FirstVersion(h, more, e) == FirstVersion(h, calls, e)
            && LastVersion(h, more, e) == LastVersion(h, calls, e)
  {
    SyncAlone(h, After(h, calls), s, []);
    hide Apply, Lands, OnlyOf, ListedItem;
    assert (calls + [Sync(s, [], false)])[..|calls|] == calls;
    assert !Listed([], e);
  }

  /** The input: two versions are synced and then the source without them; the older version is found. */
  lemma {:induction false} OldVersionFound(h: Hashes, s: Source, v1: Item, v2: Item)
    requires v1.evidenceId == v2.evidenceId && v1.sourceId == v2.sourceId == s.sourceId && v1 != v2
    ensures var calls, e := [Sync(s, [v1], false), Sync(s, [v2], false), Sync(s, [], false)], v1.evidenceId;
            && EverCommitted(h, EMPTY, calls, e) && LastVersion(h, calls, e) == v2
            && GetEvidence(After(h, calls), e) == Some(v1)
  {
    hide *;
    var one, two := [Sync(s, [v1], false)], [Sync(s, [v1], false), Sync(s, [v2], false)];
    var calls, e := [Sync(s, [v1], false), Sync(s, [v2], false), Sync(s, [], false)], v1.evidenceId;
    assert [] + one == one && one + [Sync(s, [v2], false)] == two && two + [Sync(s, [], false)] == calls;
    NothingCommitted(h, s.sourceId, e);
    SyncVersion(h, [], s, v1);
    SyncVersion(h, one, s, v2);
    SyncNothing(h, two, s, e);
    FoundVersion(h, calls, e);
  }

  lemma {:induction false} NothingCommitted(h: Hashes, id: Id, e: Id)
    ensures OnlyOf(After(h, []), id) && !EverCommitted(h, EMPTY, [], e)
  {
  }
}
