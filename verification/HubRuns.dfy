/** What every run of catalog calls keeps. */
module HubRuns {
  import opened Collections
  import opened HubCatalog
  import opened Text

  // --- tables only grow where they must ---

  /** Records, frozen copies and lineage are never changed or removed, and the receipt log is append-only. */
  predicate Extends(a: Catalog, b: Catalog) {
    && Kept(a.bundles, b.bundles) && Kept(a.frozen, b.frozen) && Kept(a.cases, b.cases)
    && Kept(a.assets, b.assets) && Kept(a.outcomes, b.outcomes)
    && Kept(a.lineageSources, b.lineageSources) && Kept(a.lineageItems, b.lineageItems)
    && a.receipts <= b.receipts
  }

  lemma {:induction false} ExtendsTransitive(a: Catalog, b: Catalog, c: Catalog)
    requires Extends(a, b) && Extends(b, c)
    ensures Extends(a, c)
  {
  }

  lemma {:induction false} ArchivedSourcesKeeps(h: Hashes, m: map<Id, Source>, sources: seq<Source>, k: nat)
    requires k <= |sources|
    ensures Kept(m, ArchivedSources(h, m, sources, k))
    ensures forall i | 0 <= i < k :: LineageId(h, sources[i]) in ArchivedSources(h, m, sources, k)
    decreases k
  {
    hide LineageId;
    if k > 0 { ArchivedSourcesKeeps(h, m, sources, k - 1); }
  }

  lemma {:induction false} ArchivedItemsKeeps(
      h: Hashes, m: map<Id, LineageItem>, sources: seq<Source>, items: seq<Item>, k: nat)
    requires k <= |items| && forall i | 0 <= i < |items| :: items[i].sourceId in SourceIds(sources)
    ensures Kept(m, ArchivedItems(h, m, sources, items, k))
    ensures forall i | 0 <= i < k :: items[i].evidenceId in ArchivedItems(h, m, sources, items, k)
    decreases k
  {
    hide LineageId, SourceOf;
    if k > 0 { ArchivedItemsKeeps(h, m, sources, items, k - 1); }
  }

  lemma {:induction false} NotFrozenYet(frozen: map<FrozenKey, Item>, b: Bundle, i: nat)
    requires i < |b.evidenceIds| && FrozenIds(frozen, b.bundleId) * IdSet(b.evidenceIds) == {}
    ensures FrozenKey(b.bundleId, b.evidenceIds[i]) !in frozen
  {
    assert b.evidenceIds[i] in IdSet(b.evidenceIds);
    assert b.evidenceIds[i] !in FrozenIds(frozen, b.bundleId) * IdSet(b.evidenceIds);
  }

  lemma {:induction false} FrozenKeeps(c: Catalog, b: Bundle, k: nat)
    requires k <= |b.evidenceIds| && AllCurrent(c, b.evidenceIds) && Distinct(b.evidenceIds)
    requires FrozenIds(c.frozen, b.bundleId) * IdSet(b.evidenceIds) == {}
    ensures Kept(c.frozen, Frozen(c, b, k))
    ensures forall i | 0 <= i < k ::
              FrozenKey(b.bundleId, b.evidenceIds[i]) in Frozen(c, b, k)
              && Frozen(c, b, k)[FrozenKey(b.bundleId, b.evidenceIds[i])] == c.items[b.evidenceIds[i]]
    ensures forall x | x in Frozen(c, b, k) && x !in c.frozen ::
        x.bundleId == b.bundleId && x.evidenceId in b.evidenceIds
    decreases k
  {
    if k > 0 {
      FrozenKeeps(c, b, k - 1);
      NotFrozenYet(c.frozen, b, k - 1);
    }
  }

  lemma {:induction false} ArchiveExtends(h: Hashes, c: Catalog, sources: seq<Source>, items: seq<Item>)
    requires forall i | 0 <= i < |items| :: items[i].sourceId in SourceIds(sources)
    ensures Extends(c, Archive(h, c, sources, items))
  {
    ArchivedSourcesKeeps(h, c.lineageSources, sources, |sources|);
    ArchivedItemsKeeps(h, c.lineageItems, sources, items, |items|);
    hide ArchivedItems, ArchivedSources;
  }

  lemma {:induction false} BundleExtends(c: Catalog, b: Bundle)
    requires ValidBundle(b) && WithBundle(c, b).Ok?
    ensures Extends(c, WithBundle(c, b).value.0)
  {
    hide Frozen, FrozenIds, IdSet, Distinct;
    if b.bundleId in c.bundles {
      ExtendsSelf(c);
    } else {
      FrozenKeeps(c, b, |b.evidenceIds|);
    }
  }

  lemma {:induction false} CaseExtends(h: Hashes, c: Catalog, r: CaseRequest)
    requires WithCase(h, c, r).Ok?
    ensures Extends(c, WithCase(h, c, r).value.0)
  {
    hide HasText, ValidNotes;
  }

  lemma {:induction false} AssetExtends(h: Hashes, c: Catalog, a: Asset)
    requires WithAsset(h, c, a).Ok?
    ensures Extends(c, WithAsset(h, c, a).value.0)
  {
    hide AssetAccepted, AssetIdOf;
  }

  lemma {:induction false} OutcomeExtends(h: Hashes, c: Catalog, o: Outcome)
    requires WithOutcome(h, c, o).Ok?
    ensures Extends(c, WithOutcome(h, c, o).value.0)
  {
    hide OutcomeAccepted, OutcomeIdOf;
  }

  /** Writing a receipt after other changes to the snapshot tables keeps the records. */
  lemma {:induction false} ReceiptExtends(c: Catalog, d: Catalog, r: Receipt)
    requires Extends(c, d)
    ensures Extends(c, WithReceipt(d, r))
  {
    hide MaxSequence, Kept;
  }

  lemma {:induction false} RefreshExtends(h: Hashes, c: Catalog, sources: seq<Source>, items: seq<Item>)
    requires ValidSnapshot(sources, items)
    ensures Extends(c, Refreshed(h, c, sources, items))
  {
    ArchiveExtends(h, c, sources, items);
    hide DigestOf, ChangeCounts, Archive, WithSources, WithItems, WithReceipt, Kept;
    var newSources, newItems := WithSources(map[], sources, |sources|), WithItems(map[], items, |items|);
    ReceiptExtends(c, Archive(h, c, sources, items).(sources := newSources, items := newItems),
      Receipt(true, Some(DigestOf(h, newSources, newItems)), |sources|, |items|, ChangeCounts(c, sources, items)));
  }

  lemma {:induction false} SyncExtends(h: Hashes, c: Catalog, source: Source, items: seq<Item>)
    requires ValidSnapshot([source], items)
    ensures Extends(c, Synced(h, c, source, items))
  {
    ArchiveExtends(h, c, [source], items);
    hide DigestOf, ChangeCounts, Archive, WithItems, WithReceipt, Kept, OtherItems, OtherSources;
    var newSources := OtherSources(c, source.sourceId)[source.sourceId := source];
    var newItems := WithItems(OtherItems(c, source.sourceId), items, |items|);
    ReceiptExtends(c, Archive(h, c, [source], items).(sources := newSources, items := newItems),
      Receipt(true, Some(DigestOf(h, newSources, newItems)), |newSources|, |newItems|,
        ChangeCounts(c, [source], items)));
  }

  /** No call changes or removes a record, a frozen copy, a lineage row or a receipt. */
  lemma {:induction false} ApplyExtends(h: Hashes, c: Catalog, call: Call)
    ensures Extends(c, Apply(h, c, call))
  {
    ExtendsSelf(c);
    ReceiptExtends(c, c, FAILED);
    hide Extends, Refreshed, Synced, WithBundle, WithCase, WithAsset, WithOutcome, WithReceipt,
         ValidSnapshot, ValidCombination, ValidBundle;
    match call
    case Refresh(sources, items, aborted) =>
      if !aborted && ValidSnapshot(sources, items) { RefreshExtends(h, c, sources, items); }
    case Sync(source, items, aborted) =>
      if !aborted && ValidSnapshot([source], items) { SyncExtends(h, c, source, items); }
    case RegisterBundle(b) => if ValidBundle(b) && WithBundle(c, b).Ok? { BundleExtends(c, b); }
    case RegisterCase(r) => if WithCase(h, c, r).Ok? { CaseExtends(h, c, r); }
    case RegisterAsset(a) => if WithAsset(h, c, a).Ok? { AssetExtends(h, c, a); }
    case RegisterOutcome(o) => if WithOutcome(h, c, o).Ok? { OutcomeExtends(h, c, o); }
  }

  lemma {:induction false} RunExtends(h: Hashes, c: Catalog, calls: seq<Call>)
    ensures Extends(c, Run(h, c, calls))
    decreases |calls|
  {
    hide Apply, Extends;
    if calls == [] {
      ExtendsSelf(c);
    } else {
      var front := calls[..|calls| - 1];
      RunExtends(h, c, front);
      ApplyExtends(h, Run(h, c, front), calls[|calls| - 1]);
      ExtendsTransitive(c, Run(h, c, front), Run(h, c, calls));
    }
  }

  lemma {:induction false} ExtendsSelf(c: Catalog)
    ensures Extends(c, c)
  {
  }

  // --- the invariant ---

  /** Every snapshot row is filed under its own id, and every item names a snapshot source. */
  predicate SnapshotOk(c: Catalog) {
    && (forall s | s in c.sources :: c.sources[s].sourceId == s)
    && (forall e | e in c.items :: c.items[e].evidenceId == e && c.items[e].sourceId in c.sources)
  }

  predicate LineageRowOk(c: Catalog, e: Id) {
    e in c.lineageItems ==>
      c.lineageItems[e].item.evidenceId == e && c.lineageItems[e].lineageSourceId in c.lineageSources
  }

  /** Current evidence is archived, and an archived row is filed under its own id and names an archived source. */
  predicate LineageOk(c: Catalog) {
    c.items.Keys <= c.lineageItems.Keys && forall e | e in c.lineageItems :: LineageRowOk(c, e)
  }

  predicate BundleOk(c: Catalog, b: Id) {
    b in c.bundles ==>
      && c.bundles[b].bundleId == b && ValidBundle(c.bundles[b])
      && forall e | e in c.bundles[b].evidenceIds ::
           FrozenKey(b, e) in c.frozen && c.frozen[FrozenKey(b, e)].evidenceId == e
  }

  predicate CaseOk(c: Catalog, k: Id) {
    k in c.cases ==>
      && c.cases[k].bundleId in c.bundles
      && c.cases[k].evidenceIds == c.bundles[c.cases[k].bundleId].evidenceIds
  }

  predicate AssetOk(c: Catalog, a: Id) {
    a in c.assets ==>
      && (c.assets[a].caseId.Some? ==> c.assets[a].caseId.value in c.cases)
      && (c.assets[a].caseId.Some? && c.assets[a].bundleId.Some? ==>
           c.cases[c.assets[a].caseId.value].bundleId == c.assets[a].bundleId.value)
      && LineageBundle(c, c.assets[a]).Some?
      && Subset(c.assets[a].evidenceIds, LineageBundle(c, c.assets[a]).value.evidenceIds)
  }

  predicate OutcomeOk(c: Catalog, o: Id) {
    o in c.outcomes ==>
      && c.outcomes[o].assetId in c.assets
      && (c.outcomes[o].caseId.Some? ==>
           c.outcomes[o].caseId.value in c.cases && c.assets[c.outcomes[o].assetId].caseId == c.outcomes[o].caseId)
      && Subset(c.outcomes[o].evidenceIds, c.assets[c.outcomes[o].assetId].evidenceIds)
  }

  predicate BundlesOk(c: Catalog) {
    && (forall b | b in c.bundles :: BundleOk(c, b))
    && (forall k | k in c.frozen :: k.bundleId in c.bundles && k.evidenceId in c.bundles[k.bundleId].evidenceIds)
  }

  predicate RecordsOk(c: Catalog) {
    && (forall k | k in c.cases :: CaseOk(c, k))
    && (forall a | a in c.assets :: AssetOk(c, a))
    && (forall o | o in c.outcomes :: OutcomeOk(c, o))
  }

  /** Sequence numbers are 1 to n, and the stored hash is that of the current snapshot once there was a success. */
  predicate LogOk(h: Hashes, c: Catalog) {
    && (forall i | 0 <= i < |c.receipts| :: c.receipts[i].sequence == i + 1)
    && (c.snapshotSha.Some? <==> exists i :: 0 <= i < |c.receipts| && c.receipts[i].receipt.succeeded)
    && (c.snapshotSha.Some? ==> c.snapshotSha.value == DigestOf(h, c.sources, c.items))
    && (c.snapshotSha.None? ==> c.sources == map[] && c.items == map[])
    && (forall i | 0 <= i < |c.receipts| ::
        c.receipts[i].receipt.succeeded <==> c.receipts[i].receipt.snapshotSha.Some?)
  }

  /** Nothing is assumed of any hash. */
  predicate Inv(h: Hashes, c: Catalog) {
    SnapshotOk(c) && LineageOk(c) && BundlesOk(c) && RecordsOk(c) && LogOk(h, c)
  }

  // --- receipts ---

  lemma {:induction false} MaxOfRun(rows: seq<ReceiptRow>)
    requires forall i | 0 <= i < |rows| :: rows[i].sequence == i + 1
    ensures MaxSequence(rows) == |rows|
    decreases |rows|
  {
    if rows != [] { MaxOfRun(rows[..|rows| - 1]); }
  }

  /** The next receipt keeps the log gap-free; a success must carry the hash of the snapshot it commits. */
  lemma {:induction false} ReceiptKeepsLog(h: Hashes, c: Catalog, d: Catalog, r: Receipt)
    requires LogOk(h, c) && d.receipts == c.receipts && d.snapshotSha == c.snapshotSha
    requires r.succeeded <==> r.snapshotSha.Some?
    requires if r.succeeded then r.snapshotSha.value == DigestOf(h, d.sources, d.items)
             else d.sources == c.sources && d.items == c.items
    ensures LogOk(h, WithReceipt(d, r))
    ensures |WithReceipt(d, r).receipts| == |c.receipts| + 1
  {
    MaxOfRun(c.receipts);
    hide DigestOf, MaxSequence;
    var rows := WithReceipt(d, r).receipts;
    assert rows[|c.receipts|].receipt == r;
    if c.snapshotSha.Some? {
      var i :| 0 <= i < |c.receipts| && c.receipts[i].receipt.succeeded;
      assert rows[i].receipt.succeeded;
    }
  }

  // --- snapshots and lineage ---

  lemma {:induction false} WithSourcesFiled(m: map<Id, Source>, sources: seq<Source>, k: nat)
    requires k <= |sources| && forall s | s in m :: m[s].sourceId == s
    ensures var r := WithSources(m, sources, k);
            && (forall s | s in r :: r[s].sourceId == s)
            && (forall i | 0 <= i < k :: sources[i].sourceId in r)
            && m.Keys <= r.Keys
    decreases k
  {
    if k > 0 { WithSourcesFiled(m, sources, k - 1); }
  }

  lemma {:induction false} WithItemsFiled(m: map<Id, Item>, items: seq<Item>, k: nat)
    requires k <= |items| && forall e | e in m :: m[e].evidenceId == e
    ensures var r := WithItems(m, items, k);
            && (forall e | e in r :: r[e].evidenceId == e)
            && (forall e | e in r :: (e in m && r[e] == m[e]) || r[e] in items)
            && m.Keys <= r.Keys && (forall i | 0 <= i < k :: items[i].evidenceId in r)
    decreases k
  {
    if k > 0 { WithItemsFiled(m, items, k - 1); }
  }

  /** An archived source is an old row, or a listed source under its lineage id. */
  lemma {:induction false} ArchivedSourcesOrigin(h: Hashes, m: map<Id, Source>, sources: seq<Source>, k: nat, l: Id)
    requires k <= |sources| && l in ArchivedSources(h, m, sources, k)
    ensures var s := ArchivedSources(h, m, sources, k)[l];
            (l in m && s == m[l]) || (s in sources && LineageId(h, s) == l)
    decreases k
  {
    hide LineageId;
    if k > 0 && l in ArchivedSources(h, m, sources, k - 1) { ArchivedSourcesOrigin(h, m, sources, k - 1, l); }
  }

  /** The row points at the lineage id of a listed source with the item's source id. */
  predicate FromListed(h: Hashes, sources: seq<Source>, row: LineageItem) {
    exists i :: 0 <= i < |sources| && sources[i].sourceId == row.item.sourceId
      && row.lineageSourceId == LineageId(h, sources[i])
  }

  /** A lineage row is either old or points at the lineage id of its own listed source. */
  lemma {:induction false} ArchivedItemsOrigin(
      h: Hashes, m: map<Id, LineageItem>, sources: seq<Source>, items: seq<Item>, k: nat, e: Id)
    requires k <= |items| && forall i | 0 <= i < |items| :: items[i].sourceId in SourceIds(sources)
    requires e in ArchivedItems(h, m, sources, items, k)
    ensures var row := ArchivedItems(h, m, sources, items, k)[e];
            || (e in m && row == m[e])
            || (row.item.evidenceId == e && FromListed(h, sources, row))
    decreases k
  {
    hide LineageId, SourceOf, SourceIds;
    if k > 0 && e in ArchivedItems(h, m, sources, items, k - 1) {
      ArchivedItemsOrigin(h, m, sources, items, k - 1, e);
    }
  }

  /** Archiving keeps every lineage row next to an archived source. */
  lemma {:induction false} ArchiveKeepsLineage(h: Hashes, c: Catalog, sources: seq<Source>, items: seq<Item>)
    requires forall i | 0 <= i < |items| :: items[i].sourceId in SourceIds(sources)
    requires forall e | e in c.lineageItems :: LineageRowOk(c, e)
    ensures var d := Archive(h, c, sources, items); forall e | e in d.lineageItems :: LineageRowOk(d, e)
  {
    var d := Archive(h, c, sources, items);
    ArchivedSourcesKeeps(h, c.lineageSources, sources, |sources|);
    forall e | e in d.lineageItems ensures LineageRowOk(d, e) {
      hide LineageId, ArchivedItems, ArchivedSources;
      ArchivedItemsOrigin(h, c.lineageItems, sources, items, |items|, e);
      var row := d.lineageItems[e];
      if e in c.lineageItems && row == c.lineageItems[e] {
        assert LineageRowOk(c, e);
      } else {
        var i :| 0 <= i < |sources| && sources[i].sourceId == row.item.sourceId
          && row.lineageSourceId == LineageId(h, sources[i]);
      }
    }
  }

  lemma {:induction false} SourceListed(sources: seq<Source>, id: Id)
    ensures id in SourceIds(sources) <==> exists i :: 0 <= i < |sources| && sources[i].sourceId == id
  {
    if id in SourceIds(sources) {
      var i :| 0 <= i < |sources| && SourceIds(sources)[i] == id;
    }
    if i :| 0 <= i < |sources| && sources[i].sourceId == id {
      assert SourceIds(sources)[i] == id;
    }
  }

  /** Where the rows of a table filled by `WithItems` come from. */
  lemma {:induction false} WithItemsOrigin(m: map<Id, Item>, items: seq<Item>, k: nat, e: Id)
    requires k <= |items| && e in WithItems(m, items, k)
    ensures (e in m && WithItems(m, items, k)[e] == m[e])
        || exists i :: 0 <= i < k && items[i] == WithItems(m, items, k)[e]
    decreases k
  {
    if k > 0 && items[k - 1].evidenceId != e { WithItemsOrigin(m, items, k - 1, e); }
  }

  /** The snapshot tables of a refresh. */
  lemma {:induction false} RefreshedTables(sources: seq<Source>, items: seq<Item>, e: Id)
    requires ValidSnapshot(sources, items) && e in WithItems(map[], items, |items|)
    ensures WithItems(map[], items, |items|)[e].sourceId in WithSources(map[], sources, |sources|)
    ensures exists i :: 0 <= i < |items| && items[i] == WithItems(map[], items, |items|)[e]
  {
    WithSourcesFiled(map[], sources, |sources|);
    WithItemsOrigin(map[], items, |items|, e);
    hide WithItems, WithSources, Distinct;
    var i :| 0 <= i < |items| && items[i] == WithItems(map[], items, |items|)[e];
    SourceListed(sources, items[i].sourceId);
  }

  /** The snapshot tables of a sync: each item is a synced one, or one of another source. */
  lemma {:induction false} SyncedTables(c: Catalog, source: Source, items: seq<Item>, e: Id)
    requires ValidSnapshot([source], items) && e in WithItems(OtherItems(c, source.sourceId), items, |items|)
    ensures var row := WithItems(OtherItems(c, source.sourceId), items, |items|)[e];
            || (row.sourceId != source.sourceId && e in c.items && row == c.items[e])
            || (row.sourceId == source.sourceId && exists i :: 0 <= i < |items| && items[i] == row)
  {
    WithItemsOrigin(OtherItems(c, source.sourceId), items, |items|, e);
    hide WithItems, Distinct;
    var row := WithItems(OtherItems(c, source.sourceId), items, |items|)[e];
    if i :| 0 <= i < |items| && items[i] == row { SourceListed([source], items[i].sourceId); }
  }

  predicate Listed(items: seq<Item>, e: Id) {
    exists i :: 0 <= i < |items| && items[i].evidenceId == e
  }

  /** Rows committed together with their archive are archived. */
  lemma {:induction false} CommitKeepsLineage(h: Hashes, c: Catalog, sources: seq<Source>, items: seq<Item>, d: Catalog)
    requires LineageOk(c)
    requires forall i | 0 <= i < |items| :: items[i].sourceId in SourceIds(sources)
    requires d.lineageItems == Archive(h, c, sources, items).lineageItems
    requires d.lineageSources == Archive(h, c, sources, items).lineageSources
    requires forall e | e in d.items :: e in c.items || Listed(items, e)
    ensures LineageOk(d)
  {
    ArchiveKeepsLineage(h, c, sources, items);
    ArchivedItemsKeeps(h, c.lineageItems, sources, items, |items|);
    hide ArchivedItems, ArchivedSources, LineageId, SourceIds;
    forall e | e in d.items ensures e in d.lineageItems {
      if i :| 0 <= i < |items| && items[i].evidenceId == e { assert items[i].evidenceId in d.lineageItems; }
    }
    forall e | e in d.lineageItems ensures LineageRowOk(d, e) {
      assert LineageRowOk(Archive(h, c, sources, items), e);
    }
  }

  lemma {:induction false} RefreshKeepsItems(sources: seq<Source>, items: seq<Item>, c: Catalog)
    requires ValidSnapshot(sources, items)
    requires c.sources == WithSources(map[], sources, |sources|) && c.items == WithItems(map[], items, |items|)
    ensures SnapshotOk(c) && forall e | e in c.items :: Listed(items, e)
  {
    WithSourcesFiled(map[], sources, |sources|);
    WithItemsFiled(map[], items, |items|);
    hide WithSources, WithItems, ValidSnapshot;
    forall e | e in c.items ensures c.items[e].sourceId in c.sources && Listed(items, e) {
      RefreshedTables(sources, items, e);
    }
  }

  lemma {:induction false} SyncKeepsItems(c: Catalog, source: Source, items: seq<Item>, d: Catalog)
    requires SnapshotOk(c) && ValidSnapshot([source], items)
    requires d.sources == OtherSources(c, source.sourceId)[source.sourceId := source]
    requires d.items == WithItems(OtherItems(c, source.sourceId), items, |items|)
    ensures SnapshotOk(d) && forall e | e in d.items :: e in c.items || Listed(items, e)
  {
    WithItemsFiled(OtherItems(c, source.sourceId), items, |items|);
    hide WithItems, ValidSnapshot, OtherItems;
    forall e | e in d.items ensures d.items[e].sourceId in d.sources && (e in c.items || Listed(items, e)) {
      SyncedTables(c, source, items, e);
    }
  }

  lemma {:induction false} RefreshKeepsSnapshot(h: Hashes, c: Catalog, sources: seq<Source>, items: seq<Item>)
    requires LineageOk(c) && ValidSnapshot(sources, items)
    ensures var d := Refreshed(h, c, sources, items); SnapshotOk(d) && LineageOk(d)
  {
    hide LineageOk, WithSources, WithItems, DigestOf, ChangeCounts, MaxSequence, Listed, Distinct,
         ArchivedItems, ArchivedSources, SnapshotOk;
    var d := Refreshed(h, c, sources, items);
    RefreshKeepsItems(sources, items, d);
    CommitKeepsLineage(h, c, sources, items, d);
  }

  lemma {:induction false} SyncKeepsSnapshot(h: Hashes, c: Catalog, source: Source, items: seq<Item>)
    requires SnapshotOk(c) && LineageOk(c) && ValidSnapshot([source], items)
    ensures var d := Synced(h, c, source, items); SnapshotOk(d) && LineageOk(d)
  {
    hide LineageOk, WithItems, DigestOf, ChangeCounts, MaxSequence, Listed, Distinct,
         ArchivedItems, ArchivedSources, SnapshotOk, OtherItems, OtherSources;
    var d := Synced(h, c, source, items);
    SyncKeepsItems(c, source, items, d);
    CommitKeepsLineage(h, c, [source], items, d);
  }

  // --- records ---

  lemma {:induction false} RecordsSurvive(c: Catalog, d: Catalog)
    requires RecordsOk(c) && d.cases == c.cases && d.assets == c.assets && d.outcomes == c.outcomes
    requires Kept(c.bundles, d.bundles)
    ensures RecordsOk(d)
  {
    forall k | k in d.cases ensures CaseOk(d, k) { assert CaseOk(c, k); }
    forall a | a in d.assets ensures AssetOk(d, a) { assert AssetOk(c, a); }
    forall o | o in d.outcomes ensures OutcomeOk(d, o) { assert OutcomeOk(c, o); }
  }

  lemma {:induction false} CaseKeepsRecords(c: Catalog, d: Catalog, k: Id)
    requires RecordsOk(c) && k in d.cases && CaseOk(d, k) && d == c.(cases := c.cases[k := d.cases[k]]) && k !in c.cases
    ensures RecordsOk(d)
  {
    forall x | x in d.cases ensures CaseOk(d, x) { if x != k { assert CaseOk(c, x); } }
    forall a | a in d.assets ensures AssetOk(d, a) { assert AssetOk(c, a); }
    forall o | o in d.outcomes ensures OutcomeOk(d, o) { assert OutcomeOk(c, o); }
  }

  lemma {:induction false} AssetKeepsRecords(c: Catalog, d: Catalog, k: Id)
    requires RecordsOk(c) && k in d.assets && AssetOk(d, k) && d == c.(assets := c.assets[k := d.assets[k]])
        && k !in c.assets
    ensures RecordsOk(d)
  {
    forall x | x in d.cases ensures CaseOk(d, x) { assert CaseOk(c, x); }
    forall a | a in d.assets ensures AssetOk(d, a) { if a != k { assert AssetOk(c, a); } }
    forall o | o in d.outcomes ensures OutcomeOk(d, o) { assert OutcomeOk(c, o); }
  }

  lemma {:induction false} OutcomeKeepsRecords(c: Catalog, d: Catalog, k: Id)
    requires RecordsOk(c) && k in d.outcomes && OutcomeOk(d, k) && d == c.(outcomes := c.outcomes[k := d.outcomes[k]])
    ensures RecordsOk(d)
  {
    forall x | x in d.cases ensures CaseOk(d, x) { assert CaseOk(c, x); }
    forall a | a in d.assets ensures AssetOk(d, a) { assert AssetOk(c, a); }
    forall o | o in d.outcomes ensures OutcomeOk(d, o) { if o != k { assert OutcomeOk(c, o); } }
  }

  lemma {:induction false} BundleKeepsBundles(c: Catalog, b: Bundle)
    requires SnapshotOk(c) && BundlesOk(c) && ValidBundle(b) && b.bundleId !in c.bundles && AllCurrent(c, b.evidenceIds)
    requires FrozenIds(c.frozen, b.bundleId) * IdSet(b.evidenceIds) == {}
    ensures BundlesOk(c.(bundles := c.bundles[b.bundleId := b], frozen := Frozen(c, b, |b.evidenceIds|)))
  {
    FrozenKeeps(c, b, |b.evidenceIds|);
    hide Frozen;
    var d := c.(bundles := c.bundles[b.bundleId := b], frozen := Frozen(c, b, |b.evidenceIds|));
    forall x | x in d.bundles ensures BundleOk(d, x) {
      if x == b.bundleId {
        forall e | e in b.evidenceIds
          ensures FrozenKey(x, e) in d.frozen && d.frozen[FrozenKey(x, e)].evidenceId == e
        {
          var i :| 0 <= i < |b.evidenceIds| && b.evidenceIds[i] == e;
        }
      } else {
        assert BundleOk(c, x);
      }
    }
  }

  // --- every call keeps the invariant ---

  lemma {:induction false} ApplyKeepsInv(h: Hashes, c: Catalog, call: Call)
    requires Inv(h, c)
    ensures Inv(h, Apply(h, c, call))
  {
    match call
    case Refresh(sources, items, aborted) => RefreshKeepsInv(h, c, sources, items, aborted);
    case Sync(source, items, aborted) => SyncKeepsInv(h, c, source, items, aborted);
    case RegisterBundle(b) => RegisterBundleKeepsInv(h, c, b);
    case RegisterCase(r) => RegisterCaseKeepsInv(h, c, r);
    case RegisterAsset(a) => RegisterAssetKeepsInv(h, c, a);
    case RegisterOutcome(o) => RegisterOutcomeKeepsInv(h, c, o);
  }

  lemma {:induction false} FailureKeepsInv(h: Hashes, c: Catalog)
    requires Inv(h, c)
    ensures Inv(h, WithReceipt(c, FAILED))
  {
    hide LogOk, DigestOf, MaxSequence, LineageId, LineageOk, RecordsOk, BundlesOk;
    ReceiptKeepsLog(h, c, c, FAILED);
    RecordsSurvive(c, WithReceipt(c, FAILED));
    BundlesSurvive(c, WithReceipt(c, FAILED));
    LineageSurvives(c, WithReceipt(c, FAILED));
  }

  lemma {:induction false} BundlesSurvive(c: Catalog, d: Catalog)
    requires BundlesOk(c) && d.bundles == c.bundles && d.frozen == c.frozen
    ensures BundlesOk(d)
  {
    forall b | b in d.bundles ensures BundleOk(d, b) { assert BundleOk(c, b); }
  }

  lemma {:induction false} LineageSurvives(c: Catalog, d: Catalog)
    requires LineageOk(c) && d.items == c.items
    requires d.lineageItems == c.lineageItems && d.lineageSources == c.lineageSources
    ensures LineageOk(d)
  {
    hide LineageId;
    forall e | e in d.lineageItems ensures LineageRowOk(d, e) { assert LineageRowOk(c, e); }
  }

  lemma {:induction false} RefreshKeepsInv(h: Hashes, c: Catalog, sources: seq<Source>, items: seq<Item>, aborted: bool)
    requires Inv(h, c)
    ensures Inv(h, Apply(h, c, Refresh(sources, items, aborted)))
  {
    if aborted || !ValidSnapshot(sources, items) {
      FailureKeepsInv(h, c);
    } else {
      RefreshKeepsSnapshot(h, c, sources, items);
      hide ArchivedItems, ArchivedSources, WithSources, WithItems, DigestOf, ChangeCounts, MaxSequence, LineageId;
      var d := Refreshed(h, c, sources, items);
      hide LogOk, SnapshotOk, LineageOk, RecordsOk, BundlesOk, Distinct, Kept;
      KeptSelf(c.bundles);
      RecordsSurvive(c, d);
      BundlesSurvive(c, d);
      var committed := Archive(h, c, sources, items).(
        sources := WithSources(map[], sources, |sources|), items := WithItems(map[], items, |items|));
      ReceiptKeepsLog(h, c, committed,
        Receipt(true, Some(DigestOf(h, committed.sources, committed.items)), |sources|, |items|,
          ChangeCounts(c, sources, items)));
    }
  }

  lemma {:induction false} SyncKeepsInv(h: Hashes, c: Catalog, source: Source, items: seq<Item>, aborted: bool)
    requires Inv(h, c)
    ensures Inv(h, Apply(h, c, Sync(source, items, aborted)))
  {
    if aborted || !ValidSnapshot([source], items) || !ValidCombination(c, source, items) {
      FailureKeepsInv(h, c);
    } else {
      SyncKeepsSnapshot(h, c, source, items);
      hide ValidSnapshot, ValidCombination, ArchivedItems, ArchivedSources, WithItems, DigestOf, ChangeCounts,
           MaxSequence, LineageId, OtherItems, OtherSources;
      var d := Synced(h, c, source, items);
      hide LogOk, SnapshotOk, LineageOk, RecordsOk, BundlesOk, Distinct, Kept;
      KeptSelf(c.bundles);
      RecordsSurvive(c, d);
      BundlesSurvive(c, d);
      var committed := Archive(h, c, [source], items).(
        sources := OtherSources(c, source.sourceId)[source.sourceId := source],
        items := WithItems(OtherItems(c, source.sourceId), items, |items|));
      ReceiptKeepsLog(h, c, committed,
        Receipt(true, Some(DigestOf(h, committed.sources, committed.items)), |committed.sources|, |committed.items|,
                ChangeCounts(c, [source], items)));
    }
  }

  lemma {:induction false} RegisterBundleKeepsInv(h: Hashes, c: Catalog, b: Bundle)
    requires Inv(h, c)
    ensures Inv(h, Apply(h, c, RegisterBundle(b)))
  {
    hide LogOk, LineageOk, RecordsOk, BundlesOk, Frozen, FrozenIds;
    var d := Apply(h, c, RegisterBundle(b));
    if d != c {
      BundleKeepsBundles(c, b);
      RecordsSurvive(c, d);
      assert Kept(c.bundles, d.bundles);
      LineageSurvives(c, d);
      LogSurvives(h, c, d);
    }
  }

  lemma {:induction false} LogSurvives(h: Hashes, c: Catalog, d: Catalog)
    requires LogOk(h, c) && d.receipts == c.receipts && d.snapshotSha == c.snapshotSha
    requires d.sources == c.sources && d.items == c.items
    ensures LogOk(h, d)
  {
    hide DigestOf;
  }

  /** The tables other than cases, assets and outcomes are as before. */
  lemma {:induction false} OthersSurvive(h: Hashes, c: Catalog, d: Catalog)
    requires SnapshotOk(c) && LineageOk(c) && BundlesOk(c) && LogOk(h, c)
    requires d == c.(cases := d.cases, assets := d.assets, outcomes := d.outcomes)
    ensures SnapshotOk(d) && LineageOk(d) && BundlesOk(d) && LogOk(h, d)
  {
    BundlesSurvive(c, d);
    LineageSurvives(c, d);
    LogSurvives(h, c, d);
  }

  lemma {:induction false} RegisterCaseKeepsInv(h: Hashes, c: Catalog, r: CaseRequest)
    requires Inv(h, c)
    ensures Inv(h, Apply(h, c, RegisterCase(r)))
  {
    hide LogOk, LineageOk, RecordsOk, BundlesOk, SnapshotOk, HasText, ValidNotes;
    var d := Apply(h, c, RegisterCase(r));
    if d != c {
      OthersSurvive(h, c, d);
      var k := WithCase(h, c, r).value.1.caseId;
      CaseKeepsRecords(c, d, k);
    }
  }

  lemma {:induction false} AcceptedAssetOk(h: Hashes, c: Catalog, a: Asset)
    requires RecordsOk(c) && AssetAccepted(c, a)
    ensures AssetOk(c.(assets := c.assets[AssetIdOf(h, a) := a.(assetId := AssetIdOf(h, a))]), AssetIdOf(h, a))
  {
    assert a.caseId.Some? ==> CaseOk(c, a.caseId.value);
    hide HasText, IsDigest, AllHaveText, Available, AssetIdOf, RecordsOk;
  }

  lemma {:induction false} RegisterAssetKeepsInv(h: Hashes, c: Catalog, a: Asset)
    requires Inv(h, c)
    ensures Inv(h, Apply(h, c, RegisterAsset(a)))
  {
    hide LogOk, LineageOk, BundlesOk, SnapshotOk, RecordsOk, AssetAccepted, AssetOk, AssetIdOf;
    var d := Apply(h, c, RegisterAsset(a));
    if d != c {
      AcceptedAssetOk(h, c, a);
      OthersSurvive(h, c, d);
      AssetKeepsRecords(c, d, AssetIdOf(h, a));
    }
  }

  lemma {:induction false} RegisterOutcomeKeepsInv(h: Hashes, c: Catalog, o: Outcome)
    requires Inv(h, c)
    ensures Inv(h, Apply(h, c, RegisterOutcome(o)))
  {
    hide LogOk, LineageOk, BundlesOk, SnapshotOk, ValidAsset, ValidOutcome, HasText, OutcomeIdOf, Available, CaseOk,
         AssetOk, RecordsOk;
    var d := Apply(h, c, RegisterOutcome(o));
    if d != c {
      OthersSurvive(h, c, d);
      OutcomeKeepsRecords(c, d, OutcomeIdOf(h, o));
    }
  }

  lemma {:induction false} EmptyInv(h: Hashes)
    ensures Inv(h, EMPTY)
  {
  }

  /** The invariant holds after every sequence of calls. */
  lemma {:induction false} RunKeepsInv(h: Hashes, calls: seq<Call>)
    ensures Inv(h, Run(h, EMPTY, calls))
    decreases |calls|
  {
    hide Inv, Apply;
    if calls == [] {
      EmptyInv(h);
    } else {
      RunKeepsInv(h, calls[..|calls| - 1]);
      ApplyKeepsInv(h, Run(h, EMPTY, calls[..|calls| - 1]), calls[|calls| - 1]);
    }
  }
}
