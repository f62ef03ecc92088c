/** What one refresh or sync does to the snapshot, and what its receipt says. */
module HubSnapshots {
  import opened Collections
  import opened HubCatalog
  import opened HubHistory
  import opened HubRuns
  import opened Text

  // --- the snapshot after a refresh is exactly what was collected ---

  lemma {:induction false} WithSourcesRow(m: map<Id, Source>, sources: seq<Source>, k: nat, i: nat)
    requires i < k <= |sources| && Distinct(SourceIds(sources))
    ensures sources[i].sourceId in WithSources(m, sources, k)
        && WithSources(m, sources, k)[sources[i].sourceId] == sources[i]
    decreases k
  {
    if i < k - 1 {
      WithSourcesRow(m, sources, k - 1, i);
      assert SourceIds(sources)[i] != SourceIds(sources)[k - 1];
    }
  }

  lemma {:induction false} WithItemsRow(m: map<Id, Item>, items: seq<Item>, k: nat, i: nat)
    requires i < k <= |items| && Distinct(ItemIds(items))
    ensures items[i].evidenceId in WithItems(m, items, k) && WithItems(m, items, k)[items[i].evidenceId] == items[i]
    decreases k
  {
    if i < k - 1 {
      WithItemsRow(m, items, k - 1, i);
      assert ItemIds(items)[i] != ItemIds(items)[k - 1];
    }
  }

  lemma {:induction false} WithSourcesOrigin(m: map<Id, Source>, sources: seq<Source>, k: nat, s: Id)
    requires k <= |sources| && s in WithSources(m, sources, k)
    ensures (s in m && WithSources(m, sources, k)[s] == m[s])
        || exists i :: 0 <= i < k && sources[i] == WithSources(m, sources, k)[s]
    decreases k
  {
    if k > 0 && sources[k - 1].sourceId != s { WithSourcesOrigin(m, sources, k - 1, s); }
  }

  /** The snapshot tables hold exactly the listed rows. */
  predicate Holds(c: Catalog, sources: seq<Source>, items: seq<Item>) {
    && (forall i | 0 <= i < |sources| ::
        sources[i].sourceId in c.sources && c.sources[sources[i].sourceId] == sources[i])
    && (forall i | 0 <= i < |items| :: items[i].evidenceId in c.items && c.items[items[i].evidenceId] == items[i])
    && (forall s | s in c.sources :: c.sources[s] in sources)
    && (forall e | e in c.items :: c.items[e] in items)
  }

  lemma {:induction false} RefreshReplacesSnapshot(h: Hashes, c: Catalog, sources: seq<Source>, items: seq<Item>)
    requires ValidSnapshot(sources, items)
    ensures Holds(Refreshed(h, c, sources, items), sources, items)
  {
    hide WithSources, WithItems, Distinct, SourceIds, ItemIds, Archive, WithReceipt, DigestOf, ChangeCounts;
    var newSources, newItems := WithSources(map[], sources, |sources|), WithItems(map[], items, |items|);
    var d := Refreshed(h, c, sources, items);
    RefreshedRows(h, c, sources, items);
    forall i | 0 <= i < |sources|
      ensures sources[i].sourceId in d.sources && d.sources[sources[i].sourceId] == sources[i]
    {
      WithSourcesRow(map[], sources, |sources|, i);
    }
    forall i | 0 <= i < |items| ensures items[i].evidenceId in d.items && d.items[items[i].evidenceId] == items[i] {
      WithItemsRow(map[], items, |items|, i);
    }
    forall s | s in d.sources ensures d.sources[s] in sources { WithSourcesOrigin(map[], sources, |sources|, s); }
    forall e | e in d.items ensures d.items[e] in items { WithItemsOrigin(map[], items, |items|, e); }
  }

  /** `sync_source` replaces exactly the named source's rows: its new rows are the listed ones, all others stay. */
  lemma {:induction false} SyncReplacesOneSource(h: Hashes, c: Catalog, source: Source, items: seq<Item>)
    requires SnapshotOk(c) && ValidSnapshot([source], items) && ValidCombination(c, source, items)
    ensures var d := Synced(h, c, source, items);
            && source.sourceId in d.sources && d.sources[source.sourceId] == source
            && (forall s | s != source.sourceId :: s in d.sources <==> s in c.sources)
            && (forall s | s in c.sources && s != source.sourceId :: d.sources[s] == c.sources[s])
            && (forall i | 0 <= i < |items| ::
                items[i].evidenceId in d.items && d.items[items[i].evidenceId] == items[i])
            && (forall e | e in d.items && d.items[e].sourceId == source.sourceId :: d.items[e] in items)
            && (forall e | e in d.items && d.items[e].sourceId != source.sourceId ::
                e in c.items && c.items[e] == d.items[e])
            && (forall e | e in c.items && c.items[e].sourceId != source.sourceId ::
                e in d.items && d.items[e] == c.items[e])
  {
    SyncedRows(h, c, source, items);
    hide Synced, WithItems, Distinct, SourceIds, ItemIds;
    var d := Synced(h, c, source, items);
    forall i | 0 <= i < |items| ensures items[i].evidenceId in d.items && d.items[items[i].evidenceId] == items[i] {
      WithItemsRow(OtherItems(c, source.sourceId), items, |items|, i);
    }
    forall e | e in d.items
      ensures d.items[e].sourceId == source.sourceId ==> d.items[e] in items
      ensures d.items[e].sourceId != source.sourceId ==> e in c.items && c.items[e] == d.items[e]
    {
      SyncedTables(c, source, items, e);
    }
    forall e | e in c.items && c.items[e].sourceId != source.sourceId ensures e in d.items && d.items[e] == c.items[e] {
      assert e in OtherItems(c, source.sourceId);
      OtherRowStays(OtherItems(c, source.sourceId), items, |items|, e);
    }
  }

  lemma {:induction false} OtherRowStays(m: map<Id, Item>, items: seq<Item>, k: nat, e: Id)
    requires k <= |items| && e in m && forall i | 0 <= i < |items| :: items[i].evidenceId !in m
    ensures e in WithItems(m, items, k) && WithItems(m, items, k)[e] == m[e]
    decreases k
  {
    if k > 0 { OtherRowStays(m, items, k - 1, e); }
  }

  // --- counts ---

  function Total(c: Counts): nat { c.created + c.updated + c.same }

  lemma {:induction false} SourcesCounted(m: map<Id, Source>, sources: seq<Source>, c: Counts, k: nat)
    requires k <= |sources|
    ensures Total(CountSources(m, sources, c, k)) == Total(c) + k
    decreases k
  {
    if k > 0 { SourcesCounted(m, sources, c, k - 1); }
  }

  lemma {:induction false} ItemsCounted(m: map<Id, Item>, items: seq<Item>, c: Counts, k: nat)
    requires k <= |items|
    ensures Total(CountItems(m, items, c, k)) == Total(c) + k
    decreases k
  {
    if k > 0 { ItemsCounted(m, items, c, k - 1); }
  }

  /** Every synced record is counted once: as created, updated or unchanged. */
  lemma {:induction false} EveryRecordCounted(c: Catalog, sources: seq<Source>, items: seq<Item>)
    ensures Total(ChangeCounts(c, sources, items)) == |sources| + |items|
  {
    SourcesCounted(c.sources, sources, Counts(0, 0, 0), |sources|);
    ItemsCounted(c.items, items, CountSources(c.sources, sources, Counts(0, 0, 0), |sources|), |items|);
    hide CountSources, CountItems;
  }

  /** The same facts, possibly captured at other times. */
  predicate SameFacts(sources: seq<Source>, items: seq<Item>, sources': seq<Source>, items': seq<Item>) {
    && |sources'| == |sources| && |items'| == |items|
    && (forall i | 0 <= i < |sources| :: StableSource(sources'[i]) == StableSource(sources[i]))
    && (forall i | 0 <= i < |items| :: StableItem(items'[i]) == StableItem(items[i]))
  }

  lemma {:induction false} SourcesAllSame(m: map<Id, Source>, sources: seq<Source>, c: Counts, k: nat)
    requires k <= |sources|
    requires forall i | 0 <= i < |sources| ::
               sources[i].sourceId in m && StableSource(m[sources[i].sourceId]) == StableSource(sources[i])
    ensures CountSources(m, sources, c, k) == c.(same := c.same + k)
    decreases k
  {
    if k > 0 { SourcesAllSame(m, sources, c, k - 1); }
  }

  lemma {:induction false} ItemsAllSame(m: map<Id, Item>, items: seq<Item>, c: Counts, k: nat)
    requires k <= |items|
    requires forall i | 0 <= i < |items| ::
               items[i].evidenceId in m && StableItem(m[items[i].evidenceId]) == StableItem(items[i])
    ensures CountItems(m, items, c, k) == c.(same := c.same + k)
    decreases k
  {
    if k > 0 { ItemsAllSame(m, items, c, k - 1); }
  }

  /** Refreshing again with the same facts reports every record unchanged. */
  lemma {:induction false} RefreshAgainIsUnchanged(
      h: Hashes, c: Catalog, sources: seq<Source>, items: seq<Item>, sources': seq<Source>, items': seq<Item>)
    requires ValidSnapshot(sources, items) && SameFacts(sources, items, sources', items')
    ensures ChangeCounts(Refreshed(h, c, sources, items), sources', items') == Counts(0, 0, |sources| + |items|)
  {
    RefreshReplacesSnapshot(h, c, sources, items);
    hide Refreshed, CountSources, CountItems, ValidSnapshot;
    var d := Refreshed(h, c, sources, items);
    forall i | 0 <= i < |sources'|
      ensures sources'[i].sourceId in d.sources
          && StableSource(d.sources[sources'[i].sourceId]) == StableSource(sources'[i])
    {
      assert StableSource(sources'[i]) == StableSource(sources[i]);
      assert sources'[i].sourceId == sources[i].sourceId;
    }
    forall i | 0 <= i < |items'|
      ensures items'[i].evidenceId in d.items && StableItem(d.items[items'[i].evidenceId]) == StableItem(items'[i])
    {
      assert StableItem(items'[i]) == StableItem(items[i]);
      assert items'[i].evidenceId == items[i].evidenceId;
    }
    SourcesAllSame(d.sources, sources', Counts(0, 0, 0), |sources'|);
    ItemsAllSame(d.items, items', CountSources(d.sources, sources', Counts(0, 0, 0), |sources'|), |items'|);
  }

  // --- receipts over runs ---

  function Syncs(calls: seq<Call>): nat
    decreases |calls|
  {
    if calls == [] then 0
    else Syncs(calls[..|calls| - 1]) + (if calls[|calls| - 1].Refresh? || calls[|calls| - 1].Sync? then 1 else 0)
  }

  lemma {:induction false} ReceiptAdded(c: Catalog, d: Catalog, r: Receipt)
    requires d.receipts == c.receipts
    ensures |WithReceipt(d, r).receipts| == |c.receipts| + 1
  {
    hide MaxSequence;
  }

  lemma {:induction false} RefreshReceipts(h: Hashes, c: Catalog, sources: seq<Source>, items: seq<Item>, aborted: bool)
    ensures |AfterRefresh(h, c, sources, items, aborted).receipts| == |c.receipts| + 1
  {
    ReceiptAdded(c, c, FAILED);
    hide WithReceipt, DigestOf, ChangeCounts, WithSources, WithItems, ArchivedItems, ArchivedSources, ValidSnapshot;
    if !aborted && ValidSnapshot(sources, items) {
      var newSources, newItems := WithSources(map[], sources, |sources|), WithItems(map[], items, |items|);
      ReceiptAdded(c, Archive(h, c, sources, items).(sources := newSources, items := newItems),
        Receipt(true, Some(DigestOf(h, newSources, newItems)), |sources|, |items|, ChangeCounts(c, sources, items)));
    }
  }

  lemma {:induction false} SyncedReceipts(h: Hashes, c: Catalog, source: Source, items: seq<Item>)
    requires ValidSnapshot([source], items)
    ensures |Synced(h, c, source, items).receipts| == |c.receipts| + 1
  {
    hide WithReceipt, DigestOf, ChangeCounts, WithItems, ArchivedItems, ArchivedSources, Distinct, SourceIds, ItemIds,
         OtherItems, OtherSources;
    var newSources := OtherSources(c, source.sourceId)[source.sourceId := source];
    var newItems := WithItems(OtherItems(c, source.sourceId), items, |items|);
    ReceiptAdded(c, Archive(h, c, [source], items).(sources := newSources, items := newItems),
      Receipt(true, Some(DigestOf(h, newSources, newItems)), |newSources|, |newItems|,
        ChangeCounts(c, [source], items)));
  }

  lemma {:induction false} SyncReceipts(h: Hashes, c: Catalog, source: Source, items: seq<Item>, aborted: bool)
    ensures |AfterSync(h, c, source, items, aborted).receipts| == |c.receipts| + 1
  {
    hide WithReceipt, Synced, ValidSnapshot, ValidCombination;
    ReceiptAdded(c, c, FAILED);
    if ValidSnapshot([source], items) { SyncedReceipts(h, c, source, items); }
  }

  lemma {:induction false} ApplyReceipts(h: Hashes, c: Catalog, call: Call)
    ensures |Apply(h, c, call).receipts| == |c.receipts| + (if call.Refresh? || call.Sync? then 1 else 0)
  {
    hide AfterRefresh, AfterSync, WithBundle, WithCase, WithAsset, WithOutcome;
    match call
    case Refresh(sources, items, aborted) => RefreshReceipts(h, c, sources, items, aborted);
    case Sync(source, items, aborted) => SyncReceipts(h, c, source, items, aborted);
    case _ => RegistrationKeepsSnapshot(h, c, call);
  }

  lemma {:induction false} RunReceipts(h: Hashes, calls: seq<Call>)
    ensures |After(h, calls).receipts| == Syncs(calls)
    decreases |calls|
  {
    hide Apply;
    if calls != [] {
      RunReceipts(h, calls[..|calls| - 1]);
      ApplyReceipts(h, After(h, calls[..|calls| - 1]), calls[|calls| - 1]);
    }
  }

  /** After any calls: one receipt for each refresh and sync, numbered 1 to n without gaps; the stored hash is there
      once one succeeded, and is then the digest of the current snapshot; every item names a snapshot source. */
  lemma {:induction false} CatalogIsConsistent(h: Hashes, calls: seq<Call>)
    ensures var c := After(h, calls);
            && |c.receipts| == Syncs(calls)
            && (forall i | 0 <= i < |c.receipts| :: c.receipts[i].sequence == i + 1)
            && (c.snapshotSha.Some? <==> exists i :: 0 <= i < |c.receipts| && c.receipts[i].receipt.succeeded)
            && (c.snapshotSha.Some? ==> c.snapshotSha.value == DigestOf(h, c.sources, c.items))
            && (forall e | e in c.items :: c.items[e].sourceId in c.sources)
  {
    RunReceipts(h, calls);
    RunKeepsInv(h, calls);
    hide Run, DigestOf, Syncs, RecordsOk, BundlesOk, LineageOk;
  }
}
