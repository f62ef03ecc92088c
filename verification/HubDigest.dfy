/** What the stored snapshot hash says: the same hash means the same records, whenever they were captured. */
module HubDigest {
  import opened HubCatalog
  import opened HubHistory
  import opened HubRuns
  import opened HubSnapshots

  // --- records field by field ---

  predicate SameSource(s: Source, t: Source) {
    s.sourceId == t.sourceId && s.contentSha == t.contentSha && s.facts == t.facts
  }

  predicate SameItem(i: Item, j: Item) {
    i.evidenceId == j.evidenceId && i.sourceId == j.sourceId && i.facts == j.facts
  }

  /** The same ids, and under each id the same record apart from its capture time. */
  predicate SameRecords(a: map<Id, Source>, b: map<Id, Item>, c: map<Id, Source>, d: map<Id, Item>) {
    && a.Keys == c.Keys && b.Keys == d.Keys
    && (forall s | s in a :: SameSource(a[s], c[s]))
    && (forall e | e in b :: SameItem(b[e], d[e]))
  }

  /** Two different snapshots have one hash. */
  ghost predicate Collides(h: Hashes) {
    exists a, b, c, d :: (a != c || b != d) && h.snapshot(a, b) == h.snapshot(c, d)
  }

  function StableSources(m: map<Id, Source>): map<Id, Source> { map id | id in m :: StableSource(m[id]) }

  function StableItems(m: map<Id, Item>): map<Id, Item> { map id | id in m :: StableItem(m[id]) }

  lemma {:induction false} StableSourcesAgree(a: map<Id, Source>, c: map<Id, Source>)
    ensures StableSources(a) == StableSources(c) <==>
              a.Keys == c.Keys && forall s | s in a :: SameSource(a[s], c[s])
  {
    var x, y := StableSources(a), StableSources(c);
    assert x.Keys == a.Keys && y.Keys == c.Keys;
    if x == y {
      forall s | s in a ensures SameSource(a[s], c[s]) {
        assert x[s] == y[s];
      }
    }
  }

  lemma {:induction false} StableItemsAgree(b: map<Id, Item>, d: map<Id, Item>)
    ensures StableItems(b) == StableItems(d) <==> b.Keys == d.Keys && forall e | e in b :: SameItem(b[e], d[e])
  {
    var x, y := StableItems(b), StableItems(d);
    assert x.Keys == b.Keys && y.Keys == d.Keys;
    if x == y {
      forall e | e in b ensures SameItem(b[e], d[e]) {
        assert x[e] == y[e];
      }
    }
  }

  /** Snapshots that differ in capture times alone have one digest, and others two, unless the hash collides. */
  lemma {:induction false} DigestIsOfRecords(
      h: Hashes, a: map<Id, Source>, b: map<Id, Item>, c: map<Id, Source>, d: map<Id, Item>)
    ensures SameRecords(a, b, c, d) ==> DigestOf(h, a, b) == DigestOf(h, c, d)
    ensures DigestOf(h, a, b) == DigestOf(h, c, d) ==> SameRecords(a, b, c, d) || Collides(h)
  {
    StableSourcesAgree(a, c);
    StableItemsAgree(b, d);
    assert DigestOf(h, a, b) == h.snapshot(StableSources(a), StableItems(b));
    assert DigestOf(h, c, d) == h.snapshot(StableSources(c), StableItems(d));
  }

  /** Whatever the hash function, exactly the snapshots with the same records have one digest. */
  lemma {:induction false} DigestsAgreeIff(a: map<Id, Source>, b: map<Id, Item>, c: map<Id, Source>, d: map<Id, Item>)
    ensures SameRecords(a, b, c, d) <==> forall h: Hashes :: DigestOf(h, a, b) == DigestOf(h, c, d)
  {
    forall h: Hashes | SameRecords(a, b, c, d) ensures DigestOf(h, a, b) == DigestOf(h, c, d) {
      DigestIsOfRecords(h, a, b, c, d);
    }
    StableSourcesAgree(a, c);
    StableItemsAgree(b, d);
    var x, y := StableSources(a), StableItems(b);
    var telling := Hashes((kind, parts) => "", (s, i) => if s == x && i == y then "these" else "others");
    assert DigestOf(telling, a, b) == telling.snapshot(StableSources(a), StableItems(b));
    assert DigestOf(telling, c, d) == telling.snapshot(StableSources(c), StableItems(d));
  }

  // --- over runs ---

  /** After any two histories with a stored hash, the hashes agree exactly if the snapshots hold the same records. */
  lemma {:induction false} StoredHashNamesRecords(h: Hashes, calls: seq<Call>, calls': seq<Call>)
    requires !Collides(h)
    ensures var c, d := After(h, calls), After(h, calls');
            c.snapshotSha.Some? && d.snapshotSha.Some? ==>
              (c.snapshotSha == d.snapshotSha <==> SameRecords(c.sources, c.items, d.sources, d.items))
  {
    CatalogIsConsistent(h, calls);
    CatalogIsConsistent(h, calls');
    var c, d := After(h, calls), After(h, calls');
    DigestIsOfRecords(h, c.sources, c.items, d.sources, d.items);
    hide After, DigestOf, Collides, SameRecords;
  }

  lemma {:induction false} SyncStores(h: Hashes, calls: seq<Call>, s: Source, v: Item)
    requires OnlyOf(After(h, calls), s.sourceId) && v.sourceId == s.sourceId
    ensures var d := After(h, calls + [Sync(s, [v], false)]);
            && OnlyOf(d, s.sourceId) && d.snapshotSha.Some?
            && v.evidenceId in d.items && d.items[v.evidenceId] == v
  {
    var c, call := After(h, calls), Sync(s, [v], false);
    var more := calls + [call];
    RunKeepsInv(h, calls);
    RunKeepsInv(h, more);
    SyncAlone(h, c, s, [v]);
    assert more[..|more| - 1] == calls && more[|more| - 1] == call;
    SyncReplacesOneSource(h, c, s, [v]);
    hide Synced, SnapshotOk, LineageOk, BundlesOk, RecordsOk, OnlyOf, ValidSnapshot, ValidCombination;
    assert [v][0] == v;
  }

  /** Syncing an item again with other facts changes the stored hash. */
  lemma {:induction false} NewFactsChangeHash(h: Hashes, s: Source, v: Item, w: Item)
    requires !Collides(h) && v.sourceId == s.sourceId && w.sourceId == s.sourceId && v.evidenceId == w.evidenceId
    requires v.facts != w.facts
    ensures var once, twice := [Sync(s, [v], false)], [Sync(s, [v], false), Sync(s, [w], false)];
            && After(h, once).snapshotSha.Some? && After(h, twice).snapshotSha.Some?
            && After(h, once).snapshotSha != After(h, twice).snapshotSha
  {
    hide *;
    var once, twice := [Sync(s, [v], false)], [Sync(s, [v], false), Sync(s, [w], false)];
    assert [] + once == once && once + [Sync(s, [w], false)] == twice;
    NothingCommitted(h, s.sourceId, v.evidenceId);
    SyncStores(h, [], s, v);
    SyncStores(h, once, s, w);
    StoredHashNamesRecords(h, once, twice);
    ItemsDiffer(After(h, once), After(h, twice), v.evidenceId);
  }

  lemma {:induction false} ItemsDiffer(c: Catalog, d: Catalog, e: Id)
    requires e in c.items && e in d.items && c.items[e].facts != d.items[e].facts
    ensures !SameRecords(c.sources, c.items, d.sources, d.items)
  {
  }
}
