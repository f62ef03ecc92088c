/** The hub itself: tables changed statement by statement inside transactions that roll back. */
module EvidenceHub {
  import opened Collections
  import opened HubCatalog
  import opened Text

  /** Where a transaction raises: in its n-th statement, after so many rows of it; or nowhere. */
  datatype Fault = NoFault | FaultAt(statement: nat, rows: nat)

  /** How many of a statement's rows are written. */
  function Written(fault: Fault, statement: nat, total: nat): nat {
    if fault.FaultAt? && fault.statement == statement && fault.rows < total then fault.rows else total
  }

  predicate Raises(fault: Fault, statement: nat) {
    fault.FaultAt? && fault.statement == statement
  }

  /** The statements of a snapshot transaction: two archive, two delete, two insert, the receipt, the commit. */
  const STATEMENTS: nat := 8

  predicate Aborts(fault: Fault) {
    fault.FaultAt? && fault.statement < STATEMENTS
  }

  datatype Snapshot = Snapshot(sources: seq<Source>, items: seq<Item>)

  /** What a snapshot transaction commits. */
  function Replaced(
      h: Hashes, c: Catalog, leftSources: map<Id, Source>, leftItems: map<Id, Item>, newSources: seq<Source>,
      newItems: seq<Item>, receipt: Receipt): Catalog
    requires forall i | 0 <= i < |newItems| :: newItems[i].sourceId in SourceIds(newSources)
  {
    WithReceipt(
      Archive(h, c, newSources, newItems).(
        sources := WithSources(leftSources, newSources, |newSources|),
        items := WithItems(leftItems, newItems, |newItems|)),
      receipt)
  }

  class EvidenceHub {
    const h: Hashes
    var sources: map<Id, Source>
    var items: map<Id, Item>
    var lineageSources: map<Id, Source>
    var lineageItems: map<Id, LineageItem>
    var bundles: map<Id, Bundle>
    var frozen: map<FrozenKey, Item>
    var cases: map<Id, Case>
    var assets: map<Id, Asset>
    var outcomes: map<Id, Outcome>
    var receipts: seq<ReceiptRow>
    var snapshotSha: Option<string>

    function State(): Catalog
      reads this
    {
      Catalog(sources, items, lineageSources, lineageItems, bundles, frozen, cases, assets, outcomes, receipts,
        snapshotSha)
    }

    constructor (hashes: Hashes)
      ensures State() == EMPTY && h == hashes
    {
      h := hashes;
      sources, items, lineageSources, lineageItems := map[], map[], map[], map[];
      bundles, frozen, cases, assets, outcomes := map[], map[], map[], map[], map[];
      receipts, snapshotSha := [], None;
    }

    // --- statements ---

    method ArchiveSources(rows: seq<Source>, upto: nat)
      requires upto <= |rows|
      modifies this`lineageSources
      ensures lineageSources == ArchivedSources(h, old(lineageSources), rows, upto)
    {
      var i := 0;
      while i < upto
        invariant i <= upto
        invariant lineageSources == ArchivedSources(h, old(lineageSources), rows, i)
      {
        var id := LineageId(h, rows[i]);
        if id !in lineageSources { lineageSources := lineageSources[id := rows[i]]; }
        i := i + 1;
      }
    }

    method ArchiveItems(known: seq<Source>, rows: seq<Item>, upto: nat)
      requires upto <= |rows| && forall i | 0 <= i < |rows| :: rows[i].sourceId in SourceIds(known)
      modifies this`lineageItems
      ensures lineageItems == ArchivedItems(h, old(lineageItems), known, rows, upto)
    {
      var i := 0;
      while i < upto
        invariant i <= upto
        invariant lineageItems == ArchivedItems(h, old(lineageItems), known, rows, i)
      {
        var row := rows[i];
        if row.evidenceId !in lineageItems {
          lineageItems := lineageItems[row.evidenceId := LineageItem(LineageId(h, SourceOf(known, row.sourceId)), row)];
        }
        i := i + 1;
      }
    }

    /** A plain `INSERT`: a repeated key raises. */
    method InsertSources(rows: seq<Source>, upto: nat) returns (ok: bool)
      requires upto <= |rows|
      modifies this`sources
      ensures Distinct(SourceIds(rows)) && (forall i | 0 <= i < |rows| :: rows[i].sourceId !in old(sources)) ==> ok
      ensures ok ==> sources == WithSources(old(sources), rows, upto)
    {
      var i := 0;
      while i < upto
        invariant i <= upto
        invariant sources == WithSources(old(sources), rows, i)
      {
        if rows[i].sourceId in sources {
          OldOrListedSource(old(sources), rows, i, rows[i].sourceId);
          return false;
        }
        sources := sources[rows[i].sourceId := rows[i]];
        i := i + 1;
      }
      return true;
    }

    method InsertItems(rows: seq<Item>, upto: nat) returns (ok: bool)
      requires upto <= |rows|
      modifies this`items
      ensures Distinct(ItemIds(rows)) && (forall i | 0 <= i < |rows| :: rows[i].evidenceId !in old(items)) ==> ok
      ensures ok ==> items == WithItems(old(items), rows, upto)
    {
      var i := 0;
      while i < upto
        invariant i <= upto
        invariant items == WithItems(old(items), rows, i)
      {
        if rows[i].evidenceId in items {
          OldOrListedItem(old(items), rows, i, rows[i].evidenceId);
          return false;
        }
        items := items[rows[i].evidenceId := rows[i]];
        i := i + 1;
      }
      return true;
    }

    method InsertReceipt(receipt: Receipt)
      modifies this`receipts, this`snapshotSha
      ensures State() == WithReceipt(old(State()), receipt)
    {
      receipts := receipts + [ReceiptRow(MaxSequence(receipts) + 1, receipt)];
      if receipt.snapshotSha.Some? { snapshotSha := receipt.snapshotSha; }
    }

    // --- change counts ---

    method CountChanges(newSources: seq<Source>, newItems: seq<Item>) returns (c: Counts)
      ensures c == ChangeCounts(State(), newSources, newItems)
    {
      c := Counts(0, 0, 0);
      var i := 0;
      while i < |newSources|
        invariant i <= |newSources| && c == CountSources(sources, newSources, Counts(0, 0, 0), i)
      {
        var s := newSources[i];
        if s.sourceId !in sources {
          c := c.(created := c.created + 1);
        } else if StableSource(s) == StableSource(sources[s.sourceId]) {
          c := c.(same := c.same + 1);
        } else {
          c := c.(updated := c.updated + 1);
        }
        i := i + 1;
      }
      ghost var base := c;
      i := 0;
      while i < |newItems|
        invariant i <= |newItems| && c == CountItems(items, newItems, base, i)
      {
        var e := newItems[i];
        if e.evidenceId !in items {
          c := c.(created := c.created + 1);
        } else if StableItem(e) == StableItem(items[e.evidenceId]) {
          c := c.(same := c.same + 1);
        } else {
          c := c.(updated := c.updated + 1);
        }
        i := i + 1;
      }
    }

    // --- transactions ---

    /** `rollback` of the tables that a transaction may have touched. */
    method Rollback(saved: Catalog)
      requires saved.cases == cases && saved.assets == assets && saved.outcomes == outcomes
      modifies this
      ensures State() == saved
    {
      sources := saved.sources;
      items := saved.items;
      lineageSources := saved.lineageSources;
      lineageItems := saved.lineageItems;
      bundles := saved.bundles;
      frozen := saved.frozen;
      receipts := saved.receipts;
      snapshotSha := saved.snapshotSha;
    }

    /** The archive and delete statements; the deletes leave the given rows. */
    method ArchiveAndDelete(
        leftSources: map<Id, Source>, leftItems: map<Id, Item>, newSources: seq<Source>, newItems: seq<Item>,
        fault: Fault)
      returns (ok: bool)
      requires forall i | 0 <= i < |newItems| :: newItems[i].sourceId in SourceIds(newSources)
      modifies this`sources, this`items, this`lineageSources, this`lineageItems
      ensures ok <==> !(fault.FaultAt? && fault.statement < 4)
      ensures ok ==>
                State() == Archive(h, old(State()), newSources, newItems).(sources := leftSources, items := leftItems)
    {
      hide SourceIds, ArchivedSources, ArchivedItems;
      ArchiveSources(newSources, Written(fault, 0, |newSources|));
      if Raises(fault, 0) { return false; }
      ArchiveItems(newSources, newItems, Written(fault, 1, |newItems|));
      if Raises(fault, 1) || Raises(fault, 2) { return false; }
      items := leftItems;
      if Raises(fault, 3) { return false; }
      sources := leftSources;
      return true;
    }

    /** The insert statements, the receipt and the commit. */
    method InsertAndCommit(
        newSources: seq<Source>, newItems: seq<Item>, receipt: Receipt, fault: Fault) returns (ok: bool)
      requires Distinct(SourceIds(newSources)) && Distinct(ItemIds(newItems))
      requires forall i | 0 <= i < |newSources| :: newSources[i].sourceId !in sources
      requires forall i | 0 <= i < |newItems| :: newItems[i].evidenceId !in items
      requires !(fault.FaultAt? && fault.statement < 4)
      modifies this`sources, this`items, this`receipts, this`snapshotSha
      ensures ok <==> !Aborts(fault)
      ensures ok ==> State() == WithReceipt(
                old(State()).(sources := WithSources(old(sources), newSources, |newSources|),
                              items := WithItems(old(items), newItems, |newItems|)),
                receipt)
    {
      hide Distinct, SourceIds, ItemIds, WithReceipt, WithSources, WithItems;
      ok := InsertSources(newSources, Written(fault, 4, |newSources|));
      if Raises(fault, 4) { return false; }
      ok := InsertItems(newItems, Written(fault, 5, |newItems|));
      if Raises(fault, 5) || Raises(fault, 6) { return false; }
      InsertReceipt(receipt);
      return !Raises(fault, 7);
    }

    /** The statements between `BEGIN IMMEDIATE` and the end of the commit. */
    method Statements(
        leftSources: map<Id, Source>, leftItems: map<Id, Item>, newSources: seq<Source>, newItems: seq<Item>,
        receipt: Receipt, fault: Fault) returns (ok: bool)
      requires Distinct(SourceIds(newSources)) && Distinct(ItemIds(newItems))
      requires forall i | 0 <= i < |newItems| :: newItems[i].sourceId in SourceIds(newSources)
      requires forall i | 0 <= i < |newSources| :: newSources[i].sourceId !in leftSources
      requires forall i | 0 <= i < |newItems| :: newItems[i].evidenceId !in leftItems
      modifies this`sources, this`items, this`lineageSources, this`lineageItems, this`receipts, this`snapshotSha
      ensures ok <==> !Aborts(fault)
      ensures ok ==> State() == Replaced(h, old(State()), leftSources, leftItems, newSources, newItems, receipt)
    {
      hide Distinct, SourceIds, ItemIds, WithReceipt, Archive, WithSources, WithItems;
      ok := ArchiveAndDelete(leftSources, leftItems, newSources, newItems, fault);
      if ok { ok := InsertAndCommit(newSources, newItems, receipt, fault); }
    }

    method Transaction(
        leftSources: map<Id, Source>, leftItems: map<Id, Item>, newSources: seq<Source>, newItems: seq<Item>,
        receipt: Receipt, fault: Fault) returns (ok: bool)
      requires Distinct(SourceIds(newSources)) && Distinct(ItemIds(newItems))
      requires forall i | 0 <= i < |newItems| :: newItems[i].sourceId in SourceIds(newSources)
      requires forall i | 0 <= i < |newSources| :: newSources[i].sourceId !in leftSources
      requires forall i | 0 <= i < |newItems| :: newItems[i].evidenceId !in leftItems
      modifies this
      ensures ok <==> !Aborts(fault)
      ensures State() == if ok then Replaced(h, old(State()), leftSources, leftItems, newSources, newItems, receipt)
                         else old(State())
    {
      hide Replaced, Distinct, SourceIds, ItemIds;
      var saved := State();
      ok := Statements(leftSources, leftItems, newSources, newItems, receipt, fault);
      if !ok { Rollback(saved); }
    }

    // --- refresh and sync ---

    /** `refresh`. Collecting may raise, and so may any statement; either leaves only a failure receipt. */
    method Refresh(collected: Option<Snapshot>, fault: Fault) returns (receipt: Receipt)
      modifies this
      ensures collected.None? ==> State() == WithReceipt(old(State()), FAILED)
      ensures collected.Some? ==>
                State() == AfterRefresh(h, old(State()), collected.value.sources, collected.value.items, Aborts(fault))
      ensures receipt.succeeded <==>
                collected.Some? && ValidSnapshot(collected.value.sources, collected.value.items) && !Aborts(fault)
    {
      hide Distinct, SourceIds, ItemIds, WithReceipt, DigestOf, Archive, WithSources, WithItems, ChangeCounts;
      if collected.Some? && ValidSnapshot(collected.value.sources, collected.value.items) {
        var newSources, newItems := collected.value.sources, collected.value.items;
        var digest := DigestOf(h, WithSources(map[], newSources, |newSources|), WithItems(map[], newItems, |newItems|));
        var changes := CountChanges(newSources, newItems);
        receipt := Receipt(true, Some(digest), |newSources|, |newItems|, changes);
        var ok := Transaction(map[], map[], newSources, newItems, receipt, fault);
        if ok { return; }
      }
      receipt := FAILED;
      InsertReceipt(receipt);
    }

    /** `sync_source`. */
    method SyncSource(source: Source, newItems: seq<Item>, fault: Fault) returns (receipt: Receipt)
      modifies this
      ensures State() == AfterSync(h, old(State()), source, newItems, Aborts(fault))
      ensures receipt.succeeded <==>
                ValidSnapshot([source], newItems) && ValidCombination(old(State()), source, newItems) && !Aborts(fault)
    {
      hide Distinct, SourceIds, ItemIds, WithReceipt, DigestOf, Archive, WithItems, ChangeCounts;
      if ValidSnapshot([source], newItems) && ValidCombination(State(), source, newItems) {
        var leftSources, leftItems := OtherSources(State(), source.sourceId), OtherItems(State(), source.sourceId);
        var combinedSources := leftSources[source.sourceId := source];
        var combinedItems := WithItems(leftItems, newItems, |newItems|);
        var changes := CountChanges([source], newItems);
        receipt := Receipt(true, Some(DigestOf(h, combinedSources, combinedItems)), |combinedSources|,
          |combinedItems|, changes);
        var ok := Transaction(leftSources, leftItems, [source], newItems, receipt, fault);
        assert WithSources(leftSources, [source], 1) == combinedSources;
        if ok { return; }
      }
      receipt := FAILED;
      InsertReceipt(receipt);
    }

    // --- bundles ---

    /** `_archive_bundle_lineage`: a missing row, or a copy that exists already, raises. */
    method ArchiveBundle(b: Bundle) returns (ok: bool)
      requires Distinct(b.evidenceIds)
      modifies this`frozen
      ensures ok <==>
                && AllCurrent(State(), b.evidenceIds)
                && FrozenIds(old(frozen), b.bundleId) * IdSet(b.evidenceIds) == {}
      ensures ok ==> frozen == Frozen(old(State()), b, |b.evidenceIds|)
    {
      hide Distinct;
      ghost var before := State();
      if !AllCurrent(State(), b.evidenceIds) { return false; }
      var i := 0;
      while i < |b.evidenceIds|
        invariant i <= |b.evidenceIds|
        invariant frozen == Frozen(before, b, i)
        invariant forall j | 0 <= j < i :: FrozenKey(b.bundleId, b.evidenceIds[j]) !in before.frozen
      {
        var key := FrozenKey(b.bundleId, b.evidenceIds[i]);
        if key in frozen {
          OldOrFrozen(before, b, i);
          FrozenAlready(before.frozen, b, i);
          return false;
        }
        FrozenExtends(before, b, i);
        frozen := frozen[key := items[b.evidenceIds[i]]];
        i := i + 1;
      }
      NothingFrozenYet(before.frozen, b);
      return true;
    }

    /** The insert that took effect: the new row and its frozen copies. */
    method InsertBundle(b: Bundle) returns (ok: bool)
      requires ValidBundle(b) && b.bundleId !in bundles
      modifies this`bundles, this`frozen
      ensures ok <==>
                && AllCurrent(old(State()), b.evidenceIds)
                && FrozenIds(old(frozen), b.bundleId) * IdSet(b.evidenceIds) == {}
      ensures ok ==> State() == old(State()).(bundles := old(bundles)[b.bundleId := b],
                                              frozen := Frozen(old(State()), b, |b.evidenceIds|))
    {
      hide Frozen, FrozenIds, IdSet;
      ghost var before := State();
      bundles := bundles[b.bundleId := b];
      ok := ArchiveBundle(b);
      if ok { FrozenFromItems(before, before.(bundles := bundles), b, |b.evidenceIds|); }
    }

    /** `register_bundle`; a bundle object has passed its validator. */
    method RegisterBundle(b: Bundle) returns (r: Result<Bundle>)
      requires ValidBundle(b)
      modifies this
      ensures State() == Registered(old(State()), WithBundle(old(State()), b))
      ensures r == (match WithBundle(old(State()), b) case Ok(p) => Ok(p.1) case Rejected => Rejected)
    {
      hide ValidBundle, Frozen, FrozenIds, IdSet, AllCurrent;
      var saved := State();
      var registered := b;
      if b.bundleId in bundles {
        registered := bundles[b.bundleId];
        if StableBundle(registered) != StableBundle(b)
          || FrozenIds(frozen, registered.bundleId) != IdSet(registered.evidenceIds) {
          return Rejected;
        }
      } else {
        var ok := InsertBundle(b);
        if !ok || FrozenIds(frozen, b.bundleId) != IdSet(b.evidenceIds) {
          Rollback(saved);
          return Rejected;
        }
      }
      return Ok(registered);
    }

    /** `resolve_bundle`. */
    method ResolveBundle(bundleId: Id) returns (r: Result<(Bundle, seq<Item>)>)
      ensures r == Resolve(State(), bundleId)
    {
      if bundleId !in bundles { return Rejected; }
      var bundle := bundles[bundleId];
      var resolved: seq<Item> := [];
      var i := 0;
      while i < |bundle.evidenceIds|
        invariant i <= |bundle.evidenceIds| && FrozenItems(State(), bundle, i) == Ok(resolved)
      {
        var key := FrozenKey(bundle.bundleId, bundle.evidenceIds[i]);
        if key !in frozen {
          MissingStaysMissing(State(), bundle, i + 1, |bundle.evidenceIds|);
          return Rejected;
        }
        resolved := resolved + [frozen[key]];
        i := i + 1;
      }
      return Ok((bundle, resolved));
    }

    // --- immutable records ---

    method RegisterCase(request: CaseRequest) returns (r: Result<Case>)
      modifies this`cases
      ensures State() == Registered(old(State()), WithCase(h, old(State()), request))
      ensures r == (match WithCase(h, old(State()), request) case Ok(p) => Ok(p.1) case Rejected => Rejected)
    {
      hide HasText, ValidNotes;
      if request.bundleId !in bundles { return Rejected; }
      var problem := TextOr(Or(request.problem, request.title), "");
      if problem == "" {
        assert !HasText(problem) by { NoText(); }
        return Rejected;
      }
      var title, promotion := TextOr(request.title, problem), PromotionOf(TextOr(request.status, request.promotion));
      if !HasText(problem) || !HasText(title) || !ValidNotes(request.notes) || promotion.None? { return Rejected; }
      var record := Case(h.stableId("case", [request.bundleId, problem]), request.bundleId, title, problem,
                         bundles[request.bundleId].evidenceIds, request.notes, promotion.value, request.createdAt);
      if record.caseId !in cases {
        cases := cases[record.caseId := record];
        return Ok(record);
      }
      if StableCase(cases[record.caseId]) != StableCase(record) { return Rejected; }
      return Ok(cases[record.caseId]);
    }

    method RegisterAsset(request: Asset) returns (r: Result<Asset>)
      modifies this`assets
      ensures State() == Registered(old(State()), WithAsset(h, old(State()), request))
      ensures r == (match WithAsset(h, old(State()), request) case Ok(p) => Ok(p.1) case Rejected => Rejected)
    {
      hide AssetAccepted, AssetIdOf;
      if !AssetAccepted(State(), request) { return Rejected; }
      var record := request.(assetId := AssetIdOf(h, request));
      if record.assetId !in assets {
        assets := assets[record.assetId := record];
        return Ok(record);
      }
      if StableAsset(assets[record.assetId]) != StableAsset(record) { return Rejected; }
      return Ok(assets[record.assetId]);
    }

    method RegisterOutcome(request: Outcome) returns (r: Result<Outcome>)
      modifies this`outcomes
      ensures State() == Registered(old(State()), WithOutcome(h, old(State()), request))
      ensures r == (match WithOutcome(h, old(State()), request) case Ok(p) => Ok(p.1) case Rejected => Rejected)
    {
      hide OutcomeAccepted, OutcomeIdOf;
      if !OutcomeAccepted(State(), request) { return Rejected; }
      var record := request.(outcomeId := OutcomeIdOf(h, request));
      if record.outcomeId !in outcomes {
        outcomes := outcomes[record.outcomeId := record];
        return Ok(record);
      }
      if StableOutcome(outcomes[record.outcomeId]) != StableOutcome(record) { return Rejected; }
      return Ok(outcomes[record.outcomeId]);
    }
  }

  lemma {:induction false} NoText()
    ensures !HasText("")
  {
  }

  lemma {:induction false} FrozenFromItems(c: Catalog, d: Catalog, b: Bundle, k: nat)
    requires k <= |b.evidenceIds| && AllCurrent(c, b.evidenceIds) && d.items == c.items && d.frozen == c.frozen
    ensures Frozen(d, b, k) == Frozen(c, b, k)
    decreases k
  {
    if k > 0 { FrozenFromItems(c, d, b, k - 1); }
  }

  lemma {:induction false} OldOrFrozen(c: Catalog, b: Bundle, k: nat)
    requires k < |b.evidenceIds| && AllCurrent(c, b.evidenceIds) && Distinct(b.evidenceIds)
    ensures FrozenKey(b.bundleId, b.evidenceIds[k]) in Frozen(c, b, k)
        <==> FrozenKey(b.bundleId, b.evidenceIds[k]) in c.frozen
  {
    OldOrFrozenUpTo(c, b, k, k);
  }

  lemma {:induction false} OldOrFrozenUpTo(c: Catalog, b: Bundle, k: nat, j: nat)
    requires j <= k < |b.evidenceIds| && AllCurrent(c, b.evidenceIds) && Distinct(b.evidenceIds)
    ensures FrozenKey(b.bundleId, b.evidenceIds[k]) in Frozen(c, b, j)
        <==> FrozenKey(b.bundleId, b.evidenceIds[k]) in c.frozen
    decreases j
  {
    if j > 0 { OldOrFrozenUpTo(c, b, k, j - 1); }
  }

  lemma {:induction false} FrozenExtends(c: Catalog, b: Bundle, k: nat)
    requires k < |b.evidenceIds| && AllCurrent(c, b.evidenceIds) && Distinct(b.evidenceIds)
    requires FrozenKey(b.bundleId, b.evidenceIds[k]) !in Frozen(c, b, k)
    ensures FrozenKey(b.bundleId, b.evidenceIds[k]) !in c.frozen
  {
    OldOrFrozen(c, b, k);
  }

  lemma {:induction false} FrozenAlready(frozen: map<FrozenKey, Item>, b: Bundle, i: nat)
    requires i < |b.evidenceIds| && FrozenKey(b.bundleId, b.evidenceIds[i]) in frozen
    ensures FrozenIds(frozen, b.bundleId) * IdSet(b.evidenceIds) != {}
  {
    assert b.evidenceIds[i] in FrozenIds(frozen, b.bundleId) * IdSet(b.evidenceIds);
  }

  lemma {:induction false} NothingFrozenYet(frozen: map<FrozenKey, Item>, b: Bundle)
    requires forall i | 0 <= i < |b.evidenceIds| :: FrozenKey(b.bundleId, b.evidenceIds[i]) !in frozen
    ensures FrozenIds(frozen, b.bundleId) * IdSet(b.evidenceIds) == {}
  {
  }

  lemma {:induction false} MissingStaysMissing(c: Catalog, b: Bundle, k: nat, n: nat)
    requires k <= n <= |b.evidenceIds| && FrozenItems(c, b, k).Rejected?
    ensures FrozenItems(c, b, n).Rejected?
    decreases n
  {
    if k < n { MissingStaysMissing(c, b, k, n - 1); }
  }

  lemma {:induction false} OldOrListedSource(m: map<Id, Source>, rows: seq<Source>, k: nat, id: Id)
    requires k <= |rows| && id in WithSources(m, rows, k)
    ensures id in m || exists i :: 0 <= i < k && SourceIds(rows)[i] == id
    decreases k
  {
    hide SourceIds;
    if k > 0 {
      if rows[k - 1].sourceId == id {
        assert SourceIds(rows)[k - 1] == id;
      } else {
        OldOrListedSource(m, rows, k - 1, id);
      }
    }
  }

  lemma {:induction false} OldOrListedItem(m: map<Id, Item>, rows: seq<Item>, k: nat, id: Id)
    requires k <= |rows| && id in WithItems(m, rows, k)
    ensures id in m || exists i :: 0 <= i < k && ItemIds(rows)[i] == id
    decreases k
  {
    hide ItemIds;
    if k > 0 {
      if rows[k - 1].evidenceId == id {
        assert ItemIds(rows)[k - 1] == id;
      } else {
        OldOrListedItem(m, rows, k - 1, id);
      }
    }
  }
}
