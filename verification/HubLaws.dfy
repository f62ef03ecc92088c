/** When the hub accepts what it is given, and what its counts and ids say. */
module HubLaws {
  import opened Collections
  import opened HubCatalog
  import opened HubDigest
  import opened HubHistory
  import opened HubRuns
  import opened HubSnapshots
  import opened Text

  // --- change counts ---

  function NewSources(m: map<Id, Source>, sources: seq<Source>, k: nat): set<int>
    requires k <= |sources|
  {
    set i | 0 <= i < k && sources[i].sourceId !in m
  }

  function SameSources(m: map<Id, Source>, sources: seq<Source>, k: nat): set<int>
    requires k <= |sources|
  {
    set i | 0 <= i < k && sources[i].sourceId in m && SameSource(sources[i], m[sources[i].sourceId])
  }

  function NewItems(m: map<Id, Item>, items: seq<Item>, k: nat): set<int>
    requires k <= |items|
  {
    set i | 0 <= i < k && items[i].evidenceId !in m
  }

  function SameItems(m: map<Id, Item>, items: seq<Item>, k: nat): set<int>
    requires k <= |items|
  {
    set i | 0 <= i < k && items[i].evidenceId in m && SameItem(items[i], m[items[i].evidenceId])
  }

  lemma {:induction false} SourceSetsGrow(m: map<Id, Source>, sources: seq<Source>, k: nat)
    requires 0 < k <= |sources|
    ensures var s := sources[k - 1];
            && |NewSources(m, sources, k)| == |NewSources(m, sources, k - 1)| + (if s.sourceId in m then 0 else 1)
            && |SameSources(m, sources, k)| == |SameSources(m, sources, k - 1)|
               + if s.sourceId in m && SameSource(s, m[s.sourceId]) then 1 else 0
  {
    hide SameSource;
    var s := sources[k - 1];
    OneMore(NewSources(m, sources, k - 1), NewSources(m, sources, k), k - 1);
    OneMore(SameSources(m, sources, k - 1), SameSources(m, sources, k), k - 1);
  }

  lemma {:induction false} SourceCounts(m: map<Id, Source>, sources: seq<Source>, c: Counts, k: nat)
    requires k <= |sources|
    ensures CountSources(m, sources, c, k).created == c.created + |NewSources(m, sources, k)|
    ensures CountSources(m, sources, c, k).same == c.same + |SameSources(m, sources, k)|
    decreases k
  {
    if k == 0 {
      assert NewSources(m, sources, 0) == {} && SameSources(m, sources, 0) == {};
    } else {
      hide NewSources, SameSources;
      SourceCounts(m, sources, c, k - 1);
      SourceSetsGrow(m, sources, k);
    }
  }

  lemma {:induction false} ItemSetsGrow(m: map<Id, Item>, items: seq<Item>, k: nat)
    requires 0 < k <= |items|
    ensures var e := items[k - 1];
            && |NewItems(m, items, k)| == |NewItems(m, items, k - 1)| + (if e.evidenceId in m then 0 else 1)
            && |SameItems(m, items, k)| == |SameItems(m, items, k - 1)|
               + if e.evidenceId in m && SameItem(e, m[e.evidenceId]) then 1 else 0
  {
    hide SameItem;
    var e := items[k - 1];
    OneMore(NewItems(m, items, k - 1), NewItems(m, items, k), k - 1);
    OneMore(SameItems(m, items, k - 1), SameItems(m, items, k), k - 1);
  }

  lemma {:induction false} ItemCounts(m: map<Id, Item>, items: seq<Item>, c: Counts, k: nat)
    requires k <= |items|
    ensures CountItems(m, items, c, k).created == c.created + |NewItems(m, items, k)|
    ensures CountItems(m, items, c, k).same == c.same + |SameItems(m, items, k)|
    decreases k
  {
    if k == 0 {
      assert NewItems(m, items, 0) == {} && SameItems(m, items, 0) == {};
    } else {
      hide NewItems, SameItems;
      ItemCounts(m, items, c, k - 1);
      ItemSetsGrow(m, items, k);
    }
  }

  /** Created are the records with an unknown id, unchanged those whose known record says the same, updated the rest. */
  lemma {:induction false} CountsAreExact(c: Catalog, sources: seq<Source>, items: seq<Item>)
    ensures var counts := ChangeCounts(c, sources, items);
            && counts.created == |NewSources(c.sources, sources, |sources|)| + |NewItems(c.items, items, |items|)|
            && counts.same == |SameSources(c.sources, sources, |sources|)| + |SameItems(c.items, items, |items|)|
            && counts.created + counts.updated + counts.same == |sources| + |items|
  {
    SourceCounts(c.sources, sources, Counts(0, 0, 0), |sources|);
    ItemCounts(c.items, items, CountSources(c.sources, sources, Counts(0, 0, 0), |sources|), |items|);
    EveryRecordCounted(c, sources, items);
    hide CountSources, CountItems, NewSources, SameSources, NewItems, SameItems;
  }

  // --- bundles ---

  predicate SameBundle(a: Bundle, b: Bundle) {
    a.bundleId == b.bundleId && a.evidenceIds == b.evidenceIds && a.facts == b.facts
  }

  lemma {:induction false} FrozenIdsOf(c: Catalog, b: Id)
    requires BundlesOk(c)
    ensures b !in c.bundles ==> FrozenIds(c.frozen, b) == {}
    ensures b in c.bundles ==> FrozenIds(c.frozen, b) == IdSet(c.bundles[b].evidenceIds)
  {
    if b in c.bundles {
      assert BundleOk(c, b);
      forall e | e in c.bundles[b].evidenceIds ensures e in FrozenIds(c.frozen, b) {
        assert FrozenKey(b, e) in c.frozen;
      }
    }
  }

  lemma {:induction false} FrozenAfter(c: Catalog, b: Bundle, k: nat)
    requires k <= |b.evidenceIds| && AllCurrent(c, b.evidenceIds) && FrozenIds(c.frozen, b.bundleId) == {}
    ensures FrozenIds(Frozen(c, b, k), b.bundleId) == IdSet(b.evidenceIds[..k])
    decreases k
  {
    if k > 0 {
      FrozenAfter(c, b, k - 1);
      var before, key := Frozen(c, b, k - 1), FrozenKey(b.bundleId, b.evidenceIds[k - 1]);
      var after := before[key := c.items[b.evidenceIds[k - 1]]];
      assert b.evidenceIds[..k] == b.evidenceIds[..k - 1] + [b.evidenceIds[k - 1]];
      forall e
        ensures e in FrozenIds(after, b.bundleId) <==> e in FrozenIds(before, b.bundleId) || e == key.evidenceId
      {
        if e == key.evidenceId { assert key in after; }
      }
    }
  }

  lemma {:induction false} NewBundleAccepted(c: Catalog, b: Bundle)
    requires BundlesOk(c) && b.bundleId !in c.bundles
    ensures WithBundle(c, b).Ok? <==> AllCurrent(c, b.evidenceIds)
  {
    FrozenIdsOf(c, b.bundleId);
    hide BundlesOk, FrozenIds, IdSet, Frozen;
    if AllCurrent(c, b.evidenceIds) {
      FrozenAfter(c, b, |b.evidenceIds|);
      assert b.evidenceIds[..|b.evidenceIds|] == b.evidenceIds;
    }
  }

  /** After any calls, a valid bundle is accepted exactly if its id is new and all its members are current, or the
      bundle registered under its id says the same, which is then returned. */
  lemma {:induction false} BundleAcceptedIff(h: Hashes, calls: seq<Call>, b: Bundle)
    ensures var c := After(h, calls);
            var r := WithBundle(c, b);
            && (r.Ok? <==> if b.bundleId in c.bundles then SameBundle(c.bundles[b.bundleId], b)
                           else forall i | 0 <= i < |b.evidenceIds| :: b.evidenceIds[i] in c.items)
            && (r.Ok? && b.bundleId in c.bundles ==> r.value == (c, c.bundles[b.bundleId]))
            && (r.Ok? && b.bundleId !in c.bundles ==> r.value.1 == b && r.value.0.bundles == c.bundles[b.bundleId := b])
  {
    RunKeepsInv(h, calls);
    var c := After(h, calls);
    hide Run;
    if b.bundleId in c.bundles {
      FrozenIdsOf(c, b.bundleId);
      assert BundleOk(c, b.bundleId);
    } else {
      NewBundleAccepted(c, b);
    }
    hide BundlesOk, SnapshotOk, LineageOk, RecordsOk, LogOk, FrozenIds, IdSet, Frozen;
  }

  // --- records that are registered twice ---

  predicate SameCase(a: Case, b: Case) {
    && a.caseId == b.caseId && a.bundleId == b.bundleId && a.title == b.title && a.problem == b.problem
    && a.evidenceIds == b.evidenceIds && a.notes == b.notes && a.promotion == b.promotion
  }

  predicate SameAsset(a: Asset, b: Asset) {
    && a.assetId == b.assetId && a.owner == b.owner && a.kind == b.kind && a.contentSha == b.contentSha
    && a.bundleId == b.bundleId && a.caseId == b.caseId && a.privateLocator == b.privateLocator
    && a.externalLocator == b.externalLocator && a.approval == b.approval && a.evidenceIds == b.evidenceIds
    && a.facts == b.facts
  }

  predicate SameOutcome(a: Outcome, b: Outcome) {
    && a.outcomeId == b.outcomeId && a.kind == b.kind && a.platform == b.platform && a.status == b.status
    && a.finalSha == b.finalSha && a.externalId == b.externalId && a.caseId == b.caseId && a.assetId == b.assetId
    && a.evidenceIds == b.evidenceIds && a.facts == b.facts
  }

  /** A case that is accepted is the registered one of its id, which says the same; a new id is stored, and nothing else
      changes. */
  lemma {:induction false} CaseIsFirst(h: Hashes, c: Catalog, r: CaseRequest)
    requires WithCase(h, c, r).Ok?
    ensures var d, record := WithCase(h, c, r).value.0, WithCase(h, c, r).value.1;
            && record.bundleId == r.bundleId && r.bundleId in c.bundles
            && record.evidenceIds == c.bundles[r.bundleId].evidenceIds && record.notes == r.notes
            && d == c.(cases := d.cases) && d.cases == c.cases[record.caseId := record]
            && (record.caseId in c.cases ==> record == c.cases[record.caseId])
            && (record.caseId !in c.cases ==> record.createdAt == r.createdAt)
  {
    hide ValidNotes, HasText;
  }

  /** The text is the first of the given ones that is not empty. */
  predicate IsFirstText(text: string, given: seq<Option<string>>) {
    exists i | 0 <= i < |given| ::
      && given[i] == Some(text) && text != ""
      && forall j | 0 <= j < i :: given[j].None? || given[j].value == ""
  }

  /**
   * A case whose id is new is accepted exactly if its bundle is registered, a problem with text is given, or else a
   * title to stand for it, what is then the title has text, all notes have, and the promotion that is named is one of
   * the two.
   */
  lemma {:induction false} CaseAcceptedIff(h: Hashes, c: Catalog, r: CaseRequest)
    requires forall problem :: h.stableId("case", [r.bundleId, problem]) !in c.cases
    ensures WithCase(h, c, r).Ok? <==>
              && r.bundleId in c.bundles && ValidNotes(r.notes)
              && (exists problem :: IsFirstText(problem, [r.problem, r.title]) && HasText(problem))
              && (exists title :: IsFirstText(title, [r.title, r.problem]) && HasText(title))
              && (exists named ::
                    && IsFirstText(named, [r.status, Some(r.promotion)])
                    && (named == "draft" || named == "promoted"))
    ensures WithCase(h, c, r).Ok? ==>
              var record := WithCase(h, c, r).value.1;
              && IsFirstText(record.problem, [r.problem, r.title]) && IsFirstText(record.title, [r.title, r.problem])
              && (record.promotion == Promoted <==> IsFirstText("promoted", [r.status, Some(r.promotion)]))
  {
    FirstOf(r.problem, r.title);
    FirstOf(r.title, r.problem);
    FirstOf(r.status, Some(r.promotion));
    NoTextAtAll();
    hide HasText, ValidNotes, IsFirstText;
    var problem := TextOr(Or(r.problem, r.title), "");
    var title, named := TextOr(r.title, problem), TextOr(r.status, r.promotion);
    assert problem != "" ==> title == TextOr(Or(r.title, r.problem), "");
    assert named == TextOr(Or(r.status, Some(r.promotion)), "");
    assert named != "" ==> IsFirstText(named, [r.status, Some(r.promotion)]);
    if problem != "" {
      assert IsFirstText(problem, [r.problem, r.title]) && IsFirstText(title, [r.title, r.problem]);
    }
  }

  lemma {:induction false} FirstOf(a: Option<string>, b: Option<string>)
    ensures var text := TextOr(Or(a, b), "");
            forall x :: IsFirstText(x, [a, b]) <==> x != "" && x == text
  {
    var given := [a, b];
    forall x ensures IsFirstText(x, given) <==> x != "" && x == TextOr(Or(a, b), "") {
      if IsFirstText(x, given) {
        var i :| 0 <= i < 2 && given[i] == Some(x) && forall j | 0 <= j < i :: given[j].None? || given[j].value == "";
        assert i == 0 || given[0].None? || given[0].value == "";
      } else {
        assert !(given[0] == Some(x) && x != "");
        assert !(given[1] == Some(x) && x != "" && (given[0].None? || given[0].value == ""));
      }
    }
  }

  lemma {:induction false} NoTextAtAll()
    ensures !HasText("")
  {
  }

  /** Registering a case for the same bundle and problem again is accepted only if it says the same in everything, and
      then changes nothing, whenever it was created. */
  lemma {:induction false} CaseAgain(h: Hashes, c: Catalog, r: CaseRequest, again: CaseRequest)
    requires WithCase(h, c, r).Ok? && WithCase(h, c, again).Ok?
    requires var a, b := WithCase(h, c, r).value.1, WithCase(h, c, again).value.1;
             a.caseId == b.caseId && a.caseId !in c.cases
    ensures var a, b, d := WithCase(h, c, r).value.1, WithCase(h, c, again).value.1, WithCase(h, c, r).value.0;
            && (WithCase(h, d, again).Ok? <==> SameCase(a, b))
            && (WithCase(h, d, again).Ok? ==> WithCase(h, d, again).value == (d, a))
  {
    hide ValidNotes, HasText;
  }

  /** The same of assets. */
  lemma {:induction false} AssetAgain(h: Hashes, c: Catalog, a: Asset, again: Asset)
    requires WithAsset(h, c, a).Ok? && AssetAccepted(c, again)
    requires AssetIdOf(h, a) == AssetIdOf(h, again) && AssetIdOf(h, a) !in c.assets
    ensures var d, record := WithAsset(h, c, a).value.0, WithAsset(h, c, a).value.1;
            && d.assets == c.assets[record.assetId := record] && SameAsset(record, a.(assetId := record.assetId))
            && (WithAsset(h, d, again).Ok? <==> SameAsset(record, again.(assetId := record.assetId)))
            && (WithAsset(h, d, again).Ok? ==> WithAsset(h, d, again).value == (d, record))
  {
    assert AssetAccepted(WithAsset(h, c, a).value.0, again);
    hide AssetAccepted, AssetIdOf;
  }

  /** The same of outcomes. */
  lemma {:induction false} OutcomeAgain(h: Hashes, c: Catalog, o: Outcome, again: Outcome)
    requires WithOutcome(h, c, o).Ok? && OutcomeAccepted(c, again)
    requires OutcomeIdOf(h, o) == OutcomeIdOf(h, again) && OutcomeIdOf(h, o) !in c.outcomes
    ensures var d, record := WithOutcome(h, c, o).value.0, WithOutcome(h, c, o).value.1;
            && d.outcomes == c.outcomes[record.outcomeId := record]
            && SameOutcome(record, o.(outcomeId := record.outcomeId))
            && (WithOutcome(h, d, again).Ok? <==> SameOutcome(record, again.(outcomeId := record.outcomeId)))
            && (WithOutcome(h, d, again).Ok? ==> WithOutcome(h, d, again).value == (d, record))
  {
    assert OutcomeAccepted(WithOutcome(h, c, o).value.0, again);
    hide OutcomeAccepted, OutcomeIdOf;
  }

  // --- what an id stands for ---

  /** Two different kinds or lists of parts have one stable id. */
  ghost predicate IdsCollide(h: Hashes) {
    exists kind, parts, kind', parts' ::
      (kind != kind' || parts != parts') && h.stableId(kind, parts) == h.stableId(kind', parts')
  }

  /** A case id stands for its bundle and problem, and a lineage id for a source id and its content. */
  lemma {:induction false} CaseIdsTell(h: Hashes, c: Catalog, d: Catalog, r: CaseRequest, q: CaseRequest)
    requires WithCase(h, c, r).Ok? && WithCase(h, d, q).Ok? && !IdsCollide(h)
    requires var a, b := WithCase(h, c, r).value.1, WithCase(h, d, q).value.1;
             a.caseId !in c.cases && b.caseId !in d.cases
    ensures var a, b := WithCase(h, c, r).value.1, WithCase(h, d, q).value.1;
            a.caseId == b.caseId <==> a.bundleId == b.bundleId && a.problem == b.problem
  {
    hide ValidNotes, HasText;
    var a, b := WithCase(h, c, r).value.1, WithCase(h, d, q).value.1;
    var x, y := [a.bundleId, a.problem], [b.bundleId, b.problem];
    assert a.caseId == h.stableId("case", x) && b.caseId == h.stableId("case", y);
    assert x == y ==> x[0] == y[0] && x[1] == y[1];
  }

  lemma {:induction false} LineageIdsTell(h: Hashes, s: Source, t: Source)
    requires !IdsCollide(h)
    ensures LineageId(h, s) == LineageId(h, t) <==> s.sourceId == t.sourceId && s.contentSha == t.contentSha
  {
    var x, y := [s.sourceId, s.contentSha], [t.sourceId, t.contentSha];
    assert x == y ==> x[0] == y[0] && x[1] == y[1];
  }

  /** An asset id stands for owner, kind, content, bundle, case and locators, where a missing text counts as empty. */
  lemma {:induction false} AssetIdsTell(h: Hashes, a: Asset, b: Asset)
    requires !IdsCollide(h)
    ensures AssetIdOf(h, a) == AssetIdOf(h, b) <==>
              && a.owner == b.owner && a.kind == b.kind && a.contentSha == b.contentSha
              && TextOr(a.bundleId, "") == TextOr(b.bundleId, "") && TextOr(a.caseId, "") == TextOr(b.caseId, "")
              && TextOr(a.privateLocator, "") == TextOr(b.privateLocator, "")
              && TextOr(a.externalLocator, "") == TextOr(b.externalLocator, "")
  {
    hide TextOr;
    var x := [a.owner, a.kind, a.contentSha, TextOr(a.bundleId, ""), TextOr(a.caseId, ""),
              TextOr(a.privateLocator, ""), TextOr(a.externalLocator, "")];
    var y := [b.owner, b.kind, b.contentSha, TextOr(b.bundleId, ""), TextOr(b.caseId, ""),
              TextOr(b.privateLocator, ""), TextOr(b.externalLocator, "")];
    assert AssetIdOf(h, a) == h.stableId("asset", x) && AssetIdOf(h, b) == h.stableId("asset", y);
    assert x == y ==> forall i | 0 <= i < 7 :: x[i] == y[i];
  }

  /** An outcome id stands for kind, platform, status, final content, external id, case and asset. */
  lemma {:induction false} OutcomeIdsTell(h: Hashes, a: Outcome, b: Outcome)
    requires !IdsCollide(h)
    ensures OutcomeIdOf(h, a) == OutcomeIdOf(h, b) <==>
              && a.kind == b.kind && a.platform == b.platform && a.status == b.status && a.finalSha == b.finalSha
              && TextOr(a.externalId, "") == TextOr(b.externalId, "")
              && TextOr(a.caseId, "") == TextOr(b.caseId, "") && a.assetId == b.assetId
  {
    hide TextOr;
    var x := [a.kind, a.platform, a.status, a.finalSha, TextOr(a.externalId, ""), TextOr(a.caseId, ""), a.assetId];
    var y := [b.kind, b.platform, b.status, b.finalSha, TextOr(b.externalId, ""), TextOr(b.caseId, ""), b.assetId];
    assert OutcomeIdOf(h, a) == h.stableId("outcome", x) && OutcomeIdOf(h, b) == h.stableId("outcome", y);
    assert x == y ==> forall i | 0 <= i < 7 :: x[i] == y[i];
  }

  // --- exactly the records that keep the invariant are accepted ---

  /** All of this evidence is found, each id given once. */
  predicate EvidenceFound(c: Catalog, ids: seq<Id>) {
    Distinct(ids) && forall i | 0 <= i < |ids| :: GetEvidence(c, ids[i]).Some?
  }

  /** A well-formed asset with evidence that is found is accepted exactly if storing it keeps the asset invariant. */
  lemma {:induction false} AssetAcceptedIff(c: Catalog, a: Asset)
    requires RecordsOk(c)
    ensures AssetAccepted(c, a) <==>
              && ValidAsset(a) && EvidenceFound(c, a.evidenceIds)
              && AssetOk(c.(assets := c.assets[a.assetId := a]), a.assetId)
  {
    var d := c.(assets := c.assets[a.assetId := a]);
    assert LineageBundle(d, a) == LineageBundle(c, a);
    assert a.caseId.Some? && a.caseId.value in c.cases ==> CaseOk(c, a.caseId.value);
    hide ValidAsset, Distinct, RecordsOk;
  }

  /** The same of outcomes. */
  lemma {:induction false} OutcomeAcceptedIff(c: Catalog, o: Outcome)
    ensures OutcomeAccepted(c, o) <==>
              && ValidOutcome(o) && EvidenceFound(c, o.evidenceIds)
              && OutcomeOk(c.(outcomes := c.outcomes[o.outcomeId := o]), o.outcomeId)
  {
    assert Available(c, o.evidenceIds) <==> EvidenceFound(c, o.evidenceIds);
    hide ValidOutcome, Distinct, Available, EvidenceFound, Subset;
  }

  // --- receipts ---

  /** The catalog has one more receipt, a success with the stored hash, these counts and these changes. */
  predicate Succeeded(c: Catalog, d: Catalog, sourceCount: nat, evidenceCount: nat, changes: Counts) {
    && |d.receipts| == |c.receipts| + 1 && d.receipts[..|c.receipts|] == c.receipts
    && var r := d.receipts[|c.receipts|].receipt;
       && r.succeeded && r.snapshotSha.Some? && r.snapshotSha == d.snapshotSha
       && r.sourceCount == sourceCount && r.evidenceCount == evidenceCount && r.changes == changes
  }

  lemma {:induction false} ReceiptWritten(c: Catalog, d: Catalog, r: Receipt)
    requires d.receipts == c.receipts && r.succeeded && r.snapshotSha.Some?
    ensures Succeeded(c, WithReceipt(d, r), r.sourceCount, r.evidenceCount, r.changes)
  {
    hide MaxSequence;
  }

  /** The receipt of a refresh that lands counts the collected rows. */
  lemma {:induction false} RefreshReceiptSays(h: Hashes, c: Catalog, sources: seq<Source>, items: seq<Item>)
    requires ValidSnapshot(sources, items)
    ensures var d := Apply(h, c, Refresh(sources, items, false));
            Succeeded(c, d, |sources|, |items|, ChangeCounts(c, sources, items))
  {
    hide WithReceipt, DigestOf, ChangeCounts, WithSources, WithItems, ArchivedSources, ArchivedItems, Distinct,
         SourceIds, ItemIds, Succeeded;
    var newSources, newItems := WithSources(map[], sources, |sources|), WithItems(map[], items, |items|);
    ReceiptWritten(c, Archive(h, c, sources, items).(sources := newSources, items := newItems),
      Receipt(true, Some(DigestOf(h, newSources, newItems)), |sources|, |items|, ChangeCounts(c, sources, items)));
  }

  /** That of a sync counts the whole snapshot, and its changes are those of the synced source. */
  lemma {:induction false} SyncReceiptSays(h: Hashes, c: Catalog, source: Source, items: seq<Item>)
    requires ValidSnapshot([source], items) && ValidCombination(c, source, items)
    ensures var d := Apply(h, c, Sync(source, items, false));
            Succeeded(c, d, |d.sources|, |d.items|, ChangeCounts(c, [source], items))
  {
    hide WithReceipt, DigestOf, ChangeCounts, WithItems, ArchivedSources, ArchivedItems, Distinct, SourceIds, ItemIds,
         OtherItems, OtherSources, Succeeded, ValidCombination;
    var newSources := OtherSources(c, source.sourceId)[source.sourceId := source];
    var newItems := WithItems(OtherItems(c, source.sourceId), items, |items|);
    var receipt := Receipt(true, Some(DigestOf(h, newSources, newItems)), |newSources|, |newItems|,
                           ChangeCounts(c, [source], items));
    var d := Archive(h, c, [source], items).(sources := newSources, items := newItems);
    ReceiptWritten(c, d, receipt);
    ReceiptKeepsTables(d, receipt);
  }

  lemma {:induction false} ReceiptKeepsTables(d: Catalog, r: Receipt)
    ensures WithReceipt(d, r).sources == d.sources && WithReceipt(d, r).items == d.items
  {
    hide MaxSequence;
  }
}
