/** The EvidenceHub catalog as a value: its tables, and what each operation makes of them. */
module HubCatalog {
  import opened Collections
  import opened Text

  type Id = string

  datatype Source = Source(sourceId: Id, contentSha: string, facts: string, capturedAt: int)
  datatype Item = Item(evidenceId: Id, sourceId: Id, facts: string, capturedAt: int)
  datatype LineageItem = LineageItem(lineageSourceId: Id, item: Item)
  datatype Bundle = Bundle(bundleId: Id, evidenceIds: seq<Id>, facts: string, createdAt: int)
  datatype FrozenKey = FrozenKey(bundleId: Id, evidenceId: Id)
  datatype Promotion = Draft | Promoted

  datatype CaseNotes = CaseNotes(
    decisions: seq<string>, implementation: seq<string>, failures: seq<string>, recovery: seq<string>,
    results: seq<string>, unknowns: seq<string>)

  datatype Case = Case(
    caseId: Id, bundleId: Id, title: string, problem: string, evidenceIds: seq<Id>, notes: CaseNotes,
    promotion: Promotion, createdAt: int)

  datatype Asset = Asset(
    assetId: Id, owner: string, kind: string, contentSha: string, bundleId: Option<Id>, caseId: Option<Id>,
    privateLocator: Option<string>, externalLocator: Option<string>, approval: string, evidenceIds: seq<Id>,
    facts: string, createdAt: int)

  datatype Outcome = Outcome(
    outcomeId: Id, kind: string, platform: string, status: string, finalSha: string, externalId: Option<string>,
    caseId: Option<Id>, assetId: Id, evidenceIds: seq<Id>, facts: string, observedAt: int)

  datatype Counts = Counts(created: nat, updated: nat, same: nat)
  datatype Receipt = Receipt(
    succeeded: bool, snapshotSha: Option<string>, sourceCount: nat, evidenceCount: nat, changes: Counts)
  datatype ReceiptRow = ReceiptRow(sequence: nat, receipt: Receipt)

  /** `_stable_id` and `_snapshot_digest`, the latter of the id-indexed snapshot with capture times removed. */
  datatype Hashes = Hashes(
    stableId: (string, seq<string>) -> Id, snapshot: (map<Id, Source>, map<Id, Item>) -> string)

  datatype Catalog = Catalog(
    sources: map<Id, Source>,
    items: map<Id, Item>,
    lineageSources: map<Id, Source>,
    lineageItems: map<Id, LineageItem>,
    bundles: map<Id, Bundle>,
    frozen: map<FrozenKey, Item>,
    cases: map<Id, Case>,
    assets: map<Id, Asset>,
    outcomes: map<Id, Outcome>,
    receipts: seq<ReceiptRow>,
    snapshotSha: Option<string>)

  const EMPTY: Catalog := Catalog(map[], map[], map[], map[], map[], map[], map[], map[], map[], [], None)

  datatype Result<T> = Ok(value: T) | Rejected

  // --- snapshots ---

  function SourceIds(sources: seq<Source>): (r: seq<Id>)
    ensures |r| == |sources| && forall i | 0 <= i < |r| :: r[i] == sources[i].sourceId
  {
    seq(|sources|, i requires 0 <= i < |sources| => sources[i].sourceId)
  }

  function ItemIds(items: seq<Item>): (r: seq<Id>)
    ensures |r| == |items| && forall i | 0 <= i < |r| :: r[i] == items[i].evidenceId
  {
    seq(|items|, i requires 0 <= i < |items| => items[i].evidenceId)
  }

  /** `_validate_snapshot`. */
  predicate ValidSnapshot(sources: seq<Source>, items: seq<Item>) {
    && Distinct(SourceIds(sources)) && Distinct(ItemIds(items))
    && forall i | 0 <= i < |items| :: items[i].sourceId in SourceIds(sources)
  }

  /** Rows inserted one by one. */
  function WithSources(m: map<Id, Source>, sources: seq<Source>, k: nat): map<Id, Source>
    requires k <= |sources|
    decreases k
  {
    if k == 0 then m else WithSources(m, sources, k - 1)[sources[k - 1].sourceId := sources[k - 1]]
  }

  function WithItems(m: map<Id, Item>, items: seq<Item>, k: nat): map<Id, Item>
    requires k <= |items|
    decreases k
  {
    if k == 0 then m else WithItems(m, items, k - 1)[items[k - 1].evidenceId := items[k - 1]]
  }

  function LineageId(h: Hashes, s: Source): Id {
    h.stableId("lineage-source", [s.sourceId, s.contentSha])
  }

  /** `INSERT OR IGNORE INTO lineage_sources`. */
  function ArchivedSources(h: Hashes, m: map<Id, Source>, sources: seq<Source>, k: nat): map<Id, Source>
    requires k <= |sources|
    decreases k
  {
    if k == 0 then m else
    var before := ArchivedSources(h, m, sources, k - 1);
    var id := LineageId(h, sources[k - 1]);
    if id in before then before else before[id := sources[k - 1]]
  }

  /** The listed source with this id; items only name listed sources. */
  function SourceOf(sources: seq<Source>, id: Id): (r: Source)
    requires id in SourceIds(sources)
    ensures r in sources && r.sourceId == id
    decreases |sources|
  {
    var last := |sources| - 1;
    if sources[last].sourceId == id then sources[last]
    else
      assert id in SourceIds(sources[..last]) by {
        var i :| 0 <= i < |sources| && SourceIds(sources)[i] == id;
        assert SourceIds(sources[..last])[i] == id;
      }
      SourceOf(sources[..last], id)
  }

  /** `INSERT OR IGNORE INTO lineage_items`: the first version of an evidence id stays. */
  function ArchivedItems(
      h: Hashes, m: map<Id, LineageItem>, sources: seq<Source>, items: seq<Item>, k: nat): map<Id, LineageItem>
    requires k <= |items| && forall i | 0 <= i < |items| :: items[i].sourceId in SourceIds(sources)
    decreases k
  {
    if k == 0 then m else
    var before := ArchivedItems(h, m, sources, items, k - 1);
    var item := items[k - 1];
    if item.evidenceId in before then before
    else before[item.evidenceId := LineageItem(LineageId(h, SourceOf(sources, item.sourceId)), item)]
  }

  // --- change counts ---

  function StableSource(s: Source): Source { s.(capturedAt := 0) }

  function StableItem(i: Item): Item { i.(capturedAt := 0) }

  function Count(c: Counts, known: bool, same: bool): Counts {
    if !known then c.(created := c.created + 1)
    else if same then c.(same := c.same + 1)
    else c.(updated := c.updated + 1)
  }

  function CountSources(m: map<Id, Source>, sources: seq<Source>, c: Counts, k: nat): Counts
    requires k <= |sources|
    decreases k
  {
    if k == 0 then c else
    var s := sources[k - 1];
    var known := s.sourceId in m;
    Count(CountSources(m, sources, c, k - 1), known, known && StableSource(s) == StableSource(m[s.sourceId]))
  }

  function CountItems(m: map<Id, Item>, items: seq<Item>, c: Counts, k: nat): Counts
    requires k <= |items|
    decreases k
  {
    if k == 0 then c else
    var i := items[k - 1];
    var known := i.evidenceId in m;
    Count(CountItems(m, items, c, k - 1), known, known && StableItem(i) == StableItem(m[i.evidenceId]))
  }

  /** `_change_counts`. */
  function ChangeCounts(c: Catalog, sources: seq<Source>, items: seq<Item>): Counts {
    CountItems(c.items, items, CountSources(c.sources, sources, Counts(0, 0, 0), |sources|), |items|)
  }

  // --- receipts ---

  function MaxSequence(rows: seq<ReceiptRow>): nat {
    if rows == [] then 0 else
    var rest := MaxSequence(rows[..|rows| - 1]);
    if rest < rows[|rows| - 1].sequence then rows[|rows| - 1].sequence else rest
  }

  /** `_insert_receipt` at `_next_sequence`: a snapshot hash, when there is one, becomes the stored one. */
  function WithReceipt(c: Catalog, r: Receipt): Catalog {
    c.(receipts := c.receipts + [ReceiptRow(MaxSequence(c.receipts) + 1, r)],
       snapshotSha := if r.snapshotSha.Some? then r.snapshotSha else c.snapshotSha)
  }

  const FAILED: Receipt := Receipt(false, None, 0, 0, Counts(0, 0, 0))

  function DigestOf(h: Hashes, sources: map<Id, Source>, items: map<Id, Item>): string {
    h.snapshot(map id | id in sources :: StableSource(sources[id]), map id | id in items :: StableItem(items[id]))
  }

  function Archive(h: Hashes, c: Catalog, sources: seq<Source>, items: seq<Item>): Catalog
    requires forall i | 0 <= i < |items| :: items[i].sourceId in SourceIds(sources)
  {
    c.(lineageSources := ArchivedSources(h, c.lineageSources, sources, |sources|),
       lineageItems := ArchivedItems(h, c.lineageItems, sources, items, |items|))
  }

  // --- refresh ---

  /** The snapshot is replaced as a whole. */
  function Refreshed(h: Hashes, c: Catalog, sources: seq<Source>, items: seq<Item>): Catalog
    requires ValidSnapshot(sources, items)
  {
    var newSources, newItems := WithSources(map[], sources, |sources|), WithItems(map[], items, |items|);
    var receipt := Receipt(true, Some(DigestOf(h, newSources, newItems)), |sources|, |items|,
      ChangeCounts(c, sources, items));
    WithReceipt(Archive(h, c, sources, items).(sources := newSources, items := newItems), receipt)
  }

  // --- sync_source ---

  function OtherSources(c: Catalog, id: Id): map<Id, Source> {
    map s | s in c.sources && s != id :: c.sources[s]
  }

  function OtherItems(c: Catalog, id: Id): map<Id, Item> {
    map e | e in c.items && c.items[e].sourceId != id :: c.items[e]
  }

  /** `_validate_snapshot` of the combined snapshot. */
  predicate ValidCombination(c: Catalog, source: Source, items: seq<Item>) {
    && (forall i | 0 <= i < |items| :: items[i].evidenceId !in OtherItems(c, source.sourceId))
    && (forall e | e in OtherItems(c, source.sourceId) :: c.items[e].sourceId in OtherSources(c, source.sourceId))
  }

  /** One source's rows are replaced, the others stay. */
  function Synced(h: Hashes, c: Catalog, source: Source, items: seq<Item>): Catalog
    requires ValidSnapshot([source], items)
  {
    var newSources := OtherSources(c, source.sourceId)[source.sourceId := source];
    var newItems := WithItems(OtherItems(c, source.sourceId), items, |items|);
    var receipt := Receipt(true, Some(DigestOf(h, newSources, newItems)), |newSources|, |newItems|,
                           ChangeCounts(c, [source], items));
    WithReceipt(Archive(h, c, [source], items).(sources := newSources, items := newItems), receipt)
  }

  // --- immutable records ---

  /** `_insert_record`: a repeated id is accepted only for the same content, and keeps the first record. */
  function Insert<T(==)>(table: map<Id, T>, id: Id, record: T, stable: T -> T): Result<(map<Id, T>, T)> {
    if id !in table then Ok((table[id := record], record))
    else if stable(table[id]) == stable(record) then Ok((table, table[id]))
    else Rejected
  }

  function StableBundle(b: Bundle): Bundle { b.(createdAt := 0) }

  function StableCase(c: Case): Case { c.(createdAt := 0) }

  function StableAsset(a: Asset): Asset { a.(createdAt := 0) }

  function StableOutcome(o: Outcome): Outcome { o.(observedAt := 0) }

  // --- bundles ---

  /** The validator of `EvidenceBundle`. */
  predicate ValidBundle(b: Bundle) {
    HasText(b.bundleId) && AllHaveText(b.evidenceIds) && b.evidenceIds != [] && Distinct(b.evidenceIds)
  }

  predicate AllCurrent(c: Catalog, ids: seq<Id>) {
    forall i | 0 <= i < |ids| :: ids[i] in c.items
  }

  /** Copies of the current rows of the bundle's members. */
  function Frozen(c: Catalog, b: Bundle, k: nat): map<FrozenKey, Item>
    requires k <= |b.evidenceIds| && AllCurrent(c, b.evidenceIds)
    decreases k
  {
    if k == 0 then c.frozen
    else Frozen(c, b, k - 1)[FrozenKey(b.bundleId, b.evidenceIds[k - 1]) := c.items[b.evidenceIds[k - 1]]]
  }

  /** The members of a bundle that have a frozen copy. */
  function FrozenIds(frozen: map<FrozenKey, Item>, bundleId: Id): set<Id> {
    set k | k in frozen && k.bundleId == bundleId :: k.evidenceId
  }

  function IdSet(ids: seq<Id>): set<Id> {
    set id | id in ids
  }

  /** `register_bundle`. */
  function WithBundle(c: Catalog, b: Bundle): Result<(Catalog, Bundle)> {
    if b.bundleId in c.bundles then
      var existing := c.bundles[b.bundleId];
      if StableBundle(existing) != StableBundle(b) || FrozenIds(c.frozen, b.bundleId) != IdSet(existing.evidenceIds)
      then Rejected else Ok((c, existing))
    else if !AllCurrent(c, b.evidenceIds) || FrozenIds(c.frozen, b.bundleId) * IdSet(b.evidenceIds) != {} then Rejected
    else
      var frozen := Frozen(c, b, |b.evidenceIds|);
      if FrozenIds(frozen, b.bundleId) != IdSet(b.evidenceIds) then Rejected
      else Ok((c.(bundles := c.bundles[b.bundleId := b], frozen := frozen), b))
  }

  /** The frozen copies, in the bundle's order. */
  function FrozenItems(c: Catalog, b: Bundle, k: nat): Result<seq<Item>>
    requires k <= |b.evidenceIds|
    decreases k
  {
    if k == 0 then Ok([]) else
    match FrozenItems(c, b, k - 1)
    case Rejected => Rejected
    case Ok(items) =>
      var key := FrozenKey(b.bundleId, b.evidenceIds[k - 1]);
      if key in c.frozen then Ok(items + [c.frozen[key]]) else Rejected
  }

  /** `resolve_bundle`. */
  function Resolve(c: Catalog, bundleId: Id): Result<(Bundle, seq<Item>)> {
    if bundleId !in c.bundles then Rejected else
    var b := c.bundles[bundleId];
    match FrozenItems(c, b, |b.evidenceIds|)
    case Rejected => Rejected
    case Ok(items) => Ok((b, items))
  }

  // --- cases, assets, outcomes ---

  datatype CaseRequest = CaseRequest(
    bundleId: Id, problem: Option<string>, title: Option<string>, notes: CaseNotes, promotion: string,
    status: Option<string>, createdAt: int)

  /** Python's `a or b` on optional texts. */
  function Or(a: Option<string>, b: Option<string>): Option<string> {
    if a.Some? && a.value != "" then a else b
  }

  function TextOr(a: Option<string>, default: string): string {
    if a.Some? && a.value != "" then a.value else default
  }

  /** `CasePromotion` of a text. */
  function PromotionOf(text: string): Option<Promotion> {
    if text == "draft" then Some(Draft) else if text == "promoted" then Some(Promoted) else None
  }

  predicate ValidNotes(n: CaseNotes) {
    && AllHaveText(n.decisions) && AllHaveText(n.implementation) && AllHaveText(n.failures)
    && AllHaveText(n.recovery) && AllHaveText(n.results) && AllHaveText(n.unknowns)
  }

  /** `register_case`. */
  function WithCase(h: Hashes, c: Catalog, r: CaseRequest): Result<(Catalog, Case)> {
    if r.bundleId !in c.bundles then Rejected else
    var problem := TextOr(Or(r.problem, r.title), "");
    var title, promotion := TextOr(r.title, problem), PromotionOf(TextOr(r.status, r.promotion));
    if !HasText(problem) || !HasText(title) || !ValidNotes(r.notes) || promotion.None? then Rejected else
    var record := Case(h.stableId("case", [r.bundleId, problem]), r.bundleId, title, problem,
                       c.bundles[r.bundleId].evidenceIds, r.notes, promotion.value, r.createdAt);
    match Insert(c.cases, record.caseId, record, StableCase)
    case Rejected => Rejected
    case Ok(p) => Ok((c.(cases := p.0), p.1))
  }

  /** `_require_evidence`. */
  predicate Available(c: Catalog, ids: seq<Id>) {
    Distinct(ids) && forall i | 0 <= i < |ids| :: ids[i] in c.items || ids[i] in c.lineageItems
  }

  predicate Subset(a: seq<Id>, b: seq<Id>) {
    forall i | 0 <= i < |a| :: a[i] in b
  }

  predicate Given(t: Option<string>) {
    t.Some? && t.value != ""
  }

  /** The bundle that an asset's evidence must come from: the named one, or its case's. */
  function LineageBundle(c: Catalog, a: Asset): Option<Bundle> {
    if a.bundleId.Some? then (if a.bundleId.value in c.bundles then Some(c.bundles[a.bundleId.value]) else None)
    else if a.caseId.Some? && a.caseId.value in c.cases && c.cases[a.caseId.value].bundleId in c.bundles then
      Some(c.bundles[c.cases[a.caseId.value].bundleId])
    else None
  }

  function AssetIdOf(h: Hashes, a: Asset): Id {
    h.stableId("asset", [a.owner, a.kind, a.contentSha, TextOr(a.bundleId, ""), TextOr(a.caseId, ""),
                         TextOr(a.privateLocator, ""), TextOr(a.externalLocator, "")])
  }

  predicate OptionalText(t: Option<string>) {
    t.Some? ==> HasText(t.value)
  }

  /** The validators of `AssetRecord`. */
  predicate ValidAsset(a: Asset) {
    && HasText(a.owner) && HasText(a.kind) && HasText(a.approval) && IsDigest(a.contentSha)
    && OptionalText(a.bundleId) && OptionalText(a.caseId) && AllHaveText(a.evidenceIds)
    && (Given(a.privateLocator) != Given(a.externalLocator))
    && (a.bundleId.Some? || a.caseId.Some?)
  }

  /** The checks of `register_asset`, and of the record it builds. */
  predicate AssetAccepted(c: Catalog, a: Asset) {
    && (a.caseId.Some? ==> a.caseId.value in c.cases)
    && (a.bundleId.Some? ==> a.bundleId.value in c.bundles)
    && (a.caseId.Some? && a.bundleId.Some? ==> c.cases[a.caseId.value].bundleId == a.bundleId.value)
    && Available(c, a.evidenceIds)
    && (LineageBundle(c, a).Some? ==> Subset(a.evidenceIds, LineageBundle(c, a).value.evidenceIds))
    && ValidAsset(a)
  }

  /** `register_asset`; the id of the request is ignored and computed. */
  function WithAsset(h: Hashes, c: Catalog, request: Asset): Result<(Catalog, Asset)> {
    if !AssetAccepted(c, request) then Rejected else
    var record := request.(assetId := AssetIdOf(h, request));
    match Insert(c.assets, record.assetId, record, StableAsset)
    case Rejected => Rejected
    case Ok(p) => Ok((c.(assets := p.0), p.1))
  }

  function OutcomeIdOf(h: Hashes, o: Outcome): Id {
    h.stableId("outcome",
      [o.kind, o.platform, o.status, o.finalSha, TextOr(o.externalId, ""), TextOr(o.caseId, ""), o.assetId])
  }

  /** The validators of `OutcomeReceipt`. */
  predicate ValidOutcome(o: Outcome) {
    && HasText(o.kind) && HasText(o.platform) && HasText(o.status) && IsDigest(o.finalSha)
    && OptionalText(o.caseId) && HasText(o.assetId) && AllHaveText(o.evidenceIds)
  }

  /** The checks of `register_outcome`, and of the record it builds. */
  predicate OutcomeAccepted(c: Catalog, o: Outcome) {
    && (o.caseId.Some? ==> o.caseId.value in c.cases)
    && o.assetId in c.assets
    && (o.caseId.Some? ==> c.assets[o.assetId].caseId == o.caseId)
    && Available(c, o.evidenceIds)
    && Subset(o.evidenceIds, c.assets[o.assetId].evidenceIds)
    && ValidOutcome(o)
  }

  function WithOutcome(h: Hashes, c: Catalog, request: Outcome): Result<(Catalog, Outcome)> {
    if !OutcomeAccepted(c, request) then Rejected else
    var record := request.(outcomeId := OutcomeIdOf(h, request));
    match Insert(c.outcomes, record.outcomeId, record, StableOutcome)
    case Rejected => Rejected
    case Ok(p) => Ok((c.(outcomes := p.0), p.1))
  }

  // --- queries ---

  /** `get_evidence`: the current row, else the first archived one. */
  function GetEvidence(c: Catalog, id: Id): Option<Item> {
    if id in c.items then Some(c.items[id])
    else if id in c.lineageItems then Some(c.lineageItems[id].item)
    else None
  }

  /** `get_lineage`. */
  function GetLineage(c: Catalog, id: Id): Option<(Item, Source)> {
    if id in c.items then
      var item := c.items[id];
      if item.sourceId in c.sources then Some((item, c.sources[item.sourceId])) else None
    else if id in c.lineageItems then
      var row := c.lineageItems[id];
      if row.lineageSourceId in c.lineageSources then Some((row.item, c.lineageSources[row.lineageSourceId])) else None
    else None
  }

  // --- runs ---

  /** The calls that change the catalog. A refresh or sync that raises before committing leaves a failure receipt. */
  datatype Call =
    | Refresh(sources: seq<Source>, items: seq<Item>, aborted: bool)
    | Sync(source: Source, sourceItems: seq<Item>, aborted: bool)
    | RegisterBundle(bundle: Bundle)
    | RegisterCase(caseRequest: CaseRequest)
    | RegisterAsset(assetRequest: Asset)
    | RegisterOutcome(outcomeRequest: Outcome)

  /** `refresh`: all of the new snapshot, or only a failure receipt. */
  function AfterRefresh(h: Hashes, c: Catalog, sources: seq<Source>, items: seq<Item>, aborted: bool): Catalog {
    if aborted || !ValidSnapshot(sources, items) then WithReceipt(c, FAILED) else Refreshed(h, c, sources, items)
  }

  /** `sync_source`: all of the source's new rows, or only a failure receipt. */
  function AfterSync(h: Hashes, c: Catalog, source: Source, items: seq<Item>, aborted: bool): Catalog {
    if aborted || !ValidSnapshot([source], items) || !ValidCombination(c, source, items) then WithReceipt(c, FAILED)
    else Synced(h, c, source, items)
  }

  /** The catalog after a registration: unchanged when it raises. */
  function Registered<T>(c: Catalog, r: Result<(Catalog, T)>): Catalog {
    if r.Ok? then r.value.0 else c
  }

  function Apply(h: Hashes, c: Catalog, call: Call): Catalog {
    match call
    case Refresh(sources, items, aborted) => AfterRefresh(h, c, sources, items, aborted)
    case Sync(source, items, aborted) => AfterSync(h, c, source, items, aborted)
    case RegisterBundle(b) => if ValidBundle(b) then Registered(c, WithBundle(c, b)) else c
    case RegisterCase(r) => Registered(c, WithCase(h, c, r))
    case RegisterAsset(a) => Registered(c, WithAsset(h, c, a))
    case RegisterOutcome(o) => Registered(c, WithOutcome(h, c, o))
  }

  function Run(h: Hashes, c: Catalog, calls: seq<Call>): Catalog
    decreases |calls|
  {
    if calls == [] then c else Apply(h, Run(h, c, calls[..|calls| - 1]), calls[|calls| - 1])
  }
}
