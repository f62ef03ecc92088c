/** `_build_context`: one common cut for the required block, then optional hits while they fit. */
module ContextBuilder {
  import opened Collections
  import opened ContextPacking
  import opened FocusWindows
  import opened JsonRecords
  import opened Slices
  import opened Spans
  import opened Text
  import opened Utf8

  // --- the required block under one profile and one excerpt bound ---

  function Cut(h: Hit, bound: nat): string {
    FocusedTruncate(h.excerpt, bound, h.focus)
  }

  function CutRecord(h: Hit, profile: nat, bound: nat): Record
    requires profile < PROFILE_COUNT
  {
    Record(h.chunkId, h.profiles[profile], Cut(h, bound))
  }

  /** The first k required hits, all cut at one byte bound. */
  function CutRecords(required: seq<Hit>, profile: nat, bound: nat, k: nat): (r: seq<Record>)
    requires profile < PROFILE_COUNT && k <= |required|
    ensures |r| == k
    decreases k
  {
    if k == 0 then [] else CutRecords(required, profile, bound, k - 1) + [CutRecord(required[k - 1], profile, bound)]
  }

  /** `fit_required`: every record must take its whole cut excerpt. */
  function FitRequired(required: seq<Hit>, profile: nat, bound: nat, maxBytes: nat, k: nat): Option<seq<Record>>
    requires profile < PROFILE_COUNT && k <= |required|
    decreases k
  {
    if k == 0 then Some([]) else
    match FitRequired(required, profile, bound, maxBytes, k - 1)
    case None => None
    case Some(records) =>
      var h := required[k - 1];
      match Fitted(records, h.chunkId, h.profiles[profile], Cut(h, bound), maxBytes)
      case None => None
      case Some(r) => if r.excerpt == Cut(h, bound) then Some(records + [r]) else None
  }

  predicate AllCutsShow(required: seq<Hit>, bound: nat, k: nat)
    requires k <= |required|
    decreases k
  {
    k == 0 || (Cut(required[k - 1], bound) != "" && AllCutsShow(required, bound, k - 1))
  }

  /** A whole excerpt is taken exactly when it is not empty and the record fits. */
  lemma {:induction false} WholeExcerptFits(
      existing: seq<Record>, id: ChunkId, base: Base, excerpt: string, maxBytes: nat)
    ensures Fitted(existing, id, base, excerpt, maxBytes) == Some(Record(id, base, excerpt))
       <==> excerpt != "" && FitsWith(existing, Record(id, base, excerpt), maxBytes)
    ensures var r := Fitted(existing, id, base, excerpt, maxBytes);
            r.Some? && r.value.excerpt == excerpt ==> r == Some(Record(id, base, excerpt))
  {
    hide FitsWith;
    TakeAll(excerpt);
    if excerpt != "" {
      LongestFitIsLargest(existing, id, base, excerpt, maxBytes, |excerpt|, |excerpt|);
    }
  }

  lemma {:induction false} BiggerList(records: seq<Record>, r: Record)
    ensures JsonSize(records) <= JsonSize(records + [r])
  {
    hide JsonSize;
    JsonSizeSnoc(records, r);
  }

  /** Testing record by record accepts exactly the blocks that show every hit and fit as a whole. */
  lemma {:induction false} FitRequiredIsWholeBlock(required: seq<Hit>, profile: nat, bound: nat, maxBytes: nat, k: nat)
    requires profile < PROFILE_COUNT && k <= |required|
    ensures FitRequired(required, profile, bound, maxBytes, k).Some? <==>
              AllCutsShow(required, bound, k)
                && (k > 0 ==> JsonSize(CutRecords(required, profile, bound, k)) <= maxBytes)
    ensures FitRequired(required, profile, bound, maxBytes, k).Some? ==>
              FitRequired(required, profile, bound, maxBytes, k).value == CutRecords(required, profile, bound, k)
    decreases k
  {
    hide Cut, Fitted, JsonSize, WellFormed;
    if k > 0 {
      FitRequiredIsWholeBlock(required, profile, bound, maxBytes, k - 1);
      var h, records := required[k - 1], CutRecords(required, profile, bound, k - 1);
      BiggerList(records, CutRecord(h, profile, bound));
      WholeExcerptFits(records, h.chunkId, h.profiles[profile], Cut(h, bound), maxBytes);
    }
  }

  /** The test loop of `fit_required`. */
  method FitRequiredRecords(required: seq<Hit>, profile: nat, bound: nat, maxBytes: nat)
    returns (r: Option<seq<Record>>)
    requires profile < PROFILE_COUNT
    ensures r == FitRequired(required, profile, bound, maxBytes, |required|)
  {
    hide Fitted, WellFormed, FocusedTruncate;
    var records: seq<Record> := [];
    for k := 0 to |required|
      invariant FitRequired(required, profile, bound, maxBytes, k) == Some(records)
    {
      var h := required[k];
      var excerpt := FocusedTruncateUtf8(h.excerpt, bound, h.focus);
      var fitted := FitContextRecord(records, h.chunkId, h.profiles[profile], excerpt, maxBytes);
      if fitted.None? || fitted.value.excerpt != excerpt {
        FitRequiredStaysNone(required, profile, bound, maxBytes, k + 1, |required|);
        return None;
      }
      records := records + [fitted.value];
    }
    r := Some(records);
  }

  lemma {:induction false} FitRequiredStaysNone(
      required: seq<Hit>, profile: nat, bound: nat, maxBytes: nat, k: nat, n: nat)
    requires profile < PROFILE_COUNT && k <= n <= |required|
    requires FitRequired(required, profile, bound, maxBytes, k).None?
    ensures FitRequired(required, profile, bound, maxBytes, n).None?
    decreases n - k
  {
    hide Fitted, Cut, WellFormed;
    if k < n { FitRequiredStaysNone(required, profile, bound, maxBytes, k + 1, n); }
  }

  // --- choosing profile and bound ---

  /** The first profile under which the block fits at the minimum bound, else the leanest. */
  function ChosenProfile(required: seq<Hit>, minimum: nat, maxBytes: nat, from: nat): (p: nat)
    requires from < PROFILE_COUNT
    ensures p < PROFILE_COUNT
    decreases PROFILE_COUNT - from
  {
    if from == PROFILE_COUNT - 1 || FitRequired(required, from, minimum, maxBytes, |required|).Some? then from
    else ChosenProfile(required, minimum, maxBytes, from + 1)
  }

  /** The records of the required block at a bound, where bound 0 stands for leaving the block out. */
  function BlockAt(required: seq<Hit>, profile: nat, bound: nat): seq<Record>
    requires profile < PROFILE_COUNT
  {
    if bound == 0 then [] else CutRecords(required, profile, bound, |required|)
  }

  /** At this bound the block fits, or is left out; one more byte would not fit, or exceeds the excerpt budget. */
  predicate IsTightBound(required: seq<Hit>, profile: nat, bound: nat, excerptBudget: nat, maxBytes: nat)
    requires profile < PROFILE_COUNT
  {
    && bound <= excerptBudget
    && (bound > 0 ==> FitRequired(required, profile, bound, maxBytes, |required|).Some?)
    && (bound < excerptBudget ==> FitRequired(required, profile, bound + 1, maxBytes, |required|).None?)
  }

  predicate FitsAt(required: seq<Hit>, profile: nat, maxBytes: nat, bound: nat)
    requires profile < PROFILE_COUNT
  {
    FitRequired(required, profile, bound, maxBytes, |required|).Some?
  }

  /** The bound that the binary search between low and high ends with. */
  function BoundFrom(required: seq<Hit>, profile: nat, maxBytes: nat, low: nat, high: nat): (bound: nat)
    requires profile < PROFILE_COUNT && 1 <= low <= high + 1
    ensures low - 1 <= bound <= high
    decreases high + 1 - low
  {
    var middle := (low + high) / 2;
    if low > high then low - 1
    else if FitsAt(required, profile, maxBytes, middle) then BoundFrom(required, profile, maxBytes, middle + 1, high)
    else BoundFrom(required, profile, maxBytes, low, middle - 1)
  }

  /** The bound found fits, unless it is below the range searched, and its successor in the range does not. */
  lemma {:induction false} BoundIsTight(required: seq<Hit>, profile: nat, maxBytes: nat, low: nat, high: nat)
    requires profile < PROFILE_COUNT && 1 <= low <= high + 1
    ensures var bound := BoundFrom(required, profile, maxBytes, low, high);
            && (low <= bound ==> FitsAt(required, profile, maxBytes, bound))
            && (bound < high ==> !FitsAt(required, profile, maxBytes, bound + 1))
    decreases high + 1 - low
  {
    hide FitsAt;
    var middle := (low + high) / 2;
    if low <= high {
      if FitsAt(required, profile, maxBytes, middle) {
        BoundIsTight(required, profile, maxBytes, middle + 1, high);
      } else {
        BoundIsTight(required, profile, maxBytes, low, middle - 1);
      }
    }
  }

  /** The search tests a bound that does not fit although a larger one in its range does. */
  predicate Misled(required: seq<Hit>, profile: nat, maxBytes: nat, low: nat, high: nat)
    requires profile < PROFILE_COUNT && 1 <= low <= high + 1
    decreases high + 1 - low
  {
    var middle := (low + high) / 2;
    low <= high &&
    if FitsAt(required, profile, maxBytes, middle) then Misled(required, profile, maxBytes, middle + 1, high)
    else
      || (exists b :: middle < b <= high && FitsAt(required, profile, maxBytes, b))
      || Misled(required, profile, maxBytes, low, middle - 1)
  }

  predicate NoneFits(required: seq<Hit>, profile: nat, maxBytes: nat, above: nat, high: nat)
    requires profile < PROFILE_COUNT
  {
    forall b | above < b <= high :: !FitsAt(required, profile, maxBytes, b)
  }

  /** No larger bound fits than the one found, exactly if the search was not misled. */
  lemma {:induction false} LargestIffNotMisled(required: seq<Hit>, profile: nat, maxBytes: nat, low: nat, high: nat)
    requires profile < PROFILE_COUNT && 1 <= low <= high + 1
    ensures NoneFits(required, profile, maxBytes, BoundFrom(required, profile, maxBytes, low, high), high)
       <==> !Misled(required, profile, maxBytes, low, high)
    decreases high + 1 - low
  {
    hide FitsAt;
    var middle := (low + high) / 2;
    if low <= high {
      if FitsAt(required, profile, maxBytes, middle) {
        LargestIffNotMisled(required, profile, maxBytes, middle + 1, high);
      } else {
        LargestIffNotMisled(required, profile, maxBytes, low, middle - 1);
      }
    }
  }

  /** Where every bound below a fitting one fits too, the search finds the largest that fits. */
  lemma {:induction false} MonotoneFindsLargest(required: seq<Hit>, profile: nat, maxBytes: nat, low: nat, high: nat)
    requires profile < PROFILE_COUNT && 1 <= low <= high + 1
    requires forall b, c | low <= b < c <= high && FitsAt(required, profile, maxBytes, c) ::
               FitsAt(required, profile, maxBytes, b)
    ensures NoneFits(required, profile, maxBytes, BoundFrom(required, profile, maxBytes, low, high), high)
    decreases high + 1 - low
  {
    hide FitsAt;
    var middle := (low + high) / 2;
    if low <= high {
      if FitsAt(required, profile, maxBytes, middle) {
        MonotoneFindsLargest(required, profile, maxBytes, middle + 1, high);
      } else {
        MonotoneFindsLargest(required, profile, maxBytes, low, middle - 1);
      }
    }
  }

  /** The binary search over the common excerpt bound. */
  method SearchBound(required: seq<Hit>, profile: nat, excerptBudget: nat, maxBytes: nat)
    returns (records: seq<Record>)
    requires required != [] && profile < PROFILE_COUNT
    ensures var bound := BoundFrom(required, profile, maxBytes, 1, excerptBudget);
            records == BlockAt(required, profile, bound)
              && IsTightBound(required, profile, bound, excerptBudget, maxBytes)
  {
    hide FitRequired, CutRecords, WellFormed, AllCutsShow, JsonSize, Cut;
    BoundIsTight(required, profile, maxBytes, 1, excerptBudget);
    records := [];
    var low, high := 1, excerptBudget;
    while low <= high
      invariant 1 <= low <= high + 1 && high <= excerptBudget
      invariant records == BlockAt(required, profile, low - 1)
      invariant BoundFrom(required, profile, maxBytes, 1, excerptBudget)
             == BoundFrom(required, profile, maxBytes, low, high)
      decreases high - low + 1
    {
      var middle := (low + high) / 2;
      var fitted := FitRequiredRecords(required, profile, middle, maxBytes);
      if fitted.None? {
        high := middle - 1;
      } else {
        FitRequiredIsWholeBlock(required, profile, middle, maxBytes, |required|);
        records := fitted.value;
        low := middle + 1;
      }
    }
  }

  // --- optional hits ---

  /** `_fit_optional_context_record`: the first profile that leaves a useful excerpt, else the last that fits at all. */
  function FitOptional(
      existing: seq<Record>, h: Hit, excerpt: string, maxBytes: nat, p: nat, fallback: Option<Record>): Option<Record>
    requires p <= PROFILE_COUNT
    decreases PROFILE_COUNT - p
  {
    if p == PROFILE_COUNT then fallback else
    var fitted := Fitted(existing, h.chunkId, h.profiles[p], excerpt, maxBytes);
    if fitted.None? then FitOptional(existing, h, excerpt, maxBytes, p + 1, fallback)
    else if Size(fitted.value.excerpt) >= Min(Size(excerpt), MIN_REQUIRED_CONTEXT_EXCERPT_BYTES) then fitted
    else FitOptional(existing, h, excerpt, maxBytes, p + 1, fitted)
  }

  method FitOptionalRecord(existing: seq<Record>, h: Hit, excerpt: string, maxBytes: nat) returns (r: Option<Record>)
    ensures r == FitOptional(existing, h, excerpt, maxBytes, 0, None)
  {
    hide Fitted;
    var minimum := Min(Size(excerpt), MIN_REQUIRED_CONTEXT_EXCERPT_BYTES);
    var fallback: Option<Record> := None;
    for p := 0 to PROFILE_COUNT
      invariant FitOptional(existing, h, excerpt, maxBytes, 0, None)
             == FitOptional(existing, h, excerpt, maxBytes, p, fallback)
    {
      var fitted := FitContextRecord(existing, h.chunkId, h.profiles[p], excerpt, maxBytes);
      if fitted.None? {
        continue;
      }
      fallback := fitted;
      if Size(fitted.value.excerpt) >= minimum {
        return fitted;
      }
    }
    r := fallback;
  }

  /** A record for this hit that shows a non-empty prefix of the excerpt under some profile and fits. */
  ghost predicate IsFittedPrefix(existing: seq<Record>, h: Hit, excerpt: string, maxBytes: nat, r: Record) {
    exists p :: 0 <= p < PROFILE_COUNT && Fitted(existing, h.chunkId, h.profiles[p], excerpt, maxBytes) == Some(r)
  }

  /** An optional hit is dropped only when no profile lets any of its excerpt in. */
  lemma {:induction false} FitOptionalIsFitted(
      existing: seq<Record>, h: Hit, excerpt: string, maxBytes: nat, p: nat, fallback: Option<Record>)
    requires p <= PROFILE_COUNT
    requires fallback.Some? ==> IsFittedPrefix(existing, h, excerpt, maxBytes, fallback.value)
    ensures var r := FitOptional(existing, h, excerpt, maxBytes, p, fallback);
            && (r.Some? ==> IsFittedPrefix(existing, h, excerpt, maxBytes, r.value))
            && (r.None? ==> fallback.None?)
            && (r.None? ==> forall q | p <= q < PROFILE_COUNT ::
                  Fitted(existing, h.chunkId, h.profiles[q], excerpt, maxBytes).None?)
    decreases PROFILE_COUNT - p
  {
    hide Fitted;
    if p < PROFILE_COUNT {
      var fitted := Fitted(existing, h.chunkId, h.profiles[p], excerpt, maxBytes);
      if fitted.None? {
        FitOptionalIsFitted(existing, h, excerpt, maxBytes, p + 1, fallback);
      } else {
        assert IsFittedPrefix(existing, h, excerpt, maxBytes, fitted.value);
        FitOptionalIsFitted(existing, h, excerpt, maxBytes, p + 1, fitted);
      }
    }
  }

  /** The context after the first k hits: the given block, then each hit outside the required ids that still fits. */
  function WithOptional(
      block: seq<Record>, hits: seq<Hit>, requiredIds: set<ChunkId>, excerptBudget: nat, maxBytes: nat,
      k: nat): seq<Record>
    requires k <= |hits|
    decreases k
  {
    if k == 0 then block else
    var records := WithOptional(block, hits, requiredIds, excerptBudget, maxBytes, k - 1);
    var h := hits[k - 1];
    if h.chunkId in requiredIds then records else
    match FitOptional(records, h, Cut(h, excerptBudget), maxBytes, 0, None)
    case None => records
    case Some(r) => records + [r]
  }

  method AddOptional(
      block: seq<Record>, hits: seq<Hit>, requiredIds: set<ChunkId>, excerptBudget: nat, maxBytes: nat)
    returns (records: seq<Record>)
    ensures records == WithOptional(block, hits, requiredIds, excerptBudget, maxBytes, |hits|)
  {
    hide FitOptional, FocusedTruncate, WellFormed;
    records := block;
    for k := 0 to |hits|
      invariant records == WithOptional(block, hits, requiredIds, excerptBudget, maxBytes, k)
    {
      var h := hits[k];
      if h.chunkId !in requiredIds {
        var excerpt := FocusedTruncateUtf8(h.excerpt, excerptBudget, h.focus);
        var fitted := FitOptionalRecord(records, h, excerpt, maxBytes);
        if fitted.Some? {
          records := records + [fitted.value];
        }
      }
    }
  }

  predicate NewIds(records: seq<Record>, block: seq<Record>, hits: seq<Hit>, requiredIds: set<ChunkId>, k: nat)
    requires k <= |hits|
  {
    && block <= records
    && (forall i | |block| <= i < |records| ::
        records[i].chunkId in Ids(hits[..k]) && records[i].chunkId !in requiredIds)
    && (forall i, j | |block| <= i < j < |records| :: records[i].chunkId != records[j].chunkId)
  }

  lemma {:induction false} NewIdsStep(
      records: seq<Record>, block: seq<Record>, hits: seq<Hit>, requiredIds: set<ChunkId>, k: nat, r: Record)
    requires 0 < k <= |hits| && Distinct(Ids(hits)) && NewIds(records, block, hits, requiredIds, k - 1)
    requires r.chunkId == hits[k - 1].chunkId && r.chunkId !in requiredIds
    ensures NewIds(records + [r], block, hits, requiredIds, k)
  {
    IdsGrow(hits, k);
    hide Ids;
    var more := records + [r];
    forall i | |block| <= i < |more|
      ensures more[i].chunkId in Ids(hits[..k]) && more[i].chunkId !in requiredIds
      ensures i < |records| ==> more[i].chunkId != r.chunkId
    {
      if i < |records| { assert more[i] == records[i]; }
    }
  }

  lemma {:induction false} NewIdsSkip(
      records: seq<Record>, block: seq<Record>, hits: seq<Hit>, requiredIds: set<ChunkId>, k: nat)
    requires 0 < k <= |hits| && Distinct(Ids(hits)) && NewIds(records, block, hits, requiredIds, k - 1)
    ensures NewIds(records, block, hits, requiredIds, k)
  {
    IdsGrow(hits, k);
  }

  /** Optional records come after the block, one per hit at most, and none of them is required. */
  lemma {:induction false} WithOptionalIsNew(
      block: seq<Record>, hits: seq<Hit>, requiredIds: set<ChunkId>, excerptBudget: nat, maxBytes: nat, k: nat)
    requires k <= |hits| && Distinct(Ids(hits))
    ensures NewIds(WithOptional(block, hits, requiredIds, excerptBudget, maxBytes, k), block, hits, requiredIds, k)
    decreases k
  {
    hide FitOptional, JsonSize, Cut, Ids, Distinct, WellFormed;
    if k > 0 {
      hide NewIds;
      WithOptionalIsNew(block, hits, requiredIds, excerptBudget, maxBytes, k - 1);
      var records, h := WithOptional(block, hits, requiredIds, excerptBudget, maxBytes, k - 1), hits[k - 1];
      var fitted := FitOptional(records, h, Cut(h, excerptBudget), maxBytes, 0, None);
      if h.chunkId !in requiredIds && fitted.Some? {
        FitOptionalIsFitted(records, h, Cut(h, excerptBudget), maxBytes, 0, None);
        FittedPrefixFits(records, h, Cut(h, excerptBudget), maxBytes, fitted.value);
        NewIdsStep(records, block, hits, requiredIds, k, fitted.value);
      } else {
        NewIdsSkip(records, block, hits, requiredIds, k);
      }
    }
  }

  /** Optional records keep the byte budget. */
  lemma {:induction false} WithOptionalFits(
      block: seq<Record>, hits: seq<Hit>, requiredIds: set<ChunkId>, excerptBudget: nat, maxBytes: nat, k: nat)
    requires k <= |hits| && JsonSize(block) <= maxBytes
    ensures JsonSize(WithOptional(block, hits, requiredIds, excerptBudget, maxBytes, k)) <= maxBytes
    decreases k
  {
    hide FitOptional, JsonSize, Cut, WellFormed;
    if k > 0 {
      WithOptionalFits(block, hits, requiredIds, excerptBudget, maxBytes, k - 1);
      var records, h := WithOptional(block, hits, requiredIds, excerptBudget, maxBytes, k - 1), hits[k - 1];
      var fitted := FitOptional(records, h, Cut(h, excerptBudget), maxBytes, 0, None);
      if h.chunkId !in requiredIds && fitted.Some? {
        FitOptionalIsFitted(records, h, Cut(h, excerptBudget), maxBytes, 0, None);
        FittedPrefixFits(records, h, Cut(h, excerptBudget), maxBytes, fitted.value);
      }
    }
  }

  lemma {:induction false} IdsGrow(hits: seq<Hit>, k: nat)
    requires 0 < k <= |hits| && Distinct(Ids(hits))
    ensures hits[k - 1].chunkId in Ids(hits[..k]) && hits[k - 1].chunkId !in Ids(hits[..k - 1])
    ensures forall id | id in Ids(hits[..k - 1]) :: id in Ids(hits[..k])
  {
    assert Ids(hits[..k])[k - 1] == hits[k - 1].chunkId;
    forall i | 0 <= i < k - 1
      ensures Ids(hits[..k - 1])[i] == Ids(hits[..k])[i] == Ids(hits)[i] && Ids(hits)[i] != Ids(hits)[k - 1] { }
  }

  lemma {:induction false} FittedPrefixFits(existing: seq<Record>, h: Hit, excerpt: string, maxBytes: nat, r: Record)
    requires IsFittedPrefix(existing, h, excerpt, maxBytes, r)
    ensures r.chunkId == h.chunkId && JsonSize(existing + [r]) <= maxBytes
    ensures 0 < |r.excerpt| <= |excerpt| && r.excerpt == excerpt[..|r.excerpt|]
  {
    var p :| 0 <= p < PROFILE_COUNT && Fitted(existing, h.chunkId, h.profiles[p], excerpt, maxBytes) == Some(r);
    hide JsonSize, Fitted;
    FittedIsMaximal(existing, h.chunkId, h.profiles[p], excerpt, maxBytes);
  }

  // --- the whole packing ---

  /** The required block selection loop. */
  method SelectRequired(hits: seq<Hit>, primaryIds: set<ChunkId>, expansion: map<ChunkId, seq<ChunkId>>)
    returns (required: seq<Hit>)
    ensures required == RequiredBlock(hits, primaryIds, expansion, |hits|).required
  {
    hide Neighbors;
    required := [];
    var taken: set<ChunkId> := {};
    for k := 0 to |hits|
      invariant RequiredBlock(hits, primaryIds, expansion, k) == Block(required, taken)
    {
      if hits[k].chunkId in primaryIds {
        var neighbors := Neighbors(hits, hits[k], expansion, taken);
        required := required + [hits[k]] + neighbors;
        taken := taken + IdSet(neighbors);
      }
    }
  }

  method ChooseProfile(required: seq<Hit>, minimum: nat, maxBytes: nat) returns (profile: nat)
    ensures profile == ChosenProfile(required, minimum, maxBytes, 0)
  {
    hide FitRequired;
    profile := 0;
    while profile < PROFILE_COUNT - 1
      invariant profile < PROFILE_COUNT
      invariant ChosenProfile(required, minimum, maxBytes, 0) == ChosenProfile(required, minimum, maxBytes, profile)
    {
      var fitted := FitRequiredRecords(required, profile, minimum, maxBytes);
      if fitted.Some? {
        return;
      }
      profile := profile + 1;
    }
  }

  /** What `_build_context` promises about its records. */
  ghost predicate IsPacked(
      records: seq<Record>, hits: seq<Hit>, required: seq<Hit>, excerptBudget: nat, maxBytes: nat, profile: nat,
      bound: nat)
    requires profile < PROFILE_COUNT
  {
    && (required == [] ==> bound == 0)
    && (required != [] ==> bound == BoundFrom(required, profile, maxBytes, 1, excerptBudget))
    && records == WithOptional(BlockAt(required, profile, bound), hits, IdSet(required), excerptBudget, maxBytes,
        |hits|)
  }

  /**
   * Whatever the budget, every packed context invents no chunk and repeats none that the required block does not
   * repeat, holds that block whole and in order with one common cut or not at all, and is within the byte budget
   * exactly when the budget can hold `[]`.
   */
  lemma {:induction false} PackedContextIsSound(
      records: seq<Record>, hits: seq<Hit>, required: seq<Hit>, excerptBudget: nat, maxBytes: nat, profile: nat,
      bound: nat)
    requires Distinct(Ids(hits)) && (forall h | h in required :: h in hits)
    requires profile < PROFILE_COUNT
    requires IsPacked(records, hits, required, excerptBudget, maxBytes, profile, bound)
    ensures JsonSize(records) <= maxBytes <==> maxBytes >= 2
    ensures Distinct(Ids(required)) ==> Distinct(RecordIds(records))
    ensures forall id | id in RecordIds(records) :: id in Ids(hits)
    ensures BlockAt(required, profile, bound) <= records
    ensures forall i | |BlockAt(required, profile, bound)| <= i < |records| :: records[i].chunkId !in IdSet(required)
  {
    var block, taken := BlockAt(required, profile, bound), IdSet(required);
    WithOptionalIsNew(block, hits, taken, excerptBudget, maxBytes, |hits|);
    TakeAll(hits);
    BlockIds(required, profile, bound);
    hide FitRequired, WithOptional, CutRecords, IdSet, BoundFrom;
    if required != [] { BoundIsTight(required, profile, maxBytes, 1, excerptBudget); }
    BlockFits(required, profile, bound, maxBytes);
    if maxBytes >= 2 { WithOptionalFits(block, hits, taken, excerptBudget, maxBytes, |hits|); }
    AtLeastBrackets(records);
    if Distinct(Ids(required)) { PackedIsDistinct(records, block, required, hits); }
    forall i | 0 <= i < |records| ensures records[i].chunkId in Ids(hits) {
      if i < |block| {
        assert records[i] == block[i] && required[i] in hits;
        InIds(hits, required[i].chunkId);
      }
    }
  }

  lemma {:induction false} PackedIsDistinct(
      records: seq<Record>, block: seq<Record>, required: seq<Hit>, hits: seq<Hit>)
    requires Distinct(Ids(required)) && |block| <= |required| && NewIds(records, block, hits, IdSet(required), |hits|)
    requires forall i | 0 <= i < |block| ::
               block[i].chunkId == required[i].chunkId && block[i].chunkId in IdSet(required)
    ensures Distinct(RecordIds(records))
  {
    hide IdSet;
    forall i, j | 0 <= i < j < |records| ensures records[i].chunkId != records[j].chunkId {
      if i < |block| {
        assert records[i] == block[i];
        if j < |block| { assert records[j] == block[j] && Ids(required)[i] != Ids(required)[j]; }
      }
    }
  }

  lemma {:induction false} BlockIds(required: seq<Hit>, profile: nat, bound: nat)
    requires profile < PROFILE_COUNT
    ensures var block := BlockAt(required, profile, bound);
            |block| <= |required| &&
            forall i | 0 <= i < |block| ::
              block[i].chunkId == required[i].chunkId && block[i].chunkId in IdSet(required)
  {
    CutRecordsAt(required, profile, bound, |required|);
  }

  lemma {:induction false} CutRecordsAt(required: seq<Hit>, profile: nat, bound: nat, k: nat)
    requires profile < PROFILE_COUNT && k <= |required|
    ensures forall i | 0 <= i < k ::
              CutRecords(required, profile, bound, k)[i] == CutRecord(required[i], profile, bound)
    decreases k
  {
    hide CutRecord;
    if k > 0 { CutRecordsAt(required, profile, bound, k - 1); }
  }

  lemma {:induction false} BlockFits(required: seq<Hit>, profile: nat, bound: nat, maxBytes: nat)
    requires profile < PROFILE_COUNT && (required == [] ==> bound == 0)
    requires bound > 0 ==> FitRequired(required, profile, bound, maxBytes, |required|).Some?
    ensures maxBytes >= 2 ==> JsonSize(BlockAt(required, profile, bound)) <= maxBytes
  {
    hide JsonSize;
    if bound == 0 {
      JsonSizeSnoc([], Record("", Base("", ""), ""));
    } else {
      FitRequiredIsWholeBlock(required, profile, bound, maxBytes, |required|);
    }
  }

  lemma {:induction false} AtLeastBrackets(records: seq<Record>)
    ensures JsonSize(records) >= 2
  {
    hide Encode;
    AsciiSize('[');
    AsciiSize(']');
    SizeOf3("[", Body(records), "]");
  }

  /** `_build_context`. */
  method BuildContext(
      hits: seq<Hit>, primaryIds: set<ChunkId>, expansion: map<ChunkId, seq<ChunkId>>, excerptBudget: nat,
      maxBytes: nat)
    returns (text: string, ids: seq<ChunkId>, records: seq<Record>, ghost profile: nat, ghost bound: nat)
    requires Distinct(Ids(hits)) && excerptBudget > 0 && maxBytes > 0
    ensures text == JsonText(records) && ids == RecordIds(records)
    ensures Size(text) <= maxBytes <==> maxBytes >= 2
    ensures ValidExpansion(primaryIds, expansion) ==> Distinct(ids)
    ensures forall id | id in ids :: id in Ids(hits)
    ensures var required := RequiredBlock(hits, primaryIds, expansion, |hits|).required;
            && (ValidExpansion(primaryIds, expansion) ==> Distinct(Ids(required)))
            && (forall h | h in hits && h.chunkId in primaryIds :: h in required)
            && profile == ChosenProfile(required, Min(excerptBudget, MIN_REQUIRED_CONTEXT_EXCERPT_BYTES), maxBytes, 0)
            && IsPacked(records, hits, required, excerptBudget, maxBytes, profile, bound)
            && BlockAt(required, profile, bound) <= records
            && (forall i | |BlockAt(required, profile, bound)| <= i < |records| ::
                records[i].chunkId !in IdSet(required))
  {
    hide RequiredBlock, ChosenProfile, FitRequired, WithOptional, BoundFrom;
    var required := SelectRequired(hits, primaryIds, expansion);
    RequiredBlockHolds(hits, primaryIds, expansion, |hits|);
    if ValidExpansion(primaryIds, expansion) { RequiredBlockIsDistinct(hits, primaryIds, expansion, |hits|); }
    TakeAll(hits);
    var chosen := ChooseProfile(required, Min(excerptBudget, MIN_REQUIRED_CONTEXT_EXCERPT_BYTES), maxBytes);
    profile, bound, records := chosen, 0, [];
    if required != [] {
      records := SearchBound(required, chosen, excerptBudget, maxBytes);
      bound := BoundFrom(required, chosen, maxBytes, 1, excerptBudget);
    }
    records := AddOptional(records, hits, IdSet(required), excerptBudget, maxBytes);
    PackedContextIsSound(records, hits, required, excerptBudget, maxBytes, profile, bound);
    text := JsonText(records);
    ids := RecordIds(records);
  }
}
