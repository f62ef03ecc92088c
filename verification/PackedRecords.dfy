/** Which profile, which cut and which optional hits a packed context shows. */
module PackedRecords {
  import opened ContextBuilder
  import opened ContextPacking
  import opened FocusWindows
  import opened JsonRecords
  import opened Slices
  import opened Spans
  import opened Text
  import opened Utf8

  // --- the profile of the required block ---

  /** The block is packed under the first of the four profiles under which it fits at the minimum bound, and under the
      leanest if there is none. */
  lemma {:induction false} ProfileIsFirstFit(required: seq<Hit>, minimum: nat, maxBytes: nat, from: nat)
    requires from < PROFILE_COUNT
    ensures var p := ChosenProfile(required, minimum, maxBytes, from);
            && from <= p < 4
            && (FitsAt(required, p, maxBytes, minimum) || p == 3)
            && forall q | from <= q < p :: !FitsAt(required, q, maxBytes, minimum)
    decreases PROFILE_COUNT - from
  {
    hide FitRequired;
    if from < PROFILE_COUNT - 1 && FitRequired(required, from, minimum, maxBytes, |required|).None? {
      ProfileIsFirstFit(required, minimum, maxBytes, from + 1);
    }
  }

  /** Each required record shows its hit under the chosen profile, with the excerpt cut at the common bound. */
  lemma {:induction false} RequiredRecordsAre(required: seq<Hit>, profile: nat, bound: nat)
    requires profile < PROFILE_COUNT && bound > 0
    ensures var block := BlockAt(required, profile, bound);
            && |block| == |required|
            && forall i | 0 <= i < |required| ::
                 block[i] == Record(required[i].chunkId, required[i].profiles[profile],
                                    FocusedTruncate(required[i].excerpt, bound, required[i].focus))
  {
    hide FocusedTruncate, WellFormed;
    CutRecordsAt(required, profile, bound, |required|);
  }

  // --- one optional hit ---

  /** The excerpt that fits is the whole one, or has at least 96 bytes. */
  predicate ShowsEnough(excerpt: string, fitted: Option<Record>) {
    fitted.Some? && (Size(fitted.value.excerpt) >= 96 || Size(fitted.value.excerpt) >= Size(excerpt))
  }

  /** The profile that an optional hit is shown under: the first one that shows enough, else the last one under which
      anything fits. */
  lemma {:induction false} OptionalProfile(
      existing: seq<Record>, h: Hit, excerpt: string, maxBytes: nat, p: nat, fallback: Option<Record>)
    requires p <= PROFILE_COUNT
    ensures var r := FitOptional(existing, h, excerpt, maxBytes, p, fallback);
            || (exists q | p <= q < PROFILE_COUNT ::
                  && ShowsEnough(excerpt, FittedUnder(existing, h, excerpt, maxBytes, q))
                  && r == FittedUnder(existing, h, excerpt, maxBytes, q)
                  && forall l | p <= l < q :: !ShowsEnough(excerpt, FittedUnder(existing, h, excerpt, maxBytes, l)))
            || ((forall l | p <= l < PROFILE_COUNT ::
                   !ShowsEnough(excerpt, FittedUnder(existing, h, excerpt, maxBytes, l)))
                && LastFit(existing, h, excerpt, maxBytes, p, fallback, r))
    decreases PROFILE_COUNT - p
  {
    hide Fitted, Size;
    if p < PROFILE_COUNT {
      var fitted := FittedUnder(existing, h, excerpt, maxBytes, p);
      if !ShowsEnough(excerpt, fitted) {
        OptionalProfile(existing, h, excerpt, maxBytes, p + 1, if fitted.Some? then fitted else fallback);
        hide FittedUnder, ShowsEnough;
      }
    }
  }

  function FittedUnder(existing: seq<Record>, h: Hit, excerpt: string, maxBytes: nat, p: nat): Option<Record>
    requires p < PROFILE_COUNT
  {
    Fitted(existing, h.chunkId, h.profiles[p], excerpt, maxBytes)
  }

  /** The result is what fits under the last profile from the p-th on under which anything does, if there is one. */
  ghost predicate LastFit(
      existing: seq<Record>, h: Hit, excerpt: string, maxBytes: nat, p: nat, fallback: Option<Record>,
      r: Option<Record>)
  {
    || (exists q | p <= q < PROFILE_COUNT ::
          && r.Some? && r == FittedUnder(existing, h, excerpt, maxBytes, q)
          && forall l | q < l < PROFILE_COUNT :: FittedUnder(existing, h, excerpt, maxBytes, l).None?)
    || (r == fallback && forall l | p <= l < PROFILE_COUNT :: FittedUnder(existing, h, excerpt, maxBytes, l).None?)
  }

  // --- all optional hits ---

  lemma {:induction false} RecordsGrow(a: seq<Record>, b: seq<Record>, r: Record)
    requires a <= b
    ensures JsonSize(a + [r]) <= JsonSize(b + [r]) && JsonSize(a) <= JsonSize(b)
    decreases |b|
  {
    if a == b {
    } else {
      var front, last := b[..|b| - 1], b[|b| - 1];
      assert front + [last] == b && a <= front;
      RecordsGrow(a, front, r);
      hide JsonSize, RecordText;
      JsonSizeSnoc(front, last);
      JsonSizeSnoc(front, r);
      JsonSizeSnoc(b, r);
    }
  }

  lemma {:induction false} OptionalGrows(
      block: seq<Record>, hits: seq<Hit>, requiredIds: set<ChunkId>, excerptBudget: nat, maxBytes: nat, j: nat, k: nat)
    requires j <= k <= |hits|
    ensures WithOptional(block, hits, requiredIds, excerptBudget, maxBytes, j)
         <= WithOptional(block, hits, requiredIds, excerptBudget, maxBytes, k)
    decreases k
  {
    hide FitOptional, Cut, WellFormed;
    if j < k { OptionalGrows(block, hits, requiredIds, excerptBudget, maxBytes, j, k - 1); }
  }

  /** No non-empty prefix of the hit's excerpt could be added to these records, under any profile. */
  ghost predicate NothingFits(records: seq<Record>, h: Hit, excerpt: string, maxBytes: nat) {
    forall p, n | 0 <= p < PROFILE_COUNT && 0 < n <= |excerpt| ::
      !FitsWith(records, Record(h.chunkId, h.profiles[p], excerpt[..n]), maxBytes)
  }

  lemma {:induction false} DroppedFitsNowhere(
      records: seq<Record>, all: seq<Record>, h: Hit, excerpt: string, maxBytes: nat)
    requires records <= all && FitOptional(records, h, excerpt, maxBytes, 0, None).None?
    ensures NothingFits(all, h, excerpt, maxBytes)
  {
    FitOptionalIsFitted(records, h, excerpt, maxBytes, 0, None);
    hide FitOptional, Fitted, JsonSize;
    forall p, n | 0 <= p < PROFILE_COUNT && 0 < n <= |excerpt|
      ensures !FitsWith(all, Record(h.chunkId, h.profiles[p], excerpt[..n]), maxBytes)
    {
      FittedIsMaximal(records, h.chunkId, h.profiles[p], excerpt, maxBytes);
      assert !FitsWith(records, Record(h.chunkId, h.profiles[p], excerpt[..n]), maxBytes);
      RecordsGrow(records, all, Record(h.chunkId, h.profiles[p], excerpt[..n]));
    }
  }

  /**
   * No hit is left out for nothing: each one that is not required is in the context, or nothing of it would fit with
   * the records that the context has in the end.
   */
  lemma {:induction false} LeftOutFitsNowhere(
      block: seq<Record>, hits: seq<Hit>, requiredIds: set<ChunkId>, excerptBudget: nat, maxBytes: nat, i: nat)
    requires i < |hits| && hits[i].chunkId !in requiredIds
    ensures var records := WithOptional(block, hits, requiredIds, excerptBudget, maxBytes, |hits|);
            || hits[i].chunkId in RecordIds(records)
            || NothingFits(records, hits[i], FocusedTruncate(hits[i].excerpt, excerptBudget, hits[i].focus), maxBytes)
  {
    var before := WithOptional(block, hits, requiredIds, excerptBudget, maxBytes, i);
    var after := WithOptional(block, hits, requiredIds, excerptBudget, maxBytes, i + 1);
    var records := WithOptional(block, hits, requiredIds, excerptBudget, maxBytes, |hits|);
    OptionalGrows(block, hits, requiredIds, excerptBudget, maxBytes, i, |hits|);
    OptionalGrows(block, hits, requiredIds, excerptBudget, maxBytes, i + 1, |hits|);
    var h, excerpt := hits[i], Cut(hits[i], excerptBudget);
    var fitted := FitOptional(before, h, excerpt, maxBytes, 0, None);
    if fitted.None? {
      DroppedFitsNowhere(before, records, h, excerpt, maxBytes);
    } else {
      FitOptionalIsFitted(before, h, excerpt, maxBytes, 0, None);
      FittedPrefixFits(before, h, excerpt, maxBytes, fitted.value);
      hide FitOptional, FocusedTruncate, WellFormed, JsonSize;
      assert after == before + [fitted.value];
      assert records[|before|] == fitted.value && RecordIds(records)[|before|] == h.chunkId;
    }
  }

  /** After the first n records, one for each of these hits among the first k, in their order. */
  predicate InOrder(records: seq<Record>, n: nat, hits: seq<Hit>, k: nat, at: seq<nat>)
    requires k <= |hits|
  {
    && |records| == n + |at|
    && (forall j | 0 <= j < |at| :: at[j] < k && records[n + j].chunkId == hits[at[j]].chunkId)
    && (forall j, l | 0 <= j < l < |at| :: at[j] < at[l])
  }

  lemma {:induction false} InOrderSnoc(records: seq<Record>, n: nat, hits: seq<Hit>, k: nat, at: seq<nat>, r: Record)
    requires k < |hits| && InOrder(records, n, hits, k, at)
    ensures InOrder(records, n, hits, k + 1, at)
    ensures r.chunkId == hits[k].chunkId ==> InOrder(records + [r], n, hits, k + 1, at + [k])
  {
    assert records <= records + [r];
  }

  lemma {:induction false} NothingOptional(
      block: seq<Record>, hits: seq<Hit>, requiredIds: set<ChunkId>, excerptBudget: nat, maxBytes: nat)
    ensures InOrder(WithOptional(block, hits, requiredIds, excerptBudget, maxBytes, 0), |block|, hits, 0, [])
  {
  }

  /** Optional records come in the order of their hits. */
  lemma {:induction false} OptionalInOrder(
      block: seq<Record>, hits: seq<Hit>, requiredIds: set<ChunkId>, excerptBudget: nat, maxBytes: nat, k: nat)
    returns (at: seq<nat>)
    requires k <= |hits|
    ensures InOrder(WithOptional(block, hits, requiredIds, excerptBudget, maxBytes, k), |block|, hits, k, at)
    decreases k
  {
    hide WithOptional, InOrder, WellFormed;
    if k == 0 {
      at := [];
      NothingOptional(block, hits, requiredIds, excerptBudget, maxBytes);
    } else {
      at := OptionalInOrder(block, hits, requiredIds, excerptBudget, maxBytes, k - 1);
      var before := WithOptional(block, hits, requiredIds, excerptBudget, maxBytes, k - 1);
      var added := OptionalStep(block, hits, requiredIds, excerptBudget, maxBytes, k);
      InOrderSnoc(before, |block|, hits, k - 1, at, if added.Some? then added.value else Record("", NO_BASE, ""));
      if added.Some? { at := at + [k - 1]; }
    }
  }

  lemma {:induction false} OptionalStep(
      block: seq<Record>, hits: seq<Hit>, requiredIds: set<ChunkId>, excerptBudget: nat, maxBytes: nat, k: nat)
    returns (added: Option<Record>)
    requires 0 < k <= |hits|
    ensures var before := WithOptional(block, hits, requiredIds, excerptBudget, maxBytes, k - 1);
            var after := WithOptional(block, hits, requiredIds, excerptBudget, maxBytes, k);
            if added.Some? then after == before + [added.value] && added.value.chunkId == hits[k - 1].chunkId
            else after == before
  {
    hide FitOptional, Cut, WellFormed, Fitted;
    var before, h := WithOptional(block, hits, requiredIds, excerptBudget, maxBytes, k - 1), hits[k - 1];
    var excerpt := Cut(h, excerptBudget);
    var fitted := FitOptional(before, h, excerpt, maxBytes, 0, None);
    added := if h.chunkId in requiredIds then None else fitted;
    if added.Some? {
      FitOptionalIsFitted(before, h, excerpt, maxBytes, 0, None);
      hide IsFittedPrefix;
      FittedPrefixFits(before, h, excerpt, maxBytes, fitted.value);
    }
  }

  // --- every record shows a hit of its own ---

  /** The record is this hit's under profile p: a first part of its excerpt, cut around its own matches. */
  predicate IsShown(h: Hit, r: Record, p: nat, bound: nat, n: nat) {
    && p < PROFILE_COUNT && n <= |FocusedTruncate(h.excerpt, bound, h.focus)|
    && r == Record(h.chunkId, h.profiles[p], FocusedTruncate(h.excerpt, bound, h.focus)[..n])
  }

  ghost predicate ShowsHit(h: Hit, r: Record) {
    exists p: nat, bound: nat, n: nat :: IsShown(h, r, p, bound, n)
  }

  ghost predicate ShowsOneOf(hits: seq<Hit>, r: Record) {
    exists h :: h in hits && ShowsHit(h, r)
  }

  ghost predicate AllShow(hits: seq<Hit>, records: seq<Record>) {
    forall i | 0 <= i < |records| :: ShowsOneOf(hits, records[i])
  }

  lemma {:induction false} BlockShows(hits: seq<Hit>, required: seq<Hit>, profile: nat, bound: nat)
    requires profile < PROFILE_COUNT && forall h | h in required :: h in hits
    ensures AllShow(hits, BlockAt(required, profile, bound))
  {
    if bound > 0 {
      RequiredRecordsAre(required, profile, bound);
      var block := BlockAt(required, profile, bound);
      hide FocusedTruncate, WellFormed, BlockAt;
      forall i | 0 <= i < |block| ensures ShowsOneOf(hits, block[i]) {
        var h := required[i];
        TakeAll(FocusedTruncate(h.excerpt, bound, h.focus));
        assert IsShown(h, block[i], profile, bound, |FocusedTruncate(h.excerpt, bound, h.focus)|);
        assert h in required && ShowsHit(h, block[i]);
      }
    }
  }

  lemma {:induction false} FittedShows(existing: seq<Record>, h: Hit, bound: nat, maxBytes: nat, r: Record)
    requires IsFittedPrefix(existing, h, Cut(h, bound), maxBytes, r)
    ensures ShowsHit(h, r)
  {
    var excerpt := Cut(h, bound);
    var p :| 0 <= p < PROFILE_COUNT && Fitted(existing, h.chunkId, h.profiles[p], excerpt, maxBytes) == Some(r);
    FittedIsMaximal(existing, h.chunkId, h.profiles[p], excerpt, maxBytes);
    hide Fitted, FocusedTruncate, WellFormed, FitsWith;
    assert IsShown(h, r, p, bound, |r.excerpt|);
  }

  lemma {:induction false} OptionalShows(
      block: seq<Record>, hits: seq<Hit>, requiredIds: set<ChunkId>, excerptBudget: nat, maxBytes: nat, k: nat)
    requires k <= |hits| && AllShow(hits, block)
    ensures AllShow(hits, WithOptional(block, hits, requiredIds, excerptBudget, maxBytes, k))
    decreases k
  {
    hide FitOptional, Cut, WellFormed, ShowsOneOf;
    if k > 0 {
      OptionalShows(block, hits, requiredIds, excerptBudget, maxBytes, k - 1);
      var before, h := WithOptional(block, hits, requiredIds, excerptBudget, maxBytes, k - 1), hits[k - 1];
      var fitted := FitOptional(before, h, Cut(h, excerptBudget), maxBytes, 0, None);
      if fitted.Some? {
        FitOptionalIsFitted(before, h, Cut(h, excerptBudget), maxBytes, 0, None);
        hide IsFittedPrefix, ShowsHit;
        FittedShows(before, h, excerptBudget, maxBytes, fitted.value);
        ShowsListed(hits, h, fitted.value);
      }
    }
  }

  lemma {:induction false} ShowsListed(hits: seq<Hit>, h: Hit, r: Record)
    requires h in hits && ShowsHit(h, r)
    ensures ShowsOneOf(hits, r)
  {
  }

  /** Every record of a packed context shows one of the hits, with its own metadata and a part of its own excerpt. */
  lemma {:induction false} PackedRecordsShowHits(
      records: seq<Record>, hits: seq<Hit>, required: seq<Hit>, excerptBudget: nat, maxBytes: nat, profile: nat,
      bound: nat)
    requires profile < PROFILE_COUNT && (forall h | h in required :: h in hits)
    requires IsPacked(records, hits, required, excerptBudget, maxBytes, profile, bound)
    ensures AllShow(hits, records)
  {
    hide BlockAt, WithOptional, AllShow, BoundFrom, IdSet;
    BlockShows(hits, required, profile, bound);
    OptionalShows(BlockAt(required, profile, bound), hits, IdSet(required), excerptBudget, maxBytes, |hits|);
  }
}
