/** The bounded retrieval loop of `BoundedEvidenceAgent.run` and the neighbour expansion that follows it. */
module Retrieval {
  import opened Collections
  import opened Slices
  import opened Text

  type ChunkId = string

  /** `identity` stands for the tuple `_hit_identity`. */
  datatype SearchHit = SearchHit(
    chunkId: ChunkId, identity: seq<string>, metadata: Option<string>, channels: seq<string>, score: real)

  function HitIds(hits: seq<SearchHit>): (r: seq<ChunkId>)
    ensures |r| == |hits| && forall i | 0 <= i < |r| :: r[i] == hits[i].chunkId
  {
    seq(|hits|, i requires 0 <= i < |hits| => hits[i].chunkId)
  }

  // --- merging a repeated hit ---

  /** `list(dict.fromkeys(s))`. */
  function Dedup(s: seq<string>): seq<string> {
    if s == [] then [] else
    var front := Dedup(s[..|s| - 1]);
    if s[|s| - 1] in front then front else front + [s[|s| - 1]]
  }

  function Texts(o: Option<string>): seq<string> {
    if o.Some? && Strip(o.value) != "" then [Strip(o.value)] else []
  }

  /** `_merge_optional_evidence_text`. */
  function MergeText(a: Option<string>, b: Option<string>): Option<string> {
    var values := Dedup(Texts(a) + Texts(b));
    if values == [] then None
    else if |values| == 1 then Some(values[0])
    else Some(values[0] + " | " + values[1])
  }

  function MergeHit(existing: SearchHit, hit: SearchHit): SearchHit {
    existing.(metadata := MergeText(existing.metadata, hit.metadata),
              channels := Dedup(existing.channels + hit.channels),
              score := if existing.score < hit.score then hit.score else existing.score)
  }

  // --- taking in the results of one search ---

  /** `retrieved` (ids in insertion order, and the hits), `focus_queries`, and the ids this search has added. */
  datatype Intake = Intake(
    order: seq<ChunkId>, hits: map<ChunkId, SearchHit>, focus: map<ChunkId, seq<string>>, accepted: seq<ChunkId>)
    | Ambiguous

  function AddFocus(focus: map<ChunkId, seq<string>>, id: ChunkId, query: string): map<ChunkId, seq<string>> {
    focus[id := (if id in focus then focus[id] else []) + [query]]
  }

  /** One result: ignored once the limit is reached, merged when the chunk is known, else accepted. */
  function TakeHit(i: Intake, hit: SearchHit, limit: nat, query: string): Intake {
    if i.Ambiguous? || |i.accepted| >= limit then i
    else if hit.chunkId in i.hits then
      if i.hits[hit.chunkId].identity != hit.identity then Ambiguous
      else i.(hits := i.hits[hit.chunkId := MergeHit(i.hits[hit.chunkId], hit)],
              focus := AddFocus(i.focus, hit.chunkId, query))
    else Intake(i.order + [hit.chunkId], i.hits[hit.chunkId := hit], AddFocus(i.focus, hit.chunkId, query),
                i.accepted + [hit.chunkId])
  }

  function TakeHits(i: Intake, results: seq<SearchHit>, limit: nat, query: string, k: nat): Intake
    requires k <= |results|
    decreases k
  {
    if k == 0 then i else TakeHit(TakeHits(i, results, limit, query, k - 1), results[k - 1], limit, query)
  }

  lemma {:induction false} TakeHitsStops(i: Intake, results: seq<SearchHit>, limit: nat, query: string, k: nat, n: nat)
    requires k <= n <= |results|
    requires var t := TakeHits(i, results, limit, query, k); t.Ambiguous? || |t.accepted| >= limit
    ensures TakeHits(i, results, limit, query, n) == TakeHits(i, results, limit, query, k)
    decreases n
  {
    if k < n { TakeHitsStops(i, results, limit, query, k, n - 1); }
  }

  /** At most `limit` results are accepted, and each accepted one is appended to the order. */
  lemma {:induction false} TakeHitsAreBounded(i: Intake, results: seq<SearchHit>, limit: nat, query: string, k: nat)
    requires k <= |results| && i.Intake? && |i.accepted| <= limit
    ensures var t := TakeHits(i, results, limit, query, k);
            t.Intake? ==> |i.accepted| <= |t.accepted| <= limit && |t.order| - |t.accepted| == |i.order| - |i.accepted|
    decreases k
  {
    hide MergeHit, AddFocus;
    if k > 0 { TakeHitsAreBounded(i, results, limit, query, k - 1); }
  }

  /** The loop over the hits of one search. */
  method TakeSearchResults(i: Intake, results: seq<SearchHit>, limit: nat, query: string) returns (r: Intake)
    requires i.Intake?
    ensures r == TakeHits(i, results, limit, query, |results|)
  {
    hide MergeHit, AddFocus;
    r := i;
    for k := 0 to |results|
      invariant r.Intake? && r == TakeHits(i, results, limit, query, k)
    {
      var hit := results[k];
      if |r.accepted| >= limit {
        TakeHitsStops(i, results, limit, query, k, |results|);
        break;
      }
      if hit.chunkId in r.hits {
        var existing := r.hits[hit.chunkId];
        if existing.identity != hit.identity {
          TakeHitsStops(i, results, limit, query, k + 1, |results|);
          return Ambiguous;
        }
        r := r.(hits := r.hits[hit.chunkId := MergeHit(existing, hit)], focus := AddFocus(r.focus, hit.chunkId, query));
        continue;
      }
      r := Intake(r.order + [hit.chunkId], r.hits[hit.chunkId := hit], AddFocus(r.focus, hit.chunkId, query),
                  r.accepted + [hit.chunkId]);
    }
  }

  /** The order lists every retrieved hit once, and each hit is kept under its own id. */
  ghost predicate Consistent(i: Intake) {
    && i.Intake? && Distinct(i.order) && (forall id :: id in i.order <==> id in i.hits) && i.focus.Keys == i.hits.Keys
    && (forall id | id in i.hits :: i.hits[id].chunkId == id)
  }

  /** Known hits survive with their identity, no lower score and at least one query each. */
  predicate Keeps(before: map<ChunkId, SearchHit>, after: map<ChunkId, SearchHit>) {
    forall id | id in before ::
      id in after && after[id].identity == before[id].identity && after[id].score >= before[id].score
  }

  lemma {:induction false} TakeHitAppends(i: Intake, hit: SearchHit, limit: nat, query: string)
    requires Consistent(i)
    ensures var t := TakeHit(i, hit, limit, query);
            t.Intake? ==>
              && Consistent(t) && Keeps(i.hits, t.hits)
              && (|i.accepted| < limit ==> hit.chunkId in t.order)
              && if |i.accepted| < limit && hit.chunkId !in i.hits
                 then t.order == i.order + [hit.chunkId] && t.accepted == i.accepted + [hit.chunkId]
                 else t.order == i.order && t.accepted == i.accepted
  {
    hide MergeText, Dedup;
  }

  /** Taking results only appends: at most `limit` new ids, each from the results, everything known kept. */
  lemma {:induction false} TakeHitsAppends(i: Intake, results: seq<SearchHit>, limit: nat, query: string, k: nat)
    requires k <= |results| && Consistent(i) && i.accepted == []
    ensures var t := TakeHits(i, results, limit, query, k);
            t.Intake? ==>
              && Consistent(t) && t.order == i.order + t.accepted && |t.accepted| <= limit
              && (forall id | id in t.accepted :: id in HitIds(results[..k]))
              && Keeps(i.hits, t.hits)
    decreases k
  {
    if k > 0 {
      TakeHitsAppends(i, results, limit, query, k - 1);
      var t, hit := TakeHits(i, results, limit, query, k - 1), results[k - 1];
      if t.Intake? {
        hide TakeHit, Consistent, HitIds;
        IdsOfPrefix(results, k);
        TakeHitAppends(t, hit, limit, query);
        ConcatAssociates(i.order, t.accepted, [hit.chunkId]);
      }
    } else {
      ConcatEmpty(i.order);
    }
  }

  lemma {:induction false} IdsOfPrefix(results: seq<SearchHit>, k: nat)
    requires 0 < k <= |results|
    ensures results[k - 1].chunkId in HitIds(results[..k])
    ensures forall id | id in HitIds(results[..k - 1]) :: id in HitIds(results[..k])
  {
    assert HitIds(results[..k])[k - 1] == results[k - 1].chunkId;
    forall i | 0 <= i < k - 1 ensures HitIds(results[..k - 1])[i] == HitIds(results[..k])[i] { }
  }

  predicate AllKnown(results: seq<SearchHit>, order: seq<ChunkId>, k: nat)
    requires k <= |results|
    decreases k
  {
    k == 0 || (results[k - 1].chunkId in order && AllKnown(results, order, k - 1))
  }

  lemma {:induction false} AllKnownGrows(results: seq<SearchHit>, order: seq<ChunkId>, more: seq<ChunkId>, k: nat)
    requires k <= |results| && AllKnown(results, order, k)
    requires forall id | id in order :: id in more
    ensures AllKnown(results, more, k)
    decreases k
  {
    if k > 0 { AllKnownGrows(results, order, more, k - 1); }
  }

  /** While the limit is not reached, every result seen is a retrieved chunk. */
  lemma {:induction false} UnfilledHoldsAll(i: Intake, results: seq<SearchHit>, limit: nat, query: string, k: nat)
    requires k <= |results| && Consistent(i) && i.accepted == []
    ensures var t := TakeHits(i, results, limit, query, k);
            t.Intake? && |t.accepted| < limit ==> AllKnown(results, t.order, k)
    decreases k
  {
    if k > 0 {
      hide TakeHit, Consistent, HitIds, Keeps;
      UnfilledHoldsAll(i, results, limit, query, k - 1);
      TakeHitsAppends(i, results, limit, query, k - 1);
      var t := TakeHits(i, results, limit, query, k - 1);
      if t.Intake? {
        TakeHitAppends(t, results[k - 1], limit, query);
        var u := TakeHit(t, results[k - 1], limit, query);
        if u.Intake? && |u.accepted| < limit {
          AllKnownGrows(results, t.order, u.order, k - 1);
        }
      }
    }
  }

  lemma {:induction false} KnownIds(results: seq<SearchHit>, order: seq<ChunkId>, k: nat)
    requires k <= |results| && AllKnown(results, order, k)
    ensures forall x | x in HitIds(results[..k]) :: x in order
    decreases k
  {
    if k > 0 {
      KnownIds(results, order, k - 1);
      forall x | x in HitIds(results[..k]) ensures x in order {
        var j :| 0 <= j < k && HitIds(results[..k])[j] == x;
        if j < k - 1 { assert HitIds(results[..k - 1])[j] == x; }
      }
    }
  }

  /** A repetition-free list drawn from another list is no longer than it. */
  lemma {:induction false} DistinctFits(a: seq<ChunkId>, b: seq<ChunkId>)
    requires Distinct(a) && forall x | x in a :: x in b
    ensures |a| <= |b|
  {
    var sa, sb := set x | x in a, set x | x in b;
    DistinctCardinality(a);
    AtMostLength(b);
    assert sa <= sb;
    SubsetSize(sa, sb);
  }

  lemma {:induction false} DistinctCardinality(a: seq<ChunkId>)
    requires Distinct(a)
    ensures |set x | x in a| == |a|
  {
    if a != [] {
      var front := a[..|a| - 1];
      DistinctCardinality(front);
      assert (set x | x in a) == (set x | x in front) + {a[|a| - 1]};
      assert a[|a| - 1] !in front;
    }
  }

  lemma {:induction false} AtMostLength(b: seq<ChunkId>)
    ensures |set x | x in b| <= |b|
  {
    if b != [] {
      var front := b[..|b| - 1];
      AtMostLength(front);
      assert (set x | x in b) == (set x | x in front) + {b[|b| - 1]};
    }
  }

  /** Pigeonhole: as many distinct results as known chunks plus the limit fill the limit. */
  lemma {:induction false} EnoughResultsFillLimit(i: Intake, results: seq<SearchHit>, limit: nat, query: string, n: nat)
    requires Consistent(i) && i.accepted == [] && n <= |results| && Distinct(HitIds(results[..n]))
    requires n >= |i.order| + limit
    ensures var t := TakeHits(i, results, limit, query, |results|); t.Intake? ==> |t.accepted| == limit
  {
    var t := TakeHits(i, results, limit, query, n);
    TakeHitsAppends(i, results, limit, query, n);
    UnfilledHoldsAll(i, results, limit, query, n);
    if t.Ambiguous? || |t.accepted| >= limit {
      TakeHitsStops(i, results, limit, query, n, |results|);
    } else {
      KnownIds(results, t.order, n);
      DistinctFits(HitIds(results[..n]), t.order);
    }
  }

  // --- dividing the hit budget ---

  function CeilDiv(a: nat, b: nat): nat
    requires b > 0
  {
    (a + b - 1) / b
  }

  lemma {:induction false} QuotientAtMost(n: nat, d: nat, m: nat)
    requires d > 0 && n < d * m + d
    ensures n / d <= m
  {
    var q := n / d;
    assert d * q <= n;
    if q > m { ProductGrows(d, m + 1, q); }
  }

  /** A ceiling share of a positive amount is positive and no more than the amount. */
  lemma {:induction false} ShareIsWithin(a: nat, b: nat)
    requires b > 0 && a > 0
    ensures 1 <= CeilDiv(a, b) <= a
  {
    ProductGrows(a, 1, b);
    QuotientAtMost(a + b - 1, b, a);
    assert a + b - 1 < b * CeilDiv(a, b) + b;
  }

  /** Whoever takes a ceiling share leaves one unit for each of the others, if there was one for everyone. */
  lemma {:induction false} ShareLeavesOneEach(a: nat, b: nat)
    requires b > 0 && a >= b
    ensures a - CeilDiv(a, b) >= b - 1
  {
    var x := a - b;
    ProductGrows(x, 1, b);
    assert b * (x + 1) == b * x + b;
    QuotientAtMost(a + b - 1, b, x + 1);
  }
}
