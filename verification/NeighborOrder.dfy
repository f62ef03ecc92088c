/** In which order an expansion lists chunks, which records it lists, and when it raises. */
module NeighborOrder {
  import opened Collections
  import opened HitMerging
  import opened Neighbors
  import opened Retrieval
  import opened Slices
  import opened Text

  // --- the order ---

  /** The first k retrieved chunks, each followed by the neighbours the store answers for it, primaries left out. */
  function Trail(order: seq<ChunkId>, primaries: set<ChunkId>, store: Store, call: nat, k: nat): seq<ChunkId>
    requires k <= |order|
    decreases k
  {
    if k == 0 then [] else
    var answer := store(call, order[k - 1]);
    Trail(order, primaries, store, call, k - 1) + [order[k - 1]]
    + if answer.Some? then NonPrimary(HitIds(answer.value), primaries) else []
  }

  lemma {:induction false} DedupSnoc(a: seq<ChunkId>, x: ChunkId)
    ensures Dedup(a + [x]) == if x in Dedup(a) then Dedup(a) else Dedup(a) + [x]
  {
    JoinCut(a, [x]);
  }

  /** The neighbours of one primary are listed behind what is listed, those not known yet. */
  lemma {:induction false} NeighborsInOrder(
      primaries: map<ChunkId, SearchHit>, s: Adding, neighbors: seq<SearchHit>, k: nat, trail: seq<ChunkId>)
    requires k <= |neighbors| && s.Adding? && s.ids == [] && Listed(s.hits, s.known) && HitIds(s.hits) == Dedup(trail)
    ensures var t := AddNeighbors(primaries, s, neighbors, k);
            t.Adding? ==> HitIds(t.hits) == Dedup(trail + NonPrimary(HitIds(neighbors)[..k], primaries.Keys))
    decreases k
  {
    hide Listed, Dedup, NonPrimary;
    if k == 0 {
      assert HitIds(neighbors)[..0] == [];
      NothingLeft(primaries.Keys);
      ConcatEmpty(trail);
    } else {
      NeighborsInOrder(primaries, s, neighbors, k - 1, trail);
      AddNeighborsLists(primaries, s, neighbors, k - 1);
      var t := AddNeighbors(primaries, s, neighbors, k - 1);
      TakeSnoc(HitIds(neighbors), k);
      assert HitIds(neighbors)[k - 1] == neighbors[k - 1].chunkId;
      if t.Adding? {
        hide HitIds, AddNeighbor;
        OneNeighborInOrder(primaries, t, neighbors[k - 1], HitIds(neighbors)[..k - 1], trail);
      }
    }
  }

  lemma {:induction false} OneNeighborInOrder(
      primaries: map<ChunkId, SearchHit>, t: Adding, hit: SearchHit, ids: seq<ChunkId>, trail: seq<ChunkId>)
    requires t.Adding? && Listed(t.hits, t.known)
    requires HitIds(t.hits) == Dedup(trail + NonPrimary(ids, primaries.Keys))
    ensures var u := AddNeighbor(primaries, t, hit);
            u.Adding? ==> HitIds(u.hits) == Dedup(trail + NonPrimary(ids + [hit.chunkId], primaries.Keys))
  {
    hide Listed, Dedup, NonPrimary;
    var kept := NonPrimary(ids, primaries.Keys);
    NonPrimarySnoc(ids, hit.chunkId, primaries.Keys);
    ConcatEmpty(kept);
    ConcatAssociates(trail, kept, [hit.chunkId]);
    DedupSnoc(trail + kept, hit.chunkId);
    KnownIffListed(t.hits, t.known, hit.chunkId);
    assert HitIds(t.hits + [hit]) == HitIds(t.hits) + [hit.chunkId];
  }

  lemma {:induction false} NothingLeft(primaries: set<ChunkId>)
    ensures NonPrimary([], primaries) == []
  {
  }

  lemma {:induction false} NonPrimarySnoc(ids: seq<ChunkId>, id: ChunkId, primaries: set<ChunkId>)
    ensures NonPrimary(ids + [id], primaries) == NonPrimary(ids, primaries) + if id in primaries then [] else [id]
  {
    JoinCut(ids, [id]);
  }

  lemma {:induction false} KnownIffListed(list: seq<SearchHit>, known: map<ChunkId, SearchHit>, id: ChunkId)
    requires Listed(list, known)
    ensures id in known <==> id in HitIds(list)
  {
    if id in HitIds(list) {
      var i :| 0 <= i < |list| && HitIds(list)[i] == id;
    }
  }

  // --- the records ---

  /** A listed primary is the retrieved record; any other listed record is in an answer for one of these primaries. */
  ghost predicate Sourced(
      known: map<ChunkId, SearchHit>, hits: map<ChunkId, SearchHit>, seen: seq<ChunkId>, store: Store, call: nat)
  {
    forall id | id in known ::
      if id in hits then known[id] == hits[id] else AnswerHolds(seen, store, call, known[id])
  }

  ghost predicate AnswerHolds(seen: seq<ChunkId>, store: Store, call: nat, hit: SearchHit) {
    exists p :: p in seen && store(call, p).Some? && hit in store(call, p).value
  }

  lemma {:induction false} NeighborsAreSourced(
      hits: map<ChunkId, SearchHit>, s: Adding, neighbors: seq<SearchHit>, k: nat, seen: seq<ChunkId>, store: Store,
      call: nat, p: ChunkId)
    requires k <= |neighbors| && s.Adding? && p in seen && store(call, p) == Some(neighbors)
    requires Sourced(s.known, hits, seen, store, call)
    ensures var t := AddNeighbors(hits, s, neighbors, k);
            t.Adding? ==> Sourced(t.known, hits, seen, store, call)
    decreases k
  {
    if k > 0 {
      NeighborsAreSourced(hits, s, neighbors, k - 1, seen, store, call, p);
      assert AnswerHolds(seen, store, call, neighbors[k - 1]);
      hide AnswerHolds;
    }
  }

  // --- the whole expansion ---

  /** What the first k primaries list, in order, and where each record comes from. */
  lemma {:induction false} ExpandedSoFar(
      order: seq<ChunkId>, hits: map<ChunkId, SearchHit>, store: Store, call: nat, k: nat)
    requires IsOrdered(order, hits) && k <= |order| == |Values(order, hits)|
    ensures var e := ExpandUpTo(Values(order, hits), hits, store, call, k);
            e.Expanded? ==>
              && HitIds(e.hits) == Dedup(Trail(order, hits.Keys, store, call, k))
              && Sourced(e.known, hits, order[..k], store, call)
    decreases k
  {
    hide Dedup, Trail, Sourced, IsExpansion, AddNeighbors, NonPrimary, HitIds;
    if k == 0 {
      NothingExpandedYet(order, hits, store, call);
    } else {
      ExpandedSoFar(order, hits, store, call, k - 1);
      ExpandUpToIsExpansion(order, hits, store, call, k - 1);
      ValuesInOrder(order, hits);
      TakeSnoc(order, k);
      assert order[k - 1] in order && order[k - 1] !in order[..k - 1];
      var e, id := ExpandUpTo(Values(order, hits), hits, store, call, k - 1), order[k - 1];
      hide Values, IsOrdered, ExpandOne;
      if e.Expanded? && store(call, id).Some? {
        OneMoreExpanded(order[..k - 1], hits, store, call, e, id, Trail(order, hits.Keys, store, call, k - 1));
        TrailSnoc(order, hits.Keys, store, call, k);
      } else {
        NoneExpanded(e, hits, hits[id], store(call, id));
      }
    }
  }

  lemma {:induction false} NoneExpanded(
      e: Expansion, hits: map<ChunkId, SearchHit>, primary: SearchHit, answer: Option<seq<SearchHit>>)
    requires !e.Expanded? || answer.None?
    ensures !ExpandOne(e, hits, primary, answer).Expanded?
  {
  }

  lemma {:induction false} NothingExpandedYet(
      order: seq<ChunkId>, hits: map<ChunkId, SearchHit>, store: Store, call: nat)
    ensures HitIds([]) == Dedup(Trail(order, hits.Keys, store, call, 0))
        && Sourced(map[], hits, order[..0], store, call)
  {
    assert HitIds([]) == [];
  }

  lemma {:induction false} TrailSnoc(
      order: seq<ChunkId>, primaries: set<ChunkId>, store: Store, call: nat, k: nat)
    requires 0 < k <= |order| && store(call, order[k - 1]).Some?
    ensures Trail(order, primaries, store, call, k)
         == Trail(order, primaries, store, call, k - 1) + [order[k - 1]]
            + NonPrimary(HitIds(store(call, order[k - 1]).value), primaries)
  {
  }

  lemma {:induction false} PrimaryIsNew(
      seen: seq<ChunkId>, hits: map<ChunkId, SearchHit>, store: Store, call: nat, e: Expansion, id: ChunkId)
    requires IsExpansion(seen, hits, store, call, e) && id in hits && id !in seen
    requires forall p | p in seen :: p in hits
    ensures id !in e.known
  {
    hide Listed;
  }

  lemma {:induction false} OneMoreExpanded(
      seen: seq<ChunkId>, hits: map<ChunkId, SearchHit>, store: Store, call: nat, e: Expansion, id: ChunkId,
      trail: seq<ChunkId>)
    requires IsExpansion(seen, hits, store, call, e) && id in hits && hits[id].chunkId == id && id !in seen
    requires (forall p | p in seen :: p in hits) && store(call, id).Some?
    requires HitIds(e.hits) == Dedup(trail) && Sourced(e.known, hits, seen, store, call)
    ensures var f := ExpandOne(e, hits, hits[id], store(call, id));
            f.Expanded? ==>
              && HitIds(f.hits) == Dedup(trail + [id] + NonPrimary(HitIds(store(call, id).value), hits.Keys))
              && Sourced(f.known, hits, seen + [id], store, call)
  {
    var f, neighbors := ExpandOne(e, hits, hits[id], store(call, id)), store(call, id).value;
    PrimaryIsNew(seen, hits, store, call, e, id);
    if f.Expanded? {
      var s := WithPrimary(e, hits[id]);
      assert Listed(e.hits, e.known);
      ListOneMore(e.hits, e.known, hits[id]);
      KnownIffListed(e.hits, e.known, id);
      assert HitIds(s.hits) == HitIds(e.hits) + [id];
      DedupSnoc(trail, id);
      hide Listed, Dedup, NonPrimary, AddNeighbors, IsExpansion;
      SourcedGrows(e.known, hits, seen, store, call, id);
      hide Sourced;
      TakeAll(HitIds(neighbors));
      NeighborsInOrder(hits, s, neighbors, |neighbors|, trail + [id]);
      NeighborsAreSourced(hits, s, neighbors, |neighbors|, seen + [id], store, call, id);
    }
  }

  lemma {:induction false} SourcedGrows(
      known: map<ChunkId, SearchHit>, hits: map<ChunkId, SearchHit>, seen: seq<ChunkId>, store: Store, call: nat,
      id: ChunkId)
    requires Sourced(known, hits, seen, store, call) && id in hits
    ensures Sourced(known[id := hits[id]], hits, seen + [id], store, call)
  {
    var more := known[id := hits[id]];
    forall n | n in more && n !in hits ensures AnswerHolds(seen + [id], store, call, more[n]) {
      var p :| p in seen && store(call, p).Some? && known[n] in store(call, p).value;
      assert p in seen + [id];
    }
  }

  /**
   * An expansion lists each retrieved chunk followed by its neighbours, in the order of the retrieval and of the
   * answers, leaving out what is listed already; primaries as they were retrieved, others as the store answered them.
   */
  lemma {:induction false} ExpansionOrder(order: seq<ChunkId>, hits: map<ChunkId, SearchHit>, store: Store, call: nat)
    returns (at: seq<nat>)
    requires IsOrdered(order, hits)
    ensures var e, trail := Expand(order, hits, store, call), Trail(order, hits.Keys, store, call, |order|);
            e.Expanded? ==> AreFirsts(trail, HitIds(e.hits), at) && Sourced(e.known, hits, order, store, call)
  {
    ValuesInOrder(order, hits);
    ExpandedSoFar(order, hits, store, call, |order|);
    TakeAll(order);
    at := DedupKeepsFirsts(Trail(order, hits.Keys, store, call, |order|));
    hide Sourced, Trail, Dedup, AreFirsts;
  }

  // --- when it raises ---

  /** Every record with this id has this identity, among the retrieved ones and in every answer. */
  ghost predicate Agree(
      order: seq<ChunkId>, hits: map<ChunkId, SearchHit>, store: Store, call: nat, identity: ChunkId -> seq<string>)
  {
    && (forall id | id in hits :: hits[id].identity == identity(id))
    && forall p | p in order && store(call, p).Some? :: AllAgree(store(call, p).value, identity)
  }

  predicate AllAgree(records: seq<SearchHit>, identity: ChunkId -> seq<string>) {
    forall i | 0 <= i < |records| :: records[i].identity == identity(records[i].chunkId)
  }

  predicate KnownAgree(known: map<ChunkId, SearchHit>, identity: ChunkId -> seq<string>) {
    forall id | id in known :: known[id].identity == identity(id)
  }

  lemma {:induction false} AgreeingNeighbors(
      hits: map<ChunkId, SearchHit>, s: Adding, neighbors: seq<SearchHit>, k: nat, identity: ChunkId -> seq<string>)
    requires k <= |neighbors| && s.Adding? && AllAgree(neighbors, identity)
    requires KnownAgree(hits, identity) && KnownAgree(s.known, identity)
    ensures var t := AddNeighbors(hits, s, neighbors, k); t.Adding? && KnownAgree(t.known, identity)
    decreases k
  {
    if k > 0 { AgreeingNeighbors(hits, s, neighbors, k - 1, identity); }
  }

  lemma {:induction false} AgreeingUpTo(
      order: seq<ChunkId>, hits: map<ChunkId, SearchHit>, store: Store, call: nat, k: nat,
      identity: ChunkId -> seq<string>)
    requires IsOrdered(order, hits) && k <= |order| == |Values(order, hits)|
        && Agree(order, hits, store, call, identity)
    ensures var e := ExpandUpTo(Values(order, hits), hits, store, call, k);
            && !e.AmbiguousNeighbor? && (e.Expanded? ==> KnownAgree(e.known, identity))
            && (e.NeighborsFailed? ==> exists id :: id in order && store(call, id).None?)
    decreases k
  {
    if k > 0 {
      AgreeingUpTo(order, hits, store, call, k - 1, identity);
      ValuesInOrder(order, hits);
      var e, id := ExpandUpTo(Values(order, hits), hits, store, call, k - 1), order[k - 1];
      assert id in order;
      hide Values, AddNeighbors, Distinct;
      if e.Expanded? && store(call, id).Some? {
        var s := WithPrimary(e, hits[id]);
        assert KnownAgree(s.known, identity);
        AgreeingNeighbors(hits, s, store(call, id).value, |store(call, id).value|, identity);
      }
    }
  }

  /** The record has the identity of the retrieved chunk with its id, or else of the listed one. */
  predicate Matches(hits: map<ChunkId, SearchHit>, known: map<ChunkId, SearchHit>, hit: SearchHit) {
    var id := hit.chunkId;
    if id in hits then hits[id].identity == hit.identity else id in known && known[id].identity == hit.identity
  }

  predicate AllMatch(
      hits: map<ChunkId, SearchHit>, known: map<ChunkId, SearchHit>, records: seq<SearchHit>, k: nat)
    requires k <= |records|
  {
    forall i | 0 <= i < k :: Matches(hits, known, records[i])
  }

  lemma {:induction false} NeighborsMatch(
      hits: map<ChunkId, SearchHit>, s: Adding, neighbors: seq<SearchHit>, k: nat)
    requires k <= |neighbors| && s.Adding?
    ensures var t := AddNeighbors(hits, s, neighbors, k);
            t.Adding? ==> Kept(s.known, t.known) && AllMatch(hits, t.known, neighbors, k)
    decreases k
  {
    if k > 0 { NeighborsMatch(hits, s, neighbors, k - 1); }
  }

  lemma {:induction false} StillMatch(
      hits: map<ChunkId, SearchHit>, known: map<ChunkId, SearchHit>, more: map<ChunkId, SearchHit>,
      records: seq<SearchHit>)
    requires Kept(known, more) && AllMatch(hits, known, records, |records|)
    ensures AllMatch(hits, more, records, |records|)
  {
    forall i | 0 <= i < |records| ensures Matches(hits, more, records[i]) {
      assert Matches(hits, known, records[i]);
    }
  }

  /** The answers that were expanded came, and their records match. */
  ghost predicate AnswersMatch(
      seen: seq<ChunkId>, hits: map<ChunkId, SearchHit>, known: map<ChunkId, SearchHit>, store: Store, call: nat)
  {
    forall p | p in seen ::
      store(call, p).Some? && AllMatch(hits, known, store(call, p).value, |store(call, p).value|)
  }

  lemma {:induction false} ExpandedMatch(
      order: seq<ChunkId>, hits: map<ChunkId, SearchHit>, store: Store, call: nat, k: nat)
    requires IsOrdered(order, hits) && k <= |order| == |Values(order, hits)|
    ensures var e := ExpandUpTo(Values(order, hits), hits, store, call, k);
            e.Expanded? ==> AnswersMatch(order[..k], hits, e.known, store, call)
    decreases k
  {
    if k > 0 {
      ExpandedMatch(order, hits, store, call, k - 1);
      ValuesInOrder(order, hits);
      var e, f := ExpandUpTo(Values(order, hits), hits, store, call, k - 1),
        ExpandUpTo(Values(order, hits), hits, store, call, k);
      var id := order[k - 1];
      assert id in order;
      hide Values, AddNeighbors, Distinct, AllMatch;
      if f.Expanded? {
        var neighbors := store(call, id).value;
        NeighborsMatch(hits, WithPrimary(e, hits[id]), neighbors, |neighbors|);
        KeptOn(e.known, WithPrimary(e, hits[id]).known, f.known);
        TakeSnoc(order, k);
        forall p | p in order[..k]
          ensures store(call, p).Some? && AllMatch(hits, f.known, store(call, p).value, |store(call, p).value|)
        {
          if p in order[..k - 1] { StillMatch(hits, e.known, f.known, store(call, p).value); }
        }
      }
    }
  }

  lemma {:induction false} KeptOn(
      a: map<ChunkId, SearchHit>, b: map<ChunkId, SearchHit>, c: map<ChunkId, SearchHit>)
    requires Kept(a, b) && Kept(b, c)
    ensures Kept(a, c)
  {
  }

  lemma {:induction false} MatchingAgree(
      order: seq<ChunkId>, hits: map<ChunkId, SearchHit>, known: map<ChunkId, SearchHit>, store: Store, call: nat)
    requires AnswersMatch(order, hits, known, store, call)
    ensures exists identity :: Agree(order, hits, store, call, identity)
  {
    var identity := id =>
      if id in hits then hits[id].identity else if id in known then known[id].identity else [];
    forall p | p in order && store(call, p).Some? ensures AllAgree(store(call, p).value, identity) {
      var records := store(call, p).value;
      forall i | 0 <= i < |records| ensures records[i].identity == identity(records[i].chunkId) {
        assert Matches(hits, known, records[i]);
      }
    }
    assert Agree(order, hits, store, call, identity);
  }

  /** An expansion succeeds exactly if every answer comes and all records agree on every chunk's identity; where they
      agree, it fails only for an answer that does not come. */
  lemma {:induction false} SucceedsIffAgreed(
      order: seq<ChunkId>, hits: map<ChunkId, SearchHit>, store: Store, call: nat)
    requires IsOrdered(order, hits)
    ensures var e := Expand(order, hits, store, call);
            var agreed := exists identity :: Agree(order, hits, store, call, identity);
            && (e.Expanded? <==> agreed && forall id | id in order :: store(call, id).Some?)
            && (e.AmbiguousNeighbor? ==> !agreed)
  {
    ValuesInOrder(order, hits);
    TakeAll(order);
    ExpandedMatch(order, hits, store, call, |order|);
    var e := Expand(order, hits, store, call);
    if e.Expanded? { MatchingAgree(order, hits, e.known, store, call); }
    if identity :| Agree(order, hits, store, call, identity) {
      AgreeingUpTo(order, hits, store, call, |order|, identity);
    }
  }
}
