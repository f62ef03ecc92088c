/** `_expand_context_hits`: retrieved chunks in order, each followed by the neighbours not seen before. */
module Neighbors {
  import opened Collections
  import opened Retrieval
  import opened Slices
  import opened Text

  /** The listed hits, also by id, and the neighbour ids of each primary. */
  datatype Expansion =
    | Expanded(hits: seq<SearchHit>, known: map<ChunkId, SearchHit>, byPrimary: map<ChunkId, seq<ChunkId>>)
    | NeighborsFailed
    | AmbiguousNeighbor

  /** The state of the loop over the neighbours of one primary. */
  datatype Adding =
    | Adding(hits: seq<SearchHit>, known: map<ChunkId, SearchHit>, ids: seq<ChunkId>)
    | Clash

  /**
   * The store's `get_neighbors`, free to answer every call differently: its calls are told apart by the number of the
   * expansion and the primary asked for. None stands for a raised exception.
   */
  type Store = (nat, ChunkId) -> Option<seq<SearchHit>>

  // --- one primary ---

  /** A neighbour that is a primary is left out; any other is listed unless it is known. */
  function AddNeighbor(primaries: map<ChunkId, SearchHit>, s: Adding, hit: SearchHit): Adding {
    if s.Clash? then Clash
    else if hit.chunkId in primaries then if primaries[hit.chunkId].identity != hit.identity then Clash else s
    else if hit.chunkId in s.known then
      if s.known[hit.chunkId].identity != hit.identity then Clash else s.(ids := s.ids + [hit.chunkId])
    else Adding(s.hits + [hit], s.known[hit.chunkId := hit], s.ids + [hit.chunkId])
  }

  function AddNeighbors(primaries: map<ChunkId, SearchHit>, s: Adding, neighbors: seq<SearchHit>, k: nat): Adding
    requires k <= |neighbors|
    decreases k
  {
    if k == 0 then s else AddNeighbor(primaries, AddNeighbors(primaries, s, neighbors, k - 1), neighbors[k - 1])
  }

  /** The state once the primary itself is listed. */
  function WithPrimary(e: Expansion, primary: SearchHit): Adding
    requires e.Expanded?
  {
    if primary.chunkId in e.known then Adding(e.hits, e.known, [])
    else Adding(e.hits + [primary], e.known[primary.chunkId := primary], [])
  }

  function ExpandOne(
      e: Expansion, hits: map<ChunkId, SearchHit>, primary: SearchHit, answer: Option<seq<SearchHit>>): Expansion
  {
    if !e.Expanded? then e
    else if answer.None? then NeighborsFailed
    else
      match AddNeighbors(hits, WithPrimary(e, primary), answer.value, |answer.value|)
      case Clash => AmbiguousNeighbor
      case Adding(list, known, ids) => Expanded(list, known, e.byPrimary[primary.chunkId := ids])
  }

  // --- all primaries ---

  /** `retrieved.values()`, in insertion order. */
  function Values(order: seq<ChunkId>, hits: map<ChunkId, SearchHit>): seq<SearchHit>
    decreases |order|
  {
    if order == [] then [] else
    var last := order[|order| - 1];
    Values(order[..|order| - 1], hits) + if last in hits then [hits[last]] else []
  }

  function ExpandUpTo(
      primaries: seq<SearchHit>, hits: map<ChunkId, SearchHit>, store: Store, call: nat, k: nat): Expansion
    requires k <= |primaries|
    decreases k
  {
    if k == 0 then Expanded([], map[], map id | id in hits :: [])
    else
      var primary := primaries[k - 1];
      ExpandOne(ExpandUpTo(primaries, hits, store, call, k - 1), hits, primary, store(call, primary.chunkId))
  }

  function Expand(order: seq<ChunkId>, hits: map<ChunkId, SearchHit>, store: Store, call: nat): Expansion {
    ExpandUpTo(Values(order, hits), hits, store, call, |Values(order, hits)|)
  }

  // --- the loops ---

  lemma {:induction false} AddNeighborsClash(
      primaries: map<ChunkId, SearchHit>, s: Adding, neighbors: seq<SearchHit>, k: nat, n: nat)
    requires k <= n <= |neighbors| && AddNeighbors(primaries, s, neighbors, k).Clash?
    ensures AddNeighbors(primaries, s, neighbors, n).Clash?
    decreases n
  {
    if k < n { AddNeighborsClash(primaries, s, neighbors, k, n - 1); }
  }

  /** The loop over the neighbours of one primary. */
  method AddNeighborHits(primaries: map<ChunkId, SearchHit>, s: Adding, neighbors: seq<SearchHit>) returns (r: Adding)
    requires s.Adding?
    ensures r == AddNeighbors(primaries, s, neighbors, |neighbors|)
  {
    r := s;
    for k := 0 to |neighbors|
      invariant r.Adding? && r == AddNeighbors(primaries, s, neighbors, k)
    {
      var hit := neighbors[k];
      if hit.chunkId in primaries {
        if primaries[hit.chunkId].identity != hit.identity {
          AddNeighborsClash(primaries, s, neighbors, k + 1, |neighbors|);
          return Clash;
        }
        continue;
      }
      if hit.chunkId in r.known {
        if r.known[hit.chunkId].identity != hit.identity {
          AddNeighborsClash(primaries, s, neighbors, k + 1, |neighbors|);
          return Clash;
        }
        r := r.(ids := r.ids + [hit.chunkId]);
        continue;
      }
      r := Adding(r.hits + [hit], r.known[hit.chunkId := hit], r.ids + [hit.chunkId]);
    }
  }

  lemma {:induction false} ExpandStops(
      primaries: seq<SearchHit>, hits: map<ChunkId, SearchHit>, store: Store, call: nat, k: nat, n: nat)
    requires k <= n <= |primaries| && !ExpandUpTo(primaries, hits, store, call, k).Expanded?
    ensures ExpandUpTo(primaries, hits, store, call, n) == ExpandUpTo(primaries, hits, store, call, k)
    decreases n
  {
    if k < n { ExpandStops(primaries, hits, store, call, k, n - 1); }
  }

  /** `_expand_context_hits`. */
  method ExpandContextHits(order: seq<ChunkId>, hits: map<ChunkId, SearchHit>, store: Store, call: nat)
    returns (r: Expansion)
    ensures r == Expand(order, hits, store, call)
  {
    hide AddNeighbors;
    var primaries := Values(order, hits);
    r := Expanded([], map[], map id | id in hits :: []);
    for k := 0 to |primaries|
      invariant r.Expanded? && r == ExpandUpTo(primaries, hits, store, call, k)
    {
      var primary := primaries[k];
      var listed := WithPrimary(r, primary);
      var found := store(call, primary.chunkId);
      if found.None? {
        ExpandStops(primaries, hits, store, call, k + 1, |primaries|);
        return NeighborsFailed;
      }
      var added := AddNeighborHits(hits, listed, found.value);
      if added.Clash? {
        ExpandStops(primaries, hits, store, call, k + 1, |primaries|);
        return AmbiguousNeighbor;
      }
      r := Expanded(added.hits, added.known, r.byPrimary[primary.chunkId := added.ids]);
    }
  }

  // --- what an expansion lists ---

  /** The ids that are not primaries, in order. */
  function NonPrimary(ids: seq<ChunkId>, primaries: set<ChunkId>): (r: seq<ChunkId>)
    ensures forall id | id in r :: id in ids && id !in primaries
    ensures Distinct(ids) ==> Distinct(r)
    decreases |ids|
  {
    if ids == [] then [] else
    var last := |ids| - 1;
    NonPrimary(ids[..last], primaries) + if ids[last] in primaries then [] else [ids[last]]
  }

  /** The list holds exactly the known hits, each once and under its own id. */
  predicate Listed(list: seq<SearchHit>, known: map<ChunkId, SearchHit>) {
    && Distinct(HitIds(list))
    && (forall i | 0 <= i < |list| :: list[i].chunkId in known && known[list[i].chunkId] == list[i])
    && (forall id | id in known :: id in HitIds(list))
  }

  lemma {:induction false} ListOneMore(list: seq<SearchHit>, known: map<ChunkId, SearchHit>, hit: SearchHit)
    requires Listed(list, known) && hit.chunkId !in known
    ensures Listed(list + [hit], known[hit.chunkId := hit])
  {
    var more := list + [hit];
    assert forall i | 0 <= i < |list| :: HitIds(more)[i] == HitIds(list)[i];
    assert HitIds(more)[|list|] == hit.chunkId;
    forall id | id in known ensures id in HitIds(more) {
      var i :| 0 <= i < |list| && HitIds(list)[i] == id;
      assert HitIds(more)[i] == id;
    }
  }

  /** The neighbours of one primary add exactly the ids of its list, and the list is the answer without primaries. */
  lemma {:induction false} AddNeighborsLists(
      primaries: map<ChunkId, SearchHit>, s: Adding, neighbors: seq<SearchHit>, k: nat)
    requires k <= |neighbors| && s.Adding? && s.ids == [] && Listed(s.hits, s.known)
    ensures var t := AddNeighbors(primaries, s, neighbors, k);
            t.Adding? ==>
              && Listed(t.hits, t.known) && s.hits <= t.hits
              && t.ids == NonPrimary(HitIds(neighbors)[..k], primaries.Keys)
              && (forall id :: id in t.known <==> id in s.known || id in t.ids)
    decreases k
  {
    hide Listed;
    if k > 0 {
      AddNeighborsLists(primaries, s, neighbors, k - 1);
      var t, hit := AddNeighbors(primaries, s, neighbors, k - 1), neighbors[k - 1];
      if t.Adding? {
        hide AddNeighbors;
        TakeSnoc(HitIds(neighbors), k);
        JoinCut(HitIds(neighbors)[..k - 1], [hit.chunkId]);
        ConcatEmpty(t.ids);
        if hit.chunkId !in t.known { ListOneMore(t.hits, t.known, hit); }
      }
    } else {
      assert HitIds(neighbors)[..0] == [];
    }
  }

  /** The order lists every retrieved hit once, under its own id. */
  predicate IsOrdered(order: seq<ChunkId>, hits: map<ChunkId, SearchHit>) {
    && Distinct(order)
    && (forall id | id in order :: id in hits && hits[id].chunkId == id)
    && (forall id | id in hits :: id in order)
  }

  lemma {:induction false} ValuesInOrder(order: seq<ChunkId>, hits: map<ChunkId, SearchHit>)
    requires forall id | id in order :: id in hits
    ensures |Values(order, hits)| == |order|
    ensures forall i | 0 <= i < |order| :: order[i] in hits && Values(order, hits)[i] == hits[order[i]]
    decreases |order|
  {
    if order != [] {
      var front := order[..|order| - 1];
      assert forall id | id in front :: id in order;
      assert order[|order| - 1] in order;
      ValuesInOrder(front, hits);
    }
  }

  /** The list of a primary is the store's answer for it without the primaries. */
  predicate Answered(answer: Option<seq<SearchHit>>, primaries: set<ChunkId>, ids: seq<ChunkId>) {
    answer.Some? && ids == NonPrimary(HitIds(answer.value), primaries)
  }

  /** After the primaries `seen`: each list is filled from the store's answer, and exactly these primaries and the
      neighbours on their lists are listed. */
  ghost predicate IsExpansion(
      seen: seq<ChunkId>, hits: map<ChunkId, SearchHit>, store: Store, call: nat, e: Expansion)
  {
    && e.Expanded? && Listed(e.hits, e.known) && e.byPrimary.Keys == hits.Keys
    && (forall id | id in seen :: id in e.known && id in hits && Answered(store(call, id), hits.Keys, e.byPrimary[id]))
    && (forall id | id in e.known :: id in seen || IsNeighbor(seen, e.byPrimary, id))
    && (forall id | id in seen && id in e.byPrimary :: forall n | n in e.byPrimary[id] :: n in e.known)
  }

  /** The id is on the list of one of these primaries. */
  ghost predicate IsNeighbor(seen: seq<ChunkId>, byPrimary: map<ChunkId, seq<ChunkId>>, id: ChunkId) {
    exists p :: p in seen && p in byPrimary && id in byPrimary[p]
  }

  lemma {:induction false} ExpansionStep(
      seen: seq<ChunkId>, hits: map<ChunkId, SearchHit>, store: Store, call: nat, e: Expansion, primary: SearchHit)
    requires IsExpansion(seen, hits, store, call, e) && primary.chunkId in hits && primary.chunkId !in seen
    ensures var f := ExpandOne(e, hits, primary, store(call, primary.chunkId));
            f.Expanded? ==> IsExpansion(seen + [primary.chunkId], hits, store, call, f)
  {
    var id, answer := primary.chunkId, store(call, primary.chunkId);
    var f := ExpandOne(e, hits, primary, answer);
    if f.Expanded? {
      var s := WithPrimary(e, primary);
      if id !in e.known { ListOneMore(e.hits, e.known, primary); }
      assert Listed(s.hits, s.known) && e.byPrimary.Keys == hits.Keys;
      hide Listed, AddNeighbors, IsExpansion;
      AddNeighborsLists(hits, s, answer.value, |answer.value|);
      TakeAll(HitIds(answer.value));
      hide NonPrimary, HitIds;
      ExpansionGrows(seen, hits, store, call, e, f, id);
    }
  }

  lemma {:induction false} ExpansionGrows(
      seen: seq<ChunkId>, hits: map<ChunkId, SearchHit>, store: Store, call: nat, e: Expansion, f: Expansion,
      p: ChunkId)
    requires IsExpansion(seen, hits, store, call, e) && f.Expanded? && Listed(f.hits, f.known)
    requires p in hits && p !in seen && p in f.byPrimary && f.byPrimary == e.byPrimary[p := f.byPrimary[p]]
    requires Answered(store(call, p), hits.Keys, f.byPrimary[p])
    requires forall id :: id in f.known <==> id in e.known || id == p || id in f.byPrimary[p]
    ensures IsExpansion(seen + [p], hits, store, call, f)
  {
    hide Listed, Answered;
    var more := seen + [p];
    forall id | id in f.known ensures id in more || IsNeighbor(more, f.byPrimary, id) {
      if id in e.known && id !in seen {
        var q :| q in seen && q in e.byPrimary && id in e.byPrimary[q];
        assert q in more && id in f.byPrimary[q];
      } else if id in f.byPrimary[p] {
        assert p in more;
      }
    }
  }

  lemma {:induction false} ExpandUpToIsExpansion(
      order: seq<ChunkId>, hits: map<ChunkId, SearchHit>, store: Store, call: nat, k: nat)
    requires IsOrdered(order, hits) && k <= |order| == |Values(order, hits)|
    ensures var e := ExpandUpTo(Values(order, hits), hits, store, call, k);
            e.Expanded? ==> IsExpansion(order[..k], hits, store, call, e)
    decreases k
  {
    hide IsExpansion;
    if k == 0 {
      NothingExpanded(hits, store, call);
      assert order[..0] == [];
    } else {
      ExpandUpToIsExpansion(order, hits, store, call, k - 1);
      ValuesInOrder(order, hits);
      TakeSnoc(order, k);
      assert order[k - 1] in order && order[k - 1] !in order[..k - 1];
      var e := ExpandUpTo(Values(order, hits), hits, store, call, k - 1);
      hide Values, ExpandOne;
      if e.Expanded? { ExpansionStep(order[..k - 1], hits, store, call, e, Values(order, hits)[k - 1]); }
    }
  }

  lemma {:induction false} NothingExpanded(hits: map<ChunkId, SearchHit>, store: Store, call: nat)
    ensures IsExpansion([], hits, store, call, Expanded([], map[], map id | id in hits :: []))
  {
  }

  /** An expansion that does not raise lists the retrieved chunks and their neighbours, each once, and nothing else. */
  lemma {:induction false} ExpandLists(order: seq<ChunkId>, hits: map<ChunkId, SearchHit>, store: Store, call: nat)
    requires IsOrdered(order, hits)
    ensures var e := Expand(order, hits, store, call); e.Expanded? ==> IsExpansion(order, hits, store, call, e)
  {
    ValuesInOrder(order, hits);
    ExpandUpToIsExpansion(order, hits, store, call, |order|);
    TakeAll(order);
  }

  /** No list names a primary; and no list repeats an id exactly if no answer repeats one that is not a primary. */
  lemma {:induction false} ListsRepeatIffAnswersDo(
      order: seq<ChunkId>, hits: map<ChunkId, SearchHit>, store: Store, call: nat)
    requires IsOrdered(order, hits) && Expand(order, hits, store, call).Expanded?
    ensures var lists := Expand(order, hits, store, call).byPrimary;
            && (forall id | id in lists :: forall n | n in lists[id] :: n !in hits)
            && ((forall id | id in lists :: Distinct(lists[id])) <==>
                  forall id | id in order :: NoRepeats(store(call, id), hits.Keys))
  {
    ExpandLists(order, hits, store, call);
    hide Expand, Listed;
    var e := Expand(order, hits, store, call);
    forall id | id in e.byPrimary
      ensures forall n | n in e.byPrimary[id] :: n !in hits
      ensures Distinct(e.byPrimary[id]) <==> NoRepeats(store(call, id), hits.Keys)
    {
      assert id in order;
    }
  }

  predicate NoRepeats(answer: Option<seq<SearchHit>>, primaries: set<ChunkId>) {
    answer.Some? ==> Distinct(NonPrimary(HitIds(answer.value), primaries))
  }
}
