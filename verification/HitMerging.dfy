/** What a chunk that is found more than once keeps: its best score, every channel, and every query that found it. */
module HitMerging {
  import opened Collections
  import opened Retrieval
  import opened Slices
  import opened Text

  // --- `list(dict.fromkeys(s))` ---

  /** The elements at these positions, in order; each is the first of its kind, and every kind is there. */
  ghost predicate AreFirsts(s: seq<string>, firsts: seq<string>, at: seq<nat>) {
    && |at| == |firsts|
    && (forall i | 0 <= i < |at| :: at[i] < |s| && firsts[i] == s[at[i]] && s[at[i]] !in s[..at[i]])
    && (forall i, j | 0 <= i < j < |at| :: at[i] < at[j])
    && (forall x :: x in s <==> x in firsts)
  }

  lemma {:induction false} DedupKeepsFirsts(s: seq<string>) returns (at: seq<nat>)
    ensures AreFirsts(s, Dedup(s), at) && Distinct(Dedup(s))
    decreases |s|
  {
    if s == [] {
      at := [];
    } else {
      var n := |s| - 1;
      var before := DedupKeepsFirsts(s[..n]);
      assert s == s[..n] + [s[n]];
      at := if s[n] in Dedup(s[..n]) then before else before + [n];
      FirstsGrow(s, Dedup(s[..n]), before);
    }
  }

  lemma {:induction false} FirstsGrow(s: seq<string>, firsts: seq<string>, at: seq<nat>)
    requires s != [] && AreFirsts(s[..|s| - 1], firsts, at)
    ensures var n := |s| - 1;
            AreFirsts(s, if s[n] in firsts then firsts else firsts + [s[n]], if s[n] in firsts then at else at + [n])
  {
    var n := |s| - 1;
    assert s == s[..n] + [s[n]];
    assert forall x :: x in s <==> x in s[..n] || x == s[n];
    forall i | 0 <= i < |at| ensures at[i] < |s| && firsts[i] == s[at[i]] && s[at[i]] !in s[..at[i]] {
      TakeTake(s, at[i], n);
    }
  }

  // --- a chunk found again ---

  predicate SaysNothing(o: Option<string>) {
    o.None? || Strip(o.value) == ""
  }

  /** Merged metadata is the one text there is, or both, the earlier first; texts are stripped. */
  lemma {:induction false} MergedText(a: Option<string>, b: Option<string>)
    ensures MergeText(a, b).None? <==> SaysNothing(a) && SaysNothing(b)
    ensures !SaysNothing(a) && (SaysNothing(b) || Strip(b.value) == Strip(a.value)) ==>
              MergeText(a, b) == Some(Strip(a.value))
    ensures SaysNothing(a) && !SaysNothing(b) ==> MergeText(a, b) == Some(Strip(b.value))
    ensures !SaysNothing(a) && !SaysNothing(b) && Strip(a.value) != Strip(b.value) ==>
              MergeText(a, b) == Some(Strip(a.value) + " | " + Strip(b.value))
  {
    hide Dedup, Strip;
    var x, y := Texts(a), Texts(b);
    if x != [] && y != [] {
      TwoFirsts(x[0], y[0]);
      assert x + y == [x[0], y[0]];
    } else if x == [] {
      ConcatEmpty(y);
      OneIsFirst(y);
    } else {
      ConcatEmpty(x);
      OneIsFirst(x);
    }
  }

  lemma {:induction false} TwoFirsts(x: string, y: string)
    ensures Dedup([x, y]) == if x == y then [x] else [x, y]
  {
    assert [x, y][..1] == [x];
    OneIsFirst([x]);
  }

  lemma {:induction false} OneIsFirst(s: seq<string>)
    requires |s| <= 1
    ensures Dedup(s) == s
  {
    if s != [] {
      assert s[..0] == [];
      assert Dedup(s[..0]) == [];
    }
  }

  /** Below the limit, a known chunk is merged in place if the result has its identity, and raises otherwise; a new
      chunk is stored as it is. */
  lemma {:induction false} TakenHit(i: Intake, hit: SearchHit, limit: nat, query: string)
    requires i.Intake? && |i.accepted| < limit
    ensures var t, id := TakeHit(i, hit, limit, query), hit.chunkId;
            && (t.Ambiguous? <==> id in i.hits && i.hits[id].identity != hit.identity)
            && (t.Intake? && id !in i.hits ==> t.hits == i.hits[id := hit])
            && (t.Intake? && id in i.hits ==>
                 && t.hits.Keys == i.hits.Keys && (forall k | k in i.hits && k != id :: t.hits[k] == i.hits[k])
                 && IsMerge(i.hits[id], hit, t.hits[id]))
  {
    hide MergeText, Dedup;
    if hit.chunkId in i.hits { MergesInto(i.hits[hit.chunkId], hit); }
    hide IsMerge, AddFocus, MergeHit;
  }

  /** The higher score, the channels of both in order of first appearance, the metadata of both. */
  ghost predicate IsMerge(a: SearchHit, b: SearchHit, m: SearchHit) {
    && m.chunkId == a.chunkId && m.identity == a.identity && m.metadata == MergeText(a.metadata, b.metadata)
    && m.score >= a.score && m.score >= b.score && (m.score == a.score || m.score == b.score)
    && exists at :: AreFirsts(a.channels + b.channels, m.channels, at)
  }

  lemma {:induction false} MergesInto(a: SearchHit, b: SearchHit)
    ensures IsMerge(a, b, MergeHit(a, b))
  {
    var at := DedupKeepsFirsts(a.channels + b.channels);
    hide AreFirsts, MergeText, Dedup;
  }

  // --- the queries that found a chunk ---

  function FocusOf(i: Intake, id: ChunkId): seq<string>
    requires i.Intake?
  {
    if id in i.focus then i.focus[id] else []
  }

  /** How many of the first k results are this chunk. */
  function Occurrences(results: seq<SearchHit>, id: ChunkId, k: nat): nat
    requires k <= |results|
    decreases k
  {
    if k == 0 then 0 else Occurrences(results, id, k - 1) + if results[k - 1].chunkId == id then 1 else 0
  }

  function Copies(query: string, n: nat): seq<string> {
    seq(n, _ => query)
  }

  lemma {:induction false} CopiesSnoc(query: string, n: nat)
    ensures Copies(query, n) + [query] == Copies(query, n + 1)
  {
  }

  /** The result that fills the limit is still taken in; as long as none before the k-th did, each of the first k
      results adds the query to the queries of its chunk, behind the earlier ones. */
  lemma {:induction false} FocusCountsResults(
      i: Intake, results: seq<SearchHit>, limit: nat, query: string, k: nat, id: ChunkId)
    requires k <= |results| && i.Intake? && |i.accepted| < limit
    requires k > 0 ==> var t := TakeHits(i, results, limit, query, k - 1); t.Intake? ==> |t.accepted| < limit
    ensures var t := TakeHits(i, results, limit, query, k);
            t.Intake? ==> FocusOf(t, id) == FocusOf(i, id) + Copies(query, Occurrences(results, id, k))
    decreases k
  {
    hide MergeHit;
    if k == 0 {
      ConcatEmpty(FocusOf(i, id));
      assert Copies(query, 0) == [];
    } else {
      AcceptedGrow(i, results, limit, query, k - 1);
      FocusCountsResults(i, results, limit, query, k - 1, id);
      var t := TakeHits(i, results, limit, query, k - 1);
      if t.Intake? {
        var n := Occurrences(results, id, k - 1);
        CopiesSnoc(query, n);
        ConcatAssociates(FocusOf(i, id), Copies(query, n), [query]);
        hide Copies;
      }
    }
  }

  lemma {:induction false} AcceptedGrow(i: Intake, results: seq<SearchHit>, limit: nat, query: string, k: nat)
    requires k <= |results| && i.Intake?
    ensures k > 0 ==>
              var before, t := TakeHits(i, results, limit, query, k - 1), TakeHits(i, results, limit, query, k);
              t.Intake? ==> before.Intake? && |before.accepted| <= |t.accepted|
  {
    hide MergeHit, AddFocus;
  }

  /** If the results agree with each other and with the known chunks on every chunk's identity, no search raises. */
  lemma {:induction false} AgreeingNeverClashes(
      i: Intake, results: seq<SearchHit>, limit: nat, query: string, k: nat, identity: ChunkId -> seq<string>)
    requires k <= |results| && i.Intake?
    requires forall id | id in i.hits :: i.hits[id].identity == identity(id)
    requires forall j | 0 <= j < |results| :: results[j].identity == identity(results[j].chunkId)
    ensures var t := TakeHits(i, results, limit, query, k);
            t.Intake? && forall id | id in t.hits :: t.hits[id].identity == identity(id)
    decreases k
  {
    if k > 0 {
      AgreeingNeverClashes(i, results, limit, query, k - 1, identity);
      hide MergeText, Dedup, AddFocus;
    }
  }
}
