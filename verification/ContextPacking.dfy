/** Packing retrieved and neighbouring chunks into a byte-budgeted model context (`_build_context`). */
module ContextPacking {
  import opened Collections
  import opened JsonRecords
  import opened Slices
  import opened Spans
  import opened Text

  const MIN_REQUIRED_CONTEXT_EXCERPT_BYTES: nat := 96
  const PROFILE_COUNT: nat := 4
  const MAX_PREFERRED_NEIGHBORS: nat := 3

  datatype Role = User | Assistant | Artifact

  /**
   * A hit as the packer sees it: its excerpt, the merged match spans of its focus queries in that excerpt, and its
   * serialised metadata under each of the four profiles, richest first.
   */
  datatype Candidate = Candidate(chunkId: ChunkId, role: Role, excerpt: string, focus: seq<Span>, profiles: seq<Base>)

  predicate ValidCandidate(c: Candidate) {
    WellFormed(c.focus, |c.excerpt|) && |c.profiles| == PROFILE_COUNT
  }

  const NO_BASE: Base := Base("", "")

  type Hit = c: Candidate | ValidCandidate(c)
    witness Candidate("", User, "", [], [NO_BASE, NO_BASE, NO_BASE, NO_BASE])

  function Ids(hits: seq<Hit>): (r: seq<ChunkId>)
    ensures |r| == |hits| && forall i | 0 <= i < |r| :: r[i] == hits[i].chunkId
  {
    seq(|hits|, i requires 0 <= i < |hits| => hits[i].chunkId)
  }

  function RecordIds(records: seq<Record>): (r: seq<ChunkId>)
    ensures |r| == |records| && forall i | 0 <= i < |r| :: r[i] == records[i].chunkId
  {
    seq(|records|, i requires 0 <= i < |records| => records[i].chunkId)
  }

  // --- the required block: each primary with its chosen neighbours ---

  function PreferredRole(r: Role): Option<Role> {
    match r
    case User => Some(Assistant)
    case Assistant => Some(User)
    case Artifact => None
  }

  /** The hit with the given id, if any. */
  function HitById(hits: seq<Hit>, id: ChunkId): (r: Option<Hit>)
    ensures r.Some? ==> r.value in hits && r.value.chunkId == id
    ensures r.None? ==> forall h | h in hits :: h.chunkId != id
  {
    if hits == [] then None
    else if hits[|hits| - 1].chunkId == id then Some(hits[|hits| - 1])
    else HitById(hits[..|hits| - 1], id)
  }

  function Lookup(expansion: map<ChunkId, seq<ChunkId>>, id: ChunkId): seq<ChunkId> {
    if id in expansion then expansion[id] else []
  }

  /** Expansion hits of one primary that no earlier primary took. */
  function Candidates(hits: seq<Hit>, ids: seq<ChunkId>, taken: set<ChunkId>): seq<Hit> {
    if ids == [] then [] else
    var h := HitById(hits, ids[0]);
    (if h.Some? && ids[0] !in taken then [h.value] else []) + Candidates(hits, ids[1..], taken)
  }

  function WithRole(hits: seq<Hit>, role: Option<Role>): seq<Hit> {
    if hits == [] then []
    else (if role == Some(hits[0].role) then [hits[0]] else []) + WithRole(hits[1..], role)
  }

  /** At most three neighbours of the answering role, or else the first neighbour of any role. */
  function Neighbors(
      hits: seq<Hit>, primary: Hit, expansion: map<ChunkId, seq<ChunkId>>, taken: set<ChunkId>): seq<Hit> {
    var candidates := Candidates(hits, Lookup(expansion, primary.chunkId), taken);
    var preferred := WithRole(candidates, PreferredRole(primary.role));
    if preferred != [] then Capped(preferred, MAX_PREFERRED_NEIGHBORS) else Capped(candidates, 1)
  }

  datatype Block = Block(required: seq<Hit>, taken: set<ChunkId>)

  function IdSet(hits: seq<Hit>): set<ChunkId> {
    set h | h in hits :: h.chunkId
  }

  function RequiredBlock(
      hits: seq<Hit>, primaryIds: set<ChunkId>, expansion: map<ChunkId, seq<ChunkId>>, k: nat): Block
    requires k <= |hits|
    decreases k
  {
    if k == 0 then Block([], {}) else
    var b := RequiredBlock(hits, primaryIds, expansion, k - 1);
    if hits[k - 1].chunkId !in primaryIds then b else
    var neighbors := Neighbors(hits, hits[k - 1], expansion, b.taken);
    Block(b.required + [hits[k - 1]] + neighbors, b.taken + IdSet(neighbors))
  }

  /** Expansion lists as `_expand_context_hits` builds them: no repeats and no primaries. */
  predicate ValidExpansion(primaryIds: set<ChunkId>, expansion: map<ChunkId, seq<ChunkId>>) {
    forall id | id in expansion ::
      Distinct(expansion[id]) && forall n | n in expansion[id] :: n !in primaryIds
  }

  predicate FromList(hits: seq<Hit>, ids: seq<ChunkId>, taken: set<ChunkId>, chosen: seq<Hit>) {
    && Distinct(Ids(chosen))
    && forall h | h in chosen :: h in hits && h.chunkId in ids && h.chunkId !in taken
  }

  lemma {:induction false} DistinctConcat(a: seq<Hit>, b: seq<Hit>)
    requires Distinct(Ids(a)) && Distinct(Ids(b))
    requires forall x, y | x in a && y in b :: x.chunkId != y.chunkId
    ensures Distinct(Ids(a + b))
  {
    forall i, j | 0 <= i < j < |a + b| ensures Ids(a + b)[i] != Ids(a + b)[j] {
      if j < |a| { assert Ids(a)[i] != Ids(a)[j]; }
      else if |a| <= i { assert Ids(b)[i - |a|] != Ids(b)[j - |a|]; }
      else { assert a[i] in a && b[j - |a|] in b; }
    }
  }

  lemma {:induction false} DistinctTail(hits: seq<Hit>)
    requires hits != [] && Distinct(Ids(hits))
    ensures Distinct(Ids(hits[1..]))
    ensures forall h | h in hits[1..] :: h in hits && h.chunkId != hits[0].chunkId
  {
    forall i | 0 <= i < |hits| - 1 ensures Ids(hits[1..])[i] == Ids(hits)[i + 1] { }
    forall h | h in hits[1..] ensures h in hits && h.chunkId != hits[0].chunkId {
      var i :| 0 <= i < |hits[1..]| && hits[1..][i] == h;
      assert Ids(hits)[i + 1] != Ids(hits)[0];
    }
  }

  lemma {:induction false} CandidatesAreDistinct(hits: seq<Hit>, ids: seq<ChunkId>, taken: set<ChunkId>)
    requires Distinct(ids)
    ensures FromList(hits, ids, taken, Candidates(hits, ids, taken))
    decreases |ids|
  {
    if ids != [] {
      CandidatesAreDistinct(hits, ids[1..], taken);
      assert forall id | id in ids[1..] :: id in ids && id != ids[0];
      hide Ids, Distinct;
      var h := HitById(hits, ids[0]);
      if h.Some? && ids[0] !in taken {
        OneIsDistinct(h.value);
        DistinctConcat([h.value], Candidates(hits, ids[1..], taken));
      } else {
        assert Candidates(hits, ids, taken) == Candidates(hits, ids[1..], taken);
      }
    }
  }

  lemma {:induction false} OneIsDistinct(h: Hit)
    ensures Distinct(Ids([h]))
  {
  }

  lemma {:induction false} WithRoleIsSubsequence(hits: seq<Hit>, role: Option<Role>)
    requires Distinct(Ids(hits))
    ensures Distinct(Ids(WithRole(hits, role)))
    ensures forall h | h in WithRole(hits, role) :: h in hits && role == Some(h.role)
    decreases |hits|
  {
    if hits != [] {
      DistinctTail(hits);
      WithRoleIsSubsequence(hits[1..], role);
      DistinctConcat([hits[0]], WithRole(hits[1..], role));
    }
  }

  lemma {:induction false} CappedIsSubsequence(
      all: seq<Hit>, ids: seq<ChunkId>, taken: set<ChunkId>, hits: seq<Hit>, n: nat)
    requires FromList(all, ids, taken, hits)
    ensures FromList(all, ids, taken, Capped(hits, n)) && |Capped(hits, n)| <= n
  {
    assert forall i | 0 <= i < |Capped(hits, n)| :: Ids(Capped(hits, n))[i] == Ids(hits)[i];
  }

  lemma {:induction false} NeighborsAreFresh(
      hits: seq<Hit>, primary: Hit, expansion: map<ChunkId, seq<ChunkId>>, taken: set<ChunkId>)
    requires Distinct(Lookup(expansion, primary.chunkId))
    ensures FromList(hits, Lookup(expansion, primary.chunkId), taken, Neighbors(hits, primary, expansion, taken))
    ensures |Neighbors(hits, primary, expansion, taken)| <= MAX_PREFERRED_NEIGHBORS
  {
    var ids := Lookup(expansion, primary.chunkId);
    var candidates := Candidates(hits, ids, taken);
    CandidatesAreDistinct(hits, ids, taken);
    WithRoleIsSubsequence(candidates, PreferredRole(primary.role));
    CappedIsSubsequence(hits, ids, taken, WithRole(candidates, PreferredRole(primary.role)), MAX_PREFERRED_NEIGHBORS);
    CappedIsSubsequence(hits, ids, taken, candidates, 1);
  }

  lemma {:induction false} InIds(hits: seq<Hit>, id: ChunkId)
    ensures id in Ids(hits) <==> id in IdSet(hits)
    ensures id in Ids(hits) <==> exists h :: h in hits && h.chunkId == id
  {
    if id in Ids(hits) {
      var i :| 0 <= i < |Ids(hits)| && Ids(hits)[i] == id;
      assert hits[i] in hits;
    }
    if h :| h in hits && h.chunkId == id {
      var i :| 0 <= i < |hits| && hits[i] == h;
      assert Ids(hits)[i] == id;
    }
  }

  lemma {:induction false} CandidatesAreHits(hits: seq<Hit>, ids: seq<ChunkId>, taken: set<ChunkId>)
    ensures forall h | h in Candidates(hits, ids, taken) :: h in hits
    decreases |ids|
  {
    if ids != [] { CandidatesAreHits(hits, ids[1..], taken); }
  }

  lemma {:induction false} WithRoleSelects(hits: seq<Hit>, role: Option<Role>)
    ensures forall h | h in WithRole(hits, role) :: h in hits
    decreases |hits|
  {
    if hits != [] { WithRoleSelects(hits[1..], role); }
  }

  /** Whatever the expansion lists, the required block invents no chunk, and holds every primary seen so far. */
  lemma {:induction false} RequiredBlockHolds(
      hits: seq<Hit>, primaryIds: set<ChunkId>, expansion: map<ChunkId, seq<ChunkId>>, k: nat)
    requires k <= |hits|
    ensures var b := RequiredBlock(hits, primaryIds, expansion, k);
            && (forall h | h in b.required :: h in hits)
            && (forall h | h in hits[..k] && h.chunkId in primaryIds :: h in b.required)
    decreases k
  {
    if k > 0 {
      RequiredBlockHolds(hits, primaryIds, expansion, k - 1);
      TakeSnoc(hits, k);
      var b, p := RequiredBlock(hits, primaryIds, expansion, k - 1), hits[k - 1];
      var candidates := Candidates(hits, Lookup(expansion, p.chunkId), b.taken);
      CandidatesAreHits(hits, Lookup(expansion, p.chunkId), b.taken);
      WithRoleSelects(candidates, PreferredRole(p.role));
      hide Candidates, WithRole;
      assert forall h | h in Neighbors(hits, p, expansion, b.taken) :: h in hits;
    }
  }

  /** The required block repeats no chunk, invents none, and holds every primary seen so far. */
  lemma {:induction false} RequiredBlockIsDistinct(
      hits: seq<Hit>, primaryIds: set<ChunkId>, expansion: map<ChunkId, seq<ChunkId>>, k: nat)
    requires k <= |hits| && Distinct(Ids(hits)) && ValidExpansion(primaryIds, expansion)
    ensures var b := RequiredBlock(hits, primaryIds, expansion, k);
            && Distinct(Ids(b.required))
            && (forall h | h in b.required :: h in hits)
            && (forall h | h in b.required :: if h.chunkId in primaryIds then h in hits[..k] else h.chunkId in b.taken)
            && (forall h | h in hits[..k] && h.chunkId in primaryIds :: h in b.required)
    decreases k
  {
    if k > 0 {
      RequiredBlockIsDistinct(hits, primaryIds, expansion, k - 1);
      TakeSnoc(hits, k);
      var b, p := RequiredBlock(hits, primaryIds, expansion, k - 1), hits[k - 1];
      if p.chunkId in primaryIds {
        var neighbors := Neighbors(hits, p, expansion, b.taken);
        NeighborsAreFresh(hits, p, expansion, b.taken);
        forall x | x in b.required ensures x.chunkId != p.chunkId {
          if x in hits[..k - 1] {
            var i :| 0 <= i < k - 1 && hits[i] == x;
            assert Ids(hits)[i] != Ids(hits)[k - 1];
          }
        }
        hide Neighbors;
        forall x, y | x in b.required && y in [p] ensures x.chunkId != y.chunkId { }
        DistinctConcat(b.required, [p]);
        forall x, y | x in b.required + [p] && y in neighbors ensures x.chunkId != y.chunkId { }
        DistinctConcat(b.required + [p], neighbors);
      }
    }
  }
}
