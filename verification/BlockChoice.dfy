/** Which neighbours the required block shows after each primary, said of list positions and roles alone. */
module BlockChoice {
  import opened Collections
  import opened ContextPacking
  import opened JsonRecords
  import opened Slices
  import opened Text

  // --- the neighbours of one primary ---

  /** The hit an id stands for: the last one that carries it. */
  predicate Names(hits: seq<Hit>, id: ChunkId, h: Hit) {
    exists i | 0 <= i < |hits| ::
      hits[i] == h && h.chunkId == id && forall j | i < j < |hits| :: hits[j].chunkId != id
  }

  /** Position j of the expansion list names a hit that no earlier primary took. */
  predicate Available(hits: seq<Hit>, ids: seq<ChunkId>, taken: set<ChunkId>, j: nat)
    requires j < |ids|
  {
    ids[j] !in taken && exists h | h in hits :: h.chunkId == ids[j]
  }

  /** That hit answers a user chunk as the assistant, or an assistant chunk as the user. */
  predicate Answers(hits: seq<Hit>, primary: Hit, id: ChunkId) {
    exists h | h in hits :: Names(hits, id, h) &&
      ((primary.role == User && h.role == Assistant) || (primary.role == Assistant && h.role == User))
  }

  predicate Answering(hits: seq<Hit>, primary: Hit, ids: seq<ChunkId>, taken: set<ChunkId>, j: nat)
    requires j < |ids|
  {
    Available(hits, ids, taken, j) && Answers(hits, primary, ids[j])
  }

  /** The chosen hits are known, and are those at these positions of the list, in order. */
  predicate AtPositions(hits: seq<Hit>, ids: seq<ChunkId>, chosen: seq<Hit>, at: seq<nat>) {
    && |at| == |chosen|
    && (forall k | 0 <= k < |at| :: at[k] < |ids| && Names(hits, ids[at[k]], chosen[k]))
    && (forall k, l | 0 <= k < l < |at| :: at[k] < at[l])
  }

  /**
   * The first three available neighbours of the answering role; if there is none, the first available neighbour;
   * nothing exactly if none is available.
   */
  ghost predicate Chooses(hits: seq<Hit>, primary: Hit, ids: seq<ChunkId>, taken: set<ChunkId>, at: seq<nat>)
    requires forall k | 0 <= k < |at| :: at[k] < |ids|
  {
    if exists j: nat :: j < |ids| && Answering(hits, primary, ids, taken, j) then
      && 1 <= |at| <= 3
      && (forall k | 0 <= k < |at| :: Answering(hits, primary, ids, taken, at[k]))
      && forall j: nat | j < |ids| && Answering(hits, primary, ids, taken, j) :: j in at || (|at| == 3 && j > at[2])
    else if exists j: nat :: j < |ids| && Available(hits, ids, taken, j) then
      && |at| == 1 && Available(hits, ids, taken, at[0])
      && forall j: nat | j < at[0] :: !Available(hits, ids, taken, j)
    else at == []
  }

  ghost predicate IsChoice(hits: seq<Hit>, primary: Hit, ids: seq<ChunkId>, taken: set<ChunkId>, chosen: seq<Hit>) {
    exists at: seq<nat> ::
      AtPositions(hits, ids, chosen, at) && Chooses(hits, primary, ids, taken, at)
  }

  /** The positions listed are exactly the available ones from the given one on. */
  predicate AllAvailable(hits: seq<Hit>, ids: seq<ChunkId>, taken: set<ChunkId>, from: nat, at: seq<nat>) {
    && (forall k | 0 <= k < |at| :: from <= at[k] < |ids| && Available(hits, ids, taken, at[k]))
    && (forall j: nat | from <= j < |ids| && Available(hits, ids, taken, j) :: j in at)
  }

  lemma {:induction false} Prepend(hits: seq<Hit>, ids: seq<ChunkId>, chosen: seq<Hit>, at: seq<nat>, h: Hit, j: nat)
    requires AtPositions(hits, ids, chosen, at) && j < |ids| && Names(hits, ids[j], h)
    requires forall k | 0 <= k < |at| :: j < at[k]
    ensures AtPositions(hits, ids, [h] + chosen, [j] + at)
  {
  }

  lemma {:induction false} CandidatesAt(hits: seq<Hit>, ids: seq<ChunkId>, taken: set<ChunkId>, from: nat)
    returns (at: seq<nat>)
    requires from <= |ids|
    ensures AtPositions(hits, ids, Candidates(hits, ids[from..], taken), at)
    ensures AllAvailable(hits, ids, taken, from, at)
    decreases |ids| - from
  {
    if from == |ids| {
      at := [];
    } else {
      var later := CandidatesAt(hits, ids, taken, from + 1);
      assert ids[from..][0] == ids[from] && ids[from..][1..] == ids[from + 1..];
      hide AllAvailable, AtPositions, Names;
      var h, rest := HitById(hits, ids[from]), Candidates(hits, ids[from + 1..], taken);
      assert Available(hits, ids, taken, from) <==> h.Some? && ids[from] !in taken;
      hide Available;
      AvailableFrom(hits, ids, taken, from, later);
      if h.Some? && ids[from] !in taken {
        HitByIdIsNamed(hits, ids[from]);
        Prepend(hits, ids, rest, later, h.value, from);
        at := [from] + later;
      } else {
        ConcatEmpty(rest);
        at := later;
      }
    }
  }

  lemma {:induction false} AvailableFrom(
      hits: seq<Hit>, ids: seq<ChunkId>, taken: set<ChunkId>, from: nat, later: seq<nat>)
    requires from < |ids| && AllAvailable(hits, ids, taken, from + 1, later)
    ensures forall k | 0 <= k < |later| :: from < later[k]
    ensures AllAvailable(hits, ids, taken, from, if Available(hits, ids, taken, from) then [from] + later else later)
  {
    hide Available;
    assert forall j :: j in [from] + later <==> j == from || j in later;
  }

  /** The positions in the second list are those of the hits of one role. */
  predicate HoldsRole(all: seq<Hit>, at: seq<nat>, role: Option<Role>, sub: seq<nat>) {
    && |at| == |all|
    && (forall k | 0 <= k < |sub| :: sub[k] in at)
    && (forall k | 0 <= k < |at| :: at[k] in sub <==> role == Some(all[k].role))
  }

  lemma {:induction false} WithRoleAt(
      hits: seq<Hit>, ids: seq<ChunkId>, all: seq<Hit>, at: seq<nat>, role: Option<Role>) returns (sub: seq<nat>)
    requires AtPositions(hits, ids, all, at)
    ensures AtPositions(hits, ids, WithRole(all, role), sub) && HoldsRole(all, at, role, sub)
    decreases |all|
  {
    if all == [] {
      sub := [];
    } else {
      hide HoldsRole;
      TailPositions(hits, ids, all, at);
      var later := WithRoleAt(hits, ids, all[1..], at[1..], role);
      assert Names(hits, ids[at[0]], all[0]);
      assert forall k | 0 < k < |at| :: at[0] < at[k];
      hide AtPositions, Names;
      RoleStep(all, at, role, later);
      if role == Some(all[0].role) {
        Prepend(hits, ids, WithRole(all[1..], role), later, all[0], at[0]);
        sub := [at[0]] + later;
      } else {
        ConcatEmpty(WithRole(all[1..], role));
        sub := later;
      }
    }
  }

  lemma {:induction false} RoleStep(all: seq<Hit>, at: seq<nat>, role: Option<Role>, later: seq<nat>)
    requires all != [] && |at| == |all| && HoldsRole(all[1..], at[1..], role, later)
    requires forall k | 0 < k < |at| :: at[0] < at[k]
    ensures forall k | 0 <= k < |later| :: at[0] < later[k]
    ensures HoldsRole(all, at, role, if role == Some(all[0].role) then [at[0]] + later else later)
  {
    forall k | 0 <= k < |later| ensures at[0] < later[k] && later[k] in at {
      var l :| 0 <= l < |at[1..]| && at[1..][l] == later[k];
      assert at[l + 1] == later[k];
    }
    forall k | 1 <= k < |at| ensures at[k] in later <==> role == Some(all[k].role) {
      assert at[1..][k - 1] == at[k] && all[1..][k - 1] == all[k];
    }
  }

  lemma {:induction false} TailPositions(hits: seq<Hit>, ids: seq<ChunkId>, all: seq<Hit>, at: seq<nat>)
    requires AtPositions(hits, ids, all, at) && all != []
    ensures AtPositions(hits, ids, all[1..], at[1..])
  {
  }

  lemma {:induction false} CappedAt(hits: seq<Hit>, ids: seq<ChunkId>, all: seq<Hit>, at: seq<nat>, n: nat)
    requires AtPositions(hits, ids, all, at)
    ensures AtPositions(hits, ids, Capped(all, n), Capped(at, n))
  {
  }

  lemma {:induction false} NamesOne(hits: seq<Hit>, id: ChunkId, g: Hit, h: Hit)
    requires Names(hits, id, g) && Names(hits, id, h)
    ensures g == h && h in hits && h.chunkId == id
  {
    var i :| 0 <= i < |hits| && hits[i] == g && forall k | i < k < |hits| :: hits[k].chunkId != id;
    var j :| 0 <= j < |hits| && hits[j] == h && forall k | j < k < |hits| :: hits[k].chunkId != id;
    assert i == j;
  }

  lemma {:induction false} HitByIdIsNamed(hits: seq<Hit>, id: ChunkId)
    requires HitById(hits, id).Some?
    ensures Names(hits, id, HitById(hits, id).value)
    decreases |hits|
  {
    var last := |hits| - 1;
    if hits[last].chunkId != id {
      HitByIdIsNamed(hits[..last], id);
      var h := HitById(hits, id).value;
      var i :| 0 <= i < last && hits[..last][i] == h && forall j | i < j < last :: hits[..last][j].chunkId != id;
      forall j | i < j < |hits| ensures hits[j].chunkId != id {
        if j < last { assert hits[..last][j] == hits[j]; }
      }
    }
  }

  /** A named hit answers exactly if its role is the preferred one. */
  lemma {:induction false} AnswersIffPreferred(hits: seq<Hit>, primary: Hit, id: ChunkId, h: Hit)
    requires Names(hits, id, h)
    ensures Answers(hits, primary, id) <==> PreferredRole(primary.role) == Some(h.role)
  {
    NamesOne(hits, id, h, h);
    forall g | Names(hits, id, g) ensures g == h { NamesOne(hits, id, g, h); }
    hide Names;
  }

  lemma {:induction false} NeighborsAreChoice(
      hits: seq<Hit>, primary: Hit, expansion: map<ChunkId, seq<ChunkId>>, taken: set<ChunkId>)
    ensures IsChoice(hits, primary, Lookup(expansion, primary.chunkId), taken,
        Neighbors(hits, primary, expansion, taken))
  {
    var ids := Lookup(expansion, primary.chunkId);
    var all := Candidates(hits, ids, taken);
    var role := PreferredRole(primary.role);
    assert ids[0..] == ids;
    var at := CandidatesAt(hits, ids, taken, 0);
    var sub := WithRoleAt(hits, ids, all, at, role);
    forall k | 0 <= k < |at| ensures Answering(hits, primary, ids, taken, at[k]) <==> at[k] in sub {
      AnswersIffPreferred(hits, primary, ids[at[k]], all[k]);
    }
    hide Candidates, WithRole, PreferredRole, Answers, Available;
    if sub != [] {
      PreferredIsChoice(hits, primary, ids, taken, WithRole(all, role), at, sub);
    } else {
      CappedAt(hits, ids, all, at, 1);
      FirstIsChoice(hits, primary, ids, taken, Capped(all, 1), at);
    }
  }

  lemma {:induction false} PreferredIsChoice(
      hits: seq<Hit>, primary: Hit, ids: seq<ChunkId>, taken: set<ChunkId>, preferred: seq<Hit>, at: seq<nat>,
      sub: seq<nat>)
    requires AllAvailable(hits, ids, taken, 0, at) && AtPositions(hits, ids, preferred, sub) && sub != []
    requires forall k | 0 <= k < |sub| :: sub[k] in at
    requires forall k | 0 <= k < |at| :: Answering(hits, primary, ids, taken, at[k]) <==> at[k] in sub
    ensures IsChoice(hits, primary, ids, taken, Capped(preferred, 3))
  {
    CappedAt(hits, ids, preferred, sub, 3);
    forall k | 0 <= k < |sub| ensures sub[k] < |ids| && Answering(hits, primary, ids, taken, sub[k]) {
      var l :| 0 <= l < |at| && at[l] == sub[k];
    }
    forall j: nat | j < |ids| && Answering(hits, primary, ids, taken, j) ensures j in sub {
      var l :| 0 <= l < |at| && at[l] == j;
    }
    assert forall k, l | 0 <= k < l < |sub| :: sub[k] < sub[l];
    hide AtPositions, AllAvailable, Answering, Chooses;
    ThreeAreChosen(hits, primary, ids, taken, sub);
  }

  lemma {:induction false} ThreeAreChosen(
      hits: seq<Hit>, primary: Hit, ids: seq<ChunkId>, taken: set<ChunkId>, sub: seq<nat>)
    requires sub != [] && forall k, l | 0 <= k < l < |sub| :: sub[k] < sub[l]
    requires forall k | 0 <= k < |sub| :: sub[k] < |ids| && Answering(hits, primary, ids, taken, sub[k])
    requires forall j: nat | j < |ids| && Answering(hits, primary, ids, taken, j) :: j in sub
    ensures forall k | 0 <= k < |Capped(sub, 3)| :: Capped(sub, 3)[k] < |ids|
    ensures Chooses(hits, primary, ids, taken, Capped(sub, 3))
  {
    hide Answering, Available;
    var first := Capped(sub, 3);
    assert forall k | 0 <= k < |first| :: first[k] == sub[k];
    forall j: nat | j < |ids| && Answering(hits, primary, ids, taken, j)
      ensures j in first || (|first| == 3 && j > first[2])
    {
      var k :| 0 <= k < |sub| && sub[k] == j;
      if k < 3 { assert first[k] == j; }
    }
    assert sub[0] < |ids| && Answering(hits, primary, ids, taken, sub[0]);
  }

  lemma {:induction false} FirstIsChoice(
      hits: seq<Hit>, primary: Hit, ids: seq<ChunkId>, taken: set<ChunkId>, chosen: seq<Hit>, at: seq<nat>)
    requires AllAvailable(hits, ids, taken, 0, at) && AtPositions(hits, ids, chosen, Capped(at, 1))
    requires forall k, l | 0 <= k < l < |at| :: at[k] < at[l]
    requires forall k | 0 <= k < |at| :: !Answering(hits, primary, ids, taken, at[k])
    ensures IsChoice(hits, primary, ids, taken, chosen)
  {
    forall j: nat | j < |ids| && Available(hits, ids, taken, j) ensures at != [] && at[0] <= j {
      var l :| 0 <= l < |at| && at[l] == j;
    }
    forall j: nat | j < |ids| ensures !Answering(hits, primary, ids, taken, j) {
      if Available(hits, ids, taken, j) { var l :| 0 <= l < |at| && at[l] == j; }
    }
    var first := Capped(at, 1);
    assert AtPositions(hits, ids, chosen, first);
  }

  // --- the whole block ---

  /** One primary and the neighbours shown after it. */
  datatype Group = Group(primary: Hit, chosen: seq<Hit>)

  function Flat(groups: seq<Group>): seq<Hit>
    decreases |groups|
  {
    if groups == [] then []
    else Flat(groups[..|groups| - 1]) + [groups[|groups| - 1].primary] + groups[|groups| - 1].chosen
  }

  /** The neighbours of the first k groups. */
  function Chosen(groups: seq<Group>, k: nat): set<ChunkId>
    requires k <= |groups|
  {
    set i, h | 0 <= i < k && h in groups[i].chosen :: h.chunkId
  }

  /** The groups are those of the primaries, in the order of the hits, and each holds the choice among the neighbours
      that no earlier group took. */
  ghost predicate AreGroups(
      hits: seq<Hit>, primaryIds: set<ChunkId>, expansion: map<ChunkId, seq<ChunkId>>, groups: seq<Group>, k: nat)
    requires k <= |hits|
  {
    && Primaries(groups) == PrimaryHits(hits, primaryIds, k)
    && forall i | 0 <= i < |groups| ::
         IsChoice(hits, groups[i].primary, Lookup(expansion, groups[i].primary.chunkId), Chosen(groups, i),
                  groups[i].chosen)
  }

  function Primaries(groups: seq<Group>): (r: seq<Hit>)
    ensures |r| == |groups| && forall i | 0 <= i < |r| :: r[i] == groups[i].primary
  {
    seq(|groups|, i requires 0 <= i < |groups| => groups[i].primary)
  }

  function PrimaryHits(hits: seq<Hit>, primaryIds: set<ChunkId>, k: nat): seq<Hit>
    requires k <= |hits|
    decreases k
  {
    if k == 0 then []
    else PrimaryHits(hits, primaryIds, k - 1) + if hits[k - 1].chunkId in primaryIds then [hits[k - 1]] else []
  }

  function GroupsOf(
      hits: seq<Hit>, primaryIds: set<ChunkId>, expansion: map<ChunkId, seq<ChunkId>>, k: nat): seq<Group>
    requires k <= |hits|
    decreases k
  {
    if k == 0 then [] else
    var before := GroupsOf(hits, primaryIds, expansion, k - 1);
    var p := hits[k - 1];
    if p.chunkId !in primaryIds then before
    else before + [Group(p, Neighbors(hits, p, expansion, Chosen(before, |before|)))]
  }

  lemma {:induction false} BlockIsFlat(
      hits: seq<Hit>, primaryIds: set<ChunkId>, expansion: map<ChunkId, seq<ChunkId>>, k: nat)
    requires k <= |hits|
    ensures var groups := GroupsOf(hits, primaryIds, expansion, k);
            RequiredBlock(hits, primaryIds, expansion, k) == Block(Flat(groups), Chosen(groups, |groups|))
    decreases k
  {
    hide Neighbors, IdSet;
    if k > 0 {
      hide Flat, Chosen;
      BlockIsFlat(hits, primaryIds, expansion, k - 1);
      var before, p := GroupsOf(hits, primaryIds, expansion, k - 1), hits[k - 1];
      if p.chunkId in primaryIds {
        MoreGroups(before, Group(p, Neighbors(hits, p, expansion, Chosen(before, |before|))));
      }
    }
  }

  lemma {:induction false} GroupsOfAreGroups(
      hits: seq<Hit>, primaryIds: set<ChunkId>, expansion: map<ChunkId, seq<ChunkId>>, k: nat)
    requires k <= |hits|
    ensures AreGroups(hits, primaryIds, expansion, GroupsOf(hits, primaryIds, expansion, k), k)
    decreases k
  {
    hide IsChoice, Neighbors, Lookup, Chosen;
    if k > 0 {
      hide AreGroups;
      GroupsOfAreGroups(hits, primaryIds, expansion, k - 1);
      var before, p := GroupsOf(hits, primaryIds, expansion, k - 1), hits[k - 1];
      if p.chunkId in primaryIds {
        var taken := Chosen(before, |before|);
        NeighborsAreChoice(hits, p, expansion, taken);
        MoreAreGroups(hits, primaryIds, expansion, before, k - 1, Neighbors(hits, p, expansion, taken));
      } else {
        SameGroups(hits, primaryIds, expansion, before, k - 1);
      }
    }
  }

  lemma {:induction false} MoreAreGroups(
      hits: seq<Hit>, primaryIds: set<ChunkId>, expansion: map<ChunkId, seq<ChunkId>>, groups: seq<Group>, k: nat,
      chosen: seq<Hit>)
    requires k < |hits| && hits[k].chunkId in primaryIds && AreGroups(hits, primaryIds, expansion, groups, k)
    requires IsChoice(hits, hits[k], Lookup(expansion, hits[k].chunkId), Chosen(groups, |groups|), chosen)
    ensures AreGroups(hits, primaryIds, expansion, groups + [Group(hits[k], chosen)], k + 1)
  {
    hide IsChoice, Lookup, Chosen;
    var more := groups + [Group(hits[k], chosen)];
    MoreGroups(groups, Group(hits[k], chosen));
    assert Primaries(more) == Primaries(groups) + [hits[k]];
    assert forall i | 0 <= i < |groups| :: more[i] == groups[i];
  }

  lemma {:induction false} SameGroups(
      hits: seq<Hit>, primaryIds: set<ChunkId>, expansion: map<ChunkId, seq<ChunkId>>, groups: seq<Group>, k: nat)
    requires k < |hits| && hits[k].chunkId !in primaryIds && AreGroups(hits, primaryIds, expansion, groups, k)
    ensures AreGroups(hits, primaryIds, expansion, groups, k + 1)
  {
    hide IsChoice, Lookup, Chosen;
    ConcatEmpty(PrimaryHits(hits, primaryIds, k));
  }

  lemma {:induction false} MoreGroups(groups: seq<Group>, g: Group)
    ensures Flat(groups + [g]) == Flat(groups) + [g.primary] + g.chosen
    ensures forall i | 0 <= i <= |groups| :: Chosen(groups + [g], i) == Chosen(groups, i)
    ensures Chosen(groups + [g], |groups| + 1) == Chosen(groups, |groups|) + IdSet(g.chosen)
  {
    var more := groups + [g];
    JoinCut(groups, [g]);
    assert forall i | 0 <= i < |groups| :: more[i] == groups[i];
    assert more[|groups|] == g;
  }

  /** The required block is its groups one after the other. */
  lemma {:induction false} RequiredBlockIsGroups(
      hits: seq<Hit>, primaryIds: set<ChunkId>, expansion: map<ChunkId, seq<ChunkId>>) returns (groups: seq<Group>)
    ensures AreGroups(hits, primaryIds, expansion, groups, |hits|)
    ensures RequiredBlock(hits, primaryIds, expansion, |hits|).required == Flat(groups)
  {
    hide AreGroups;
    BlockIsFlat(hits, primaryIds, expansion, |hits|);
    GroupsOfAreGroups(hits, primaryIds, expansion, |hits|);
    groups := GroupsOf(hits, primaryIds, expansion, |hits|);
  }

  lemma {:induction false} AnswerFollows(hits: seq<Hit>, p: Hit, q: Hit, a: Hit)
    requires p.role == User && q.role == User && a.role == Assistant
    requires HitById(hits, q.chunkId) == Some(q) && HitById(hits, a.chunkId) == Some(a)
    ensures Neighbors(hits, p, map[p.chunkId := [q.chunkId, a.chunkId]], {}) == [a]
  {
    hide HitById;
    var ids := [q.chunkId, a.chunkId];
    assert ids[1..] == [a.chunkId] && ids[1..][1..] == [];
    assert Candidates(hits, [], {}) == [];
    assert Candidates(hits, [a.chunkId], {}) == [a] + [];
    assert Candidates(hits, ids, {}) == [q, a];
    hide Candidates;
    assert [q, a][1..] == [a] && [a][1..] == [];
    assert WithRole([], Some(Assistant)) == [];
    assert WithRole([a], Some(Assistant)) == [a] + [];
    assert WithRole([q, a], Some(Assistant)) == [a];
  }

  /** A user chunk is shown with its answer, although another user chunk is listed first. */
  lemma {:induction false} AnswerIsChosen(p: Hit, q: Hit, a: Hit)
    requires p.role == User && q.role == User && a.role == Assistant
    requires p.chunkId != q.chunkId && q.chunkId != a.chunkId && a.chunkId != p.chunkId
    ensures RequiredBlock([p, q, a], {p.chunkId}, map[p.chunkId := [q.chunkId, a.chunkId]], 3).required == [p, a]
  {
    var hits := [p, q, a];
    OneHit(hits, 1, q);
    OneHit(hits, 2, a);
    AnswerFollows(hits, p, q, a);
    hide Neighbors, HitById;
    assert RequiredBlock(hits, {p.chunkId}, map[p.chunkId := [q.chunkId, a.chunkId]], 1).required == [p, a];
  }

  lemma {:induction false} OneHit(hits: seq<Hit>, i: nat, h: Hit)
    requires i < |hits| && hits[i] == h && forall j | i < j < |hits| :: hits[j].chunkId != h.chunkId
    ensures HitById(hits, h.chunkId) == Some(h)
  {
    assert Names(hits, h.chunkId, h);
    assert HitById(hits, h.chunkId).Some?;
    HitByIdIsNamed(hits, h.chunkId);
    NamesOne(hits, h.chunkId, h, HitById(hits, h.chunkId).value);
  }
}
