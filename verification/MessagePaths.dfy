/** The active branch of a conversation and the nearest projected ancestor, in graphs that may contain cycles. */
module MessagePaths {
  import opened Collections
  import opened MessageGraph
  import opened Slices
  import opened Text

  const MAX_IDENTIFIER_LENGTH: nat := 1024

  /** `_safe_identifier`. */
  function SafeIdentifier(value: Option<string>): Option<string> {
    if value.None? then None else
    var cleaned := Strip(value.value);
    if cleaned == "" || |cleaned| > MAX_IDENTIFIER_LENGTH then None else Some(cleaned)
  }

  /** The cleaned parent link of a mapping entry. */
  function Hop(g: Graph, id: NodeId): Option<NodeId> {
    if id in g && g[id].Node? then SafeIdentifier(g[id].parent) else None
  }

  /** The parent inside the map. */
  function Up(g: Graph, id: NodeId): (r: Option<NodeId>)
    ensures r.Some? ==> r.value in g
  {
    var p := Hop(g, id);
    if p.Some? && p.value in g then p else None
  }

  // --- _chatgpt_current_path ---

  /** The ids met when climbing from `id` until one repeats or the chain leaves the map. */
  function Climb(g: Graph, id: NodeId, seen: set<NodeId>): (r: seq<NodeId>)
    requires id in g
    ensures Members(r) !! seen && Members(r) <= g.Keys
    decreases g.Keys - seen
  {
    if id in seen then [] else
    match Up(g, id)
    case None => [id]
    case Some(p) => [id] + Climb(g, p, seen + {id})
  }

  /** `_chatgpt_current_path`. */
  method CurrentPath(g: Graph, current: Option<string>) returns (path: Option<set<NodeId>>)
    ensures var start := SafeIdentifier(current);
            path == if start.None? || start.value !in g then None else Some(Members(Climb(g, start.value, {})))
  {
    hide SafeIdentifier;
    var start := SafeIdentifier(current);
    if start.None? || start.value !in g {
      return None;
    }
    var id := start.value;
    var visited: set<NodeId> := {};
    while id !in visited
      invariant id in g && visited <= g.Keys
      invariant visited + Members(Climb(g, id, visited)) == Members(Climb(g, start.value, {}))
      decreases g.Keys - visited
    {
      assert Members([id]) == {id};
      visited := visited + {id};
      var node := g[id];
      if node.NotObject? {
        break;
      }
      var parent := SafeIdentifier(node.parent);
      if parent.None? || parent.value !in g {
        break;
      }
      MembersConcat([id], Climb(g, parent.value, visited));
      id := parent.value;
    }
    assert Members<NodeId>([]) == {} && visited + {} == visited;
    path := Some(visited);
  }

  /** The k-th ancestor inside the map. */
  function Ancestor(g: Graph, id: NodeId, k: nat): Option<NodeId> {
    if k == 0 then Some(id) else
    match Ancestor(g, id, k - 1)
    case None => None
    case Some(a) => Up(g, a)
  }

  lemma {:induction false} AncestorShift(g: Graph, id: NodeId, p: NodeId, k: nat)
    requires Up(g, id) == Some(p)
    ensures Ancestor(g, id, k + 1) == Ancestor(g, p, k)
    decreases k
  {
    hide Up;
    if k > 0 { AncestorShift(g, id, p, k - 1); }
    else { assert Ancestor(g, id, 0) == Some(id); }
  }

  lemma {:induction false} ClimbReaches(g: Graph, id: NodeId, seen: set<NodeId>, i: nat)
    requires id in g && i < |Climb(g, id, seen)|
    ensures Ancestor(g, id, i) == Some(Climb(g, id, seen)[i])
    decreases g.Keys - seen
  {
    hide Up;
    if i > 0 {
      var p := Up(g, id).value;
      ClimbReaches(g, p, seen + {id}, i - 1);
      AncestorShift(g, id, p, i - 1);
    }
  }

  /** The climb is closed: the parent of a climbed node is climbed too, or was seen before. */
  lemma {:induction false} ClimbIsClosed(g: Graph, id: NodeId, seen: set<NodeId>, v: NodeId)
    requires id in g && v in Climb(g, id, seen) && Up(g, v).Some?
    ensures Up(g, v).value in seen + Members(Climb(g, id, seen))
    decreases g.Keys - seen
  {
    hide Up;
    var p := Up(g, id);
    if p.Some? {
      MembersConcat([id], Climb(g, p.value, seen + {id}));
      if v == id {
        StartIsClimbed(g, p.value, seen + {id});
      } else {
        ClimbIsClosed(g, p.value, seen + {id}, v);
      }
    }
  }

  lemma {:induction false} StartIsClimbed(g: Graph, id: NodeId, seen: set<NodeId>)
    requires id in g
    ensures id in seen || id in Members(Climb(g, id, seen))
  {
  }

  lemma {:induction false} AncestorsAreClimbed(g: Graph, id: NodeId, k: nat)
    requires id in g && Ancestor(g, id, k).Some?
    ensures Ancestor(g, id, k).value in Members(Climb(g, id, {}))
    decreases k
  {
    hide Up, Climb;
    StartIsClimbed(g, id, {});
    if k > 0 {
      AncestorsAreClimbed(g, id, k - 1);
      ClimbIsClosed(g, id, {}, Ancestor(g, id, k - 1).value);
    }
  }

  /** The current path is exactly the set of ancestors inside the map, cycles or not. */
  lemma {:induction false} PathIsAncestors(g: Graph, id: NodeId, v: NodeId)
    requires id in g
    ensures v in Members(Climb(g, id, {})) <==> exists k: nat :: Ancestor(g, id, k) == Some(v)
  {
    if v in Climb(g, id, {}) {
      var i :| 0 <= i < |Climb(g, id, {})| && Climb(g, id, {})[i] == v;
      ClimbReaches(g, id, {}, i);
    }
    if k: nat :| Ancestor(g, id, k) == Some(v) {
      AncestorsAreClimbed(g, id, k);
    }
  }

  // --- the active branch in order ---

  function Filter(order: seq<NodeId>, kept: set<NodeId>): seq<NodeId>
    decreases |order|
  {
    if order == [] then [] else
    var last := |order| - 1;
    Filter(order[..last], kept) + if order[last] in kept then [order[last]] else []
  }

  /** The cleaned parent link agrees with the raw one that the linearisation follows. */
  ghost predicate CleanLinks(g: Graph) {
    forall id | id in g :: Up(g, id) == ParentIn(g, id)
  }

  /** Each entry is the parent of the one before it, the last one a root. */
  predicate IsBranch(g: Graph, chain: seq<NodeId>)
    decreases |chain|
  {
    chain == []
    || (chain[0] in g
        && ParentIn(g, chain[0]) == (if |chain| == 1 then None else Some(chain[1]))
        && IsBranch(g, chain[1..]))
  }

  /** Without cycles the climb is the whole branch up to a root. */
  lemma {:induction false} ClimbIsBranch(g: Graph, depth: NodeId -> nat, id: NodeId, seen: set<NodeId>)
    requires id in g && CleanLinks(g) && Descends(g, depth)
    requires forall s | s in seen :: depth(id) < depth(s)
    ensures IsBranch(g, Climb(g, id, seen)) && Climb(g, id, seen) != [] && Climb(g, id, seen)[0] == id
    decreases depth(id)
  {
    var p := Up(g, id);
    hide Up, ParentIn;
    if p.Some? {
      ClimbIsBranch(g, depth, p.value, seen + {id});
      JoinCut([id], Climb(g, p.value, seen + {id}));
    } else {
      assert [id][1..] == [];
    }
  }

  lemma {:induction false} BranchAt(g: Graph, chain: seq<NodeId>, i: nat)
    requires IsBranch(g, chain) && i < |chain|
    ensures chain[i] in g && ParentIn(g, chain[i]) == if i + 1 == |chain| then None else Some(chain[i + 1])
    decreases i
  {
    hide ParentIn;
    if i > 0 { BranchAt(g, chain[1..], i - 1); }
  }

  /** The part of the branch from position j up is what the first nodes of the order contain. */
  predicate UpperPart(order: seq<NodeId>, chain: seq<NodeId>, j: nat) {
    j <= |chain| && forall i | 0 <= i < |chain| :: chain[i] in order <==> i >= j
  }

  /** In any parents-first order the branch comes out from the root down. */
  lemma {:induction false} FilteredBranch(g: Graph, order: seq<NodeId>, chain: seq<NodeId>) returns (j: nat)
    requires ParentsFirst(g, order, {}) && Distinct(order) && IsBranch(g, chain) && Distinct(chain)
    ensures UpperPart(order, chain, j) && Filter(order, Members(chain)) == Reverse(chain[j..])
    decreases |order|
  {
    if order == [] {
      j := |chain|;
      assert chain[j..] == [];
    } else {
      var last := |order| - 1;
      var front, x := order[..last], order[last];
      j := FilteredBranch(g, front, chain);
      hide ParentIn, ParentsFirst, IsBranch;
      forall i | 0 <= i < |chain| ensures chain[i] in order <==> chain[i] in front || chain[i] == x {
        OneMore(order, chain[i]);
      }
      if x in Members(chain) {
        j := NextUp(g, order, chain, j);
        hide UpperPart;
        ReverseNext(chain, j);
      } else {
        ConcatEmpty(Filter(front, Members(chain)));
      }
    }
  }

  /** When the last id of the order is on the branch, it is the next one below those seen before. */
  lemma {:induction false} NextUp(g: Graph, order: seq<NodeId>, chain: seq<NodeId>, j: nat) returns (i: nat)
    requires order != [] && ParentsFirst(g, order, {}) && Distinct(order) && IsBranch(g, chain) && Distinct(chain)
    requires UpperPart(order[..|order| - 1], chain, j) && order[|order| - 1] in chain
    ensures i + 1 == j && i < |chain| && chain[i] == order[|order| - 1] && UpperPart(order, chain, i)
  {
    var front, x := order[..|order| - 1], order[|order| - 1];
    forall n | 0 <= n < |chain| ensures chain[n] in order <==> chain[n] in front || chain[n] == x {
      OneMore(order, chain[n]);
    }
    i :| 0 <= i < |chain| && chain[i] == x;
    LastIsNew(order);
    BranchAt(g, chain, i);
    ParentOfLast(g, order);
    hide ParentIn, ParentsFirst, IsBranch;
    assert i < j;
    if i + 1 < |chain| { assert chain[i + 1] in front; }
  }

  lemma {:induction false} ReverseNext(chain: seq<NodeId>, i: nat)
    requires i < |chain|
    ensures Reverse(chain[i..]) == Reverse(chain[i + 1..]) + [chain[i]]
  {
    assert chain[i..] == [chain[i]] + chain[i + 1..];
    ReverseConcat([chain[i]], chain[i + 1..]);
    assert Reverse([chain[i]]) == [chain[i]];
  }

  lemma {:induction false} OneMore(order: seq<NodeId>, id: NodeId)
    requires order != []
    ensures id in order <==> id in order[..|order| - 1] || id == order[|order| - 1]
  {
    TakeSnoc(order, |order|);
    TakeAll(order);
  }

  lemma {:induction false} LastIsNew(order: seq<NodeId>)
    requires order != [] && Distinct(order)
    ensures order[|order| - 1] !in order[..|order| - 1]
  {
  }

  lemma {:induction false} ParentOfLast(g: Graph, order: seq<NodeId>)
    requires order != [] && ParentsFirst(g, order, {})
    ensures order[|order| - 1] in g
    ensures ParentIn(g, order[|order| - 1]).Some? ==> ParentIn(g, order[|order| - 1]).value in order[..|order| - 1]
  {
  }

  lemma {:induction false} ClimbIsDistinct(g: Graph, id: NodeId, seen: set<NodeId>)
    requires id in g
    ensures Distinct(Climb(g, id, seen))
    decreases g.Keys - seen
  {
    hide Up;
    if id !in seen && Up(g, id).Some? {
      var p := Up(g, id).value;
      ClimbIsDistinct(g, p, seen + {id});
      DistinctJoin([id], Climb(g, p, seen + {id}));
    }
  }

  /** With agreeing, acyclic, clean links, filtering the order to the current path yields the branch, root first. */
  lemma {:induction false} ActiveBranchInOrder(g: Graph, keys: seq<NodeId>, depth: NodeId -> nat, current: NodeId)
    requires Members(keys) == g.Keys && LinksAgree(g) && Descends(g, depth) && CleanLinks(g) && current in g
    ensures var branch := Climb(g, current, {});
            && IsBranch(g, branch) && branch[0] == current
            && Filter(NodeOrder(g, keys), Members(branch)) == Reverse(branch)
  {
    var branch, order := Climb(g, current, {}), NodeOrder(g, keys);
    ClimbIsBranch(g, depth, current, {});
    ClimbIsDistinct(g, current, {});
    hide Climb, NodeOrder, AgreeAt;
    ParentsComeFirst(g, keys, depth);
    EveryNodeOnce(g, keys);
    var j := FilteredBranch(g, order, branch);
    BranchAt(g, branch, 0);
    assert branch[0] in Members(order);
    assert branch[0..] == branch;
  }

  // --- nearest projected ancestor ---

  /** The k-th entry of the chain of cleaned parent links that starts at `first`, in or out of the map. */
  function ChainEntry(g: Graph, first: Option<NodeId>, k: nat): Option<NodeId> {
    if k == 0 then first else
    match ChainEntry(g, first, k - 1)
    case None => None
    case Some(a) => Hop(g, a)
  }

  /** No projected node among the first k entries of the chain. */
  predicate NoneProjected(g: Graph, first: Option<NodeId>, projected: set<NodeId>, k: nat)
    decreases k
  {
    k == 0
    || (NoneProjected(g, first, projected, k - 1)
        && var e := ChainEntry(g, first, k - 1); e.None? || e.value !in projected)
  }

  /** The first entry of the chain that is projected. */
  ghost predicate IsNearest(g: Graph, first: Option<NodeId>, projected: set<NodeId>, r: NodeId) {
    exists k: nat :: ChainEntry(g, first, k) == Some(r) && r in projected && NoneProjected(g, first, projected, k)
  }

  lemma {:induction false} ChainCycles(g: Graph, first: Option<NodeId>, i: nat, j: nat, n: nat)
    requires i < j && ChainEntry(g, first, i) == ChainEntry(g, first, j)
    ensures ChainEntry(g, first, i + n) == ChainEntry(g, first, j + n)
    decreases n
  {
    hide Hop;
    if n > 0 { ChainCycles(g, first, i, j, n - 1); }
  }

  /** A repeated entry means that nothing new is ever met, so nothing projected either. */
  lemma {:induction false} CycleHoldsNothing(
      g: Graph, first: Option<NodeId>, projected: set<NodeId>, i: nat, j: nat, n: nat)
    requires i < j && ChainEntry(g, first, i) == ChainEntry(g, first, j) && NoneProjected(g, first, projected, j)
    ensures NoneProjected(g, first, projected, n)
    decreases n
  {
    hide Hop;
    if n > 0 {
      CycleHoldsNothing(g, first, projected, i, j, n - 1);
      if n > j {
        ChainCycles(g, first, i, j, n - 1 - j);
        NoneProjectedAt(g, first, projected, n - 1, n - 1 - j + i);
      } else {
        NoneProjectedAt(g, first, projected, j, n - 1);
      }
    }
  }

  lemma {:induction false} NoneProjectedAt(g: Graph, first: Option<NodeId>, projected: set<NodeId>, k: nat, i: nat)
    requires NoneProjected(g, first, projected, k) && i < k
    ensures ChainEntry(g, first, i).None? || ChainEntry(g, first, i).value !in projected
    decreases k
  {
    hide ChainEntry;
    if i < k - 1 { NoneProjectedAt(g, first, projected, k - 1, i); }
  }

  lemma {:induction false} NothingAfterEnd(g: Graph, first: Option<NodeId>, projected: set<NodeId>, k: nat, n: nat)
    requires ChainEntry(g, first, k).None? && NoneProjected(g, first, projected, k) && k <= n
    ensures NoneProjected(g, first, projected, n) && ChainEntry(g, first, n).None?
    decreases n
  {
    hide Hop;
    if k < n { NothingAfterEnd(g, first, projected, k, n - 1); }
  }

  lemma {:induction false} FewerNoneProjected(g: Graph, first: Option<NodeId>, projected: set<NodeId>, k: nat, n: nat)
    requires NoneProjected(g, first, projected, k) && n <= k
    ensures NoneProjected(g, first, projected, n)
    decreases k
  {
    hide ChainEntry;
    if n < k { FewerNoneProjected(g, first, projected, k - 1, n); }
  }

  /**
   * The parent projection loop: the first projected node on the parent chain, or none when the chain leaves the map or
   * cycles without meeting one.
   */
  method ProjectedParent(g: Graph, parent: Option<string>, projected: set<NodeId>) returns (r: Option<NodeId>)
    requires projected <= g.Keys
    ensures r.Some? ==> IsNearest(g, SafeIdentifier(parent), projected, r.value)
    ensures r.None? ==> forall n: nat :: NoneProjected(g, SafeIdentifier(parent), projected, n)
  {
    hide SafeIdentifier, ChainEntry, NoneProjected;
    ghost var first := SafeIdentifier(parent);
    r := SafeIdentifier(parent);
    var visited: set<NodeId> := {};
    ghost var k: nat := 0;
    ghost var at: map<NodeId, nat> := map[];
    ChainStart(g, first, projected);
    while r.Some? && r.value !in projected
      invariant ChainEntry(g, first, k) == r && NoneProjected(g, first, projected, k)
      invariant visited <= g.Keys && at.Keys == visited
      invariant forall v | v in at :: at[v] < k && ChainEntry(g, first, at[v]) == Some(v)
      decreases g.Keys - visited, if r.Some? then 1 else 0
    {
      var id := r.value;
      if id in visited {
        forall n: nat ensures NoneProjected(g, first, projected, n) {
          CycleHoldsNothing(g, first, projected, at[id], k, n);
        }
        return None;
      }
      ChainNext(g, first, projected, k, id);
      at := at[id := k];
      if id !in g || g[id].NotObject? {
        forall n: nat ensures NoneProjected(g, first, projected, n) {
          if n <= k + 1 { FewerNoneProjected(g, first, projected, k + 1, n); }
          else { NothingAfterEnd(g, first, projected, k + 1, n); }
        }
        return None;
      }
      visited := visited + {id};
      r := SafeIdentifier(g[id].parent);
      k := k + 1;
    }
    if r.None? {
      forall n: nat ensures NoneProjected(g, first, projected, n) {
        if n <= k { FewerNoneProjected(g, first, projected, k, n); }
        else { NothingAfterEnd(g, first, projected, k, n); }
      }
    }
  }

  lemma {:induction false} ChainStart(g: Graph, first: Option<NodeId>, projected: set<NodeId>)
    ensures ChainEntry(g, first, 0) == first && NoneProjected(g, first, projected, 0)
  {
  }

  lemma {:induction false} ChainNext(g: Graph, first: Option<NodeId>, projected: set<NodeId>, k: nat, id: NodeId)
    requires ChainEntry(g, first, k) == Some(id) && id !in projected && NoneProjected(g, first, projected, k)
    ensures ChainEntry(g, first, k + 1) == Hop(g, id) && NoneProjected(g, first, projected, k + 1)
  {
  }
}
