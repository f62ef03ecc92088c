/** Linearising an arbitrary message graph with an explicit stack (`_ordered_chatgpt_nodes`). */
module MessageGraph {
  import opened Collections
  import opened Slices
  import opened Text

  type NodeId = string

  /** A mapping value: either not an object, or an object with its parent link, child links and sort timestamp. */
  datatype Node = NotObject | Node(parent: Option<string>, children: seq<NodeId>, time: real)

  type Graph = map<NodeId, Node>

  function Members<T(==)>(s: seq<T>): set<T> {
    set x | x in s
  }

  // --- sibling order ---

  function TimeOf(g: Graph, id: NodeId): real {
    if id in g && g[id].Node? then g[id].time else 0.0
  }

  /** Lexicographic order by code point. */
  predicate TextLess(a: string, b: string) {
    b != "" && (a == "" || a[0] < b[0] || (a[0] == b[0] && TextLess(a[1..], b[1..])))
  }

  /** The order of `_chatgpt_node_sort_key`. */
  predicate Before(g: Graph, a: NodeId, b: NodeId) {
    TimeOf(g, a) < TimeOf(g, b) || (TimeOf(g, a) == TimeOf(g, b) && TextLess(a, b))
  }

  function InsertId(g: Graph, sorted: seq<NodeId>, id: NodeId): seq<NodeId> {
    if sorted == [] || Before(g, id, sorted[0]) then [id] + sorted
    else [sorted[0]] + InsertId(g, sorted[1..], id)
  }

  /** `sorted(set(ids), key=...)`. */
  function SortedIds(g: Graph, ids: seq<NodeId>): seq<NodeId> {
    if ids == [] then [] else
    var rest := SortedIds(g, ids[1..]);
    if ids[0] in rest then rest else InsertId(g, rest, ids[0])
  }

  lemma {:induction false} InsertIdMembers(g: Graph, sorted: seq<NodeId>, id: NodeId)
    ensures forall x :: x in InsertId(g, sorted, id) <==> x == id || x in sorted
    decreases |sorted|
  {
    if !(sorted == [] || Before(g, id, sorted[0])) {
      InsertIdMembers(g, sorted[1..], id);
      HeadTail(sorted);
    }
  }

  lemma {:induction false} SortedIdsMembers(g: Graph, ids: seq<NodeId>)
    ensures forall x :: x in SortedIds(g, ids) <==> x in ids
    decreases |ids|
  {
    if ids != [] {
      hide InsertId;
      SortedIdsMembers(g, ids[1..]);
      HeadTail(ids);
      InsertIdMembers(g, SortedIds(g, ids[1..]), ids[0]);
    }
  }

  /** Listed in strictly increasing key order. */
  predicate InKeyOrder(g: Graph, s: seq<NodeId>)
    decreases |s|
  {
    |s| < 2 || (Before(g, s[0], s[1]) && InKeyOrder(g, s[1..]))
  }

  lemma {:induction false} TextLessIsTotal(a: string, b: string)
    ensures a == b || TextLess(a, b) || TextLess(b, a)
  {
    if a != "" && b != "" && a[0] == b[0] {
      TextLessIsTotal(a[1..], b[1..]);
      HeadTail(a);
      HeadTail(b);
    }
  }

  lemma {:induction false} InsertIdKeepsOrder(g: Graph, sorted: seq<NodeId>, id: NodeId)
    requires InKeyOrder(g, sorted) && id !in sorted
    ensures InKeyOrder(g, InsertId(g, sorted, id))
    decreases |sorted|
  {
    if sorted != [] && !Before(g, id, sorted[0]) {
      hide TextLess;
      TextLessIsTotal(id, sorted[0]);
      InsertIdKeepsOrder(g, sorted[1..], id);
      JoinCut([sorted[0]], InsertId(g, sorted[1..], id));
    } else {
      JoinCut([id], sorted);
    }
  }

  /** Siblings and start nodes are visited in the order of their timestamps, then of their ids, each once. */
  lemma {:induction false} SortedIdsInKeyOrder(g: Graph, ids: seq<NodeId>)
    ensures InKeyOrder(g, SortedIds(g, ids))
    decreases |ids|
  {
    if ids != [] {
      hide InsertId;
      SortedIdsInKeyOrder(g, ids[1..]);
      if ids[0] !in SortedIds(g, ids[1..]) {
        InsertIdKeepsOrder(g, SortedIds(g, ids[1..]), ids[0]);
      }
    }
  }

  function Children(g: Graph, id: NodeId): seq<NodeId>
    requires id in g
  {
    if g[id].Node? then SortedIds(g, g[id].children) else []
  }

  predicate IsRoot(g: Graph, id: NodeId)
    requires id in g
  {
    g[id].NotObject? || g[id].parent.None? || g[id].parent.value !in g
  }

  // --- reference: recursive depth-first preorder over a shared visited set ---

  /** The nodes emitted when the listed ids are visited in turn, skipping what is seen or dangling. */
  function Preorder(g: Graph, work: seq<NodeId>, seen: set<NodeId>): (r: seq<NodeId>)
    ensures Members(r) <= g.Keys - seen
    decreases g.Keys - seen, |work|
  {
    if work == [] then []
    else if work[0] in seen || work[0] !in g then Preorder(g, work[1..], seen)
    else
      var v := work[0];
      var below := Preorder(g, Children(g, v), seen + {v});
      var r := [v] + below + Preorder(g, work[1..], seen + {v} + Members(below));
      r
  }

  lemma {:induction false} MembersConcat<T>(a: seq<T>, b: seq<T>)
    ensures Members(a + b) == Members(a) + Members(b)
  {
  }

  /** Visiting two lists in turn is visiting the first, then the second with what the first has seen. */
  lemma {:induction false} PreorderConcat(g: Graph, a: seq<NodeId>, b: seq<NodeId>, seen: set<NodeId>)
    ensures Preorder(g, a + b, seen)
         == Preorder(g, a, seen) + Preorder(g, b, seen + Members(Preorder(g, a, seen)))
    decreases g.Keys - seen, |a|
  {
    if a == [] {
      ConcatEmpty(b);
      assert seen + Members(Preorder(g, a, seen)) == seen;
    } else {
      HeadTailOfConcat(a, b);
      if a[0] in seen || a[0] !in g {
        PreorderConcat(g, a[1..], b, seen);
      } else {
        var v := a[0];
        var below := Preorder(g, Children(g, v), seen + {v});
        var inner := seen + {v} + Members(below);
        PreorderConcat(g, a[1..], b, inner);
        var left := Preorder(g, a[1..], inner);
        assert Preorder(g, a, seen) == [v] + below + left;
        MembersConcat([v] + below, left);
        MembersConcat([v], below);
        assert inner + Members(left) == seen + Members(Preorder(g, a, seen));
        ConcatAssociates([v] + below, left, Preorder(g, b, inner + Members(left)));
      }
    }
  }

  /** One step of the stack loop: emit the node and put its children before the waiting work. */
  lemma {:induction false} PreorderStep(g: Graph, v: NodeId, rest: seq<NodeId>, seen: set<NodeId>)
    requires v in g && v !in seen
    ensures Preorder(g, [v] + rest, seen) == [v] + Preorder(g, Children(g, v) + rest, seen + {v})
  {
    HeadTailOfConcat([v], rest);
    ConcatEmpty(rest);
    var children := Children(g, v);
    var below := Preorder(g, children, seen + {v});
    PreorderConcat(g, children, rest, seen + {v});
    ConcatAssociates([v], below, Preorder(g, rest, seen + {v} + Members(below)));
  }

  function Reverse<T>(s: seq<T>): (r: seq<T>)
    ensures |r| == |s|
    decreases |s|
  {
    if s == [] then [] else [s[|s| - 1]] + Reverse(s[..|s| - 1])
  }

  lemma {:induction false} ReverseSnoc<T>(s: seq<T>, x: T)
    ensures Reverse(s + [x]) == [x] + Reverse(s)
  {
    JoinCut(s, [x]);
  }

  lemma {:induction false} ReverseConcat<T>(a: seq<T>, b: seq<T>)
    ensures Reverse(a + b) == Reverse(b) + Reverse(a)
    decreases |b|
  {
    if b == [] {
      ConcatEmpty(a);
      ConcatEmpty(Reverse(a));
    } else {
      var last := |b| - 1;
      ReverseConcat(a, b[..last]);
      assert a + b == (a + b[..last]) + [b[last]];
      ReverseSnoc(a + b[..last], b[last]);
      ConcatAssociates([b[last]], Reverse(b[..last]), Reverse(a));
    }
  }

  lemma {:induction false} ReverseTwice<T>(s: seq<T>)
    ensures Reverse(Reverse(s)) == s
    decreases |s|
  {
    if s != [] {
      var last := |s| - 1;
      ReverseTwice(s[..last]);
      ReverseConcat([s[last]], Reverse(s[..last]));
      assert Reverse([s[last]]) == [s[last]];
      assert s[..last] + [s[last]] == s;
    }
  }

  /** The inner function `visit`: an explicit stack, top at the end. */
  method Visit(g: Graph, start: NodeId, ordered0: seq<NodeId>, visited0: set<NodeId>)
    returns (ordered: seq<NodeId>, visited: set<NodeId>)
    requires visited0 <= g.Keys
    ensures ordered == ordered0 + Preorder(g, [start], visited0)
    ensures visited == visited0 + Members(Preorder(g, [start], visited0))
  {
    hide Children, SortedIds;
    ordered, visited := ordered0, visited0;
    var stack := [start];
    ghost var all := Preorder(g, [start], visited0);
    ghost var emitted: seq<NodeId> := [];
    assert Reverse(stack) == [start];
    while stack != []
      invariant visited == visited0 + Members(emitted) && visited <= g.Keys
      invariant ordered == ordered0 + emitted
      invariant all == emitted + Preorder(g, Reverse(stack), visited)
      decreases g.Keys - visited, |stack|
    {
      var id := stack[|stack| - 1];
      ghost var rest := Reverse(stack[..|stack| - 1]);
      assert Reverse(stack) == [id] + rest;
      HeadTailOfConcat([id], rest);
      ConcatEmpty(rest);
      stack := stack[..|stack| - 1];
      if id in visited || id !in g {
        continue;
      }
      PreorderStep(g, id, rest, visited);
      ConcatAssociates(emitted, [id], Preorder(g, Children(g, id) + rest, visited + {id}));
      ConcatAssociates(ordered0, emitted, [id]);
      MembersConcat(emitted, [id]);
      emitted := emitted + [id];
      visited := visited + {id};
      ordered := ordered + [id];
      ReverseConcat(stack, Reverse(Children(g, id)));
      ReverseTwice(Children(g, id));
      stack := stack + Reverse(Children(g, id));
    }
    ConcatEmpty(emitted);
  }

  function Roots(g: Graph, keys: seq<NodeId>): seq<NodeId> {
    if keys == [] then [] else
    (if keys[0] in g && IsRoot(g, keys[0]) then [keys[0]] else []) + Roots(g, keys[1..])
  }

  /** The order in which the nodes come out: roots first, then whatever the roots do not reach. */
  function NodeOrder(g: Graph, keys: seq<NodeId>): seq<NodeId> {
    Preorder(g, SortedIds(g, Roots(g, keys)) + SortedIds(g, keys), {})
  }

  /** `_ordered_chatgpt_nodes`; `keys` lists the mapping's keys in insertion order. */
  method OrderedNodes(g: Graph, keys: seq<NodeId>) returns (ordered: seq<NodeId>)
    requires Members(keys) == g.Keys
    ensures ordered == NodeOrder(g, keys)
  {
    hide Preorder, SortedIds, Roots;
    ordered := [];
    var visited: set<NodeId> := {};
    var starts := SortedIds(g, Roots(g, keys)) + SortedIds(g, keys);
    assert starts[..0] == [] && Preorder(g, [], {}) == [] by { EmptyPreorder(g, {}); }
    for k := 0 to |starts|
      invariant ordered == Preorder(g, starts[..k], {}) && visited == Members(ordered)
    {
      TakeSnoc(starts, k + 1);
      PreorderConcat(g, starts[..k], [starts[k]], {});
      MembersConcat(ordered, Preorder(g, [starts[k]], visited));
      assert {} + visited == visited;
      ordered, visited := Visit(g, starts[k], ordered, visited);
    }
    TakeAll(starts);
  }

  lemma {:induction false} EmptyPreorder(g: Graph, seen: set<NodeId>)
    ensures Preorder(g, [], seen) == []
  {
  }

  // --- every node exactly once ---

  /** The preorder repeats nothing, emits all listed nodes, and is closed under child links. */
  lemma {:induction false} PreorderIsComplete(g: Graph, work: seq<NodeId>, seen: set<NodeId>)
    ensures var r := Preorder(g, work, seen);
            && Distinct(r)
            && (forall id | id in work && id in g :: id in seen + Members(r))
            && (forall v, c | v in r && v in g && c in Children(g, v) && c in g :: c in seen + Members(r))
    decreases g.Keys - seen, |work|
  {
    hide Children;
    if work == [] {
    } else if work[0] in seen || work[0] !in g {
      PreorderIsComplete(g, work[1..], seen);
      HeadTail(work);
    } else {
      var v := work[0];
      var below := Preorder(g, Children(g, v), seen + {v});
      var inner := seen + {v} + Members(below);
      PreorderIsComplete(g, Children(g, v), seen + {v});
      PreorderIsComplete(g, work[1..], inner);
      var right := Preorder(g, work[1..], inner);
      HeadTail(work);
      DistinctJoin([v], below);
      DistinctJoin([v] + below, right);
      MembersConcat([v], below);
      MembersConcat([v] + below, right);
    }
  }

  lemma {:induction false} DistinctJoin<T>(a: seq<T>, b: seq<T>)
    requires Distinct(a) && Distinct(b) && Members(a) !! Members(b)
    ensures Distinct(a + b)
  {
    forall i, j | 0 <= i < j < |a + b| ensures (a + b)[i] != (a + b)[j] {
      if i < |a| <= j { assert a[i] in Members(a) && b[j - |a|] in Members(b); }
    }
  }

  /** Whatever the links, cycles and dangling ids included, every node is emitted exactly once. */
  lemma {:induction false} EveryNodeOnce(g: Graph, keys: seq<NodeId>)
    requires Members(keys) == g.Keys
    ensures Distinct(NodeOrder(g, keys)) && Members(NodeOrder(g, keys)) == g.Keys
  {
    hide Preorder;
    var starts := SortedIds(g, Roots(g, keys)) + SortedIds(g, keys);
    PreorderIsComplete(g, starts, {});
    SortedIdsMembers(g, keys);
    forall id | id in g.Keys ensures id in Members(NodeOrder(g, keys)) {
      assert id in keys && id in SortedIds(g, keys) && id in starts;
    }
  }

  // --- parents before children ---

  function ParentIn(g: Graph, id: NodeId): Option<NodeId>
    requires id in g
  {
    if IsRoot(g, id) then None else g[id].parent
  }

  /** Parent links and child links describe the same edges. */
  ghost predicate LinksAgree(g: Graph) {
    forall p, c :: AgreeAt(g, p, c)
  }

  predicate AgreeAt(g: Graph, p: NodeId, c: NodeId) {
    p in g && c in g ==> (c in Children(g, p) <==> ParentIn(g, c) == Some(p))
  }

  /** Following parent links inside the map goes down in some measure, so it meets no cycle. */
  ghost predicate Descends(g: Graph, depth: NodeId -> nat) {
    forall c | c in g && ParentIn(g, c).Some? :: depth(ParentIn(g, c).value) < depth(c)
  }

  /** Each listed node's parent is seen, or listed earlier. */
  predicate ParentsFirst(g: Graph, order: seq<NodeId>, seen: set<NodeId>)
    decreases |order|
  {
    order == []
    || (var last := order[|order| - 1];
        && ParentsFirst(g, order[..|order| - 1], seen)
        && last in g
        && (ParentIn(g, last).Some? ==> ParentIn(g, last).value in seen + Members(order[..|order| - 1])))
  }

  lemma {:induction false} ParentsFirstConcat(g: Graph, a: seq<NodeId>, b: seq<NodeId>, seen: set<NodeId>)
    requires ParentsFirst(g, a, seen) && ParentsFirst(g, b, seen + Members(a))
    ensures ParentsFirst(g, a + b, seen)
    decreases |b|
  {
    hide ParentIn;
    if b == [] {
      ConcatEmpty(a);
    } else {
      var last := |b| - 1;
      ParentsFirstConcat(g, a, b[..last], seen);
      ConcatAssociates(a, b[..last], [b[last]]);
      TakeSnoc(b, |b|);
      TakeAll(b);
      JoinCut(a + b[..last], [b[last]]);
      MembersConcat(a, b[..last]);
    }
  }

  predicate Reachable(g: Graph, id: NodeId, seen: set<NodeId>) {
    id in g && id !in seen && ParentIn(g, id).Some? ==> ParentIn(g, id).value in seen
  }

  /** Visiting nodes whose parents are seen keeps parents first, when links agree. */
  lemma {:induction false} PreorderParentsFirst(g: Graph, work: seq<NodeId>, seen: set<NodeId>)
    requires LinksAgree(g)
    requires forall id | id in work :: Reachable(g, id, seen)
    ensures ParentsFirst(g, Preorder(g, work, seen), seen)
    decreases g.Keys - seen, |work|
  {
    if work == [] {
    } else if work[0] in seen || work[0] !in g {
      PreorderParentsFirst(g, work[1..], seen);
    } else {
      var v := work[0];
      var below := Preorder(g, Children(g, v), seen + {v});
      forall c | c in Children(g, v) ensures Reachable(g, c, seen + {v}) { assert AgreeAt(g, v, c); }
      hide Children, ParentIn, AgreeAt, Reachable;
      PreorderParentsFirst(g, Children(g, v), seen + {v});
      var inner := seen + {v} + Members(below);
      forall id | id in work[1..] ensures Reachable(g, id, inner) { ReachableGrows(g, id, seen, inner); }
      PreorderParentsFirst(g, work[1..], inner);
      assert v in work;
      OneIsParentsFirst(g, v, seen);
      ThreePartsParentsFirst(g, v, below, Preorder(g, work[1..], inner), seen);
    }
  }

  lemma {:induction false} ThreePartsParentsFirst(
      g: Graph, v: NodeId, below: seq<NodeId>, right: seq<NodeId>, seen: set<NodeId>)
    requires ParentsFirst(g, [v], seen) && ParentsFirst(g, below, seen + {v})
    requires ParentsFirst(g, right, seen + {v} + Members(below))
    ensures ParentsFirst(g, [v] + below + right, seen)
  {
    hide ParentsFirst;
    assert seen + Members([v]) == seen + {v};
    ParentsFirstConcat(g, [v], below, seen);
    MembersConcat([v], below);
    assert seen + Members([v] + below) == seen + {v} + Members(below);
    ParentsFirstConcat(g, [v] + below, right, seen);
  }

  lemma {:induction false} ReachableGrows(g: Graph, id: NodeId, seen: set<NodeId>, more: set<NodeId>)
    requires Reachable(g, id, seen) && seen <= more
    ensures Reachable(g, id, more)
  {
  }

  lemma {:induction false} OneIsParentsFirst(g: Graph, v: NodeId, seen: set<NodeId>)
    requires v in g && v !in seen && Reachable(g, v, seen)
    ensures ParentsFirst(g, [v], seen)
  {
    assert [v][..0] == [];
  }

  lemma {:induction false} RootsMembers(g: Graph, keys: seq<NodeId>)
    ensures forall id :: id in Roots(g, keys) <==> id in keys && id in g && IsRoot(g, id)
    decreases |keys|
  {
    if keys != [] {
      RootsMembers(g, keys[1..]);
      HeadTail(keys);
    }
  }

  /** From the roots everything is reached, because parents strictly descend. */
  lemma {:induction false} ReachedFromRoots(g: Graph, order: seq<NodeId>, depth: NodeId -> nat, id: NodeId)
    requires LinksAgree(g) && Descends(g, depth) && id in g
    requires forall r | r in g && IsRoot(g, r) :: r in order
    requires forall v, c | v in order && v in g && c in Children(g, v) && c in g :: c in order
    ensures id in order
    decreases depth(id)
  {
    if !IsRoot(g, id) {
      var p := ParentIn(g, id).value;
      ReachedFromRoots(g, order, depth, p);
      assert AgreeAt(g, p, id);
    }
  }

  /** With agreeing, acyclic links every parent precedes its children. */
  lemma {:induction false} ParentsComeFirst(g: Graph, keys: seq<NodeId>, depth: NodeId -> nat)
    requires Members(keys) == g.Keys && LinksAgree(g) && Descends(g, depth)
    ensures ParentsFirst(g, NodeOrder(g, keys), {})
  {
    var roots, all := SortedIds(g, Roots(g, keys)), SortedIds(g, keys);
    RootsAreListed(g, keys);
    hide SortedIds, Roots, AgreeAt, Preorder, Reachable;
    PreorderParentsFirst(g, roots, {});
    RootsReachAll(g, roots, depth);
    var first := Preorder(g, roots, {});
    PreorderConcat(g, roots, all, {});
    NothingLeft(g, all, {} + Members(first));
    ConcatEmpty(first);
  }

  lemma {:induction false} RootsAreListed(g: Graph, keys: seq<NodeId>)
    requires Members(keys) == g.Keys
    ensures forall id | id in SortedIds(g, Roots(g, keys)) :: Reachable(g, id, {})
    ensures forall r | r in g && IsRoot(g, r) :: r in SortedIds(g, Roots(g, keys))
  {
    RootsMembers(g, keys);
    SortedIdsMembers(g, Roots(g, keys));
    forall r | r in g && IsRoot(g, r) ensures r in SortedIds(g, Roots(g, keys)) {
      assert r in Members(keys);
    }
  }

  lemma {:induction false} RootsReachAll(g: Graph, roots: seq<NodeId>, depth: NodeId -> nat)
    requires LinksAgree(g) && Descends(g, depth)
    requires forall r | r in g && IsRoot(g, r) :: r in roots
    ensures g.Keys <= Members(Preorder(g, roots, {}))
  {
    PreorderIsComplete(g, roots, {});
    hide Preorder, AgreeAt, Children;
    forall id | id in g ensures id in Preorder(g, roots, {}) {
      ReachedFromRoots(g, Preorder(g, roots, {}), depth, id);
    }
  }

  lemma {:induction false} NothingLeft(g: Graph, work: seq<NodeId>, seen: set<NodeId>)
    requires g.Keys <= seen
    ensures Preorder(g, work, seen) == []
    decreases |work|
  {
    if work != [] { NothingLeft(g, work[1..], seen); }
  }
}
