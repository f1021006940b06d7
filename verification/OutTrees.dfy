/** Rooted out-trees among edge lists: what they are, how counting edges detects
    them, and the tree value each of them draws. */
module OutTrees {
  import opened Collections
  import opened Edges
  import opened Trees
  import opened Traverse

  // Nothing leads to the root, it reaches everything, and every other label has
  // exactly one in-edge.
  ghost predicate RootedAt(edges: seq<Edge>, root: int) {
    && root in Endpoints(edges)
    && Ins(edges, root) == []
    && forall v :: v in Endpoints(edges) ==>
         Reaches(Elements(edges), root, v) && (v != root ==> |Ins(edges, v)| == 1)
  }

  ghost predicate IsOutTree(edges: seq<Edge>) {
    exists root :: RootedAt(edges, root)
  }

  // The adjacency of a graph with the given edges.
  ghost function AdjacencyOf(edges: seq<Edge>): Adjacency {
    map l | l in Endpoints(edges) :: Outs(edges, l)
  }

  lemma {:induction false} AdjacencyOfEdges(edges: seq<Edge>)
    ensures Closed(AdjacencyOf(edges))
    ensures EdgeSet(AdjacencyOf(edges)) == Elements(edges)
  {
    forall u, v | u in Endpoints(edges) && v in Outs(edges, u) ensures v in Endpoints(edges) && Edge(u, v) in edges {
      OutsAreEdges(edges, u, v);
    }
    forall e ensures e in EdgeSet(AdjacencyOf(edges)) <==> e in Elements(edges) {
      OutsAreEdges(edges, e.from, e.to);
    }
  }

  // ------------------------------------------------------------ counting edges

  function Targets(edges: seq<Edge>): (r: seq<int>)
    ensures |r| == |edges|
    ensures forall i :: 0 <= i < |r| ==> r[i] == edges[i].to
  {
    seq(|edges|, i requires 0 <= i < |edges| => edges[i].to)
  }

  function TotalOuts(edges: seq<Edge>, labels: seq<int>): nat {
    if labels == [] then 0 else |Outs(edges, labels[0])| + TotalOuts(edges, labels[1..])
  }

  lemma {:induction false} TotalOutsAppend(edges: seq<Edge>, a: seq<int>, x: int)
    ensures TotalOuts(edges, [x] + a) == |Outs(edges, x)| + TotalOuts(edges, a)
  {
    assert ([x] + a)[1..] == a;
  }

  lemma {:induction false} TotalOutsLast(edges: seq<Edge>, labels: seq<int>)
    requires edges != [] && Distinct(labels)
    ensures TotalOuts(edges, labels)
      == TotalOuts(edges[..|edges| - 1], labels) + if edges[|edges| - 1].from in labels then 1 else 0
  {
    if labels != [] {
      assert labels == [labels[0]] + labels[1..];
      TotalOutsLast(edges, labels[1..]);
    }
  }

  // Summing the out-degrees over all sources counts every edge once.
  lemma {:induction false} TotalOutsIsSize(edges: seq<Edge>, labels: seq<int>)
    requires Distinct(labels)
    requires forall e :: e in edges ==> e.from in labels
    ensures TotalOuts(edges, labels) == |edges|
  {
    if edges == [] {
      NoOuts(labels);
    } else {
      assert edges[|edges| - 1] in edges;
      TotalOutsLast(edges, labels);
      TotalOutsIsSize(edges[..|edges| - 1], labels);
    }
  }

  lemma {:induction false} NoOuts(labels: seq<int>)
    ensures TotalOuts([], labels) == 0
  {
    if labels != [] {
      NoOuts(labels[1..]);
    }
  }

  lemma {:induction false} InsSize(edges: seq<Edge>, v: int)
    ensures |Ins(edges, v)| == multiset(Targets(edges))[v]
  {
    if edges == [] {
    } else {
      var rest, e := edges[..|edges| - 1], edges[|edges| - 1];
      InsSize(rest, v);
      assert Targets(edges) == Targets(rest) + [e.to];
    }
  }

  lemma {:induction false} TargetsAreReached(edges: seq<Edge>, root: int)
    requires root in Endpoints(edges)
    requires forall v :: v in Endpoints(edges) ==> (Ins(edges, v) == [] <==> v == root)
    ensures Elements(Targets(edges)) == Endpoints(edges) - {root}
  {
    forall v ensures v in Targets(edges) <==> v in Endpoints(edges) && v != root {
      InsSize(edges, v);
      assert v in Targets(edges) <==> v in multiset(Targets(edges));
      if v in Targets(edges) {
        var i :| 0 <= i < |edges| && Targets(edges)[i] == v;
        assert edges[i] in edges;
      }
    }
  }

  // With one source, there is one edge less than nodes just when no node has
  // two in-edges.
  lemma {:induction false} EdgeCount(edges: seq<Edge>, root: int)
    requires root in Endpoints(edges)
    requires forall v :: v in Endpoints(edges) ==> (Ins(edges, v) == [] <==> v == root)
    ensures |Endpoints(edges)| == |edges| + 1
      <==> forall v :: v in Endpoints(edges) && v != root ==> |Ins(edges, v)| == 1
  {
    TargetsAreReached(edges, root);
    var ts := Targets(edges);
    assert |Endpoints(edges)| == |Endpoints(edges) - {root}| + 1;
    ElementsSize(ts);
    DistinctIsMultiset(ts);
    forall v ensures |Ins(edges, v)| == multiset(ts)[v] {
      InsSize(edges, v);
    }
    if forall v :: v in Endpoints(edges) && v != root ==> |Ins(edges, v)| == 1 {
      forall v ensures multiset(ts)[v] <= 1 {
        assert v in ts <==> v in multiset(ts);
        assert v in ts <==> v in Elements(ts);
      }
      DistinctSize(ts);
    } else {
      var v :| v in Endpoints(edges) && v != root && |Ins(edges, v)| != 1;
      assert Ins(edges, v) != [];
      assert multiset(ts)[v] > 1;
    }
  }

  // ------------------------------------------------------- edges go forward

  ghost predicate OneSource(edges: seq<Edge>, root: int) {
    && root in Endpoints(edges)
    && forall v :: v in Endpoints(edges) ==> (Ins(edges, v) == [] <==> v == root)
  }

  lemma {:induction false} SingletonIns(edges: seq<Edge>, u: int, w: int, v: int)
    requires |Ins(edges, v)| == 1 && Edge(u, v) in edges && Edge(w, v) in edges
    ensures u == w
  {
    InsAreEdges(edges, u, v);
    InsAreEdges(edges, w, v);
  }

  // In an out-tree every edge goes forward in pre-order.
  lemma {:induction false} PreOrderGoesForward(edges: seq<Edge>, root: int)
    requires RootedAt(edges, root)
    ensures Closed(AdjacencyOf(edges))
    ensures Forward(Elements(edges), Dfs(AdjacencyOf(edges), root, PRE_ORDER))
  {
    var adj, E := AdjacencyOf(edges), Elements(edges);
    AdjacencyOfEdges(edges);
    var r := Dfs(adj, root, PRE_ORDER);
    DfsIsReachability(adj, root, PRE_ORDER);
    forall i, k | 0 <= i < |r| && 0 <= k < |r| && Edge(r[i], r[k]) in E ensures i < k {
      InsAreEdges(edges, r[i], r[k]);
      assert r[k] != root;
      PreOrderSourcesFirst(adj, root, k);
      var j :| 0 <= j < k && Edge(r[j], r[k]) in E;
      assert r[k] in r && r[k] in adj;
      SingletonIns(edges, r[i], r[j], r[k]);
    }
  }

  lemma {:induction false} PreOrderListsAll(edges: seq<Edge>, root: int)
    requires root in Endpoints(edges) && Closed(AdjacencyOf(edges))
    ensures Distinct(Dfs(AdjacencyOf(edges), root, PRE_ORDER))
    ensures |Dfs(AdjacencyOf(edges), root, PRE_ORDER)| == |Endpoints(edges)|
      <==> forall v :: v in Endpoints(edges) ==> Reaches(Elements(edges), root, v)
    ensures |Dfs(AdjacencyOf(edges), root, PRE_ORDER)| == |Endpoints(edges)|
      ==> Elements(Dfs(AdjacencyOf(edges), root, PRE_ORDER)) == Endpoints(edges)
  {
    var adj := AdjacencyOf(edges);
    AdjacencyOfEdges(edges);
    DfsIsReachability(adj, root, PRE_ORDER);
    var r := Dfs(adj, root, PRE_ORDER);
    forall y | y in r ensures y in Endpoints(edges) {
      assert y in adj;
    }
    DistinctSize(r);
    SubsetSize(Elements(r), Endpoints(edges));
    if forall v :: v in Endpoints(edges) ==> Reaches(Elements(edges), root, v) {
      assert Endpoints(edges) <= Elements(r);
      assert Elements(r) == Endpoints(edges);
    }
  }

  // ------------------------------------------------------------ the tree drawn

  // Every edge goes forward in the order, which lists all endpoints, and no
  // label has two in-edges.
  ghost predicate Drawable(edges: seq<Edge>, order: seq<int>) {
    && IsTopologicalOrder(Endpoints(edges), Elements(edges), order)
    && forall v :: v in Endpoints(edges) ==> |Ins(edges, v)| <= 1
  }

  lemma {:induction false} OutIsLater(edges: seq<Edge>, order: seq<int>, i: nat, v: int)
    requires Drawable(edges, order) && i < |order| && v in Outs(edges, order[i])
    ensures v in order && i < Position(order, v)
  {
    OutsAreEdges(edges, order[i], v);
    assert v in Elements(order);
    assert Edge(order[i], order[Position(order, v)]) in Elements(edges);
  }

  // The tree below the i-th label.
  ghost function Grow(edges: seq<Edge>, order: seq<int>, i: nat): Rose
    requires Drawable(edges, order) && i < |order|
    decreases |order| - i, 1, 0
  {
    Rose(order[i], GrowAll(edges, order, i, Outs(edges, order[i])))
  }

  ghost function GrowAll(edges: seq<Edge>, order: seq<int>, i: nat, labels: seq<int>): (F: Forest)
    requires Drawable(edges, order) && i < |order|
    requires forall v :: v in labels ==> v in Outs(edges, order[i])
    ensures RootLabels(F) == labels
    decreases |order| - i, 0, |labels|
  {
    if labels == [] then [] else
      OutIsLater(edges, order, i, labels[0]);
      assert labels[0] in labels;
      [Grow(edges, order, Position(order, labels[0]))] + GrowAll(edges, order, i, labels[1..])
  }

  lemma {:induction false} GrowFits(edges: seq<Edge>, order: seq<int>, i: nat)
    requires Drawable(edges, order) && i < |order|
    ensures Fits(AdjacencyOf(edges), [Grow(edges, order, i)])
    decreases |order| - i, 1, 0
  {
    GrowAllFits(edges, order, i, Outs(edges, order[i]));
    assert order[i] in Elements(order);
    assert [Grow(edges, order, i)][1..] == [];
  }

  lemma {:induction false} GrowAllFits(edges: seq<Edge>, order: seq<int>, i: nat, labels: seq<int>)
    requires Drawable(edges, order) && i < |order|
    requires forall v :: v in labels ==> v in Outs(edges, order[i])
    ensures Fits(AdjacencyOf(edges), GrowAll(edges, order, i, labels))
    decreases |order| - i, 0, |labels|
  {
    if labels != [] {
      OutIsLater(edges, order, i, labels[0]);
      GrowFits(edges, order, Position(order, labels[0]));
      GrowAllFits(edges, order, i, labels[1..]);
    }
  }

  ghost function Below(edges: seq<Edge>, order: seq<int>, i: nat): set<int>
    requires Drawable(edges, order) && i < |order|
  {
    Elements(PreOrder([Grow(edges, order, i)]))
  }

  lemma {:induction false} BelowUnfolds(edges: seq<Edge>, order: seq<int>, i: nat)
    requires Drawable(edges, order) && i < |order|
    ensures Below(edges, order, i)
         == {order[i]} + Elements(PreOrder(GrowAll(edges, order, i, Outs(edges, order[i]))))
  {
    SingletonOrder(Grow(edges, order, i));
    ElementsConcat([order[i]], PreOrder(GrowAll(edges, order, i, Outs(edges, order[i]))));
  }

  // A label below a forest of children is below one of them.
  lemma {:induction false} GrowAllMember(edges: seq<Edge>, order: seq<int>, i: nat, labels: seq<int>, y: int)
    requires Drawable(edges, order) && i < |order|
    requires forall v :: v in labels ==> v in Outs(edges, order[i])
    ensures y in PreOrder(GrowAll(edges, order, i, labels))
      <==> exists v :: v in labels && v in order && y in Below(edges, order, Position(order, v))
  {
    if labels != [] {
      OutIsLater(edges, order, i, labels[0]);
      GrowAllMember(edges, order, i, labels[1..], y);
      SingletonOrder(Grow(edges, order, Position(order, labels[0])));
      assert labels == [labels[0]] + labels[1..];
      var G := GrowAll(edges, order, i, labels);
      assert G[0] == Grow(edges, order, Position(order, labels[0])) && G[1..] == GrowAll(edges, order, i, labels[1..]);
    }
  }

  lemma {:induction false} BelowMember(edges: seq<Edge>, order: seq<int>, i: nat, y: int)
    requires Drawable(edges, order) && i < |order|
    ensures y in Below(edges, order, i)
      <==> y == order[i] || exists v :: v in Outs(edges, order[i]) && v in order && y in Below(edges, order, Position(order, v))
  {
    BelowUnfolds(edges, order, i);
    GrowAllMember(edges, order, i, Outs(edges, order[i]), y);
  }

  // What is below the i-th label is listed from i on.
  lemma {:induction false} BelowIsLater(edges: seq<Edge>, order: seq<int>, i: nat, y: int)
    requires Drawable(edges, order) && i < |order| && y in Below(edges, order, i)
    ensures y in order && i <= Position(order, y)
    ensures y != order[i] ==> exists p :: p in Below(edges, order, i) && Edge(p, y) in edges
    decreases |order| - i
  {
    BelowMember(edges, order, i, y);
    if y != order[i] {
      var v :| v in Outs(edges, order[i]) && v in order && y in Below(edges, order, Position(order, v));
      OutIsLater(edges, order, i, v);
      BelowIsLater(edges, order, Position(order, v), y);
      BelowMember(edges, order, i, order[i]);
      if y == v {
        OutsAreEdges(edges, order[i], v);
      } else {
        var p :| p in Below(edges, order, Position(order, v)) && Edge(p, y) in edges;
        BelowMember(edges, order, i, p);
      }
    }
  }

  // Two trees that share a label are nested.
  lemma {:induction false} SharedIsNested(edges: seq<Edge>, order: seq<int>, i: nat, j: nat, y: int)
    requires Drawable(edges, order) && i < |order| && j < |order|
    requires y in Below(edges, order, i) && y in Below(edges, order, j)
    ensures order[i] in Below(edges, order, j) || order[j] in Below(edges, order, i)
    decreases if y in order then Position(order, y) else 0
  {
    if y != order[i] && y != order[j] {
      BelowIsLater(edges, order, i, y);
      BelowIsLater(edges, order, j, y);
      var p :| p in Below(edges, order, i) && Edge(p, y) in edges;
      var q :| q in Below(edges, order, j) && Edge(q, y) in edges;
      assert y in Elements(order) && |Ins(edges, y)| <= 1;
      InsAreEdges(edges, p, y);
      SingletonIns(edges, p, q, y);
      BelowIsLater(edges, order, i, p);
      assert Edge(order[Position(order, p)], order[Position(order, y)]) in Elements(edges);
      SharedIsNested(edges, order, i, j, p);
    }
  }

  // The trees of two different children of one label share nothing.
  lemma {:induction false} SiblingsAreDisjoint(edges: seq<Edge>, order: seq<int>, i: nat, v: int, w: int, y: int)
    requires Drawable(edges, order) && i < |order| && v != w
    requires v in Outs(edges, order[i]) && w in Outs(edges, order[i]) && v in order && w in order
    requires y in Below(edges, order, Position(order, v))
    ensures y !in Below(edges, order, Position(order, w))
  {
    if y in Below(edges, order, Position(order, w)) {
      SharedIsNested(edges, order, Position(order, v), Position(order, w), y);
      if v in Below(edges, order, Position(order, w)) {
        ChildNotBelowSibling(edges, order, i, v, w);
      } else {
        ChildNotBelowSibling(edges, order, i, w, v);
      }
    }
  }

  lemma {:induction false} ChildNotBelowSibling(edges: seq<Edge>, order: seq<int>, i: nat, v: int, w: int)
    requires Drawable(edges, order) && i < |order| && v != w
    requires v in Outs(edges, order[i]) && w in Outs(edges, order[i]) && w in order
    ensures v !in Below(edges, order, Position(order, w))
  {
    var k := Position(order, w);
    OutIsLater(edges, order, i, w);
    if v in Below(edges, order, k) {
      BelowIsLater(edges, order, k, v);
      var p :| p in Below(edges, order, k) && Edge(p, v) in edges;
      OutsAreEdges(edges, order[i], v);
      InsAreEdges(edges, p, v);
      assert v in Elements(order) && |Ins(edges, v)| <= 1;
      SingletonIns(edges, p, order[i], v);
      BelowIsLater(edges, order, k, p);
      assert false;
    }
  }

  lemma {:induction false} OutsAreDistinct(edges: seq<Edge>, u: int)
    requires forall v :: v in Endpoints(edges) ==> |Ins(edges, v)| <= 1
    ensures Distinct(Outs(edges, u))
    decreases |edges|
  {
    if edges != [] {
      var rest, e := edges[..|edges| - 1], edges[|edges| - 1];
      forall v | v in Endpoints(rest) ensures |Ins(rest, v)| <= 1 {
        assert v in Endpoints(edges);
      }
      OutsAreDistinct(rest, u);
      OutsAreEdges(rest, u, e.to);
      InsAreEdges(rest, u, e.to);
      assert e in edges && |Ins(edges, e.to)| == |Ins(rest, e.to)| + 1 <= 1;
    }
  }

  lemma {:induction false} GrowIsUnique(edges: seq<Edge>, order: seq<int>, i: nat)
    requires Drawable(edges, order) && i < |order|
    ensures UniqueLabels([Grow(edges, order, i)])
    decreases |order| - i, 1, 0
  {
    var outs := Outs(edges, order[i]);
    OutsAreDistinct(edges, order[i]);
    GrowAllIsUnique(edges, order, i, outs);
    SingletonOrder(Grow(edges, order, i));
    forall v | v in outs && v in order ensures order[i] !in Below(edges, order, Position(order, v)) {
      OutIsLater(edges, order, i, v);
      if order[i] in Below(edges, order, Position(order, v)) {
        BelowIsLater(edges, order, Position(order, v), order[i]);
      }
    }
    GrowAllMember(edges, order, i, outs, order[i]);
  }

  lemma {:induction false} GrowAllIsUnique(edges: seq<Edge>, order: seq<int>, i: nat, labels: seq<int>)
    requires Drawable(edges, order) && i < |order| && Distinct(labels)
    requires forall v :: v in labels ==> v in Outs(edges, order[i])
    ensures UniqueLabels(GrowAll(edges, order, i, labels))
    decreases |order| - i, 0, |labels|
  {
    if labels != [] {
      var v, rest := labels[0], labels[1..];
      OutIsLater(edges, order, i, v);
      GrowIsUnique(edges, order, Position(order, v));
      GrowAllIsUnique(edges, order, i, rest);
      var a, b := PreOrder([Grow(edges, order, Position(order, v))]), PreOrder(GrowAll(edges, order, i, rest));
      forall y | y in a ensures y !in b {
        GrowAllMember(edges, order, i, rest, y);
        forall w | w in rest && w in order ensures y !in Below(edges, order, Position(order, w)) {
          assert w != v;
          SiblingsAreDisjoint(edges, order, i, v, w, y);
        }
      }
      DistinctConcat(a, b);
      PreOrderConcat([Grow(edges, order, Position(order, v))], GrowAll(edges, order, i, rest));
    }
  }

  /** Every out-tree is the adjacency of exactly the tree value it draws: same
      root, same nodes, same children in the same order, no label twice. */
  lemma {:induction false} OutTreeHasShape(edges: seq<Edge>, root: int) returns (t: Rose)
    requires RootedAt(edges, root)
    ensures t.id == root && UniqueLabels([t])
    ensures Fits(AdjacencyOf(edges), [t])
    ensures Elements(PreOrder([t])) == Endpoints(edges)
  {
    var adj := AdjacencyOf(edges);
    AdjacencyOfEdges(edges);
    PreOrderGoesForward(edges, root);
    PreOrderListsAll(edges, root);
    var order := Dfs(adj, root, PRE_ORDER);
    assert root in Elements(order);
    PreOrderSourcesFirst(adj, root, 0);
    assert forall v :: v in Endpoints(edges) ==> |Ins(edges, v)| <= 1;
    t := Grow(edges, order, 0);
    GrowFits(edges, order, 0);
    GrowIsUnique(edges, order, 0);
    DfsOnTree(adj, t, PRE_ORDER);
  }
}
