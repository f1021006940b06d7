/** Trees as linked nodes on the heap, and their construction from a graph. */
module LinkedTree {
  import opened Edges
  import opened Traverse
  import opened OutTrees
  import opened LinkedGraph

  class TreeNode {
    const Label: int
    var Parent: TreeNode?
    var Children: seq<TreeNode>

    constructor (l: int)
      ensures Label == l && Parent == null && Children == []
    {
      Label, Parent, Children := l, null, [];
    }
  }

  class Tree {
    var Root: TreeNode
    var LabelToNode: map<int, TreeNode>

    constructor (root: TreeNode, m: map<int, TreeNode>)
      ensures Root == root && LabelToNode == m
    {
      Root, LabelToNode := root, m;
    }
  }

  // The nodes are the ones the map holds for the given labels.
  ghost predicate ChildrenAt(m: map<int, TreeNode>, nodes: seq<TreeNode>, labels: seq<int>) {
    |nodes| == |labels| && forall i :: 0 <= i < |labels| ==> labels[i] in m && nodes[i] == m[labels[i]]
  }

  // The children are exactly the targets of the out-edges, in order.
  ghost predicate NodeOk(m: map<int, TreeNode>, edges: seq<Edge>, l: int)
    requires l in m
    reads m[l]
  {
    m[l].Label == l && ChildrenAt(m, m[l].Children, Outs(edges, l))
  }

  // The parent is a node with an edge to this one, if the map holds any.
  ghost predicate ParentOk(m: map<int, TreeNode>, edges: seq<Edge>, c: int)
    requires c in m
    reads m[c]
  {
    var p := m[c].Parent;
    && (p != null ==> p.Label in m && m[p.Label] == p && Edge(p.Label, c) in edges)
    && (p == null ==> forall q :: q in m ==> Edge(q, c) !in edges)
  }

  ghost predicate Nodes(m: map<int, TreeNode>, edges: seq<Edge>)
    reads m.Values
  {
    forall l :: l in m ==> NodeOk(m, edges, l) && ParentOk(m, edges, l)
  }

  // Parent and child links agree: the parent is the source of the one in-edge.
  ghost predicate ParentIsSource(m: map<int, TreeNode>, edges: seq<Edge>, c: int)
    requires c in m
    reads m[c]
  {
    if Ins(edges, c) == [] then m[c].Parent == null
    else Ins(edges, c)[0] in m && m[c].Parent == m[Ins(edges, c)[0]]
  }

  // The tree has the graph's nodes, edges and child order.
  ghost predicate IsTreeOf(tree: Tree, edges: seq<Edge>)
    reads tree, tree.LabelToNode.Values
  {
    var m := tree.LabelToNode;
    && m.Keys == Endpoints(edges)
    && RootedAt(edges, tree.Root.Label)
    && m[tree.Root.Label] == tree.Root
    && forall l :: l in m ==> NodeOk(m, edges, l) && ParentIsSource(m, edges, l)
  }

  // ------------------------------------------------------------ one more node

  lemma GrownNode(m: map<int, TreeNode>, m': map<int, TreeNode>, edges: seq<Edge>, l: int, k: int)
    requires k in m && l !in m && m'.Keys == m.Keys + {l}
    requires forall c :: c in m ==> m'[c] == m[c]
    requires NodeOk(m, edges, k)
    ensures NodeOk(m', edges, k)
  {
    var outs := Outs(edges, k);
    forall i | 0 <= i < |outs| ensures outs[i] in m' && m'[k].Children[i] == m'[outs[i]] {
      var c := outs[i];
      assert c in m && m[k].Children[i] == m[c];
      assert m'[c] == m[c];
    }
  }

  // No node made before l has an edge to l, and l has none to itself.
  lemma NoEarlierParent(m: map<int, TreeNode>, edges: seq<Edge>, l: int)
    requires forall k :: k in m ==> NodeOk(m, edges, k)
    requires l !in m && forall v :: v in Outs(edges, l) ==> v in m
    ensures forall q :: q in m || q == l ==> Edge(q, l) !in edges
  {
    forall q | q in m || q == l ensures Edge(q, l) !in edges {
      OutsAreEdges(edges, q, l);
    }
  }

  /** Makes the tree node for label l out of the nodes made before it, and makes
      it the parent of its children. Fails at a child that was not made yet. */
  method MakeNode(m: map<int, TreeNode>, l: int, outs: seq<int>) returns (treeNode: TreeNode, ok: bool)
    requires forall k :: k in m ==> m[k].Label == k
    modifies m.Values`Parent
    ensures ok <==> forall v :: v in outs ==> v in m
    ensures fresh(treeNode) && treeNode.Label == l && treeNode.Parent == null
    ensures ok ==> ChildrenAt(m, treeNode.Children, outs)
    ensures ok ==> forall c :: c in m ==> m[c].Parent == if c in outs then treeNode else old(m[c].Parent)
  {
    treeNode := new TreeNode(l);
    ok := true;
    for i := 0 to |outs|
      invariant ok && fresh(treeNode) && treeNode.Label == l && treeNode.Parent == null
      invariant |treeNode.Children| == i && ChildrenAt(m, treeNode.Children, outs[..i])
      invariant forall v :: v in outs[..i] ==> v in m
      invariant forall c :: c in m && c in outs[..i] ==> m[c].Parent == treeNode
      invariant forall c :: c in m && c !in outs[..i] ==> m[c].Parent == old(m[c].Parent)
    {
      var child := outs[i];
      assert child in outs;
      assert outs[..i + 1] == outs[..i] + [child];
      if child !in m {
        ok := false;
        return;
      }
      var childTreeNode := m[child];
      treeNode.Children := treeNode.Children + [childTreeNode];
      childTreeNode.Parent := treeNode;
      assert forall c :: c in m ==> (m[c] == childTreeNode <==> c == child);
      assert forall c :: c in outs[..i + 1] <==> c in outs[..i] || c == child;
    }
    assert outs[..|outs|] == outs;
  }

  // The nodes made so far, with one more that was made by MakeNode.
  lemma NodesGrow(m: map<int, TreeNode>, edges: seq<Edge>, l: int, n: TreeNode)
    requires l !in m
    requires n.Label == l && n.Parent == null && ChildrenAt(m, n.Children, Outs(edges, l))
    requires forall k :: k in m ==> NodeOk(m, edges, k)
    requires forall c :: c in m && c !in Outs(edges, l) ==> ParentOk(m, edges, c)
    requires forall c :: c in m && c in Outs(edges, l) ==> m[c].Parent == n
    ensures Nodes(m[l := n], edges)
  {
    var m' := m[l := n];
    var outs := Outs(edges, l);
    assert forall v :: v in outs ==> v in m;
    NoEarlierParent(m, edges, l);
    forall k | k in m' ensures NodeOk(m', edges, k) && ParentOk(m', edges, k) {
      if k != l {
        GrownNode(m, m', edges, l, k);
        OutsAreEdges(edges, l, k);
      }
    }
  }

  method AddNode(m: map<int, TreeNode>, l: int, outs: seq<int>, ghost edges: seq<Edge>)
    returns (m': map<int, TreeNode>, ok: bool)
    requires Nodes(m, edges) && l !in m && outs == Outs(edges, l)
    modifies m.Values`Parent
    ensures ok <==> forall v :: v in outs ==> v in m
    ensures ok ==> Nodes(m', edges) && m'.Keys == m.Keys + {l}
    ensures ok ==> fresh(m'.Values - m.Values)
  {
    var treeNode;
    assert forall k :: k in m ==> NodeOk(m, edges, k);
    treeNode, ok := MakeNode(m, l, outs);
    m' := m;
    if ok {
      forall k | k in m ensures NodeOk(m, edges, k) {
        assert old(NodeOk(m, edges, k));
      }
      forall c | c in m && c !in outs ensures ParentOk(m, edges, c) {
        assert old(ParentOk(m, edges, c));
      }
      NodesGrow(m, edges, l, treeNode);
      m' := m[l := treeNode];
    }
  }

  // -------------------------------------------------------------- the source

  ghost predicate NoInEdges(edges: seq<Edge>, v: int) {
    v in Endpoints(edges) && Ins(edges, v) == []
  }

  lemma TwoSources(edges: seq<Edge>, v: int, w: int)
    requires NoInEdges(edges, v) && NoInEdges(edges, w) && v != w
    ensures !IsOutTree(edges)
  {
    forall root ensures !RootedAt(edges, root) {
      assert v != root || w != root;
    }
  }

  // Among the labels looked at, that of the source is the only one without in-edges.
  ghost predicate OnlySource(edges: seq<Edge>, todo: set<int>, source: GraphNode?) {
    && (source != null ==> NoInEdges(edges, source.Label) && source.Label !in todo)
    && (forall v :: NoInEdges(edges, v) && v !in todo ==> source != null && v == source.Label)
  }

  lemma OnlySourceStep(edges: seq<Edge>, todo: set<int>, source: GraphNode?, node: GraphNode)
    requires OnlySource(edges, todo, source) && node.Label in todo
    ensures !NoInEdges(edges, node.Label) ==> OnlySource(edges, todo - {node.Label}, source)
    ensures NoInEdges(edges, node.Label) && source == null ==> OnlySource(edges, todo - {node.Label}, node)
    ensures NoInEdges(edges, node.Label) && source != null ==> !IsOutTree(edges)
  {
    if NoInEdges(edges, node.Label) && source != null {
      TwoSources(edges, source.Label, node.Label);
    }
  }

  // The one node without in-edges, or null if there is none or more than one.
  method FindSource(graph: Graph, ghost edges: seq<Edge>) returns (source: GraphNode?)
    requires graph.Represents(edges)
    ensures source == null ==> !IsOutTree(edges)
    ensures source != null ==> OneSource(edges, source.Label)
    ensures source != null ==> source.Label in graph.LabelToNode && graph.LabelToNode[source.Label] == source
  {
    source := null;
    var todo := graph.LabelToNode.Keys;
    while todo != {}
      invariant todo <= graph.LabelToNode.Keys
      invariant source != null ==> source.Label in graph.LabelToNode && graph.LabelToNode[source.Label] == source
      invariant OnlySource(edges, todo, source)
    {
      var l :| l in todo;
      var node := graph.LabelToNode[l];
      assert NodeLinked(graph.LabelToNode, edges, l);
      OnlySourceStep(edges, todo, source, node);
      todo := todo - {l};
      if |node.InNodes| > 0 {
        continue;
      }
      if source != null {
        return null;
      }
      source := node;
    }
    NoSource(edges, source);
  }

  lemma NoSource(edges: seq<Edge>, source: GraphNode?)
    requires OnlySource(edges, {}, source)
    ensures source == null ==> !IsOutTree(edges)
    ensures source != null ==> OneSource(edges, source.Label)
  {
    assert forall v :: v in Endpoints(edges) && Ins(edges, v) == [] ==> NoInEdges(edges, v);
  }

  // ---------------------------------------------------------------- the method

  // Everything listed from position i on has been made.
  ghost predicate Made(m: map<int, TreeNode>, edges: seq<Edge>, order: seq<int>, i: nat)
    requires i <= |order|
    reads m.Values
  {
    m.Keys == Elements(order[i..]) && Nodes(m, edges)
  }

  lemma {:induction false} ListedLater(E: set<Edge>, order: seq<int>, i: nat, v: int)
    requires Forward(E, order) && i < |order| && v in order && Edge(order[i], v) in E
    ensures v in order[i + 1..]
  {
    var j := Position(order, v);
    assert Edge(order[i], order[j]) in E;
    assert order[i + 1..][j - i - 1] == v;
  }

  // A child that is not listed later rules out an out-tree.
  lemma {:induction false} BackwardEdge(edges: seq<Edge>, root: int, order: seq<int>, i: nat, v: int)
    requires OneSource(edges, root) && Closed(AdjacencyOf(edges))
    requires order == Dfs(AdjacencyOf(edges), root, PRE_ORDER) && i < |order|
    requires v in Outs(edges, order[i]) && v !in order[i + 1..]
    ensures !IsOutTree(edges)
  {
    if IsOutTree(edges) {
      var r :| RootedAt(edges, r);
      assert NoInEdges(edges, r) && r == root;
      PreOrderGoesForward(edges, root);
      PreOrderListsAll(edges, root);
      OutsAreEdges(edges, order[i], v);
      assert Edge(order[i], v) in edges;
      assert v in Endpoints(edges);
      assert v in Elements(order);
      ListedLater(Elements(edges), order, i, v);
    }
  }

  // The count of edges decides the last case.
  lemma {:induction false} CountDecides(edges: seq<Edge>, root: int, order: seq<int>)
    requires OneSource(edges, root)
    requires forall v :: v in Endpoints(edges) ==> Reaches(Elements(edges), root, v)
    requires Distinct(order) && Elements(order) == Endpoints(edges)
    ensures |order| == TotalOuts(edges, order) + 1 <==> IsOutTree(edges)
    ensures IsOutTree(edges) ==> RootedAt(edges, root)
  {
    DistinctSize(order);
    forall e | e in edges ensures e.from in order {
      assert e.from in Elements(order);
    }
    TotalOutsIsSize(edges, order);
    EdgeCount(edges, root);
    if IsOutTree(edges) {
      var r :| RootedAt(edges, r);
      assert NoInEdges(edges, r) && r == root;
    }
    if |order| == |edges| + 1 {
      assert RootedAt(edges, root);
    }
  }

  lemma ParentsFinal(m: map<int, TreeNode>, edges: seq<Edge>, c: int)
    requires m.Keys == Endpoints(edges) && c in m && ParentOk(m, edges, c)
    requires |Ins(edges, c)| <= 1
    requires forall k :: k in m ==> m[k].Label == k
    ensures ParentIsSource(m, edges, c)
  {
    var ins := Ins(edges, c);
    if ins != [] {
      InsAreEdges(edges, ins[0], c);
    }
    if m[c].Parent != null {
      InsAreEdges(edges, m[c].Parent.Label, c);
    }
  }

  // One round of the loop, apart from the heap.
  lemma MakeStep(edges: seq<Edge>, root: int, order: seq<int>, i: nat, made: set<int>)
    requires OneSource(edges, root) && Closed(AdjacencyOf(edges))
    requires order == Dfs(AdjacencyOf(edges), root, PRE_ORDER)
    requires Distinct(order) && Elements(order) == Endpoints(edges)
    requires i < |order| && made == Elements(order[i + 1..])
    ensures order[i] in Endpoints(edges) && order[i] !in made && made + {order[i]} == Elements(order[i..])
    ensures TotalOuts(edges, order[i..]) == |Outs(edges, order[i])| + TotalOuts(edges, order[i + 1..])
    ensures (exists v :: v in Outs(edges, order[i]) && v !in made) ==> !IsOutTree(edges)
  {
    assert order[i] in Elements(order);
    SuffixStep(order, i);
    TotalOutsAppend(edges, order[i + 1..], order[i]);
    if v :| v in Outs(edges, order[i]) && v !in made {
      BackwardEdge(edges, root, order, i, v);
    }
  }

  // One round of the loop.
  method MakeRound(adj: Adjacency, traversal: seq<int>, i: nat, m: map<int, TreeNode>, ghost edges: seq<Edge>, ghost root: int)
    returns (m': map<int, TreeNode>, numOut: nat, ok: bool)
    requires OneSource(edges, root) && Closed(adj) && adj == AdjacencyOf(edges)
    requires traversal == Dfs(adj, root, PRE_ORDER)
    requires Distinct(traversal) && Elements(traversal) == Endpoints(edges)
    requires i < |traversal| && Made(m, edges, traversal, i + 1)
    modifies m.Values`Parent
    ensures ok ==> Made(m', edges, traversal, i) && fresh(m'.Values - m.Values)
    ensures TotalOuts(edges, traversal[i..]) == numOut + TotalOuts(edges, traversal[i + 1..])
    ensures !ok ==> !IsOutTree(edges)
  {
    var l := traversal[i];
    MakeStep(edges, root, traversal, i, m.Keys);
    numOut := |adj[l]|;
    m', ok := AddNode(m, l, adj[l], edges);
  }

  // The loop over the traversal, from its end.
  method MakeNodes(adj: Adjacency, traversal: seq<int>, ghost edges: seq<Edge>, ghost root: int)
    returns (m: map<int, TreeNode>, numEdges: nat, ok: bool)
    requires OneSource(edges, root) && Closed(adj) && adj == AdjacencyOf(edges)
    requires traversal == Dfs(adj, root, PRE_ORDER)
    requires Distinct(traversal) && Elements(traversal) == Endpoints(edges)
    ensures ok ==> fresh(m.Values) && Made(m, edges, traversal, 0) && numEdges == TotalOuts(edges, traversal)
    ensures !ok ==> !IsOutTree(edges)
  {
    m, numEdges, ok := map[], 0, true;
    var i := |traversal|;
    while i > 0
      invariant 0 <= i <= |traversal|
      invariant ok && fresh(m.Values)
      invariant Made(m, edges, traversal, i)
      invariant numEdges == TotalOuts(edges, traversal[i..])
    {
      i := i - 1;
      var numOut;
      m, numOut, ok := MakeRound(adj, traversal, i, m, edges, root);
      if !ok {
        return;
      }
      numEdges := numEdges + numOut;
    }
    assert traversal[0..] == traversal;
  }

  lemma SuffixStep(s: seq<int>, i: nat)
    requires Distinct(s) && i < |s|
    ensures s[i..] == [s[i]] + s[i + 1..]
    ensures s[i] !in s[i + 1..]
    ensures Elements(s[i..]) == Elements(s[i + 1..]) + {s[i]}
  {
  }

  /** Converts the graph to a tree. The conversion succeeds if and only if the
      graph is a rooted out-tree, and then the tree is the same tree. */
  method NewTreeFromGraph(graph: Graph, ghost edges: seq<Edge>) returns (tree: Tree?, ok: bool)
    requires graph.Represents(edges)
    ensures ok <==> IsOutTree(edges)
    ensures ok <==> tree != null
    ensures ok ==> fresh(tree) && fresh(tree.LabelToNode.Values) && IsTreeOf(tree, edges)
  {
    var source := FindSource(graph, edges);
    if source == null {
      return null, false;
    }
    ViewIsAdjacency(graph, edges);
    AdjacencyOfEdges(edges);
    PreOrderListsAll(edges, source.Label);
    var adj := View(graph.LabelToNode);
    var traversal := DepthFirstTraverse(adj, source.Label, PRE_ORDER);
    if |traversal| != |graph.LabelToNode| {
      Unreached(edges, source.Label);
      return null, false;
    }
    var m, numEdges;
    m, numEdges, ok := MakeNodes(adj, traversal, edges, source.Label);
    if !ok {
      return null, false;
    }
    CountDecides(edges, source.Label, traversal);
    if |traversal| != numEdges + 1 {
      return null, false;
    }
    AllParentsFinal(m, edges, source.Label);
    tree := new Tree(m[source.Label], m);
  }

  lemma Unreached(edges: seq<Edge>, source: int)
    requires OneSource(edges, source)
    requires !forall v :: v in Endpoints(edges) ==> Reaches(Elements(edges), source, v)
    ensures !IsOutTree(edges)
  {
    forall root ensures !RootedAt(edges, root) {
      assert root == source || !NoInEdges(edges, root);
    }
  }

  lemma AllParentsFinal(m: map<int, TreeNode>, edges: seq<Edge>, root: int)
    requires RootedAt(edges, root) && Nodes(m, edges) && m.Keys == Endpoints(edges)
    ensures forall l :: l in m ==> NodeOk(m, edges, l) && ParentIsSource(m, edges, l)
  {
    forall l | l in m ensures ParentIsSource(m, edges, l) {
      assert forall k :: k in m ==> NodeOk(m, edges, k);
      ParentsFinal(m, edges, l);
    }
  }
}
