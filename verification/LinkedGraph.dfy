/** Graphs and trees as linked nodes on the heap. */
module LinkedGraph {
  import opened Edges
  import opened Traverse
  import opened OutTrees

  class GraphNode {
    const Label: int
    var InNodes: seq<GraphNode>
    var OutNodes: seq<GraphNode>

    constructor (l: int)
      ensures Label == l && InNodes == [] && OutNodes == []
    {
      Label, InNodes, OutNodes := l, [], [];
    }
  }

  // The nodes are the ones the map holds for the given labels.
  ghost predicate At(m: map<int, GraphNode>, nodes: seq<GraphNode>, labels: seq<int>) {
    |nodes| == |labels| && forall i :: 0 <= i < |labels| ==> labels[i] in m && nodes[i] == m[labels[i]]
  }

  // One node's links are exactly the edges at its label, in order.
  ghost predicate NodeLinked(m: map<int, GraphNode>, edges: seq<Edge>, l: int)
    requires l in m
    reads m[l]
  {
    && m[l].Label == l
    && At(m, m[l].OutNodes, Outs(edges, l))
    && At(m, m[l].InNodes, Ins(edges, l))
  }

  ghost predicate Linked(m: map<int, GraphNode>, edges: seq<Edge>)
    reads m.Values
  {
    forall l :: l in m ==> NodeLinked(m, edges, l)
  }

  class Graph {
    var LabelToNode: map<int, GraphNode>

    constructor ()
      ensures LabelToNode == map[]
    {
      LabelToNode := map[];
    }

    // The graph has a node for every endpoint and exactly the given edges.
    ghost predicate Represents(edges: seq<Edge>)
      reads this, LabelToNode.Values
    {
      LabelToNode.Keys == Endpoints(edges) && Linked(LabelToNode, edges)
    }
  }

  lemma AtGrows(m: map<int, GraphNode>, m': map<int, GraphNode>, nodes: seq<GraphNode>, labels: seq<int>)
    requires At(m, nodes, labels)
    requires forall l :: l in m ==> l in m' && m'[l] == m[l]
    ensures At(m', nodes, labels)
  {
    forall i | 0 <= i < |labels| ensures labels[i] in m' && nodes[i] == m'[labels[i]] {
      var l := labels[i];
      assert l in m;
      assert l in m';
    }
  }

  lemma LinksOfPrefix(edges: seq<Edge>, i: nat, l: int)
    requires i < |edges|
    ensures Outs(edges[..i + 1], l) == Outs(edges[..i], l) + if edges[i].from == l then [edges[i].to] else []
    ensures Ins(edges[..i + 1], l) == Ins(edges[..i], l) + if edges[i].to == l then [edges[i].from] else []
  {
    assert edges[..i + 1][..i] == edges[..i];
  }

  lemma {:induction false} NoLinks(edges: seq<Edge>, l: int)
    requires l !in Endpoints(edges)
    ensures Outs(edges, l) == [] && Ins(edges, l) == []
  {
    if edges != [] {
      assert edges[|edges| - 1] in edges;
      assert Endpoints(edges[..|edges| - 1]) <= Endpoints(edges);
      NoLinks(edges[..|edges| - 1], l);
    }
  }

  // A label's entry, created without links if there is none yet.
  method EnsureNode(g: Graph, l: int, ghost edges: seq<Edge>)
    requires Linked(g.LabelToNode, edges)
    requires l !in g.LabelToNode ==> l !in Endpoints(edges)
    modifies g
    ensures Linked(g.LabelToNode, edges) && g.LabelToNode.Keys == old(g.LabelToNode).Keys + {l}
    ensures forall k :: k in old(g.LabelToNode) ==> g.LabelToNode[k] == old(g.LabelToNode)[k]
    ensures l in old(g.LabelToNode) || fresh(g.LabelToNode[l])
  {
    ghost var m := g.LabelToNode;
    if l !in g.LabelToNode {
      var n := new GraphNode(l);
      g.LabelToNode := g.LabelToNode[l := n];
      NoLinks(edges, l);
      forall k | k in m ensures NodeLinked(g.LabelToNode, edges, k) {
        assert NodeLinked(m, edges, k);
        AtGrows(m, g.LabelToNode, m[k].OutNodes, Outs(edges, k));
        AtGrows(m, g.LabelToNode, m[k].InNodes, Ins(edges, k));
      }
    }
  }

  // Adding one edge to both of its nodes.
  method Link(source: GraphNode, target: GraphNode, ghost m: map<int, GraphNode>, ghost edges: seq<Edge>, ghost i: nat)
    requires i < |edges| && edges[i].from in m && edges[i].to in m
    requires source == m[edges[i].from] && target == m[edges[i].to]
    requires Linked(m, edges[..i])
    modifies source`OutNodes, target`InNodes
    ensures Linked(m, edges[..i + 1])
  {
    ghost var edge := edges[i];
    assert NodeLinked(m, edges[..i], edge.from) && NodeLinked(m, edges[..i], edge.to);
    source.OutNodes := source.OutNodes + [target];
    target.InNodes := target.InNodes + [source];
    forall l | l in m ensures NodeLinked(m, edges[..i + 1], l) {
      LinksOfPrefix(edges, i, l);
      assert old(NodeLinked(m, edges[..i], l));
      assert m[l] == source <==> l == edge.from;
      assert m[l] == target <==> l == edge.to;
      assert At(m, m[l].OutNodes, Outs(edges[..i + 1], l));
      assert At(m, m[l].InNodes, Ins(edges[..i + 1], l));
    }
  }

  // The entries of both ends of an edge.
  method EnsureNodes(g: Graph, from: int, to: int, ghost edges: seq<Edge>)
    requires g.Represents(edges)
    modifies g
    ensures Linked(g.LabelToNode, edges) && g.LabelToNode.Keys == Endpoints(edges) + {from, to}
    ensures forall k :: k in old(g.LabelToNode) ==> k in g.LabelToNode && g.LabelToNode[k] == old(g.LabelToNode)[k]
    ensures forall k :: k in g.LabelToNode ==> k in old(g.LabelToNode) || fresh(g.LabelToNode[k])
  {
    EnsureNode(g, from, edges);
    EnsureNode(g, to, edges);
  }

  // One round of NewGraph's loop.
  method AddEdge(g: Graph, edge: Edge, ghost edges: seq<Edge>, ghost i: nat)
    requires i < |edges| && edge == edges[i]
    requires g.Represents(edges[..i])
    modifies g, g.LabelToNode.Values
    ensures g.Represents(edges[..i + 1])
    ensures forall k :: k in old(g.LabelToNode) ==> k in g.LabelToNode && g.LabelToNode[k] == old(g.LabelToNode)[k]
    ensures forall k :: k in g.LabelToNode ==> k in old(g.LabelToNode) || fresh(g.LabelToNode[k])
  {
    EndpointsOfPrefix(edges, i);
    EnsureNodes(g, edge.from, edge.to, edges[..i]);
    Link(g.LabelToNode[edge.from], g.LabelToNode[edge.to], g.LabelToNode, edges, i);
  }

  method NewGraph(edges: seq<Edge>) returns (g: Graph)
    ensures fresh(g) && fresh(g.LabelToNode.Values)
    ensures g.Represents(edges)
  {
    g := new Graph();
    for i := 0 to |edges|
      invariant fresh(g) && fresh(g.LabelToNode.Values)
      invariant g.Represents(edges[..i])
    {
      AddEdge(g, edges[i], edges, i);
      assert forall k :: k in g.LabelToNode ==> fresh(g.LabelToNode[k]);
    }
    assert edges[..|edges|] == edges;
  }

  // --------------------------------------------------------- the Node interface

  function Labels(nodes: seq<GraphNode>): (r: seq<int>)
    ensures |r| == |nodes|
    ensures forall i :: 0 <= i < |r| ==> r[i] == nodes[i].Label
  {
    seq(|nodes|, i requires 0 <= i < |nodes| => nodes[i].Label)
  }

  lemma LinkedLabels(m: map<int, GraphNode>, nodes: seq<GraphNode>, labels: seq<int>)
    requires At(m, nodes, labels)
    requires forall k :: k in m ==> m[k].Label == k
    ensures Labels(nodes) == labels
  {
    forall i | 0 <= i < |labels| ensures Labels(nodes)[i] == labels[i] {
      assert labels[i] in m;
    }
  }

  // What a traversal sees of the graph.
  function View(m: map<int, GraphNode>): Adjacency
    reads m.Values
  {
    map l | l in m :: Labels(m[l].OutNodes)
  }

  lemma ViewIsAdjacency(g: Graph, edges: seq<Edge>)
    requires g.Represents(edges)
    ensures View(g.LabelToNode) == AdjacencyOf(edges)
  {
    var m := g.LabelToNode;
    forall l | l in m ensures Labels(m[l].OutNodes) == Outs(edges, l) {
      assert NodeLinked(m, edges, l);
      assert forall k :: k in m ==> NodeLinked(m, edges, k);
      LinkedLabels(m, m[l].OutNodes, Outs(edges, l));
    }
  }
}
