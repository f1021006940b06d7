/** From a set of edges to the stops of a service map. */
module BuildMap {
  import opened Edges
  import opened LinkedGraph
  import Sorting = SortBasic

  function EndpointSet(E: set<Edge>): set<int> {
    (set e | e in E :: e.from) + (set e | e in E :: e.to)
  }

  lemma SameEndpoints(edges: seq<Edge>, E: set<Edge>)
    requires Elements(edges) == E
    ensures Endpoints(edges) == EndpointSet(E)
  {
    assert forall e :: e in edges <==> e in E;
  }

  /** Whether it works out and which stops it lists depends on the set alone: the map
      lists every endpoint once, the source of each edge before its target, and there
      is no map exactly when the edges have a cycle. The edges are taken from the set
      in any order, as a range over a Go map does. */
  method BuildMap(edgesSet: set<Edge>) returns (stopPks: seq<int>, ok: bool)
    ensures ok <==> !HasCycle(edgesSet)
    ensures ok ==> IsTopologicalOrder(EndpointSet(edgesSet), edgesSet, stopPks)
    ensures !ok ==> stopPks == []
  {
    var edges := ToSequence(edgesSet);
    SameEndpoints(edges, edgesSet);
    var g := NewGraph(edges);
    var orderedNodes;
    orderedNodes, ok := Sorting.SortBasic(g, edges);
    stopPks := [];
    if !ok {
      return;
    }
    stopPks := CollectLabels(orderedNodes);
  }

  method CollectLabels(orderedNodes: seq<GraphNode>) returns (stopPks: seq<int>)
    ensures stopPks == Labels(orderedNodes)
  {
    stopPks := [];
    for i := 0 to |orderedNodes|
      invariant |stopPks| == i
      invariant forall k :: 0 <= k < i ==> stopPks[k] == orderedNodes[k].Label
    {
      stopPks := stopPks + [orderedNodes[i].Label];
    }
  }

  method ToSequence(edgesSet: set<Edge>) returns (edges: seq<Edge>)
    ensures Elements(edges) == edgesSet && Distinct(edges)
  {
    edges := [];
    var left := edgesSet;
    while left != {}
      invariant Elements(edges) + left == edgesSet && Elements(edges) !! left && Distinct(edges)
      decreases left
    {
      var edge :| edge in left;
      assert edge !in Elements(edges);
      left := left - {edge};
      ElementsSnoc(edges, edge);
      edges := edges + [edge];
    }
  }
}
