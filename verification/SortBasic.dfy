/** The topological sort: Kahn's algorithm with a stack. */
module SortBasic {
  import opened Collections
  import opened Edges
  import opened KahnOrder
  import opened LinkedGraph
  import opened Trees

  // ------------------------------------------------------------ counting edges

  lemma {:induction false} PendingAtStart(sources: seq<int>)
    ensures Pending(sources, {}) == |sources|
  {
    if sources != [] {
      PendingAtStart(sources[..|sources| - 1]);
    }
  }

  // --------------------------------------------------------------- invariants

  // The labels that have been pushed are exactly those with no in-edge left.
  ghost predicate Pushed(numIn: map<int, int>, order: seq<int>, stack: seq<int>) {
    && Distinct(order + stack)
    && forall v :: v in numIn ==> (v in order + stack <==> numIn[v] == 0)
  }

  // Every processed label has all its sources processed before it.
  ghost predicate Prefix(edges: seq<Edge>, order: seq<int>) {
    && Forward(Elements(edges), order)
    && forall e :: e in edges && e.to in order ==> e.from in order
  }

  ghost predicate Counts(edges: seq<Edge>, numIn: map<int, int>, done: set<int>) {
    forall v :: v in numIn ==> numIn[v] == Pending(Ins(edges, v), done)
  }

  // Within the inner loop, after the first outs of u.
  ghost predicate PartCounts(edges: seq<Edge>, numIn: map<int, int>, done: set<int>, outs: seq<int>) {
    forall v :: v in numIn ==> numIn[v] == Pending(Ins(edges, v), done) - multiset(outs)[v]
  }

  lemma {:induction false} PrefixGrows(edges: seq<Edge>, order: seq<int>, u: int)
    requires Prefix(edges, order) && u !in order
    requires Pending(Ins(edges, u), Elements(order)) == 0
    ensures Prefix(edges, order + [u])
  {
    NothingPending(Ins(edges, u), Elements(order));
    var order' := order + [u];
    forall e | e in edges && e.to in order' ensures e.from in order' && (e.to == u ==> e.from in order) {
      if e.to == u {
        InsAreEdges(edges, e.from, u);
        assert e.from in Elements(order);
      }
    }
    forall i, j | 0 <= i < |order'| && 0 <= j < |order'| && Edge(order'[i], order'[j]) in Elements(edges) ensures i < j {
      var e := Edge(order'[i], order'[j]);
      assert e in edges;
      if j < |order| {
        assert e.to in order;
        assert i < |order|;
        assert Edge(order[i], order[j]) in Elements(edges);
      } else {
        assert e.from in order;
      }
    }
  }

  lemma {:induction false} Relaxable(edges: seq<Edge>, done: set<int>, u: int, outs: seq<int>, j: nat)
    requires u !in done && outs == Outs(edges, u) && j < |outs|
    ensures Pending(Ins(edges, outs[j]), done) - multiset(outs[..j])[outs[j]] > 0
  {
    var v := outs[j];
    PendingAfter(Ins(edges, v), done, u);
    SameMultiplicity(edges, u, v);
    PrefixMultiplicity(outs, j);
  }

  lemma {:induction false} AllRelaxed(edges: seq<Edge>, numIn: map<int, int>, done: set<int>, u: int)
    requires u !in done && PartCounts(edges, numIn, done, Outs(edges, u))
    ensures Counts(edges, numIn, done + {u})
  {
    forall v | v in numIn ensures numIn[v] == Pending(Ins(edges, v), done + {u}) {
      PendingAfter(Ins(edges, v), done, u);
      SameMultiplicity(edges, u, v);
    }
  }

  lemma {:induction false} FinishedAll(edges: seq<Edge>, order: seq<int>)
    requires Elements(order) <= Endpoints(edges) && Distinct(order) && Prefix(edges, order)
    requires |order| == |Endpoints(edges)|
    ensures IsTopologicalOrder(Endpoints(edges), Elements(edges), order)
    ensures !HasCycle(Elements(edges))
  {
    DistinctSize(order);
    SubsetSize(Elements(order), Endpoints(edges));
    EdgesHaveEndpoints(edges);
    OrderedIsAcyclic(Endpoints(edges), Elements(edges), order);
  }

  lemma {:induction false} FinishedEarly(edges: seq<Edge>, numIn: map<int, int>, order: seq<int>)
    requires numIn.Keys == Endpoints(edges) && Elements(order) <= Endpoints(edges) && Distinct(order)
    requires Counts(edges, numIn, Elements(order))
    requires forall v :: v in numIn ==> (v in order <==> numIn[v] == 0)
    requires |order| != |Endpoints(edges)|
    ensures HasCycle(Elements(edges))
  {
    DistinctSize(order);
    assert Elements(order) != Endpoints(edges);
    Stuck(edges, numIn, order);
  }

  lemma EdgesHaveEndpoints(edges: seq<Edge>)
    ensures forall e :: e in Elements(edges) ==> e.from in Endpoints(edges) && e.to in Endpoints(edges)
  {
  }

  /** If labels are left over, they hold a cycle among themselves. */
  lemma {:induction false} Stuck(edges: seq<Edge>, numIn: map<int, int>, order: seq<int>)
    requires numIn.Keys == Endpoints(edges) && Elements(order) < numIn.Keys
    requires Counts(edges, numIn, Elements(order))
    requires forall v :: v in numIn ==> (v in order <==> numIn[v] == 0)
    ensures exists c :: IsCycle(Elements(edges), c) && Elements(c) <= Endpoints(edges) - Elements(order)
  {
    var E, S := Elements(edges), numIn.Keys - Elements(order);
    var x :| x in numIn.Keys && x !in Elements(order);
    forall v | v in S ensures HasPredecessor(E, S, v) {
      assert v !in order;
      NothingPending(Ins(edges, v), Elements(order));
      var u :| u in Ins(edges, v) && u !in Elements(order);
      InsAreEdges(edges, u, v);
      assert Edge(u, v) in E && u in S;
    }
    NoSourceHasCycle(E, S, x);
  }

  // -------------------------------------------------------------- the methods

  method InsertLabel(r: seq<int>, x: int) returns (r': seq<int>)
    requires Ascending(r)
    ensures Ascending(r') && multiset(r') == multiset(r) + multiset{x}
  {
    var k := 0;
    while k < |r| && r[k] <= x
      invariant 0 <= k <= |r|
      invariant forall j :: 0 <= j < k ==> r[j] <= x
    {
      k := k + 1;
    }
    assert r == r[..k] + r[k..];
    r' := r[..k] + [x] + r[k..];
  }

  // The contract of sort.Slice for a comparison of labels.
  method SortLabels(s: seq<int>) returns (r: seq<int>)
    ensures multiset(r) == multiset(s)
    ensures Ascending(r)
  {
    r := [];
    for i := 0 to |s|
      invariant multiset(r) == multiset(s[..i])
      invariant Ascending(r)
    {
      assert s[..i + 1] == s[..i] + [s[i]];
      r := InsertLabel(r, s[i]);
    }
    assert s[..|s|] == s;
  }

  lemma LabelsSnoc(nodes: seq<GraphNode>, n: GraphNode)
    ensures Labels(nodes + [n]) == Labels(nodes) + [n.Label]
  {
  }

  // The nodes without in-edges, and every node's number of in-edges.
  method InDegrees(g: Graph, ghost edges: seq<Edge>) returns (numInNodes: map<int, int>, startingLabels: seq<int>)
    requires g.Represents(edges)
    ensures numInNodes.Keys == Endpoints(edges)
    ensures Counts(edges, numInNodes, {})
    ensures Pushed(numInNodes, [], startingLabels)
    ensures forall l :: l in startingLabels ==> l in numInNodes
  {
    numInNodes := map[];
    startingLabels := [];
    var todo := g.LabelToNode.Keys;
    while todo != {}
      invariant todo <= g.LabelToNode.Keys
      invariant numInNodes.Keys == g.LabelToNode.Keys - todo
      invariant Counts(edges, numInNodes, {})
      invariant Distinct(startingLabels)
      invariant forall v :: v in startingLabels <==> v in numInNodes && numInNodes[v] == 0
    {
      var l :| l in todo;
      var node := g.LabelToNode[l];
      assert NodeLinked(g.LabelToNode, edges, l);
      PendingAtStart(Ins(edges, l));
      numInNodes := numInNodes[l := |node.InNodes|];
      if |node.InNodes| == 0 {
        startingLabels := startingLabels + [l];
      }
      todo := todo - {l};
    }
    assert [] + startingLabels == startingLabels;
  }

  // The stack and the result hold the graph's own nodes.
  ghost predicate Held(m: map<int, GraphNode>, nodes: seq<GraphNode>) {
    forall i :: 0 <= i < |nodes| ==> nodes[i].Label in m && m[nodes[i].Label] == nodes[i]
  }

  // Which label the inner loop pushes next.
  lemma FreedNext(edges: seq<Edge>, numIn: map<int, int>, done: set<int>, outs: seq<int>, j: nat)
    requires j < |outs| && outs[j] in numIn && PartCounts(edges, numIn, done, outs[..j])
    ensures Freed(edges, done, outs[..j + 1]) == Freed(edges, done, outs[..j]) + if numIn[outs[j]] == 1 then [outs[j]] else []
  {
    assert outs[..j + 1][..j] == outs[..j];
    PrefixMultiplicity(outs, j);
    OccurrencesInMultiset(outs[..j + 1], outs[j]);
  }

  // Decrementing one count keeps the bookkeeping right, whether or not the label is pushed.
  lemma {:induction false} RelaxStep(edges: seq<Edge>, numIn: map<int, int>, order: seq<int>, u: int,
                                     outs: seq<int>, j: nat, stack: seq<int>)
    requires u !in order && outs == Outs(edges, u) && j < |outs| && outs[j] in numIn
    requires PartCounts(edges, numIn, Elements(order), outs[..j])
    requires Pushed(numIn, order + [u], stack)
    ensures var l := outs[j];
      && PartCounts(edges, numIn[l := numIn[l] - 1], Elements(order), outs[..j + 1])
      && Pushed(numIn[l := numIn[l] - 1], order + [u], if numIn[l] == 1 then stack + [l] else stack)
  {
    var l := outs[j];
    Relaxable(edges, Elements(order), u, outs, j);
    PrefixMultiplicity(outs, j);
    if numIn[l] == 1 {
      PushedGrows(numIn, order + [u], stack, l);
    }
  }

  lemma PushedGrows(numIn: map<int, int>, order: seq<int>, stack: seq<int>, l: int)
    requires Pushed(numIn, order, stack) && l in numIn && numIn[l] == 1
    ensures Pushed(numIn[l := 0], order, stack + [l])
  {
    assert order + (stack + [l]) == (order + stack) + [l];
    assert l !in order + stack;
  }

  // The state between two rounds of the inner loop, j out-nodes of u in.
  ghost predicate Relaxing(m: map<int, GraphNode>, edges: seq<Edge>, order: seq<int>, u: int, j: nat,
                           numIn: map<int, int>, stack: seq<GraphNode>)
    requires j <= |Outs(edges, u)|
  {
    && numIn.Keys == m.Keys
    && Held(m, stack)
    && PartCounts(edges, numIn, Elements(order), Outs(edges, u)[..j])
    && Pushed(numIn, order + [u], Labels(stack))
  }

  lemma RelaxingStep(m: map<int, GraphNode>, edges: seq<Edge>, order: seq<int>, u: int, j: nat,
                     numIn: map<int, int>, stack: seq<GraphNode>, n: GraphNode)
    requires u !in order && j < |Outs(edges, u)| && Relaxing(m, edges, order, u, j, numIn, stack)
    requires n.Label == Outs(edges, u)[j] && n.Label in m && m[n.Label] == n
    ensures var numIn' := numIn[n.Label := numIn[n.Label] - 1];
      && (numIn'[n.Label] == 0 ==> Relaxing(m, edges, order, u, j + 1, numIn', stack + [n]))
      && (numIn'[n.Label] != 0 ==> Relaxing(m, edges, order, u, j + 1, numIn', stack))
  {
    RelaxStep(edges, numIn, order, u, Outs(edges, u), j, Labels(stack));
    LabelsSnoc(stack, n);
    HeldPush(m, stack, n);
  }

  // What has been pushed so far is what has been freed so far.
  ghost predicate RelaxingFrom(m: map<int, GraphNode>, edges: seq<Edge>, order: seq<int>, u: int, j: nat,
                               numIn: map<int, int>, base: seq<int>, stack: seq<GraphNode>)
    requires j <= |Outs(edges, u)|
  {
    && Relaxing(m, edges, order, u, j, numIn, stack)
    && Labels(stack) == base + Freed(edges, Elements(order), Outs(edges, u)[..j])
  }

  lemma RelaxingFromStep(m: map<int, GraphNode>, edges: seq<Edge>, order: seq<int>, u: int, j: nat,
                         numIn: map<int, int>, base: seq<int>, stack: seq<GraphNode>, n: GraphNode)
    requires u !in order && j < |Outs(edges, u)| && RelaxingFrom(m, edges, order, u, j, numIn, base, stack)
    requires n.Label == Outs(edges, u)[j] && n.Label in m && m[n.Label] == n
    ensures var numIn' := numIn[n.Label := numIn[n.Label] - 1];
      && (numIn'[n.Label] == 0 ==> RelaxingFrom(m, edges, order, u, j + 1, numIn', base, stack + [n]))
      && (numIn'[n.Label] != 0 ==> RelaxingFrom(m, edges, order, u, j + 1, numIn', base, stack))
  {
    RelaxingStep(m, edges, order, u, j, numIn, stack, n);
    FreedNext(edges, numIn, Elements(order), Outs(edges, u), j);
    LabelsSnoc(stack, n);
  }

  lemma HeldPush(m: map<int, GraphNode>, nodes: seq<GraphNode>, n: GraphNode)
    requires Held(m, nodes) && n.Label in m && m[n.Label] == n
    ensures Held(m, nodes + [n])
  {
  }

  // The nodes are those of the labels.
  ghost predicate AreNodes(m: map<int, GraphNode>, nodes: seq<GraphNode>, labels: seq<int>) {
    && |nodes| == |labels|
    && forall j :: 0 <= j < |labels| ==> nodes[j].Label == labels[j] && labels[j] in m && m[labels[j]] == nodes[j]
  }

  lemma OutNodesAreNodes(m: map<int, GraphNode>, edges: seq<Edge>, u: int)
    requires Linked(m, edges) && u in m
    ensures AreNodes(m, m[u].OutNodes, Outs(edges, u))
  {
    var outs := Outs(edges, u);
    assert NodeLinked(m, edges, u);
    forall j | 0 <= j < |outs| ensures outs[j] in m && m[outs[j]].Label == outs[j] && m[u].OutNodes[j] == m[outs[j]] {
      assert NodeLinked(m, edges, outs[j]);
    }
  }

  /** Decrements the count of every out-node of u and pushes those that reach
      zero: the inner loop of SortBasic. */
  method Relax(outNodes: seq<GraphNode>, u: int, numIn0: map<int, int>, stack0: seq<GraphNode>, ghost order: seq<int>,
               ghost m: map<int, GraphNode>, ghost edges: seq<Edge>)
    returns (numIn: map<int, int>, stack: seq<GraphNode>)
    requires m.Keys == numIn0.Keys && AreNodes(m, outNodes, Outs(edges, u)) && u !in order
    requires Held(m, stack0)
    requires Counts(edges, numIn0, Elements(order))
    requires Pushed(numIn0, order + [u], Labels(stack0))
    ensures numIn.Keys == numIn0.Keys && Held(m, stack)
    ensures Counts(edges, numIn, Elements(order) + {u})
    ensures Pushed(numIn, order + [u], Labels(stack))
    ensures Labels(stack) == Labels(stack0) + Freed(edges, Elements(order), Outs(edges, u))
  {
    numIn, stack := numIn0, stack0;
    ghost var outs := Outs(edges, u);
    assert outs[..0] == [];
    for j := 0 to |outNodes|
      invariant RelaxingFrom(m, edges, order, u, j, numIn, Labels(stack0), stack)
    {
      var outNode := outNodes[j];
      RelaxingFromStep(m, edges, order, u, j, numIn, Labels(stack0), stack, outNode);
      numIn := numIn[outNode.Label := numIn[outNode.Label] - 1];
      if numIn[outNode.Label] == 0 {
        stack := stack + [outNode];
      }
    }
    assert outs[..|outs|] == outs;
    AllRelaxed(edges, numIn, Elements(order), u);
  }

  // Pushing the starting labels' nodes.
  method PushStarting(m: map<int, GraphNode>, sorted: seq<int>) returns (stack: seq<GraphNode>)
    requires forall l :: l in m ==> m[l].Label == l
    requires forall l :: l in sorted ==> l in m
    ensures Held(m, stack) && Labels(stack) == sorted
  {
    stack := [];
    for i := 0 to |sorted|
      invariant |stack| == i
      invariant forall k :: 0 <= k < i ==> sorted[k] in m && stack[k] == m[sorted[k]] && stack[k].Label == sorted[k]
    {
      var l := sorted[i];
      stack := stack + [m[l]];
    }
  }

  lemma LabelsAreKeys(m: map<int, GraphNode>, edges: seq<Edge>)
    requires Linked(m, edges)
    ensures forall l :: l in m ==> m[l].Label == l
  {
    forall l | l in m ensures m[l].Label == l {
      assert NodeLinked(m, edges, l);
    }
  }

  lemma SortedStart(numIn: map<int, int>, start: seq<int>, sorted: seq<int>)
    requires Pushed(numIn, [], start) && multiset(sorted) == multiset(start)
    ensures Pushed(numIn, [], sorted)
    ensures Distinct(sorted) && forall l :: l in sorted <==> l in start
  {
    assert [] + start == start && [] + sorted == sorted;
    SameMultisetSameSet(sorted, start);
    DistinctIsMultiset(sorted);
    DistinctIsMultiset(start);
    assert forall l :: l in sorted <==> l in Elements(sorted);
    assert forall l :: l in start <==> l in Elements(start);
  }

  // Moving the top of the stack to the end of the result.
  lemma {:induction false} PopKeeps(edges: seq<Edge>, numIn: map<int, int>, order: seq<int>, base: seq<int>, u: int)
    requires Pushed(numIn, order, base + [u]) && u in numIn
    requires Counts(edges, numIn, Elements(order)) && Prefix(edges, order)
    ensures u !in order && Distinct(order + [u])
    ensures Pushed(numIn, order + [u], base)
    ensures Prefix(edges, order + [u])
    ensures Elements(order + [u]) == Elements(order) + {u}
  {
    var all, all' := order + (base + [u]), order + [u] + base;
    assert multiset(all) == multiset(all');
    SameMultisetSameSet(all, all');
    DistinctIsMultiset(all);
    DistinctIsMultiset(all');
    assert forall l :: l in all <==> l in Elements(all);
    assert forall l :: l in all' <==> l in Elements(all');
    assert forall i :: 0 <= i < |order + [u]| ==> (order + [u])[i] == all'[i];
    assert all'[|order|] == u;
    assert u in all && numIn[u] == 0;
    forall k | 0 <= k < |order| ensures order[k] != u {
      assert all'[k] == order[k];
    }
    ElementsSnoc(order, u);
    PrefixGrows(edges, order, u);
  }

  // The state between two rounds of the outer loop.
  ghost predicate Sorting(m: map<int, GraphNode>, edges: seq<Edge>, numIn: map<int, int>,
                          result: seq<GraphNode>, stack: seq<GraphNode>)
  {
    && numIn.Keys == m.Keys
    && Held(m, stack)
    && Held(m, result)
    && Counts(edges, numIn, Elements(Labels(result)))
    && Pushed(numIn, Labels(result), Labels(stack))
    && Prefix(edges, Labels(result))
    && Distinct(Labels(result))
  }

  // What popping the stack establishes, before the out-nodes are relaxed.
  lemma Popped(m: map<int, GraphNode>, edges: seq<Edge>, numIn: map<int, int>,
               result: seq<GraphNode>, base: seq<GraphNode>, u: GraphNode)
    requires Sorting(m, edges, numIn, result, base + [u])
    ensures u.Label in m && m[u.Label] == u && u.Label !in Labels(result)
    ensures Held(m, base) && Held(m, result + [u])
    ensures Labels(result + [u]) == Labels(result) + [u.Label]
    ensures Pushed(numIn, Labels(result) + [u.Label], Labels(base))
    ensures Prefix(edges, Labels(result + [u])) && Distinct(Labels(result + [u]))
    ensures Elements(Labels(result + [u])) == Elements(Labels(result)) + {u.Label}
    ensures m.Keys - Elements(Labels(result + [u])) < m.Keys - Elements(Labels(result))
  {
    HeldSnoc(m, base, u);
    LabelsSnoc(base, u);
    LabelsSnoc(result, u);
    PopKeeps(edges, numIn, Labels(result), Labels(base), u.Label);
    assert u.Label in m.Keys - Elements(Labels(result));
  }

  lemma HeldSnoc(m: map<int, GraphNode>, nodes: seq<GraphNode>, u: GraphNode)
    requires Held(m, nodes + [u])
    ensures Held(m, nodes) && u.Label in m && m[u.Label] == u
  {
    assert (nodes + [u])[|nodes|] == u;
    assert forall i :: 0 <= i < |nodes| ==> (nodes + [u])[i] == nodes[i];
  }

  lemma HeldLabels(m: map<int, GraphNode>, nodes: seq<GraphNode>)
    requires Held(m, nodes)
    ensures Elements(Labels(nodes)) <= m.Keys
  {
    forall l | l in Labels(nodes) ensures l in m {
      var i :| 0 <= i < |nodes| && Labels(nodes)[i] == l;
      assert nodes[i].Label in m;
    }
  }

  // Everything before the main loop.
  method Start(g: Graph, ghost edges: seq<Edge>) returns (numInNodes: map<int, int>, stack: seq<GraphNode>)
    requires g.Represents(edges)
    ensures Sorting(g.LabelToNode, edges, numInNodes, [], stack)
    ensures IsStart(edges, Labels(stack))
  {
    var startingLabels;
    numInNodes, startingLabels := InDegrees(g, edges);
    var sorted := SortLabels(startingLabels);
    SortedStart(numInNodes, startingLabels, sorted);
    LabelsAreKeys(g.LabelToNode, edges);
    stack := PushStarting(g.LabelToNode, sorted);
    SortingStart(g.LabelToNode, edges, numInNodes, stack);
    StartIsStart(edges, numInNodes, sorted);
  }

  lemma StartIsStart(edges: seq<Edge>, numIn: map<int, int>, sorted: seq<int>)
    requires numIn.Keys == Endpoints(edges) && Counts(edges, numIn, {}) && Pushed(numIn, [], sorted)
    requires Ascending(sorted) && forall l :: l in sorted ==> l in numIn
    ensures IsStart(edges, sorted)
  {
    assert [] + sorted == sorted;
    forall l | l in numIn ensures l in sorted <==> Ins(edges, l) == [] {
      PendingAtStart(Ins(edges, l));
    }
  }

  lemma SortingStart(m: map<int, GraphNode>, edges: seq<Edge>, numIn: map<int, int>, stack: seq<GraphNode>)
    requires numIn.Keys == m.Keys && Held(m, stack)
    requires Counts(edges, numIn, {}) && Pushed(numIn, [], Labels(stack))
    ensures Sorting(m, edges, numIn, [], stack)
  {
    assert Labels([]) == [] && Elements<int>([]) == {};
  }

  // When the stack is empty, the result is complete or a cycle is left over.
  lemma Done(m: map<int, GraphNode>, edges: seq<Edge>, numIn: map<int, int>, result: seq<GraphNode>)
    requires Sorting(m, edges, numIn, result, []) && m.Keys == Endpoints(edges)
    ensures |result| != |m| ==> HasCycle(Elements(edges))
    ensures |result| == |m| ==> !HasCycle(Elements(edges))
    ensures |result| == |m| ==> IsTopologicalOrder(Endpoints(edges), Elements(edges), Labels(result))
  {
    assert Labels([]) == [] && Labels(result) + [] == Labels(result);
    assert |m| == |m.Keys|;
    HeldLabels(m, result);
    if |result| != |m| {
      FinishedEarly(edges, numIn, Labels(result));
    } else {
      FinishedAll(edges, Labels(result));
    }
  }

  // One round of the outer loop, as the order sees it.
  lemma RoundTakes(edges: seq<Edge>, start: seq<int>, order: seq<int>, base: seq<int>, u: int, stack: seq<int>)
    requires After(edges, start, |order|) == Progress(order, base + [u])
    requires stack == base + Freed(edges, Elements(order), Outs(edges, u))
    ensures After(edges, start, |order| + 1) == Progress(order + [u], stack)
  {
    assert (base + [u])[..|base|] == base;
  }

  /** Topologically sorts the graph's nodes, or reports that it has a cycle. The
      order is the one that the list of edges determines (KahnOrderIsUnique). */
  method SortBasic(g: Graph, ghost edges: seq<Edge>) returns (result: seq<GraphNode>, sortable: bool)
    requires g.Represents(edges)
    ensures sortable <==> !HasCycle(Elements(edges))
    ensures sortable ==> IsTopologicalOrder(Endpoints(edges), Elements(edges), Labels(result))
    ensures sortable ==> IsKahnOrder(edges, Labels(result))
    ensures Held(g.LabelToNode, result)
    ensures !sortable ==> result == []
  {
    ghost var m := g.LabelToNode;
    var numInNodes, stack := Start(g, edges);
    result := [];
    ghost var start := Labels(stack);
    while |stack| > 0
      invariant Sorting(m, edges, numInNodes, result, stack)
      invariant After(edges, start, |result|) == Progress(Labels(result), Labels(stack))
      decreases m.Keys - Elements(Labels(result))
    {
      var base, next := stack[..|stack| - 1], stack[|stack| - 1];
      SplitLast(stack);
      Popped(m, edges, numInNodes, result, base, next);
      ghost var order := Labels(result);
      result := result + [next];
      LabelsSnoc(base, next);
      OutNodesAreNodes(m, edges, next.Label);
      numInNodes, stack := Relax(next.OutNodes, next.Label, numInNodes, base, order, m, edges);
      RoundTakes(edges, start, order, Labels(base), next.Label, Labels(stack));
    }
    Done(m, edges, numInNodes, result);
    if |result| != |g.LabelToNode| {
      return [], false;
    }
    return result, true;
  }
}
