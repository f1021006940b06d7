/** The tree sort: weigh the subtrees, sort every node's children in place, list
    the tree in pre-order. */
module SortTree {
  import opened Edges
  import opened Trees
  import opened SortedTrees
  import opened Traverse
  import opened LinkedTree
  import opened OutTrees

  function TreeLabels(nodes: seq<TreeNode>): (r: seq<int>)
    ensures |r| == |nodes|
    ensures forall i :: 0 <= i < |r| ==> r[i] == nodes[i].Label
  {
    seq(|nodes|, i requires 0 <= i < |nodes| => nodes[i].Label)
  }

  // What a traversal sees of the tree.
  function TreeView(m: map<int, TreeNode>): Adjacency
    reads m.Values
  {
    map l | l in m :: TreeLabels(m[l].Children)
  }

  ghost predicate Held(m: map<int, TreeNode>, nodes: seq<TreeNode>) {
    forall i :: 0 <= i < |nodes| ==> nodes[i].Label in m && m[nodes[i].Label] == nodes[i]
  }

  // Labels identify nodes, and children are nodes of the tree.
  ghost predicate WellFormed(m: map<int, TreeNode>)
    reads m.Values
  {
    forall l :: l in m ==> m[l].Label == l && Held(m, m[l].Children)
  }

  lemma WellFormedIsClosed(m: map<int, TreeNode>)
    requires WellFormed(m)
    ensures Closed(TreeView(m))
  {
    var adj := TreeView(m);
    forall l, x | l in adj && x in adj[l] ensures x in adj {
      var i := Position(adj[l], x);
      assert m[l].Children[i].Label in m;
    }
  }

  // ------------------------------------------------------------------ weights

  function WeightSum(w: map<int, nat>, labels: seq<int>): nat {
    if labels == [] then 0 else
      (if labels[0] in w then w[labels[0]] else 0) + WeightSum(w, labels[1..])
  }

  // The map that weighing the labels in this order ends with.
  function Weigh(adj: Adjacency, order: seq<int>, w: map<int, nat>): map<int, nat>
    requires forall l :: l in order ==> l in adj
  {
    if order == [] then w else
      var l := order[0];
      Weigh(adj, order[1..], w[l := 1 + WeightSum(w, adj[l])])
  }

  ghost predicate HasWeights(w: map<int, nat>, F: Forest)
    decreases F
  {
    F != [] ==>
      && F[0].id in w
      && w[F[0].id] == TreeWeight(F[0])
      && HasWeights(w, F[0].kids)
      && HasWeights(w, F[1..])
  }

  lemma {:induction false} WeightSumOfRoots(w: map<int, nat>, F: Forest)
    requires HasWeights(w, F)
    ensures WeightSum(w, RootLabels(F)) == Weight(F)
  {
    if F != [] {
      assert RootLabels(F)[0] == F[0].id && RootLabels(F)[1..] == RootLabels(F[1..]);
      WeightSumOfRoots(w, F[1..]);
    }
  }

  lemma {:induction false} WeighConcat(adj: Adjacency, a: seq<int>, b: seq<int>, w: map<int, nat>)
    requires forall l :: l in a ==> l in adj
    requires forall l :: l in b ==> l in adj
    ensures forall l :: l in a + b ==> l in adj
    ensures Weigh(adj, a + b, w) == Weigh(adj, b, Weigh(adj, a, w))
  {
    if a == [] {
      assert a + b == b;
    } else {
      var l := a[0];
      assert (a + b)[1..] == a[1..] + b;
      WeighConcat(adj, a[1..], b, w[l := 1 + WeightSum(w, adj[l])]);
    }
  }

  // The weights of a forest depend on its own labels only.
  lemma {:induction false} WeightsKept(w: map<int, nat>, w': map<int, nat>, F: Forest)
    requires HasWeights(w, F)
    requires forall l :: l in PreOrder(F) && l in w ==> l in w' && w'[l] == w[l]
    ensures HasWeights(w', F)
    decreases F
  {
    if F != [] {
      RootsAreLabels(F, 0);
      WeightsKept(w, w', F[0].kids);
      WeightsKept(w, w', F[1..]);
    }
  }

  lemma {:induction false} FitLabels(adj: Adjacency, F: Forest)
    requires Fits(adj, F)
    ensures forall l :: l in PreOrder(F) ==> l in adj
    decreases F
  {
    if F != [] {
      FitLabels(adj, F[0].kids);
      FitLabels(adj, F[1..]);
    }
  }

  lemma PostOrderMembers(F: Forest)
    ensures forall l :: l in PostOrder(F) <==> l in PreOrder(F)
  {
    PostOrderNodes(F);
    SameMultisetSameSet(PostOrder(F), PreOrder(F));
    assert forall l :: l in PostOrder(F) <==> l in Elements(PostOrder(F));
    assert forall l :: l in PreOrder(F) <==> l in Elements(PreOrder(F));
  }

  // Weighing in post-order gives every subtree its number of nodes.
  lemma {:induction false} WeighForest(adj: Adjacency, F: Forest, w: map<int, nat>)
    requires Fits(adj, F) && UniqueLabels(F)
    ensures forall l :: l in PostOrder(F) ==> l in adj
    ensures HasWeights(Weigh(adj, PostOrder(F), w), F)
    ensures Unchanged(w, Weigh(adj, PostOrder(F), w), F)
    decreases F
  {
    FitLabels(adj, F);
    PostOrderMembers(F);
    if F != [] {
      var t, R := F[0], F[1..];
      UniqueParts(F);
      FitLabels(adj, t.kids);
      FitLabels(adj, R);
      PostOrderMembers(t.kids);
      PostOrderMembers(R);
      var w1 := Weigh(adj, PostOrder(t.kids), w);
      WeighForest(adj, t.kids, w);
      WeightSumOfRoots(w1, t.kids);
      var w2 := w1[t.id := TreeWeight(t)];
      assert Weigh(adj, [t.id], w1) == w2 by {
        assert [t.id][1..] == [];
      }
      var w3 := Weigh(adj, PostOrder(R), w2);
      WeighForest(adj, R, w2);
      WeighConcat(adj, PostOrder(t.kids), [t.id], w);
      WeighConcat(adj, PostOrder(t.kids) + [t.id], PostOrder(R), w);
      WeightsKept(w1, w3, t.kids);
    }
  }

  ghost predicate Unchanged(w: map<int, nat>, w': map<int, nat>, F: Forest) {
    forall l :: l in w && l !in PreOrder(F) ==> l in w' && w'[l] == w[l]
  }

  // ------------------------------------------------------------ sorting labels

  predicate LeqBy(w: map<int, nat>, a: int, b: int)
    requires a in w && b in w
  {
    w[a] < w[b] || (w[a] == w[b] && a <= b)
  }

  function InsertBy(w: map<int, nat>, l: int, s: seq<int>): (r: seq<int>)
    requires l in w && forall x :: x in s ==> x in w
    ensures forall x :: x in r <==> x == l || x in s
  {
    if s == [] || LeqBy(w, l, s[0]) then [l] + s else
      assert s == [s[0]] + s[1..];
      [s[0]] + InsertBy(w, l, s[1..])
  }

  function SortBy(w: map<int, nat>, s: seq<int>): (r: seq<int>)
    requires forall x :: x in s ==> x in w
    ensures forall x :: x in r <==> x in s
  {
    if s == [] then [] else
      assert s == [s[0]] + s[1..];
      InsertBy(w, s[0], SortBy(w, s[1..]))
  }

  ghost predicate RootWeights(w: map<int, nat>, F: Forest) {
    forall i :: 0 <= i < |F| ==> F[i].id in w && w[F[i].id] == TreeWeight(F[i])
  }

  lemma {:induction false} WeightsOfRoots(w: map<int, nat>, F: Forest)
    requires HasWeights(w, F)
    ensures RootWeights(w, F)
    ensures forall x :: x in RootLabels(F) ==> x in w
  {
    if F != [] {
      WeightsOfRoots(w, F[1..]);
      assert forall i :: 0 < i < |F| ==> F[i] == F[1..][i - 1];
    }
  }

  lemma {:induction false} InsertByIsInsert(w: map<int, nat>, t: Rose, F: Forest)
    requires RootWeights(w, F) && t.id in w && w[t.id] == TreeWeight(t)
    requires forall x :: x in RootLabels(F) ==> x in w
    ensures RootLabels(Insert(t, F)) == InsertBy(w, t.id, RootLabels(F))
    ensures RootWeights(w, Insert(t, F))
  {
    if F == [] || Leq(t, F[0]) {
      assert ([t] + F)[1..] == F;
    } else {
      assert RootLabels(F)[0] == F[0].id && RootLabels(F)[1..] == RootLabels(F[1..]);
      InsertByIsInsert(w, t, F[1..]);
      assert ([F[0]] + Insert(t, F[1..]))[1..] == Insert(t, F[1..]);
    }
  }

  // Sorting the children's labels by weight is sorting the child trees.
  lemma {:induction false} SortByIsSort(w: map<int, nat>, F: Forest)
    requires HasWeights(w, F)
    ensures forall x :: x in RootLabels(F) ==> x in w
    ensures RootLabels(SortForest(F)) == SortBy(w, RootLabels(F))
    ensures RootWeights(w, SortForest(F))
  {
    WeightsOfRoots(w, F);
    if F != [] {
      assert RootLabels(F)[0] == F[0].id && RootLabels(F)[1..] == RootLabels(F[1..]);
      SortByIsSort(w, F[1..]);
      SortKeepsWeight(F[0].kids);
      InsertByIsInsert(w, SortShape(F[0]), SortForest(F[1..]));
    }
  }

  lemma {:induction false} FitsInsert(adj: Adjacency, t: Rose, F: Forest)
    requires Fits(adj, F) && t.id in adj && adj[t.id] == RootLabels(t.kids) && Fits(adj, t.kids)
    ensures Fits(adj, Insert(t, F))
  {
    if F == [] || Leq(t, F[0]) {
      assert ([t] + F)[1..] == F;
    } else {
      FitsInsert(adj, t, F[1..]);
      assert ([F[0]] + Insert(t, F[1..]))[1..] == Insert(t, F[1..]);
    }
  }

  ghost predicate SortedAt(adj: Adjacency, adj': Adjacency, w: map<int, nat>, l: int) {
    && l in adj && l in adj'
    && (forall x :: x in adj[l] ==> x in w)
    && adj'[l] == SortBy(w, adj[l])
  }

  // Sorting every node's children turns the forest into the sorted forest.
  lemma {:induction false} FitsSorted(adj: Adjacency, adj': Adjacency, w: map<int, nat>, F: Forest)
    requires Fits(adj, F) && HasWeights(w, F)
    requires forall l :: l in PreOrder(F) ==> SortedAt(adj, adj', w, l)
    ensures Fits(adj', SortForest(F))
    decreases F
  {
    if F != [] {
      var t := F[0];
      RootsAreLabels(F, 0);
      SortByIsSort(w, t.kids);
      FitsSorted(adj, adj', w, t.kids);
      FitsSorted(adj, adj', w, F[1..]);
      FitsInsert(adj', SortShape(t), SortForest(F[1..]));
    }
  }

  // Any sorted rearrangement of distinct labels is this one.
  ghost predicate SortedBy(w: map<int, nat>, s: seq<int>) {
    && (forall x :: x in s ==> x in w)
    && forall i, j :: 0 <= i < j < |s| ==> LeqBy(w, s[i], s[j])
  }

  lemma {:induction false} SortByIsSorted(w: map<int, nat>, s: seq<int>)
    requires forall x :: x in s ==> x in w
    ensures SortedBy(w, SortBy(w, s)) && multiset(SortBy(w, s)) == multiset(s)
  {
    if s != [] {
      assert s == [s[0]] + s[1..];
      SortByIsSorted(w, s[1..]);
      InsertByIsSorted(w, s[0], SortBy(w, s[1..]));
    }
  }

  lemma {:induction false} InsertByMultiset(w: map<int, nat>, l: int, s: seq<int>)
    requires l in w && forall x :: x in s ==> x in w
    ensures multiset(InsertBy(w, l, s)) == multiset{l} + multiset(s)
  {
    if s != [] && !LeqBy(w, l, s[0]) {
      assert s == [s[0]] + s[1..];
      InsertByMultiset(w, l, s[1..]);
    }
  }

  lemma {:induction false} InsertByIsSorted(w: map<int, nat>, l: int, s: seq<int>)
    requires l in w && SortedBy(w, s)
    ensures SortedBy(w, InsertBy(w, l, s)) && multiset(InsertBy(w, l, s)) == multiset{l} + multiset(s)
  {
    InsertByMultiset(w, l, s);
    if s != [] && !LeqBy(w, l, s[0]) {
      InsertByIsSorted(w, l, s[1..]);
      var r := InsertBy(w, l, s[1..]);
      forall j | 0 <= j < |r| ensures LeqBy(w, s[0], r[j]) {
        assert r[j] in multiset(r);
        if r[j] != l {
          var k := Position(s[1..], r[j]);
          assert s[k + 1] == r[j];
        }
      }
    }
  }

  lemma TailMultiset(a: seq<int>)
    requires a != []
    ensures multiset(a[1..]) == multiset(a) - multiset{a[0]}
  {
    assert a == [a[0]] + a[1..];
  }

  lemma SameHead(w: map<int, nat>, a: seq<int>, b: seq<int>)
    requires SortedBy(w, a) && SortedBy(w, b) && multiset(a) == multiset(b) && a != []
    ensures b != [] && a[0] == b[0]
  {
    assert a[0] in multiset(a);
    assert a[0] in b;
    assert b[0] in multiset(b);
    assert b[0] in a;
  }

  lemma {:induction false} SortedByIsUnique(w: map<int, nat>, a: seq<int>, b: seq<int>)
    requires SortedBy(w, a) && SortedBy(w, b) && multiset(a) == multiset(b)
    ensures a == b
  {
    assert |a| == |multiset(a)| && |b| == |multiset(b)|;
    if a != [] {
      SameHead(w, a, b);
      TailMultiset(a);
      TailMultiset(b);
      SortedByIsUnique(w, a[1..], b[1..]);
      assert a == [a[0]] + a[1..] && b == [b[0]] + b[1..];
    }
  }

  // -------------------------------------------------------------- the methods

  // The weight of every label, children before parents.
  method WeighNodes(m: map<int, TreeNode>, traversal: seq<int>) returns (labelToWeight: map<int, nat>)
    requires forall l :: l in traversal ==> l in m
    ensures labelToWeight == Weigh(TreeView(m), traversal, map[])
  {
    labelToWeight := map[];
    for k := 0 to |traversal|
      invariant Weigh(TreeView(m), traversal[k..], labelToWeight) == Weigh(TreeView(m), traversal, map[])
    {
      var l := traversal[k];
      assert traversal[k..][0] == l && traversal[k..][1..] == traversal[k + 1..];
      var node := m[l];
      var weight := SumWeights(labelToWeight, node.Children);
      labelToWeight := labelToWeight[l := weight];
    }
  }

  method SumWeights(labelToWeight: map<int, nat>, children: seq<TreeNode>) returns (weight: nat)
    ensures weight == 1 + WeightSum(labelToWeight, TreeLabels(children))
  {
    weight := 1;
    ghost var labels := TreeLabels(children);
    for i := 0 to |children|
      invariant weight + WeightSum(labelToWeight, labels[i..]) == 1 + WeightSum(labelToWeight, labels)
    {
      assert labels[i..][0] == labels[i] && labels[i..][1..] == labels[i + 1..];
      weight := weight + if children[i].Label in labelToWeight then labelToWeight[children[i].Label] else 0;
    }
  }

  // The contract of sort.Slice: the same children, sorted by weight and then label.
  method SortChildren(children: seq<TreeNode>, w: map<int, nat>) returns (sorted: seq<TreeNode>)
    requires forall n :: n in children ==> n.Label in w
    ensures forall n :: n in sorted <==> n in children
    ensures SortedBy(w, TreeLabels(sorted))
    ensures multiset(TreeLabels(sorted)) == multiset(TreeLabels(children))
  {
    sorted := [];
    for i := 0 to |children|
      invariant forall n :: n in sorted <==> n in children[..i]
      invariant SortedBy(w, TreeLabels(sorted))
      invariant multiset(TreeLabels(sorted)) == multiset(TreeLabels(children[..i]))
    {
      sorted := InsertChild(sorted, children[i], w);
      assert children[..i + 1] == children[..i] + [children[i]];
      assert TreeLabels(children[..i + 1]) == TreeLabels(children[..i]) + [children[i].Label];
    }
    assert children[..|children|] == children;
  }

  method InsertChild(sorted: seq<TreeNode>, n: TreeNode, w: map<int, nat>) returns (r: seq<TreeNode>)
    requires n.Label in w && SortedBy(w, TreeLabels(sorted))
    ensures forall x :: x in r <==> x in sorted || x == n
    ensures SortedBy(w, TreeLabels(r))
    ensures multiset(TreeLabels(r)) == multiset(TreeLabels(sorted)) + multiset{n.Label}
  {
    ghost var s := TreeLabels(sorted);
    var k := 0;
    while k < |sorted| && LeqBy(w, sorted[k].Label, n.Label)
      invariant 0 <= k <= |sorted|
      invariant forall j :: 0 <= j < k ==> LeqBy(w, s[j], n.Label)
    {
      k := k + 1;
    }
    r := sorted[..k] + [n] + sorted[k..];
    assert sorted == sorted[..k] + sorted[k..];
    assert TreeLabels(r) == s[..k] + [n.Label] + s[k..];
    InsertAt(w, s, k, n.Label);
  }

  // The items before position k come before l, and l before the others.
  lemma InsertAtOrder(w: map<int, nat>, s: seq<int>, k: nat, l: int, i: nat, j: nat)
    requires SortedBy(w, s) && l in w && k <= |s|
    requires forall j :: 0 <= j < k ==> LeqBy(w, s[j], l)
    requires k < |s| ==> !LeqBy(w, s[k], l)
    requires i < j <= |s|
    ensures var r := s[..k] + [l] + s[k..]; r[i] in w && r[j] in w && LeqBy(w, r[i], r[j])
  {
    var r := s[..k] + [l] + s[k..];
    if j == k {
      assert r[i] == s[i];
    } else if i == k {
      assert r[j] == s[j - 1] && LeqBy(w, s[k], s[k]);
      assert LeqBy(w, s[k], s[j - 1]);
    } else {
      assert r[i] == s[if i < k then i else i - 1] && r[j] == s[if j < k then j else j - 1];
    }
  }

  lemma InsertAt(w: map<int, nat>, s: seq<int>, k: nat, l: int)
    requires SortedBy(w, s) && l in w && k <= |s|
    requires forall j :: 0 <= j < k ==> LeqBy(w, s[j], l)
    requires k < |s| ==> !LeqBy(w, s[k], l)
    ensures SortedBy(w, s[..k] + [l] + s[k..])
    ensures multiset(s[..k] + [l] + s[k..]) == multiset(s) + multiset{l}
  {
    InsertMultiset(s, k, l);
    var r := s[..k] + [l] + s[k..];
    forall x | x in r ensures x in w {
      assert x in multiset(r);
    }
    forall i, j | 0 <= i < j < |r| ensures LeqBy(w, r[i], r[j]) {
      InsertAtOrder(w, s, k, l, i, j);
    }
  }

  lemma InsertMultiset(s: seq<int>, k: nat, l: int)
    requires k <= |s|
    ensures multiset(s[..k] + [l] + s[k..]) == multiset(s) + multiset{l}
  {
    assert s == s[..k] + s[k..];
  }

  // ---------------------------------------------------------------- the sort

  // After sorting the children of the labels in done.
  ghost predicate Progress(adj0: Adjacency, adj: Adjacency, w: map<int, nat>, done: seq<int>) {
    && adj.Keys == adj0.Keys
    && forall l :: l in adj0 ==>
         if l in done then SortedAt(adj0, adj, w, l) else adj[l] == adj0[l]
  }

  // What weighing and sorting need to know about the traversal.
  lemma {:induction false} TreeFacts(adj: Adjacency, t: Rose)
    requires Fits(adj, [t]) && UniqueLabels([t]) && Closed(adj)
    ensures t.id in adj
    ensures Dfs(adj, t.id, POST_ORDER) == PostOrder([t])
    ensures forall l :: l in PostOrder([t]) ==> l in adj
    ensures Distinct(PostOrder([t]))
    ensures var w := Weigh(adj, PostOrder([t]), map[]);
      HasWeights(w, [t]) && forall l :: l in PostOrder([t]) ==> forall x :: x in adj[l] ==> x in w
  {
    DfsOnTree(adj, t, POST_ORDER);
    WeighForest(adj, [t], map[]);
    PostOrderNodes([t]);
    DistinctIsMultiset(PostOrder([t]));
    DistinctIsMultiset(PreOrder([t]));
    PostOrderMembers([t]);
    ChildrenWeighed(adj, Weigh(adj, PostOrder([t]), map[]), [t]);
  }

  lemma {:induction false} ChildrenWeighed(adj: Adjacency, w: map<int, nat>, F: Forest)
    requires Fits(adj, F) && HasWeights(w, F)
    ensures forall l :: l in PreOrder(F) ==> l in adj && forall x :: x in adj[l] ==> x in w
    decreases F
  {
    if F != [] {
      WeightsOfRoots(w, F[0].kids);
      ChildrenWeighed(adj, w, F[0].kids);
      ChildrenWeighed(adj, w, F[1..]);
    }
  }

  // The children in sorted order are determined by their labels.
  method SortedChildren(children: seq<TreeNode>, w: map<int, nat>) returns (sorted: seq<TreeNode>)
    requires forall x :: x in TreeLabels(children) ==> x in w
    ensures forall n :: n in sorted <==> n in children
    ensures TreeLabels(sorted) == SortBy(w, TreeLabels(children))
  {
    forall n | n in children ensures n.Label in w {
      assert n.Label in TreeLabels(children);
    }
    sorted := SortChildren(children, w);
    SortByIsSorted(w, TreeLabels(children));
    SortedByIsUnique(w, TreeLabels(sorted), SortBy(w, TreeLabels(children)));
  }

  lemma ProgressStep(adj0: Adjacency, adj: Adjacency, w: map<int, nat>, done: seq<int>, l: int)
    requires Progress(adj0, adj, w, done) && l in adj0 && l !in done
    requires forall x :: x in adj0[l] ==> x in w
    ensures Progress(adj0, adj[l := SortBy(w, adj0[l])], w, done + [l])
  {
  }

  lemma HeldSubset(m: map<int, TreeNode>, nodes: seq<TreeNode>, nodes': seq<TreeNode>)
    requires Held(m, nodes) && forall n :: n in nodes' ==> n in nodes
    ensures Held(m, nodes')
  {
    forall i | 0 <= i < |nodes'| ensures nodes'[i].Label in m && m[nodes'[i].Label] == nodes'[i] {
      assert nodes'[i] in nodes;
      var k :| 0 <= k < |nodes| && nodes[k] == nodes'[i];
    }
  }

  // Replaces the children of one node by the same children in sorted order.
  method SortNode(node: TreeNode, w: map<int, nat>, ghost m: map<int, TreeNode>)
    requires WellFormed(m) && node.Label in m && m[node.Label] == node
    requires forall x :: x in TreeLabels(node.Children) ==> x in w
    modifies node`Children
    ensures WellFormed(m)
    ensures TreeView(m) == old(TreeView(m))[node.Label := SortBy(w, old(TreeLabels(node.Children)))]
  {
    var sorted := SortedChildren(node.Children, w);
    HeldSubset(m, node.Children, sorted);
    assert forall k :: k in m && k != node.Label ==> m[k] != node;
    node.Children := sorted;
    forall k | k in m ensures m[k].Label == k && Held(m, m[k].Children) {
      assert old(m[k].Label == k && Held(m, m[k].Children));
    }
  }

  // Sorts the children of every listed node.
  method SortNodes(m: map<int, TreeNode>, traversal: seq<int>, w: map<int, nat>)
    requires WellFormed(m) && Distinct(traversal)
    requires forall l :: l in traversal ==> l in m
    requires forall l :: l in traversal ==> forall x :: x in TreeView(m)[l] ==> x in w
    modifies m.Values`Children
    ensures WellFormed(m)
    ensures Progress(old(TreeView(m)), TreeView(m), w, traversal)
  {
    ghost var adj0 := TreeView(m);
    for k := 0 to |traversal|
      invariant WellFormed(m)
      invariant Progress(adj0, TreeView(m), w, traversal[..k])
    {
      var l := traversal[k];
      assert l in traversal && l !in traversal[..k];
      assert traversal[..k + 1] == traversal[..k] + [l];
      assert TreeView(m)[l] == adj0[l];
      ProgressStep(adj0, TreeView(m), w, traversal[..k], l);
      SortNode(m[l], w, m);
    }
    assert traversal[..|traversal|] == traversal;
  }

  lemma SortedView(adj0: Adjacency, adj: Adjacency, w: map<int, nat>, t: Rose)
    requires Fits(adj0, [t]) && HasWeights(w, [t]) && Progress(adj0, adj, w, PostOrder([t]))
    ensures Fits(adj, [SortShape(t)])
  {
    FitLabels(adj0, [t]);
    PostOrderMembers([t]);
    FitsSorted(adj0, adj, w, [t]);
    SortSingleton(t);
  }

  // The tree draws the value t.
  ghost predicate Draws(tree: Tree, t: Rose)
    reads tree, tree.LabelToNode.Values
  {
    && WellFormed(tree.LabelToNode)
    && UniqueLabels([t]) && Fits(TreeView(tree.LabelToNode), [t])
    && t.id in tree.LabelToNode && tree.Root == tree.LabelToNode[t.id]
  }

  /** Topologically sorts the tree, minimising the total length of the edges.
      The result is the pre-order of the sorted tree (SortedTrees.SortedIsOptimal
      says that it is least), and the tree is left with its children sorted. */
  method SortTree(tree: Tree, ghost t: Rose) returns (result: seq<int>)
    requires Draws(tree, t)
    modifies tree.LabelToNode.Values`Children
    ensures result == PreOrder([SortShape(t)]) && ChildrenInOrder(SortShape(t))
    ensures Draws(tree, SortShape(t))
  {
    var m := tree.LabelToNode;
    WellFormedIsClosed(m);
    TreeFacts(TreeView(m), t);
    var traversal := DepthFirstTraverse(TreeView(m), tree.Root.Label, POST_ORDER);
    var labelToWeight := WeighNodes(m, traversal);
    ghost var adj0 := TreeView(m);
    SortNodes(m, traversal, labelToWeight);
    WellFormedIsClosed(m);
    SortedView(adj0, TreeView(m), labelToWeight, t);
    SortedPreOrderIsTreeOrder(t);
    SortedInOrder(t);
    DfsOnTree(TreeView(m), SortShape(t), PRE_ORDER);
    result := DepthFirstTraverse(TreeView(m), tree.Root.Label, PRE_ORDER);
  }

  // The edges of a forest are what the adjacency says about its labels.
  lemma {:induction false} FitsEdges(adj: Adjacency, F: Forest, e: Edge)
    requires Fits(adj, F)
    ensures e in TreeEdges(F) <==> e.from in PreOrder(F) && e.from in adj && e.to in adj[e.from]
    decreases F
  {
    if F != [] {
      FitsEdges(adj, F[0].kids, e);
      FitsEdges(adj, F[1..], e);
      KidEdgeIn(F[0].id, F[0].kids, e);
    }
  }

  lemma TreeViewOf(tree: Tree, edges: seq<Edge>)
    requires IsTreeOf(tree, edges)
    ensures WellFormed(tree.LabelToNode)
    ensures TreeView(tree.LabelToNode) == AdjacencyOf(edges)
  {
    var m := tree.LabelToNode;
    forall l | l in m ensures TreeLabels(m[l].Children) == Outs(edges, l) && Held(m, m[l].Children) {
      ChildLabels(m, edges, m[l].Children, Outs(edges, l));
    }
  }

  lemma ChildLabels(m: map<int, TreeNode>, edges: seq<Edge>, nodes: seq<TreeNode>, labels: seq<int>)
    requires forall l :: l in m ==> NodeOk(m, edges, l)
    requires ChildrenAt(m, nodes, labels)
    ensures TreeLabels(nodes) == labels && Held(m, nodes)
  {
    forall i | 0 <= i < |nodes| ensures nodes[i].Label == labels[i] && labels[i] in m && nodes[i] == m[labels[i]] {
      assert labels[i] in m && NodeOk(m, edges, labels[i]);
    }
  }

  /** A tree made from a graph can be sorted: it draws a tree value with exactly
      the graph's nodes and edges, so the sort's promise is about the graph. */
  lemma {:induction false} TreeOfGraphDraws(tree: Tree, edges: seq<Edge>) returns (t: Rose)
    requires IsTreeOf(tree, edges)
    ensures Draws(tree, t)
    ensures Elements(PreOrder([t])) == Endpoints(edges) && Elements(TreeEdges([t])) == Elements(edges)
  {
    t := OutTreeHasShape(edges, tree.Root.Label);
    TreeViewOf(tree, edges);
    AdjacencyOfEdges(edges);
    forall e ensures e in TreeEdges([t]) <==> e in Elements(edges) {
      FitsEdges(AdjacencyOf(edges), [t], e);
      assert e in EdgeSet(AdjacencyOf(edges)) <==> e in Elements(edges);
      assert e.from in PreOrder([t]) <==> e.from in Elements(PreOrder([t]));
    }
  }
}
