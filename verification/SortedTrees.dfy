/** Sorting the children of every node by weight and then label: the result is
    the same for every child order, and its pre-order listing is a topological
    order of least total edge length. */
module SortedTrees {
  import opened Edges
  import opened Trees
  import opened TreeCost

  // The order the children are sorted by; ties are broken by label.
  predicate Leq(a: Rose, b: Rose) {
    TreeWeight(a) < TreeWeight(b) || (TreeWeight(a) == TreeWeight(b) && a.id <= b.id)
  }

  function Insert(t: Rose, F: Forest): Forest {
    if F == [] || Leq(t, F[0]) then [t] + F else [F[0]] + Insert(t, F[1..])
  }

  function SortForest(F: Forest): Forest
    decreases F
  {
    if F == [] then [] else Insert(SortShape(F[0]), SortForest(F[1..]))
  }

  function SortShape(t: Rose): Rose
    decreases t
  {
    Rose(t.id, SortForest(t.kids))
  }

  // -------------------------------------------------- what inserting preserves

  lemma {:induction false} InsertWeight(t: Rose, F: Forest)
    ensures Weight(Insert(t, F)) == TreeWeight(t) + Weight(F)
  {
    if F == [] || Leq(t, F[0]) {
      assert ([t] + F)[1..] == F;
    } else {
      InsertWeight(t, F[1..]);
      assert ([F[0]] + Insert(t, F[1..]))[1..] == Insert(t, F[1..]);
    }
  }

  lemma {:induction false} InsertNodes(t: Rose, F: Forest)
    ensures Nodes(Insert(t, F)) == multiset{t.id} + Nodes(t.kids) + Nodes(F)
  {
    if F == [] || Leq(t, F[0]) {
      assert ([t] + F)[1..] == F;
    } else {
      InsertNodes(t, F[1..]);
      assert ([F[0]] + Insert(t, F[1..]))[1..] == Insert(t, F[1..]);
    }
  }

  lemma {:induction false} InsertMembers(t: Rose, F: Forest, x: Rose)
    ensures x in Insert(t, F) <==> x == t || x in F
  {
    if F == [] || Leq(t, F[0]) {
    } else {
      InsertMembers(t, F[1..], x);
      assert F == [F[0]] + F[1..];
    }
  }

  lemma {:induction false} InsertEdges(t: Rose, F: Forest, e: Edge)
    ensures e in TreeEdges(Insert(t, F))
      <==> e in KidEdges(t.id, t.kids) || e in TreeEdges(t.kids) || e in TreeEdges(F)
  {
    if F == [] || Leq(t, F[0]) {
      assert ([t] + F)[1..] == F;
    } else {
      InsertEdges(t, F[1..], e);
      assert ([F[0]] + Insert(t, F[1..]))[1..] == Insert(t, F[1..]);
    }
  }

  lemma {:induction false} InsertSpan(t: Rose, F: Forest, order: seq<int>, p: int)
    requires Covered([t] + F, order) && Covered(Insert(t, F), order)
    ensures Span(Insert(t, F), order, p) == Span([t] + F, order, p)
  {
    if F == [] || Leq(t, F[0]) {
    } else {
      var G := Insert(t, F[1..]);
      assert ([F[0]] + G)[1..] == G && ([t] + F)[1..] == F && ([t] + F[1..])[1..] == F[1..];
      CoveredConcat([t], F, order);
      CoveredConcat([t], F[1..], order);
      InsertSpan(t, F[1..], order, p);
    }
  }

  lemma {:induction false} InsertAscending(t: Rose, F: Forest)
    requires Ascending(F) && Ascending(t.kids)
    ensures Ascending(Insert(t, F))
  {
    if F == [] || Leq(t, F[0]) {
      assert ([t] + F)[1..] == F;
      assert forall j :: 0 < j < |[t] + F| ==> ([t] + F)[j] == F[j - 1];
    } else {
      var G := Insert(t, F[1..]);
      InsertAscending(t, F[1..]);
      assert ([F[0]] + G)[1..] == G;
      forall j | 0 < j < |[F[0]] + G| ensures TreeWeight(F[0]) <= TreeWeight(([F[0]] + G)[j]) {
        InsertMembers(t, F[1..], G[j - 1]);
        if G[j - 1] in F[1..] {
          var k :| 0 <= k < |F[1..]| && F[1..][k] == G[j - 1];
          assert F[k + 1] == G[j - 1];
        }
      }
    }
  }

  // ---------------------------------------------------- what sorting preserves

  lemma {:induction false} SortKeepsWeight(F: Forest)
    ensures Weight(SortForest(F)) == Weight(F)
    decreases F
  {
    if F != [] {
      SortKeepsWeight(F[0].kids);
      SortKeepsWeight(F[1..]);
      InsertWeight(SortShape(F[0]), SortForest(F[1..]));
    }
  }

  lemma {:induction false} SortKeepsNodes(F: Forest)
    ensures Nodes(SortForest(F)) == Nodes(F)
    decreases F
  {
    if F != [] {
      SortKeepsNodes(F[0].kids);
      SortKeepsNodes(F[1..]);
      InsertNodes(SortShape(F[0]), SortForest(F[1..]));
    }
  }

  lemma {:induction false} SortedRoots(F: Forest, x: int)
    ensures x in RootLabels(SortForest(F)) <==> x in RootLabels(F)
  {
    if F != [] {
      SortedRoots(F[1..], x);
      InsertRoots(SortShape(F[0]), SortForest(F[1..]), x);
    }
  }

  lemma {:induction false} InsertRoots(t: Rose, F: Forest, x: int)
    ensures x in RootLabels(Insert(t, F)) <==> x == t.id || x in RootLabels(F)
  {
    if F == [] || Leq(t, F[0]) {
      assert ([t] + F)[1..] == F;
    } else {
      InsertRoots(t, F[1..], x);
      assert ([F[0]] + Insert(t, F[1..]))[1..] == Insert(t, F[1..]);
    }
  }

  lemma {:induction false} SortKeepsEdges(F: Forest, e: Edge)
    ensures e in TreeEdges(SortForest(F)) <==> e in TreeEdges(F)
    decreases F
  {
    if F != [] {
      var t := F[0];
      SortKeepsEdges(t.kids, e);
      SortKeepsEdges(F[1..], e);
      SortedRoots(t.kids, e.to);
      KidEdgeIn(t.id, t.kids, e);
      KidEdgeIn(t.id, SortForest(t.kids), e);
      InsertEdges(SortShape(t), SortForest(F[1..]), e);
    }
  }

  lemma {:induction false} SortIsAscending(F: Forest)
    ensures Ascending(SortForest(F))
    decreases F
  {
    if F != [] {
      SortIsAscending(F[0].kids);
      SortIsAscending(F[1..]);
      InsertAscending(SortShape(F[0]), SortForest(F[1..]));
    }
  }

  lemma SameNodesCovered(F: Forest, G: Forest, order: seq<int>)
    requires Nodes(F) == Nodes(G) && Covered(F, order)
    ensures Covered(G, order)
  {
    forall x | x in PreOrder(G) ensures x in order {
      assert x in Nodes(G);
    }
  }

  lemma {:induction false} SortKeepsSpan(F: Forest, order: seq<int>, p: int)
    requires Covered(F, order) && Covered(SortForest(F), order)
    ensures Span(SortForest(F), order, p) == Span(F, order, p)
    decreases F
  {
    if F != [] {
      var t, R := F[0], F[1..];
      RootsAreLabels(F, 0);
      assert Covered(t.kids, order) && Covered(R, order);
      SortKeepsNodes(t.kids);
      SameNodesCovered(t.kids, SortForest(t.kids), order);
      SortKeepsNodes(R);
      SameNodesCovered(R, SortForest(R), order);
      SortKeepsSpan(t.kids, order, Position(order, t.id));
      SortKeepsSpan(R, order, p);
      var s, G := SortShape(t), SortForest(R);
      assert ([s] + G)[1..] == G;
      assert Covered([s] + G, order);
      InsertSpan(s, G, order, p);
    }
  }

  // ------------------------------------------------- pre-order is topological

  lemma BlockIndex(s: seq<int>, a: seq<int>, k: nat, i: nat)
    requires Distinct(s) && k + |a| <= |s| && i < |s|
    requires forall m :: 0 <= m < |a| ==> s[k + m] == a[m]
    requires s[i] in a
    ensures k <= i < k + |a| && a[i - k] == s[i]
  {
    var m := Position(a, s[i]);
    assert s[k + m] == s[i];
  }

  // An edge from the root of a tree, within its kids or within the other trees.
  predicate InBlocks(x: int, a: seq<int>, b: seq<int>, Ea: set<Edge>, Eb: set<Edge>, e: Edge) {
    (e.from == x && e.to in a) || (e in Ea && e.from in a && e.to in a) || (e in Eb && e.from in b && e.to in b)
  }

  lemma ForwardBlock(x: int, a: seq<int>, b: seq<int>, Ea: set<Edge>, Eb: set<Edge>, i: nat, j: nat)
    requires Distinct([x] + a + b) && Forward(Ea, a) && Forward(Eb, b)
    requires i < |[x] + a + b| && j < |[x] + a + b|
    requires InBlocks(x, a, b, Ea, Eb, Edge(([x] + a + b)[i], ([x] + a + b)[j]))
    ensures i < j
  {
    var s := [x] + a + b;
    var e := Edge(s[i], s[j]);
    if e.from == x && e.to in a {
      BlockIndex(s, [x], 0, i);
      BlockIndex(s, a, 1, j);
    } else if e in Ea && e.from in a && e.to in a {
      BlockIndex(s, a, 1, i);
      BlockIndex(s, a, 1, j);
    } else {
      BlockIndex(s, b, 1 + |a|, i);
      BlockIndex(s, b, 1 + |a|, j);
    }
  }

  lemma ForwardBlocks(x: int, a: seq<int>, b: seq<int>, Ea: set<Edge>, Eb: set<Edge>, E: set<Edge>)
    requires Distinct([x] + a + b)
    requires Forward(Ea, a) && Forward(Eb, b)
    requires forall e :: e in E ==> InBlocks(x, a, b, Ea, Eb, e)
    ensures Forward(E, [x] + a + b)
  {
    var s := [x] + a + b;
    forall i, j | 0 <= i < |s| && 0 <= j < |s| && Edge(s[i], s[j]) in E ensures i < j {
      assert InBlocks(x, a, b, Ea, Eb, Edge(s[i], s[j]));
      ForwardBlock(x, a, b, Ea, Eb, i, j);
    }
  }

  lemma {:induction false} PreOrderIsForward(F: Forest)
    requires UniqueLabels(F)
    ensures Forward(Elements(TreeEdges(F)), PreOrder(F))
    decreases F
  {
    if F != [] {
      var t, R := F[0], F[1..];
      UniqueParts(F);
      PreOrderIsForward(t.kids);
      PreOrderIsForward(R);
      forall e | e in TreeEdges(F)
        ensures InBlocks(t.id, PreOrder(t.kids), PreOrder(R), Elements(TreeEdges(t.kids)), Elements(TreeEdges(R)), e)
      {
        if e in KidEdges(t.id, t.kids) {
          KidEdgeIn(t.id, t.kids, e);
          RootsAreLabels(t.kids, Position(RootLabels(t.kids), e.to));
        } else if e in TreeEdges(t.kids) {
          EdgesStayInside(t.kids, e);
        } else {
          EdgesStayInside(R, e);
        }
      }
      ForwardBlocks(t.id, PreOrder(t.kids), PreOrder(R), Elements(TreeEdges(t.kids)), Elements(TreeEdges(R)),
                    Elements(TreeEdges(F)));
    }
  }

  // ------------------------------------------------------------- main results

  // The topological orders of a tree: each node once, parents before children.
  ghost predicate IsTreeOrder(t: Rose, order: seq<int>) {
    IsTopologicalOrder(Elements(PreOrder([t])), Elements(TreeEdges([t])), order)
  }

  lemma TreeOrderCovers(t: Rose, order: seq<int>)
    requires IsTreeOrder(t, order)
    ensures Covered([t], order)
    ensures forall e :: e in TreeEdges([t]) ==> e.from in order && e.to in order
  {
    forall x | x in PreOrder([t]) ensures x in order {
      assert x in Elements(PreOrder([t]));
      assert x in Elements(order);
    }
    EdgesCovered([t], order);
  }

  // The sum over the tree's edges of (position of child) - (position of parent).
  ghost function EdgeLength(t: Rose, order: seq<int>): int
    requires IsTreeOrder(t, order)
  {
    TreeOrderCovers(t, order);
    TotalLength(TreeEdges([t]), order)
  }

  lemma {:induction false} EdgeLengthIsSpan(t: Rose, order: seq<int>)
    requires IsTreeOrder(t, order) && UniqueLabels([t])
    ensures Covered([t], order)
    ensures EdgeLength(t, order) == Span([t], order, -1) - 1
  {
    TreeOrderCovers(t, order);
    RootsAreLabels([t], 0);
    assert [t][1..] == [];
    assert TreeEdges([t]) == KidEdges(t.id, t.kids) + TreeEdges(t.kids);
    SpanIsTotalLength(t.id, t.kids, order);
    DistinctSameSet(order, PreOrder([t]));
    var i := FirstIsRoot([t], order);
    assert Position(order, t.id) == 0;
  }

  lemma {:induction false} SortedPreOrderIsTreeOrder(t: Rose)
    requires UniqueLabels([t])
    ensures UniqueLabels([SortShape(t)])
    ensures Nodes([SortShape(t)]) == Nodes([t])
    ensures Elements(TreeEdges([SortShape(t)])) == Elements(TreeEdges([t]))
    ensures IsTreeOrder(t, PreOrder([SortShape(t)]))
  {
    SortSingleton(t);
    SortKeepsNodes([t]);
    DistinctIsMultiset(PreOrder([t]));
    DistinctIsMultiset(PreOrder([SortShape(t)]));
    forall e ensures e in TreeEdges([SortShape(t)]) <==> e in TreeEdges([t]) {
      SortKeepsEdges([t], e);
    }
    PreOrderIsForward([SortShape(t)]);
    SameMultisetSameSet(PreOrder([SortShape(t)]), PreOrder([t]));
  }

  lemma SortSingleton(t: Rose)
    ensures SortForest([t]) == [SortShape(t)]
  {
    assert [t][1..] == [];
  }

  /** The tree sort's promise: among all topological orders of the tree, the
      pre-order of the sorted tree has the least total edge length. */
  lemma {:induction false} SortedIsOptimal(t: Rose, order: seq<int>)
    requires UniqueLabels([t])
    requires IsTreeOrder(t, order)
    ensures IsTreeOrder(t, PreOrder([SortShape(t)]))
    ensures EdgeLength(t, PreOrder([SortShape(t)])) <= EdgeLength(t, order)
  {
    var s := SortShape(t);
    var best := PreOrder([s]);
    SortedPreOrderIsTreeOrder(t);
    SortSingleton(t);
    EdgeLengthIsSpan(t, best);
    EdgeLengthIsSpan(t, order);
    SameNodesCovered([t], [s], order);
    SortKeepsSpan([t], order, -1);
    SortKeepsSpan([t], best, -1);
    SortIsAscending([t]);
    AscendingIsBest([s]);
    DistinctSameSet(order, PreOrder([t]));
    LowerBound([s], order);
  }

  // ---------------------------------------------------------------- canonical

  ghost predicate StrictlySorted(F: Forest) {
    forall i, j :: 0 <= i < j < |F| ==> Leq(F[i], F[j]) && F[i].id != F[j].id
  }

  lemma SameMembersEmpty(A: Forest, B: Forest)
    requires forall x :: x in A <==> x in B
    ensures A == [] <==> B == []
  {
    assert A != [] ==> A[0] in B;
    assert B != [] ==> B[0] in A;
  }

  lemma {:induction false} SortedIsUnique(A: Forest, B: Forest)
    requires StrictlySorted(A) && StrictlySorted(B)
    requires forall x :: x in A <==> x in B
    ensures A == B
  {
    SameMembersEmpty(A, B);
    if A == [] {
    } else {
      assert A[0] in A && A[0] in B;
      assert B[0] in B && B[0] in A;
      assert A[0] == B[0];
      forall x ensures x in A[1..] <==> x in B[1..] {
        SplitHead(A, x);
        SplitHead(B, x);
      }
      SortedIsUnique(A[1..], B[1..]);
      assert A == [A[0]] + A[1..] && B == [B[0]] + B[1..];
    }
  }

  lemma SplitHead(A: Forest, x: Rose)
    requires A != [] && StrictlySorted(A)
    ensures x in A[1..] <==> x in A && x != A[0]
  {
    assert A == [A[0]] + A[1..];
  }

  lemma {:induction false} InsertIsSorted(t: Rose, F: Forest)
    requires StrictlySorted(F)
    requires forall i :: 0 <= i < |F| ==> F[i].id != t.id
    ensures StrictlySorted(Insert(t, F))
  {
    if F == [] || Leq(t, F[0]) {
    } else {
      var G := Insert(t, F[1..]);
      InsertIsSorted(t, F[1..]);
      forall j | 0 <= j < |G| ensures Leq(F[0], G[j]) && F[0].id != G[j].id {
        InsertMembers(t, F[1..], G[j]);
        if G[j] in F[1..] {
          var k :| 0 <= k < |F[1..]| && F[1..][k] == G[j];
          assert F[k + 1] == G[j];
        }
      }
    }
  }

  lemma {:induction false} SortMembers(F: Forest, x: Rose)
    ensures x in SortForest(F) <==> exists i :: 0 <= i < |F| && x == SortShape(F[i])
  {
    if F != [] {
      SortMembers(F[1..], x);
      InsertMembers(SortShape(F[0]), SortForest(F[1..]), x);
      assert forall i :: 0 <= i < |F[1..]| ==> F[1..][i] == F[i + 1];
      if i :| 0 <= i < |F| && x == SortShape(F[i]) {
        if i > 0 {
          assert x == SortShape(F[1..][i - 1]);
        }
      }
    }
  }

  lemma {:induction false} SortIsSorted(F: Forest)
    requires UniqueLabels(F)
    ensures StrictlySorted(SortForest(F))
  {
    if F != [] {
      UniqueParts(F);
      SortIsSorted(F[1..]);
      var G := SortForest(F[1..]);
      forall i | 0 <= i < |G| ensures G[i].id != F[0].id {
        SortMembers(F[1..], G[i]);
        var k :| 0 <= k < |F[1..]| && G[i] == SortShape(F[1..][k]);
        RootsAreLabels(F[1..], k);
      }
      InsertIsSorted(SortShape(F[0]), G);
    }
  }

  // E says exactly which children every node of the forest has.
  ghost predicate Described(E: set<Edge>, F: Forest)
    decreases F
  {
    F != [] ==>
      && (forall x :: x in RootLabels(F[0].kids) <==> Edge(F[0].id, x) in E)
      && Described(E, F[0].kids)
      && Described(E, F[1..])
  }

  lemma {:induction false} DescribedMember(E: set<Edge>, F: Forest, i: nat)
    requires Described(E, F) && i < |F|
    ensures Described(E, [F[i]])
  {
    if i == 0 {
      assert [F[0]][1..] == [];
    } else {
      DescribedMember(E, F[1..], i - 1);
    }
  }

  lemma {:induction false} EdgesDescribe(F: Forest, E: set<Edge>)
    requires UniqueLabels(F)
    requires forall e :: e in TreeEdges(F) ==> e in E
    requires forall e :: e in E && e.from in PreOrder(F) ==> e in TreeEdges(F)
    ensures Described(E, F)
    decreases F
  {
    if F != [] {
      var t, R := F[0], F[1..];
      UniqueParts(F);
      forall e | e in E && e.from in PreOrder(F)
        ensures e.from == t.id ==> e in KidEdges(t.id, t.kids)
        ensures e.from in PreOrder(t.kids) ==> e in TreeEdges(t.kids)
        ensures e.from in PreOrder(R) ==> e in TreeEdges(R)
      {
        KidEdgeIn(t.id, t.kids, e);
        if e in TreeEdges(t.kids) {
          EdgesStayInside(t.kids, e);
        }
        if e in TreeEdges(R) {
          EdgesStayInside(R, e);
        }
      }
      forall x ensures x in RootLabels(t.kids) <==> Edge(t.id, x) in E {
        KidEdgeIn(t.id, t.kids, Edge(t.id, x));
      }
      EdgesDescribe(t.kids, E);
      EdgesDescribe(R, E);
    }
  }

  lemma {:induction false} DescribedIsSorted(E: set<Edge>, t: Rose, u: Rose)
    requires Described(E, [t]) && Described(E, [u]) && t.id == u.id
    requires UniqueLabels([t]) && UniqueLabels([u])
    ensures SortShape(t) == SortShape(u)
    decreases t
  {
    UniqueParts([t]);
    UniqueParts([u]);
    forall x | x in SortForest(t.kids) ensures x in SortForest(u.kids) {
      DescribedKids(E, t, u, x);
    }
    forall x | x in SortForest(u.kids) ensures x in SortForest(t.kids) {
      SortMembers(u.kids, x);
      var j :| 0 <= j < |u.kids| && x == SortShape(u.kids[j]);
      assert RootLabels(u.kids)[j] in RootLabels(t.kids);
      var i := Position(RootLabels(t.kids), u.kids[j].id);
      DescribedMember(E, t.kids, i);
      DescribedMember(E, u.kids, j);
      UniqueMember(t.kids, i);
      UniqueMember(u.kids, j);
      DescribedIsSorted(E, t.kids[i], u.kids[j]);
      SortMembers(t.kids, x);
    }
    SortIsSorted(t.kids);
    SortIsSorted(u.kids);
    SortedIsUnique(SortForest(t.kids), SortForest(u.kids));
  }

  lemma {:induction false} DescribedKids(E: set<Edge>, t: Rose, u: Rose, x: Rose)
    requires Described(E, [t]) && Described(E, [u]) && t.id == u.id
    requires UniqueLabels(t.kids) && UniqueLabels(u.kids)
    requires x in SortForest(t.kids)
    ensures x in SortForest(u.kids)
    decreases t, 0
  {
    SortMembers(t.kids, x);
    var i :| 0 <= i < |t.kids| && x == SortShape(t.kids[i]);
    assert RootLabels(t.kids)[i] in RootLabels(u.kids);
    var j := Position(RootLabels(u.kids), t.kids[i].id);
    DescribedMember(E, t.kids, i);
    DescribedMember(E, u.kids, j);
    UniqueMember(t.kids, i);
    UniqueMember(u.kids, j);
    DescribedIsSorted(E, t.kids[i], u.kids[j]);
    SortMembers(u.kids, x);
  }

  lemma {:induction false} UniqueMember(F: Forest, i: nat)
    requires UniqueLabels(F) && i < |F|
    ensures UniqueLabels([F[i]])
  {
    UniqueParts(F);
    if i == 0 {
      assert PreOrder([F[0]]) == [F[0].id] + PreOrder(F[0].kids) + PreOrder([]) by {
        assert [F[0]][1..] == [];
      }
    } else {
      UniqueMember(F[1..], i - 1);
    }
  }

  /** Trees with the same root and the same edges, whatever the order of the
      children, sort to the same tree. */
  lemma {:induction false} SortIsCanonical(t: Rose, u: Rose)
    requires UniqueLabels([t]) && UniqueLabels([u]) && t.id == u.id
    requires Elements(TreeEdges([t])) == Elements(TreeEdges([u]))
    ensures SortShape(t) == SortShape(u)
  {
    var E := Elements(TreeEdges([t]));
    assert forall e :: e in TreeEdges([u]) <==> e in E;
    EdgesDescribe([t], E);
    EdgesDescribe([u], E);
    DescribedIsSorted(E, t, u);
  }

  lemma {:induction false} SortIsIdempotent(t: Rose)
    requires UniqueLabels([t])
    ensures SortShape(SortShape(t)) == SortShape(t)
  {
    SortedPreOrderIsTreeOrder(t);
    SortIsCanonical(SortShape(t), t);
  }

  // --------------------------------------------------------- the order itself

  // Fewer nodes first, and of two trees of one size the one with the smaller label.
  ghost predicate Precedes(a: Rose, b: Rose) {
    |PreOrder([a])| < |PreOrder([b])| || (|PreOrder([a])| == |PreOrder([b])| && a.id < b.id)
  }

  // So it is among the children of every node.
  ghost predicate ChildrenInOrder(t: Rose) {
    forall s, i, j :: IsSubtree(s, [t]) && 0 <= i < j < |s.kids| ==> Precedes(s.kids[i], s.kids[j])
  }

  lemma SizeIsWeight(t: Rose)
    ensures |PreOrder([t])| == TreeWeight(t)
  {
    PreOrderLength([t]);
    assert [t][1..] == [];
  }

  lemma StrictlySortedPrecede(F: Forest, i: nat, j: nat)
    requires StrictlySorted(F) && i < j < |F|
    ensures Precedes(F[i], F[j])
  {
    SizeIsWeight(F[i]);
    SizeIsWeight(F[j]);
    assert Leq(F[i], F[j]);
  }

  lemma {:induction false} SubtreeOfMember(s: Rose, F: Forest) returns (i: nat)
    requires IsSubtree(s, F)
    ensures i < |F| && (s == F[i] || IsSubtree(s, F[i].kids))
  {
    if s == F[0] || IsSubtree(s, F[0].kids) {
      i := 0;
    } else {
      var k := SubtreeOfMember(s, F[1..]);
      i := k + 1;
    }
  }

  // The children of every node of a sorted forest are a sorted forest.
  lemma {:induction false} SubtreeOfSorted(F: Forest, s: Rose)
    requires UniqueLabels(F) && IsSubtree(s, SortForest(F))
    ensures StrictlySorted(s.kids)
    decreases F
  {
    var i := SubtreeOfMember(s, SortForest(F));
    var x := SortForest(F)[i];
    SortMembers(F, x);
    var k :| 0 <= k < |F| && x == SortShape(F[k]);
    UniqueMember(F, k);
    UniqueParts([F[k]]);
    if s == x {
      SortIsSorted(F[k].kids);
    } else {
      SubtreeOfSorted(F[k].kids, s);
    }
  }

  /** In the sorted tree the children of every node come in order of the number of
      nodes below them, and in order of their labels where that is the same. */
  lemma SortedInOrder(t: Rose)
    requires UniqueLabels([t])
    ensures ChildrenInOrder(SortShape(t))
  {
    SortSingleton(t);
    forall s, i, j | IsSubtree(s, [SortShape(t)]) && 0 <= i < j < |s.kids| ensures Precedes(s.kids[i], s.kids[j]) {
      SubtreeOfSorted([t], s);
      StrictlySortedPrecede(s.kids, i, j);
    }
  }
}
