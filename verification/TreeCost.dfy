/** The cost of listing a tree in a given order, and the least cost of any
    topological order.

    The cost is the sum, over all edges, of the child's position minus the
    parent's position. The argument is a game on forests: listing a tree in a
    topological order repeatedly takes a root of the remaining forest and puts
    that root's children in its place, and each such step costs one for every
    tree that was waiting. `Best` is a closed form that no step can beat. */
module TreeCost {
  import opened Edges
  import opened Trees

  function TotalLength(edges: seq<Edge>, order: seq<int>): int
    requires forall e :: e in edges ==> e.from in order && e.to in order
  {
    if edges == [] then 0 else
      Position(order, edges[0].to) - Position(order, edges[0].from) + TotalLength(edges[1..], order)
  }

  // Every label of the forest occurs in the order.
  ghost predicate Covered(F: Forest, order: seq<int>) {
    forall x :: x in PreOrder(F) ==> x in order
  }

  lemma {:induction false} CoveredConcat(A: Forest, B: Forest, order: seq<int>)
    ensures Covered(A + B, order) <==> Covered(A, order) && Covered(B, order)
  {
    PreOrderConcat(A, B);
    assert forall x :: x in PreOrder(A + B) <==> x in PreOrder(A) || x in PreOrder(B);
  }

  // The total length of a forest's edges plus that of one extra edge into each
  // root from position p.
  function Span(F: Forest, order: seq<int>, p: int): int
    requires Covered(F, order)
    decreases F
  {
    if F == [] then 0 else
      RootsAreLabels(F, 0);
      var at := Position(order, F[0].id);
      (at - p) + Span(F[0].kids, order, at) + Span(F[1..], order, p)
  }

  // The sum over the forest of min(n, weight).
  function Cross(n: nat, F: Forest): nat {
    if F == [] then 0 else Min(n, TreeWeight(F[0])) + Cross(n, F[1..])
  }

  function Min(a: nat, b: nat): nat {
    if a <= b then a else b
  }

  // The least possible Span from position -1 over all topological orders: one
  // per node, plus min(weight, weight) for every pair of sibling trees.
  function Best(F: Forest): nat
    decreases F
  {
    if F == [] then 0 else
      1 + Best(F[0].kids) + Cross(TreeWeight(F[0]), F[1..]) + Best(F[1..])
  }

  // ------------------------------------------------------- Span is TotalLength

  lemma {:induction false} TotalLengthConcat(a: seq<Edge>, b: seq<Edge>, order: seq<int>)
    requires forall e :: e in a ==> e.from in order && e.to in order
    requires forall e :: e in b ==> e.from in order && e.to in order
    ensures TotalLength(a + b, order) == TotalLength(a, order) + TotalLength(b, order)
  {
    if a == [] {
      assert a + b == b;
    } else {
      assert (a + b)[1..] == a[1..] + b;
      TotalLengthConcat(a[1..], b, order);
    }
  }

  lemma {:induction false} EdgesCovered(F: Forest, order: seq<int>)
    requires Covered(F, order)
    ensures forall e :: e in TreeEdges(F) ==> e.from in order && e.to in order
  {
    forall e | e in TreeEdges(F) ensures e.from in order && e.to in order {
      EdgesStayInside(F, e);
    }
  }

  lemma {:induction false} KidEdgesCovered(p: int, F: Forest, order: seq<int>)
    requires p in order
    requires Covered(F, order)
    ensures forall e :: e in KidEdges(p, F) ==> e.from in order && e.to in order
  {
    forall e | e in KidEdges(p, F) ensures e.from in order && e.to in order {
      KidEdgeIn(p, F, e);
      var i :| 0 <= i < |F| && RootLabels(F)[i] == e.to;
      RootsAreLabels(F, i);
    }
  }

  lemma {:induction false} SpanIsTotalLength(p: int, F: Forest, order: seq<int>)
    requires p in order
    requires Covered(F, order)
    requires forall e :: e in KidEdges(p, F) + TreeEdges(F) ==> e.from in order && e.to in order
    ensures TotalLength(KidEdges(p, F) + TreeEdges(F), order) == Span(F, order, Position(order, p))
    decreases F
  {
    if F == [] {
    } else {
      var t, R := F[0], F[1..];
      RootsAreLabels(F, 0);
      EdgesCovered(t.kids, order);
      KidEdgesCovered(t.id, t.kids, order);
      EdgesCovered(R, order);
      KidEdgesCovered(p, R, order);
      SpanIsTotalLength(t.id, t.kids, order);
      SpanIsTotalLength(p, R, order);
      var inner := KidEdges(t.id, t.kids) + TreeEdges(t.kids);
      TotalLengthConcat(KidEdges(p, F), TreeEdges(F), order);
      TotalLengthConcat(KidEdges(p, R), TreeEdges(R), order);
      TotalLengthConcat(inner, TreeEdges(R), order);
      assert KidEdges(p, F)[1..] == KidEdges(p, R);
    }
  }

  // ------------------------------------------------------------ moving by one

  lemma {:induction false} SpanConcat(A: Forest, B: Forest, order: seq<int>, p: int)
    requires Covered(A, order)
    requires Covered(B, order)
    requires Covered(A + B, order)
    ensures Span(A + B, order, p) == Span(A, order, p) + Span(B, order, p)
  {
    if A == [] {
      assert A + B == B;
    } else {
      assert (A + B)[1..] == A[1..] + B;
      SpanConcat(A[1..], B, order, p);
    }
  }

  // Starting the extra edges one position earlier costs one per root.
  lemma {:induction false} SpanEarlier(F: Forest, order: seq<int>, p: int)
    requires Covered(F, order)
    ensures Span(F, order, p - 1) == Span(F, order, p) + |F|
  {
    if F != [] {
      SpanEarlier(F[1..], order, p);
    }
  }

  // Dropping a first element that is not in the forest shifts everything by one.
  lemma {:induction false} SpanShift(F: Forest, order: seq<int>, p: int)
    requires order != []
    requires order[0] !in order[1..] && Covered(F, order[1..]) && Covered(F, order)
    ensures Span(F, order, p) == Span(F, order[1..], p - 1)
    decreases F
  {
    if F != [] {
      RootsAreLabels(F, 0);
      SpanShift(F[0].kids, order, Position(order, F[0].id));
      SpanShift(F[1..], order, p);
    }
  }

  // The forest that is left after listing the root of its i-th tree.
  function Taken(F: Forest, i: nat): Forest
    requires i < |F|
  {
    F[..i] + F[i].kids + F[i + 1..]
  }

  lemma {:induction false} TakenOrder(F: Forest, i: nat)
    requires i < |F|
    ensures PreOrder(F) == PreOrder(F[..i]) + ([F[i].id] + PreOrder(F[i].kids)) + PreOrder(F[i + 1..])
    ensures PreOrder(Taken(F, i)) == PreOrder(F[..i]) + PreOrder(F[i].kids) + PreOrder(F[i + 1..])
    ensures TreeEdges(F) ==
      TreeEdges(F[..i]) + (KidEdges(F[i].id, F[i].kids) + TreeEdges(F[i].kids)) + TreeEdges(F[i + 1..])
    ensures TreeEdges(Taken(F, i)) == TreeEdges(F[..i]) + TreeEdges(F[i].kids) + TreeEdges(F[i + 1..])
  {
    assert F == F[..i] + F[i..] && F[i..][0] == F[i] && F[i..][1..] == F[i + 1..];
    PreOrderConcat(F[..i], F[i..]);
    TreeEdgesConcat(F[..i], F[i..]);
    PreOrderConcat(F[..i], F[i].kids);
    TreeEdgesConcat(F[..i], F[i].kids);
    PreOrderConcat(F[..i] + F[i].kids, F[i + 1..]);
    TreeEdgesConcat(F[..i] + F[i].kids, F[i + 1..]);
    AppendAssoc(PreOrder(F[..i]), [F[i].id] + PreOrder(F[i].kids), PreOrder(F[i + 1..]));
    AppendAssoc(TreeEdges(F[..i]), KidEdges(F[i].id, F[i].kids) + TreeEdges(F[i].kids), TreeEdges(F[i + 1..]));
  }

  // The forest with the i-th tree apart.
  lemma {:induction false} SpanSplit(A: Forest, t: Rose, B: Forest, order: seq<int>, p: int)
    requires Covered(A + ([t] + B), order)
    ensures Covered(A, order) && Covered([t] + B, order)
    ensures ([t] + B)[1..] == B && t.id in order && Covered(t.kids, order) && Covered(B, order)
    ensures Span(A + ([t] + B), order, p)
         == Span(A, order, p) + (Position(order, t.id) - p) + Span(t.kids, order, Position(order, t.id))
            + Span(B, order, p)
  {
    var G := [t] + B;
    assert G[1..] == B && G[0] == t;
    CoveredConcat(A, G, order);
    RootsAreLabels(G, 0);
    assert forall x :: x in PreOrder(B) ==> x in PreOrder(G);
    SpanConcat(A, G, order, p);
  }

  lemma {:induction false} SpanJoin(A: Forest, K: Forest, B: Forest, order: seq<int>, p: int)
    requires Covered(A + K + B, order)
    ensures Covered(A, order) && Covered(K, order) && Covered(B, order)
    ensures Span(A + K + B, order, p) == Span(A, order, p) + Span(K, order, p) + Span(B, order, p)
  {
    CoveredConcat(A + K, B, order);
    CoveredConcat(A, K, order);
    SpanConcat(A + K, B, order, p);
    SpanConcat(A, K, order, p);
  }

  // Trees that wait for another root to be listed.
  lemma {:induction false} SpanWaits(F: Forest, order: seq<int>)
    requires order != [] && order[0] !in order[1..] && Covered(F, order[1..]) && Covered(F, order)
    ensures Span(F, order, -1) == Span(F, order[1..], -1) + |F|
  {
    SpanShift(F, order, -1);
    SpanEarlier(F, order[1..], -1);
  }

  // One step of the game: listing a root first costs one per waiting tree.
  lemma {:induction false} SpanStep(F: Forest, i: nat, order: seq<int>)
    requires i < |F| && order != [] && order[0] == F[i].id && order[0] !in order[1..]
    requires Covered(F, order) && Covered(Taken(F, i), order[1..])
    ensures Span(F, order, -1) == |F| + Span(Taken(F, i), order[1..], -1)
  {
    var A, t, B := F[..i], F[i], F[i + 1..];
    var rest := order[1..];
    assert F == A + ([t] + B);
    SpanSplit(A, t, B, order, -1);
    SpanJoin(A, t.kids, B, rest, -1);
    SpanWaits(A, order);
    SpanShift(t.kids, order, 0);
    SpanWaits(B, order);
  }

  // ------------------------------------------------------------- no step wins

  function CrossAll(A: Forest, B: Forest): nat {
    if A == [] then 0 else Cross(TreeWeight(A[0]), B) + CrossAll(A[1..], B)
  }

  lemma {:induction false} CrossConcat(n: nat, A: Forest, B: Forest)
    ensures Cross(n, A + B) == Cross(n, A) + Cross(n, B)
  {
    if A == [] {
      assert A + B == B;
    } else {
      assert (A + B)[1..] == A[1..] + B;
      CrossConcat(n, A[1..], B);
    }
  }

  lemma {:induction false} BestConcat(A: Forest, B: Forest)
    ensures Best(A + B) == Best(A) + CrossAll(A, B) + Best(B)
  {
    if A == [] {
      assert A + B == B;
    } else {
      assert (A + B)[1..] == A[1..] + B;
      BestConcat(A[1..], B);
      CrossConcat(TreeWeight(A[0]), A[1..], B);
    }
  }

  // Replacing a tree by its children loses at most one from any minimum.
  lemma {:induction false} CrossOfKids(n: nat, F: Forest)
    ensures Min(n, Weight(F)) <= Cross(n, F)
  {
    if F != [] {
      CrossOfKids(n, F[1..]);
    }
  }

  lemma {:induction false} CrossAllOfKids(t: Rose, B: Forest)
    ensures Cross(TreeWeight(t), B) <= |B| + CrossAll(t.kids, B)
  {
    if B == [] {
    } else {
      CrossAllOfKids(t, B[1..]);
      CrossAllSnoc(t.kids, B);
      CrossOfKids(TreeWeight(B[0]), t.kids);
    }
  }

  lemma {:induction false} CrossAllSnoc(A: Forest, B: Forest)
    requires B != []
    ensures CrossAll(A, B) == Cross(TreeWeight(B[0]), A) + CrossAll(A, B[1..])
  {
    if A != [] {
      CrossAllSnoc(A[1..], B);
    }
  }

  lemma {:induction false} CrossOfTaken(n: nat, F: Forest, i: nat)
    requires i < |F|
    ensures Cross(n, F) <= 1 + Cross(n, Taken(F, i))
  {
    var A, t, B := F[..i], F[i], F[i + 1..];
    assert F == A + ([t] + B) && ([t] + B)[1..] == B;
    CrossConcat(n, A, [t] + B);
    CrossConcat(n, A, t.kids);
    CrossConcat(n, A + t.kids, B);
    CrossOfKids(n, t.kids);
  }

  // Bellman's inequality for the game.
  lemma {:induction false} NoStepWins(F: Forest, i: nat)
    requires i < |F|
    ensures Best(F) <= |F| + Best(Taken(F, i))
  {
    var t, R := F[0], F[1..];
    if i == 0 {
      assert Taken(F, 0) == t.kids + R;
      BestConcat(t.kids, R);
      CrossAllOfKids(t, R);
    } else {
      NoStepWins(R, i - 1);
      assert Taken(F, i) == [t] + Taken(R, i - 1);
      assert ([t] + Taken(R, i - 1))[1..] == Taken(R, i - 1);
      CrossOfTaken(TreeWeight(t), R, i - 1);
    }
  }

  // ------------------------------------------------------------- lower bound

  // What a topological order of a forest is, in the form the game uses.
  ghost predicate Lists(F: Forest, order: seq<int>) {
    && Distinct(order)
    && multiset(order) == Nodes(F)
    && Forward(Elements(TreeEdges(F)), order)
  }

  lemma ListsCovers(F: Forest, order: seq<int>)
    requires Lists(F, order)
    ensures forall x :: x in PreOrder(F) <==> x in order
  {
    SameMultisetSameSet(order, PreOrder(F));
    assert forall x :: x in order <==> x in Elements(order);
    assert forall x :: x in PreOrder(F) <==> x in Elements(PreOrder(F));
  }

  // A topological order starts with a root.
  lemma {:induction false} FirstIsRoot(F: Forest, order: seq<int>) returns (i: nat)
    requires Lists(F, order) && order != []
    ensures i < |F| && F[i].id == order[0]
  {
    ListsCovers(F, order);
    var x := order[0];
    if x !in RootLabels(F) {
      NonRootHasParent(F, x);
      var e :| e in TreeEdges(F) && e.to == x;
      EdgesStayInside(F, e);
      assert false;
    }
    i := Position(RootLabels(F), x);
  }

  lemma {:induction false} DistinctRest(order: seq<int>)
    requires Distinct(order) && order != []
    ensures Distinct(order[1..]) && order[0] !in order[1..]
    ensures multiset(order[1..]) == multiset(order) - multiset{order[0]}
  {
    assert order == [order[0]] + order[1..];
    assert multiset(order) == multiset{order[0]} + multiset(order[1..]);
  }

  lemma ForwardRest(E: set<Edge>, E': set<Edge>, order: seq<int>)
    requires Forward(E, order) && E' <= E && order != []
    ensures Forward(E', order[1..])
  {
    var rest := order[1..];
    assert forall j :: 0 <= j < |rest| ==> rest[j] == order[j + 1];
  }

  lemma {:induction false} TakenNodes(F: Forest, i: nat)
    requires i < |F|
    ensures Nodes(F) == multiset{F[i].id} + Nodes(Taken(F, i))
    ensures Elements(TreeEdges(Taken(F, i))) <= Elements(TreeEdges(F))
  {
    TakenOrder(F, i);
  }

  // What is left after the first step is again a topological order.
  lemma {:induction false} ListsRest(F: Forest, i: nat, order: seq<int>)
    requires Lists(F, order) && order != [] && i < |F| && F[i].id == order[0]
    ensures Lists(Taken(F, i), order[1..])
    ensures order[0] !in order[1..]
  {
    TakenNodes(F, i);
    DistinctRest(order);
    assert multiset(order[1..]) == (multiset{F[i].id} + Nodes(Taken(F, i))) - multiset{order[0]};
    ForwardRest(Elements(TreeEdges(F)), Elements(TreeEdges(Taken(F, i))), order);
  }

  lemma {:induction false} LowerBound(F: Forest, order: seq<int>)
    requires Lists(F, order)
    requires Covered(F, order)
    ensures Best(F) <= Span(F, order, -1)
    decreases |order|
  {
    if order == [] {
    } else {
      var i := FirstIsRoot(F, order);
      ListsRest(F, i, order);
      ListsCovers(Taken(F, i), order[1..]);
      SpanStep(F, i, order);
      LowerBound(Taken(F, i), order[1..]);
      NoStepWins(F, i);
    }
  }

  // ------------------------------------------------------- the bound is reached

  // Trees come in order of weight, here and among the children of every node.
  ghost predicate Ascending(F: Forest)
    decreases F
  {
    F != [] ==>
      && (forall j :: 0 < j < |F| ==> TreeWeight(F[0]) <= TreeWeight(F[j]))
      && Ascending(F[0].kids)
      && Ascending(F[1..])
  }

  // No tree of A is heavier than a tree of B.
  ghost predicate Lighter(A: Forest, B: Forest) {
    forall i, j :: 0 <= i < |A| && 0 <= j < |B| ==> TreeWeight(A[i]) <= TreeWeight(B[j])
  }

  lemma LighterTail(A: Forest, B: Forest)
    requires A != [] && Lighter(A, B)
    ensures Lighter(A[1..], B) && Lighter([A[0]], B)
  {
  }

  lemma AscendingHead(t: Rose, A: Forest, B: Forest)
    requires Ascending(t.kids) && Ascending(A + B) && Lighter([t], A) && Lighter([t], B)
    ensures Ascending([t] + (A + B))
  {
    var F := [t] + (A + B);
    assert F[1..] == A + B;
    forall j | 0 < j < |F| ensures TreeWeight(F[0]) <= TreeWeight(F[j]) {
      assert [t][0] == t;
      assert F[j] == if j - 1 < |A| then A[j - 1] else B[j - 1 - |A|];
    }
  }

  lemma AscendingParts(A: Forest)
    requires A != [] && Ascending(A)
    ensures Ascending(A[0].kids) && Ascending(A[1..]) && Lighter([A[0]], A[1..])
  {
    forall i, j | 0 <= i < 1 && 0 <= j < |A| - 1 ensures TreeWeight([A[0]][i]) <= TreeWeight(A[1..][j]) {
      assert A[1..][j] == A[j + 1];
    }
  }

  lemma HeadAndTail(A: Forest, B: Forest)
    requires A != []
    ensures A + B == [A[0]] + (A[1..] + B)
  {
  }

  lemma {:induction false} AscendingConcat(A: Forest, B: Forest)
    requires Ascending(A) && Ascending(B) && Lighter(A, B)
    ensures Ascending(A + B)
  {
    if A == [] {
      assert A + B == B;
    } else {
      AscendingParts(A);
      LighterTail(A, B);
      AscendingConcat(A[1..], B);
      AscendingHead(A[0], A[1..], B);
      HeadAndTail(A, B);
    }
  }

  lemma {:induction false} KidIsLighter(F: Forest, i: nat)
    requires i < |F|
    ensures TreeWeight(F[i]) <= Weight(F)
  {
    if i > 0 {
      KidIsLighter(F[1..], i - 1);
    }
  }

  // With weights at most n nothing is lost in the minimum.
  lemma {:induction false} CrossIsWeight(n: nat, F: Forest)
    requires Weight(F) <= n
    ensures Cross(n, F) == Weight(F)
  {
    if F != [] {
      CrossIsWeight(n, F[1..]);
    }
  }

  lemma {:induction false} CrossAllIsTight(t: Rose, B: Forest)
    requires forall j :: 0 <= j < |B| ==> TreeWeight(t) <= TreeWeight(B[j])
    ensures Cross(TreeWeight(t), B) == |B| + CrossAll(t.kids, B)
  {
    if B == [] {
      CrossAllEmpty(t.kids);
    } else {
      CrossAllIsTight(t, B[1..]);
      CrossAllSnoc(t.kids, B);
      CrossIsWeight(TreeWeight(B[0]), t.kids);
    }
  }

  lemma {:induction false} CrossAllEmpty(A: Forest)
    ensures CrossAll(A, []) == 0
  {
    if A != [] {
      CrossAllEmpty(A[1..]);
    }
  }

  lemma {:induction false} AscendingAfterFirst(F: Forest)
    requires F != [] && Ascending(F)
    ensures Ascending(F[0].kids + F[1..])
  {
    var t, B := F[0], F[1..];
    forall i, j | 0 <= i < |t.kids| && 0 <= j < |B| ensures TreeWeight(t.kids[i]) <= TreeWeight(B[j]) {
      KidIsLighter(t.kids, i);
      assert B[j] == F[j + 1];
    }
    AscendingConcat(t.kids, B);
  }

  lemma {:induction false} UniqueAfterFirst(F: Forest)
    requires F != [] && UniqueLabels(F)
    ensures PreOrder(F)[1..] == PreOrder(F[0].kids + F[1..])
    ensures UniqueLabels(F[0].kids + F[1..])
    ensures F[0].id !in PreOrder(F)[1..]
  {
    UniqueParts(F);
    PreOrderConcat(F[0].kids, F[1..]);
  }

  // If going on is best after the first step, the whole is best.
  lemma FirstStepIsBest(F: Forest)
    requires F != [] && Ascending(F) && UniqueLabels(F)
    requires Span(F[0].kids + F[1..], PreOrder(F[0].kids + F[1..]), -1) == Best(F[0].kids + F[1..])
    ensures Span(F, PreOrder(F), -1) == Best(F)
  {
    var t, B := F[0], F[1..];
    assert Taken(F, 0) == t.kids + B;
    UniqueAfterFirst(F);
    SpanStep(F, 0, PreOrder(F));
    BestConcat(t.kids, B);
    CrossAllIsTight(t, B);
  }

  // Depth first, lightest tree first, every step of the game is a best step.
  lemma {:induction false} AscendingIsBest(F: Forest)
    requires Ascending(F) && UniqueLabels(F)
    ensures Span(F, PreOrder(F), -1) == Best(F)
    decreases Weight(F)
  {
    if F != [] {
      UniqueAfterFirst(F);
      AscendingAfterFirst(F);
      WeightConcat(F[0].kids, F[1..]);
      AscendingIsBest(F[0].kids + F[1..]);
      FirstStepIsBest(F);
    }
  }
}
