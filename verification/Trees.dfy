/** Rooted ordered trees as values, and the depth-first orders that list them. */
module Trees {
  import opened Edges

  // A tree node as the graph package's TreeNode sees it, without the links.
  datatype Rose = Rose(id: int, kids: seq<Rose>)

  // A forest is a sequence of trees, left to right.
  type Forest = seq<Rose>

  function RootLabels(F: Forest): (r: seq<int>)
    ensures |r| == |F|
    ensures forall i :: 0 <= i < |F| ==> r[i] == F[i].id
  {
    if F == [] then [] else [F[0].id] + RootLabels(F[1..])
  }

  function PreOrder(F: Forest): seq<int>
    decreases F
  {
    if F == [] then [] else [F[0].id] + PreOrder(F[0].kids) + PreOrder(F[1..])
  }

  function PostOrder(F: Forest): seq<int>
    decreases F
  {
    if F == [] then [] else PostOrder(F[0].kids) + [F[0].id] + PostOrder(F[1..])
  }

  // The number of nodes.
  function Weight(F: Forest): nat
    decreases F
  {
    if F == [] then 0 else 1 + Weight(F[0].kids) + Weight(F[1..])
  }

  function TreeWeight(t: Rose): (w: nat) {
    1 + Weight(t.kids)
  }

  // The edges from a parent p to each root of F.
  function KidEdges(p: int, F: Forest): seq<Edge> {
    if F == [] then [] else [Edge(p, F[0].id)] + KidEdges(p, F[1..])
  }

  // All parent-to-child edges inside the forest.
  function TreeEdges(F: Forest): seq<Edge>
    decreases F
  {
    if F == [] then [] else
      KidEdges(F[0].id, F[0].kids) + TreeEdges(F[0].kids) + TreeEdges(F[1..])
  }

  // The labels of a forest, as the order-free collection of its nodes.
  ghost function Nodes(F: Forest): multiset<int> {
    multiset(PreOrder(F))
  }

  ghost predicate UniqueLabels(F: Forest) {
    Distinct(PreOrder(F))
  }

  // The tree s hangs at some node of the forest.
  ghost predicate IsSubtree(s: Rose, F: Forest)
    decreases F
  {
    F != [] && (s == F[0] || IsSubtree(s, F[0].kids) || IsSubtree(s, F[1..]))
  }

  // ------------------------------------------------------------ concatenation

  lemma AppendAssoc<T>(a: seq<T>, b: seq<T>, c: seq<T>)
    ensures a + (b + c) == (a + b) + c
  {
  }

  lemma {:induction false} PreOrderConcat(A: Forest, B: Forest)
    ensures PreOrder(A + B) == PreOrder(A) + PreOrder(B)
  {
    if A == [] {
      assert A + B == B;
    } else {
      PreOrderConcat(A[1..], B);
      assert (A + B)[1..] == A[1..] + B;
      AppendAssoc([A[0].id] + PreOrder(A[0].kids), PreOrder(A[1..]), PreOrder(B));
    }
  }

  lemma {:induction false} PostOrderConcat(A: Forest, B: Forest)
    ensures PostOrder(A + B) == PostOrder(A) + PostOrder(B)
  {
    if A == [] {
      assert A + B == B;
    } else {
      PostOrderConcat(A[1..], B);
      assert (A + B)[1..] == A[1..] + B;
      AppendAssoc(PostOrder(A[0].kids) + [A[0].id], PostOrder(A[1..]), PostOrder(B));
    }
  }

  lemma {:induction false} WeightConcat(A: Forest, B: Forest)
    ensures Weight(A + B) == Weight(A) + Weight(B)
  {
    if A == [] {
      assert A + B == B;
    } else {
      WeightConcat(A[1..], B);
      assert (A + B)[1..] == A[1..] + B;
    }
  }

  lemma {:induction false} TreeEdgesConcat(A: Forest, B: Forest)
    ensures TreeEdges(A + B) == TreeEdges(A) + TreeEdges(B)
  {
    if A == [] {
      assert A + B == B;
    } else {
      TreeEdgesConcat(A[1..], B);
      assert (A + B)[1..] == A[1..] + B;
      AppendAssoc(KidEdges(A[0].id, A[0].kids) + TreeEdges(A[0].kids), TreeEdges(A[1..]), TreeEdges(B));
    }
  }

  lemma {:induction false} PreOrderLength(F: Forest)
    ensures |PreOrder(F)| == Weight(F)
    decreases F
  {
    if F != [] {
      PreOrderLength(F[0].kids);
      PreOrderLength(F[1..]);
    }
  }

  // --------------------------------------------------------------- membership

  lemma KidEdgeIn(p: int, F: Forest, e: Edge)
    ensures e in KidEdges(p, F) <==> e.from == p && e.to in RootLabels(F)
  {
  }

  lemma {:induction false} RootsAreLabels(F: Forest, i: nat)
    requires i < |F|
    ensures F[i].id in PreOrder(F)
    ensures forall x :: x in PreOrder(F[i].kids) ==> x in PreOrder(F)
  {
    if i > 0 {
      RootsAreLabels(F[1..], i - 1);
    }
  }

  lemma {:induction false} EdgesStayInside(F: Forest, e: Edge)
    requires e in TreeEdges(F)
    ensures e.from in PreOrder(F) && e.to in PreOrder(F)
    decreases F
  {
    var t := F[0];
    if e in KidEdges(t.id, t.kids) {
      KidEdgeIn(t.id, t.kids, e);
      var i :| 0 <= i < |t.kids| && RootLabels(t.kids)[i] == e.to;
      RootsAreLabels(t.kids, i);
    } else if e in TreeEdges(t.kids) {
      EdgesStayInside(t.kids, e);
    } else {
      EdgesStayInside(F[1..], e);
    }
  }

  // Every label that is not a root has a parent in the forest.
  lemma {:induction false} NonRootHasParent(F: Forest, x: int)
    requires x in PreOrder(F) && x !in RootLabels(F)
    ensures exists e :: e in TreeEdges(F) && e.to == x
    decreases F
  {
    var t := F[0];
    assert RootLabels(F)[0] == t.id;
    if x in PreOrder(t.kids) {
      if x in RootLabels(t.kids) {
        KidEdgeIn(t.id, t.kids, Edge(t.id, x));
        assert Edge(t.id, x) in TreeEdges(F);
      } else {
        NonRootHasParent(t.kids, x);
        var e :| e in TreeEdges(t.kids) && e.to == x;
        assert e in TreeEdges(F);
      }
    } else {
      assert x in PreOrder(F[1..]);
      assert RootLabels(F) == [t.id] + RootLabels(F[1..]);
      NonRootHasParent(F[1..], x);
      var e :| e in TreeEdges(F[1..]) && e.to == x;
      assert e in TreeEdges(F);
    }
  }

  // ----------------------------------------------------------------- uniqueness

  lemma {:induction false} DistinctIsMultiset<T>(s: seq<T>)
    ensures Distinct(s) <==> forall x :: multiset(s)[x] <= 1
  {
    if s == [] {
    } else {
      var rest, last := s[..|s| - 1], s[|s| - 1];
      assert s == rest + [last];
      assert multiset(s) == multiset(rest) + multiset{last};
      DistinctIsMultiset(rest);
      if Distinct(s) {
        assert last !in rest;
      } else if Distinct(rest) {
        var i, j :| 0 <= i < j < |s| && s[i] == s[j];
        assert j == |s| - 1;
        assert last == rest[i];
        assert multiset(s)[last] == multiset(rest)[last] + 1;
      } else {
        var x :| multiset(rest)[x] > 1;
        assert multiset(s)[x] > 1;
      }
    }
  }

  lemma SameMultisetSameSet<T>(a: seq<T>, b: seq<T>)
    requires multiset(a) == multiset(b)
    ensures Elements(a) == Elements(b)
  {
    forall x ensures x in a <==> x in b {
      assert x in a <==> x in multiset(a);
      assert x in b <==> x in multiset(b);
    }
  }

  lemma DistinctSameSet<T>(a: seq<T>, b: seq<T>)
    requires Distinct(a) && Distinct(b) && Elements(a) == Elements(b)
    ensures multiset(a) == multiset(b)
  {
    DistinctIsMultiset(a);
    DistinctIsMultiset(b);
    forall x ensures multiset(a)[x] == multiset(b)[x] {
      assert x in a <==> x in Elements(a);
      assert x in b <==> x in Elements(b);
      assert x in a <==> x in multiset(a);
      assert x in b <==> x in multiset(b);
    }
  }

  // A tree with unique labels does not repeat its root below the root, and the
  // parts of a forest with unique labels have unique labels and share none.
  lemma {:induction false} UniqueParts(F: Forest)
    requires F != [] && UniqueLabels(F)
    ensures UniqueLabels(F[0].kids) && UniqueLabels(F[1..])
    ensures F[0].id !in PreOrder(F[0].kids) && F[0].id !in PreOrder(F[1..])
    ensures forall x :: x in PreOrder(F[0].kids) ==> x !in PreOrder(F[1..])
  {
    var a, b := PreOrder(F[0].kids), PreOrder(F[1..]);
    var s := PreOrder(F);
    assert s == [F[0].id] + a + b;
    assert forall i :: 0 <= i < |a| ==> s[1 + i] == a[i];
    assert forall i :: 0 <= i < |b| ==> s[1 + |a| + i] == b[i];
    assert s[0] == F[0].id;
    forall x | x in a ensures x != F[0].id && x !in b {
      var i :| 0 <= i < |a| && a[i] == x;
      assert s[1 + i] == x;
    }
    forall x | x in b ensures x != F[0].id {
      var i :| 0 <= i < |b| && b[i] == x;
      assert s[1 + |a| + i] == x;
    }
  }

  lemma PostOrderNodes(F: Forest)
    ensures multiset(PostOrder(F)) == Nodes(F)
    decreases F
  {
    if F != [] {
      PostOrderNodes(F[0].kids);
      PostOrderNodes(F[1..]);
    }
  }
}
