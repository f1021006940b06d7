/** Edge lists, walks, cycles and topological orders over int64 labels.

    Labels are only ever compared and copied by the graph package, never added
    or multiplied, so they are plain integers here. */
module Edges {
  import opened Collections


  datatype Edge = Edge(from: int, to: int)

  // ---------------------------------------------------------------- sequences

  ghost predicate Distinct<T>(s: seq<T>) {
    forall i, j :: 0 <= i < j < |s| ==> s[i] != s[j]
  }

  function Elements<T>(s: seq<T>): set<T> {
    set x | x in s
  }

  lemma ElementsSnoc<T>(s: seq<T>, x: T)
    ensures Elements(s + [x]) == Elements(s) + {x}
  {
  }

  lemma {:induction false} DistinctSize<T>(s: seq<T>)
    requires Distinct(s)
    ensures |Elements(s)| == |s|
  {
    if s == [] {
    } else {
      var rest, last := s[..|s| - 1], s[|s| - 1];
      DistinctSize(rest);
      assert s == rest + [last];
      ElementsSnoc(rest, last);
      assert last !in Elements(rest);
    }
  }

  lemma {:induction false} ElementsSize<T>(s: seq<T>)
    ensures |Elements(s)| <= |s|
    ensures |Elements(s)| == |s| ==> Distinct(s)
  {
    if s == [] {
    } else {
      var rest, last := s[..|s| - 1], s[|s| - 1];
      ElementsSize(rest);
      assert s == rest + [last];
      ElementsSnoc(rest, last);
      if last in Elements(rest) {
        assert Elements(s) == Elements(rest);
      }
    }
  }

  // The index of the first occurrence of x.
  function Position(s: seq<int>, x: int): (k: nat)
    requires x in s
    ensures k < |s| && s[k] == x
    ensures forall j :: 0 <= j < k ==> s[j] != x
  {
    if s[0] == x then 0 else 1 + Position(s[1..], x)
  }

  // -------------------------------------------------------------- edge lists

  // The labels that edges out of l lead to, in the order the edges were given.
  function Outs(edges: seq<Edge>, l: int): seq<int> {
    if edges == [] then [] else
      var e := edges[|edges| - 1];
      Outs(edges[..|edges| - 1], l) + if e.from == l then [e.to] else []
  }

  // The labels that edges into l come from, in the order the edges were given.
  function Ins(edges: seq<Edge>, l: int): seq<int> {
    if edges == [] then [] else
      var e := edges[|edges| - 1];
      Ins(edges[..|edges| - 1], l) + if e.to == l then [e.from] else []
  }

  function Endpoints(edges: seq<Edge>): set<int> {
    (set e | e in edges :: e.from) + (set e | e in edges :: e.to)
  }

  lemma {:induction false} OutsAreEdges(edges: seq<Edge>, u: int, v: int)
    ensures v in Outs(edges, u) <==> Edge(u, v) in edges
  {
    if edges == [] {
    } else {
      OutsAreEdges(edges[..|edges| - 1], u, v);
      assert edges == edges[..|edges| - 1] + [edges[|edges| - 1]];
    }
  }

  lemma {:induction false} InsAreEdges(edges: seq<Edge>, u: int, v: int)
    ensures u in Ins(edges, v) <==> Edge(u, v) in edges
  {
    if edges == [] {
    } else {
      InsAreEdges(edges[..|edges| - 1], u, v);
      assert edges == edges[..|edges| - 1] + [edges[|edges| - 1]];
    }
  }

  lemma {:induction false} EndpointsOfPrefix(edges: seq<Edge>, i: nat)
    requires i < |edges|
    ensures Endpoints(edges[..i + 1]) == Endpoints(edges[..i]) + {edges[i].from, edges[i].to}
  {
    assert edges[..i + 1] == edges[..i] + [edges[i]];
  }

  // ------------------------------------------------------------------- walks

  ghost predicate IsWalk(E: set<Edge>, p: seq<int>) {
    && |p| > 0
    && forall i :: 0 <= i < |p| - 1 ==> Edge(p[i], p[i + 1]) in E
  }

  ghost predicate Reaches(E: set<Edge>, u: int, v: int) {
    exists p :: IsWalk(E, p) && p[0] == u && p[|p| - 1] == v
  }

  ghost predicate IsCycle(E: set<Edge>, p: seq<int>) {
    IsWalk(E, p) && |p| > 1 && p[0] == p[|p| - 1]
  }

  ghost predicate HasCycle(E: set<Edge>) {
    exists p :: IsCycle(E, p)
  }

  lemma ReachesSelf(E: set<Edge>, u: int)
    ensures Reaches(E, u, u)
  {
    assert IsWalk(E, [u]);
  }

  lemma PrependWalk(E: set<Edge>, u: int, p: seq<int>)
    requires IsWalk(E, p) && Edge(u, p[0]) in E
    ensures IsWalk(E, [u] + p)
  {
    var q := [u] + p;
    assert forall i :: 0 < i < |q| ==> q[i] == p[i - 1];
  }

  lemma ReachesStep(E: set<Edge>, u: int, v: int, w: int)
    requires Edge(u, v) in E && Reaches(E, v, w)
    ensures Reaches(E, u, w)
  {
    var p :| IsWalk(E, p) && p[0] == v && p[|p| - 1] == w;
    PrependWalk(E, u, p);
    assert ([u] + p)[|p|] == w;
  }

  lemma {:induction false} ReachesThenStep(E: set<Edge>, u: int, v: int, w: int)
    requires Reaches(E, u, v) && Edge(v, w) in E
    ensures Reaches(E, u, w)
  {
    var p :| IsWalk(E, p) && p[0] == u && p[|p| - 1] == v;
    assert IsWalk(E, p + [w]);
  }

  // A set that is closed under edges holds every label reachable from a member.
  lemma {:induction false} ClosedUnderWalk(E: set<Edge>, S: set<int>, p: seq<int>)
    requires IsWalk(E, p) && p[0] in S
    requires forall e :: e in E && e.from in S ==> e.to in S
    ensures p[|p| - 1] in S
  {
    if |p| > 1 {
      ClosedUnderWalk(E, S, p[..|p| - 1]);
      assert Edge(p[|p| - 2], p[|p| - 2 + 1]) in E;
    }
  }

  // ------------------------------------------------------ topological orders

  // Every edge between two listed labels goes strictly forward.
  ghost predicate Forward(E: set<Edge>, order: seq<int>) {
    forall i, j :: 0 <= i < |order| && 0 <= j < |order| && Edge(order[i], order[j]) in E ==> i < j
  }

  ghost predicate IsTopologicalOrder(nodes: set<int>, E: set<Edge>, order: seq<int>) {
    Distinct(order) && Elements(order) == nodes && Forward(E, order)
  }

  lemma {:induction false} ForwardWalk(E: set<Edge>, order: seq<int>, p: seq<int>) returns (i: nat, j: nat)
    requires Forward(E, order) && IsWalk(E, p)
    requires forall x :: x in p ==> x in order
    ensures i < |order| && j < |order| && order[i] == p[0] && order[j] == p[|p| - 1]
    ensures |p| > 1 ==> i < j
    ensures |p| == 1 ==> i == j
  {
    if |p| == 1 {
      assert p[0] in order;
      i := Position(order, p[0]);
      j := i;
    } else {
      var k;
      i, k := ForwardWalk(E, order, p[..|p| - 1]);
      assert p[|p| - 1] in p;
      j := Position(order, p[|p| - 1]);
      assert Edge(p[|p| - 2], p[|p| - 2 + 1]) in E;
    }
  }

  // A topological order that lists every endpoint rules out cycles.
  lemma {:induction false} OrderedIsAcyclic(nodes: set<int>, E: set<Edge>, order: seq<int>)
    requires IsTopologicalOrder(nodes, E, order)
    requires forall e :: e in E ==> e.from in nodes && e.to in nodes
    ensures !HasCycle(E)
  {
    if HasCycle(E) {
      var p :| IsCycle(E, p);
      forall x | x in p ensures x in order {
        var k :| 0 <= k < |p| && p[k] == x;
        if k < |p| - 1 {
          assert Edge(p[k], p[k + 1]) in E;
        } else {
          assert Edge(p[0], p[0 + 1]) in E;
        }
        assert x in Elements(order);
      }
      var i, j := ForwardWalk(E, order, p);
      assert false;
    }
  }

  lemma CutCycle(E: set<Edge>, u: int, p: seq<int>)
    requires IsWalk(E, p) && Edge(u, p[0]) in E && u in p
    ensures exists c :: IsCycle(E, c) && Elements(c) <= Elements(p)
  {
    var k := Position(p, u);
    var c := [u] + p[..k + 1];
    assert IsWalk(E, p[..k + 1]);
    PrependWalk(E, u, p[..k + 1]);
    assert IsCycle(E, c);
    assert Elements(c) <= Elements(p);
  }

  ghost predicate HasPredecessor(E: set<Edge>, S: set<int>, v: int) {
    exists u :: u in S && Edge(u, v) in E
  }

  // Follow predecessors backwards inside S until a label repeats.
  lemma {:induction false} WalkBack(E: set<Edge>, S: set<int>, p: seq<int>)
    requires IsWalk(E, p) && Elements(p) <= S && Distinct(p)
    requires forall v {:trigger HasPredecessor(E, S, v)} :: v in S ==> HasPredecessor(E, S, v)
    ensures exists c :: IsCycle(E, c) && Elements(c) <= S
    decreases |S| - |p|
  {
    DistinctSize(p);
    SubsetSize(Elements(p), S);
    assert p[0] in Elements(p);
    assert HasPredecessor(E, S, p[0]);
    var u :| u in S && Edge(u, p[0]) in E;
    var q := [u] + p;
    PrependWalk(E, u, p);
    assert Elements(q) == Elements(p) + {u};
    if u in p {
      CutCycle(E, u, p);
    } else {
      DistinctSize(q);
      SubsetSize(Elements(q), S);
      WalkBack(E, S, q);
    }
  }

  // A nonempty set in which every label has a predecessor in the set holds a cycle.
  lemma NoSourceHasCycle(E: set<Edge>, S: set<int>, x: int)
    requires x in S
    requires forall v {:trigger HasPredecessor(E, S, v)} :: v in S ==> HasPredecessor(E, S, v)
    ensures exists c :: IsCycle(E, c) && Elements(c) <= S
  {
    assert IsWalk(E, [x]) && Elements([x]) <= S;
    WalkBack(E, S, [x]);
  }
}
