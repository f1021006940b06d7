/** The one order that a stack-based Kahn's algorithm gives for a list of edges. */
module KahnOrder {
  import opened Edges

  // How many of the sources are not done yet, counting parallel edges.
  function Pending(sources: seq<int>, done: set<int>): nat {
    if sources == [] then 0 else
      Pending(sources[..|sources| - 1], done) + if sources[|sources| - 1] in done then 0 else 1
  }

  ghost predicate Ascending(s: seq<int>) {
    forall i, j :: 0 <= i < j < |s| ==> s[i] <= s[j]
  }

  // The labels without in-edges, from the smallest to the largest.
  ghost predicate IsStart(edges: seq<Edge>, start: seq<int>) {
    && Ascending(start) && Distinct(start)
    && forall l :: l in start <==> l in Endpoints(edges) && Ins(edges, l) == []
  }

  function Occurrences(s: seq<int>, x: int): nat {
    if s == [] then 0 else Occurrences(s[..|s| - 1], x) + if s[|s| - 1] == x then 1 else 0
  }

  lemma {:induction false} OccurrencesInMultiset(s: seq<int>, x: int)
    ensures Occurrences(s, x) == multiset(s)[x]
  {
    if s != [] {
      OccurrencesInMultiset(s[..|s| - 1], x);
      assert s == s[..|s| - 1] + [s[|s| - 1]];
    }
  }

  // The labels that have no in-edge left after the last of the out-edges to them.
  function Freed(edges: seq<Edge>, done: set<int>, outs: seq<int>): seq<int> {
    if outs == [] then [] else
      var l := outs[|outs| - 1];
      Freed(edges, done, outs[..|outs| - 1]) + if Pending(Ins(edges, l), done) == Occurrences(outs, l) then [l] else []
  }

  // What has been listed and what is on the stack after taking n labels from the
  // stack, each from the top.
  datatype Progress = Progress(order: seq<int>, stack: seq<int>)

  function Take(edges: seq<Edge>, p: Progress): Progress {
    if p.stack == [] then p else
      var base, u := p.stack[..|p.stack| - 1], p.stack[|p.stack| - 1];
      Progress(p.order + [u], base + Freed(edges, Elements(p.order), Outs(edges, u)))
  }

  function After(edges: seq<Edge>, start: seq<int>, n: nat): Progress {
    if n == 0 then Progress([], start) else Take(edges, After(edges, start, n - 1))
  }

  ghost predicate IsKahnOrder(edges: seq<Edge>, order: seq<int>) {
    exists start :: IsStart(edges, start) && After(edges, start, |order|).order == order
  }

  // ------------------------------------------------------------ counting edges

  lemma {:induction false} PendingAfter(sources: seq<int>, done: set<int>, u: int)
    requires u !in done
    ensures Pending(sources, done) == Pending(sources, done + {u}) + multiset(sources)[u]
  {
    if sources != [] {
      var rest, x := sources[..|sources| - 1], sources[|sources| - 1];
      PendingAfter(rest, done, u);
      assert sources == rest + [x];
      assert multiset(sources) == multiset(rest) + multiset{x};
    }
  }

  ghost predicate AllDone(sources: seq<int>, done: set<int>) {
    forall x :: x in sources ==> x in done
  }

  lemma {:induction false} NothingPending(sources: seq<int>, done: set<int>)
    ensures Pending(sources, done) == 0 <==> AllDone(sources, done)
  {
    if sources != [] {
      var rest, x := sources[..|sources| - 1], sources[|sources| - 1];
      NothingPending(rest, done);
      assert sources == rest + [x];
      assert AllDone(sources, done) <==> AllDone(rest, done) && x in done;
    }
  }

  // u is a source of v as often as v is a target of u.
  lemma {:induction false} SameMultiplicity(edges: seq<Edge>, u: int, v: int)
    ensures multiset(Ins(edges, v))[u] == multiset(Outs(edges, u))[v]
  {
    if edges != [] {
      SameMultiplicity(edges[..|edges| - 1], u, v);
    }
  }

  lemma PrefixMultiplicity(s: seq<int>, j: nat)
    requires j < |s|
    ensures multiset(s[..j + 1]) == multiset(s[..j]) + multiset{s[j]}
    ensures multiset(s[..j])[s[j]] < multiset(s)[s[j]]
  {
    assert s[..j + 1] == s[..j] + [s[j]];
    assert s == s[..j] + [s[j]] + s[j + 1..];
  }

  // ------------------------------------------------------------ a unique order

  // There is one way to list a set of labels in ascending order.
  lemma {:induction false} AscendingIsUnique(a: seq<int>, b: seq<int>)
    requires Ascending(a) && Ascending(b) && Distinct(a) && Distinct(b)
    requires forall l :: l in a <==> l in b
    ensures a == b
  {
    if a != [] {
      SameFirst(a, b);
      TailLabels(a, b);
      AscendingIsUnique(a[1..], b[1..]);
      assert a == [a[0]] + a[1..] && b == [b[0]] + b[1..];
    } else if b != [] {
      SameFirst(b, a);
    }
  }

  lemma SameFirst(a: seq<int>, b: seq<int>)
    requires Ascending(a) && Ascending(b) && a != []
    requires forall l :: l in a <==> l in b
    ensures b != [] && a[0] == b[0]
  {
    assert a[0] in a && a[0] in b;
    assert b[0] in b && b[0] in a;
    var i, j := Position(b, a[0]), Position(a, b[0]);
    assert b[0] <= b[i] && a[0] <= a[j];
  }

  lemma TailLabels(a: seq<int>, b: seq<int>)
    requires Distinct(a) && Distinct(b) && a != [] && b != [] && a[0] == b[0]
    requires forall l :: l in a <==> l in b
    ensures forall l :: l in a[1..] <==> l in b[1..]
  {
    assert a == [a[0]] + a[1..] && b == [b[0]] + b[1..];
    forall l ensures l in a[1..] <==> l in a && l != a[0] {
      if l in a[1..] {
        var i :| 0 <= i < |a[1..]| && a[1..][i] == l;
        assert a[i + 1] == a[1..][i];
      }
    }
    forall l ensures l in b[1..] <==> l in b && l != b[0] {
      if l in b[1..] {
        var i :| 0 <= i < |b[1..]| && b[1..][i] == l;
        assert b[i + 1] == b[1..][i];
      }
    }
  }

  /** The list of edges determines the order: however a map of nodes is walked
      through, the sort gives the same result. */
  lemma KahnOrderIsUnique(edges: seq<Edge>, a: seq<int>, b: seq<int>)
    requires IsKahnOrder(edges, a) && IsKahnOrder(edges, b) && |a| == |b|
    ensures a == b
  {
    var s :| IsStart(edges, s) && After(edges, s, |a|).order == a;
    var t :| IsStart(edges, t) && After(edges, t, |b|).order == b;
    AscendingIsUnique(s, t);
  }
}
