/** Which of the labels that could come next the stack-based sort takes. */
module KahnRecency {
  import opened Edges
  import opened KahnOrder

  // Everything with an edge to the label is among the first n that are listed.
  ghost predicate ReadyBy(edges: seq<Edge>, order: seq<int>, l: int, n: int) {
    0 <= n <= |order| && l in Endpoints(edges) && forall e :: e in edges && e.to == l ==> e.from in order[..n]
  }

  // The index of the last occurrence of x.
  function LastAt(s: seq<int>, x: int): (k: nat)
    requires x in s
    ensures k < |s| && s[k] == x
    ensures forall j :: k < j < |s| ==> s[j] != x
  {
    if s[|s| - 1] == x then |s| - 1 else LastAt(s[..|s| - 1], x)
  }

  ghost predicate Earlier(edges: seq<Edge>, order: seq<int>, a: int, b: int, n: int) {
    ReadyBy(edges, order, a, n) && !ReadyBy(edges, order, b, n)
  }

  // Both become ready with the n-th listed label, whose last edge to a comes before
  // its last edge to b.
  ghost predicate FreedBefore(edges: seq<Edge>, order: seq<int>, a: int, b: int, n: int) {
    && 0 < n <= |order|
    && ReadyBy(edges, order, a, n) && !ReadyBy(edges, order, a, n - 1)
    && ReadyBy(edges, order, b, n) && !ReadyBy(edges, order, b, n - 1)
    && EndsBefore(Outs(edges, order[n - 1]), a, b)
  }

  // a has been ready for longer than b; of the labels without an in-edge, the smaller.
  ghost predicate ReadyBefore(edges: seq<Edge>, order: seq<int>, a: int, b: int) {
    || (exists n :: Earlier(edges, order, a, b, n))
    || (ReadyBy(edges, order, a, 0) && ReadyBy(edges, order, b, 0) && a < b)
    || (exists n :: FreedBefore(edges, order, a, b, n))
  }

  // ---------------------------------------------------------- what one take frees

  lemma CountUpTo(s: seq<int>, k: nat)
    requires 0 < k <= |s|
    ensures multiset(s[..k])[s[k - 1]] <= multiset(s)[s[k - 1]]
    ensures multiset(s[..k])[s[k - 1]] == multiset(s)[s[k - 1]] <==> LastAt(s, s[k - 1]) == k - 1
  {
    var x := s[k - 1];
    assert s == s[..k] + s[k..];
    if LastAt(s, x) != k - 1 {
      assert s[k..][LastAt(s, x) - k] == x;
    }
  }

  ghost predicate IsFreed(edges: seq<Edge>, done: set<int>, u: int, outs: seq<int>, k: int, l: int) {
    l in outs && LastAt(outs, l) < k && AllDone(Ins(edges, l), done + {u})
  }

  // What u's first k edges free, in the order of the edges.
  ghost predicate FreedUpTo(edges: seq<Edge>, done: set<int>, u: int, outs: seq<int>, k: int, f: seq<int>) {
    && (forall l :: l in f <==> IsFreed(edges, done, u, outs, k, l))
    && (forall i, j :: 0 <= i < j < |f| ==> EndsBefore(outs, f[i], f[j]))
  }

  // The last edge to a comes before the last edge to b.
  ghost predicate EndsBefore(outs: seq<int>, a: int, b: int) {
    a in outs && b in outs && LastAt(outs, a) < LastAt(outs, b)
  }

  lemma FreedUpToNext(edges: seq<Edge>, done: set<int>, u: int, outs: seq<int>, k: nat, f: seq<int>)
    requires FreedUpTo(edges, done, u, outs, k, f) && k < |outs|
    requires LastAt(outs, outs[k]) == k && AllDone(Ins(edges, outs[k]), done + {u})
    ensures FreedUpTo(edges, done, u, outs, k + 1, f + [outs[k]])
  {
    var f' := f + [outs[k]];
    forall i | 0 <= i < |f| ensures f[i] in outs && LastAt(outs, f[i]) < k {
      assert IsFreed(edges, done, u, outs, k, f[i]);
    }
    forall l ensures l in f' <==> IsFreed(edges, done, u, outs, k + 1, l) {
      assert l in f' <==> l in f || l == outs[k];
      OneMoreFreed(edges, done, u, outs, k, l);
    }
  }

  lemma OneMoreFreed(edges: seq<Edge>, done: set<int>, u: int, outs: seq<int>, k: nat, l: int)
    requires k < |outs|
    ensures IsFreed(edges, done, u, outs, k + 1, l) <==>
      (IsFreed(edges, done, u, outs, k, l) || (l == outs[k] && LastAt(outs, l) == k && AllDone(Ins(edges, l), done + {u})))
  {
    assert outs[k] in outs;
    assert l in outs ==> outs[LastAt(outs, l)] == l;
  }

  lemma FreedUpToSame(edges: seq<Edge>, done: set<int>, u: int, outs: seq<int>, k: nat, f: seq<int>)
    requires FreedUpTo(edges, done, u, outs, k, f) && k < |outs|
    requires LastAt(outs, outs[k]) != k || !AllDone(Ins(edges, outs[k]), done + {u})
    ensures FreedUpTo(edges, done, u, outs, k + 1, f)
  {
    forall l ensures l in f <==> IsFreed(edges, done, u, outs, k + 1, l) {
      OneMoreFreed(edges, done, u, outs, k, l);
    }
  }

  lemma {:induction false} FreedPrefix(edges: seq<Edge>, done: set<int>, u: int, k: nat)
    requires u !in done && k <= |Outs(edges, u)|
    ensures FreedUpTo(edges, done, u, Outs(edges, u), k, Freed(edges, done, Outs(edges, u)[..k]))
  {
    var outs := Outs(edges, u);
    if k > 0 {
      var g := Freed(edges, done, outs[..k - 1]);
      FreedPrefix(edges, done, u, k - 1);
      FreedNext(edges, done, u, outs, k);
      if LastAt(outs, outs[k - 1]) == k - 1 && AllDone(Ins(edges, outs[k - 1]), done + {u}) {
        FreedUpToNext(edges, done, u, outs, k - 1, g);
      } else {
        FreedUpToSame(edges, done, u, outs, k - 1, g);
      }
    }
  }

  lemma FreedNext(edges: seq<Edge>, done: set<int>, u: int, outs: seq<int>, k: nat)
    requires u !in done && outs == Outs(edges, u) && 0 < k <= |outs|
    ensures var l, g := outs[k - 1], Freed(edges, done, outs[..k - 1]);
      Freed(edges, done, outs[..k]) ==
        if LastAt(outs, l) == k - 1 && AllDone(Ins(edges, l), done + {u}) then g + [l] else g
  {
    assert outs[..k][..k - 1] == outs[..k - 1] && outs[..k][k - 1] == outs[k - 1];
    FreedLast(edges, done, u, k);
    var g := Freed(edges, done, outs[..k - 1]);
    assert g + [] == g;
  }

  // The k-th edge frees its target exactly when it is the last one to it.
  lemma FreedLast(edges: seq<Edge>, done: set<int>, u: int, k: nat)
    requires u !in done && 0 < k <= |Outs(edges, u)|
    ensures var outs := Outs(edges, u);
      var l := outs[k - 1];
      (Pending(Ins(edges, l), done) == Occurrences(outs[..k], l))
        <==> (LastAt(outs, l) == k - 1 && AllDone(Ins(edges, l), done + {u}))
  {
    var outs := Outs(edges, u);
    var l := outs[k - 1];
    PendingAfter(Ins(edges, l), done, u);
    SameMultiplicity(edges, u, l);
    NothingPending(Ins(edges, l), done + {u});
    CountUpTo(outs, k);
    OccurrencesInMultiset(outs[..k], l);
  }

  lemma AllDoneIsReady(edges: seq<Edge>, order: seq<int>, l: int)
    requires l in Endpoints(edges)
    ensures AllDone(Ins(edges, l), Elements(order)) <==> ReadyBy(edges, order, l, |order|)
  {
    assert order[..|order|] == order;
    forall x ensures x in Ins(edges, l) <==> Edge(x, l) in edges {
      InsAreEdges(edges, x, l);
    }
  }

  // ---------------------------------------------------------------- the invariant

  ghost predicate Recency(edges: seq<Edge>, p: Progress) {
    && (forall l :: l in p.order ==> ReadyBy(edges, p.order, l, |p.order|))
    && (forall l :: l in p.stack <==> ReadyBy(edges, p.order, l, |p.order|) && l !in p.order)
    && InOrder(edges, p.order, p.stack)
  }

  // Those that have been ready for longer come first.
  ghost predicate InOrder(edges: seq<Edge>, order: seq<int>, stack: seq<int>) {
    forall i, j :: 0 <= i < j < |stack| ==> stack[i] != stack[j] && ReadyBefore(edges, order, stack[i], stack[j])
  }

  lemma ReadyStays(edges: seq<Edge>, order: seq<int>, u: int, l: int, n: int)
    requires n <= |order|
    ensures ReadyBy(edges, order + [u], l, n) <==> ReadyBy(edges, order, l, n)
  {
    if 0 <= n {
      assert (order + [u])[..n] == order[..n];
    }
  }

  lemma ReadyBeforeStays(edges: seq<Edge>, order: seq<int>, u: int, a: int, b: int)
    requires ReadyBefore(edges, order, a, b)
    ensures ReadyBefore(edges, order + [u], a, b)
  {
    ReadyStays(edges, order, u, a, 0);
    ReadyStays(edges, order, u, b, 0);
    if n :| Earlier(edges, order, a, b, n) {
      ReadyStays(edges, order, u, a, n);
      ReadyStays(edges, order, u, b, n);
      assert Earlier(edges, order + [u], a, b, n);
    } else if n :| FreedBefore(edges, order, a, b, n) {
      ReadyStays(edges, order, u, a, n);
      ReadyStays(edges, order, u, b, n);
      ReadyStays(edges, order, u, a, n - 1);
      ReadyStays(edges, order, u, b, n - 1);
      assert FreedBefore(edges, order + [u], a, b, n);
    }
  }

  lemma ReadyGrows(edges: seq<Edge>, order: seq<int>, u: int, l: int)
    requires ReadyBy(edges, order, l, |order|)
    ensures ReadyBy(edges, order + [u], l, |order| + 1)
  {
    assert order[..|order|] == order && (order + [u])[..|order| + 1] == order + [u];
  }

  // What u frees becomes ready with it and not before.
  lemma FreedIsReady(edges: seq<Edge>, order: seq<int>, u: int, l: int)
    requires u !in order
    ensures l in Freed(edges, Elements(order), Outs(edges, u)) <==>
      ReadyBy(edges, order + [u], l, |order| + 1) && !ReadyBy(edges, order, l, |order|)
  {
    var outs := Outs(edges, u);
    FreedPrefix(edges, Elements(order), u, |outs|);
    assert outs[..|outs|] == outs && order[..|order|] == order && (order + [u])[..|order| + 1] == order + [u];
    OutsAreEdges(edges, u, l);
    ElementsSnoc(order, u);
    assert Elements(order + [u]) == Elements(order) + {u};
    assert l in Freed(edges, Elements(order), outs) <==> IsFreed(edges, Elements(order), u, outs, |outs|, l);
    if l in Endpoints(edges) {
      AllDoneIsReady(edges, order + [u], l);
      AllDoneIsReady(edges, order, l);
    }
  }

  lemma FreedEnds(edges: seq<Edge>, done: set<int>, u: int, i: nat, j: nat)
    requires u !in done && i < j < |Freed(edges, done, Outs(edges, u))|
    ensures var f := Freed(edges, done, Outs(edges, u)); EndsBefore(Outs(edges, u), f[i], f[j])
  {
    var outs := Outs(edges, u);
    FreedPrefix(edges, done, u, |outs|);
    assert outs[..|outs|] == outs;
  }

  lemma ReadyWithTop(edges: seq<Edge>, order: seq<int>, u: int, l: int)
    requires u !in order && l in Freed(edges, Elements(order), Outs(edges, u))
    ensures ReadyBy(edges, order + [u], l, |order| + 1) && !ReadyBy(edges, order + [u], l, |order|)
  {
    FreedIsReady(edges, order, u, l);
    ReadyStays(edges, order, u, l, |order|);
  }

  lemma FreedInOrder(edges: seq<Edge>, order: seq<int>, u: int, i: nat, j: nat)
    requires u !in order && i < j < |Freed(edges, Elements(order), Outs(edges, u))|
    ensures var f := Freed(edges, Elements(order), Outs(edges, u));
      f[i] != f[j] && FreedBefore(edges, order + [u], f[i], f[j], |order| + 1)
  {
    var a, b := Freed(edges, Elements(order), Outs(edges, u))[i], Freed(edges, Elements(order), Outs(edges, u))[j];
    FreedEnds(edges, Elements(order), u, i, j);
    ReadyWithTop(edges, order, u, a);
    ReadyWithTop(edges, order, u, b);
  }

  lemma TopIsNew(edges: seq<Edge>, p: Progress)
    requires Recency(edges, p) && p.stack != []
    ensures var u := p.stack[|p.stack| - 1];
      u !in p.order && Edge(u, u) !in edges && ReadyBy(edges, p.order, u, |p.order|)
      && forall l :: l in p.order ==> Edge(u, l) !in edges
  {
    assert p.order[..|p.order|] == p.order;
  }

  lemma TakeKeepsListed(edges: seq<Edge>, p: Progress, l: int)
    requires Recency(edges, p) && p.stack != [] && l in Take(edges, p).order
    ensures ReadyBy(edges, Take(edges, p).order, l, |p.order| + 1)
  {
    var u := p.stack[|p.stack| - 1];
    assert l in p.order || l == u;
    ReadyGrows(edges, p.order, u, l);
  }

  lemma TakeKeepsMembers(edges: seq<Edge>, p: Progress, base: seq<int>, u: int, l: int)
    requires Recency(edges, p) && p.stack == base + [u]
    ensures var order, f := p.order + [u], Freed(edges, Elements(p.order), Outs(edges, u));
      l in base + f <==> ReadyBy(edges, order, l, |order|) && l !in order
  {
    TopIsNew(edges, p);
    FreedIsReady(edges, p.order, u, l);
    TopIsAlone(p.stack, base, u);
    if ReadyBy(edges, p.order, l, |p.order|) {
      ReadyGrows(edges, p.order, u, l);
    }
    assert l in p.stack <==> l in base || l == u;
  }

  lemma TopIsAlone(stack: seq<int>, base: seq<int>, u: int)
    requires stack == base + [u] && forall i, j :: 0 <= i < j < |stack| ==> stack[i] != stack[j]
    ensures u !in base
  {
    forall i | 0 <= i < |base| ensures base[i] != u {
      assert stack[i] == base[i] && stack[|base|] == u;
    }
  }

  lemma BaseStaysInOrder(edges: seq<Edge>, order: seq<int>, stack: seq<int>, base: seq<int>, u: int)
    requires InOrder(edges, order, stack) && stack == base + [u]
    ensures InOrder(edges, order + [u], base)
  {
    forall i, j | 0 <= i < j < |base| ensures base[i] != base[j] && ReadyBefore(edges, order + [u], base[i], base[j]) {
      assert stack[i] == base[i] && stack[j] == base[j];
      ReadyBeforeStays(edges, order, u, base[i], base[j]);
    }
  }

  lemma FreedStaysInOrder(edges: seq<Edge>, order: seq<int>, u: int)
    requires u !in order
    ensures InOrder(edges, order + [u], Freed(edges, Elements(order), Outs(edges, u)))
  {
    var f := Freed(edges, Elements(order), Outs(edges, u));
    forall i, j | 0 <= i < j < |f| ensures f[i] != f[j] && ReadyBefore(edges, order + [u], f[i], f[j]) {
      FreedInOrder(edges, order, u, i, j);
    }
  }

  ghost predicate AllBefore(edges: seq<Edge>, order: seq<int>, a: seq<int>, b: seq<int>) {
    forall x, y :: x in a && y in b ==> x != y && ReadyBefore(edges, order, x, y)
  }

  lemma ConcatInOrder(edges: seq<Edge>, order: seq<int>, a: seq<int>, b: seq<int>)
    requires InOrder(edges, order, a) && InOrder(edges, order, b) && AllBefore(edges, order, a, b)
    ensures InOrder(edges, order, a + b)
  {
    var s := a + b;
    forall i, j | 0 <= i < j < |s| ensures s[i] != s[j] && ReadyBefore(edges, order, s[i], s[j]) {
      if j < |a| {
        assert s[i] == a[i] && s[j] == a[j];
      } else if i < |a| {
        assert s[i] == a[i] && s[i] in a && s[j] == b[j - |a|] && s[j] in b;
      } else {
        assert s[i] == b[i - |a|] && s[j] == b[j - |a|];
      }
    }
  }

  lemma BaseAllBefore(edges: seq<Edge>, order: seq<int>, base: seq<int>, freed: seq<int>)
    requires order != []
    requires forall x :: x in base ==> ReadyBy(edges, order, x, |order| - 1)
    requires forall y :: y in freed ==> !ReadyBy(edges, order, y, |order| - 1)
    ensures AllBefore(edges, order, base, freed)
  {
    forall x, y | x in base && y in freed ensures x != y && ReadyBefore(edges, order, x, y) {
      assert Earlier(edges, order, x, y, |order| - 1);
    }
  }

  lemma BaseBeforeFreed(edges: seq<Edge>, order: seq<int>, u: int, base: seq<int>)
    requires u !in order && forall x :: x in base ==> ReadyBy(edges, order, x, |order|)
    ensures AllBefore(edges, order + [u], base, Freed(edges, Elements(order), Outs(edges, u)))
  {
    var freed := Freed(edges, Elements(order), Outs(edges, u));
    forall x | x in base ensures ReadyBy(edges, order + [u], x, |order|) {
      ReadyStays(edges, order, u, x, |order|);
    }
    forall y | y in freed ensures !ReadyBy(edges, order + [u], y, |order|) {
      ReadyWithTop(edges, order, u, y);
    }
    BaseAllBefore(edges, order + [u], base, freed);
  }

  lemma BaseIsReady(edges: seq<Edge>, p: Progress, base: seq<int>, u: int, x: int)
    requires Recency(edges, p) && p.stack == base + [u] && x in base
    ensures ReadyBy(edges, p.order, x, |p.order|)
  {
    assert x in p.stack;
  }

  lemma TakeKeepsOrder(edges: seq<Edge>, p: Progress, base: seq<int>, u: int)
    requires Recency(edges, p) && p.stack == base + [u]
    ensures InOrder(edges, p.order + [u], base + Freed(edges, Elements(p.order), Outs(edges, u)))
  {
    forall x | x in base ensures ReadyBy(edges, p.order, x, |p.order|) {
      BaseIsReady(edges, p, base, u, x);
    }
    TopIsNew(edges, p);
    BaseStaysInOrder(edges, p.order, p.stack, base, u);
    FreedStaysInOrder(edges, p.order, u);
    BaseBeforeFreed(edges, p.order, u, base);
    ConcatInOrder(edges, p.order + [u], base, Freed(edges, Elements(p.order), Outs(edges, u)));
  }

  lemma TakeKeepsRecency(edges: seq<Edge>, p: Progress)
    requires Recency(edges, p) && p.stack != []
    ensures Recency(edges, Take(edges, p))
  {
    var p' := Take(edges, p);
    var base, u := p.stack[..|p.stack| - 1], p.stack[|p.stack| - 1];
    assert p.stack == base + [u];
    forall l | l in p'.order ensures ReadyBy(edges, p'.order, l, |p'.order|) {
      TakeKeepsListed(edges, p, l);
    }
    forall l ensures l in p'.stack <==> ReadyBy(edges, p'.order, l, |p'.order|) && l !in p'.order {
      TakeKeepsMembers(edges, p, base, u, l);
    }
    TakeKeepsOrder(edges, p, base, u);
  }

  lemma StartIsReady(edges: seq<Edge>, l: int)
    requires l in Endpoints(edges)
    ensures Ins(edges, l) == [] <==> ReadyBy(edges, [], l, 0)
  {
    var none: seq<int> := [];
    AllDoneIsReady(edges, none, l);
    assert Elements(none) == {};
    NothingDone(Ins(edges, l));
  }

  lemma NothingDone(sources: seq<int>)
    ensures AllDone(sources, {}) <==> |sources| == 0
  {
    if |sources| > 0 {
      var x := sources[0];
      assert x in sources && x !in {};
    }
  }

  lemma StartIsRecent(edges: seq<Edge>, start: seq<int>)
    requires IsStart(edges, start)
    ensures Recency(edges, Progress([], start))
  {
    forall l ensures l in start <==> ReadyBy(edges, [], l, 0) {
      if l in Endpoints(edges) {
        StartIsReady(edges, l);
      }
    }
    forall i, j | 0 <= i < j < |start| ensures start[i] != start[j] && ReadyBefore(edges, [], start[i], start[j]) {
      assert start[i] in start && start[j] in start;
      StartIsReady(edges, start[i]);
      StartIsReady(edges, start[j]);
    }
  }

  // One take after the other.
  ghost predicate Takes(edges: seq<Edge>, ps: seq<Progress>) {
    ps != [] && ps[0].order == [] && forall i, j :: 0 <= i && j == i + 1 && j < |ps| ==> IsTake(edges, ps[i], ps[j])
  }

  ghost predicate IsTake(edges: seq<Edge>, p: Progress, p': Progress) {
    p' == Take(edges, p)
  }

  lemma {:induction false} TakesTo(edges: seq<Edge>, start: seq<int>, n: nat) returns (ps: seq<Progress>)
    ensures |ps| == n + 1 && ps[0] == Progress([], start) && ps[n] == After(edges, start, n)
    ensures Takes(edges, ps)
  {
    ps := [Progress([], start)];
    if n > 0 {
      var rest := TakesTo(edges, start, n - 1);
      ps := rest + [After(edges, start, n)];
      assert IsTake(edges, rest[n - 1], After(edges, start, n));
    }
  }

  lemma StaysRecent(edges: seq<Edge>, p: Progress, p': Progress)
    requires Recency(edges, p) && IsTake(edges, p, p')
    ensures Recency(edges, p')
  {
    if p.stack != [] {
      TakeKeepsRecency(edges, p);
    }
  }

  lemma {:induction false} AllRecent(edges: seq<Edge>, ps: seq<Progress>, n: nat)
    requires Takes(edges, ps) && Recency(edges, ps[0]) && n < |ps|
    ensures Recency(edges, ps[n])
  {
    if n > 0 {
      AllRecent(edges, ps, n - 1);
      StaysRecent(edges, ps[n - 1], ps[n]);
    }
  }

  // What a take does to the order.
  lemma TakeAppends(edges: seq<Edge>, p: Progress, p': Progress)
    requires IsTake(edges, p, p')
    ensures if p.stack == [] then p' == p else p'.order == p.order + [p.stack[|p.stack| - 1]]
  {
  }

  lemma {:induction false} TakesListFew(edges: seq<Edge>, ps: seq<Progress>, n: nat)
    requires Takes(edges, ps) && n < |ps|
    ensures |ps[n].order| <= n
  {
    if n > 0 {
      TakesListFew(edges, ps, n - 1);
      TakeAppends(edges, ps[n - 1], ps[n]);
    }
  }

  // The label in place k was on top of the stack after k takes.
  lemma {:induction false} TookTop(edges: seq<Edge>, ps: seq<Progress>, k: nat, n: nat)
    requires Takes(edges, ps) && k < n < |ps| && |ps[n].order| == n
    ensures var order := ps[n].order;
      ps[k].order == order[..k] && ps[k].stack != [] && order[k] == ps[k].stack[|ps[k].stack| - 1]
  {
    TakesListFew(edges, ps, n - 1);
    TakeAppends(edges, ps[n - 1], ps[n]);
    if k < n - 1 {
      TookTop(edges, ps, k, n - 1);
    }
  }

  lemma TopIsMostRecent(edges: seq<Edge>, p: Progress, l: int)
    requires Recency(edges, p) && p.stack != [] && ReadyBy(edges, p.order, l, |p.order|) && l !in p.order
    ensures var u := p.stack[|p.stack| - 1];
      l == u || ReadyBefore(edges, p.order, l, u)
  {
    assert l in p.stack;
    var i :| 0 <= i < |p.stack| && p.stack[i] == l;
    assert InOrder(edges, p.order, p.stack);
  }

  lemma ReadyInPrefix(edges: seq<Edge>, order: seq<int>, l: int, k: nat)
    requires ReadyBy(edges, order, l, k)
    ensures ReadyBy(edges, order[..k], l, k)
  {
    assert order[..k][..k] == order[..k];
  }

  /** The sort lists next the label that became ready last: of several labels that the
      same label made ready, the one with the last edge from it, and of the labels
      without an in-edge the largest. */
  lemma MostRecentFirst(edges: seq<Edge>, order: seq<int>, k: nat, l: int)
    requires IsKahnOrder(edges, order) && k < |order|
    requires ReadyBy(edges, order, l, k) && l !in order[..k]
    ensures l == order[k] || ReadyBefore(edges, order[..k], l, order[k])
  {
    var start :| IsStart(edges, start) && After(edges, start, |order|).order == order;
    var ps := TakesTo(edges, start, |order|);
    StartIsRecent(edges, start);
    AllRecent(edges, ps, k);
    TookTop(edges, ps, k, |order|);
    ReadyInPrefix(edges, order, l, k);
    TopIsMostRecent(edges, ps[k], l);
  }
}
