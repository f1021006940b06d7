/** The iterative depth-first traversal, refined to a recursive exploration.

    The traversal reads its nodes only through the Node interface: a label and
    an indexed list of out-nodes. A snapshot of that interface is a map from
    each label to the labels of its out-nodes, in order. */
module Traverse {
  import opened Edges
  import opened Trees

  type Adjacency = map<int, seq<int>>

  type TraversalType = bool
  const PRE_ORDER: TraversalType := true
  const POST_ORDER: TraversalType := false

  ghost predicate Closed(adj: Adjacency) {
    forall l, x :: l in adj && x in adj[l] ==> x in adj
  }

  ghost function EdgeSet(adj: Adjacency): set<Edge> {
    set u, v | u in adj && v in adj[u] :: Edge(u, v)
  }

  // ------------------------------------------------------ recursive definition

  /** Visit the unvisited labels of todo from left to right, each with
      everything it leads to, listing a label before or after what it leads to.
      Returns the listing and the visited labels. */
  ghost function Explore(adj: Adjacency, todo: seq<int>, visited: set<int>, t: TraversalType): (r: (seq<int>, set<int>))
    requires Closed(adj)
    requires forall x :: x in todo ==> x in adj
    ensures visited <= r.1
    decreases adj.Keys - visited, |todo|
  {
    if todo == [] then ([], visited)
    else if todo[0] in visited then Explore(adj, todo[1..], visited, t)
    else
      var x := todo[0];
      var below := Explore(adj, adj[x], visited + {x}, t);
      var right := Explore(adj, todo[1..], below.1, t);
      (Entering(x, t) + below.0 + Leaving(x, t) + right.0, right.1)
  }

  ghost function Entering(x: int, t: TraversalType): seq<int> {
    if t == PRE_ORDER then [x] else []
  }

  ghost function Leaving(x: int, t: TraversalType): seq<int> {
    if t == POST_ORDER then [x] else []
  }

  ghost function Dfs(adj: Adjacency, root: int, t: TraversalType): seq<int>
    requires Closed(adj) && root in adj
  {
    Explore(adj, [root], {}, t).0
  }

  // ---------------------------------------------------------------- the method

  datatype Elem = Elem(node: int, numOutNodesSeen: nat)

  ghost predicate StackOk(adj: Adjacency, stack: seq<Elem>) {
    forall i :: 0 <= i < |stack| ==> stack[i].node in adj && stack[i].numOutNodesSeen <= |adj[stack[i].node]|
  }

  // What the loop still has to append, given its stack.
  ghost function Rest(adj: Adjacency, stack: seq<Elem>, added: set<int>, t: TraversalType): seq<int>
    requires Closed(adj) && StackOk(adj, stack)
    decreases |stack|
  {
    if stack == [] then [] else
      var e := stack[|stack| - 1];
      var below := Explore(adj, adj[e.node][e.numOutNodesSeen..], added, t);
      Before(e, t) + below.0 + Leaving(e.node, t) + Rest(adj, stack[..|stack| - 1], below.1, t)
  }

  ghost function Unseen(adj: Adjacency, stack: seq<Elem>): nat
    requires StackOk(adj, stack)
  {
    if stack == [] then 0 else
      var e := stack[|stack| - 1];
      |adj[e.node]| - e.numOutNodesSeen + Unseen(adj, stack[..|stack| - 1])
  }

  ghost function Before(e: Elem, t: TraversalType): seq<int> {
    if e.numOutNodesSeen == 0 then Entering(e.node, t) else []
  }

  lemma StackReplace(adj: Adjacency, base: seq<Elem>, e: Elem, e': Elem)
    requires StackOk(adj, base + [e])
    requires e'.node in adj && e'.numOutNodesSeen <= |adj[e'.node]|
    ensures StackOk(adj, base) && StackOk(adj, base + [e'])
    ensures e.node in adj && e.numOutNodesSeen <= |adj[e.node]|
  {
    var s := base + [e];
    assert forall i :: 0 <= i < |base| ==> s[i] == base[i];
    assert s[|base|] == e;
  }

  // What the entry on top of the stack still contributes.
  lemma {:induction false} RestTop(adj: Adjacency, base: seq<Elem>, e: Elem, added: set<int>, t: TraversalType)
    requires Closed(adj) && StackOk(adj, base + [e]) && StackOk(adj, base)
    requires e.node in adj && e.numOutNodesSeen <= |adj[e.node]|
    ensures var below := Explore(adj, adj[e.node][e.numOutNodesSeen..], added, t);
      Rest(adj, base + [e], added, t) == Before(e, t) + below.0 + Leaving(e.node, t) + Rest(adj, base, below.1, t)
  {
    assert (base + [e])[..|base|] == base;
  }

  // One more label to explore.
  lemma {:induction false} ExploreHead(adj: Adjacency, x: int, rest: seq<int>, todo: seq<int>, added: set<int>,
                                       t: TraversalType)
    requires Closed(adj) && x in adj && (forall y :: y in rest ==> y in adj) && todo == [x] + rest
    requires forall y :: y in todo ==> y in adj
    ensures x in added ==> Explore(adj, todo, added, t) == Explore(adj, rest, added, t)
    ensures x !in added ==>
      var below := Explore(adj, adj[x], added + {x}, t);
      var right := Explore(adj, rest, below.1, t);
      Explore(adj, todo, added, t) == (Entering(x, t) + below.0 + Leaving(x, t) + right.0, right.1)
  {
    assert todo[1..] == rest;
  }

  // Popping a finished entry.
  lemma {:induction false} RestAfterPop(adj: Adjacency, base: seq<Elem>, e: Elem, added: set<int>, t: TraversalType)
    requires Closed(adj) && StackOk(adj, base + [e]) && StackOk(adj, base)
    requires e.node in adj && e.numOutNodesSeen == |adj[e.node]|
    ensures Rest(adj, base + [e], added, t) == Before(e, t) + Leaving(e.node, t) + Rest(adj, base, added, t)
  {
    var todo := adj[e.node][e.numOutNodesSeen..];
    assert todo == [];
    RestTop(adj, base, e, added, t);
    NothingToExplore(adj, todo, added, t);
    AssocNone(Before(e, t), Leaving(e.node, t), Rest(adj, base, added, t));
  }

  lemma NothingToExplore(adj: Adjacency, todo: seq<int>, added: set<int>, t: TraversalType)
    requires Closed(adj) && todo == []
    ensures Explore(adj, todo, added, t) == ([], added)
  {
  }

  lemma AssocNone(pre: seq<int>, lv: seq<int>, rest: seq<int>)
    ensures pre + [] + lv + rest == pre + lv + rest
  {
    assert pre + [] == pre;
  }

  lemma AssocSkip(pre: seq<int>, below: seq<int>, lv: seq<int>, rest: seq<int>)
    ensures pre + below + lv + rest == pre + ([] + below + lv + rest)
  {
    assert [] + below == below;
  }

  // Skipping an out-node that was already added.
  lemma {:induction false} RestAfterSkip(adj: Adjacency, base: seq<Elem>, e: Elem, added: set<int>, t: TraversalType)
    requires Closed(adj) && StackOk(adj, base + [e])
    requires e.node in adj && e.numOutNodesSeen < |adj[e.node]| && adj[e.node][e.numOutNodesSeen] in added
    ensures StackOk(adj, base + [e.(numOutNodesSeen := e.numOutNodesSeen + 1)])
    ensures Rest(adj, base + [e], added, t)
      == Before(e, t) + Rest(adj, base + [e.(numOutNodesSeen := e.numOutNodesSeen + 1)], added, t)
  {
    var e' := e.(numOutNodesSeen := e.numOutNodesSeen + 1);
    StackReplace(adj, base, e, e');
    RestTop(adj, base, e, added, t);
    RestTop(adj, base, e', added, t);
    var todo := adj[e.node][e.numOutNodesSeen..];
    var rest := adj[e.node][e'.numOutNodesSeen..];
    assert todo == [todo[0]] + rest;
    ExploreHead(adj, todo[0], rest, todo, added, t);
    var below := Explore(adj, rest, added, t);
    AssocSkip(Before(e, t), below.0, Leaving(e.node, t), Rest(adj, base, below.1, t));
  }

  lemma AssocPush(pre: seq<int>, en: seq<int>, below: seq<int>, lv: seq<int>, right: seq<int>, lv0: seq<int>, rest: seq<int>)
    ensures pre + (en + below + lv + right) + lv0 + rest == pre + (en + below + lv + ([] + right + lv0 + rest))
  {
    assert [] + right == right;
  }

  // Pushing an out-node that was not added before.
  lemma {:induction false} RestAfterPush(adj: Adjacency, base: seq<Elem>, e: Elem, added: set<int>, t: TraversalType)
    requires Closed(adj) && StackOk(adj, base + [e])
    requires e.node in adj && e.numOutNodesSeen < |adj[e.node]| && adj[e.node][e.numOutNodesSeen] !in added
    ensures var e' := e.(numOutNodesSeen := e.numOutNodesSeen + 1);
      var x := adj[e.node][e.numOutNodesSeen];
      && StackOk(adj, base + [e'] + [Elem(x, 0)])
      && Rest(adj, base + [e], added, t) == Before(e, t) + Rest(adj, base + [e'] + [Elem(x, 0)], added + {x}, t)
  {
    var e' := e.(numOutNodesSeen := e.numOutNodesSeen + 1);
    var x := adj[e.node][e.numOutNodesSeen];
    StackReplace(adj, base, e, e');
    var todo := adj[e.node][e.numOutNodesSeen..];
    var rest := adj[e.node][e'.numOutNodesSeen..];
    assert todo == [x] + rest;
    assert adj[x][0..] == adj[x];
    var below := Explore(adj, adj[x], added + {x}, t);
    var right := Explore(adj, rest, below.1, t);
    RestTop(adj, base, e, added, t);
    ExploreHead(adj, x, rest, todo, added, t);
    RestTop(adj, base + [e'], Elem(x, 0), added + {x}, t);
    RestTop(adj, base, e', below.1, t);
    AssocPush(Before(e, t), Entering(x, t), below.0, Leaving(x, t), right.0, Leaving(e.node, t), Rest(adj, base, right.1, t));
  }

  lemma {:induction false} RestAtStart(adj: Adjacency, root: int, t: TraversalType)
    requires Closed(adj) && root in adj
    ensures Rest(adj, [Elem(root, 0)], {root}, t) == Dfs(adj, root, t)
  {
    assert adj[root][0..] == adj[root];
    assert [root][1..] == [] && [Elem(root, 0)][..0] == [];
    assert {} + {root} == {root};
    var below := Explore(adj, adj[root], {root}, t);
    assert Rest(adj, [], below.1, t) == [];
    assert Explore(adj, [], below.1, t).0 == [];
  }

  lemma UnseenSnoc(adj: Adjacency, base: seq<Elem>, e: Elem)
    requires StackOk(adj, base) && e.node in adj && e.numOutNodesSeen <= |adj[e.node]|
    requires StackOk(adj, base + [e])
    ensures Unseen(adj, base + [e]) == |adj[e.node]| - e.numOutNodesSeen + Unseen(adj, base)
  {
    assert (base + [e])[..|base|] == base;
  }

  // The three moves of the loop, with what has been listed so far.
  ghost predicate SameListing(adj: Adjacency, r: seq<int>, stack: seq<Elem>, added: set<int>,
                              r': seq<int>, stack': seq<Elem>, added': set<int>, t: TraversalType)
    requires Closed(adj) && StackOk(adj, stack)
  {
    StackOk(adj, stack') && r + Rest(adj, stack, added, t) == r' + Rest(adj, stack', added', t)
  }

  lemma AssocPop(r: seq<int>, a: seq<int>, b: seq<int>, c: seq<int>)
    ensures r + (a + b + c) == r + a + b + c && r + (a + c) == r + a + c
  {
  }

  lemma PopMove(adj: Adjacency, r: seq<int>, base: seq<Elem>, e: Elem, added: set<int>, t: TraversalType)
    requires Closed(adj) && StackOk(adj, base + [e])
    requires e.node in adj && e.numOutNodesSeen == |adj[e.node]|
    ensures SameListing(adj, r, base + [e], added, r + Before(e, t) + Leaving(e.node, t), base, added, t)
    ensures Unseen(adj, base + [e]) == Unseen(adj, base)
  {
    StackReplace(adj, base, e, e);
    UnseenSnoc(adj, base, e);
    RestAfterPop(adj, base, e, added, t);
    AssocPop(r, Before(e, t), Leaving(e.node, t), Rest(adj, base, added, t));
  }

  lemma SkipMove(adj: Adjacency, r: seq<int>, base: seq<Elem>, e: Elem, added: set<int>, t: TraversalType)
    requires Closed(adj) && StackOk(adj, base + [e])
    requires e.node in adj && e.numOutNodesSeen < |adj[e.node]| && adj[e.node][e.numOutNodesSeen] in added
    ensures var next := base + [e.(numOutNodesSeen := e.numOutNodesSeen + 1)];
      && SameListing(adj, r, base + [e], added, r + Before(e, t), next, added, t)
      && Unseen(adj, next) < Unseen(adj, base + [e])
  {
    var e' := e.(numOutNodesSeen := e.numOutNodesSeen + 1);
    StackReplace(adj, base, e, e');
    UnseenSnoc(adj, base, e);
    UnseenSnoc(adj, base, e');
    RestAfterSkip(adj, base, e, added, t);
    AssocPop(r, Before(e, t), [], Rest(adj, base + [e'], added, t));
  }

  lemma PushMove(adj: Adjacency, r: seq<int>, base: seq<Elem>, e: Elem, added: set<int>, t: TraversalType)
    requires Closed(adj) && StackOk(adj, base + [e])
    requires e.node in adj && e.numOutNodesSeen < |adj[e.node]| && adj[e.node][e.numOutNodesSeen] !in added
    ensures var x := adj[e.node][e.numOutNodesSeen];
      && SameListing(adj, r, base + [e], added, r + Before(e, t),
                     base + [e.(numOutNodesSeen := e.numOutNodesSeen + 1)] + [Elem(x, 0)], added + {x}, t)
      && adj.Keys - (added + {x}) < adj.Keys - added
  {
    var x := adj[e.node][e.numOutNodesSeen];
    assert x in adj[e.node];
    assert x in adj.Keys - added;
    RestAfterPush(adj, base, e, added, t);
  }

  method DepthFirstTraverse(adj: Adjacency, root: int, t: TraversalType) returns (result: seq<int>)
    requires Closed(adj) && root in adj
    ensures result == Dfs(adj, root, t)
  {
    var stack := [Elem(root, 0)];
    var addedToStack := {root};
    result := [];
    RestAtStart(adj, root, t);
    while |stack| > 0
      invariant StackOk(adj, stack)
      invariant result + Rest(adj, stack, addedToStack, t) == Dfs(adj, root, t)
      decreases adj.Keys - addedToStack, Unseen(adj, stack), |stack|
    {
      var base, last := stack[..|stack| - 1], stack[|stack| - 1];
      ghost var r := result;
      assert stack == base + [last];
      if last.numOutNodesSeen == 0 && t == PRE_ORDER {
        result := result + [last.node];
      }
      assert result == r + Before(last, t);
      if last.numOutNodesSeen == |adj[last.node]| {
        PopMove(adj, r, base, last, addedToStack, t);
        if t == POST_ORDER {
          result := result + [last.node];
        }
        assert result == r + Before(last, t) + Leaving(last.node, t);
        stack := base;
      } else {
        var newNode := adj[last.node][last.numOutNodesSeen];
        stack := base + [last.(numOutNodesSeen := last.numOutNodesSeen + 1)];
        if newNode in addedToStack {
          SkipMove(adj, r, base, last, addedToStack, t);
          continue;
        }
        PushMove(adj, r, base, last, addedToStack, t);
        stack := stack + [Elem(newNode, 0)];
        addedToStack := addedToStack + {newNode};
      }
    }
  }

  // ------------------------------------------------- what a traversal returns

  lemma {:induction false} ExploreMembers(adj: Adjacency, todo: seq<int>, visited: set<int>, t: TraversalType)
    requires Closed(adj)
    requires forall x :: x in todo ==> x in adj
    ensures var (r, v) := Explore(adj, todo, visited, t);
      && v == visited + Elements(r)
      && Elements(r) !! visited
      && Distinct(r)
      && (forall x :: x in todo ==> x in v)
      && (forall x :: x in r ==> x in adj)
    decreases adj.Keys - visited, |todo|
  {
    if todo == [] {
    } else if todo[0] in visited {
      ExploreMembers(adj, todo[1..], visited, t);
    } else {
      var x := todo[0];
      var below := Explore(adj, adj[x], visited + {x}, t);
      ExploreMembers(adj, adj[x], visited + {x}, t);
      ExploreMembers(adj, todo[1..], below.1, t);
      var right := Explore(adj, todo[1..], below.1, t);
      assert x in below.1;
      forall y | y in below.0 ensures y != x && y !in right.0 {
        assert y in Elements(below.0) && y in below.1;
        assert y !in right.0 || y in Elements(right.0);
      }
      assert x !in right.0 || x in Elements(right.0);
      BlockMembers(x, below.0, right.0, t);
    }
  }

  lemma DistinctConcat(a: seq<int>, b: seq<int>)
    requires Distinct(a) && Distinct(b)
    requires forall y :: y in a ==> y !in b
    ensures Distinct(a + b)
  {
    var s := a + b;
    forall i, j | 0 <= i < j < |s| ensures s[i] != s[j] {
      if j < |a| {
        assert s[i] == a[i] && s[j] == a[j];
      } else if i < |a| {
        assert s[i] == a[i] && s[j] == b[j - |a|];
        assert a[i] in a;
      } else {
        assert s[i] == b[i - |a|] && s[j] == b[j - |a|];
      }
    }
  }

  // A block is a label with what it leads to, followed by the blocks to its right.
  lemma BlockMembers(x: int, below: seq<int>, right: seq<int>, t: TraversalType)
    requires Distinct(below) && Distinct(right) && x !in below && x !in right
    requires forall y :: y in below ==> y !in right
    ensures Distinct(Entering(x, t) + below + Leaving(x, t) + right)
    ensures Elements(Entering(x, t) + below + Leaving(x, t) + right) == {x} + Elements(below) + Elements(right)
  {
    DistinctConcat(Entering(x, t), below);
    DistinctConcat(Entering(x, t) + below, Leaving(x, t));
    DistinctConcat(Entering(x, t) + below + Leaving(x, t), right);
  }

  ghost predicate OutNodesIn(adj: Adjacency, r: seq<int>, v: set<int>) {
    forall e :: e in EdgeSet(adj) && e.from in r ==> e.to in v
  }

  // Nothing is left out: the out-nodes of every listed label were visited.
  lemma {:induction false} ExploreIsClosed(adj: Adjacency, todo: seq<int>, visited: set<int>, t: TraversalType)
    requires Closed(adj)
    requires forall x :: x in todo ==> x in adj
    ensures OutNodesIn(adj, Explore(adj, todo, visited, t).0, Explore(adj, todo, visited, t).1)
    decreases adj.Keys - visited, |todo|
  {
    if todo == [] {
    } else if todo[0] in visited {
      ExploreIsClosed(adj, todo[1..], visited, t);
    } else {
      var x := todo[0];
      var below := Explore(adj, adj[x], visited + {x}, t);
      ExploreIsClosed(adj, adj[x], visited + {x}, t);
      ExploreMembers(adj, adj[x], visited + {x}, t);
      ExploreIsClosed(adj, todo[1..], below.1, t);
      var right := Explore(adj, todo[1..], below.1, t);
      forall e | e in EdgeSet(adj) && e.from in Explore(adj, todo, visited, t).0 ensures e.to in right.1 {
        if e.from == x {
          assert e.to in adj[x];
        } else if e.from !in below.0 {
          assert e.from in right.0;
        }
      }
    }
  }

  // Nothing is made up: every listed label can be reached from a label of todo.
  lemma {:induction false} ExploreIsReachable(adj: Adjacency, todo: seq<int>, visited: set<int>, t: TraversalType, y: int)
    requires Closed(adj)
    requires forall x :: x in todo ==> x in adj
    requires y in Explore(adj, todo, visited, t).0
    ensures exists x :: x in todo && Reaches(EdgeSet(adj), x, y)
    decreases adj.Keys - visited, |todo|
  {
    if todo[0] in visited {
      ExploreIsReachable(adj, todo[1..], visited, t, y);
    } else {
      var x := todo[0];
      var below := Explore(adj, adj[x], visited + {x}, t);
      if y == x {
        ReachesSelf(EdgeSet(adj), x);
      } else if y in below.0 {
        BelowIsReachable(adj, x, visited, t, y);
      } else {
        ExploreIsReachable(adj, todo[1..], below.1, t, y);
      }
    }
  }

  lemma {:induction false} BelowIsReachable(adj: Adjacency, x: int, visited: set<int>, t: TraversalType, y: int)
    requires Closed(adj) && x in adj && x !in visited
    requires y in Explore(adj, adj[x], visited + {x}, t).0
    ensures Reaches(EdgeSet(adj), x, y)
    decreases adj.Keys - visited, 0
  {
    ExploreIsReachable(adj, adj[x], visited + {x}, t, y);
    var z :| z in adj[x] && Reaches(EdgeSet(adj), z, y);
    ReachesStep(EdgeSet(adj), x, z, y);
  }

  /** A traversal lists exactly the labels that can be reached from the root,
      each of them once, whatever the order. */
  lemma {:induction false} DfsIsReachability(adj: Adjacency, root: int, t: TraversalType)
    requires Closed(adj) && root in adj
    ensures Distinct(Dfs(adj, root, t))
    ensures forall y :: y in Dfs(adj, root, t) <==> Reaches(EdgeSet(adj), root, y)
    ensures forall y :: y in Dfs(adj, root, t) ==> y in adj
  {
    var r := Dfs(adj, root, t);
    ExploreMembers(adj, [root], {}, t);
    ExploreIsClosed(adj, [root], {}, t);
    forall y | y in r ensures Reaches(EdgeSet(adj), root, y) {
      ExploreIsReachable(adj, [root], {}, t, y);
    }
    forall y | Reaches(EdgeSet(adj), root, y) ensures y in r {
      var p :| IsWalk(EdgeSet(adj), p) && p[0] == root && p[|p| - 1] == y;
      assert root in [root];
      ClosedUnderWalk(EdgeSet(adj), Elements(r), p);
    }
  }

  // ------------------------------------------------------------ post-order

  // An out-node of the i-th label is listed before it, was visited at the start,
  // or leads back to it.
  ghost predicate PostListed(adj: Adjacency, visited: set<int>, r: seq<int>, i: nat, v: int)
    requires i < |r|
  {
    v in visited || v in r[..i] || Reaches(EdgeSet(adj), v, r[i])
  }

  lemma {:induction false} ExplorePost(adj: Adjacency, todo: seq<int>, visited: set<int>, i: nat, v: int)
    requires Closed(adj)
    requires forall x :: x in todo ==> x in adj
    requires i < |Explore(adj, todo, visited, POST_ORDER).0|
    requires Edge(Explore(adj, todo, visited, POST_ORDER).0[i], v) in EdgeSet(adj)
    ensures PostListed(adj, visited, Explore(adj, todo, visited, POST_ORDER).0, i, v)
    decreases adj.Keys - visited, |todo|
  {
    var t := POST_ORDER;
    var r := Explore(adj, todo, visited, t).0;
    if todo[0] in visited {
      ExplorePost(adj, todo[1..], visited, i, v);
    } else {
      var x := todo[0];
      var below := Explore(adj, adj[x], visited + {x}, t);
      var right := Explore(adj, todo[1..], below.1, t);
      var n := |below.0|;
      assert r == below.0 + [x] + right.0;
      ExploreMembers(adj, adj[x], visited + {x}, t);
      if i < n {
        assert r[i] == below.0[i] && r[..i] == below.0[..i];
        ExplorePost(adj, adj[x], visited + {x}, i, v);
        assert r[i] in below.0;
        BelowIsReachable(adj, x, visited, t, r[i]);
      } else if i == n {
        assert r[i] == x && r[..i] == below.0;
        ReachesSelf(EdgeSet(adj), x);
      } else {
        var k := i - n - 1;
        assert r[i] == right.0[k] && r[..i] == below.0 + [x] + right.0[..k];
        ExplorePost(adj, todo[1..], below.1, k, v);
      }
    }
  }

  /** In post-order the target of an edge comes before its source, unless the
      target leads back to the source. */
  lemma {:induction false} PostOrderTargetsFirst(adj: Adjacency, root: int, u: int, v: int)
    requires Closed(adj) && root in adj
    requires Edge(u, v) in EdgeSet(adj) && Reaches(EdgeSet(adj), root, u)
    requires !Reaches(EdgeSet(adj), v, u)
    ensures var r := Dfs(adj, root, POST_ORDER);
      u in r && v in r && Position(r, v) < Position(r, u)
  {
    DfsIsReachability(adj, root, POST_ORDER);
    ReachesThenStep(EdgeSet(adj), root, u, v);
    var r := Dfs(adj, root, POST_ORDER);
    var i := Position(r, u);
    ExplorePost(adj, [root], {}, i, v);
  }

  // ------------------------------------------------------------- pre-order

  // A listed label comes from todo or from an earlier label that has an edge to it.
  ghost predicate PreListed(adj: Adjacency, todo: seq<int>, r: seq<int>, i: nat)
    requires i < |r|
  {
    r[i] in todo || exists j :: 0 <= j < i && Edge(r[j], r[i]) in EdgeSet(adj)
  }

  lemma {:induction false} ExplorePre(adj: Adjacency, todo: seq<int>, visited: set<int>, i: nat)
    requires Closed(adj)
    requires forall x :: x in todo ==> x in adj
    requires i < |Explore(adj, todo, visited, PRE_ORDER).0|
    ensures PreListed(adj, todo, Explore(adj, todo, visited, PRE_ORDER).0, i)
    decreases adj.Keys - visited, |todo|
  {
    var t := PRE_ORDER;
    var r := Explore(adj, todo, visited, t).0;
    if todo[0] in visited {
      ExplorePre(adj, todo[1..], visited, i);
    } else {
      var x := todo[0];
      var below := Explore(adj, adj[x], visited + {x}, t);
      var right := Explore(adj, todo[1..], below.1, t);
      var n := |below.0|;
      assert r == [x] + below.0 + right.0;
      if 0 < i <= n {
        assert r[i] == below.0[i - 1];
        ExplorePre(adj, adj[x], visited + {x}, i - 1);
        if r[i] in adj[x] {
          assert Edge(r[0], r[i]) in EdgeSet(adj);
        } else {
          var j :| 0 <= j < i - 1 && Edge(below.0[j], below.0[i - 1]) in EdgeSet(adj);
          assert r[j + 1] == below.0[j];
        }
      } else if i > n {
        var k := i - n - 1;
        assert r[i] == right.0[k];
        ExplorePre(adj, todo[1..], below.1, k);
        if r[i] !in todo[1..] {
          var j :| 0 <= j < k && Edge(right.0[j], right.0[k]) in EdgeSet(adj);
          assert r[n + 1 + j] == right.0[j];
        }
      }
    }
  }

  /** In pre-order the root comes first and every other label has an in-node
      that is listed earlier. */
  lemma {:induction false} PreOrderSourcesFirst(adj: Adjacency, root: int, i: nat)
    requires Closed(adj) && root in adj && i < |Dfs(adj, root, PRE_ORDER)|
    ensures var r := Dfs(adj, root, PRE_ORDER);
      && r[0] == root
      && (i > 0 ==> exists j :: 0 <= j < i && Edge(r[j], r[i]) in EdgeSet(adj))
  {
    var r := Dfs(adj, root, PRE_ORDER);
    DfsIsReachability(adj, root, PRE_ORDER);
    ExplorePre(adj, [root], {}, i);
    assert r[0] == root;
  }

  // ------------------------------------------------------------------ on trees

  // The adjacency holds the nodes of the forest with their children in order.
  ghost predicate Fits(adj: Adjacency, F: Forest)
    decreases F
  {
    F != [] ==>
      && F[0].id in adj
      && adj[F[0].id] == RootLabels(F[0].kids)
      && Fits(adj, F[0].kids)
      && Fits(adj, F[1..])
  }

  ghost function ForestOrder(F: Forest, t: TraversalType): seq<int> {
    if t == PRE_ORDER then PreOrder(F) else PostOrder(F)
  }

  lemma {:induction false} FitRoots(adj: Adjacency, F: Forest)
    requires Fits(adj, F)
    ensures forall x :: x in RootLabels(F) ==> x in adj
  {
    if F != [] {
      FitRoots(adj, F[1..]);
    }
  }

  // On a forest, exploring is listing.
  lemma {:induction false} ExploreForest(adj: Adjacency, F: Forest, visited: set<int>, t: TraversalType)
    requires Closed(adj) && Fits(adj, F) && UniqueLabels(F)
    requires Elements(PreOrder(F)) !! visited
    requires forall x :: x in RootLabels(F) ==> x in adj
    ensures Explore(adj, RootLabels(F), visited, t) == (ForestOrder(F, t), visited + Elements(PreOrder(F)))
    decreases F
  {
    if F == [] {
      assert visited + Elements(PreOrder(F)) == visited;
    } else {
      var f, R := F[0], F[1..];
      assert RootLabels(F)[0] == f.id && RootLabels(F)[1..] == RootLabels(R);
      RootsAreLabels(F, 0);
      FitRoots(adj, R);
      ForestParts(F, visited);
      ExploreForest(adj, f.kids, visited + {f.id}, t);
      var v1 := visited + {f.id} + Elements(PreOrder(f.kids));
      ExploreForest(adj, R, v1, t);
      ExploreFirst(adj, RootLabels(F), visited, t, (ForestOrder(f.kids, t), v1),
                   (ForestOrder(R, t), v1 + Elements(PreOrder(R))));
      FirstOrder(F, t);
    }
  }

  lemma {:induction false} ForestParts(F: Forest, visited: set<int>)
    requires F != [] && UniqueLabels(F)
    requires Elements(PreOrder(F)) !! visited
    ensures UniqueLabels(F[0].kids) && UniqueLabels(F[1..])
    ensures F[0].id !in visited
    ensures Elements(PreOrder(F[0].kids)) !! visited + {F[0].id}
    ensures Elements(PreOrder(F[1..])) !! visited + {F[0].id} + Elements(PreOrder(F[0].kids))
    ensures visited + {F[0].id} + Elements(PreOrder(F[0].kids)) + Elements(PreOrder(F[1..]))
         == visited + Elements(PreOrder(F))
  {
    UniqueParts(F);
    RootsAreLabels(F, 0);
    assert F[0].id in Elements(PreOrder(F));
    ElementsConcat([F[0].id] + PreOrder(F[0].kids), PreOrder(F[1..]));
    ElementsConcat([F[0].id], PreOrder(F[0].kids));
    var R := Elements(PreOrder(F[1..]));
    assert R <= Elements(PreOrder(F));
    forall x | x in R ensures x !in visited + {F[0].id} + Elements(PreOrder(F[0].kids)) {
      assert x in PreOrder(F[1..]) && x in Elements(PreOrder(F));
    }
  }

  lemma FirstOrder(F: Forest, t: TraversalType)
    requires F != []
    ensures ForestOrder(F, t)
         == Entering(F[0].id, t) + ForestOrder(F[0].kids, t) + Leaving(F[0].id, t) + ForestOrder(F[1..], t)
  {
  }

  lemma ExploreFirst(adj: Adjacency, todo: seq<int>, visited: set<int>, t: TraversalType,
                     below: (seq<int>, set<int>), right: (seq<int>, set<int>))
    requires Closed(adj) && todo != []
    requires forall x :: x in todo ==> x in adj
    requires todo[0] in adj && todo[0] !in visited
    requires forall x :: x in adj[todo[0]] ==> x in adj
    requires below == Explore(adj, adj[todo[0]], visited + {todo[0]}, t)
    requires right == Explore(adj, todo[1..], below.1, t)
    ensures Explore(adj, todo, visited, t)
         == (Entering(todo[0], t) + below.0 + Leaving(todo[0], t) + right.0, right.1)
  {
  }

  lemma ElementsConcat(a: seq<int>, b: seq<int>)
    ensures Elements(a + b) == Elements(a) + Elements(b)
  {
  }

  /** On a tree the two traversals are the recursive pre-order and post-order
      listings. */
  lemma {:induction false} DfsOnTree(adj: Adjacency, s: Rose, t: TraversalType)
    requires Closed(adj) && Fits(adj, [s]) && UniqueLabels([s])
    ensures s.id in adj
    ensures Dfs(adj, s.id, t) == ForestOrder([s], t)
  {
    FitRoots(adj, [s]);
    assert [s][1..] == [];
    assert RootLabels([s]) == [s.id];
    ExploreForest(adj, [s], {}, t);
  }

  // b stands in s at position i.
  ghost predicate BlockAt(s: seq<int>, i: nat, b: seq<int>) {
    i + |b| <= |s| && s[i..i + |b|] == b
  }

  lemma BlockInside(a: seq<int>, b: seq<int>, c: seq<int>, j: nat, block: seq<int>)
    requires BlockAt(b, j, block)
    ensures BlockAt(a + b + c, |a| + j, block)
  {
    assert (a + b + c)[|a| + j..|a| + j + |block|] == b[j..j + |block|];
  }

  lemma BlockAtEnd(a: seq<int>, b: seq<int>, c: seq<int>, j: nat, block: seq<int>)
    requires BlockAt(c, j, block)
    ensures BlockAt(a + b + c, |a| + |b| + j, block)
  {
    assert (a + b + c)[|a| + |b| + j..|a| + |b| + j + |block|] == c[j..j + |block|];
  }

  // The pre-order of a forest is the first root, its children, and the other trees.
  lemma OrderParts(F: Forest, a: seq<int>, b: seq<int>, c: seq<int>)
    requires F != [] && a == [F[0].id] && b == PreOrder(F[0].kids) && c == PreOrder(F[1..])
    ensures PreOrder(F) == a + b + c && PreOrder([F[0]]) == a + b
  {
    SingletonOrder(F[0]);
  }

  lemma BlockAtStart(a: seq<int>, b: seq<int>, c: seq<int>)
    ensures BlockAt(a + b + c, 0, a + b)
  {
  }

  lemma {:induction false} SubtreeBlock(s: Rose, F: Forest) returns (i: nat)
    requires IsSubtree(s, F)
    ensures BlockAt(PreOrder(F), i, PreOrder([s]))
    decreases F
  {
    var root, k, rest := [F[0].id], PreOrder(F[0].kids), PreOrder(F[1..]);
    OrderParts(F, root, k, rest);
    if s == F[0] {
      i := 0;
      BlockAtStart(root, k, rest);
    } else if IsSubtree(s, F[0].kids) {
      var j := SubtreeBlock(s, F[0].kids);
      i := 1 + j;
      BlockInside(root, k, rest, j, PreOrder([s]));
    } else {
      var j := SubtreeBlock(s, F[1..]);
      i := 1 + |k| + j;
      BlockAtEnd(root, k, rest, j, PreOrder([s]));
    }
  }

  /** In pre-order every subtree is one contiguous block, headed by its root and
      listed in its own pre-order. */
  lemma {:induction false} SubtreeIsBlock(s: Rose, F: Forest) returns (i: nat)
    requires IsSubtree(s, F)
    ensures i + TreeWeight(s) <= |PreOrder(F)|
    ensures PreOrder(F)[i..i + TreeWeight(s)] == PreOrder([s])
    ensures PreOrder(F)[i] == s.id
  {
    i := SubtreeBlock(s, F);
    PreOrderLength(s.kids);
    SingletonOrder(s);
    assert PreOrder(F)[i] == PreOrder(F)[i..i + TreeWeight(s)][0];
  }

  lemma SingletonOrder(s: Rose)
    ensures PreOrder([s]) == [s.id] + PreOrder(s.kids)
  {
    assert [s][1..] == [];
  }
}
