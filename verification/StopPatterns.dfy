/** Trips, their stop patterns and the edges they give. */
module StopPatterns {
  import opened Decimal
  import opened Edges

  datatype Direction = Unspecified | DirectionTrue | DirectionFalse

  datatype StopTime = StopTime(stopID: string, arrivalTime: int)

  datatype Service = Service(
    id: string,
    monday: bool, tuesday: bool, wednesday: bool, thursday: bool, friday: bool, saturday: bool, sunday: bool)

  datatype Trip = Trip(routeID: string, service: Service, direction: Direction, stopTimes: seq<StopTime>)

  // stopIDToStationPk
  type Stations = map<string, int>

  // ------------------------------------------------------------------ reversal

  function Reversed<T>(s: seq<T>): (r: seq<T>)
    ensures |r| == |s|
    ensures forall i :: 0 <= i < |s| ==> r[i] == s[|s| - 1 - i]
  {
    seq(|s|, i requires 0 <= i < |s| => s[|s| - 1 - i])
  }

  lemma ReversedTwice<T>(s: seq<T>)
    ensures Reversed(Reversed(s)) == s
  {
  }

  // The loop that calculateTripKey and reverse share.
  method ReverseInPlace(a: array<int>)
    modifies a
    ensures a[..] == Reversed(old(a[..]))
  {
    var i, j := 0, a.Length - 1;
    while i < j
      invariant 0 <= i && i + j == a.Length - 1
      invariant i <= j + 1
      invariant forall k :: 0 <= k < i ==> a[k] == old(a[a.Length - 1 - k])
      invariant forall k :: j < k < a.Length ==> a[k] == old(a[a.Length - 1 - k])
      invariant forall k :: i <= k <= j ==> a[k] == old(a[k])
    {
      a[i], a[j] := a[j], a[i];
      i, j := i + 1, j - 1;
    }
  }

  // A slice of its own, reversed.
  method ReverseSlice(s: seq<int>) returns (r: seq<int>)
    ensures r == Reversed(s)
  {
    var a := new int[|s|](i requires 0 <= i < |s| => s[i]);
    assert a[..] == s;
    ReverseInPlace(a);
    r := a[..];
  }

  // ------------------------------------------------------------------ trip keys

  // The stations of the stops that have one.
  function Mapped(stopTimes: seq<StopTime>, m: Stations): seq<int> {
    if stopTimes == [] then [] else
      var s := stopTimes[|stopTimes| - 1];
      Mapped(stopTimes[..|stopTimes| - 1], m) + if s.stopID in m then [m[s.stopID]] else []
  }

  // %d-
  function Piece(pk: int): string {
    FormatInt(pk) + "-"
  }

  function Key(pks: seq<int>): string {
    if pks == [] then "" else Key(pks[..|pks| - 1]) + Piece(pks[|pks| - 1])
  }

  function TripKey(trip: Trip, m: Stations): string {
    var pks := Mapped(trip.stopTimes, m);
    Key(if trip.direction == DirectionTrue then Reversed(pks) else pks)
  }

  lemma MappedNext(stopTimes: seq<StopTime>, k: nat, m: Stations)
    requires k < |stopTimes|
    ensures var s := stopTimes[k];
      Mapped(stopTimes[..k + 1], m) == Mapped(stopTimes[..k], m) + if s.stopID in m then [m[s.stopID]] else []
  {
    assert stopTimes[..k + 1][..k] == stopTimes[..k];
  }

  lemma KeyNext(pks: seq<int>, k: nat)
    requires k < |pks|
    ensures Key(pks[..k + 1]) == Key(pks[..k]) + Piece(pks[k])
  {
    assert pks[..k + 1][..k] == pks[..k];
  }

  method CalculateTripKey(trip: Trip, m: Stations) returns (key: string)
    ensures key == TripKey(trip, m)
  {
    var stationPks := [];
    for k := 0 to |trip.stopTimes|
      invariant stationPks == Mapped(trip.stopTimes[..k], m)
    {
      MappedNext(trip.stopTimes, k, m);
      var id := trip.stopTimes[k].stopID;
      if id !in m {
        continue;
      }
      stationPks := stationPks + [m[id]];
    }
    assert trip.stopTimes[..|trip.stopTimes|] == trip.stopTimes;
    if trip.direction == DirectionTrue {
      stationPks := ReverseSlice(stationPks);
    }
    key := "";
    for k := 0 to |stationPks|
      invariant key == Key(stationPks[..k])
    {
      KeyNext(stationPks, k);
      key := key + Piece(stationPks[k]);
    }
    assert stationPks[..|stationPks|] == stationPks;
  }

  // A numeral ends at the first character that is not a digit.
  lemma NumeralIsShortest(d: string, e: string, r: string, q: string)
    requires AllDigits(d) && AllDigits(e) && d + "-" + r == e + "-" + q
    ensures |d| <= |e|
  {
    assert (e + "-" + q)[|e|] == '-';
    assert |e| < |d| ==> (d + "-" + r)[|e|] == d[|e|] && IsDigit(d[|e|]);
  }

  lemma NumeralEnds(d: string, e: string, r: string, q: string)
    requires AllDigits(d) && AllDigits(e) && d + "-" + r == e + "-" + q
    ensures d == e && r == q
  {
    NumeralIsShortest(d, e, r, q);
    NumeralIsShortest(e, d, q, r);
    var s, t := d + "-" + r, e + "-" + q;
    assert s[..|d|] == d && t[..|e|] == e;
    assert s[|d| + 1..] == r && t[|e| + 1..] == q;
  }

  // A piece is a sign if the number is negative, then its digits and a hyphen.
  lemma PieceShape(x: int, r: string)
    ensures x >= 0 ==> Piece(x) + r == Digits(x) + "-" + r && IsDigit((Piece(x) + r)[0])
    ensures x < 0 ==> (Piece(x) + r)[1..] == Digits(-x) + "-" + r && (Piece(x) + r)[0] == '-'
  {
    if x >= 0 {
      assert (Piece(x) + r)[0] == Digits(x)[0];
    }
  }

  lemma FirstPieceDecodes(x: int, y: int, r: string, q: string)
    requires Piece(x) + r == Piece(y) + q
    ensures x == y && r == q
  {
    PieceShape(x, r);
    PieceShape(y, q);
    assert x < 0 <==> y < 0;
    var a, b := if x < 0 then -x else x, if y < 0 then -y else y;
    NumeralEnds(Digits(a), Digits(b), r, q);
    ValueOfDigits(a);
    ValueOfDigits(b);
  }

  lemma {:induction false} KeyFromFront(pks: seq<int>)
    requires pks != []
    ensures Key(pks) == Piece(pks[0]) + Key(pks[1..])
  {
    var n := |pks| - 1;
    if n == 0 {
      assert pks[..0] == [] && pks[1..] == [];
    } else {
      KeyFromFront(pks[..n]);
      assert pks[..n][1..] == pks[1..][..n - 1];
      assert pks[1..][|pks[1..]| - 1] == pks[n];
      Associate(Piece(pks[0]), Key(pks[1..][..n - 1]), Piece(pks[n]));
    }
  }

  lemma Associate(a: string, b: string, c: string)
    ensures (a + b) + c == a + (b + c)
  {
  }

  /** The key is an injective encoding of a list of station keys of either sign. */
  lemma {:induction false} KeyIsInjective(p: seq<int>, q: seq<int>)
    requires Key(p) == Key(q)
    ensures p == q
  {
    if p != [] && q != [] {
      KeyFromFront(p);
      KeyFromFront(q);
      FirstPieceDecodes(p[0], q[0], Key(p[1..]), Key(q[1..]));
      KeyIsInjective(p[1..], q[1..]);
      assert p == [p[0]] + p[1..] && q == [q[0]] + q[1..];
    } else if p != [] {
      KeyFromFront(p);
    } else if q != [] {
      KeyFromFront(q);
    }
  }

  // --------------------------------------------------------------------- edges

  // The edges along a list of labels.
  function PathEdges(pks: seq<int>): (edges: seq<Edge>)
    ensures |edges| == if pks == [] then 0 else |pks| - 1
    ensures forall i :: 0 <= i < |edges| ==> edges[i] == Edge(pks[i], pks[i + 1])
  {
    if pks == [] then [] else seq(|pks| - 1, i requires 0 <= i < |pks| - 1 => Edge(pks[i], pks[i + 1]))
  }

  // The edge between two neighbouring stops, if both have a station.
  function StopEdge(a: StopTime, b: StopTime, direction: Direction, m: Stations): seq<Edge> {
    var from, to := if direction == DirectionFalse then b else a, if direction == DirectionFalse then a else b;
    if from.stopID in m && to.stopID in m then [Edge(m[from.stopID], m[to.stopID])] else []
  }

  function StaticEdges(stopTimes: seq<StopTime>, direction: Direction, m: Stations): seq<Edge> {
    var n := |stopTimes|;
    if n < 2 then [] else
      StaticEdges(stopTimes[..n - 1], direction, m) + StopEdge(stopTimes[n - 2], stopTimes[n - 1], direction, m)
  }

  method TripEdges(trip: Trip, m: Stations) returns (edges: seq<Edge>)
    ensures edges == StaticEdges(trip.stopTimes, trip.direction, m)
  {
    edges := [];
    var s := trip.stopTimes;
    var j := 1;
    while j < |s|
      invariant 1 <= j && (j <= |s| || |s| == 0)
      invariant j <= |s| ==> edges == StaticEdges(s[..j], trip.direction, m)
      invariant |s| == 0 ==> edges == []
    {
      assert s[..j + 1][..j] == s[..j];
      var from, to := j - 1, j;
      if trip.direction == DirectionFalse {
        from, to := j, j - 1;
      }
      j := j + 1;
      if s[from].stopID !in m {
        continue;
      }
      if s[to].stopID !in m {
        continue;
      }
      edges := edges + [Edge(m[s[from].stopID], m[s[to].stopID])];
    }
    assert |s| > 0 ==> s[..j] == s;
  }

  // No unknown stop lies between two known ones. This holds in particular if every
  // stop has a station.
  ghost predicate Contiguous(stopTimes: seq<StopTime>, m: Stations) {
    forall i, j, k :: 0 <= i < j < k < |stopTimes| && stopTimes[i].stopID in m && stopTimes[k].stopID in m ==>
      stopTimes[j].stopID in m
  }

  // The stations of a trip, and its edges, in the order of travel.
  function Travel(trip: Trip, m: Stations): seq<int> {
    var pks := Mapped(trip.stopTimes, m);
    if trip.direction == DirectionFalse then Reversed(pks) else pks
  }

  function TravelEdges(trip: Trip, m: Stations): seq<Edge> {
    var edges := StaticEdges(trip.stopTimes, trip.direction, m);
    if trip.direction == DirectionFalse then Reversed(edges) else edges
  }

  // ------------------------------------------------- what the edges have in common

  lemma PathSnoc(pks: seq<int>, pk: int)
    requires pks != []
    ensures PathEdges(pks + [pk]) == PathEdges(pks) + [Edge(pks[|pks| - 1], pk)]
  {
  }

  // Turning a path round turns its edges round, one by one and in order.
  function Flipped(edges: seq<Edge>): (r: seq<Edge>)
    ensures |r| == |edges|
    ensures forall i :: 0 <= i < |r| ==> r[i] == Edge(edges[i].to, edges[i].from)
  {
    seq(|edges|, i requires 0 <= i < |edges| => Edge(edges[i].to, edges[i].from))
  }

  lemma PathOfReversed(pks: seq<int>)
    ensures PathEdges(Reversed(pks)) == Reversed(Flipped(PathEdges(pks)))
  {
  }

  // The edges against the direction of the list are those along it, flipped.
  lemma {:induction false} FalseIsFlipped(stopTimes: seq<StopTime>, m: Stations)
    ensures StaticEdges(stopTimes, DirectionFalse, m) == Flipped(StaticEdges(stopTimes, DirectionTrue, m))
  {
    var n := |stopTimes|;
    if n >= 2 {
      FalseIsFlipped(stopTimes[..n - 1], m);
    }
  }

  // In the order of travel the edges of both directions are those of a path, up
  // to a turn of the whole list.
  lemma TravelIsForward(trip: Trip, m: Stations)
    ensures var forward := StaticEdges(trip.stopTimes, DirectionTrue, m);
      TravelEdges(trip, m) == if trip.direction == DirectionFalse then Reversed(Flipped(forward)) else forward
    ensures var path := PathEdges(Mapped(trip.stopTimes, m));
      PathEdges(Travel(trip, m)) == if trip.direction == DirectionFalse then Reversed(Flipped(path)) else path
  {
    if trip.direction == DirectionFalse {
      FalseIsFlipped(trip.stopTimes, m);
      PathOfReversed(Mapped(trip.stopTimes, m));
    } else {
      OtherDirections(trip.stopTimes, trip.direction, m);
    }
  }

  lemma {:induction false} OtherDirections(stopTimes: seq<StopTime>, direction: Direction, m: Stations)
    requires direction != DirectionFalse
    ensures StaticEdges(stopTimes, direction, m) == StaticEdges(stopTimes, DirectionTrue, m)
  {
    var n := |stopTimes|;
    if n >= 2 {
      OtherDirections(stopTimes[..n - 1], direction, m);
    }
  }

  // The last stop that has a station is the last stop of the list.
  predicate EndsMapped(stopTimes: seq<StopTime>, m: Stations) {
    stopTimes != [] && stopTimes[|stopTimes| - 1].stopID in m
  }

  // Stop by stop: the edges are never more than those of the path of stations, and
  // they are as many, and the same, just when no unknown stop lies in between.
  lemma {:induction false} ForwardEdges(stopTimes: seq<StopTime>, m: Stations)
    ensures var pks, edges := Mapped(stopTimes, m), StaticEdges(stopTimes, DirectionTrue, m);
      && |edges| <= |PathEdges(pks)|
      && (EndsMapped(stopTimes, m) ==> pks != [] && pks[|pks| - 1] == m[stopTimes[|stopTimes| - 1].stopID])
      && (Contiguous(stopTimes, m) ==> edges == PathEdges(pks))
      && (|edges| == |PathEdges(pks)| ==> Contiguous(stopTimes, m))
  {
    var n := |stopTimes|;
    if n >= 1 {
      var front, last := stopTimes[..n - 1], stopTimes[n - 1];
      ForwardEdges(front, m);
      ForwardStep(stopTimes, m);
      if last.stopID in m && Mapped(front, m) != [] {
        PathSnoc(Mapped(front, m), m[last.stopID]);
      }
    }
  }

  // One more stop.
  lemma ForwardStep(stopTimes: seq<StopTime>, m: Stations)
    requires stopTimes != []
    ensures var front, last := stopTimes[..|stopTimes| - 1], stopTimes[|stopTimes| - 1];
      Contiguous(stopTimes, m) <==>
        Contiguous(front, m) && (last.stopID in m && Mapped(front, m) != [] ==> EndsMapped(front, m))
  {
    var n := |stopTimes|;
    var front, last := stopTimes[..n - 1], stopTimes[n - 1];
    SomeMapped(front, m);
    if Contiguous(front, m) && (last.stopID in m && Mapped(front, m) != [] ==> EndsMapped(front, m)) {
      forall i, j, k | 0 <= i < j < k < n && stopTimes[i].stopID in m && stopTimes[k].stopID in m
        ensures stopTimes[j].stopID in m
      {
        if k == n - 1 {
          assert front[i].stopID in m && front[n - 2].stopID in m;
          assert j < n - 2 ==> front[j].stopID in m;
        } else {
          assert front[i].stopID in m && front[k].stopID in m && front[j].stopID in m;
        }
      }
    }
    if Contiguous(stopTimes, m) {
      forall i, j, k | 0 <= i < j < k < n - 1 && front[i].stopID in m && front[k].stopID in m
        ensures front[j].stopID in m
      {
        assert stopTimes[i].stopID in m && stopTimes[k].stopID in m;
      }
    }
  }

  lemma {:induction false} SomeMapped(stopTimes: seq<StopTime>, m: Stations)
    ensures Mapped(stopTimes, m) != [] <==> exists i :: 0 <= i < |stopTimes| && stopTimes[i].stopID in m
  {
    var n := |stopTimes|;
    if n > 0 {
      SomeMapped(stopTimes[..n - 1], m);
      assert stopTimes[n - 1].stopID in m ==> Mapped(stopTimes, m) != [];
      if i :| 0 <= i < n && stopTimes[i].stopID in m {
        assert i < n - 1 ==> stopTimes[..n - 1][i].stopID in m;
      }
    }
  }

  /** A trip's edges are those along its stations, in the order of travel, exactly
      when no stop without a station lies between two with one. */
  lemma EdgesFollowStations(trip: Trip, m: Stations)
    ensures TravelEdges(trip, m) == PathEdges(Travel(trip, m)) <==> Contiguous(trip.stopTimes, m)
  {
    TravelIsForward(trip, m);
    ForwardEdges(trip.stopTimes, m);
  }

  // The key is made from the way back.
  lemma KeyOfTravel(trip: Trip, m: Stations)
    requires trip.direction != Unspecified
    ensures TripKey(trip, m) == Key(Reversed(Travel(trip, m)))
  {
    ReversedTwice(Mapped(trip.stopTimes, m));
  }

  /** Trips whose direction is given have the same key exactly when they travel past
      the same stations in the same order, whichever direction they are. */
  lemma SameKey(t: Trip, u: Trip, m: Stations)
    requires t.direction != Unspecified && u.direction != Unspecified
    ensures TripKey(t, m) == TripKey(u, m) <==> Travel(t, m) == Travel(u, m)
  {
    KeyOfTravel(t, m);
    KeyOfTravel(u, m);
    if TripKey(t, m) == TripKey(u, m) {
      KeyIsInjective(Reversed(Travel(t, m)), Reversed(Travel(u, m)));
      ReversedTwice(Travel(t, m));
      ReversedTwice(Travel(u, m));
    }
  }

  /** A trip without an unknown stop in between has the edges of another trip with
      its key exactly when that one has none either. */
  lemma SameKeySameEdges(t: Trip, u: Trip, m: Stations)
    requires t.direction != Unspecified && u.direction != Unspecified
    requires TripKey(t, m) == TripKey(u, m) && Contiguous(t.stopTimes, m)
    ensures TravelEdges(t, m) == TravelEdges(u, m) <==> Contiguous(u.stopTimes, m)
  {
    SameKey(t, u, m);
    EdgesFollowStations(t, m);
    EdgesFollowStations(u, m);
  }

  function EdgeSetOf(trip: Trip, m: Stations): set<Edge> {
    Elements(StaticEdges(trip.stopTimes, trip.direction, m))
  }

  lemma TravelHasTheEdges(trip: Trip, m: Stations)
    ensures Elements(TravelEdges(trip, m)) == EdgeSetOf(trip, m)
  {
    var edges := StaticEdges(trip.stopTimes, trip.direction, m);
    ReversedElements(edges);
  }

  lemma ReversedElements<T>(s: seq<T>)
    ensures Elements(Reversed(s)) == Elements(s)
  {
    forall x | x in s ensures x in Reversed(s) {
      var i :| 0 <= i < |s| && s[i] == x;
      assert Reversed(s)[|s| - 1 - i] == x;
    }
  }

  // --------------------------------------------------------- sets of edges

  // Stop k is the first with a station after stop i, which has one.
  ghost predicate NextKnown(stopTimes: seq<StopTime>, m: Stations, i: int, k: int) {
    && 0 <= i < k < |stopTimes| && stopTimes[i].stopID in m && stopTimes[k].stopID in m
    && forall j :: i < j < k ==> stopTimes[j].stopID !in m
  }

  // The edge leads from stop i's station to stop k's.
  ghost predicate Joins(stopTimes: seq<StopTime>, m: Stations, i: int, k: int, e: Edge) {
    NextKnown(stopTimes, m, i, k) && e == Edge(m[stopTimes[i].stopID], m[stopTimes[k].stopID])
  }

  ghost predicate OnPath(stopTimes: seq<StopTime>, m: Stations, e: Edge) {
    exists i, k :: Joins(stopTimes, m, i, k, e)
  }

  // Stops i and i + 1 both have a station, and the edge leads from one to the other.
  ghost predicate Hops(stopTimes: seq<StopTime>, m: Stations, i: int, e: Edge) {
    && 0 <= i < |stopTimes| - 1 && stopTimes[i].stopID in m && stopTimes[i + 1].stopID in m
    && e == Edge(m[stopTimes[i].stopID], m[stopTimes[i + 1].stopID])
  }

  ghost predicate IsHop(stopTimes: seq<StopTime>, m: Stations, e: Edge) {
    exists i :: Hops(stopTimes, m, i, e)
  }

  // Stations parted by unknown stops only also follow each other without a stop in between.
  ghost predicate Bridged(stopTimes: seq<StopTime>, m: Stations) {
    forall i, k, e :: Joins(stopTimes, m, i, k, e) ==> IsHop(stopTimes, m, e)
  }

  lemma InBetween(stopTimes: seq<StopTime>, m: Stations, i: int, j: int, k: int)
    requires Contiguous(stopTimes, m) && 0 <= i < j < k < |stopTimes|
    requires stopTimes[i].stopID in m && stopTimes[k].stopID in m
    ensures stopTimes[j].stopID in m
  {
  }

  lemma ContiguousIsBridged(stopTimes: seq<StopTime>, m: Stations)
    requires Contiguous(stopTimes, m)
    ensures Bridged(stopTimes, m)
  {
    forall i, k, e | Joins(stopTimes, m, i, k, e) ensures IsHop(stopTimes, m, e) {
      if i + 1 < k {
        InBetween(stopTimes, m, i, i + 1, k);
        assert false;
      }
      assert Hops(stopTimes, m, i, e);
    }
  }

  lemma JoinsInFront(stopTimes: seq<StopTime>, m: Stations, i: int, k: int, e: Edge)
    requires stopTimes != [] && k < |stopTimes| - 1
    ensures Joins(stopTimes, m, i, k, e) <==> Joins(stopTimes[..|stopTimes| - 1], m, i, k, e)
  {
    var front := stopTimes[..|stopTimes| - 1];
    assert forall j :: 0 <= j <= k ==> front[j] == stopTimes[j];
  }

  // The last stop that has a station.
  lemma {:induction false} LastKnown(stopTimes: seq<StopTime>, m: Stations) returns (i: nat)
    requires Mapped(stopTimes, m) != []
    ensures i < |stopTimes| && stopTimes[i].stopID in m
    ensures forall j :: i < j < |stopTimes| ==> stopTimes[j].stopID !in m
    ensures Mapped(stopTimes, m)[|Mapped(stopTimes, m)| - 1] == m[stopTimes[i].stopID]
  {
    var n := |stopTimes|;
    if stopTimes[n - 1].stopID in m {
      i := n - 1;
    } else {
      i := LastKnown(stopTimes[..n - 1], m);
    }
  }

  // The edge that ends at the last stop.
  ghost predicate JoinsLast(stopTimes: seq<StopTime>, m: Stations, i: int, e: Edge) {
    Joins(stopTimes, m, i, |stopTimes| - 1, e)
  }

  lemma LastJoins(front: seq<StopTime>, last: StopTime, m: Stations, e: Edge)
    requires last.stopID in m && Mapped(front, m) != []
    ensures (exists i :: JoinsLast(front + [last], m, i, e)) <==>
      e == Edge(Mapped(front, m)[|Mapped(front, m)| - 1], m[last.stopID])
  {
    var s := front + [last];
    var i := LastKnown(front, m);
    assert forall j :: 0 <= j < |front| ==> s[j] == front[j];
    assert JoinsLast(s, m, i, Edge(m[front[i].stopID], m[last.stopID]));
    if i' :| JoinsLast(s, m, i', e) {
      if i' < i {
        assert false;
      } else if i < i' {
        assert false;
      }
    }
  }

  lemma NoneJoinsLast(front: seq<StopTime>, last: StopTime, m: Stations, e: Edge)
    requires last.stopID !in m || Mapped(front, m) == []
    ensures !exists i :: JoinsLast(front + [last], m, i, e)
  {
    SomeMapped(front, m);
    if i :| JoinsLast(front + [last], m, i, e) {
      assert front[i].stopID in m;
    }
  }

  // What one more stop adds to the path.
  lemma LastOnPath(front: seq<StopTime>, last: StopTime, m: Stations, e: Edge)
    ensures e in PathEdges(Mapped(front + [last], m)) <==>
      (e in PathEdges(Mapped(front, m)) || exists i :: JoinsLast(front + [last], m, i, e))
  {
    assert (front + [last])[..|front|] == front;
    assert Mapped(front + [last], m) == Mapped(front, m) + if last.stopID in m then [m[last.stopID]] else [];
    if last.stopID in m && Mapped(front, m) != [] {
      PathSnoc(Mapped(front, m), m[last.stopID]);
      LastJoins(front, last, m, e);
    } else {
      NoneJoinsLast(front, last, m, e);
      assert last.stopID !in m ==> Mapped(front + [last], m) == Mapped(front, m);
      assert Mapped(front, m) == [] ==> PathEdges(Mapped(front + [last], m)) == PathEdges(Mapped(front, m)) == [];
    }
  }

  lemma OnPathFront(stopTimes: seq<StopTime>, m: Stations, e: Edge)
    requires stopTimes != []
    ensures OnPath(stopTimes, m, e) <==>
      (OnPath(stopTimes[..|stopTimes| - 1], m, e) || exists i :: JoinsLast(stopTimes, m, i, e))
  {
    var n := |stopTimes|;
    if i, k :| Joins(stopTimes, m, i, k, e) {
      if k < n - 1 {
        JoinsInFront(stopTimes, m, i, k, e);
      } else {
        assert JoinsLast(stopTimes, m, i, e);
      }
    }
    var front := stopTimes[..n - 1];
    if i, k :| Joins(front, m, i, k, e) {
      JoinsInFront(stopTimes, m, i, k, e);
    }
  }

  lemma {:induction false} PathMeaning(stopTimes: seq<StopTime>, m: Stations, e: Edge)
    ensures e in PathEdges(Mapped(stopTimes, m)) <==> OnPath(stopTimes, m, e)
  {
    var n := |stopTimes|;
    if n > 0 {
      var front, last := stopTimes[..n - 1], stopTimes[n - 1];
      assert stopTimes == front + [last];
      PathMeaning(front, m, e);
      LastOnPath(front, last, m, e);
      OnPathFront(stopTimes, m, e);
    }
  }

  lemma IsHopFront(stopTimes: seq<StopTime>, m: Stations, e: Edge)
    requires |stopTimes| >= 2
    ensures var n := |stopTimes|;
      IsHop(stopTimes, m, e) <==> (IsHop(stopTimes[..n - 1], m, e) || Hops(stopTimes, m, n - 2, e))
  {
    var n := |stopTimes|;
    var front := stopTimes[..n - 1];
    if i :| Hops(stopTimes, m, i, e) && i < n - 2 {
      assert Hops(front, m, i, e);
    }
    if i :| Hops(front, m, i, e) {
      assert Hops(stopTimes, m, i, e);
    }
  }

  lemma {:induction false} HopMeaning(stopTimes: seq<StopTime>, m: Stations, e: Edge)
    ensures e in StaticEdges(stopTimes, DirectionTrue, m) <==> IsHop(stopTimes, m, e)
  {
    var n := |stopTimes|;
    if n >= 2 {
      HopMeaning(stopTimes[..n - 1], m, e);
      IsHopFront(stopTimes, m, e);
    }
  }

  lemma HopIsOnPath(stopTimes: seq<StopTime>, m: Stations, e: Edge)
    requires IsHop(stopTimes, m, e)
    ensures OnPath(stopTimes, m, e)
  {
    var i :| Hops(stopTimes, m, i, e);
    assert Joins(stopTimes, m, i, i + 1, e);
  }

  lemma ForwardEdgeSet(stopTimes: seq<StopTime>, m: Stations)
    ensures var pks, edges := Mapped(stopTimes, m), StaticEdges(stopTimes, DirectionTrue, m);
      Elements(edges) == Elements(PathEdges(pks)) <==> Bridged(stopTimes, m)
  {
    var hops, path := Elements(StaticEdges(stopTimes, DirectionTrue, m)), Elements(PathEdges(Mapped(stopTimes, m)));
    forall e ensures (e in hops <==> IsHop(stopTimes, m, e)) && (e in path <==> OnPath(stopTimes, m, e)) {
      HopMeaning(stopTimes, m, e);
      PathMeaning(stopTimes, m, e);
    }
    forall e | e in hops ensures e in path {
      HopIsOnPath(stopTimes, m, e);
    }
    if Bridged(stopTimes, m) {
      assert hops == path;
    } else {
      var i, k, e :| Joins(stopTimes, m, i, k, e) && !IsHop(stopTimes, m, e);
      assert e in path && e !in hops;
    }
  }

  lemma FlippedElements(a: seq<Edge>, b: seq<Edge>)
    ensures Elements(Flipped(a)) == Elements(Flipped(b)) <==> Elements(a) == Elements(b)
  {
    InFlipped(a);
    InFlipped(b);
    if Elements(Flipped(a)) == Elements(Flipped(b)) {
      forall e: Edge ensures e in Elements(a) <==> e in Elements(b) {
        var f := Edge(e.to, e.from);
        assert e == Edge(f.to, f.from);
        assert f in Elements(Flipped(a)) <==> f in Elements(Flipped(b));
      }
    }
    if Elements(a) == Elements(b) {
      forall e: Edge ensures e in Elements(Flipped(a)) <==> e in Elements(Flipped(b)) {
        assert Edge(e.to, e.from) in Elements(a) <==> Edge(e.to, e.from) in Elements(b);
      }
    }
  }

  lemma InFlipped(a: seq<Edge>)
    ensures forall e: Edge :: e in Flipped(a) <==> Edge(e.to, e.from) in a
  {
    forall e: Edge | Edge(e.to, e.from) in a ensures e in Flipped(a) {
      var i :| 0 <= i < |a| && a[i] == Edge(e.to, e.from);
      assert Flipped(a)[i] == e;
    }
  }

  // The edge between stops j and j + 1, in the order of travel: back along the list if
  // the trip's direction is false.
  ghost predicate RidesEdge(trip: Trip, m: Stations, j: int, e: Edge) {
    && 0 <= j < |trip.stopTimes| - 1 && trip.stopTimes[j].stopID in m && trip.stopTimes[j + 1].stopID in m
    && var a, b := m[trip.stopTimes[j].stopID], m[trip.stopTimes[j + 1].stopID];
       e == if trip.direction == DirectionFalse then Edge(b, a) else Edge(a, b)
  }

  lemma RidesIsHop(trip: Trip, m: Stations, j: int, e: Edge)
    ensures RidesEdge(trip, m, j, e) <==>
      Hops(trip.stopTimes, m, j, if trip.direction == DirectionFalse then Edge(e.to, e.from) else e)
  {
  }

  /** A trip's edges are those between neighbouring stops that both have a station, in
      the order of travel. */
  lemma EdgeMeaning(trip: Trip, m: Stations, e: Edge)
    ensures e in EdgeSetOf(trip, m) <==> exists j :: RidesEdge(trip, m, j, e)
  {
    var forward := if trip.direction == DirectionFalse then Edge(e.to, e.from) else e;
    HopMeaning(trip.stopTimes, m, forward);
    if trip.direction == DirectionFalse {
      FalseIsFlipped(trip.stopTimes, m);
      InFlipped(StaticEdges(trip.stopTimes, DirectionTrue, m));
    } else {
      OtherDirections(trip.stopTimes, trip.direction, m);
    }
    if j :| Hops(trip.stopTimes, m, j, forward) {
      RidesIsHop(trip, m, j, e);
    }
    if j :| RidesEdge(trip, m, j, e) {
      RidesIsHop(trip, m, j, e);
    }
  }

  /** A trip gives exactly the edges along its stations, in some order and number,
      exactly when any two stations parted by unknown stops only also follow each other
      somewhere without one. */
  lemma EdgeSetFollowsStations(trip: Trip, m: Stations)
    ensures EdgeSetOf(trip, m) == Elements(PathEdges(Travel(trip, m))) <==> Bridged(trip.stopTimes, m)
  {
    var forward, path := StaticEdges(trip.stopTimes, DirectionTrue, m), PathEdges(Mapped(trip.stopTimes, m));
    TravelIsForward(trip, m);
    TravelHasTheEdges(trip, m);
    ForwardEdgeSet(trip.stopTimes, m);
    ReversedElements(Flipped(forward));
    ReversedElements(Flipped(path));
    FlippedElements(forward, path);
  }

  /** Of two trips with the same key, one of which gives the edges along its stations,
      the other gives the same set of edges exactly when it is bridged, too. So the
      edges of a bucket do not depend on the trip that comes last in it, though the
      key turns trips of one direction round and the edges those of the other. */
  lemma SameBucketSameEdgeSet(t: Trip, u: Trip, m: Stations)
    requires t.direction != Unspecified && u.direction != Unspecified
    requires TripKey(t, m) == TripKey(u, m) && Bridged(t.stopTimes, m)
    ensures EdgeSetOf(t, m) == EdgeSetOf(u, m) <==> Bridged(u.stopTimes, m)
  {
    SameKey(t, u, m);
    EdgeSetFollowsStations(t, m);
    EdgeSetFollowsStations(u, m);
  }

  // A stop without a station in the middle of three.
  lemma UnknownStopBreaksThePattern(service: Service) returns (t: Trip, u: Trip, m: Stations)
    ensures t.direction == u.direction == DirectionTrue
    ensures TripKey(t, m) == TripKey(u, m) && EdgeSetOf(t, m) != EdgeSetOf(u, m)
  {
    var a, b, c := StopTime("a", 0), StopTime("b", 1), StopTime("c", 2);
    m := map["a" := 1, "c" := 2];
    t, u := Trip("r", service, DirectionTrue, [a, c]), Trip("r", service, DirectionTrue, [a, b, c]);
    assert [a, b, c][..2] == [a, b] && [a, b][..1] == [a] && [a, c][..1] == [a] && [a][..0] == [];
    assert Mapped([a], m) == [1] && Mapped([a, b], m) == [1];
    assert StaticEdges([a, b], DirectionTrue, m) == [];
    assert StaticEdges([a, c], DirectionTrue, m) == [Edge(1, 2)];
    assert Edge(1, 2) in EdgeSetOf(t, m);
  }
}
