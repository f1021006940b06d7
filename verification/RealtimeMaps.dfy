/** The realtime service map of a route. */
module RealtimeMaps {
  import opened Collections
  import opened Edges
  import opened StopPatterns
  import opened BuildMap

  // A row of the query: a trip, its direction and one of its stops.
  datatype Row = Row(tripPk: int, directionID: bool, stopPk: int)

  // ------------------------------------------------------------------- group by

  // The trip of the last row of the last group; no group is empty.
  function LastTrip(groups: seq<seq<Row>>): int
    requires groups != []
  {
    var group := groups[|groups| - 1];
    if group == [] then 0 else group[|group| - 1].tripPk
  }

  // One more row, in the last group or in one of its own.
  function AddRow(groups: seq<seq<Row>>, row: Row): seq<seq<Row>> {
    if groups != [] && LastTrip(groups) == row.tripPk
    then groups[..|groups| - 1] + [groups[|groups| - 1] + [row]]
    else groups + [[row]]
  }

  // The maximal runs of rows of one trip.
  function Groups(rows: seq<Row>): seq<seq<Row>> {
    if rows == [] then [] else AddRow(Groups(rows[..|rows| - 1]), rows[|rows| - 1])
  }

  function Stops(group: seq<Row>): seq<int> {
    seq(|group|, i requires 0 <= i < |group| => group[i].stopPk)
  }

  // The stops of a group, turned round if the direction of its last row is false.
  function StopList(group: seq<Row>): seq<int> {
    if group != [] && !group[|group| - 1].directionID then Reversed(Stops(group)) else Stops(group)
  }

  function StopLists(groups: seq<seq<Row>>): (lists: seq<seq<int>>)
    ensures |lists| == |groups|
    ensures forall i :: 0 <= i < |lists| ==> lists[i] == StopList(groups[i])
  {
    seq(|groups|, i requires 0 <= i < |groups| => StopList(groups[i]))
  }

  function Flatten<T>(parts: seq<seq<T>>): seq<T> {
    if parts == [] then [] else Flatten(parts[..|parts| - 1]) + parts[|parts| - 1]
  }

  // All rows of the group are of one trip.
  ghost predicate OneTrip(group: seq<Row>) {
    group != [] && forall i, j :: 0 <= i < j < |group| ==> group[i].tripPk == group[j].tripPk
  }

  ghost predicate Differ(group: seq<Row>, next: seq<Row>) {
    group != [] && next != [] && group[|group| - 1].tripPk != next[0].tripPk
  }

  // Every group is of one trip, and neighbouring groups are of different trips.
  ghost predicate Apart(groups: seq<seq<Row>>) {
    && (forall i :: 0 <= i < |groups| ==> OneTrip(groups[i]))
    && (forall i, j :: 0 <= i && j == i + 1 && j < |groups| ==> Differ(groups[i], groups[j]))
  }

  lemma FlattenSnoc<T>(parts: seq<seq<T>>, part: seq<T>)
    ensures Flatten(parts + [part]) == Flatten(parts) + part
  {
    assert (parts + [part])[..|parts|] == parts;
  }

  lemma ApartSnoc(groups: seq<seq<Row>>, last: seq<Row>)
    ensures Apart(groups + [last]) <==>
      Apart(groups) && OneTrip(last) && (groups == [] || LastTrip(groups) != last[0].tripPk)
  {
    var all := groups + [last];
    if Apart(all) {
      assert OneTrip(all[|groups|]);
      forall i | 0 <= i < |groups| ensures OneTrip(groups[i]) {
        assert OneTrip(all[i]);
      }
      forall i, j | 0 <= i && j == i + 1 && j < |groups| ensures Differ(groups[i], groups[j]) {
        assert Differ(all[i], all[j]);
      }
      assert groups != [] ==> Differ(all[|groups| - 1], all[|groups|]);
    }
    if Apart(groups) && OneTrip(last) && groups != [] {
      assert OneTrip(groups[|groups| - 1]);
    }
  }

  lemma OneTripSnoc(group: seq<Row>, row: Row)
    requires OneTrip(group)
    ensures OneTrip(group + [row]) <==> group[|group| - 1].tripPk == row.tripPk
  {
    var all := group + [row];
    if OneTrip(all) {
      assert all[|group| - 1].tripPk == all[|group|].tripPk;
    }
  }

  lemma AddRowIs(front: seq<seq<Row>>, last: seq<Row>, b: Row)
    requires last != []
    ensures AddRow(front + [last], b)
         == if last[|last| - 1].tripPk == b.tripPk then front + [last + [b]] else front + [last] + [[b]]
  {
  }

  lemma JoiningKeepsRows(front: seq<seq<Row>>, last: seq<Row>, row: Row)
    ensures Flatten(front + [last + [row]]) == Flatten(front + [last]) + [row]
  {
    FlattenSnoc(front, last);
    FlattenSnoc(front, last + [row]);
  }

  lemma JoiningKeepsApart(front: seq<seq<Row>>, last: seq<Row>, row: Row)
    requires Apart(front + [last]) && last != [] && last[|last| - 1].tripPk == row.tripPk
    ensures Apart(front + [last + [row]])
  {
    ApartSnoc(front, last);
    OneTripSnoc(last, row);
    ApartSnoc(front, last + [row]);
    assert (last + [row])[0] == last[0];
  }

  lemma OpeningKeepsApart(groups: seq<seq<Row>>, row: Row)
    requires Apart(groups) && (groups == [] || LastTrip(groups) != row.tripPk)
    ensures Flatten(groups + [[row]]) == Flatten(groups) + [row] && Apart(groups + [[row]])
  {
    FlattenSnoc(groups, [row]);
    ApartSnoc(groups, [row]);
  }

  lemma AddRowKeepsApart(groups: seq<seq<Row>>, row: Row)
    requires Apart(groups)
    ensures Flatten(AddRow(groups, row)) == Flatten(groups) + [row] && Apart(AddRow(groups, row))
  {
    if groups == [] {
      OpeningKeepsApart(groups, row);
    } else {
      var front, last := groups[..|groups| - 1], groups[|groups| - 1];
      SplitLast(groups);
      ApartSnoc(front, last);
      AddRowIs(front, last, row);
      if last[|last| - 1].tripPk == row.tripPk {
        JoiningKeepsRows(front, last, row);
        JoiningKeepsApart(front, last, row);
      } else {
        OpeningKeepsApart(groups, row);
      }
    }
  }

  lemma {:induction false} GroupsSplitRows(rows: seq<Row>)
    ensures Flatten(Groups(rows)) == rows && Apart(Groups(rows))
  {
    if rows != [] {
      var groups: seq<seq<Row>> := Groups(rows[..|rows| - 1]);
      GroupsSplitRows(rows[..|rows| - 1]);
      AddRowKeepsApart(groups, rows[|rows| - 1]);
      SplitLast(rows);
    }
  }

  // A split of the rows into runs that are apart is what the grouping computes.
  lemma {:induction false} OnlyGroupsSplit(groups: seq<seq<Row>>)
    requires Apart(groups)
    ensures Groups(Flatten(groups)) == groups
    decreases |Flatten(groups)|
  {
    if groups != [] {
      var before, row := LastRow(groups);
      OnlyGroupsSplit(before);
      var rows := Flatten(groups);
      assert rows[..|rows| - 1] == Flatten(before) && rows[|rows| - 1] == row;
    }
  }

  // The last row was added to the groups before it.
  lemma LastRow(groups: seq<seq<Row>>) returns (before: seq<seq<Row>>, row: Row)
    requires Apart(groups) && groups != []
    ensures Apart(before) && Flatten(groups) == Flatten(before) + [row] && groups == AddRow(before, row)
  {
    var front, last := groups[..|groups| - 1], groups[|groups| - 1];
    SplitLast(groups);
    ApartSnoc(front, last);
    FlattenSnoc(front, last);
    row := last[|last| - 1];
    if |last| == 1 {
      before := front;
      assert last == [row];
    } else {
      before := front + [last[..|last| - 1]];
      UndoAdd(front, last);
    }
  }

  lemma UndoAdd(front: seq<seq<Row>>, last: seq<Row>)
    requires Apart(front) && OneTrip(last) && |last| > 1
    requires front == [] || LastTrip(front) != last[0].tripPk
    ensures var rest, row := last[..|last| - 1], last[|last| - 1];
      && Apart(front + [rest]) && Flatten(front) + last == Flatten(front + [rest]) + [row]
      && AddRow(front + [rest], row) == front + [last]
  {
    var rest, row := last[..|last| - 1], last[|last| - 1];
    SplitLast(last);
    FlattenSnoc(front, rest);
    assert Flatten(front) + last == (Flatten(front) + rest) + [row];
    OneTripFront(rest, row);
    ApartSnoc(front, rest);
    JoinAtEnd(front, rest, row);
  }

  lemma JoinAtEnd(front: seq<seq<Row>>, rest: seq<Row>, row: Row)
    requires rest != [] && rest[|rest| - 1].tripPk == row.tripPk
    ensures AddRow(front + [rest], row) == front + [rest + [row]]
  {
    assert (front + [rest])[..|front|] == front;
  }

  lemma OneTripFront(rest: seq<Row>, row: Row)
    requires rest != [] && OneTrip(rest + [row])
    ensures OneTrip(rest) && rest[|rest| - 1].tripPk == row.tripPk && (rest + [row])[0] == rest[0]
  {
    var all := rest + [row];
    forall i, j | 0 <= i < j < |rest| ensures rest[i].tripPk == rest[j].tripPk {
      assert all[i].tripPk == all[j].tripPk;
    }
    assert all[|rest| - 1].tripPk == all[|rest|].tripPk;
  }

  /** The grouping loses, adds and moves no row: it is the only way to cut the rows
      into runs of one trip each such that neighbouring runs are of different trips. */
  lemma GroupsAreTheRuns(rows: seq<Row>, groups: seq<seq<Row>>)
    ensures groups == Groups(rows) <==> Flatten(groups) == rows && Apart(groups)
  {
    GroupsSplitRows(rows);
    if Flatten(groups) == rows && Apart(groups) {
      OnlyGroupsSplit(groups);
    }
  }

  // ---------------------------------------------------------------- the algorithm

  // What has been appended, and what is being gathered: the last group.
  predicate Gathered(groups: seq<seq<Row>>, result: seq<seq<int>>, tripPk: int, directionID: bool, stopPks: seq<int>) {
    if groups == [] then result == [] && stopPks == [] else
      var last := groups[|groups| - 1];
      && last != []
      && result == StopLists(groups[..|groups| - 1])
      && stopPks == Stops(last)
      && tripPk == last[|last| - 1].tripPk
      && directionID == last[|last| - 1].directionID
  }

  lemma GatherFirst(row: Row)
    ensures Gathered(AddRow([], row), [], row.tripPk, row.directionID, [row.stopPk])
  {
    assert AddRow([], row)[..0] == [] && Stops([row]) == [row.stopPk];
  }

  lemma GatherSame(groups: seq<seq<Row>>, row: Row, result: seq<seq<int>>, directionID: bool, stopPks: seq<int>)
    requires Gathered(groups, result, row.tripPk, directionID, stopPks) && groups != []
    ensures Gathered(AddRow(groups, row), result, row.tripPk, row.directionID, stopPks + [row.stopPk])
  {
    var groups' := AddRow(groups, row);
    assert groups'[..|groups'| - 1] == groups[..|groups| - 1];
    assert Stops(groups[|groups| - 1] + [row]) == stopPks + [row.stopPk];
  }

  lemma GatherNext(groups: seq<seq<Row>>, row: Row, result: seq<seq<int>>, tripPk: int, directionID: bool, stopPks: seq<int>)
    requires Gathered(groups, result, tripPk, directionID, stopPks) && groups != [] && tripPk != row.tripPk
    ensures Gathered(AddRow(groups, row), result + [if directionID then stopPks else Reversed(stopPks)],
                     row.tripPk, row.directionID, [row.stopPk])
  {
    GatherLast(groups, result, tripPk, directionID, stopPks);
    assert AddRow(groups, row)[..|groups|] == groups;
    assert Stops([row]) == [row.stopPk];
  }

  lemma GatherLast(groups: seq<seq<Row>>, result: seq<seq<int>>, tripPk: int, directionID: bool, stopPks: seq<int>)
    requires Gathered(groups, result, tripPk, directionID, stopPks) && groups != []
    ensures stopPks != [] && StopLists(groups) == result + [if directionID then stopPks else Reversed(stopPks)]
  {
    var front, last := groups[..|groups| - 1], groups[|groups| - 1];
    SplitLast(groups);
    ListsSnoc(front, last);
  }

  // updateResult
  method UpdateResult(result: seq<seq<int>>, currentDirectionID: bool, currentStopPks: seq<int>)
    returns (result': seq<seq<int>>, stopPks': seq<int>)
    ensures currentStopPks == [] ==> result' == result
    ensures currentStopPks != [] ==>
      result' == result + [if currentDirectionID then currentStopPks else Reversed(currentStopPks)]
    ensures stopPks' == []
  {
    if |currentStopPks| == 0 {
      return result, [];
    }
    var list := currentStopPks;
    if !currentDirectionID {
      list := ReverseSlice(list);
    }
    return result + [list], [];
  }

  /** One list of stops for every run of rows of one trip, in the order of the rows. */
  method GetTripStopPks(rows: seq<Row>) returns (result: seq<seq<int>>)
    ensures result == StopLists(Groups(rows))
  {
    result := [];
    var currentTripPk, currentDirectionID, currentStopPks := -1, false, [];
    for i := 0 to |rows|
      invariant Gathered(Groups(rows[..i]), result, currentTripPk, currentDirectionID, currentStopPks)
      invariant i > 0 ==> Groups(rows[..i]) != []
    {
      ghost var groups := Groups(rows[..i]);
      var row := rows[i];
      assert rows[..i + 1][..i] == rows[..i];
      if i == 0 {
        GatherFirst(row);
      } else if row.tripPk == currentTripPk {
        GatherSame(groups, row, result, currentDirectionID, currentStopPks);
      } else {
        GatherNext(groups, row, result, currentTripPk, currentDirectionID, currentStopPks);
      }
      if row.tripPk != currentTripPk {
        result, currentStopPks := UpdateResult(result, currentDirectionID, currentStopPks);
      }
      currentTripPk := row.tripPk;
      currentDirectionID := row.directionID;
      currentStopPks := currentStopPks + [row.stopPk];
    }
    assert rows[..|rows|] == rows;
    if rows != [] {
      GatherLast(Groups(rows), result, currentTripPk, currentDirectionID, currentStopPks);
    }
    result, currentStopPks := UpdateResult(result, currentDirectionID, currentStopPks);
  }

  // The rows of every trip are next to each other.
  ghost predicate TripsContiguous(rows: seq<Row>) {
    forall i, j, k :: 0 <= i < j < k < |rows| && rows[i].tripPk == rows[k].tripPk ==> rows[j].tripPk == rows[i].tripPk
  }

  // All rows of a trip, in order.
  function RowsOf(rows: seq<Row>, tripPk: int): seq<Row> {
    if rows == [] then [] else
      RowsOf(rows[..|rows| - 1], tripPk) + if rows[|rows| - 1].tripPk == tripPk then [rows[|rows| - 1]] else []
  }

  ghost predicate DistinctTrips(groups: seq<seq<Row>>) {
    forall g, h :: 0 <= g < h < |groups| ==> groups[g] != [] && groups[h] != [] && groups[g][0].tripPk != groups[h][0].tripPk
  }

  lemma {:induction false} FlattenPrefix(groups: seq<seq<Row>>, g: nat, h: nat)
    requires g <= h <= |groups|
    ensures Flatten(groups[..g]) <= Flatten(groups[..h])
  {
    if g < h {
      FlattenPrefix(groups, g, h - 1);
      assert groups[..h] == groups[..h - 1] + [groups[h - 1]];
      FlattenSnoc(groups[..h - 1], groups[h - 1]);
    }
  }

  // Where a group starts.
  lemma GroupStart(groups: seq<seq<Row>>, g: nat) returns (i: nat)
    requires g < |groups| && groups[g] != []
    ensures i == |Flatten(groups[..g])| < |Flatten(groups[..g + 1])| <= |Flatten(groups)|
    ensures Flatten(groups)[i] == groups[g][0]
  {
    i := |Flatten(groups[..g])|;
    assert groups[..g + 1] == groups[..g] + [groups[g]];
    FlattenSnoc(groups[..g], groups[g]);
    FlattenPrefix(groups, g + 1, |groups|);
    assert groups[..|groups|] == groups;
    assert Flatten(groups[..g + 1])[i] == groups[g][0];
  }

  lemma Between(rows: seq<Row>, i: nat, j: nat, k: nat)
    requires TripsContiguous(rows) && i < j < k < |rows|
    ensures rows[j].tripPk == rows[i].tripPk || rows[k].tripPk != rows[i].tripPk
  {
  }

  lemma ContiguousIsDistinct(groups: seq<seq<Row>>, g: nat, h: nat)
    requires Apart(groups) && TripsContiguous(Flatten(groups)) && g < h < |groups|
    ensures groups[g] != [] && groups[h] != [] && groups[g][0].tripPk != groups[h][0].tripPk
  {
    assert OneTrip(groups[g]) && OneTrip(groups[h]) && OneTrip(groups[g + 1]);
    assert Differ(groups[g], groups[g + 1]);
    if g + 1 < h {
      var rows := Flatten(groups);
      var i := GroupStart(groups, g);
      var j := GroupStart(groups, g + 1);
      var k := GroupStart(groups, h);
      FlattenPrefix(groups, g + 2, h);
      Between(rows, i, j, k);
    }
  }

  lemma {:induction false} RowsOfConcat(a: seq<Row>, b: seq<Row>, tripPk: int)
    ensures RowsOf(a + b, tripPk) == RowsOf(a, tripPk) + RowsOf(b, tripPk)
  {
    if b == [] {
      assert a + b == a;
    } else {
      RowsOfConcat(a, b[..|b| - 1], tripPk);
      assert (a + b)[..|a + b| - 1] == a + b[..|b| - 1];
    }
  }

  lemma {:induction false} RowsOfOneTrip(group: seq<Row>, tripPk: int)
    requires OneTrip(group)
    ensures RowsOf(group, tripPk) == if group[0].tripPk == tripPk then group else []
  {
    var n := |group| - 1;
    var rest, row := group[..n], group[n];
    assert group == rest + [row];
    if rest != [] {
      OneTripFront(rest, row);
      RowsOfOneTrip(rest, tripPk);
    }
  }

  // Groups of other trips hold no row of the trip.
  lemma {:induction false} RowsOfOthers(groups: seq<seq<Row>>, tripPk: int)
    requires forall g :: 0 <= g < |groups| ==> OneTrip(groups[g]) && groups[g][0].tripPk != tripPk
    ensures RowsOf(Flatten(groups), tripPk) == []
  {
    if groups != [] {
      var front, last := groups[..|groups| - 1], groups[|groups| - 1];
      RowsOfOthers(front, tripPk);
      RowsOfConcat(Flatten(front), last, tripPk);
      RowsOfOneTrip(last, tripPk);
    }
  }

  lemma {:induction false} FlattenConcat<T>(a: seq<seq<T>>, b: seq<seq<T>>)
    ensures Flatten(a + b) == Flatten(a) + Flatten(b)
  {
    if b == [] {
      assert a + b == a;
    } else {
      var front, last := b[..|b| - 1], b[|b| - 1];
      FlattenConcat(a, front);
      SplitLast(b);
      assert a + b == (a + front) + [last];
      FlattenSnoc(a + front, last);
    }
  }

  lemma Around<T>(s: seq<T>, k: nat)
    requires k < |s|
    ensures s == (s[..k] + [s[k]]) + s[k + 1..]
  {
  }

  // In groups of different trips the rows of a trip are those of its group.
  lemma {:induction false} RowsOfGroup(groups: seq<seq<Row>>, g: nat)
    requires (forall h :: 0 <= h < |groups| ==> OneTrip(groups[h])) && DistinctTrips(groups) && g < |groups|
    ensures groups[g] != [] && RowsOf(Flatten(groups), groups[g][0].tripPk) == groups[g]
  {
    var a, x, b := groups[..g], groups[g], groups[g + 1..];
    assert OneTrip(x);
    var t := x[0].tripPk;
    forall h | 0 <= h < |a| ensures OneTrip(a[h]) && a[h][0].tripPk != t {
      assert a[h] == groups[h];
    }
    forall h | 0 <= h < |b| ensures OneTrip(b[h]) && b[h][0].tripPk != t {
      assert b[h] == groups[g + 1 + h];
    }
    RowsOfOthers(a, t);
    RowsOfOthers(b, t);
    RowsOfThree(a, x, b, t);
    Around(groups, g);
  }

  lemma RowsOfThree(a: seq<seq<Row>>, x: seq<Row>, b: seq<seq<Row>>, t: int)
    requires OneTrip(x) && x[0].tripPk == t && RowsOf(Flatten(a), t) == [] && RowsOf(Flatten(b), t) == []
    ensures RowsOf(Flatten((a + [x]) + b), t) == x
  {
    FlattenConcat(a + [x], b);
    FlattenSnoc(a, x);
    RowsOfConcat(Flatten(a) + x, Flatten(b), t);
    RowsOfConcat(Flatten(a), x, t);
    RowsOfOneTrip(x, t);
  }

  /** When the rows of every trip are next to each other, no two groups are of one
      trip, and every group holds all rows of its trip in their order. */
  lemma ContiguousTripsAreGroups(rows: seq<Row>)
    requires TripsContiguous(rows)
    ensures DistinctTrips(Groups(rows))
    ensures forall g :: 0 <= g < |Groups(rows)| ==>
      Groups(rows)[g] != [] && Groups(rows)[g] == RowsOf(rows, Groups(rows)[g][0].tripPk)
  {
    var groups: seq<seq<Row>> := Groups(rows);
    GroupsSplitRows(rows);
    forall g, h | 0 <= g < h < |groups|
      ensures groups[g] != [] && groups[h] != [] && groups[g][0].tripPk != groups[h][0].tripPk
    {
      ContiguousIsDistinct(groups, g, h);
    }
    forall g | 0 <= g < |groups| ensures groups[g] != [] && groups[g] == RowsOf(rows, groups[g][0].tripPk) {
      RowsOfGroup(groups, g);
    }
  }

  // ------------------------------------------------------------------ the edges

  // The station of a stop; a stop without one counts as station 0.
  function Station(stations: map<int, int>, stopPk: int): int {
    if stopPk in stations then stations[stopPk] else 0
  }

  function StationsOf(stopPks: seq<int>, stations: map<int, int>): seq<int> {
    seq(|stopPks|, i requires 0 <= i < |stopPks| => Station(stations, stopPks[i]))
  }

  ghost function RealtimeEdges(lists: seq<seq<int>>, stations: map<int, int>): set<Edge> {
    set i, e | 0 <= i < |lists| && e in PathEdges(StationsOf(lists[i], stations)) :: e
  }

  lemma PrefixSnoc<T>(s: seq<T>, k: nat)
    requires k < |s|
    ensures s[..k + 1] == s[..k] + [s[k]]
  {
  }

  // The edges of one list of stops.
  method AddListEdges(stopPks: seq<int>, stopPkToStationPk: map<int, int>, m: set<Edge>) returns (m': set<Edge>)
    ensures m' == m + Elements(PathEdges(StationsOf(stopPks, stopPkToStationPk)))
  {
    ghost var path := PathEdges(StationsOf(stopPks, stopPkToStationPk));
    m' := m;
    var i := 1;
    while i < |stopPks|
      invariant 1 <= i && i <= |path| + 1
      invariant m' == m + Elements(path[..i - 1])
    {
      var edge := Edge(Station(stopPkToStationPk, stopPks[i - 1]), Station(stopPkToStationPk, stopPks[i]));
      PrefixSnoc(path, i - 1);
      ElementsSnoc(path[..i - 1], edge);
      m' := m' + {edge};
      i := i + 1;
    }
    assert path[..i - 1] == path;
  }

  method BuildRealtimeMapEdges(tripStopPks: seq<seq<int>>, stopPkToStationPk: map<int, int>) returns (m: set<Edge>)
    ensures m == RealtimeEdges(tripStopPks, stopPkToStationPk)
  {
    m := {};
    for t := 0 to |tripStopPks|
      invariant m == RealtimeEdges(tripStopPks[..t], stopPkToStationPk)
    {
      PrefixSnoc(tripStopPks, t);
      OneMoreList(tripStopPks[..t], tripStopPks[t], stopPkToStationPk);
      m := AddListEdges(tripStopPks[t], stopPkToStationPk, m);
    }
    assert tripStopPks[..|tripStopPks|] == tripStopPks;
  }

  ghost predicate OnList(lists: seq<seq<int>>, stations: map<int, int>, e: Edge) {
    exists i :: 0 <= i < |lists| && e in PathEdges(StationsOf(lists[i], stations))
  }

  lemma OneMoreList(lists: seq<seq<int>>, list: seq<int>, stations: map<int, int>)
    ensures RealtimeEdges(lists + [list], stations)
         == RealtimeEdges(lists, stations) + Elements(PathEdges(StationsOf(list, stations)))
  {
    var all := lists + [list];
    forall e ensures OnList(all, stations, e) <==> OnList(lists, stations, e) || e in PathEdges(StationsOf(list, stations)) {
      assert all[|lists|] == list;
      if i :| 0 <= i < |lists| && e in PathEdges(StationsOf(lists[i], stations)) {
        assert all[i] == lists[i];
      }
    }
    assert forall e :: e in RealtimeEdges(all, stations) <==> OnList(all, stations, e);
    assert forall e :: e in RealtimeEdges(lists, stations) <==> OnList(lists, stations, e);
  }

  // A stop of the trip, as the static timetable and as the query give it.
  predicate SameStop(trip: Trip, stop: StopTime, m: Stations, row: Row, stations: map<int, int>) {
    && stop.stopID in m
    && row.stopPk in stations
    && stations[row.stopPk] == m[stop.stopID]
    && row.directionID == (trip.direction == DirectionTrue)
  }

  /** The two kinds of maps agree: for a trip whose stops all have a station, the
      static edges of its direction are the edges that the realtime rows of the trip
      give. */
  lemma {:induction false} StaticRealtimeAgree(trip: Trip, m: Stations, rows: seq<Row>, stations: map<int, int>)
    requires trip.direction != Unspecified && |rows| == |trip.stopTimes| && OneTrip(rows)
    requires forall i :: 0 <= i < |rows| ==> SameStop(trip, trip.stopTimes[i], m, rows[i], stations)
    ensures RealtimeEdges(StopLists(Groups(rows)), stations) == EdgeSetOf(trip, m)
  {
    OneGroup(rows);
    StationsAlong(trip, m, rows, stations);
    NoListNoEdges(stations);
    OneMoreList([], StopList(rows), stations);
    assert StopLists([rows]) == [] + [StopList(rows)];
    EdgesFollowStations(trip, m);
    TravelHasTheEdges(trip, m);
  }

  lemma {:induction false} OneGroup(rows: seq<Row>)
    requires OneTrip(rows)
    ensures Groups(rows) == [rows]
  {
    ApartSnoc([], rows);
    FlattenSnoc([], rows);
    assert [] + [rows] == [rows];
    GroupsAreTheRuns(rows, [rows]);
  }

  lemma NoListNoEdges(stations: map<int, int>)
    ensures RealtimeEdges([], stations) == {}
  {
  }

  lemma {:induction false} StationsAlong(trip: Trip, m: Stations, rows: seq<Row>, stations: map<int, int>)
    requires trip.direction != Unspecified && |rows| == |trip.stopTimes| > 0
    requires forall i :: 0 <= i < |rows| ==> SameStop(trip, trip.stopTimes[i], m, rows[i], stations)
    ensures StationsOf(StopList(rows), stations) == Travel(trip, m) && Contiguous(trip.stopTimes, m)
  {
    var pks := Mapped(trip.stopTimes, m);
    assert forall i :: 0 <= i < |rows| ==>
      trip.stopTimes[i].stopID in m && stations[rows[i].stopPk] == m[trip.stopTimes[i].stopID];
    MappedAll(trip.stopTimes, m);
    assert SameStop(trip, trip.stopTimes[|rows| - 1], m, rows[|rows| - 1], stations);
    assert StationsOf(Stops(rows), stations) == pks;
    ReversedStations(Stops(rows), stations);
  }

  lemma ReversedStations(stopPks: seq<int>, stations: map<int, int>)
    ensures StationsOf(Reversed(stopPks), stations) == Reversed(StationsOf(stopPks, stations))
  {
  }

  lemma {:induction false} MappedAll(stopTimes: seq<StopTime>, m: Stations)
    requires forall i :: 0 <= i < |stopTimes| ==> stopTimes[i].stopID in m
    ensures |Mapped(stopTimes, m)| == |stopTimes|
    ensures forall i :: 0 <= i < |stopTimes| ==> Mapped(stopTimes, m)[i] == m[stopTimes[i].stopID]
  {
    if stopTimes != [] {
      var front := stopTimes[..|stopTimes| - 1];
      assert forall i :: 0 <= i < |front| ==> front[i] == stopTimes[i];
      MappedAll(front, m);
    }
  }

  // ----------------------------------------------------------- row by row

  // The rows of a trip that follow each other agree on its direction.
  ghost predicate DirectionsAgree(rows: seq<Row>) {
    forall i, j :: 0 <= i && j == i + 1 && j < |rows| && rows[i].tripPk == rows[j].tripPk ==>
      rows[i].directionID == rows[j].directionID
  }

  // The edge between two rows of one trip, back along the rows if its direction is false.
  // A stop without a station counts as station 0.
  ghost predicate RowEdge(a: Row, b: Row, stations: map<int, int>, e: Edge) {
    && a.tripPk == b.tripPk
    && var x := if a.stopPk in stations then stations[a.stopPk] else 0;
       var y := if b.stopPk in stations then stations[b.stopPk] else 0;
       e == if b.directionID then Edge(x, y) else Edge(y, x)
  }

  ghost predicate RowsGive(rows: seq<Row>, stations: map<int, int>, i: int, e: Edge) {
    0 <= i < |rows| - 1 && RowEdge(rows[i], rows[i + 1], stations, e)
  }

  ghost predicate SomeRowsGive(rows: seq<Row>, stations: map<int, int>, e: Edge) {
    exists i :: RowsGive(rows, stations, i, e)
  }

  lemma GivenInFront(rows: seq<Row>, stations: map<int, int>, e: Edge)
    requires |rows| >= 2
    ensures var n := |rows|;
      SomeRowsGive(rows, stations, e) <==>
        (SomeRowsGive(rows[..n - 1], stations, e) || RowEdge(rows[n - 2], rows[n - 1], stations, e))
  {
    var n := |rows|;
    var front := rows[..n - 1];
    if i :| RowsGive(rows, stations, i, e) {
      if i < n - 2 {
        assert front[i] == rows[i] && front[i + 1] == rows[i + 1];
        assert RowsGive(front, stations, i, e);
      }
    }
    if i :| RowsGive(front, stations, i, e) {
      assert front[i] == rows[i] && front[i + 1] == rows[i + 1];
      assert RowsGive(rows, stations, i, e);
    }
    if RowEdge(rows[n - 2], rows[n - 1], stations, e) {
      assert RowsGive(rows, stations, n - 2, e);
    }
  }

  // All rows of the group say that direction.
  ghost predicate OneDirection(group: seq<Row>, directionID: bool) {
    forall i :: 0 <= i < |group| ==> group[i].directionID == directionID
  }

  lemma ListOfOne(row: Row, stations: map<int, int>)
    ensures PathEdges(StationsOf(StopList([row]), stations)) == []
  {
  }

  lemma ListForward(group: seq<Row>, row: Row, stations: map<int, int>)
    requires group != []
    ensures var pks := StationsOf(Stops(group), stations);
      PathEdges(StationsOf(Stops(group + [row]), stations)) ==
        PathEdges(pks) + [Edge(Station(stations, group[|group| - 1].stopPk), Station(stations, row.stopPk))]
  {
    var pks, y := StationsOf(Stops(group), stations), Station(stations, row.stopPk);
    assert StationsOf(Stops(group + [row]), stations) == pks + [y];
    PathSnoc(pks, y);
  }

  lemma ListTurned(group: seq<Row>, stations: map<int, int>)
    requires group != [] && !group[|group| - 1].directionID
    ensures PathEdges(StationsOf(StopList(group), stations)) == Reversed(Flipped(PathEdges(StationsOf(Stops(group), stations))))
  {
    ReversedStations(Stops(group), stations);
    PathOfReversed(StationsOf(Stops(group), stations));
  }

  lemma TurnedSnoc(path: seq<Edge>, last: Edge)
    ensures forall e: Edge :: e in Reversed(Flipped(path + [last])) <==>
      (e in Reversed(Flipped(path)) || last == Edge(e.to, e.from))
  {
    TurnedElements(path);
    TurnedElements(path + [last]);
  }

  // One more row of the same trip adds the edge to it, or from it.
  lemma ListSnoc(group: seq<Row>, row: Row, stations: map<int, int>)
    requires group != [] && OneDirection(group, row.directionID)
    requires group[|group| - 1].tripPk == row.tripPk
    ensures forall e :: e in PathEdges(StationsOf(StopList(group + [row]), stations)) <==>
      (e in PathEdges(StationsOf(StopList(group), stations)) || RowEdge(group[|group| - 1], row, stations, e))
  {
    ListForward(group, row, stations);
    if !row.directionID {
      ListTurned(group, stations);
      ListTurned(group + [row], stations);
      TurnedSnoc(PathEdges(StationsOf(Stops(group), stations)),
                 Edge(Station(stations, group[|group| - 1].stopPk), Station(stations, row.stopPk)));
    }
  }

  lemma TurnedElements(path: seq<Edge>)
    ensures forall e: Edge :: e in Reversed(Flipped(path)) <==> Edge(e.to, e.from) in path
  {
    ReversedElements(Flipped(path));
    InFlipped(path);
    forall e: Edge ensures e in Reversed(Flipped(path)) <==> e in Flipped(path) {
      assert e in Elements(Reversed(Flipped(path))) <==> e in Elements(Flipped(path));
    }
  }

  // The last group's rows are the last rows, of one trip and direction.
  ghost predicate LastGroup(rows: seq<Row>, groups: seq<seq<Row>>) {
    && groups != [] && groups[|groups| - 1] != [] && rows != []
    && var group := groups[|groups| - 1];
       group[|group| - 1] == rows[|rows| - 1] && OneDirection(group, rows[|rows| - 1].directionID)
  }

  lemma {:induction false} EdgesRowByRow(rows: seq<Row>, stations: map<int, int>)
    requires DirectionsAgree(rows)
    ensures rows != [] ==> LastGroup(rows, Groups(rows))
    ensures forall e :: e in RealtimeEdges(StopLists(Groups(rows)), stations) <==> SomeRowsGive(rows, stations, e)
  {
    var n := |rows|;
    if n == 0 {
      NoListNoEdges(stations);
    } else {
      EdgesRowByRow(rows[..n - 1], stations);
      if n == 1 {
        assert rows == [rows[0]];
        FirstRow(rows[0], stations);
      } else {
        var groups: seq<seq<Row>> := Groups(rows[..n - 1]);
        SplitLast(groups);
        NextRow(rows, groups[..|groups| - 1], groups[|groups| - 1], stations);
      }
    }
  }

  lemma GroupsOfOne(row: Row)
    ensures Groups([row]) == [] + [[row]]
  {
    assert [row][..0] == [];
  }

  lemma FirstRow(row: Row, stations: map<int, int>)
    ensures LastGroup([row], Groups([row]))
    ensures forall e :: e in RealtimeEdges(StopLists(Groups([row])), stations) <==> SomeRowsGive([row], stations, e)
  {
    GroupsOfOne(row);
    forall e ensures e !in RealtimeEdges(StopLists([] + [[row]]), stations) {
      OpensGroup([], row, stations, e);
      NoListNoEdges(stations);
    }
  }

  lemma NextRow(rows: seq<Row>, front: seq<seq<Row>>, last: seq<Row>, stations: map<int, int>)
    requires |rows| >= 2 && DirectionsAgree(rows)
    requires LastGroup(rows[..|rows| - 1], front + [last])
    requires forall e :: e in RealtimeEdges(StopLists(front + [last]), stations) <==>
      SomeRowsGive(rows[..|rows| - 1], stations, e)
    ensures LastGroup(rows, AddRow(front + [last], rows[|rows| - 1]))
    ensures forall e :: e in RealtimeEdges(StopLists(AddRow(front + [last], rows[|rows| - 1])), stations) <==>
      SomeRowsGive(rows, stations, e)
  {
    var n := |rows|;
    var a, b := rows[n - 2], rows[n - 1];
    assert rows[..n - 1][n - 2] == a && last[|last| - 1] == a;
    AddRowLast(front, last, b);
    forall e ensures e in RealtimeEdges(StopLists(AddRow(front + [last], b)), stations) <==> SomeRowsGive(rows, stations, e) {
      AddToLast(front, last, b, stations, e);
      GivenInFront(rows, stations, e);
    }
  }

  lemma ListsSnoc(groups: seq<seq<Row>>, group: seq<Row>)
    ensures StopLists(groups + [group]) == StopLists(groups) + [StopList(group)]
  {
  }

  lemma InLastList(lists: seq<seq<int>>, list: seq<int>, stations: map<int, int>, e: Edge)
    ensures e in RealtimeEdges(lists + [list], stations) <==>
      (e in RealtimeEdges(lists, stations) || e in PathEdges(StationsOf(list, stations)))
  {
    OneMoreList(lists, list, stations);
    assert e in Elements(PathEdges(StationsOf(list, stations))) <==> e in PathEdges(StationsOf(list, stations));
  }

  // A row of the same trip joins the last group.
  lemma JoinsGroup(front: seq<seq<Row>>, last: seq<Row>, b: Row, stations: map<int, int>, e: Edge)
    requires last != [] && OneDirection(last, b.directionID) && last[|last| - 1].tripPk == b.tripPk
    ensures e in RealtimeEdges(StopLists(front + [last + [b]]), stations) <==>
      (e in RealtimeEdges(StopLists(front + [last]), stations) || RowEdge(last[|last| - 1], b, stations, e))
  {
    ListsSnoc(front, last);
    ListsSnoc(front, last + [b]);
    InLastList(StopLists(front), StopList(last), stations, e);
    InLastList(StopLists(front), StopList(last + [b]), stations, e);
    ListSnoc(last, b, stations);
  }

  // A row of another trip opens a group.
  lemma OpensGroup(groups: seq<seq<Row>>, b: Row, stations: map<int, int>, e: Edge)
    ensures e in RealtimeEdges(StopLists(groups + [[b]]), stations) <==> e in RealtimeEdges(StopLists(groups), stations)
  {
    ListsSnoc(groups, [b]);
    InLastList(StopLists(groups), StopList([b]), stations, e);
    ListOfOne(b, stations);
  }

  // What one more row adds to the edges.
  lemma AddToLast(front: seq<seq<Row>>, last: seq<Row>, b: Row, stations: map<int, int>, e: Edge)
    requires last != [] && (last[|last| - 1].tripPk == b.tripPk ==> OneDirection(last, b.directionID))
    ensures e in RealtimeEdges(StopLists(AddRow(front + [last], b)), stations) <==>
      (e in RealtimeEdges(StopLists(front + [last]), stations) || RowEdge(last[|last| - 1], b, stations, e))
  {
    AddRowIs(front, last, b);
    if last[|last| - 1].tripPk == b.tripPk {
      JoinsGroup(front, last, b, stations, e);
    } else {
      OpensGroup(front + [last], b, stations, e);
    }
  }

  lemma AddRowLast(front: seq<seq<Row>>, last: seq<Row>, b: Row)
    requires last != [] && (last[|last| - 1].tripPk == b.tripPk ==> OneDirection(last, b.directionID))
    ensures LastGroup([b], AddRow(front + [last], b))
  {
    AddRowIs(front, last, b);
  }

  /** The realtime edges, row by row: one for every two neighbouring rows of one trip, in
      the order of travel. */
  lemma RealtimeEdgeMeaning(rows: seq<Row>, stations: map<int, int>, e: Edge)
    requires DirectionsAgree(rows)
    ensures e in RealtimeEdges(StopLists(Groups(rows)), stations) <==> exists i :: RowsGive(rows, stations, i, e)
  {
    EdgesRowByRow(rows, stations);
    assert e in RealtimeEdges(StopLists(Groups(rows)), stations) <==> SomeRowsGive(rows, stations, e);
  }

  /** A route's realtime map, from the rows of the query and the stations of their
      stops: a topological order of the stations, or none if the trips go in circles. */
  method RealtimeMap(rows: seq<Row>, stopPkToStationPk: map<int, int>) returns (stationPks: seq<int>, ok: bool)
    ensures ok <==> !HasCycle(RealtimeEdges(StopLists(Groups(rows)), stopPkToStationPk))
    ensures ok ==>
      var E := RealtimeEdges(StopLists(Groups(rows)), stopPkToStationPk);
      IsTopologicalOrder(EndpointSet(E), E, stationPks)
  {
    var tripStopPks := GetTripStopPks(rows);
    var edges := BuildRealtimeMapEdges(tripStopPks, stopPkToStationPk);
    stationPks, ok := BuildMap.BuildMap(edges);
  }
}
