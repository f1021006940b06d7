/** The static service maps of a system. */
module StaticMaps {
  import opened Decimal
  import opened Edges
  import opened StopPatterns
  import opened BuildMap

  datatype StaticOptions = StaticOptions(
    startsEarlierThan: Option<real>,
    startsLaterThan: Option<real>,
    endsEarlierThan: Option<real>,
    endsLaterThan: Option<real>,
    days: seq<string>)

  datatype Config = Config(threshold: real, staticOptions: Option<StaticOptions>)

  const NO_OPTIONS: StaticOptions := StaticOptions(None, None, None, None, [])

  function Options(smc: Config): StaticOptions {
    if smc.staticOptions.None? then NO_OPTIONS else smc.staticOptions.value
  }

  // ------------------------------------------------------------- included services

  function Week(service: Service): seq<(string, bool)> {
    [("monday", service.monday), ("tuesday", service.tuesday), ("wednesday", service.wednesday),
     ("thursday", service.thursday), ("friday", service.friday), ("saturday", service.saturday),
     ("sunday", service.sunday)]
  }

  // The service runs on an allowed day; with no days given all are allowed.
  ghost predicate Allowed(service: Service, days: set<string>) {
    days == {} || exists i :: 0 <= i < 7 && Week(service)[i].1 && Week(service)[i].0 in days
  }

  // The first trip of its service.
  ghost predicate First(trips: seq<Trip>, k: int) {
    0 <= k < |trips| && forall j :: 0 <= j < k ==> trips[j].service.id != trips[k].service.id
  }

  ghost function ServicesOf(trips: seq<Trip>): set<string> {
    set k | 0 <= k < |trips| :: trips[k].service.id
  }

  // A service is included if the first trip that has it says that it runs on an
  // allowed day.
  ghost function IncludedServices(trips: seq<Trip>, days: set<string>): set<string> {
    set k | 0 <= k < |trips| && First(trips, k) && Allowed(trips[k].service, days) :: trips[k].service.id
  }

  ghost function AllowedDays(smc: Config, lower: string -> string): set<string> {
    set i | 0 <= i < |Options(smc).days| :: lower(Options(smc).days[i])
  }

  method RunsOnAllowedDay(service: Service, days: set<string>) returns (runs: bool)
    requires days != {}
    ensures runs <==> Allowed(service, days)
  {
    runs := false;
    var week := Week(service);
    for i := 0 to 7
      invariant !runs
      invariant forall k :: 0 <= k < i ==> !(week[k].1 && week[k].0 in days)
    {
      if week[i].1 && week[i].0 in days {
        runs := true;
        return;
      }
    }
  }

  method BuildIncludedServiceIDs(smc: Config, trips: seq<Trip>, lower: string -> string) returns (included: set<string>)
    ensures included == IncludedServices(trips, AllowedDays(smc, lower))
  {
    var allowedDays := {};
    var days := Options(smc).days;
    for i := 0 to |days|
      invariant allowedDays == set k | 0 <= k < i :: lower(days[k])
    {
      allowedDays := allowedDays + {lower(days[i])};
    }
    var excluded: set<string> := {};
    included := {};
    for i := 0 to |trips|
      invariant included == IncludedServices(trips[..i], allowedDays)
      invariant included + excluded == ServicesOf(trips[..i])
    {
      OneMoreService(trips, i, allowedDays);
      var service := trips[i].service;
      if service.id in excluded || service.id in included {
        continue;
      }
      if allowedDays == {} {
        included := included + {service.id};
        continue;
      }
      var runs := RunsOnAllowedDay(service, allowedDays);
      if runs {
        included := included + {service.id};
      } else {
        excluded := excluded + {service.id};
      }
    }
    assert trips[..|trips|] == trips;
  }

  lemma FirstOfPrefix(trips: seq<Trip>, n: nat, k: nat)
    requires k < n <= |trips|
    ensures First(trips[..n], k) <==> First(trips, k)
  {
  }

  lemma ServicesOfPrefix(trips: seq<Trip>, i: nat)
    requires i < |trips|
    ensures ServicesOf(trips[..i + 1]) == ServicesOf(trips[..i]) + {trips[i].service.id}
    ensures First(trips, i) <==> trips[i].service.id !in ServicesOf(trips[..i])
  {
    var s, t := trips[..i], trips[..i + 1];
    assert t == s + [trips[i]];
    forall k | 0 <= k < i ensures s[k].service.id in ServicesOf(s) && s[k].service.id in ServicesOf(t) {
      assert t[k].service.id in ServicesOf(t);
    }
    assert t[i].service.id in ServicesOf(t);
  }

  lemma FirstServiceIsIncluded(trips: seq<Trip>, days: set<string>, k: nat)
    requires First(trips, k) && Allowed(trips[k].service, days)
    ensures trips[k].service.id in IncludedServices(trips, days)
  {
  }

  lemma IncludedHasFirst(trips: seq<Trip>, days: set<string>, id: string) returns (k: nat)
    requires id in IncludedServices(trips, days)
    ensures First(trips, k) && Allowed(trips[k].service, days) && trips[k].service.id == id
  {
    k :| 0 <= k < |trips| && First(trips, k) && Allowed(trips[k].service, days) && trips[k].service.id == id;
  }

  // What a longer list of trips includes because of its first n trips.
  lemma IncludedByPrefix(trips: seq<Trip>, n: nat, days: set<string>, k: nat)
    requires n <= |trips| && k < n && Allowed(trips[k].service, days)
    requires First(trips, k) || First(trips[..n], k)
    ensures trips[k].service.id in IncludedServices(trips[..n], days)
    ensures First(trips, k) && First(trips[..n], k)
  {
    FirstOfPrefix(trips, n, k);
    FirstServiceIsIncluded(trips[..n], days, k);
  }

  lemma StaysIncluded(trips: seq<Trip>, i: nat, days: set<string>, id: string)
    requires i < |trips| && id in IncludedServices(trips[..i], days)
    ensures id in IncludedServices(trips[..i + 1], days)
  {
    var k := IncludedHasFirst(trips[..i], days, id);
    IncludedByPrefix(trips, i, days, k);
    IncludedByPrefix(trips, i + 1, days, k);
  }

  lemma WasIncluded(trips: seq<Trip>, i: nat, days: set<string>, id: string)
    requires i < |trips| && id in IncludedServices(trips[..i + 1], days)
    ensures id in IncludedServices(trips[..i], days)
      || (id == trips[i].service.id && First(trips, i) && Allowed(trips[i].service, days))
  {
    var k := IncludedHasFirst(trips[..i + 1], days, id);
    IncludedByPrefix(trips, i + 1, days, k);
    if k < i {
      IncludedByPrefix(trips, i, days, k);
    }
  }

  lemma OneMoreService(trips: seq<Trip>, i: nat, days: set<string>)
    requires i < |trips|
    ensures var id, before := trips[i].service.id, IncludedServices(trips[..i], days);
      IncludedServices(trips[..i + 1], days) ==
        if id !in ServicesOf(trips[..i]) && Allowed(trips[i].service, days) then before + {id} else before
    ensures ServicesOf(trips[..i + 1]) == ServicesOf(trips[..i]) + {trips[i].service.id}
  {
    ServicesOfPrefix(trips, i);
    forall x | x in IncludedServices(trips[..i + 1], days)
      ensures x in IncludedServices(trips[..i], days)
        || (x == trips[i].service.id && First(trips, i) && Allowed(trips[i].service, days))
    {
      WasIncluded(trips, i, days, x);
    }
    forall x | x in IncludedServices(trips[..i], days) ensures x in IncludedServices(trips[..i + 1], days) {
      StaysIncluded(trips, i, days, x);
    }
    if First(trips, i) && Allowed(trips[i].service, days) {
      IncludedByPrefix(trips, i + 1, days, i);
    }
  }

  /** When trips that share a service ID agree on the service, a trip's service is
      included exactly when it runs on an allowed day itself. */
  lemma {:induction false} OwnServiceDecides(trips: seq<Trip>, days: set<string>, k: nat)
    requires k < |trips|
    requires forall i, j :: 0 <= i < j < |trips| && trips[i].service.id == trips[j].service.id ==>
               trips[i].service == trips[j].service
    ensures trips[k].service.id in IncludedServices(trips, days) <==> Allowed(trips[k].service, days)
  {
    var f := FirstOf(trips, k);
    assert f < k ==> trips[f].service == trips[k].service;
    if trips[k].service.id in IncludedServices(trips, days) {
      var g :| 0 <= g < |trips| && First(trips, g) && Allowed(trips[g].service, days)
            && trips[g].service.id == trips[k].service.id;
    }
  }

  lemma {:induction false} FirstOf(trips: seq<Trip>, k: nat) returns (f: nat)
    requires k < |trips|
    ensures f <= k && First(trips, f) && trips[f].service.id == trips[k].service.id
  {
    if j :| 0 <= j < k && trips[j].service.id == trips[k].service.id {
      f := FirstOf(trips, j);
    } else {
      f := k;
    }
  }

  // --------------------------------------------------------------- included trips

  const NANOSECONDS_IN_AN_HOUR: int := 3_600_000_000_000

  // That many hours as a duration, which counts nanoseconds and drops the rest.
  function Hours(x: real): int {
    Truncate(x * NANOSECONDS_IN_AN_HOUR as real)
  }

  // The trip starts and ends within the given hours.
  predicate OnTime(options: StaticOptions, trip: Trip)
    requires trip.stopTimes != []
  {
    var startTime := trip.stopTimes[0].arrivalTime;
    var endTime := trip.stopTimes[|trip.stopTimes| - 1].arrivalTime;
    && !(options.startsEarlierThan.Some? && Hours(options.startsEarlierThan.value) < startTime)
    && !(options.startsLaterThan.Some? && Hours(options.startsLaterThan.value) > startTime)
    && !(options.endsEarlierThan.Some? && Hours(options.endsEarlierThan.value) < endTime)
    && !(options.endsLaterThan.Some? && Hours(options.endsLaterThan.value) > endTime)
  }

  predicate IsIncludedTrip(smc: Config, trip: Trip, includedServiceIDs: set<string>) {
    && trip.direction != Unspecified
    && trip.service.id in includedServiceIDs
    && trip.stopTimes != []
    && OnTime(Options(smc), trip)
  }

  // --------------------------------------------------------------------- patterns

  // An included trip of a known route: the route's key, the pattern and the edges.
  datatype Entry = Entry(route: int, key: string, edges: seq<Edge>)

  function EntriesOf(smc: Config, included: set<string>, routes: map<string, int>, m: Stations, trips: seq<Trip>): seq<Entry> {
    if trips == [] then [] else
      var t := trips[|trips| - 1];
      EntriesOf(smc, included, routes, m, trips[..|trips| - 1]) +
      if t.routeID in routes && IsIncludedTrip(smc, t, included)
      then [Entry(routes[t.routeID], TripKey(t, m), StaticEdges(t.stopTimes, t.direction, m))] else []
  }

  // How many of a route's trips have one of the keys.
  function CountIn(entries: seq<Entry>, route: int, keys: set<string>): nat {
    if entries == [] then 0 else
      var e := entries[|entries| - 1];
      CountIn(entries[..|entries| - 1], route, keys) + if e.route == route && e.key in keys then 1 else 0
  }

  function Count(entries: seq<Entry>, route: int, key: string): nat {
    CountIn(entries, route, {key})
  }

  function Keys(entries: seq<Entry>): set<string> {
    set i | 0 <= i < |entries| :: entries[i].key
  }

  // How many trips the route has.
  function Total(entries: seq<Entry>, route: int): nat {
    CountIn(entries, route, Keys(entries))
  }

  // The edges of the last trip with the key, of whatever route.
  function LastEdges(entries: seq<Entry>, key: string): seq<Edge> {
    if entries == [] then [] else
      var e := entries[|entries| - 1];
      if e.key == key then e.edges else LastEdges(entries[..|entries| - 1], key)
  }

  // n times x
  function Times(n: nat, x: real): real {
    n as real * x
  }

  predicate Enough(count: nat, total: nat, threshold: real) {
    count as real >= Times(total, threshold)
  }

  // The patterns of a route with enough trips.
  ghost predicate IsRetained(entries: seq<Entry>, route: int, threshold: real, key: string) {
    Count(entries, route, key) > 0 && Enough(Count(entries, route, key), Total(entries, route), threshold)
  }

  ghost function Retained(entries: seq<Entry>, route: int, threshold: real): set<string> {
    set key | key in Keys(entries) && IsRetained(entries, route, threshold, key)
  }

  ghost function RouteEdges(entries: seq<Entry>, route: int, threshold: real): set<Edge> {
    set key, e | key in Retained(entries, route, threshold) && e in LastEdges(entries, key) :: e
  }

  lemma {:induction false} OneMoreKey(entries: seq<Entry>, route: int, keys: set<string>, key: string)
    requires key !in keys
    ensures CountIn(entries, route, keys + {key}) == CountIn(entries, route, keys) + Count(entries, route, key)
  {
    if entries != [] {
      OneMoreKey(entries[..|entries| - 1], route, keys, key);
    }
  }

  // Keys that no trip of the route has do not count.
  lemma {:induction false} OnlyOwnKeys(entries: seq<Entry>, route: int, keys: set<string>, others: set<string>)
    requires keys <= others
    requires forall key :: key in others && key !in keys ==> Count(entries, route, key) == 0
    ensures CountIn(entries, route, others) == CountIn(entries, route, keys)
    decreases others
  {
    if keys != others {
      var key :| key in others && key !in keys;
      OnlyOwnKeys(entries, route, keys, others - {key});
      OneMoreKey(entries, route, others - {key}, key);
      assert others - {key} + {key} == others;
    }
  }

  lemma {:induction false} CountedIsKey(entries: seq<Entry>, route: int, key: string)
    requires Count(entries, route, key) > 0
    ensures key in Keys(entries)
  {
    var n := |entries| - 1;
    if entries[n].key != key {
      CountedIsKey(entries[..n], route, key);
      var i :| 0 <= i < n && entries[..n][i].key == key;
      assert entries[i].key in Keys(entries);
    }
  }

  lemma {:induction false} SubsetCounts(entries: seq<Entry>, route: int, keys: set<string>, others: set<string>)
    requires keys <= others
    ensures CountIn(entries, route, keys) <= CountIn(entries, route, others)
  {
    if entries != [] {
      SubsetCounts(entries[..|entries| - 1], route, keys, others);
    }
  }

  lemma OneMoreTime(n: nat, x: real, c: nat, d: nat)
    requires c as real >= Times(n, x) && d as real >= x
    ensures (c + d) as real >= Times(n + 1, x)
  {
  }

  // Patterns with at least x trips each have at least |keys| times x together.
  lemma {:induction false} SharesAddUp(entries: seq<Entry>, route: int, keys: set<string>, x: real)
    requires forall key :: key in keys ==> Count(entries, route, key) as real >= x
    ensures CountIn(entries, route, keys) as real >= Times(|keys|, x)
  {
    if keys != {} {
      var key :| key in keys;
      var rest := keys - {key};
      SharesAddUp(entries, route, rest, x);
      OneMoreTime(|rest|, x, CountIn(entries, route, rest), Count(entries, route, key));
      OneMoreKey(entries, route, rest, key);
      assert rest + {key} == keys;
    }
  }

  lemma EnoughIs(count: nat, total: nat, threshold: real, x: real)
    requires Enough(count, total, threshold) && x == Times(total, threshold)
    ensures count as real >= x
  {
  }

  lemma RetainedAddUp(entries: seq<Entry>, route: int, threshold: real, kept: set<string>, x: real)
    requires kept == Retained(entries, route, threshold) && x == Times(Total(entries, route), threshold)
    ensures CountIn(entries, route, kept) as real >= Times(|kept|, x)
  {
    forall key | key in kept ensures Count(entries, route, key) as real >= x {
      EnoughIs(Count(entries, route, key), Total(entries, route), threshold, x);
    }
    SharesAddUp(entries, route, kept, x);
  }

  /** The threshold bounds the number of patterns a map is made of: with a threshold
      t, a route that has trips retains at most 1 / t patterns. */
  lemma ThresholdBound(entries: seq<Entry>, route: int, threshold: real)
    requires Total(entries, route) > 0 && threshold > 0.0
    ensures |Retained(entries, route, threshold)| as real * threshold <= 1.0
  {
    var kept := Retained(entries, route, threshold);
    var counted := CountIn(entries, route, kept);
    SubsetCounts(entries, route, kept, Keys(entries));
    RetainedAddUp(entries, route, threshold, kept, Times(Total(entries, route), threshold));
    TimesBound(|kept|, Total(entries, route), counted, threshold);
  }

  lemma TimesBound(k: nat, total: nat, counted: nat, threshold: real)
    requires 0 < total && counted <= total && counted as real >= Times(k, Times(total, threshold))
    ensures k as real * threshold <= 1.0
  {
    AtMostOne(k as real, threshold, total as real, counted as real);
  }

  lemma AtMostOne(k: real, threshold: real, total: real, counted: real)
    requires 0.0 < total && counted <= total && counted >= k * (total * threshold)
    ensures k * threshold <= 1.0
  {
    Regroup(k, total, threshold);
    Larger(k * threshold, total);
  }

  lemma Regroup(k: real, t: real, threshold: real)
    ensures k * (t * threshold) == (k * threshold) * t
  {
  }

  lemma Larger(a: real, t: real)
    requires t > 0.0
    ensures a > 1.0 ==> a * t > t
  {
  }

  function TripsOf(entries: seq<Entry>, route: int): set<int> {
    set i | 0 <= i < |entries| && entries[i].route == route
  }

  /** The counts of a route's patterns add up to the number of its trips. */
  lemma {:induction false} TotalCountsTrips(entries: seq<Entry>, route: int)
    ensures Total(entries, route) == |TripsOf(entries, route)|
  {
    if entries == [] {
      assert TripsOf(entries, route) == {};
    } else {
      var n := |entries| - 1;
      var front := entries[..n];
      TotalCountsTrips(front, route);
      assert TripsOf(entries, route) == TripsOf(front, route) + if entries[n].route == route then {n} else {};
      KeysOfFront(entries);
      forall key | key in Keys(entries) && key !in Keys(front) ensures Count(front, route, key) == 0 {
        if Count(front, route, key) > 0 {
          CountedIsKey(front, route, key);
        }
      }
      OnlyOwnKeys(front, route, Keys(front), Keys(entries));
    }
  }

  lemma KeysOfFront(entries: seq<Entry>)
    requires entries != []
    ensures Keys(entries) == Keys(entries[..|entries| - 1]) + {entries[|entries| - 1].key}
  {
    var n := |entries| - 1;
    forall i | 0 <= i < n ensures entries[i].key in Keys(entries[..n]) {
      assert entries[..n][i].key in Keys(entries[..n]);
    }
    assert entries[n].key in Keys(entries);
  }

  // ---------------------------------------------------------------- the algorithm

  // routePkToKeyToCount[route] says how many trips of the route have each key.
  ghost predicate RouteTallied(entries: seq<Entry>, route: int, keyToCount: map<string, nat>) {
    forall key ::
      && (key in keyToCount <==> Count(entries, route, key) > 0)
      && (key in keyToCount ==> keyToCount[key] == Count(entries, route, key))
  }

  ghost predicate Tallied(entries: seq<Entry>, routePks: set<int>, counts: map<int, map<string, nat>>) {
    counts.Keys == routePks && forall route :: route in counts ==> RouteTallied(entries, route, counts[route])
  }

  ghost predicate EdgesKnown(entries: seq<Entry>, keyToEdges: map<string, seq<Edge>>) {
    && keyToEdges.Keys == Keys(entries)
    && forall key :: key in keyToEdges ==> keyToEdges[key] == LastEdges(entries, key)
  }

  lemma TallySnoc(entries: seq<Entry>, e: Entry, routePks: set<int>, counts: map<int, map<string, nat>>)
    requires Tallied(entries, routePks, counts) && e.route in counts
    ensures var c := if e.key in counts[e.route] then counts[e.route][e.key] + 1 else 1;
      Tallied(entries + [e], routePks, counts[e.route := counts[e.route][e.key := c]])
  {
    var c := if e.key in counts[e.route] then counts[e.route][e.key] + 1 else 1;
    var counts' := counts[e.route := counts[e.route][e.key := c]];
    assert (entries + [e])[..|entries|] == entries;
    forall route | route in counts' ensures RouteTallied(entries + [e], route, counts'[route]) {
      assert RouteTallied(entries, route, counts[route]);
    }
  }

  lemma EdgesSnoc(entries: seq<Entry>, e: Entry, keyToEdges: map<string, seq<Edge>>)
    requires EdgesKnown(entries, keyToEdges)
    ensures EdgesKnown(entries + [e], keyToEdges[e.key := e.edges])
  {
    assert (entries + [e])[..|entries|] == entries;
    KeysOfFront(entries + [e]);
  }

  method CountPatterns(smc: Config, included: set<string>, routes: map<string, int>, m: Stations, trips: seq<Trip>)
    returns (counts: map<int, map<string, nat>>, keyToEdges: map<string, seq<Edge>>)
    ensures Tallied(EntriesOf(smc, included, routes, m, trips), routes.Values, counts)
    ensures EdgesKnown(EntriesOf(smc, included, routes, m, trips), keyToEdges)
  {
    counts := map routePk | routePk in routes.Values :: map[];
    keyToEdges := map[];
    ghost var entries: seq<Entry> := [];
    for i := 0 to |trips|
      invariant entries == EntriesOf(smc, included, routes, m, trips[..i])
      invariant Tallied(entries, routes.Values, counts) && EdgesKnown(entries, keyToEdges)
    {
      assert trips[..i + 1][..i] == trips[..i];
      var trip := trips[i];
      if trip.routeID !in routes {
        continue;
      }
      var routePk := routes[trip.routeID];
      if !IsIncludedTrip(smc, trip, included) {
        continue;
      }
      var key := CalculateTripKey(trip, m);
      var edges := TripEdges(trip, m);
      ghost var e := Entry(routePk, key, edges);
      TallySnoc(entries, e, routes.Values, counts);
      EdgesSnoc(entries, e, keyToEdges);
      entries := entries + [e];
      var keyToCount := counts[routePk];
      counts := counts[routePk := keyToCount[key := (if key in keyToCount then keyToCount[key] else 0) + 1]];
      keyToEdges := keyToEdges[key := edges];
    }
    assert trips[..|trips|] == trips;
  }

  // The sum over the patterns of a route, in any order.
  method TotalCount(keyToCount: map<string, nat>, ghost entries: seq<Entry>, ghost route: int) returns (total: nat)
    requires RouteTallied(entries, route, keyToCount)
    ensures total == Total(entries, route)
  {
    total := 0;
    var left := keyToCount.Keys;
    NoKeyCountsNothing(entries, route);
    assert keyToCount.Keys - left == {};
    while left != {}
      invariant left <= keyToCount.Keys && total == CountIn(entries, route, keyToCount.Keys - left)
      decreases left
    {
      var key :| key in left;
      OneMoreKey(entries, route, keyToCount.Keys - left, key);
      assert keyToCount.Keys - left + {key} == keyToCount.Keys - (left - {key});
      total := total + keyToCount[key];
      left := left - {key};
    }
    assert keyToCount.Keys - {} == keyToCount.Keys;
    forall key | key in keyToCount ensures key in Keys(entries) {
      CountedIsKey(entries, route, key);
    }
    OnlyOwnKeys(entries, route, keyToCount.Keys, Keys(entries));
  }

  lemma {:induction false} NoKeyCountsNothing(entries: seq<Entry>, route: int)
    ensures CountIn(entries, route, {}) == 0
  {
    if entries != [] {
      NoKeyCountsNothing(entries[..|entries| - 1], route);
    }
  }

  // The edges of the keys dealt with so far.
  ghost function EdgesOfKeys(entries: seq<Entry>, route: int, threshold: real, keys: set<string>): set<Edge> {
    set key, e | key in keys && IsRetained(entries, route, threshold, key) && e in LastEdges(entries, key) :: e
  }

  method SelectEdges(keyToCount: map<string, nat>, keyToEdges: map<string, seq<Edge>>, threshold: real,
                     ghost entries: seq<Entry>, ghost route: int)
    returns (edges: set<Edge>)
    requires RouteTallied(entries, route, keyToCount) && EdgesKnown(entries, keyToEdges)
    ensures edges == RouteEdges(entries, route, threshold)
  {
    var totalCount := TotalCount(keyToCount, entries, route);
    edges := EdgesFrom(keyToCount, keyToEdges, Times(totalCount, threshold), entries, route, threshold);
    RetainedAreCounted(entries, route, threshold, keyToCount);
  }

  // The loop over the patterns of a route.
  method EdgesFrom(keyToCount: map<string, nat>, keyToEdges: map<string, seq<Edge>>, countThreshhold: real,
                   ghost entries: seq<Entry>, ghost route: int, ghost threshold: real)
    returns (edges: set<Edge>)
    requires RouteTallied(entries, route, keyToCount) && EdgesKnown(entries, keyToEdges)
    requires countThreshhold == Times(Total(entries, route), threshold)
    ensures edges == EdgesOfKeys(entries, route, threshold, keyToCount.Keys)
  {
    edges := {};
    var left := keyToCount.Keys;
    while left != {}
      invariant left <= keyToCount.Keys && edges == EdgesOfKeys(entries, route, threshold, keyToCount.Keys - left)
      decreases left
    {
      var key :| key in left;
      CountedIsKey(entries, route, key);
      OneMoreKeyOfEdges(entries, route, threshold, keyToCount.Keys - left, key);
      assert keyToCount.Keys - left + {key} == keyToCount.Keys - (left - {key});
      assert IsRetained(entries, route, threshold, key) <==> keyToCount[key] as real >= countThreshhold;
      left := left - {key};
      if keyToCount[key] as real < countThreshhold {
        continue;
      }
      edges := edges + Elements(keyToEdges[key]);
    }
    assert keyToCount.Keys - {} == keyToCount.Keys;
  }

  lemma OneMoreKeyOfEdges(entries: seq<Entry>, route: int, threshold: real, keys: set<string>, key: string)
    ensures EdgesOfKeys(entries, route, threshold, keys + {key}) == EdgesOfKeys(entries, route, threshold, keys) +
      if IsRetained(entries, route, threshold, key) then Elements(LastEdges(entries, key)) else {}
  {
  }

  lemma RetainedAreCounted(entries: seq<Entry>, route: int, threshold: real, keyToCount: map<string, nat>)
    requires RouteTallied(entries, route, keyToCount)
    ensures EdgesOfKeys(entries, route, threshold, keyToCount.Keys) == RouteEdges(entries, route, threshold)
  {
    forall key | key in keyToCount ensures key in Keys(entries) {
      CountedIsKey(entries, route, key);
    }
    assert forall key :: key in Retained(entries, route, threshold) <==>
      key in keyToCount && IsRetained(entries, route, threshold, key);
  }

  lemma SomeElement<T>(s: set<T>) returns (x: T)
    requires s != {}
    ensures x in s
  {
    x :| x in s;
  }

  // A map for these edges: a topological order of their endpoints, or the empty
  // map if there is none.
  ghost predicate Shows(stopPks: seq<int>, E: set<Edge>) {
    if HasCycle(E) then stopPks == [] else IsTopologicalOrder(EndpointSet(E), E, stopPks)
  }

  // What goes into the maps: the trips that are included, pattern by pattern.
  ghost function Patterns(smc: Config, lower: string -> string, routes: map<string, int>, m: Stations,
                          trips: seq<Trip>): seq<Entry>
  {
    EntriesOf(smc, IncludedServices(trips, AllowedDays(smc, lower)), routes, m, trips)
  }

  /** Every known route gets a map, and it shows the edges of the patterns that reach
      the threshold. */
  method BuildStaticMaps(smc: Config, lower: string -> string, routes: map<string, int>, m: Stations, trips: seq<Trip>)
    returns (maps: map<int, seq<int>>)
    ensures maps.Keys == routes.Values
    ensures forall route :: route in maps ==>
      Shows(maps[route], RouteEdges(Patterns(smc, lower, routes, m, trips), route, smc.threshold))
  {
    var included := BuildIncludedServiceIDs(smc, trips, lower);
    ghost var entries := Patterns(smc, lower, routes, m, trips);
    var counts, keyToEdges := CountPatterns(smc, included, routes, m, trips);
    var routePkToEdges: map<int, set<Edge>> := map[];
    var left: set<int> := counts.Keys;
    while left != {}
      invariant left <= counts.Keys && routePkToEdges.Keys == counts.Keys - left
      invariant forall route :: route in routePkToEdges ==> routePkToEdges[route] == RouteEdges(entries, route, smc.threshold)
      decreases left
    {
      ghost var next := SomeElement(left);
      var routePk :| routePk in left;
      var edges := SelectEdges(counts[routePk], keyToEdges, smc.threshold, entries, routePk);
      routePkToEdges := routePkToEdges[routePk := edges];
      left := left - {routePk};
    }
    maps := map[];
    left := counts.Keys;
    while left != {}
      invariant left <= counts.Keys && maps.Keys == counts.Keys - left
      invariant forall route :: route in maps ==> Shows(maps[route], RouteEdges(entries, route, smc.threshold))
      decreases left
    {
      ghost var next := SomeElement(left);
      var routePk :| routePk in left;
      var stopPks, ok := BuildMap.BuildMap(routePkToEdges[routePk]);
      maps := maps[routePk := stopPks];
      left := left - {routePk};
    }
  }
}
