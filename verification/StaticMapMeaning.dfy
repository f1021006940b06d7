/** What the static maps show, in terms of the trips alone. */
module StaticMapMeaning {
  import opened Decimal
  import opened Edges
  import opened StopPatterns
  import opened StaticMaps

  // --------------------------------------------------------- from entries to trips

  // The trip goes into the map of the route.
  predicate Goes(smc: Config, included: set<string>, routes: map<string, int>, trip: Trip, route: int) {
    trip.routeID in routes && routes[trip.routeID] == route && IsIncludedTrip(smc, trip, included)
  }

  function GoingTrips(smc: Config, included: set<string>, routes: map<string, int>, trips: seq<Trip>, route: int): set<int> {
    set k | 0 <= k < |trips| && Goes(smc, included, routes, trips[k], route)
  }

  function KeyTrips(smc: Config, included: set<string>, routes: map<string, int>, m: Stations, trips: seq<Trip>,
                    route: int, key: string): set<int>
  {
    set k | 0 <= k < |trips| && Goes(smc, included, routes, trips[k], route) && TripKey(trips[k], m) == key
  }

  lemma TripsOfSnoc(front: seq<Entry>, e: Entry, route: int)
    ensures TripsOf(front + [e], route) == TripsOf(front, route) + if e.route == route then {|front|} else {}
  {
  }

  lemma GoingTripsFront(smc: Config, included: set<string>, routes: map<string, int>, trips: seq<Trip>, route: int)
    requires trips != []
    ensures var n := |trips| - 1;
      && n !in GoingTrips(smc, included, routes, trips[..n], route)
      && GoingTrips(smc, included, routes, trips, route) == GoingTrips(smc, included, routes, trips[..n], route)
         + if Goes(smc, included, routes, trips[n], route) then {n} else {}
  {
    var n := |trips| - 1;
    var before, now := GoingTrips(smc, included, routes, trips[..n], route), GoingTrips(smc, included, routes, trips, route);
    forall k ensures k in now <==> k in before || (k == n && Goes(smc, included, routes, trips[n], route)) {
      assert 0 <= k < n ==> trips[..n][k] == trips[k];
    }
  }

  lemma {:induction false} TotalIsTrips(smc: Config, included: set<string>, routes: map<string, int>, m: Stations,
                                        trips: seq<Trip>, route: int)
    ensures |TripsOf(EntriesOf(smc, included, routes, m, trips), route)| == |GoingTrips(smc, included, routes, trips, route)|
  {
    if trips == [] {
      assert TripsOf([], route) == {} && GoingTrips(smc, included, routes, trips, route) == {};
    } else {
      var n := |trips| - 1;
      var t, front := trips[n], EntriesOf(smc, included, routes, m, trips[..n]);
      TotalIsTrips(smc, included, routes, m, trips[..n], route);
      GoingTripsFront(smc, included, routes, trips, route);
      if t.routeID in routes && IsIncludedTrip(smc, t, included) {
        TripsOfSnoc(front, Entry(routes[t.routeID], TripKey(t, m), StaticEdges(t.stopTimes, t.direction, m)), route);
      } else {
        assert front + [] == front;
      }
    }
  }

  lemma KeyTripsFront(smc: Config, included: set<string>, routes: map<string, int>, m: Stations, trips: seq<Trip>,
                      route: int, key: string)
    requires trips != []
    ensures var n := |trips| - 1;
      && n !in KeyTrips(smc, included, routes, m, trips[..n], route, key)
      && KeyTrips(smc, included, routes, m, trips, route, key) == KeyTrips(smc, included, routes, m, trips[..n], route, key)
         + if Goes(smc, included, routes, trips[n], route) && TripKey(trips[n], m) == key then {n} else {}
  {
    var n := |trips| - 1;
    var before := KeyTrips(smc, included, routes, m, trips[..n], route, key);
    var now := KeyTrips(smc, included, routes, m, trips, route, key);
    forall k ensures k in now <==>
      k in before || (k == n && Goes(smc, included, routes, trips[n], route) && TripKey(trips[n], m) == key)
    {
      assert 0 <= k < n ==> trips[..n][k] == trips[k];
    }
  }

  lemma CountSnoc(front: seq<Entry>, e: Entry, route: int, key: string)
    ensures Count(front + [e], route, key) == Count(front, route, key) + if e.route == route && e.key == key then 1 else 0
  {
    assert (front + [e])[..|front|] == front;
  }

  lemma {:induction false} CountIsTrips(smc: Config, included: set<string>, routes: map<string, int>, m: Stations,
                                        trips: seq<Trip>, route: int, key: string)
    ensures Count(EntriesOf(smc, included, routes, m, trips), route, key)
         == |KeyTrips(smc, included, routes, m, trips, route, key)|
  {
    if trips == [] {
      assert KeyTrips(smc, included, routes, m, trips, route, key) == {};
    } else {
      var n := |trips| - 1;
      var t, front := trips[n], EntriesOf(smc, included, routes, m, trips[..n]);
      CountIsTrips(smc, included, routes, m, trips[..n], route, key);
      KeyTripsFront(smc, included, routes, m, trips, route, key);
      if t.routeID in routes && IsIncludedTrip(smc, t, included) {
        CountSnoc(front, Entry(routes[t.routeID], TripKey(t, m), StaticEdges(t.stopTimes, t.direction, m)), route, key);
      } else {
        assert front + [] == front;
      }
    }
  }

  lemma LastEdgesSnoc(front: seq<Entry>, e: Entry, key: string)
    ensures LastEdges(front + [e], key) == if e.key == key then e.edges else LastEdges(front, key)
    ensures Keys(front + [e]) == Keys(front) + {e.key}
  {
    assert (front + [e])[..|front|] == front;
    KeysOfFront(front + [e]);
  }

  // One more trip has the last edges under its key and changes no other key.
  lemma LastEdgesOneMore(smc: Config, included: set<string>, routes: map<string, int>, m: Stations, trips: seq<Trip>,
                         key: string)
    requires trips != []
    ensures var t, n := trips[|trips| - 1], |trips| - 1;
      var entries, front := EntriesOf(smc, included, routes, m, trips), EntriesOf(smc, included, routes, m, trips[..n]);
      if t.routeID in routes && IsIncludedTrip(smc, t, included) && TripKey(t, m) == key
      then LastEdges(entries, key) == StaticEdges(t.stopTimes, t.direction, m)
      else LastEdges(entries, key) == LastEdges(front, key) && (key in Keys(entries) ==> key in Keys(front))
  {
    var n := |trips| - 1;
    var t, front := trips[n], EntriesOf(smc, included, routes, m, trips[..n]);
    if t.routeID in routes && IsIncludedTrip(smc, t, included) {
      LastEdgesSnoc(front, Entry(routes[t.routeID], TripKey(t, m), StaticEdges(t.stopTimes, t.direction, m)), key);
    } else {
      assert front + [] == front;
    }
  }

  // The last edges under a key are those of some included trip that has it.
  lemma {:induction false} LastEdgesAreOfTrip(smc: Config, included: set<string>, routes: map<string, int>, m: Stations,
                                              trips: seq<Trip>, key: string) returns (k: nat)
    requires key in Keys(EntriesOf(smc, included, routes, m, trips))
    ensures k < |trips| && IsIncludedTrip(smc, trips[k], included) && TripKey(trips[k], m) == key
    ensures Elements(LastEdges(EntriesOf(smc, included, routes, m, trips), key)) == EdgeSetOf(trips[k], m)
  {
    var n := |trips| - 1;
    var t := trips[n];
    LastEdgesOneMore(smc, included, routes, m, trips, key);
    if t.routeID in routes && IsIncludedTrip(smc, t, included) && TripKey(t, m) == key {
      k := n;
    } else {
      k := LastEdgesAreOfTrip(smc, included, routes, m, trips[..n], key);
    }
  }

  lemma {:induction false} TripHasKey(smc: Config, included: set<string>, routes: map<string, int>, m: Stations,
                                      trips: seq<Trip>, route: int, k: nat)
    requires k < |trips| && Goes(smc, included, routes, trips[k], route)
    ensures TripKey(trips[k], m) in Keys(EntriesOf(smc, included, routes, m, trips))
    ensures Count(EntriesOf(smc, included, routes, m, trips), route, TripKey(trips[k], m)) > 0
  {
    var key := TripKey(trips[k], m);
    CountIsTrips(smc, included, routes, m, trips, route, key);
    assert k in KeyTrips(smc, included, routes, m, trips, route, key);
    CountedIsKey(EntriesOf(smc, included, routes, m, trips), route, key);
  }

  // Trip k's pattern has enough trips on the route.
  predicate Frequent(smc: Config, included: set<string>, routes: map<string, int>, m: Stations, trips: seq<Trip>,
                     route: int, k: int)
    requires 0 <= k < |trips|
  {
    Enough(|KeyTrips(smc, included, routes, m, trips, route, TripKey(trips[k], m))|,
           |GoingTrips(smc, included, routes, trips, route)|, smc.threshold)
  }

  lemma CountsAreTrips(smc: Config, included: set<string>, routes: map<string, int>, m: Stations, trips: seq<Trip>,
                       route: int, key: string)
    ensures var entries := EntriesOf(smc, included, routes, m, trips);
      && Count(entries, route, key) == |KeyTrips(smc, included, routes, m, trips, route, key)|
      && Total(entries, route) == |GoingTrips(smc, included, routes, trips, route)|
  {
    CountIsTrips(smc, included, routes, m, trips, route, key);
    TotalIsTrips(smc, included, routes, m, trips, route);
    TotalCountsTrips(EntriesOf(smc, included, routes, m, trips), route);
  }

  lemma FrequentIsRetained(smc: Config, included: set<string>, routes: map<string, int>, m: Stations, trips: seq<Trip>,
                           route: int, k: int)
    requires 0 <= k < |trips| && Goes(smc, included, routes, trips[k], route)
    ensures Frequent(smc, included, routes, m, trips, route, k)
       <==> IsRetained(EntriesOf(smc, included, routes, m, trips), route, smc.threshold, TripKey(trips[k], m))
  {
    TripHasKey(smc, included, routes, m, trips, route, k);
    CountsAreTrips(smc, included, routes, m, trips, route, TripKey(trips[k], m));
  }

  // The edges of the frequent trips of a route.
  ghost function FrequentEdges(smc: Config, included: set<string>, routes: map<string, int>, m: Stations, trips: seq<Trip>,
                               route: int): set<Edge>
  {
    set k, e | 0 <= k < |trips| && Goes(smc, included, routes, trips[k], route)
            && Frequent(smc, included, routes, m, trips, route, k) && e in EdgeSetOf(trips[k], m) :: e
  }

  ghost predicate AllBridged(trips: seq<Trip>, m: Stations) {
    forall k :: 0 <= k < |trips| ==> Bridged(trips[k].stopTimes, m)
  }

  lemma RetainedIsFrequent(smc: Config, included: set<string>, routes: map<string, int>, m: Stations, trips: seq<Trip>,
                           route: int, key: string) returns (k: nat)
    requires AllBridged(trips, m) && key in Retained(EntriesOf(smc, included, routes, m, trips), route, smc.threshold)
    ensures k < |trips| && Goes(smc, included, routes, trips[k], route) && TripKey(trips[k], m) == key
    ensures Frequent(smc, included, routes, m, trips, route, k)
    ensures Elements(LastEdges(EntriesOf(smc, included, routes, m, trips), key)) == EdgeSetOf(trips[k], m)
  {
    var entries := EntriesOf(smc, included, routes, m, trips);
    CountIsTrips(smc, included, routes, m, trips, route, key);
    var i :| i in KeyTrips(smc, included, routes, m, trips, route, key);
    k := i;
    FrequentIsRetained(smc, included, routes, m, trips, route, k);
    var j := LastEdgesAreOfTrip(smc, included, routes, m, trips, key);
    SameBucketSameEdgeSet(trips[j], trips[k], m);
  }

  lemma FrequentIsKept(smc: Config, included: set<string>, routes: map<string, int>, m: Stations, trips: seq<Trip>,
                       route: int, k: nat)
    requires AllBridged(trips, m) && k < |trips| && Goes(smc, included, routes, trips[k], route)
    requires Frequent(smc, included, routes, m, trips, route, k)
    ensures EdgeSetOf(trips[k], m) <= RouteEdges(EntriesOf(smc, included, routes, m, trips), route, smc.threshold)
  {
    var entries := EntriesOf(smc, included, routes, m, trips);
    var key := TripKey(trips[k], m);
    TripHasKey(smc, included, routes, m, trips, route, k);
    FrequentIsRetained(smc, included, routes, m, trips, route, k);
    var j := LastEdgesAreOfTrip(smc, included, routes, m, trips, key);
    SameBucketSameEdgeSet(trips[j], trips[k], m);
    assert key in Retained(entries, route, smc.threshold);
    assert forall e :: e in LastEdges(entries, key) ==> e in RouteEdges(entries, route, smc.threshold);
    assert forall e :: e in EdgeSetOf(trips[k], m) ==> e in LastEdges(entries, key);
  }

  // If every trip is bridged, a route's edges are those of its frequent trips.
  lemma RouteEdgesAreFrequent(smc: Config, included: set<string>, routes: map<string, int>, m: Stations, trips: seq<Trip>,
                              route: int)
    requires AllBridged(trips, m)
    ensures RouteEdges(EntriesOf(smc, included, routes, m, trips), route, smc.threshold)
         == FrequentEdges(smc, included, routes, m, trips, route)
  {
    var entries := EntriesOf(smc, included, routes, m, trips);
    forall e | e in RouteEdges(entries, route, smc.threshold)
      ensures e in FrequentEdges(smc, included, routes, m, trips, route)
    {
      var key :| key in Retained(entries, route, smc.threshold) && e in LastEdges(entries, key);
      var k := RetainedIsFrequent(smc, included, routes, m, trips, route, key);
      assert e in Elements(LastEdges(entries, key));
    }
    forall e | e in FrequentEdges(smc, included, routes, m, trips, route)
      ensures e in RouteEdges(entries, route, smc.threshold)
    {
      var k :| 0 <= k < |trips| && Goes(smc, included, routes, trips[k], route)
            && Frequent(smc, included, routes, m, trips, route, k) && e in EdgeSetOf(trips[k], m);
      FrequentIsKept(smc, included, routes, m, trips, route, k);
    }
  }

  // --------------------------------------------------------------- in plain terms

  // A time of day, in nanoseconds, against a limit in hours. A limit that is not a
  // whole number of nanoseconds counts as the next whole number towards zero.
  predicate NotBefore(time: int, hours: real) {
    var limit := hours * 3_600_000_000_000.0;
    if limit >= 0.0 then time as real + 1.0 > limit else time as real >= limit
  }

  predicate NotAfter(time: int, hours: real) {
    var limit := hours * 3_600_000_000_000.0;
    if limit >= 0.0 then time as real <= limit else time as real - 1.0 < limit
  }

  // The trip starts and ends within the limits that are given.
  predicate WithinHours(options: StaticOptions, first: int, last: int) {
    && (options.startsEarlierThan.Some? ==> NotAfter(first, options.startsEarlierThan.value))
    && (options.startsLaterThan.Some? ==> NotBefore(first, options.startsLaterThan.value))
    && (options.endsEarlierThan.Some? ==> NotAfter(last, options.endsEarlierThan.value))
    && (options.endsLaterThan.Some? ==> NotBefore(last, options.endsLaterThan.value))
  }

  predicate RunsOn(service: Service, days: set<string>) {
    || (service.monday && "monday" in days)
    || (service.tuesday && "tuesday" in days)
    || (service.wednesday && "wednesday" in days)
    || (service.thursday && "thursday" in days)
    || (service.friday && "friday" in days)
    || (service.saturday && "saturday" in days)
    || (service.sunday && "sunday" in days)
  }

  // The trip belongs on the map of the route, but for its hours: it says which way it
  // goes, has stops, and runs on one of the given days, if any are given.
  ghost predicate OnRoute(smc: Config, lower: string -> string, routes: map<string, int>, trip: Trip, route: int) {
    && trip.routeID in routes && routes[trip.routeID] == route
    && trip.direction != Unspecified
    && trip.stopTimes != []
    && (smc.staticOptions.Some? && smc.staticOptions.value.days != [] ==>
          RunsOn(trip.service, set i | 0 <= i < |smc.staticOptions.value.days| :: lower(smc.staticOptions.value.days[i])))
  }

  ghost predicate OnMap(smc: Config, lower: string -> string, routes: map<string, int>, trip: Trip, route: int) {
    && OnRoute(smc, lower, routes, trip, route)
    && (smc.staticOptions.Some? ==>
          WithinHours(smc.staticOptions.value, trip.stopTimes[0].arrivalTime,
                      trip.stopTimes[|trip.stopTimes| - 1].arrivalTime))
  }

  lemma NotAfterMeaning(time: int, hours: real)
    ensures NotAfter(time, hours) <==> !(Hours(hours) < time)
  {
  }

  lemma NotBeforeMeaning(time: int, hours: real)
    ensures NotBefore(time, hours) <==> !(Hours(hours) > time)
  {
  }

  lemma WithinHoursMeaning(options: StaticOptions, trip: Trip)
    requires trip.stopTimes != []
    ensures OnTime(options, trip) <==>
      WithinHours(options, trip.stopTimes[0].arrivalTime, trip.stopTimes[|trip.stopTimes| - 1].arrivalTime)
  {
    var first, last := trip.stopTimes[0].arrivalTime, trip.stopTimes[|trip.stopTimes| - 1].arrivalTime;
    if options.startsEarlierThan.Some? {
      NotAfterMeaning(first, options.startsEarlierThan.value);
    }
    if options.startsLaterThan.Some? {
      NotBeforeMeaning(first, options.startsLaterThan.value);
    }
    if options.endsEarlierThan.Some? {
      NotAfterMeaning(last, options.endsEarlierThan.value);
    }
    if options.endsLaterThan.Some? {
      NotBeforeMeaning(last, options.endsLaterThan.value);
    }
  }

  lemma RunsOnMeaning(service: Service, days: set<string>)
    requires days != {}
    ensures Allowed(service, days) <==> RunsOn(service, days)
  {
    var week := Week(service);
    assert week[0] == ("monday", service.monday) && week[1] == ("tuesday", service.tuesday);
    assert week[2] == ("wednesday", service.wednesday) && week[3] == ("thursday", service.thursday);
    assert week[4] == ("friday", service.friday) && week[5] == ("saturday", service.saturday);
    assert week[6] == ("sunday", service.sunday);
  }

  lemma DaysMeaning(smc: Config, lower: string -> string, service: Service)
    ensures Allowed(service, AllowedDays(smc, lower)) <==>
      (smc.staticOptions.Some? && smc.staticOptions.value.days != [] ==>
         RunsOn(service, set i | 0 <= i < |smc.staticOptions.value.days| :: lower(smc.staticOptions.value.days[i])))
  {
    var days := AllowedDays(smc, lower);
    if smc.staticOptions.Some? && smc.staticOptions.value.days != [] {
      assert lower(Options(smc).days[0]) in days;
      RunsOnMeaning(service, days);
    }
  }

  // The trip is on the map exactly when the methods' conditions hold for it.
  lemma OnMapMeaning(smc: Config, lower: string -> string, routes: map<string, int>, trip: Trip, route: int)
    ensures OnMap(smc, lower, routes, trip, route) <==>
      && trip.routeID in routes && routes[trip.routeID] == route
      && trip.direction != Unspecified
      && Allowed(trip.service, AllowedDays(smc, lower))
      && trip.stopTimes != []
      && OnTime(Options(smc), trip)
  {
    DaysMeaning(smc, lower, trip.service);
    if trip.stopTimes != [] {
      WithinHoursMeaning(Options(smc), trip);
    }
  }

  // The limit is that number of whole hours, or there is none.
  predicate IsWhole(limit: Option<real>, hours: Option<int>) {
    limit == if hours.Some? then Some(hours.value as real) else None
  }

  /** With limits in whole hours, a trip that may otherwise be on the map is there
      exactly when its first and last arrivals keep each of the limits that are given,
      the limits themselves included. */
  lemma WholeHoursDecide(smc: Config, lower: string -> string, routes: map<string, int>, trip: Trip, route: int,
                         startsBy: Option<int>, startsFrom: Option<int>, endsBy: Option<int>, endsFrom: Option<int>)
    requires smc.staticOptions.Some? && OnRoute(smc, lower, routes, trip, route)
    requires IsWhole(smc.staticOptions.value.startsEarlierThan, startsBy)
    requires IsWhole(smc.staticOptions.value.startsLaterThan, startsFrom)
    requires IsWhole(smc.staticOptions.value.endsEarlierThan, endsBy)
    requires IsWhole(smc.staticOptions.value.endsLaterThan, endsFrom)
    ensures var first, last := trip.stopTimes[0].arrivalTime, trip.stopTimes[|trip.stopTimes| - 1].arrivalTime;
      OnMap(smc, lower, routes, trip, route) <==>
        && (startsBy.Some? ==> first <= startsBy.value * 3600 * 1_000_000_000)
        && (startsFrom.Some? ==> first >= startsFrom.value * 3600 * 1_000_000_000)
        && (endsBy.Some? ==> last <= endsBy.value * 3600 * 1_000_000_000)
        && (endsFrom.Some? ==> last >= endsFrom.value * 3600 * 1_000_000_000)
  {
    var first, last := trip.stopTimes[0].arrivalTime, trip.stopTimes[|trip.stopTimes| - 1].arrivalTime;
    if startsBy.Some? {
      WholeHours(first, startsBy.value);
    }
    if startsFrom.Some? {
      WholeHours(first, startsFrom.value);
    }
    if endsBy.Some? {
      WholeHours(last, endsBy.value);
    }
    if endsFrom.Some? {
      WholeHours(last, endsFrom.value);
    }
  }

  lemma WholeHours(time: int, hours: int)
    ensures NotBefore(time, hours as real) <==> time >= hours * 3600 * 1_000_000_000
    ensures NotAfter(time, hours as real) <==> time <= hours * 3600 * 1_000_000_000
  {
    var limit := hours * 3600 * 1_000_000_000;
    assert hours as real * 3_600_000_000_000.0 == limit as real;
  }

  ghost predicate ServicesAgree(trips: seq<Trip>) {
    forall i, j :: 0 <= i < j < |trips| && trips[i].service.id == trips[j].service.id ==>
      trips[i].service == trips[j].service
  }

  // The trips on the route's map, and those of them that travel past the same
  // stations in the same order as a given trip.
  ghost function TripsOnMap(smc: Config, lower: string -> string, routes: map<string, int>, trips: seq<Trip>,
                            route: int): set<int>
  {
    set k | 0 <= k < |trips| && OnMap(smc, lower, routes, trips[k], route)
  }

  ghost function SameTravel(smc: Config, lower: string -> string, routes: map<string, int>, m: Stations, trips: seq<Trip>,
                            route: int, travel: seq<int>): set<int>
  {
    set k | k in TripsOnMap(smc, lower, routes, trips, route) && 0 <= k < |trips| && Travel(trips[k], m) == travel
  }

  // At least that share of the total, the share itself included.
  predicate HasShare(count: nat, total: nat, share: real) {
    count as real >= share * total as real
  }

  ghost predicate Common(smc: Config, lower: string -> string, routes: map<string, int>, m: Stations, trips: seq<Trip>,
                         route: int, k: int)
    requires 0 <= k < |trips|
  {
    HasShare(|SameTravel(smc, lower, routes, m, trips, route, Travel(trips[k], m))|,
             |TripsOnMap(smc, lower, routes, trips, route)|, smc.threshold)
  }

  // The edges along the stations of the common trips, in the order of travel.
  ghost function CommonEdges(smc: Config, lower: string -> string, routes: map<string, int>, m: Stations, trips: seq<Trip>,
                             route: int): set<Edge>
  {
    set k, e | k in TripsOnMap(smc, lower, routes, trips, route) && 0 <= k < |trips|
            && Common(smc, lower, routes, m, trips, route, k) && e in PathEdges(Travel(trips[k], m)) :: e
  }

  lemma OnMapGoes(smc: Config, lower: string -> string, routes: map<string, int>, trips: seq<Trip>, route: int, k: nat)
    requires ServicesAgree(trips) && k < |trips|
    ensures OnMap(smc, lower, routes, trips[k], route)
       <==> Goes(smc, IncludedServices(trips, AllowedDays(smc, lower)), routes, trips[k], route)
  {
    OwnServiceDecides(trips, AllowedDays(smc, lower), k);
    OnMapMeaning(smc, lower, routes, trips[k], route);
  }

  lemma SameSets(smc: Config, lower: string -> string, routes: map<string, int>, trips: seq<Trip>, route: int)
    requires ServicesAgree(trips)
    ensures TripsOnMap(smc, lower, routes, trips, route)
         == GoingTrips(smc, IncludedServices(trips, AllowedDays(smc, lower)), routes, trips, route)
  {
    var included := IncludedServices(trips, AllowedDays(smc, lower));
    forall k | 0 <= k < |trips|
      ensures OnMap(smc, lower, routes, trips[k], route) <==> Goes(smc, included, routes, trips[k], route)
    {
      OnMapGoes(smc, lower, routes, trips, route, k);
    }
  }

  lemma SameTravelIsSameKey(smc: Config, lower: string -> string, routes: map<string, int>, m: Stations, trips: seq<Trip>,
                            route: int, k: nat)
    requires ServicesAgree(trips) && k < |trips| && k in TripsOnMap(smc, lower, routes, trips, route)
    ensures SameTravel(smc, lower, routes, m, trips, route, Travel(trips[k], m))
         == KeyTrips(smc, IncludedServices(trips, AllowedDays(smc, lower)), routes, m, trips, route, TripKey(trips[k], m))
  {
    SameSets(smc, lower, routes, trips, route);
    forall j | j in TripsOnMap(smc, lower, routes, trips, route)
      ensures TripKey(trips[j], m) == TripKey(trips[k], m) <==> Travel(trips[j], m) == Travel(trips[k], m)
    {
      SameKey(trips[j], trips[k], m);
    }
  }

  lemma CommonIsFrequent(smc: Config, lower: string -> string, routes: map<string, int>, m: Stations, trips: seq<Trip>,
                         route: int, k: nat)
    requires ServicesAgree(trips) && k < |trips| && k in TripsOnMap(smc, lower, routes, trips, route)
    ensures Common(smc, lower, routes, m, trips, route, k)
       <==> Frequent(smc, IncludedServices(trips, AllowedDays(smc, lower)), routes, m, trips, route, k)
  {
    SameSets(smc, lower, routes, trips, route);
    SameTravelIsSameKey(smc, lower, routes, m, trips, route, k);
    EnoughMeaning(|SameTravel(smc, lower, routes, m, trips, route, Travel(trips[k], m))|,
                  |TripsOnMap(smc, lower, routes, trips, route)|, smc.threshold);
  }

  lemma EnoughMeaning(count: nat, total: nat, threshold: real)
    ensures Enough(count, total, threshold) <==> HasShare(count, total, threshold)
  {
  }

  lemma EdgesOfTravel(trip: Trip, m: Stations)
    requires Bridged(trip.stopTimes, m)
    ensures EdgeSetOf(trip, m) == Elements(PathEdges(Travel(trip, m)))
  {
    EdgeSetFollowsStations(trip, m);
  }

  // What one trip adds is the same either way.
  lemma SameContribution(smc: Config, lower: string -> string, routes: map<string, int>, m: Stations, trips: seq<Trip>,
                         route: int, k: nat, e: Edge)
    requires ServicesAgree(trips) && AllBridged(trips, m) && k < |trips|
    ensures var included := IncludedServices(trips, AllowedDays(smc, lower));
      (k in TripsOnMap(smc, lower, routes, trips, route) && Common(smc, lower, routes, m, trips, route, k)
        && e in PathEdges(Travel(trips[k], m)))
      <==> (Goes(smc, included, routes, trips[k], route) && Frequent(smc, included, routes, m, trips, route, k)
        && e in EdgeSetOf(trips[k], m))
  {
    OnMapGoes(smc, lower, routes, trips, route, k);
    EdgesOfTravel(trips[k], m);
    if k in TripsOnMap(smc, lower, routes, trips, route) {
      CommonIsFrequent(smc, lower, routes, m, trips, route, k);
    }
  }

  /** The meaning of a static map: if trips that share a service ID agree on the
      service and every trip is bridged, as it is if no stop without a station lies in
      between, a known route's map shows exactly the edges along the trips on it whose
      way is travelled by at least the threshold's share of them. */
  lemma ShowsCommonEdges(smc: Config, lower: string -> string, routes: map<string, int>, m: Stations, trips: seq<Trip>,
                         route: int)
    requires ServicesAgree(trips) && AllBridged(trips, m)
    ensures RouteEdges(Patterns(smc, lower, routes, m, trips), route, smc.threshold)
         == CommonEdges(smc, lower, routes, m, trips, route)
  {
    var included := IncludedServices(trips, AllowedDays(smc, lower));
    RouteEdgesAreFrequent(smc, included, routes, m, trips, route);
    forall k: nat, e | k < |trips|
      ensures (k in TripsOnMap(smc, lower, routes, trips, route) && Common(smc, lower, routes, m, trips, route, k)
                && e in PathEdges(Travel(trips[k], m)))
         <==> (Goes(smc, included, routes, trips[k], route) && Frequent(smc, included, routes, m, trips, route, k)
                && e in EdgeSetOf(trips[k], m))
    {
      SameContribution(smc, lower, routes, m, trips, route, k, e);
    }
  }
}
