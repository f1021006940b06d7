# Graph algorithms, service maps and the feed scheduler of Transiter

This project models the three parts of Transiter whose correctness is an
argument rather than plumbing, and proves what they are for.

**The graph package** (`internal/graph`). Graphs and trees are linked nodes on the
heap, as in the program. `NewGraph` links them, `SortBasic` is Kahn's algorithm
with a stack, `DepthFirstTraverse` is the iterative traversal with an explicit
stack, `NewTreeFromGraph` converts a graph, and `SortTree` sorts the children of
every node in place and lists the tree. The central result is the promise in
`SortTree`'s comment: among *all* topological orders of the tree, not only the
depth-first ones, its order has the least total edge length. The proof sees an
order as a game in which the first tree of a forest is taken and its kids join the
forest, bounds every such game from below, and shows that taking the lightest
subtree first meets the bound.

**Service maps** (`internal/servicemaps`). Static maps bucket the included trips of
every route by a stop-pattern key, keep the patterns that reach a threshold and
sort the union of their edges. Realtime maps group the rows of a query by trip.
The methods follow the loops of the program and are proved against declarative
specifications: which trips are on a route's map, which ways are travelled often
enough, and which edges that gives.

**The scheduler** (`internal/scheduler`). One root loop, a loop per system, a loop
per feed and a goroutine per running update share nothing but unbuffered channels.
`Scheduler` is a transition system: every loop has a program counter, a send and
its receive are one joint step, and ticks, the end of an update, client requests,
the answers of the other services and the cancellation of the root context are
steps of the environment. Every loop ever started keeps its instance number and
stays in the state after it has exited, so a loop that nobody tracks any more would
be visible. A response of the other services carries the configuration it found, and
the state records the last one about every system. Safety is proved for every state
of every run; single flight, quiescence, the absence of panics and the absence of
blocked loops each with the exact condition on the surroundings under which they
hold; and a measure on all loops shows that the work of a request or a shutdown ends.
What a request comes to is stated over runs together with their actions: from the list
and the answers that the other services gave in this request to what is scheduled,
what runs, and what the reply says.

## How to read it

| modules | what they hold |
|---|---|
| `Collections`, `Edges`, `Trees`, `OutTrees` | finite collections; edge lists, walks, cycles, topological orders; trees as values; rooted out-trees |
| `LinkedGraph`, `LinkedTree` | the linked nodes, `NewGraph`, `NewTreeFromGraph` |
| `Traverse`, `KahnOrder`, `SortBasic`, `KahnRecency` | the traversal, the graph sort and which label it takes next |
| `TreeCost`, `SortedTrees`, `SortTree` | the least cost of an order, the sorted tree, the in-place sort |
| `Decimal`, `SchedulingPolicy` | Go's numerals; the normalisation of a feed's policy |
| `Scheduler`, `SchedulerRuns` | states, steps and runs; runs in which only some actions happen |
| `SchedulerFrames`, `SchedulerInvariants`, `SchedulerControl` | what every step keeps: who holds whom, who waits for whom |
| `SchedulerSafety`, `SchedulerDuplicates`, `SchedulerFeeds` | single flight and quiescence, what they need, and which feeds get a loop that panics |
| `SchedulerResponses`, `SchedulerResets` | every system runs what the last response asks for; what a reset of all systems keeps |
| `SchedulerTraces`, `SchedulerRequests`, `SchedulerOneReset`, `SchedulerStatus` | runs with their actions; what each request comes to, from its arrival to the reply |
| `SchedulerTicks` | nothing that comes from outside is refused, and updates go on |
| `SchedulerProgress`, `SchedulerTermination` | no deadlock, what can block, every request is answered, the scheduler returns |
| `StopPatterns`, `StaticMaps`, `StaticMapMeaning` | trips, keys and edges; the static maps and what they mean |
| `BuildMap`, `RealtimeMaps` | from edges to stops; the realtime maps |

How the steps of `Scheduler` map to `internal/scheduler/scheduler.go`: `Listed`,
`NextSystem`, `AllHandled`, `SweepNext` and `SweepDone` are lines 170-191;
`Answered` is lines 131-162, with `ActiveFeeds` for the loop at 146-155; `SendReset` and `ResetDone` are the two halves of
`reset` (302-306); `StopDone` is the end of `stopScheduler` (121-130); `StatusNext`
to `StatusOver` are lines 194-200; `RootDone`, `ShutdownNext` and `Return` are lines
165-169. `SystemContextDone`, `CancelFeed`, `AllCancelled`, `WaitFor`, `Waited` and
`AllStopped` are lines 264-278; `StartFeed`, `FeedStarted` and `AllStarted` are lines
281-291 with `initComplete` (328-330, 351); the feed status steps are lines 292-297.
`Tick` and `IdleTick` are lines 361-369, `Finish` lines 370-376, `FeedContextDone` and
`Drain` lines 354-360.

## Hypotheses

* Feed IDs: the theorems on single flight and quiescence ask that no reset so far gave
  one ID to two feeds that get a loop; the state records that in `duplicates`
  (`internal/gen/api/admin.pb.go:822-823` asks for distinct IDs). `SingleFlightIffDistinct`
  and `QuietIffDistinct` show, for any set of configurations that may be found, that
  both properties need exactly this.
* Single flight is about updates the scheduler starts; the admin service can start
  others.
* Blocking: `NeverBlockedIff` says that no reachable state is blocked if and only if the
  surroundings neither cancel the root context nor let a client leave before its reply.
  `BusyMoves` is the sharper statement for one state: something can move unless a loop is
  sending to one that has exited, or the root loop is replying to a client that has left.
  Once that happens the root loop never moves again (`BlockedForGood`).
* Termination: `EveryStepWorks` and `WorkSettles` hold in every reachable state.
  `RequestIsAnswered` supposes that the root context is not cancelled and the client
  waits; `SchedulerReturns` supposes that the root context is cancelled while the root
  loop serves no request, and that it takes none afterwards.

## Where the code and its comments differ

* `NormalizeSchedulingPolicy` promises that the policy is NONE, PERIODIC or DAILY
  afterwards. A protobuf enum can hold any other number, and the switch leaves it alone.
* It promises a valid period for PERIODIC. A supplied period of zero or less is kept, a
  deprecated period below a millisecond becomes zero, and one beyond 292 years wraps
  around (`UnusablePeriodsStay` has inputs). `time.NewTicker`, which the periodic ticker
  ends in, panics on an interval that is not positive, and the feed loop panics on an
  undeclared policy. `NormalizedIsRunnable` says that a normalised feed has what its loop
  needs if and only if its configuration was `Usable`, and `NoPanicIffUsable` carries
  that to all runs.
* "Same key, same edges" fails if a stop without a station lies between two with one:
  the key joins its neighbours, the edge loop drops both edges.
  `UnknownStopBreaksThePattern` is such a pair of trips. As lists, a trip's edges are those
  along its stations if and only if no such stop exists (`EdgesFollowStations`); as sets,
  if and only if every two stations parted that way also follow each other directly
  somewhere on the trip (`EdgeSetFollowsStations`).
* The key reverses trips of direction true, the edges those of direction false, so the
  key is that of the way back (`SameKey`).

## Model

| member | source | states |
|---|---|---|
| LinkedGraph.NewGraph | internal/graph/types.go:66-87 | a fresh graph with a node for exactly the endpoints, whose out-nodes and in-nodes are the edges at its label, in order, parallel edges and self-loops included |
| SortBasic.SortBasic | internal/graph/sort.go:12-45 | succeeds if and only if the edges have no cycle; then lists every node once, sources before targets, in the order that the edge list determines; on failure returns nothing |
| SortBasic.Relax | internal/graph/sort.go:33-39 | the inner loop decrements the count of every out-node, once per parallel edge, and pushes exactly the labels freed by it, in order |
| SortBasic.InDegrees | internal/graph/sort.go:16-22 | counts every node's in-edges and collects exactly the labels without any |
| SortBasic.SortLabels | internal/graph/sort.go:23-25 | an ascending permutation |
| SortBasic.Stuck | internal/graph/sort.go:41-43 | when the stack is empty too early, a cycle exists among the unprocessed labels |
| SortBasic.Relaxable | internal/graph/sort.go:33-38 | a count that is decremented is positive, so it never goes below zero |
| KahnOrder.KahnOrderIsUnique | internal/graph/sort.go:17-40 | the order depends on the edge list only, not on the order in which the map of nodes is walked through |
| KahnRecency.MostRecentFirst | internal/graph/sort.go:23-40 | the label listed next is the one that became ready last; of those without in-edges the largest, of those that one label made ready the one with the last edge from it |
| Edges.OrderedIsAcyclic | internal/graph/sort.go:9 | a topological order rules out every cycle |
| Edges.NoSourceHasCycle | internal/graph/sort.go:9 | labels that all have a predecessor among themselves hold a cycle |
| Traverse.DepthFirstTraverse | internal/graph/traverse.go:11-48 | the loop with the stack of counters terminates and equals the recursive exploration, in both orders |
| Traverse.DfsIsReachability | internal/graph/traverse.go:10-48 | the result lists exactly the labels reachable from the root, each once, in both orders |
| Traverse.PostOrderTargetsFirst | internal/graph/traverse.go:29-34 | in post-order an edge's target comes before its source unless the target leads back to the source |
| Traverse.PreOrderSourcesFirst | internal/graph/traverse.go:26-28 | in pre-order the root is first and every other label has an in-node listed earlier |
| Traverse.DfsOnTree | internal/graph/traverse.go:10-48 | on a tree the traversals are the recursive pre-order and post-order |
| Traverse.SubtreeIsBlock | internal/graph/traverse.go:26-28 | in pre-order every subtree is one contiguous block headed by its root |
| LinkedTree.NewTreeFromGraph | internal/graph/types.go:126-180 | returns true if and only if the graph is a rooted out-tree; then the tree has exactly the graph's nodes, edges and child order, with parents and children agreeing |
| LinkedTree.FindSource | internal/graph/types.go:130-144 | finds the only node without in-edges, or reports that no out-tree is possible |
| LinkedTree.MakeNode | internal/graph/types.go:156-171 | makes the node of one label out of its children, becomes their parent, and fails at a child not made yet |
| LinkedTree.MakeNodes | internal/graph/types.go:153-172 | the loop from the end of the traversal makes every node; stopping early means there is no out-tree |
| LinkedTree.CountDecides | internal/graph/types.go:173-177 | counting nodes against edges decides whether the edges form an out-tree |
| OutTrees.OutTreeHasShape | internal/graph/types.go:126-180 | an out-tree is the drawing of one tree value, with its root, nodes and child order |
| SortTree.SortTree | internal/graph/sort.go:47-73 | returns the pre-order of the tree with the children of every node in order of subtree size and then of label, and leaves the tree with its children sorted in place |
| SortTree.WeighNodes | internal/graph/sort.go:51-59 | fills the weight map in traversal order |
| SortTree.WeighForest | internal/graph/sort.go:53-59 | because post-order lists children first, the weights are the true subtree sizes |
| SortTree.SortedByIsUnique | internal/graph/sort.go:63-70 | the comparison leaves one sorted order, so any sort by it gives the same children |
| SortTree.TreeOfGraphDraws | internal/graph/types.go:173-179 | a tree made from a graph draws a tree value with exactly the graph's nodes and edges, so SortTree applies to it |
| SortedTrees.SortedIsOptimal | internal/graph/sort.go:47-49 | the sorted tree's pre-order is topological and its total edge length is at most that of every topological order of the tree |
| SortedTrees.SortIsCanonical | internal/graph/sort.go:62-70 | trees that differ only in child order sort to the same tree |
| SortedTrees.SortIsIdempotent | internal/graph/sort.go:62-70 | sorting a sorted tree changes nothing |
| SortedTrees.SortedInOrder | internal/graph/sort.go:63-70 | of two children of a node of the sorted tree the earlier has fewer nodes below it, or as many and the smaller label |
| TreeCost.NoStepWins | internal/graph/sort.go:49 | whichever tree of a forest is taken first, the least cost of the rest pays for it |
| TreeCost.LowerBound | internal/graph/sort.go:49 | no listing of a forest costs less than its best cost |
| TreeCost.AscendingIsBest | internal/graph/sort.go:49 | listing the lightest subtree first meets the bound |
| BuildMap.BuildMap | internal/servicemaps/servicemaps.go:317-332 | success and the stops returned depend on the edge set only: no map if and only if it has a cycle, else every endpoint once in topological order |
| StopPatterns.ReverseInPlace | internal/servicemaps/servicemaps.go:409-413 | reverses the array in place |
| StopPatterns.CalculateTripKey | internal/servicemaps/servicemaps.go:215-234 | the key of the mapped stations, reversed in place for direction true |
| StopPatterns.KeyIsInjective | internal/servicemaps/servicemaps.go:229-233 | two lists of stations have the same key only if they are equal, negative numbers included |
| StopPatterns.SameKey | internal/servicemaps/servicemaps.go:215-234 | trips share a key if and only if they travel past the same stations in the same order |
| StopPatterns.TripEdges | internal/servicemaps/servicemaps.go:162-180 | the loop over neighbouring stops, with its direction and its two ways to skip |
| StopPatterns.EdgeMeaning | internal/servicemaps/servicemaps.go:162-180 | a trip's edges are those between neighbouring stops that both have a station, turned round exactly when its direction is false |
| StopPatterns.EdgesFollowStations | internal/servicemaps/servicemaps.go:162-180 | the list of edges follows the stations if and only if no stop without a station lies between two with one |
| StopPatterns.SameKeySameEdges | internal/servicemaps/servicemaps.go:160-181 | of two trips with one key, one without an unknown stop in between has the other's list of edges if and only if the other has none either |
| StopPatterns.EdgeSetFollowsStations | internal/servicemaps/servicemaps.go:160-181 | the edge set is that along the stations if and only if every two stations parted by unknown stops only also follow each other directly on the trip |
| StopPatterns.SameBucketSameEdgeSet | internal/servicemaps/servicemaps.go:160-181 | of two trips in one bucket, one of which gives the edges along its stations, the other gives the same edge set, across directions, if and only if it does so too |
| StopPatterns.UnknownStopBreaksThePattern | internal/servicemaps/servicemaps.go:168-175 | two trips with one key and different edges |
| StaticMaps.BuildIncludedServiceIDs | internal/servicemaps/servicemaps.go:277-315 | a service is included if and only if the first trip that has it says that it runs on an allowed day, or no days are given |
| StaticMaps.OwnServiceDecides | internal/servicemaps/servicemaps.go:271-276 | if trips agree on their services, a trip's service is included if and only if it runs on an allowed day itself |
| StaticMaps.CountPatterns | internal/servicemaps/servicemaps.go:147-182 | the trip loop counts every route's patterns and keeps the edges of the last trip of every pattern |
| StaticMaps.TotalCount | internal/servicemaps/servicemaps.go:188-191 | the sum over a route's patterns, in any order, is its number of included trips |
| StaticMaps.SelectEdges | internal/servicemaps/servicemaps.go:187-201 | the union of the edges of exactly the patterns that reach the threshold |
| StaticMaps.BuildStaticMaps | internal/servicemaps/servicemaps.go:144-213 | every known route gets a topological order of the edges of its retained patterns, or an empty map if they have a cycle |
| StaticMapMeaning.ShowsCommonEdges | internal/servicemaps/servicemaps.go:144-213 | if services agree and every trip gives the edges along its stations, as it does without unknown stops in between, those edges are the edges along the trips that say their direction, run on a given day and keep the given hours, and whose way is travelled by at least threshold times those trips of the route |
| StaticMapMeaning.OnMapMeaning | internal/servicemaps/servicemaps.go:236-269 | the conditions for a trip in plain terms: its direction, its days by name, and its first and last arrivals against the limits in hours |
| StaticMapMeaning.WholeHoursDecide | internal/servicemaps/servicemaps.go:246-269 | with limits in whole hours a trip is on the map exactly when its first and last arrivals keep every limit that is given, limits included; absent limits exclude nothing |
| StaticMaps.TotalCountsTrips | internal/servicemaps/servicemaps.go:161-161 | a route's pattern counts add up to its number of included trips |
| StaticMaps.ThresholdBound | internal/servicemaps/servicemaps.go:187-196 | with threshold t > 0 a route with included trips retains k patterns with k * t <= 1 |
| RealtimeMaps.GetTripStopPks | internal/servicemaps/servicemaps.go:377-407 | one list of stops per run of rows of a trip, reversed exactly when its direction is false |
| RealtimeMaps.GroupsAreTheRuns | internal/servicemaps/servicemaps.go:386-406 | the grouping is the only cut of the rows into runs of one trip whose neighbours differ; no row is lost, added or moved |
| RealtimeMaps.ContiguousTripsAreGroups | internal/servicemaps/servicemaps.go:386-406 | if every trip's rows are contiguous there is one group per trip, holding all its rows in order |
| RealtimeMaps.BuildRealtimeMapEdges | internal/servicemaps/servicemaps.go:415-427 | the edges along the stations of every list, an unknown stop counting as station 0 |
| RealtimeMaps.RealtimeEdgeMeaning | internal/servicemaps/servicemaps.go:377-427 | if neighbouring rows of a trip agree on its direction, there is one edge for every two neighbouring rows of one trip, turned round exactly when the direction is false, and no other |
| RealtimeMaps.StaticRealtimeAgree | internal/servicemaps/servicemaps.go:377-427 | for a trip whose stops all have a station the realtime edges equal the static edges of its direction |
| RealtimeMaps.RealtimeMap | internal/servicemaps/servicemaps.go:341-367 | a route's realtime map is a topological order of the endpoints of its trips' edges, or none if they go in circles; the station of a trip with one stop only is not among them |
| SchedulingPolicy.FeedConfig.NormalizeSchedulingPolicy | internal/scheduler/scheduler.go:450-509 | writes exactly the normalised fields into the feed configuration |
| SchedulingPolicy.TypeIsSettled | internal/update/update.go:35-44 | afterwards there is a type unless there was neither type nor parser, and the feed says whether it is required; nothing changes if and only if both were so; a second time changes nothing |
| SchedulingPolicy.NormalizedIsRunnable | internal/scheduler/scheduler.go:437-449 | the policy is never DEFAULT afterwards, and a feed that is not NONE has what its loop needs if and only if its policy was a declared one and, if that makes it periodic, its period is usable or absent |
| SchedulingPolicy.PeriodIsFilledIn | internal/scheduler/scheduler.go:452-468 | a feed that becomes periodic without a period gets 5000 milliseconds, or the deprecated seconds as milliseconds, fractions dropped |
| SchedulingPolicy.TimeIsFilledIn | internal/scheduler/scheduler.go:469-481 | a daily feed at position p without a usable time gets one that reads as hour 3 + p / 6 and minute 10 * (p % 6) |
| SchedulingPolicy.TimeIsPadded | internal/scheduler/scheduler.go:480-480 | that time is written as two digits, a colon and two digits |
| SchedulingPolicy.ZoneIsFilledIn | internal/scheduler/scheduler.go:483-507 | and without a usable timezone the first one of an agency that can be loaded, else UTC |
| SchedulingPolicy.UnusablePeriodsStay | internal/scheduler/scheduler.go:460-468 | inputs for which the period is not valid afterwards: zero, a negative one, and 0.0004 seconds |
| SchedulingPolicy.NormalizedIsNormal | internal/scheduler/scheduler.go:437-509 | the result is in normal form, and the configuration stays as it is if and only if it was |
| SchedulingPolicy.NormalizedIsIdempotent | internal/scheduler/scheduler.go:437-509 | normalising again changes nothing, at any position and with any agencies |
| SchedulingPolicy.FirstKnown | internal/scheduler/scheduler.go:492-505 | the first agency's timezone that is known, else UTC |
| SchedulingPolicy.ParseMeaning | internal/scheduler/scheduler.go:511-525 | a time parses exactly when it is two numerals around one colon, with any white space around each |
| SchedulingPolicy.TrimMeaning | internal/scheduler/scheduler.go:516-520 | trimming takes the white space, by code points, off both ends and nothing else |
| Decimal.AtoiMeaning | internal/scheduler/scheduler.go:516-523 | a string reads as a number exactly when it is digits with an optional sign and the number is an int64 |
| SchedulingPolicy.DefaultTimeParses | internal/scheduler/scheduler.go:478-480 | the default time reads back as its hour and minute |
| SchedulingPolicy.SplitJoin | internal/scheduler/scheduler.go:512-512 | splitting at a separator loses nothing and leaves no separator in a piece |
| SchedulingPolicy.ActiveFeedsMeaning | internal/scheduler/scheduler.go:146-155 | a reset passes on exactly the normal forms of the feeds whose policy is not NONE |
| SchedulingPolicy.NothingActive | internal/scheduler/scheduler.go:156-160 | nothing is passed on if and only if every feed's policy is NONE |
| SchedulingPolicy.CollectActiveFeeds | internal/scheduler/scheduler.go:146-155 | the loop normalises every feed in place, at its position, and collects those that are not NONE, in order |
| SchedulingPolicy.ActiveFeedsAreRunnable | internal/scheduler/scheduler.go:146-155 | every feed passed on has what its loop needs if and only if every feed that is not NONE was configured in a usable way |
| SchedulerInvariants.NextKeepsHolding | internal/scheduler/scheduler.go:99-387 | every step keeps: the registry and the living system loops name each other, every living feed loop is held by its system loop, every outstanding update belongs to a feed loop that knows about it |
| SchedulerControl.NextKeepsControl | internal/scheduler/scheduler.go:99-387 | every step keeps: waits go from root to system to feed to update only, and a cancelled loop is being waited for |
| SchedulerControl.ReachableInv | internal/scheduler/scheduler.go:99-387 | the invariants hold in every state of every run |
| SchedulerSafety.SingleFlight | internal/scheduler/scheduler.go:3-5 | in every reachable state a feed of a system has at most one update in flight |
| SchedulerSafety.EveryUpdateHasAFeed | internal/scheduler/scheduler.go:366-369 | every outstanding update is that of some feed of some system |
| SchedulerSafety.FlagIsTrue | internal/scheduler/scheduler.go:349-376 | updateRunning is true exactly while an update is outstanding, and a feed loop that has exited left no result unreceived |
| SchedulerTicks.TickStarts | internal/scheduler/scheduler.go:361-369 | however many updates a feed loop has had, if none is out the next tick starts exactly one, and nothing else changes |
| SchedulerTicks.TickWaits | internal/scheduler/scheduler.go:361-364 | while one is out a tick is taken and changes nothing |
| SchedulerTicks.UpdatesGoOn | internal/scheduler/scheduler.go:361-376 | from every reachable state with a resting feed loop some run brings it any number of further updates and back to rest |
| SchedulerTicks.NothingIsRefused | internal/scheduler/scheduler.go:163-200 | in every reachable state every request, list, answer, tick, end of an update, cancellation and departure of a client is taken where it can come |
| SchedulerSafety.NextAdvances | internal/scheduler/scheduler.go:366-376 | no step forgets an update, moves it to another feed or takes its result back |
| SchedulerSafety.ReceivedOnce | internal/scheduler/scheduler.go:354-376 | in a run the result of an update is received at most once |
| SchedulerSafety.ExitedIsQuiet | internal/scheduler/scheduler.go:275-278 | once a system's done is closed, no feed loop and no update under it remains |
| SchedulerSafety.UnregisteredIsQuiet | internal/scheduler/scheduler.go:121-130 | nothing lives under a name that is not scheduled |
| SchedulerSafety.StopIsQuiet | internal/scheduler/scheduler.go:121-130 | when stopScheduler returns nothing is left of the system |
| SchedulerSafety.ReturnedIsQuiet | internal/scheduler/scheduler.go:164-169 | when the root loop returns every loop has exited and every update is over |
| SchedulerSafety.RestartIsQuiet | internal/scheduler/scheduler.go:279-291 | a reset starts its first feed loop only when every old one is over, and later only new ones live |
| SchedulerDuplicates.SingleFlightIffDistinct | internal/scheduler/scheduler.go:281-290 | whatever configurations may be found, single flight holds in every run if and only if none of them gives one ID to two feeds that get a loop |
| SchedulerDuplicates.QuietIffDistinct | internal/scheduler/scheduler.go:264-278 | the same condition decides whether a closed done leaves nothing behind: the loop of an ID's first feed is forgotten and survives |
| SchedulerFeeds.NoPanicIffUsable | internal/scheduler/scheduler.go:334-345 | whatever configurations may be found, in every run every feed loop has a policy and an interval, or time and timezone, that it can run with, if and only if every feed of them that is not NONE is usable |
| SchedulerResponses.NextKeepsResponses | internal/scheduler/scheduler.go:131-162 | every step keeps: a scheduled system was reset to the feeds that the last response about it asks for, unless the root loop has a new one in hand |
| SchedulerResets.NextKeepsResetInv | internal/scheduler/scheduler.go:170-191 | every step of a reset-all keeps what the handled systems were left with |
| SchedulerRequests.ResetAllOutcome | internal/scheduler/scheduler.go:170-191 | from the list the other service gave: its systems are asked about in order up to the first error; the reply is an error exactly when there was one; exactly the systems whose last answer has a feed that is not NONE are scheduled, each running the normal forms of exactly those feeds with that answer's agencies |
| SchedulerRequests.FailedListing | internal/scheduler/scheduler.go:172-176 | if the systems cannot be listed, the reply is an error and no system is stopped or reset |
| SchedulerOneReset.ResetOutcome | internal/scheduler/scheduler.go:131-162 | a reset of one system asks about it once; the reply is an error exactly when the answer was, and then nothing has changed; else the system is scheduled exactly if the answer has a feed that is not NONE; the other entries stay |
| SchedulerOneReset.ResetRunsAnswer | internal/scheduler/scheduler.go:146-160 | and if it is scheduled, it runs exactly the normal forms of those feeds |
| SchedulerOneReset.OthersGoOn | internal/scheduler/scheduler.go:192-193 | without cancellation the loops of the other systems keep their feeds and feed loops throughout |
| SchedulerStatus.StatusOutcome | internal/scheduler/scheduler.go:194-200 | a status request asks every feed loop that ran under a scheduled system when it came, each once, and no other |
| SchedulerStatus.ReplyIsTrue | internal/scheduler/scheduler.go:377-384 | every reply is about a feed loop of that system, with its configuration, and says that an update is running exactly if one is out |
| SchedulerStatus.HadAreWanted | internal/scheduler/scheduler.go:281-290 | between requests the feeds that run under a system are those that the last answer about it asks for |
| SchedulerResets.IdleRunsAsAsked | internal/scheduler/scheduler.go:131-162 | between requests of any kind every scheduled system runs exactly the feeds that the last response about it asks for |
| SchedulerResets.IdleRunsExactly | internal/scheduler/scheduler.go:259-300 | between requests every scheduled system runs exactly the feeds it was last reset to, one loop each |
| SchedulerProgress.NoDeadlock | internal/scheduler/scheduler.go:104-130 | uncancelled and with waiting clients, whenever a loop is mid-request some loop can move or an update can end |
| SchedulerProgress.BusyMoves | internal/scheduler/scheduler.go:264-312 | the same with no hypothesis but that nobody sends to a loop or client that is gone |
| SchedulerProgress.NeverBlockedIff | internal/scheduler/scheduler.go:163-213 | no reachable state is blocked if and only if the root context is not cancelled and no client leaves before its reply |
| SchedulerProgress.BlockedOnlyByCancelling | internal/scheduler/scheduler.go:302-312 | a send without a partner needs a cancelled root context or a client that left |
| SchedulerProgress.BlockedForGood | internal/scheduler/scheduler.go:302-312 | a blocked root loop never moves again |
| SchedulerProgress.CancellingCanBlock | internal/scheduler/scheduler.go:302-306 | for every first system with something to update, a run in which its new loop exits before its reset message arrives while the client waits |
| SchedulerProgress.LeavingCanBlock | internal/scheduler/scheduler.go:204-213 | a run in which the client leaves before its reply |
| SchedulerTermination.EveryStepWorks | internal/scheduler/scheduler.go:163-387 | in every reachable state every step of a loop and every end of an update takes from the work that is left, and nothing else but a request adds more than results to receive |
| SchedulerTermination.WorkSettles | internal/scheduler/scheduler.go:163-387 | from every reachable state the loops' own steps and the ends of updates come to a state in which none is possible |
| SchedulerTermination.SettledMeans | internal/scheduler/scheduler.go:163-387 | in such a state a loop is blocked, the root loop has returned, or it waits for a request and the root context is not cancelled |
| SchedulerTermination.RequestIsAnswered | internal/scheduler/scheduler.go:163-387 | uncancelled and with a waiting client, in whatever order the loops take their steps they settle only after the reply |
| SchedulerTermination.StepKeepsQuits | internal/scheduler/scheduler.go:164-169 | if the root context is cancelled while the root loop serves no request, only a new request can change that |
| SchedulerTermination.SchedulerReturns | internal/scheduler/scheduler.go:164-169 | from there no loop is ever blocked, and in whatever order the loops take their steps they settle only when the root loop has returned |

## Left out

- SortTree.SortTree: takes the tree with its map of labels, where the program takes the root node; the labels of the nodes reachable from the root are unique in every tree that `NewTreeFromGraph` returns.
- Traverse.DepthFirstTraverse: reads its nodes through a snapshot of the `Node` interface, a map from labels to lists of labels, because the program's traversal never changes a node; the methods of `SortTree` and `NewTreeFromGraph` take the snapshot from the heap.
- SortBasic.SortLabels: stands for `sort.Slice`, of which only sortedness and permutation are used; the same goes for the children of a node.
- SchedulingPolicy.FeedConfig.NormalizeSchedulingPolicy: `time.LoadLocation` is a parameter that accepts "UTC"; the theorems about default times suppose that 180 plus ten times the position is an int64; conversions of the period from seconds to an int64 are over reals and do not overflow, while the product with a millisecond wraps around as it does in Go.
- StaticMaps.BuildStaticMaps: threshold and hours are reals, without rounding and overflow; `strings.ToLower` is a parameter; log messages are dropped.
- RealtimeMaps.GetTripStopPks: the rows of the query are a parameter, the error of a query that fails is not modelled.
- SchedulerProgress.NoDeadlock: says that some step is possible, not that Go's `select` takes it; fairness of `select` is not modelled.
- SchedulerTermination.RequestIsAnswered: has the same limit, and so has SchedulerReturns; endless ticks could starve a loop, and `select` may prefer a request to the cancelled root context.
- SchedulerFeeds.NoPanicIffUsable: a run of the model goes on after a loop that would panic has started, where the program stops; the condition is about all loops ever started, so it is the same. The periodic ticker draws its first wait at random (internal/scheduler/ticker/ticker.go:51-54), and the wait can round to zero for any period; randomness and the daily ticker's clock are not modelled.
- The scheduler's loops are steps on values, not methods: goroutines, channels and contexts of Go are not modelled as objects.
- SchedulerStatus.StatusOutcome: the list of replies is read off the run, not kept in the state; the times of the last updates, which no other step reads, are left out, and so is the sorting of the reply for the client.
- RealtimeMaps.RealtimeEdgeMeaning: supposes that the rows of a trip agree on its direction, which the query takes from the trip (db/queries/servicemap_queries.sql:34-41).
- Tickers: a tick may come at any time, whatever the interval. That `t.Stop()` follows the closing of `done` is not modelled.
- What `UpdateFeed` does, and updates started by the admin service.
- The list of systems may name a system twice; the last handling then counts. Systems in a list that the program would never produce are not ruled out.
- `UpdateConfig`, `persistMap`, `ListConfigsInSystem` and all SQL; storing the maps; the loop that collects the stops for the station query (internal/servicemaps/servicemaps.go:346-356).
- `EdgeSetsEqual` and the one-line accessors of nodes, which would add easy members only.
- Labels and keys are unbounded integers; the program copies and compares them and never computes with them.
