/** The scheduler as a transition system.

    The root loop, one loop per system, one loop per feed and one goroutine per
    running update share nothing but unbuffered channels, so a send and its
    receive are one joint step. Every loop that was ever started keeps its own
    instance number and stays in the state after it has exited, so that a loop
    nobody tracks any more would be visible. Ticks, the end of an update, client
    requests, the answers of the other services and the cancellation of the root
    context are steps of the environment. */
module Scheduler {
  import opened SchedulingPolicy

  type SystemId = string
  type FeedId = string

  // ------------------------------------------------------------------- updates

  // In flight, blocked on sending its result, or received by its feed loop.
  datatype UpdateState = Flying | Sending | Received

  datatype Update = Update(feed: nat, state: UpdateState)

  // ---------------------------------------------------------------- feed loops

  datatype FeedPc =
    | FStarting      // about to report that its initialisation is complete
    | FSelect        // at the select statement
    | FReplying      // received a status request, about to reply
    | FDraining      // context done, waiting for the running update
    | FExited        // done is closed

  datatype Feed = Feed(parent: nat, config: Config, cancelled: bool, pc: FeedPc, updateRunning: bool)

  // -------------------------------------------------------------- system loops

  // What stopFeedSchedulers was called for.
  datatype Then = Restart | Exit

  datatype SystemPc =
    | SSelect
    | SCancelling(todo: set<FeedId>, next: Then)       // first loop of stopFeedSchedulers
    | SStopping(next: Then)                            // second loop of stopFeedSchedulers
    | SWaiting(id: FeedId, next: Then)                 // blocked on a feed loop's done
    | SStartFeeds(k: nat)                              // about to start target[k]
    | SStartingFeed(k: nat, feed: nat)                 // blocked on initComplete
    | SReplyReset
    | SStatus(todo: set<FeedId>)
    | SStatusSend(id: FeedId, todo: set<FeedId>)
    | SStatusAwait(id: FeedId, todo: set<FeedId>)
    | SReplyStatus
    | SExited                                          // done is closed

  // The last reset request asked for the target feeds.
  datatype System = System(name: SystemId, cancelled: bool, pc: SystemPc, feeds: map<FeedId, nat>, target: seq<Config>)

  // ------------------------------------------------------------- the root loop

  // A reset-all that is under way or over: what was listed, and what each system
  // handled so far was reset to; [] stands for a system that was stopped.
  datatype ResetAll = ResetAll(listed: seq<SystemId>, handled: map<SystemId, seq<Config>>)

  // Where resetSystem or stopScheduler returns to.
  datatype Caller =
    | One
    | All(todo: seq<SystemId>, all: ResetAll)
    | Sweep(rest: set<SystemId>, sweptAll: ResetAll, ok: bool)
    | Shutdown(left: set<SystemId>)

  datatype Reply =
    | ResetAllReply(all: ResetAll, ok: bool)
    | ListFailed
    | ResetReply(name: SystemId, ok: bool)
    | StatusReply

  datatype RootPc =
    | RSelect
    | RListing
    | RNext(todo: seq<SystemId>, all: ResetAll)
    | RConfig(name: SystemId, caller: Caller)                      // in resetSystem
    | RSendReset(name: SystemId, feeds: seq<Config>, caller: Caller)   // sending the reset message
    | RAwaitReset(name: SystemId, feeds: seq<Config>, caller: Caller)  // waiting for its reply
    | RAwaitDone(name: SystemId, caller: Caller)                   // in stopScheduler, after cancelling
    | RSweep(left: set<SystemId>, all: ResetAll, ok: bool)
    | RReplying(reply: Reply)
    | RStatus(left: set<SystemId>)
    | RStatusSend(name: SystemId, left: set<SystemId>)
    | RStatusAwait(name: SystemId, left: set<SystemId>)
    | RShutdown(left: set<SystemId>)
    | RReturned

  datatype State = State(
    rootCancelled: bool,                  // the root context is done
    clientWaits: bool,                    // the client of the current request still waits for its reply
    duplicates: bool,                     // some configuration listed a feed ID twice
    root: RootPc,
    registry: map<SystemId, nat>,         // systemSchedulers
    systems: map<nat, System>,
    feeds: map<nat, Feed>,
    updates: map<nat, Update>,
    responses: map<SystemId, Response>)   // the last response about every system that was no error

  const INITIAL: State := State(false, false, false, RSelect, map[], map[], map[], map[], map[])

  // ------------------------------------------------------------------ contexts

  predicate SystemDone(s: State, i: nat)
    requires i in s.systems
  {
    s.rootCancelled || s.systems[i].cancelled
  }

  predicate FeedDone(s: State, f: nat)
    requires f in s.feeds && s.feeds[f].parent in s.systems
  {
    s.feeds[f].cancelled || SystemDone(s, s.feeds[f].parent)
  }

  predicate DistinctIds(feeds: seq<Config>) {
    forall i, j :: 0 <= i < j < |feeds| ==> feeds[i].id != feeds[j].id
  }

  // ------------------------------------------------------------------- answers

  // What GetSystemConfig and ListAgencies respond: an error, that there is no such
  // system, or its feeds and the timezones of its agencies. The timezones that can be
  // loaded when the feeds are normalised come with it.
  datatype Response =
    | Unavailable
    | NotFound
    | Found(config: seq<Config>, agencies: seq<string>, known: Zones)

  predicate Sensible(response: Response) {
    response.Found? ==> response.known("UTC")
  }

  // The feeds that the response asks to be scheduled.
  function Asked(response: Response): seq<Config>
    requires Sensible(response)
  {
    if response.Found? then ActiveFeeds(response.config, response.agencies, response.known) else []
  }

  // What a response comes to: an error, or the feeds to schedule, if any.
  datatype Answer = Failed | Active(feeds: seq<Config>)

  function AnswerOf(response: Response): Answer
    requires Sensible(response)
  {
    if response.Unavailable? then Failed else Active(Asked(response))
  }

  // -------------------------------------------------------------------- actions

  datatype Action =
    // environment
    | CancelRoot
    | ClientLeaves
    | RequestResetAll
    | RequestReset(name: SystemId)
    | RequestStatus
    | IdleTick(f: nat)
    | Tick(f: nat, u: nat)
    | UpdateEnds(u: nat)
    // root loop
    | Listed(names: seq<SystemId>)
    | ListingFails
    | NextSystem
    | AllHandled
    | Answered(response: Response, i: nat)
    | SendReset
    | ResetDone
    | StopDone
    | SweepNext(name: SystemId)
    | SweepDone
    | StatusNext(name: SystemId)
    | SendStatus
    | StatusDone
    | StatusOver
    | RootReply
    | RootDone
    | ShutdownNext(name: SystemId)
    | Return
    // system loops
    | SystemContextDone(i: nat)
    | CancelFeed(i: nat, id: FeedId)
    | AllCancelled(i: nat)
    | WaitFor(i: nat, id: FeedId)
    | Waited(i: nat)
    | AllStopped(i: nat)
    | StartFeed(i: nat, f: nat)
    | FeedStarted(i: nat)
    | AllStarted(i: nat)
    | FeedStatusNext(i: nat, id: FeedId)
    | SendFeedStatus(i: nat)
    | FeedStatusDone(i: nat)
    | FeedStatusOver(i: nat)
    // feed loops
    | FeedContextDone(f: nat)
    | Finish(f: nat, u: nat)
    | Drain(f: nat, u: nat)

  // --------------------------------------------------------------- root helpers

  // resetSystem returned without an error, having reset the system to these feeds.
  function Handled(name: SystemId, feeds: seq<Config>, caller: Caller): RootPc {
    match caller
    case One => RReplying(ResetReply(name, true))
    case All(todo, all) => RNext(todo, all.(handled := all.handled[name := feeds]))
    case Sweep(rest, all, ok) => RSweep(rest, all, ok)
    case Shutdown(left) => RShutdown(left)
  }

  // resetSystem returned an error.
  function HandledWithError(s: State, name: SystemId, caller: Caller): RootPc {
    match caller
    case All(todo, all) => RSweep(s.registry.Keys, all, false)
    case _ => RReplying(ResetReply(name, false))
  }

  // stopScheduler, up to the point where it waits.
  function Stopping(s: State, name: SystemId, caller: Caller): State
    requires name in s.registry ==> s.registry[name] in s.systems
  {
    if name !in s.registry then s.(root := Handled(name, [], caller))
    else
      var i := s.registry[name];
      s.(root := RAwaitDone(name, caller), systems := s.systems[i := s.systems[i].(cancelled := true)])
  }

  // ------------------------------------------------------------------ the steps

  predicate EnvEnabled(s: State, a: Action) {
    match a
    case CancelRoot => !s.rootCancelled
    case ClientLeaves => s.clientWaits
    case RequestResetAll => s.root.RSelect?
    case RequestReset(_) => s.root.RSelect?
    case RequestStatus => s.root.RSelect?
    case IdleTick(f) => f in s.feeds && s.feeds[f].pc == FSelect && s.feeds[f].updateRunning
    case Tick(f, u) => f in s.feeds && s.feeds[f].pc == FSelect && !s.feeds[f].updateRunning && u !in s.updates
    case UpdateEnds(u) => u in s.updates && s.updates[u].state == Flying
    case _ => false
  }

  function EnvApply(s: State, a: Action): State
    requires EnvEnabled(s, a)
  {
    match a
    case CancelRoot => s.(rootCancelled := true)
    case ClientLeaves => s.(clientWaits := false)
    case RequestResetAll => s.(root := RListing, clientWaits := true)
    case RequestReset(name) => s.(root := RConfig(name, One), clientWaits := true)
    case RequestStatus => s.(root := RStatus(s.registry.Keys), clientWaits := true)
    case IdleTick(_) => s
    case Tick(f, u) =>
      s.(feeds := s.feeds[f := s.feeds[f].(updateRunning := true)], updates := s.updates[u := Update(f, Flying)])
    case UpdateEnds(u) => s.(updates := s.updates[u := s.updates[u].(state := Sending)])
  }

  // The system loop that the registry holds for a name is at the given point.
  predicate At(s: State, name: SystemId, pc: SystemPc) {
    name in s.registry && s.registry[name] in s.systems && s.systems[s.registry[name]].pc == pc
  }

  function Move(s: State, i: nat, pc: SystemPc): State
    requires i in s.systems
  {
    s.(systems := s.systems[i := s.systems[i].(pc := pc)])
  }

  // In resetSystem; i is not the number of any system loop.
  predicate AnswerEnabled(s: State, i: nat) {
    && s.root.RConfig?
    && i !in s.systems
    && (s.root.name in s.registry ==> s.registry[s.root.name] in s.systems)
  }

  predicate RootEnabled(s: State, a: Action) {
    match a
    case Listed(_) => s.root.RListing?
    case ListingFails => s.root.RListing?
    case NextSystem => s.root.RNext? && s.root.todo != []
    case AllHandled => s.root.RNext? && s.root.todo == []
    case Answered(response, i) => AnswerEnabled(s, i) && Sensible(response)
    case SendReset => s.root.RSendReset? && At(s, s.root.name, SSelect)
    case ResetDone => s.root.RAwaitReset? && At(s, s.root.name, SReplyReset)
    case StopDone => s.root.RAwaitDone? && At(s, s.root.name, SExited)
    case SweepNext(name) =>
      && s.root.RSweep? && name in s.root.left
      && (name in s.registry ==> s.registry[name] in s.systems)
    case SweepDone => s.root.RSweep? && s.root.left == {}
    case StatusNext(name) => s.root.RStatus? && name in s.root.left
    case SendStatus => s.root.RStatusSend? && At(s, s.root.name, SSelect)
    case StatusDone => s.root.RStatusAwait? && At(s, s.root.name, SReplyStatus)
    case StatusOver => s.root.RStatus? && s.root.left == {}
    case RootReply => s.root.RReplying? && s.clientWaits
    case RootDone => s.root.RSelect? && s.rootCancelled
    case ShutdownNext(name) =>
      && s.root.RShutdown? && name in s.root.left
      && (name in s.registry ==> s.registry[name] in s.systems)
    case Return => s.root.RShutdown? && s.root.left == {}
    case _ => false
  }

  function RootApply(s: State, a: Action): State
    requires RootEnabled(s, a)
  {
    match a
    case Listed(names) => s.(root := RNext(names, ResetAll(names, map[])))
    case ListingFails => s.(root := RReplying(ListFailed))
    case NextSystem => s.(root := RConfig(s.root.todo[0], All(s.root.todo[1..], s.root.all)))
    case AllHandled => s.(root := RSweep(s.registry.Keys, s.root.all, true))
    case Answered(response, i) =>
      AnswerApply(s, AnswerOf(response), i).(responses :=
        if response.Unavailable? then s.responses else s.responses[s.root.name := response])
    case SendReset =>
      var i := s.registry[s.root.name];
      var y := s.systems[i];
      s.(root := RAwaitReset(s.root.name, s.root.feeds, s.root.caller),
         systems := s.systems[i := y.(pc := SCancelling(y.feeds.Keys, Restart), target := s.root.feeds)])
    case ResetDone =>
      Move(s, s.registry[s.root.name], SSelect).(root := Handled(s.root.name, s.root.feeds, s.root.caller))
    case StopDone => s.(root := Handled(s.root.name, [], s.root.caller), registry := s.registry - {s.root.name})
    case SweepNext(name) =>
      if name in s.root.all.handled then s.(root := RSweep(s.root.left - {name}, s.root.all, s.root.ok))
      else Stopping(s, name, Sweep(s.root.left - {name}, s.root.all, s.root.ok))
    case SweepDone => s.(root := RReplying(ResetAllReply(s.root.all, s.root.ok)))
    case StatusNext(name) => s.(root := RStatusSend(name, s.root.left - {name}))
    case SendStatus =>
      var i := s.registry[s.root.name];
      Move(s, i, SStatus(s.systems[i].feeds.Keys)).(root := RStatusAwait(s.root.name, s.root.left))
    case StatusDone => Move(s, s.registry[s.root.name], SSelect).(root := RStatus(s.root.left))
    case StatusOver => s.(root := RReplying(StatusReply))
    case RootReply => s.(root := RSelect, clientWaits := false)
    case RootDone => s.(root := RShutdown(s.registry.Keys))
    case ShutdownNext(name) => Stopping(s, name, Shutdown(s.root.left - {name}))
    case Return => s.(root := RReturned)
  }

  // resetSystem once the services have answered; i numbers a new system loop.
  function AnswerApply(s: State, answer: Answer, i: nat): State
    requires AnswerEnabled(s, i)
  {
    var name, caller := s.root.name, s.root.caller;
    match answer
    case Failed => s.(root := HandledWithError(s, name, caller))
    case Active(feeds) =>
      if feeds == [] then Stopping(s, name, caller)
      else
        var s1 := s.(root := RSendReset(name, feeds, caller), duplicates := s.duplicates || !DistinctIds(feeds));
        if name in s.registry then s1
        else s1.(registry := s.registry[name := i],
                 systems := s.systems[i := System(name, false, SSelect, map[], [])])
  }

  predicate SystemEnabled(s: State, a: Action) {
    match a
    case SystemContextDone(i) => i in s.systems && s.systems[i].pc == SSelect && SystemDone(s, i)
    case CancelFeed(i, id) =>
      && i in s.systems && s.systems[i].pc.SCancelling? && id in s.systems[i].pc.todo
      && id in s.systems[i].feeds && s.systems[i].feeds[id] in s.feeds
    case AllCancelled(i) => i in s.systems && s.systems[i].pc.SCancelling? && s.systems[i].pc.todo == {}
    case WaitFor(i, id) => i in s.systems && s.systems[i].pc.SStopping? && id in s.systems[i].feeds
    case Waited(i) =>
      && i in s.systems && s.systems[i].pc.SWaiting?
      && FeedAt(s, i, s.systems[i].pc.id, FExited)
    case AllStopped(i) => i in s.systems && s.systems[i].pc.SStopping? && s.systems[i].feeds == map[]
    case StartFeed(i, f) =>
      && i in s.systems && s.systems[i].pc.SStartFeeds? && s.systems[i].pc.k < |s.systems[i].target|
      && f !in s.feeds
    case FeedStarted(i) =>
      && i in s.systems && s.systems[i].pc.SStartingFeed? && s.systems[i].pc.k < |s.systems[i].target|
      && s.systems[i].pc.feed in s.feeds && s.feeds[s.systems[i].pc.feed].pc == FStarting
    case AllStarted(i) => i in s.systems && s.systems[i].pc.SStartFeeds? && s.systems[i].pc.k >= |s.systems[i].target|
    case FeedStatusNext(i, id) => i in s.systems && s.systems[i].pc.SStatus? && id in s.systems[i].pc.todo
    case SendFeedStatus(i) =>
      && i in s.systems && s.systems[i].pc.SStatusSend?
      && FeedAt(s, i, s.systems[i].pc.id, FSelect)
    case FeedStatusDone(i) =>
      && i in s.systems && s.systems[i].pc.SStatusAwait?
      && FeedAt(s, i, s.systems[i].pc.id, FReplying)
    case FeedStatusOver(i) => i in s.systems && s.systems[i].pc.SStatus? && s.systems[i].pc.todo == {}
    case _ => false
  }

  predicate FeedAt(s: State, i: nat, id: FeedId, pc: FeedPc)
    requires i in s.systems
  {
    id in s.systems[i].feeds && s.systems[i].feeds[id] in s.feeds && s.feeds[s.systems[i].feeds[id]].pc == pc
  }

  function MoveFeed(s: State, f: nat, pc: FeedPc): State
    requires f in s.feeds
  {
    s.(feeds := s.feeds[f := s.feeds[f].(pc := pc)])
  }

  function SystemApply(s: State, a: Action): State
    requires SystemEnabled(s, a)
  {
    match a
    case SystemContextDone(i) => Move(s, i, SCancelling(s.systems[i].feeds.Keys, Exit))
    case CancelFeed(i, id) =>
      var y := s.systems[i];
      var f := y.feeds[id];
      Move(s, i, SCancelling(y.pc.todo - {id}, y.pc.next)).(feeds := s.feeds[f := s.feeds[f].(cancelled := true)])
    case AllCancelled(i) => Move(s, i, SStopping(s.systems[i].pc.next))
    case WaitFor(i, id) => Move(s, i, SWaiting(id, s.systems[i].pc.next))
    case Waited(i) =>
      var y := s.systems[i];
      s.(systems := s.systems[i := y.(pc := SStopping(y.pc.next), feeds := y.feeds - {y.pc.id})])
    case AllStopped(i) => Move(s, i, if s.systems[i].pc.next == Exit then SExited else SStartFeeds(0))
    case StartFeed(i, f) =>
      var k := s.systems[i].pc.k;
      Move(s, i, SStartingFeed(k, f)).(feeds := s.feeds[f := Feed(i, s.systems[i].target[k], false, FStarting, false)])
    case FeedStarted(i) =>
      var y := s.systems[i];
      var f := y.pc.feed;
      s.(systems := s.systems[i := y.(pc := SStartFeeds(y.pc.k + 1), feeds := y.feeds[y.target[y.pc.k].id := f])],
         feeds := s.feeds[f := s.feeds[f].(pc := FSelect)])
    case AllStarted(i) => Move(s, i, SReplyReset)
    case FeedStatusNext(i, id) => Move(s, i, SStatusSend(id, s.systems[i].pc.todo - {id}))
    case SendFeedStatus(i) =>
      var y := s.systems[i];
      MoveFeed(Move(s, i, SStatusAwait(y.pc.id, y.pc.todo)), y.feeds[y.pc.id], FReplying)
    case FeedStatusDone(i) =>
      var y := s.systems[i];
      MoveFeed(Move(s, i, SStatus(y.pc.todo)), y.feeds[y.pc.id], FSelect)
    case FeedStatusOver(i) => Move(s, i, SReplyStatus)
  }

  predicate FeedEnabled(s: State, a: Action) {
    match a
    case FeedContextDone(f) =>
      f in s.feeds && s.feeds[f].pc == FSelect && s.feeds[f].parent in s.systems && FeedDone(s, f)
    case Finish(f, u) =>
      f in s.feeds && s.feeds[f].pc == FSelect && u in s.updates && s.updates[u] == Update(f, Sending)
    case Drain(f, u) =>
      f in s.feeds && s.feeds[f].pc == FDraining && u in s.updates && s.updates[u] == Update(f, Sending)
    case _ => false
  }

  function FeedApply(s: State, a: Action): State
    requires FeedEnabled(s, a)
  {
    match a
    case FeedContextDone(f) => MoveFeed(s, f, if s.feeds[f].updateRunning then FDraining else FExited)
    case Finish(f, u) =>
      s.(feeds := s.feeds[f := s.feeds[f].(updateRunning := false)],
         updates := s.updates[u := s.updates[u].(state := Received)])
    case Drain(f, u) => MoveFeed(s, f, FExited).(updates := s.updates[u := s.updates[u].(state := Received)])
  }

  // ---------------------------------------------------------------------- runs

  ghost predicate EnvStep(s: State, s': State) {
    exists a :: EnvEnabled(s, a) && s' == EnvApply(s, a)
  }

  ghost predicate RootStep(s: State, s': State) {
    exists a :: RootEnabled(s, a) && s' == RootApply(s, a)
  }

  ghost predicate SystemStep(s: State, s': State) {
    exists a :: SystemEnabled(s, a) && s' == SystemApply(s, a)
  }

  ghost predicate FeedStep(s: State, s': State) {
    exists a :: FeedEnabled(s, a) && s' == FeedApply(s, a)
  }

  ghost predicate Next(s: State, s': State) {
    EnvStep(s, s') || RootStep(s, s') || SystemStep(s, s') || FeedStep(s, s')
  }

  // A run from the initial state.
  ghost predicate IsRun(run: seq<State>) {
    && |run| > 0
    && run[0] == INITIAL
    && forall i :: 0 <= i < |run| - 1 ==> Next(run[i], run[i + 1])
  }

  ghost predicate Reachable(s: State) {
    exists run :: IsRun(run) && run[|run| - 1] == s
  }
}
