/** What a reset of all systems leaves running. */
module SchedulerResets {
  import opened SchedulingPolicy
  import opened Scheduler
  import opened SchedulerFrames
  import opened SchedulerInvariants
  import opened SchedulerControl
  import opened SchedulerSafety
  import opened SchedulerResponses

  function Names(listed: seq<SystemId>): set<SystemId> {
    set n | n in listed
  }

  // The system is scheduled with exactly these feeds, or not at all if there are none.
  predicate Scheduled(name: SystemId, feeds: seq<Config>, registry: map<SystemId, nat>, systems: map<nat, System>) {
    if feeds == [] then name !in registry
    else name in registry && registry[name] in systems && systems[registry[name]].target == feeds
  }

  // Everything that was handled is still as it was left, but for one system.
  ghost predicate Kept(all: ResetAll, registry: map<SystemId, nat>, systems: map<nat, System>, but: set<SystemId>) {
    forall n :: n in all.handled && n !in but ==> Scheduled(n, all.handled[n], registry, systems)
  }

  // Exactly the first k listed systems have been handled.
  ghost predicate Upto(all: ResetAll, k: int) {
    0 <= k <= |all.listed| && all.handled.Keys == Names(all.listed[..k])
  }

  // The listed systems from the k-th on are still to do.
  ghost predicate Rest(all: ResetAll, k: int, todo: seq<SystemId>) {
    0 <= k <= |all.listed| && todo == all.listed[k..]
  }

  // All of the listed systems were handled if the reset went well, else a proper prefix.
  ghost predicate Ended(all: ResetAll, ok: bool) {
    if ok then Upto(all, |all.listed|) else exists k :: Upto(all, k) && k < |all.listed|
  }

  // A reset-all that is dealing with one system.
  ghost predicate Handling(name: SystemId, todo: seq<SystemId>, all: ResetAll) {
    var k := |all.listed| - |todo| - 1;
    Upto(all, k) && Rest(all, k, [name] + todo)
  }

  ghost predicate ResetInv(root: RootPc, registry: map<SystemId, nat>, systems: map<nat, System>) {
    match root
    case RNext(todo, all) =>
      Upto(all, |all.listed| - |todo|) && Rest(all, |all.listed| - |todo|, todo) && Kept(all, registry, systems, {})
    case RConfig(n, All(todo, all)) => Handling(n, todo, all) && Kept(all, registry, systems, {})
    case RSendReset(n, _, All(todo, all)) => Handling(n, todo, all) && Kept(all, registry, systems, {n})
    case RAwaitReset(n, _, All(todo, all)) => Handling(n, todo, all) && Kept(all, registry, systems, {n})
    case RAwaitDone(n, All(todo, all)) => Handling(n, todo, all) && Kept(all, registry, systems, {n})
    case RAwaitDone(n, Sweep(rest, all, ok)) =>
      && Ended(all, ok) && Kept(all, registry, systems, {})
      && n !in all.handled && registry.Keys <= all.handled.Keys + rest + {n}
    case RSweep(left, all, ok) =>
      Ended(all, ok) && Kept(all, registry, systems, {}) && registry.Keys <= all.handled.Keys + left
    case RReplying(ResetAllReply(all, ok)) =>
      Ended(all, ok) && Kept(all, registry, systems, {}) && registry.Keys <= all.handled.Keys
    case _ => true
  }

  // ------------------------------------------------------------- preservation

  lemma SameTargetsKeep(root: RootPc, registry: map<SystemId, nat>, systems: map<nat, System>, systems': map<nat, System>)
    requires ResetInv(root, registry, systems) && SameTargets(systems, systems')
    ensures ResetInv(root, registry, systems')
  {
  }

  lemma SystemKeepsTargets(s: State, a: Action)
    requires SystemEnabled(s, a)
    ensures SystemApply(s, a).root == s.root && SystemApply(s, a).registry == s.registry
    ensures SameTargets(s.systems, SystemApply(s, a).systems)
  {
    SystemStepFrame(s, a);
  }

  // The root loop's program counter moves and no target changes.
  lemma StoppingKeepsReset(s: State, name: SystemId, c: Caller)
    requires HoldingInv(s) && (name in s.registry ==> s.registry[name] in s.systems)
    requires c.All? ==> Handling(name, c.todo, c.all) && Kept(c.all, s.registry, s.systems, {name})
    requires c.Sweep? ==>
      && Ended(c.sweptAll, c.ok) && Kept(c.sweptAll, s.registry, s.systems, {})
      && name !in c.sweptAll.handled && s.registry.Keys <= c.sweptAll.handled.Keys + c.rest + {name}
    ensures ResetInv(Stopping(s, name, c).root, Stopping(s, name, c).registry, Stopping(s, name, c).systems)
  {
    if name !in s.registry {
      if c.All? {
        HandledNext(name, [], c.todo, c.all, s.registry, s.systems);
      }
    } else {
      assert SameTargets(s.systems, Stopping(s, name, c).systems);
      SameTargetsKeep(RAwaitDone(name, c), s.registry, s.systems, Stopping(s, name, c).systems);
    }
  }

  // One more system has been handled.
  lemma HandledNext(name: SystemId, feeds: seq<Config>, todo: seq<SystemId>, all: ResetAll,
                    registry: map<SystemId, nat>, systems: map<nat, System>)
    requires Handling(name, todo, all) && Kept(all, registry, systems, {name})
    requires Scheduled(name, feeds, registry, systems)
    ensures ResetInv(Handled(name, feeds, All(todo, all)), registry, systems)
  {
    var k := |all.listed| - |todo| - 1;
    var all' := all.(handled := all.handled[name := feeds]);
    assert all.listed[k] == ([name] + todo)[0] == name;
    assert all.listed[..k + 1] == all.listed[..k] + [name];
    assert todo == ([name] + todo)[1..];
  }

  lemma NextKeepsReset(s: State)
    requires ResetInv(s.root, s.registry, s.systems) && RootEnabled(s, NextSystem)
    ensures ResetInv(RootApply(s, NextSystem).root, s.registry, s.systems)
  {
    assert s.root.todo == [s.root.todo[0]] + s.root.todo[1..];
  }

  lemma FailedKeepsReset(s: State, name: SystemId, c: Caller)
    requires s.root == RConfig(name, c) && ResetInv(s.root, s.registry, s.systems)
    ensures ResetInv(HandledWithError(s, name, c), s.registry, s.systems)
  {
    if c.All? {
      assert Upto(c.all, |c.all.listed| - |c.todo| - 1);
    }
  }

  // A system about to be reset, new or not, is the only one that is not kept.
  lemma ResetSentKeepsReset(name: SystemId, feeds: seq<Config>, c: Caller,
                            registry: map<SystemId, nat>, systems: map<nat, System>, i: nat)
    requires ResetInv(RConfig(name, c), registry, systems) && RegistryInv(registry, systems) && i !in systems
    ensures ResetInv(RSendReset(name, feeds, c), registry, systems)
    ensures ResetInv(RSendReset(name, feeds, c), registry[name := i], systems[i := System(name, false, SSelect, map[], [])])
  {
  }

  lemma ActiveKeepsReset(s: State, feeds: seq<Config>, i: nat)
    requires HoldingInv(s) && AnswerEnabled(s, i) && ResetCaller(s.root.caller)
    requires ResetInv(s.root, s.registry, s.systems)
    ensures var s' := AnswerApply(s, Active(feeds), i); ResetInv(s'.root, s'.registry, s'.systems)
  {
    if feeds == [] {
      StoppingKeepsReset(s, s.root.name, s.root.caller);
    } else {
      ResetSentKeepsReset(s.root.name, feeds, s.root.caller, s.registry, s.systems, i);
    }
  }

  lemma AnswerKeepsReset(s: State, answer: Answer, i: nat)
    requires HoldingInv(s) && AnswerEnabled(s, i) && ResetCaller(s.root.caller)
    requires ResetInv(s.root, s.registry, s.systems)
    ensures var s' := AnswerApply(s, answer, i); ResetInv(s'.root, s'.registry, s'.systems)
  {
    if answer.Failed? {
      FailedKeepsReset(s, s.root.name, s.root.caller);
    } else {
      ActiveKeepsReset(s, answer.feeds, i);
    }
  }

  lemma SendKeepsReset(s: State)
    requires HoldingInv(s) && ResetInv(s.root, s.registry, s.systems) && RootEnabled(s, SendReset)
    ensures var s' := RootApply(s, SendReset); ResetInv(s'.root, s'.registry, s'.systems)
  {
    var s' := RootApply(s, SendReset);
    forall n | n in s.registry && n != s.root.name
      ensures s.registry[n] in s.systems && s'.systems[s.registry[n]].target == s.systems[s.registry[n]].target
    {
      assert s.systems[s.registry[n]].name == n;
    }
  }

  lemma ResetDoneKeepsReset(s: State)
    requires HoldingInv(s) && ControlInv(s) && ResetInv(s.root, s.registry, s.systems) && RootEnabled(s, ResetDone)
    ensures var s' := RootApply(s, ResetDone); ResetInv(s'.root, s'.registry, s'.systems)
  {
    var s' := RootApply(s, ResetDone);
    assert SameTargets(s.systems, s'.systems);
    SameTargetsKeep(s.root, s.registry, s.systems, s'.systems);
    assert SystemCtl(s.systems[s.registry[s.root.name]], s.root, s.rootCancelled, s.feeds);
    if s.root.caller.All? {
      HandledNext(s.root.name, s.root.feeds, s.root.caller.todo, s.root.caller.all, s.registry, s'.systems);
    }
  }

  lemma RemovedKeepsReset(name: SystemId, c: Caller, registry: map<SystemId, nat>, systems: map<nat, System>)
    requires ResetInv(RAwaitDone(name, c), registry, systems)
    ensures ResetInv(Handled(name, [], c), registry - {name}, systems)
  {
    if c.All? {
      HandledNext(name, [], c.todo, c.all, registry - {name}, systems);
    } else if c.Sweep? {
      assert (registry - {name}).Keys <= c.sweptAll.handled.Keys + c.rest;
    }
  }

  lemma StopDoneKeepsReset(s: State)
    requires ResetInv(s.root, s.registry, s.systems) && RootEnabled(s, StopDone)
    ensures var s' := RootApply(s, StopDone); ResetInv(s'.root, s'.registry, s'.systems)
  {
    RemovedKeepsReset(s.root.name, s.root.caller, s.registry, s.systems);
  }

  lemma ListedKeepsReset(s: State, names: seq<SystemId>)
    ensures ResetInv(RNext(names, ResetAll(names, map[])), s.registry, s.systems)
  {
  }

  // The end of the list and the end of the sweep.
  lemma EndsKeepReset(s: State, a: Action)
    requires ResetInv(s.root, s.registry, s.systems) && RootEnabled(s, a) && (a.AllHandled? || a.SweepDone?)
    ensures RootApply(s, a).registry == s.registry && RootApply(s, a).systems == s.systems
    ensures ResetInv(RootApply(s, a).root, s.registry, s.systems)
  {
    if a.AllHandled? {
      assert Upto(s.root.all, |s.root.all.listed|);
    }
  }

  // The root loop's other steps, up to those with a system loop.
  lemma RootAloneKeepsReset(s: State, a: Action)
    requires RootEnabled(s, a)
    requires a.ListingFails? || a.StatusNext? || a.StatusOver? || a.RootReply? || a.RootDone? || a.Return?
    ensures RootApply(s, a).registry == s.registry && RootApply(s, a).systems == s.systems
    ensures ResetInv(RootApply(s, a).root, s.registry, s.systems)
  {
  }

  lemma SweepKeepsReset(s: State, name: SystemId)
    requires HoldingInv(s) && ResetInv(s.root, s.registry, s.systems) && RootEnabled(s, SweepNext(name))
    ensures var s' := RootApply(s, SweepNext(name)); ResetInv(s'.root, s'.registry, s'.systems)
  {
    if name !in s.root.all.handled {
      StoppingKeepsReset(s, name, Sweep(s.root.left - {name}, s.root.all, s.root.ok));
    }
  }

  lemma RootKeepsReset(s: State, a: Action)
    requires HoldingInv(s) && ControlInv(s) && ResetInv(s.root, s.registry, s.systems) && RootEnabled(s, a)
    ensures ResetInv(RootApply(s, a).root, RootApply(s, a).registry, RootApply(s, a).systems)
  {
    if a.Answered? {
      AnswerKeepsReset(s, AnswerOf(a.response), a.i);
    } else if a.SendReset? {
      SendKeepsReset(s);
    } else if a.ResetDone? {
      ResetDoneKeepsReset(s);
    } else if a.StopDone? {
      StopDoneKeepsReset(s);
    } else if a.SweepNext? {
      SweepKeepsReset(s, a.name);
    } else if a.ShutdownNext? {
      StoppingKeepsReset(s, a.name, Shutdown(s.root.left - {a.name}));
    } else if a.NextSystem? {
      NextKeepsReset(s);
    } else if a.Listed? {
      ListedKeepsReset(s, a.names);
    } else if a.AllHandled? || a.SweepDone? {
      EndsKeepReset(s, a);
    } else if !a.SendStatus? && !a.StatusDone? {
      RootAloneKeepsReset(s, a);
    }
  }

  lemma EnvKeepsReset(s: State, a: Action)
    requires ResetInv(s.root, s.registry, s.systems) && EnvEnabled(s, a)
    ensures ResetInv(EnvApply(s, a).root, EnvApply(s, a).registry, EnvApply(s, a).systems)
  {
  }

  lemma NextKeepsResetInv(s: State, s': State)
    requires Inv(s) && ResetInv(s.root, s.registry, s.systems) && Next(s, s')
    ensures ResetInv(s'.root, s'.registry, s'.systems)
  {
    if EnvStep(s, s') {
      var a :| EnvEnabled(s, a) && s' == EnvApply(s, a);
      EnvKeepsReset(s, a);
    } else if RootStep(s, s') {
      var a :| RootEnabled(s, a) && s' == RootApply(s, a);
      RootKeepsReset(s, a);
    } else if SystemStep(s, s') {
      var a :| SystemEnabled(s, a) && s' == SystemApply(s, a);
      SystemKeepsTargets(s, a);
      SameTargetsKeep(s.root, s.registry, s.systems, s'.systems);
    } else {
      var a :| FeedEnabled(s, a) && s' == FeedApply(s, a);
      FeedStepFrame(s, a);
    }
  }

  lemma {:induction false} RunResetInv(run: seq<State>, k: nat)
    requires IsRun(run) && k < |run|
    ensures ResetInv(run[k].root, run[k].registry, run[k].systems)
  {
    if k > 0 {
      RunResetInv(run, k - 1);
      RunInv(run, k - 1);
      assert Next(run[k - 1], run[k - 1 + 1]);
      NextKeepsResetInv(run[k - 1], run[k]);
    }
  }

  // ----------------------------------------------------------------- the result

  // A feed loop of the system that is at its select statement.
  ghost predicate Runs(s: State, f: nat, name: SystemId, c: Config) {
    Under(s, f, name) && s.feeds[f].pc == FSelect && s.feeds[f].config == c
  }

  // The system's feed loops that have not exited are exactly those of these
  // configurations, and wait for ticks; so does the system loop for requests.
  ghost predicate RunsExactly(s: State, name: SystemId, feeds: seq<Config>) {
    && At(s, name, SSelect)
    && (forall c :: c in feeds ==> exists f :: Runs(s, f, name, c))
    && (forall f :: Under(s, f, name) && s.feeds[f].pc != FExited ==> s.feeds[f].config in feeds)
    && (forall f, g :: Under(s, f, name) && s.feeds[f].pc != FExited && Runs(s, g, name, s.feeds[f].config) ==> f == g)
  }

  // The system was found, with a feed that is to be updated.
  ghost predicate Wants(r: Response) {
    r.Found? && exists i :: 0 <= i < |r.config| && r.config[i].policy != NONE
  }

  // The system runs exactly the feeds that the last response about it asks for.
  ghost predicate RunsAsAsked(s: State, name: SystemId) {
    && name in s.responses && Sensible(s.responses[name])
    && RunsExactly(s, name, Asked(s.responses[name]))
  }

  // There was a response about each of these systems, and the scheduled ones are
  // exactly those of them that were found with a feed to update.
  ghost predicate OnlyWanted(s: State, names: seq<SystemId>) {
    && (forall n :: n in names ==> n in s.responses)
    && (forall n :: n in s.registry <==> (n in names && n in s.responses && Wants(s.responses[n])))
  }

  lemma AskedIfWants(r: Response)
    requires Sensible(r)
    ensures Asked(r) != [] <==> Wants(r)
  {
    if r.Found? {
      NothingActive(r.config, r.agencies, r.known);
    }
  }

  lemma HandledIsWanted(s: State, all: ResetAll, n: SystemId)
    requires ResponsesInv(s) && n in all.handled && Told(AskedBy(s.responses), n, all.handled[n])
    requires Scheduled(n, all.handled[n], s.registry, s.systems)
    ensures n in s.responses && (n in s.registry <==> Wants(s.responses[n]))
  {
    AskedIfWants(s.responses[n]);
  }

  lemma HandledOnlyWanted(s: State, all: ResetAll, k: nat)
    requires ResponsesInv(s) && AllTold(AskedBy(s.responses), all, {}) && Kept(all, s.registry, s.systems, {})
    requires Upto(all, k) && s.registry.Keys <= all.handled.Keys
    ensures OnlyWanted(s, all.listed[..k])
  {
    forall n | n in all.listed[..k] ensures n in s.responses && (n in s.registry <==> Wants(s.responses[n])) {
      assert n in Names(all.listed[..k]);
      HandledIsWanted(s, all, n);
    }
    forall n | n in s.registry ensures n in all.listed[..k] {
      assert n in Names(all.listed[..k]);
    }
  }

  lemma ReachableResets(s: State)
    requires Reachable(s)
    ensures ResetInv(s.root, s.registry, s.systems)
  {
    var run :| IsRun(run) && run[|run| - 1] == s;
    RunResetInv(run, |run| - 1);
  }

  /** Between two requests every scheduled system runs exactly the feeds that the last
      response about it asks for, whichever request brought that about. */
  lemma IdleRunsAsAsked(s: State, name: SystemId)
    requires Reachable(s) && !s.duplicates && !s.rootCancelled && name in s.registry
    requires s.root.RSelect? || s.root.RReplying?
    ensures RunsAsAsked(s, name)
  {
    ReachableInv(s);
    ReachableResponses(s);
    IdleRunsExactly(s, name);
    IdleTold(s, name);
  }

  lemma IdleTold(s: State, name: SystemId)
    requires ResponsesInv(s) && name in s.registry && (s.root.RSelect? || s.root.RReplying?)
    ensures s.registry[name] in s.systems && name in s.responses && Sensible(s.responses[name])
    ensures s.systems[s.registry[name]].target == Asked(s.responses[name])
  {
    assert InHand(s.root) == {};
  }

  // Between two requests every scheduled system runs exactly its feeds.
  lemma IdleRunsExactly(s: State, name: SystemId)
    requires Inv(s) && !s.duplicates && !s.rootCancelled && name in s.registry
    requires s.root.RSelect? || s.root.RReplying?
    ensures s.registry[name] in s.systems && RunsExactly(s, name, s.systems[s.registry[name]].target)
  {
    var i := s.registry[name];
    var y := s.systems[i];
    IdleSystem(s, name);
    assert HoldsFeeds(i, y, s.feeds, s.duplicates);
    forall c | c in y.target ensures exists f :: Runs(s, f, name, c) {
      var j :| 0 <= j < |y.target| && y.target[j] == c;
      IdleFeed(s, i, c.id);
      assert Runs(s, y.feeds[c.id], name, c);
    }
    forall f | Under(s, f, name) && s.feeds[f].pc != FExited
      ensures s.feeds[f].config in y.target && s.feeds[f].config.id in y.feeds && y.feeds[s.feeds[f].config.id] == f
    {
      LivesUnderRegistered(s, f);
      assert IsHeld(f, s.feeds[f], s.systems, s.duplicates);
      ConfiguredConfig(y, s.feeds, f);
    }
  }

  lemma ConfiguredConfig(y: System, feeds: map<nat, Feed>, f: nat)
    requires Configured(y, feeds) && f in feeds && feeds[f].config.id in y.feeds && y.feeds[feeds[f].config.id] == f
    ensures feeds[f].config in y.target
  {
    var j :| 0 <= j < Started(y) && y.target[j].id == feeds[f].config.id;
  }

  lemma IdleSystem(s: State, name: SystemId)
    requires Inv(s) && !s.rootCancelled && name in s.registry
    requires s.root.RSelect? || s.root.RReplying?
    ensures s.registry[name] in s.systems
    ensures s.systems[s.registry[name]].name == name && s.systems[s.registry[name]].pc.SSelect?
  {
    var y := s.systems[s.registry[name]];
    assert SystemCtl(y, s.root, s.rootCancelled, s.feeds);
  }

  lemma IdleFeed(s: State, i: nat, id: FeedId)
    requires Inv(s) && !s.rootCancelled && i in s.systems && s.systems[i].pc.SSelect? && !s.systems[i].cancelled
    requires id in s.systems[i].feeds
    ensures s.systems[i].feeds[id] in s.feeds && s.feeds[s.systems[i].feeds[id]].pc == FSelect
  {
    var f := s.systems[i].feeds[id];
    HeldFeed(s, i, id);
    assert SystemCtl(s.systems[i], s.root, s.rootCancelled, s.feeds);
    assert FeedCtl(f, s.feeds[f], s.rootCancelled, s.systems);
  }
}
