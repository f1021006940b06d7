/** Safety of the scheduler in every reachable state. */
module SchedulerSafety {
  import opened Scheduler
  import opened SchedulerFrames
  import opened SchedulerInvariants
  import opened SchedulerControl

  // ------------------------------------------------------------- single flight

  // An update of that feed of that system whose result has not been received.
  ghost predicate InFlight(s: State, u: nat, name: SystemId, id: FeedId) {
    && u in s.updates && s.updates[u].state != Received
    && s.updates[u].feed in s.feeds
    && var x := s.feeds[s.updates[u].feed];
    && x.config.id == id
    && x.parent in s.systems && s.systems[x.parent].name == name
  }

  /** Every update belongs to some feed of some system. */
  lemma EveryUpdateHasAFeed(s: State, u: nat)
    requires Reachable(s) && u in s.updates && s.updates[u].state != Received
    ensures exists name, id :: InFlight(s, u, name, id)
  {
    ReachableInv(s);
    var x := s.feeds[s.updates[u].feed];
    assert IsHeld(s.updates[u].feed, x, s.systems, s.duplicates);
    assert InFlight(s, u, s.systems[x.parent].name, x.config.id);
  }

  /** Single flight: whatever the interleaving of ticks, results, resets and
      stops, a feed of a system never has two updates in flight, provided no reset
      listed a feed ID twice. */
  lemma SingleFlight(s: State, u: nat, v: nat, name: SystemId, id: FeedId)
    requires Reachable(s) && !s.duplicates
    requires InFlight(s, u, name, id) && InFlight(s, v, name, id)
    ensures u == v
  {
    ReachableInv(s);
    var f, g := s.updates[u].feed, s.updates[v].feed;
    assert Outstanding(s.updates, u, f) && Outstanding(s.updates, v, g);
    HeldByLivingSystem(s, f);
    HeldByLivingSystem(s, g);
    assert f == g;
  }

  // A feed loop that has not exited belongs to the system loop in the registry.
  lemma LivesUnderRegistered(s: State, f: nat)
    requires Inv(s) && !s.duplicates && f in s.feeds && s.feeds[f].pc != FExited
    ensures s.feeds[f].parent in s.systems && !s.systems[s.feeds[f].parent].pc.SExited?
    ensures var n := s.systems[s.feeds[f].parent].name; n in s.registry && s.registry[n] == s.feeds[f].parent
  {
    assert IsHeld(f, s.feeds[f], s.systems, s.duplicates);
    assert HoldsFeeds(s.feeds[f].parent, s.systems[s.feeds[f].parent], s.feeds, s.duplicates);
  }

  // A feed loop at work is in the map of that system loop.
  lemma HeldByLivingSystem(s: State, f: nat)
    requires Inv(s) && !s.duplicates && f in s.feeds && s.feeds[f].pc != FStarting && s.feeds[f].pc != FExited
    ensures s.feeds[f].parent in s.systems
    ensures var y := s.systems[s.feeds[f].parent];
      && y.name in s.registry && s.registry[y.name] == s.feeds[f].parent
      && s.feeds[f].config.id in y.feeds && y.feeds[s.feeds[f].config.id] == f
  {
    LivesUnderRegistered(s, f);
    assert IsHeld(f, s.feeds[f], s.systems, s.duplicates);
  }

  /** A feed loop's flag tells the truth as long as the loop runs, and a loop that
      has exited has left no result behind. */
  lemma FlagIsTrue(s: State, f: nat)
    requires Reachable(s) && f in s.feeds
    ensures s.feeds[f].pc != FExited ==> (s.feeds[f].updateRunning <==> HasUpdate(s.updates, f))
    ensures s.feeds[f].pc == FExited ==> forall u :: u in s.updates && s.updates[u].feed == f ==> s.updates[u].state == Received
  {
    ReachableInv(s);
    forall u | u in s.updates && s.updates[u].feed == f && s.updates[u].state != Received
      ensures s.feeds[f].updateRunning && s.feeds[f].pc != FExited
    {
      assert Outstanding(s.updates, u, f);
    }
  }

  function Stage(x: UpdateState): nat {
    match x case Flying => 0 case Sending => 1 case Received => 2
  }

  // Nothing forgets an update, moves it to another feed or takes its result back.
  ghost predicate Advances(s: State, s': State) {
    forall u :: u in s.updates ==>
      && u in s'.updates
      && s'.updates[u].feed == s.updates[u].feed
      && Stage(s.updates[u].state) <= Stage(s'.updates[u].state) <= Stage(s.updates[u].state) + 1
  }

  lemma EnvAdvances(s: State, a: Action)
    requires EnvEnabled(s, a)
    ensures Advances(s, EnvApply(s, a))
  {
  }

  lemma FeedAdvances(s: State, a: Action)
    requires FeedEnabled(s, a)
    ensures Advances(s, FeedApply(s, a))
  {
  }

  lemma NextAdvances(s: State, s': State)
    requires Next(s, s')
    ensures Advances(s, s')
  {
    if EnvStep(s, s') {
      var a :| EnvEnabled(s, a) && s' == EnvApply(s, a);
      EnvAdvances(s, a);
    } else if RootStep(s, s') {
      var a :| RootEnabled(s, a) && s' == RootApply(s, a);
      RootStepFrame(s, a);
    } else if SystemStep(s, s') {
      var a :| SystemEnabled(s, a) && s' == SystemApply(s, a);
      SystemStepFrame(s, a);
    } else {
      var a :| FeedEnabled(s, a) && s' == FeedApply(s, a);
      FeedAdvances(s, a);
    }
  }

  ghost predicate Advancing(run: seq<State>) {
    forall k :: 0 <= k < |run| - 1 ==> Advances(run[k], run[k + 1])
  }

  lemma RunAdvances(run: seq<State>)
    requires IsRun(run)
    ensures Advancing(run)
  {
    forall k | 0 <= k < |run| - 1 ensures Advances(run[k], run[k + 1]) {
      NextAdvances(run[k], run[k + 1]);
    }
  }

  ghost predicate ReceivedAt(run: seq<State>, k: nat, u: nat)
    requires k + 1 < |run|
  {
    && u in run[k].updates && run[k].updates[u].state != Received
    && u in run[k + 1].updates && run[k + 1].updates[u].state == Received
  }

  lemma {:induction false} StaysReceived(run: seq<State>, j: nat, k: nat, u: nat)
    requires Advancing(run) && j <= k < |run|
    requires u in run[j].updates && run[j].updates[u].state == Received
    ensures u in run[k].updates && run[k].updates[u].state == Received
  {
    if j < k {
      StaysReceived(run, j, k - 1, u);
      assert Advances(run[k - 1], run[k - 1 + 1]);
    }
  }

  /** In a run the result of an update is received at most once. */
  lemma ReceivedOnce(run: seq<State>, j: nat, k: nat, u: nat)
    requires IsRun(run) && j + 1 < |run| && k + 1 < |run|
    requires ReceivedAt(run, j, u) && ReceivedAt(run, k, u)
    ensures j == k
  {
    RunAdvances(run);
    if j < k {
      StaysReceived(run, j + 1, k, u);
    } else if k < j {
      StaysReceived(run, k + 1, j, u);
    }
  }

  // ----------------------------------------------------------------- quiescence

  // The feed loop has exited, and every result of its updates was received.
  ghost predicate Over(s: State, f: nat) {
    && f in s.feeds && s.feeds[f].pc == FExited
    && forall u :: u in s.updates && s.updates[u].feed == f ==> s.updates[u].state == Received
  }

  // The feed loop runs under a system loop of that name.
  ghost predicate Under(s: State, f: nat, name: SystemId) {
    f in s.feeds && s.feeds[f].parent in s.systems && s.systems[s.feeds[f].parent].name == name
  }

  // No feed loop and no update under any system loop of that name is left.
  ghost predicate Quiet(s: State, name: SystemId) {
    forall f :: Under(s, f, name) ==> Over(s, f)
  }

  /** Once a system's done is closed, no feed loop and no update under it remains. */
  lemma ExitedIsQuiet(s: State, i: nat, f: nat)
    requires Reachable(s) && !s.duplicates
    requires i in s.systems && s.systems[i].pc.SExited? && f in s.feeds && s.feeds[f].parent == i
    ensures Over(s, f)
  {
    ReachableInv(s);
    FlagIsTrue(s, f);
    if s.feeds[f].pc != FExited {
      LivesUnderRegistered(s, f);
    }
  }

  // A name that is not in the registry has only exited system loops.
  lemma UnregisteredIsQuiet(s: State, name: SystemId)
    requires Reachable(s) && !s.duplicates && name !in s.registry
    ensures Quiet(s, name)
  {
    ReachableInv(s);
    forall f | Under(s, f, name) ensures Over(s, f) {
      FlagIsTrue(s, f);
      if s.feeds[f].pc != FExited {
        LivesUnderRegistered(s, f);
      }
    }
  }

  lemma ReachableStep(s: State, s': State)
    requires Reachable(s) && Next(s, s')
    ensures Reachable(s')
  {
    var run :| IsRun(run) && run[|run| - 1] == s;
    var run' := run + [s'];
    assert IsRun(run') && run'[|run'| - 1] == s';
  }

  lemma ReachableRootStep(s: State, a: Action)
    requires Reachable(s) && RootEnabled(s, a)
    ensures Reachable(RootApply(s, a))
  {
    assert RootStep(s, RootApply(s, a));
    ReachableStep(s, RootApply(s, a));
  }

  /** When stopScheduler returns, nothing is left of the system it stopped. */
  lemma StopIsQuiet(s: State)
    requires Reachable(s) && !s.duplicates && RootEnabled(s, StopDone)
    ensures s.root.name !in RootApply(s, StopDone).registry && Quiet(RootApply(s, StopDone), s.root.name)
  {
    ReachableRootStep(s, StopDone);
    UnregisteredIsQuiet(RootApply(s, StopDone), s.root.name);
  }

  lemma FeedHasSystem(s: State, f: nat)
    requires Inv(s) && f in s.feeds
    ensures s.feeds[f].parent in s.systems && Under(s, f, s.systems[s.feeds[f].parent].name)
  {
    assert IsHeld(f, s.feeds[f], s.systems, s.duplicates);
  }

  /** When the root loop has returned, every loop has exited and every update is over. */
  lemma ReturnedIsQuiet(s: State)
    requires Reachable(s) && !s.duplicates && s.root.RReturned?
    ensures forall i :: i in s.systems ==> s.systems[i].pc.SExited?
    ensures forall f :: f in s.feeds ==> Over(s, f)
    ensures forall u :: u in s.updates ==> s.updates[u].state == Received
  {
    ReachableInv(s);
    forall f | f in s.feeds ensures Over(s, f) {
      FeedHasSystem(s, f);
      UnregisteredIsQuiet(s, s.systems[s.feeds[f].parent].name);
    }
  }

  // The feed loops that live while a system loop is between two feeds to start
  // are those in its map.
  lemma OnlyHeldFeedsLive(s: State, i: nat, f: nat)
    requires Inv(s) && !s.duplicates && i in s.systems && s.systems[i].pc.SStartFeeds?
    requires Under(s, f, s.systems[i].name) && s.feeds[f].pc != FExited
    ensures s.feeds[f].parent == i
    ensures s.feeds[f].config.id in s.systems[i].feeds && s.systems[i].feeds[s.feeds[f].config.id] == f
  {
    LivesUnderRegistered(s, f);
    assert s.feeds[f].parent == i;
    assert IsHeld(f, s.feeds[f], s.systems, s.duplicates);
  }

  // A feed loop that has not exited while new ones are being started is a new one.
  lemma LivingIsNew(s: State, i: nat, f: nat)
    requires Inv(s) && !s.duplicates && i in s.systems && s.systems[i].pc.SStartFeeds?
    requires Under(s, f, s.systems[i].name) && s.feeds[f].pc != FExited
    ensures s.systems[i].pc.k <= |s.systems[i].target|
    ensures s.feeds[f].parent == i && s.feeds[f].config in s.systems[i].target[..s.systems[i].pc.k]
  {
    assert HoldsFeeds(i, s.systems[i], s.feeds, s.duplicates);
    OnlyHeldFeedsLive(s, i, f);
    StartedConfig(s.systems[i], s.feeds, f, s.systems[i].pc.k);
  }

  /** A reset starts its first feed loop only when every old one is over, and the
      loops that live while it starts more run the feeds started so far. */
  lemma RestartIsQuiet(s: State, i: nat, f: nat)
    requires Reachable(s) && !s.duplicates && i in s.systems && s.systems[i].pc.SStartFeeds?
    requires Under(s, f, s.systems[i].name)
    ensures s.systems[i].pc.k <= |s.systems[i].target|
    ensures Over(s, f) || (s.feeds[f].parent == i && s.feeds[f].config in s.systems[i].target[..s.systems[i].pc.k])
  {
    ReachableInv(s);
    StartedWithin(s, i);
    FlagIsTrue(s, f);
    if s.feeds[f].pc != FExited {
      LivingIsNew(s, i, f);
    }
  }

  lemma StartedWithin(s: State, i: nat)
    requires HoldingInv(s) && !s.duplicates && i in s.systems && s.systems[i].pc.SStartFeeds?
    ensures s.systems[i].pc.k <= |s.systems[i].target|
  {
    assert HoldsFeeds(i, s.systems[i], s.feeds, s.duplicates);
  }

  lemma StartedConfig(y: System, feeds: map<nat, Feed>, f: nat, k: nat)
    requires Configured(y, feeds) && y.pc == SStartFeeds(k)
    requires f in feeds && feeds[f].config.id in y.feeds && y.feeds[feeds[f].config.id] == f
    ensures feeds[f].config in y.target[..k]
  {
    var j :| 0 <= j < Started(y) && y.target[j].id == feeds[f].config.id;
    assert y.target[..k][j] == feeds[f].config;
  }
}
