/** What every step of the scheduler keeps. */
module SchedulerInvariants {
  import opened SchedulingPolicy
  import opened Scheduler

  // ------------------------------------------------------------ who holds whom

  // The registry and the living system loops name each other.
  ghost predicate RegistryInv(registry: map<SystemId, nat>, systems: map<nat, System>) {
    && (forall n :: n in registry ==> registry[n] in systems && systems[registry[n]].name == n)
    && (forall i :: i in systems && !systems[i].pc.SExited? ==>
          systems[i].name in registry && registry[systems[i].name] == i)
  }

  // How many of the target feeds have been started, outside stopFeedSchedulers.
  function Started(y: System): int {
    match y.pc
    case SStartFeeds(k) => k
    case SStartingFeed(k, _) => k
    case _ => |y.target|
  }

  predicate Stopped(y: System) {
    y.pc.SCancelling? || y.pc.SStopping? || y.pc.SWaiting? || y.pc.SExited?
  }

  // The feeds of the map run the first started configurations of the target.
  ghost predicate Configured(y: System, feeds: map<nat, Feed>) {
    && 0 <= Started(y) <= |y.target|
    && (forall id :: id in y.feeds ==> exists j :: 0 <= j < Started(y) && y.target[j].id == id)
    && (forall j :: 0 <= j < Started(y) ==>
          && y.target[j].id in y.feeds
          && y.feeds[y.target[j].id] in feeds
          && feeds[y.feeds[y.target[j].id]].config == y.target[j])
  }

  // What one system loop holds.
  ghost predicate HoldsFeeds(i: nat, y: System, feeds: map<nat, Feed>, duplicates: bool) {
    && (forall id :: id in y.feeds ==>
          && y.feeds[id] in feeds
          && feeds[y.feeds[id]].parent == i
          && feeds[y.feeds[id]].config.id == id
          && feeds[y.feeds[id]].pc != FStarting)
    && (y.pc.SStartingFeed? ==>
          && 0 <= y.pc.k < |y.target|
          && y.pc.feed in feeds
          && feeds[y.pc.feed] == Feed(i, y.target[y.pc.k], false, FStarting, false))
    && (y.pc.SExited? ==> y.feeds == map[])
    && (!duplicates ==> DistinctIds(y.target) && (!Stopped(y) ==> Configured(y, feeds)))
  }

  // Every feed loop that has not exited is held by its system loop.
  ghost predicate IsHeld(f: nat, x: Feed, systems: map<nat, System>, duplicates: bool) {
    && x.parent in systems
    && var y := systems[x.parent];
    && (x.pc == FStarting ==> y.pc.SStartingFeed? && y.pc.feed == f)
    && (x.pc != FStarting && x.pc != FExited && !duplicates ==> x.config.id in y.feeds && y.feeds[x.config.id] == f)
  }

  ghost predicate FeedsInv(systems: map<nat, System>, feeds: map<nat, Feed>, duplicates: bool) {
    && (forall i :: i in systems ==> HoldsFeeds(i, systems[i], feeds, duplicates))
    && (forall f :: f in feeds ==> IsHeld(f, feeds[f], systems, duplicates))
  }

  // ------------------------------------------------------------------- updates

  ghost predicate Outstanding(updates: map<nat, Update>, u: nat, f: nat) {
    u in updates && updates[u].feed == f && updates[u].state != Received
  }

  ghost predicate HasUpdate(updates: map<nat, Update>, f: nat) {
    exists u :: Outstanding(updates, u, f)
  }

  // An update belongs to a feed loop that knows about it, and to no other.
  ghost predicate UpdatesInv(feeds: map<nat, Feed>, updates: map<nat, Update>) {
    && (forall u :: u in updates ==> updates[u].feed in feeds)
    && (forall u, f :: Outstanding(updates, u, f) ==>
          f in feeds && feeds[f].updateRunning && feeds[f].pc != FExited && feeds[f].pc != FStarting)
    && (forall u, v, f :: Outstanding(updates, u, f) && Outstanding(updates, v, f) ==> u == v)
    && (forall f :: f in feeds && feeds[f].updateRunning && feeds[f].pc != FExited ==> HasUpdate(updates, f))
    && (forall f :: f in feeds && feeds[f].pc == FDraining ==> feeds[f].updateRunning)
  }

  ghost predicate HoldingInv(s: State) {
    && RegistryInv(s.registry, s.systems)
    && FeedsInv(s.systems, s.feeds, s.duplicates)
    && UpdatesInv(s.feeds, s.updates)
    && (s.root.RSendReset? && !s.duplicates ==> DistinctIds(s.root.feeds))
  }

  // ---------------------------------------------------------- elementary moves

  // A system loop moves on without touching its feeds.
  ghost predicate SameFeeds(y: System, y': System) {
    && y'.feeds == y.feeds && y'.target == y.target
    && !y.pc.SStartingFeed? && !y'.pc.SStartingFeed?
    && (!Stopped(y') ==> !Stopped(y) && (Started(y) <= |y.target| ==> Started(y') == Started(y)))
    && (y'.pc.SExited? ==> y.feeds == map[])
  }

  lemma MoveKeepsFeeds(systems: map<nat, System>, feeds: map<nat, Feed>, duplicates: bool, i: nat, y': System)
    requires FeedsInv(systems, feeds, duplicates) && i in systems && SameFeeds(systems[i], y')
    ensures FeedsInv(systems[i := y'], feeds, duplicates)
  {
    var systems' := systems[i := y'];
    forall j | j in systems' ensures HoldsFeeds(j, systems'[j], feeds, duplicates) {
      assert HoldsFeeds(j, systems[j], feeds, duplicates);
    }
    forall f | f in feeds ensures IsHeld(f, feeds[f], systems', duplicates) {
      assert IsHeld(f, feeds[f], systems, duplicates);
    }
  }

  // A feed loop moves on without starting.
  ghost predicate SameFeed(x: Feed, x': Feed) {
    && x'.parent == x.parent && x'.config == x.config
    && x.pc != FStarting && x'.pc != FStarting && (x.pc == FExited ==> x'.pc == FExited)
  }

  lemma FeedMoveKeepsFeeds(systems: map<nat, System>, feeds: map<nat, Feed>, duplicates: bool, f: nat, x': Feed)
    requires FeedsInv(systems, feeds, duplicates) && f in feeds && SameFeed(feeds[f], x')
    ensures FeedsInv(systems, feeds[f := x'], duplicates)
  {
    var feeds' := feeds[f := x'];
    forall j | j in systems ensures HoldsFeeds(j, systems[j], feeds', duplicates) {
      assert HoldsFeeds(j, systems[j], feeds, duplicates);
    }
    forall g | g in feeds' ensures IsHeld(g, feeds'[g], systems, duplicates) {
      assert IsHeld(g, feeds[g], systems, duplicates);
    }
  }

  lemma MoveKeepsRegistry(registry: map<SystemId, nat>, systems: map<nat, System>, i: nat, y': System)
    requires RegistryInv(registry, systems) && i in systems
    requires y'.name == systems[i].name && (systems[i].pc.SExited? ==> y'.pc.SExited?)
    ensures RegistryInv(registry, systems[i := y'])
  {
  }

  // Changes of a feed loop that the updates do not notice.
  lemma FeedMoveKeepsUpdates(feeds: map<nat, Feed>, updates: map<nat, Update>, f: nat, x': Feed)
    requires UpdatesInv(feeds, updates) && f in feeds
    requires x'.updateRunning == feeds[f].updateRunning
    requires feeds[f].pc != FStarting ==> x'.pc != FStarting
    requires feeds[f].pc == FExited ==> x'.pc == FExited
    requires x'.pc == FExited ==> feeds[f].pc == FExited || !feeds[f].updateRunning
    requires x'.pc == FDraining ==> feeds[f].updateRunning
    ensures UpdatesInv(feeds[f := x'], updates)
  {
  }

  // ------------------------------------------------------------- environment

  lemma TickKeepsUpdates(feeds: map<nat, Feed>, updates: map<nat, Update>, f: nat, u: nat)
    requires UpdatesInv(feeds, updates) && f in feeds && u !in updates
    requires feeds[f].pc == FSelect && !feeds[f].updateRunning
    ensures UpdatesInv(feeds[f := feeds[f].(updateRunning := true)], updates[u := Update(f, Flying)])
  {
    var feeds', updates' := feeds[f := feeds[f].(updateRunning := true)], updates[u := Update(f, Flying)];
    assert Outstanding(updates', u, f);
    forall v, g | Outstanding(updates', v, g) && v != u ensures g != f && Outstanding(updates, v, g) {
      assert Outstanding(updates, v, g);
    }
    forall g | g in feeds && HasUpdate(updates, g) ensures HasUpdate(updates', g) {
      var v :| Outstanding(updates, v, g);
      assert Outstanding(updates', v, g);
    }
  }

  lemma ReceiveKeepsUpdates(feeds: map<nat, Feed>, updates: map<nat, Update>, f: nat, u: nat, x': Feed)
    requires UpdatesInv(feeds, updates) && f in feeds && u in updates && updates[u] == Update(f, Sending)
    requires x' == feeds[f].(updateRunning := false) || x' == feeds[f].(pc := FExited)
    requires feeds[f].pc == FSelect || x'.pc == FExited
    ensures UpdatesInv(feeds[f := x'], updates[u := Update(f, Received)])
  {
    var feeds', updates' := feeds[f := x'], updates[u := Update(f, Received)];
    assert Outstanding(updates, u, f);
    forall v, g | Outstanding(updates', v, g) ensures g != f && Outstanding(updates, v, g) {
      assert Outstanding(updates, v, g);
    }
    forall g | g in feeds && g != f && HasUpdate(updates, g) ensures HasUpdate(updates', g) {
      var v :| Outstanding(updates, v, g);
      assert Outstanding(updates', v, g);
    }
  }

  lemma SendingKeepsUpdates(feeds: map<nat, Feed>, updates: map<nat, Update>, u: nat)
    requires UpdatesInv(feeds, updates) && u in updates && updates[u].state == Flying
    ensures UpdatesInv(feeds, updates[u := updates[u].(state := Sending)])
  {
    var updates' := updates[u := updates[u].(state := Sending)];
    assert forall v, g :: Outstanding(updates', v, g) <==> Outstanding(updates, v, g);
    forall g | g in feeds && HasUpdate(updates, g) ensures HasUpdate(updates', g) {
      var v :| Outstanding(updates, v, g);
      assert Outstanding(updates', v, g);
    }
  }

  lemma EnvKeepsHolding(s: State, a: Action)
    requires HoldingInv(s) && EnvEnabled(s, a)
    ensures HoldingInv(EnvApply(s, a))
  {
    match a
    case Tick(f, u) =>
      TickKeepsUpdates(s.feeds, s.updates, f, u);
      FeedMoveKeepsFeeds(s.systems, s.feeds, s.duplicates, f, s.feeds[f].(updateRunning := true));
    case UpdateEnds(u) => SendingKeepsUpdates(s.feeds, s.updates, u);
    case _ =>
  }

  // ---------------------------------------------------------------- feed loops

  lemma FeedKeepsHolding(s: State, a: Action)
    requires HoldingInv(s) && FeedEnabled(s, a)
    ensures HoldingInv(FeedApply(s, a))
  {
    match a
    case FeedContextDone(f) =>
      var x' := s.feeds[f].(pc := if s.feeds[f].updateRunning then FDraining else FExited);
      FeedMoveKeepsFeeds(s.systems, s.feeds, s.duplicates, f, x');
      FeedMoveKeepsUpdates(s.feeds, s.updates, f, x');
    case Finish(f, u) =>
      var x' := s.feeds[f].(updateRunning := false);
      FeedMoveKeepsFeeds(s.systems, s.feeds, s.duplicates, f, x');
      ReceiveKeepsUpdates(s.feeds, s.updates, f, u, x');
    case Drain(f, u) =>
      var x' := s.feeds[f].(pc := FExited);
      FeedMoveKeepsFeeds(s.systems, s.feeds, s.duplicates, f, x');
      ReceiveKeepsUpdates(s.feeds, s.updates, f, u, x');
  }

  // -------------------------------------------------------------- system loops

  // The wait for a feed loop is over, and its entry is deleted.
  lemma WaitedKeepsFeeds(systems: map<nat, System>, feeds: map<nat, Feed>, duplicates: bool, i: nat, id: FeedId, next: Then)
    requires FeedsInv(systems, feeds, duplicates) && i in systems && systems[i].pc == SWaiting(id, next)
    requires id in systems[i].feeds && systems[i].feeds[id] in feeds && feeds[systems[i].feeds[id]].pc == FExited
    ensures FeedsInv(systems[i := systems[i].(pc := SStopping(next), feeds := systems[i].feeds - {id})], feeds, duplicates)
  {
    var y := systems[i];
    var systems' := systems[i := y.(pc := SStopping(next), feeds := y.feeds - {id})];
    forall j | j in systems' ensures HoldsFeeds(j, systems'[j], feeds, duplicates) {
      assert HoldsFeeds(j, systems[j], feeds, duplicates);
    }
    forall f | f in feeds ensures IsHeld(f, feeds[f], systems', duplicates) {
      assert IsHeld(f, feeds[f], systems, duplicates);
    }
  }

  // With every old feed loop gone, the target's feeds can be started.
  lemma RestartKeepsFeeds(systems: map<nat, System>, feeds: map<nat, Feed>, duplicates: bool, i: nat)
    requires FeedsInv(systems, feeds, duplicates) && i in systems && systems[i].feeds == map[] && systems[i].pc.SStopping?
    ensures FeedsInv(systems[i := systems[i].(pc := SStartFeeds(0))], feeds, duplicates)
  {
    var systems' := systems[i := systems[i].(pc := SStartFeeds(0))];
    forall j | j in systems' ensures HoldsFeeds(j, systems'[j], feeds, duplicates) {
      assert HoldsFeeds(j, systems[j], feeds, duplicates);
    }
    forall f | f in feeds ensures IsHeld(f, feeds[f], systems', duplicates) {
      assert IsHeld(f, feeds[f], systems, duplicates);
    }
  }

  lemma StartKeepsFeeds(systems: map<nat, System>, feeds: map<nat, Feed>, duplicates: bool, i: nat, k: nat, f: nat)
    requires FeedsInv(systems, feeds, duplicates) && i in systems && f !in feeds
    requires systems[i].pc == SStartFeeds(k) && k < |systems[i].target|
    ensures FeedsInv(systems[i := systems[i].(pc := SStartingFeed(k, f))],
                     feeds[f := Feed(i, systems[i].target[k], false, FStarting, false)], duplicates)
  {
    var y := systems[i];
    var systems' := systems[i := y.(pc := SStartingFeed(k, f))];
    var feeds' := feeds[f := Feed(i, y.target[k], false, FStarting, false)];
    forall j | j in systems' ensures HoldsFeeds(j, systems'[j], feeds', duplicates) {
      assert HoldsFeeds(j, systems[j], feeds, duplicates);
    }
    forall g | g in feeds' ensures IsHeld(g, feeds'[g], systems', duplicates) {
      assert g != f ==> IsHeld(g, feeds[g], systems, duplicates);
    }
  }

  // Adding the started feed to the map. This is where distinct IDs matter: an
  // entry that was there would be lost.
  lemma {:induction false} StartedKeepsConfigured(y: System, feeds: map<nat, Feed>, k: nat, f: nat)
    requires y.pc == SStartingFeed(k, f) && k < |y.target| && DistinctIds(y.target) && Configured(y, feeds)
    requires f in feeds && feeds[f].config == y.target[k]
    ensures y.target[k].id !in y.feeds
    ensures Configured(y.(pc := SStartFeeds(k + 1), feeds := y.feeds[y.target[k].id := f]),
                       feeds[f := feeds[f].(pc := FSelect)])
  {
  }

  // The system loop that started the feed holds it.
  lemma StartedHolds(y: System, feeds: map<nat, Feed>, duplicates: bool, i: nat, k: nat, f: nat)
    requires HoldsFeeds(i, y, feeds, duplicates) && f in feeds && y.pc == SStartingFeed(k, f) && k < |y.target|
    ensures HoldsFeeds(i, y.(pc := SStartFeeds(k + 1), feeds := y.feeds[y.target[k].id := f]),
                       feeds[f := feeds[f].(pc := FSelect)], duplicates)
    ensures !duplicates ==> y.target[k].id !in y.feeds
  {
    if !duplicates {
      StartedKeepsConfigured(y, feeds, k, f);
    }
  }

  // Nobody else does, and nobody else notices.
  lemma OtherHolds(j: nat, y: System, feeds: map<nat, Feed>, duplicates: bool, f: nat)
    requires HoldsFeeds(j, y, feeds, duplicates) && f in feeds && feeds[f].pc == FStarting && feeds[f].parent != j
    ensures HoldsFeeds(j, y, feeds[f := feeds[f].(pc := FSelect)], duplicates)
  {
    if !duplicates && !Stopped(y) {
      KeepsConfigured(y, feeds, feeds[f := feeds[f].(pc := FSelect)]);
    }
  }

  lemma StartedKeepsFeeds(systems: map<nat, System>, feeds: map<nat, Feed>, duplicates: bool, i: nat, k: nat, f: nat)
    requires FeedsInv(systems, feeds, duplicates) && i in systems && f in feeds
    requires systems[i].pc == SStartingFeed(k, f) && k < |systems[i].target|
    ensures FeedsInv(systems[i := systems[i].(pc := SStartFeeds(k + 1), feeds := systems[i].feeds[systems[i].target[k].id := f])],
                     feeds[f := feeds[f].(pc := FSelect)], duplicates)
  {
    var y := systems[i];
    var systems' := systems[i := y.(pc := SStartFeeds(k + 1), feeds := y.feeds[y.target[k].id := f])];
    var feeds' := feeds[f := feeds[f].(pc := FSelect)];
    assert HoldsFeeds(i, y, feeds, duplicates);
    StartedHolds(y, feeds, duplicates, i, k, f);
    forall j | j in systems && j != i ensures HoldsFeeds(j, systems[j], feeds', duplicates) {
      assert HoldsFeeds(j, systems[j], feeds, duplicates);
      OtherHolds(j, systems[j], feeds, duplicates, f);
    }
    forall g | g in feeds' ensures IsHeld(g, feeds'[g], systems', duplicates) {
      assert IsHeld(g, feeds[g], systems, duplicates);
    }
  }

  lemma KeepsConfigured(y: System, feeds: map<nat, Feed>, feeds': map<nat, Feed>)
    requires Configured(y, feeds)
    requires forall f :: f in feeds ==> f in feeds' && feeds'[f].config == feeds[f].config
    ensures Configured(y, feeds')
  {
  }

  lemma NewFeedKeepsUpdates(feeds: map<nat, Feed>, updates: map<nat, Update>, f: nat, x: Feed)
    requires UpdatesInv(feeds, updates) && f !in feeds && x.pc == FStarting && !x.updateRunning
    ensures UpdatesInv(feeds[f := x], updates)
  {
  }

  // A system loop's own moves, with its entry in the registry.
  lemma SystemMoveKeepsHolding(s: State, i: nat, y': System)
    requires HoldingInv(s) && i in s.systems && SameFeeds(s.systems[i], y')
    requires y'.name == s.systems[i].name && !s.systems[i].pc.SExited?
    ensures HoldingInv(s.(systems := s.systems[i := y']))
  {
    MoveKeepsFeeds(s.systems, s.feeds, s.duplicates, i, y');
    MoveKeepsRegistry(s.registry, s.systems, i, y');
  }

  lemma FeedMoveKeepsHolding(s: State, f: nat, x': Feed)
    requires HoldingInv(s) && f in s.feeds && SameFeed(s.feeds[f], x')
    requires x'.updateRunning == s.feeds[f].updateRunning
    requires x'.pc == FExited || x'.pc == FDraining ==> x'.pc == s.feeds[f].pc
    ensures HoldingInv(s.(feeds := s.feeds[f := x']))
  {
    FeedMoveKeepsFeeds(s.systems, s.feeds, s.duplicates, f, x');
    FeedMoveKeepsUpdates(s.feeds, s.updates, f, x');
  }

  lemma HeldFeed(s: State, i: nat, id: FeedId)
    requires HoldingInv(s) && i in s.systems && id in s.systems[i].feeds
    ensures s.systems[i].feeds[id] in s.feeds
    ensures s.feeds[s.systems[i].feeds[id]].parent == i
    ensures s.feeds[s.systems[i].feeds[id]].config.id == id
    ensures s.feeds[s.systems[i].feeds[id]].pc != FStarting
  {
    assert HoldsFeeds(i, s.systems[i], s.feeds, s.duplicates);
  }

  // Steps in which one system loop and one of its feed loops move together.
  lemma BothMoveKeepsHolding(s: State, i: nat, y': System, id: FeedId, x': Feed)
    requires HoldingInv(s) && i in s.systems && id in s.systems[i].feeds && s.systems[i].feeds[id] in s.feeds
    requires SameFeeds(s.systems[i], y') && y'.name == s.systems[i].name && !s.systems[i].pc.SExited?
    requires s.feeds[s.systems[i].feeds[id]].pc != FStarting ==> SameFeed(s.feeds[s.systems[i].feeds[id]], x')
    requires x'.updateRunning == s.feeds[s.systems[i].feeds[id]].updateRunning
    requires x'.pc == FExited || x'.pc == FDraining ==> x'.pc == s.feeds[s.systems[i].feeds[id]].pc
    ensures HoldingInv(s.(systems := s.systems[i := y'], feeds := s.feeds[s.systems[i].feeds[id] := x']))
  {
    HeldFeed(s, i, id);
    SystemMoveKeepsHolding(s, i, y');
    FeedMoveKeepsHolding(s.(systems := s.systems[i := y']), s.systems[i].feeds[id], x');
  }

  lemma SystemKeepsHolding(s: State, a: Action)
    requires HoldingInv(s) && SystemEnabled(s, a)
    ensures HoldingInv(SystemApply(s, a))
  {
    if a.CancelFeed? {
      SystemCancelsFeed(s, a.i, a.id);
    } else if a.SendFeedStatus? {
      SystemAsksFeed(s, a.i);
    } else if a.FeedStatusDone? {
      SystemHearsFeed(s, a.i);
    } else if a.Waited? || a.AllStopped? {
      SystemUnholds(s, a);
    } else if a.StartFeed? {
      SystemStartsFeed(s, a.i, a.f);
    } else if a.FeedStarted? {
      var k, f := FeedStartedState(s, a.i, SystemApply(s, a));
      SystemHasStartedFeed(s, a.i, k, f);
    } else {
      SystemMovesAlone(s, a);
    }
  }

  lemma SystemCancelsFeed(s: State, i: nat, id: FeedId)
    requires HoldingInv(s) && SystemEnabled(s, CancelFeed(i, id))
    ensures HoldingInv(SystemApply(s, CancelFeed(i, id)))
  {
    var y := s.systems[i];
    HeldFeed(s, i, id);
    BothMoveKeepsHolding(s, i, y.(pc := SCancelling(y.pc.todo - {id}, y.pc.next)), id,
                         s.feeds[y.feeds[id]].(cancelled := true));
  }

  lemma SystemAsksFeed(s: State, i: nat)
    requires HoldingInv(s) && SystemEnabled(s, SendFeedStatus(i))
    ensures HoldingInv(SystemApply(s, SendFeedStatus(i)))
  {
    var y := s.systems[i];
    BothMoveKeepsHolding(s, i, y.(pc := SStatusAwait(y.pc.id, y.pc.todo)), y.pc.id,
                         s.feeds[y.feeds[y.pc.id]].(pc := FReplying));
  }

  lemma SystemHearsFeed(s: State, i: nat)
    requires HoldingInv(s) && SystemEnabled(s, FeedStatusDone(i))
    ensures HoldingInv(SystemApply(s, FeedStatusDone(i)))
  {
    var y := s.systems[i];
    BothMoveKeepsHolding(s, i, y.(pc := SStatus(y.pc.todo)), y.pc.id, s.feeds[y.feeds[y.pc.id]].(pc := FSelect));
  }

  lemma SystemMovesAlone(s: State, a: Action)
    requires HoldingInv(s) && SystemEnabled(s, a)
    requires !a.CancelFeed? && !a.SendFeedStatus? && !a.FeedStatusDone? && !a.Waited? && !a.AllStopped?
    requires !a.StartFeed? && !a.FeedStarted?
    ensures HoldingInv(SystemApply(s, a))
  {
    var i := a.i;
    SystemMoveKeepsHolding(s, i, SystemApply(s, a).systems[i]);
  }

  lemma SystemUnholds(s: State, a: Action)
    requires HoldingInv(s) && SystemEnabled(s, a) && (a.Waited? || a.AllStopped?)
    ensures HoldingInv(SystemApply(s, a))
  {
    var i := a.i;
    var y := s.systems[i];
    var s' := SystemApply(s, a);
    if a.Waited? {
      WaitedKeepsFeeds(s.systems, s.feeds, s.duplicates, i, y.pc.id, y.pc.next);
      MoveKeepsRegistry(s.registry, s.systems, i, s'.systems[i]);
    } else if y.pc.next == Exit {
      SystemMoveKeepsHolding(s, i, s'.systems[i]);
    } else {
      RestartKeepsFeeds(s.systems, s.feeds, s.duplicates, i);
      MoveKeepsRegistry(s.registry, s.systems, i, s'.systems[i]);
    }
  }

  lemma SystemStartsFeed(s: State, i: nat, f: nat)
    requires HoldingInv(s) && SystemEnabled(s, StartFeed(i, f))
    ensures HoldingInv(SystemApply(s, StartFeed(i, f)))
  {
    var y := s.systems[i];
    var s' := SystemApply(s, StartFeed(i, f));
    MoveKeepsRegistry(s.registry, s.systems, i, s'.systems[i]);
    StartKeepsFeeds(s.systems, s.feeds, s.duplicates, i, y.pc.k, f);
    NewFeedKeepsUpdates(s.feeds, s.updates, f, s'.feeds[f]);
  }

  lemma FeedStartedState(s: State, i: nat, s': State) returns (k: nat, f: nat)
    requires SystemEnabled(s, FeedStarted(i)) && s' == SystemApply(s, FeedStarted(i))
    ensures i in s.systems && s.systems[i].pc == SStartingFeed(k, f)
    ensures k < |s.systems[i].target| && f in s.feeds && s.feeds[f].pc == FStarting
    ensures var y := s.systems[i];
      s' == s.(systems := s.systems[i := y.(pc := SStartFeeds(k + 1), feeds := y.feeds[y.target[k].id := f])],
               feeds := s.feeds[f := s.feeds[f].(pc := FSelect)])
  {
    k, f := s.systems[i].pc.k, s.systems[i].pc.feed;
  }

  lemma SystemHasStartedFeed(s: State, i: nat, k: nat, f: nat)
    requires HoldingInv(s) && i in s.systems && s.systems[i].pc == SStartingFeed(k, f)
    requires k < |s.systems[i].target| && f in s.feeds && s.feeds[f].pc == FStarting
    ensures var y := s.systems[i];
      HoldingInv(s.(systems := s.systems[i := y.(pc := SStartFeeds(k + 1), feeds := y.feeds[y.target[k].id := f])],
                    feeds := s.feeds[f := s.feeds[f].(pc := FSelect)]))
  {
    var y := s.systems[i];
    MoveKeepsRegistry(s.registry, s.systems, i, y.(pc := SStartFeeds(k + 1), feeds := y.feeds[y.target[k].id := f]));
    StartedKeepsFeeds(s.systems, s.feeds, s.duplicates, i, k, f);
    StartedKeepsUpdates(s.feeds, s.updates, f);
  }

  lemma StartedKeepsUpdates(feeds: map<nat, Feed>, updates: map<nat, Update>, f: nat)
    requires UpdatesInv(feeds, updates) && f in feeds && feeds[f].pc == FStarting
    ensures UpdatesInv(feeds[f := feeds[f].(pc := FSelect)], updates)
  {
    FeedMoveKeepsUpdates(feeds, updates, f, feeds[f].(pc := FSelect));
  }

  // ------------------------------------------------------------- the root loop

  lemma MoreDuplicates(systems: map<nat, System>, feeds: map<nat, Feed>, duplicates: bool, duplicates': bool)
    requires FeedsInv(systems, feeds, duplicates) && (duplicates ==> duplicates')
    ensures FeedsInv(systems, feeds, duplicates')
  {
    forall j | j in systems ensures HoldsFeeds(j, systems[j], feeds, duplicates') {
      assert HoldsFeeds(j, systems[j], feeds, duplicates);
    }
    forall f | f in feeds ensures IsHeld(f, feeds[f], systems, duplicates') {
      assert IsHeld(f, feeds[f], systems, duplicates);
    }
  }

  lemma NewSystemKeepsFeeds(systems: map<nat, System>, feeds: map<nat, Feed>, duplicates: bool, i: nat, name: SystemId)
    requires FeedsInv(systems, feeds, duplicates) && i !in systems
    ensures FeedsInv(systems[i := System(name, false, SSelect, map[], [])], feeds, duplicates)
  {
    var systems' := systems[i := System(name, false, SSelect, map[], [])];
    forall j | j in systems' ensures HoldsFeeds(j, systems'[j], feeds, duplicates) {
      assert j != i ==> HoldsFeeds(j, systems[j], feeds, duplicates);
    }
    forall f | f in feeds ensures IsHeld(f, feeds[f], systems', duplicates) {
      assert IsHeld(f, feeds[f], systems, duplicates);
    }
  }

  // The system loop receives the reset message.
  lemma SendResetKeepsFeeds(systems: map<nat, System>, feeds: map<nat, Feed>, duplicates: bool, i: nat, target: seq<Config>)
    requires FeedsInv(systems, feeds, duplicates) && i in systems && systems[i].pc == SSelect
    requires !duplicates ==> DistinctIds(target)
    ensures FeedsInv(systems[i := systems[i].(pc := SCancelling(systems[i].feeds.Keys, Restart), target := target)],
                     feeds, duplicates)
  {
    var systems' := systems[i := systems[i].(pc := SCancelling(systems[i].feeds.Keys, Restart), target := target)];
    forall j | j in systems' ensures HoldsFeeds(j, systems'[j], feeds, duplicates) {
      assert HoldsFeeds(j, systems[j], feeds, duplicates);
    }
    forall f | f in feeds ensures IsHeld(f, feeds[f], systems', duplicates) {
      assert IsHeld(f, feeds[f], systems, duplicates);
    }
  }

  lemma StoppingKeepsHolding(s: State, name: SystemId, caller: Caller)
    requires HoldingInv(s) && (name in s.registry ==> s.registry[name] in s.systems)
    ensures HoldingInv(Stopping(s, name, caller))
  {
    if name in s.registry {
      var i := s.registry[name];
      var y' := s.systems[i].(cancelled := true);
      if s.systems[i].pc.SStartingFeed? {
        CancelWhileStarting(s.systems, s.feeds, s.duplicates, i);
      } else {
        MoveKeepsFeeds(s.systems, s.feeds, s.duplicates, i, y');
      }
      MoveKeepsRegistry(s.registry, s.systems, i, y');
    }
  }

  lemma CancelWhileStarting(systems: map<nat, System>, feeds: map<nat, Feed>, duplicates: bool, i: nat)
    requires FeedsInv(systems, feeds, duplicates) && i in systems
    ensures FeedsInv(systems[i := systems[i].(cancelled := true)], feeds, duplicates)
  {
    var systems' := systems[i := systems[i].(cancelled := true)];
    forall j | j in systems' ensures HoldsFeeds(j, systems'[j], feeds, duplicates) {
      assert HoldsFeeds(j, systems[j], feeds, duplicates);
    }
    forall f | f in feeds ensures IsHeld(f, feeds[f], systems', duplicates) {
      assert IsHeld(f, feeds[f], systems, duplicates);
    }
  }

  lemma AnswerKeepsHolding(s: State, answer: Answer, i: nat)
    requires HoldingInv(s) && AnswerEnabled(s, i)
    ensures HoldingInv(AnswerApply(s, answer, i))
  {
    if answer == Active([]) {
      StoppingKeepsHolding(s, s.root.name, s.root.caller);
    } else if answer.Active? {
      ResetAnswerKeepsHolding(s, answer.feeds, i);
    }
  }

  lemma ResetAnswerKeepsHolding(s: State, feeds: seq<Config>, i: nat)
    requires HoldingInv(s) && AnswerEnabled(s, i) && feeds != []
    ensures HoldingInv(AnswerApply(s, Active(feeds), i))
  {
    var duplicates' := s.duplicates || !DistinctIds(feeds);
    MoreDuplicates(s.systems, s.feeds, s.duplicates, duplicates');
    if s.root.name !in s.registry {
      NewSystemKeepsFeeds(s.systems, s.feeds, duplicates', i, s.root.name);
      NewSystemKeepsRegistry(s.registry, s.systems, s.root.name, i);
    }
  }

  lemma NewSystemKeepsRegistry(registry: map<SystemId, nat>, systems: map<nat, System>, name: SystemId, i: nat)
    requires RegistryInv(registry, systems) && name !in registry && i !in systems
    ensures RegistryInv(registry[name := i], systems[i := System(name, false, SSelect, map[], [])])
  {
  }

  lemma RootSendsReset(s: State)
    requires HoldingInv(s) && RootEnabled(s, SendReset)
    ensures HoldingInv(RootApply(s, SendReset))
  {
    var i := s.registry[s.root.name];
    SendResetKeepsFeeds(s.systems, s.feeds, s.duplicates, i, s.root.feeds);
    MoveKeepsRegistry(s.registry, s.systems, i, RootApply(s, SendReset).systems[i]);
  }

  lemma DoneKeepsRegistry(registry: map<SystemId, nat>, systems: map<nat, System>, name: SystemId)
    requires RegistryInv(registry, systems) && name in registry && systems[registry[name]].pc.SExited?
    ensures RegistryInv(registry - {name}, systems)
  {
  }

  lemma HoldingIgnoresRoot(s: State, root': RootPc)
    requires HoldingInv(s) && !root'.RSendReset?
    ensures HoldingInv(s.(root := root'))
  {
  }

  // The root loop moves on together with the system loop it dealt with.
  lemma RootMovesWithSystem(s: State, i: nat, y': System, root': RootPc)
    requires HoldingInv(s) && i in s.systems && SameFeeds(s.systems[i], y')
    requires y'.name == s.systems[i].name && !s.systems[i].pc.SExited? && !root'.RSendReset?
    ensures HoldingInv(s.(systems := s.systems[i := y'], root := root'))
  {
    SystemMoveKeepsHolding(s, i, y');
    HoldingIgnoresRoot(s.(systems := s.systems[i := y']), root');
  }

  lemma ResetDoneKeepsHolding(s: State)
    requires HoldingInv(s) && RootEnabled(s, ResetDone)
    ensures HoldingInv(RootApply(s, ResetDone))
  {
    var i := s.registry[s.root.name];
    RootMovesWithSystem(s, i, s.systems[i].(pc := SSelect), Handled(s.root.name, s.root.feeds, s.root.caller));
  }

  lemma SendStatusKeepsHolding(s: State)
    requires HoldingInv(s) && RootEnabled(s, SendStatus)
    ensures HoldingInv(RootApply(s, SendStatus))
  {
    var i := s.registry[s.root.name];
    RootMovesWithSystem(s, i, s.systems[i].(pc := SStatus(s.systems[i].feeds.Keys)), RStatusAwait(s.root.name, s.root.left));
  }

  lemma StatusDoneKeepsHolding(s: State)
    requires HoldingInv(s) && RootEnabled(s, StatusDone)
    ensures HoldingInv(RootApply(s, StatusDone))
  {
    var i := s.registry[s.root.name];
    RootMovesWithSystem(s, i, s.systems[i].(pc := SSelect), RStatus(s.root.left));
  }

  lemma RootStopDone(s: State)
    requires HoldingInv(s) && RootEnabled(s, StopDone)
    ensures HoldingInv(RootApply(s, StopDone))
  {
    DoneKeepsRegistry(s.registry, s.systems, s.root.name);
  }

  lemma RootStops(s: State, a: Action)
    requires HoldingInv(s) && RootEnabled(s, a) && (a.SweepNext? || a.ShutdownNext?)
    ensures HoldingInv(RootApply(s, a))
  {
    if a.SweepNext? {
      StoppingKeepsHolding(s, a.name, Sweep(s.root.left - {a.name}, s.root.all, s.root.ok));
    } else {
      StoppingKeepsHolding(s, a.name, Shutdown(s.root.left - {a.name}));
    }
  }

  // The root loop's steps that touch nothing but its own program counter.
  lemma RootMovesAlone(s: State, a: Action)
    requires HoldingInv(s) && RootEnabled(s, a)
    requires !a.Answered? && !a.SendReset? && !a.ResetDone? && !a.StopDone? && !a.SendStatus? && !a.StatusDone?
    requires !a.SweepNext? && !a.ShutdownNext?
    ensures HoldingInv(RootApply(s, a))
  {
  }

  lemma RootKeepsHolding(s: State, a: Action)
    requires HoldingInv(s) && RootEnabled(s, a)
    ensures HoldingInv(RootApply(s, a))
  {
    if a.Answered? {
      AnswerKeepsHolding(s, AnswerOf(a.response), a.i);
    } else if a.SweepNext? || a.ShutdownNext? {
      RootStops(s, a);
    } else if a.SendReset? {
      RootSendsReset(s);
    } else if a.StopDone? {
      RootStopDone(s);
    } else if a.ResetDone? {
      ResetDoneKeepsHolding(s);
    } else if a.SendStatus? {
      SendStatusKeepsHolding(s);
    } else if a.StatusDone? {
      StatusDoneKeepsHolding(s);
    } else {
      RootMovesAlone(s, a);
    }
  }

  /** Every step keeps the holding invariant. */
  lemma NextKeepsHolding(s: State, s': State)
    requires HoldingInv(s) && Next(s, s')
    ensures HoldingInv(s')
  {
    if EnvStep(s, s') {
      var a :| EnvEnabled(s, a) && s' == EnvApply(s, a);
      EnvKeepsHolding(s, a);
    } else if RootStep(s, s') {
      var a :| RootEnabled(s, a) && s' == RootApply(s, a);
      RootKeepsHolding(s, a);
    } else if SystemStep(s, s') {
      var a :| SystemEnabled(s, a) && s' == SystemApply(s, a);
      SystemKeepsHolding(s, a);
    } else {
      var a :| FeedEnabled(s, a) && s' == FeedApply(s, a);
      FeedKeepsHolding(s, a);
    }
  }
}
