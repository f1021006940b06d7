/** Who waits for whom: the part of the scheduler's invariant that makes every
    request end. */
module SchedulerControl {
  import opened SchedulingPolicy
  import opened Scheduler
  import opened SchedulerFrames
  import opened SchedulerInvariants

  // The system loop is serving a reset.
  predicate Serving(y: System) {
    || (y.pc.SCancelling? && y.pc.next == Restart)
    || (y.pc.SStopping? && y.pc.next == Restart)
    || (y.pc.SWaiting? && y.pc.next == Restart)
    || y.pc.SStartFeeds? || y.pc.SStartingFeed? || y.pc.SReplyReset?
  }

  // The system loop is serving a status request.
  predicate Reporting(y: System) {
    y.pc.SStatus? || y.pc.SStatusSend? || y.pc.SStatusAwait? || y.pc.SReplyStatus?
  }

  // The system loop has seen that its context is done.
  predicate Exiting(y: System) {
    || (y.pc.SCancelling? && y.pc.next == Exit)
    || (y.pc.SStopping? && y.pc.next == Exit)
    || (y.pc.SWaiting? && y.pc.next == Exit)
    || y.pc.SExited?
  }

  // --------------------------------------------------------------- system loops

  // A system loop that serves a request or was cancelled has the root loop waiting for it.
  predicate Attended(y: System, root: RootPc) {
    && (Serving(y) ==> root.RAwaitReset? && root.name == y.name && root.feeds == y.target)
    && (Reporting(y) ==> root.RStatusAwait? && root.name == y.name)
    && (y.cancelled && !y.pc.SExited? ==> root.RAwaitDone? && root.name == y.name)
  }

  // The feed IDs a system loop still has to deal with are in its map.
  predicate Pending(y: System) {
    match y.pc
    case SCancelling(todo, _) => todo <= y.feeds.Keys
    case SWaiting(id, _) => id in y.feeds
    case SStatus(todo) => todo <= y.feeds.Keys
    case SStatusSend(id, todo) => id in y.feeds && todo <= y.feeds.Keys
    case SStatusAwait(id, todo) => id in y.feeds && todo <= y.feeds.Keys
    case _ => true
  }

  // Which of its feed loops a system loop has cancelled.
  predicate MayBeCancelled(y: System) {
    y.pc.SCancelling? || y.pc.SStopping? || y.pc.SWaiting?
  }

  predicate MustBeCancelled(y: System, id: FeedId) {
    (y.pc.SCancelling? && id !in y.pc.todo) || y.pc.SStopping? || y.pc.SWaiting?
  }

  ghost predicate Commands(y: System, feeds: map<nat, Feed>) {
    forall id :: id in y.feeds && y.feeds[id] in feeds ==>
      && (MustBeCancelled(y, id) ==> feeds[y.feeds[id]].cancelled)
      && (feeds[y.feeds[id]].cancelled ==> MayBeCancelled(y))
      && (feeds[y.feeds[id]].pc == FReplying <==> y.pc.SStatusAwait? && y.pc.id == id)
  }

  ghost predicate SystemCtl(y: System, root: RootPc, rootCancelled: bool, feeds: map<nat, Feed>) {
    && Attended(y, root)
    && Pending(y)
    && Commands(y, feeds)
    && (Exiting(y) ==> rootCancelled || y.cancelled)
  }

  // ----------------------------------------------------------------- feed loops

  ghost predicate FeedCtl(f: nat, x: Feed, rootCancelled: bool, systems: map<nat, System>) {
    && (x.pc == FDraining || x.pc == FExited ==>
          x.cancelled || rootCancelled || (x.parent in systems && systems[x.parent].cancelled))
    && (x.pc == FReplying ==>
          && x.parent in systems
          && systems[x.parent].pc.SStatusAwait?
          && systems[x.parent].pc.id in systems[x.parent].feeds
          && systems[x.parent].feeds[systems[x.parent].pc.id] == f)
  }

  // -------------------------------------------------------------- the root loop

  predicate ResetCaller(c: Caller) {
    c.One? || c.All?
  }

  ghost predicate RootCtl(root: RootPc, rootCancelled: bool, registry: map<SystemId, nat>, systems: map<nat, System>) {
    match root
    case RConfig(n, c) => ResetCaller(c)
    case RSendReset(n, feeds, c) => n in registry && feeds != [] && ResetCaller(c)
    case RAwaitReset(n, feeds, c) =>
      && n in registry && registry[n] in systems && Serving(systems[registry[n]])
      && feeds != [] && ResetCaller(c)
    case RAwaitDone(n, c) =>
      && n in registry && registry[n] in systems && systems[registry[n]].cancelled
      && (c.Sweep? ==> c.rest <= registry.Keys - {n})
      && (c.Shutdown? ==> n !in c.left && registry.Keys == c.left + {n} && rootCancelled)
    case RSweep(left, _, _) => left <= registry.Keys
    case RStatus(left) => left <= registry.Keys
    case RStatusSend(n, left) => n in registry && left <= registry.Keys
    case RStatusAwait(n, left) =>
      n in registry && left <= registry.Keys && registry[n] in systems && Reporting(systems[registry[n]])
    case RShutdown(left) => left == registry.Keys && rootCancelled
    case RReturned => registry == map[] && rootCancelled
    case _ => true
  }

  ghost predicate ControlInv(s: State) {
    && RootCtl(s.root, s.rootCancelled, s.registry, s.systems)
    && (forall i :: i in s.systems ==> SystemCtl(s.systems[i], s.root, s.rootCancelled, s.feeds))
    && (forall f :: f in s.feeds ==> FeedCtl(f, s.feeds[f], s.rootCancelled, s.systems))
  }

  // ---------------------------------------------------------- elementary moves

  ghost predicate AllSystems(systems: map<nat, System>, root: RootPc, rootCancelled: bool, feeds: map<nat, Feed>) {
    forall i :: i in systems ==> SystemCtl(systems[i], root, rootCancelled, feeds)
  }

  ghost predicate AllFeeds(feeds: map<nat, Feed>, rootCancelled: bool, systems: map<nat, System>) {
    forall f :: f in feeds ==> FeedCtl(f, feeds[f], rootCancelled, systems)
  }

  // One feed loop changes, and its own system loop with it if need be.
  lemma FeedMoveKeepsCtl(y: System, root: RootPc, rootCancelled: bool, feeds: map<nat, Feed>, f: nat, x': Feed)
    requires SystemCtl(y, root, rootCancelled, feeds)
    requires f in feeds && feeds[f].pc != FReplying && x'.pc != FReplying && x'.cancelled == feeds[f].cancelled
    ensures SystemCtl(y, root, rootCancelled, feeds[f := x'])
  {
  }

  lemma FeedMoveKeepsSystems(s: State, f: nat, x': Feed)
    requires AllSystems(s.systems, s.root, s.rootCancelled, s.feeds)
    requires f in s.feeds && s.feeds[f].pc != FReplying && x'.pc != FReplying && x'.cancelled == s.feeds[f].cancelled
    ensures AllSystems(s.systems, s.root, s.rootCancelled, s.feeds[f := x'])
  {
    forall i | i in s.systems ensures SystemCtl(s.systems[i], s.root, s.rootCancelled, s.feeds[f := x']) {
      FeedMoveKeepsCtl(s.systems[i], s.root, s.rootCancelled, s.feeds, f, x');
    }
  }

  lemma CancelRootKeepsControl(s: State)
    requires ControlInv(s)
    ensures ControlInv(s.(rootCancelled := true))
  {
    forall i | i in s.systems ensures SystemCtl(s.systems[i], s.root, true, s.feeds) {
      assert SystemCtl(s.systems[i], s.root, s.rootCancelled, s.feeds);
    }
    forall f | f in s.feeds ensures FeedCtl(f, s.feeds[f], true, s.systems) {
      assert FeedCtl(f, s.feeds[f], s.rootCancelled, s.systems);
    }
  }

  lemma RequestKeepsControl(s: State, a: Action)
    requires HoldingInv(s) && ControlInv(s) && EnvEnabled(s, a)
    requires a.RequestResetAll? || a.RequestReset? || a.RequestStatus?
    ensures ControlInv(EnvApply(s, a))
  {
    RootAloneKeepsControl(s, EnvApply(s, a).root, true, s.duplicates);
  }

  lemma TickKeepsControl(s: State, f: nat, u: nat)
    requires HoldingInv(s) && ControlInv(s) && EnvEnabled(s, Tick(f, u))
    ensures ControlInv(EnvApply(s, Tick(f, u)))
  {
    assert FeedCtl(f, s.feeds[f], s.rootCancelled, s.systems);
    FeedMoveKeepsControl(s, f, s.feeds[f].(updateRunning := true), s.updates[u := Update(f, Flying)]);
  }

  lemma UpdatesKeepControl(s: State, updates: map<nat, Update>, clientWaits: bool)
    requires ControlInv(s)
    ensures ControlInv(s.(updates := updates)) && ControlInv(s.(clientWaits := clientWaits))
  {
  }

  lemma EnvKeepsControl(s: State, a: Action)
    requires HoldingInv(s) && ControlInv(s) && EnvEnabled(s, a)
    ensures ControlInv(EnvApply(s, a))
  {
    if a.CancelRoot? {
      CancelRootKeepsControl(s);
    } else if a.RequestResetAll? || a.RequestReset? || a.RequestStatus? {
      RequestKeepsControl(s, a);
    } else if a.Tick? {
      TickKeepsControl(s, a.f, a.u);
    } else {
      UpdatesKeepControl(s, EnvApply(s, a).updates, EnvApply(s, a).clientWaits);
    }
  }

  lemma FeedMoveKeepsControl(s: State, f: nat, x': Feed, updates': map<nat, Update>)
    requires HoldingInv(s) && ControlInv(s)
    requires f in s.feeds && s.feeds[f].pc != FReplying && x'.pc != FReplying
    requires x'.cancelled == s.feeds[f].cancelled && x'.parent == s.feeds[f].parent
    requires FeedCtl(f, x', s.rootCancelled, s.systems)
    ensures ControlInv(s.(feeds := s.feeds[f := x'], updates := updates'))
  {
    FeedMoveKeepsSystems(s, f, x');
  }

  lemma FeedKeepsControl(s: State, a: Action)
    requires HoldingInv(s) && ControlInv(s) && FeedEnabled(s, a)
    ensures ControlInv(FeedApply(s, a))
  {
    var s' := FeedApply(s, a);
    assert FeedCtl(a.f, s.feeds[a.f], s.rootCancelled, s.systems);
    FeedMoveKeepsControl(s, a.f, s'.feeds[a.f], s'.updates);
  }

  // ------------------------------------------------- one system loop moves on

  // What the rest of the state may rely on about a system loop.
  predicate Faithful(y: System, y': System) {
    && y'.cancelled == y.cancelled && y'.name == y.name
    && (Serving(y) ==> Serving(y'))
    && (Reporting(y) ==> Reporting(y'))
  }

  lemma FaithfulKeepsRoot(s: State, i: nat, y': System)
    requires i in s.systems && Faithful(s.systems[i], y')
    requires RootCtl(s.root, s.rootCancelled, s.registry, s.systems)
    ensures RootCtl(s.root, s.rootCancelled, s.registry, s.systems[i := y'])
  {
  }

  lemma AloneKeepsFeeds(s: State, i: nat, y': System)
    requires i in s.systems && Faithful(s.systems[i], y') && !s.systems[i].pc.SStatusAwait?
    requires AllFeeds(s.feeds, s.rootCancelled, s.systems)
    ensures AllFeeds(s.feeds, s.rootCancelled, s.systems[i := y'])
  {
    forall g | g in s.feeds ensures FeedCtl(g, s.feeds[g], s.rootCancelled, s.systems[i := y']) {
      assert FeedCtl(g, s.feeds[g], s.rootCancelled, s.systems);
    }
  }

  lemma AloneKeepsControl(s: State, i: nat, y': System)
    requires ControlInv(s) && i in s.systems && Faithful(s.systems[i], y') && !s.systems[i].pc.SStatusAwait?
    requires SystemCtl(y', s.root, s.rootCancelled, s.feeds)
    ensures ControlInv(s.(systems := s.systems[i := y']))
  {
    FaithfulKeepsRoot(s, i, y');
    AloneKeepsFeeds(s, i, y');
  }

  // Its feed loop f, old or new, moves with it.
  ghost predicate Joint(s: State, i: nat, f: nat, x': Feed) {
    && x'.parent == i
    && (f in s.feeds ==> s.feeds[f].parent == i)
    && (i in s.systems && s.systems[i].pc.SStatusAwait? ==> f in s.feeds && s.feeds[f].pc == FReplying)
  }

  lemma JointKeepsSystems(s: State, i: nat, y': System, f: nat, x': Feed)
    requires HoldingInv(s) && i in s.systems && Joint(s, i, f, x')
    requires AllSystems(s.systems, s.root, s.rootCancelled, s.feeds)
    requires SystemCtl(y', s.root, s.rootCancelled, s.feeds[f := x'])
    ensures AllSystems(s.systems[i := y'], s.root, s.rootCancelled, s.feeds[f := x'])
  {
    forall j | j in s.systems && j != i ensures SystemCtl(s.systems[j], s.root, s.rootCancelled, s.feeds[f := x']) {
      assert SystemCtl(s.systems[j], s.root, s.rootCancelled, s.feeds);
      assert HoldsFeeds(j, s.systems[j], s.feeds, s.duplicates);
    }
  }

  lemma JointKeepsFeeds(s: State, i: nat, y': System, f: nat, x': Feed)
    requires i in s.systems && Joint(s, i, f, x') && Faithful(s.systems[i], y')
    requires AllFeeds(s.feeds, s.rootCancelled, s.systems)
    requires FeedCtl(f, x', s.rootCancelled, s.systems[i := y'])
    ensures AllFeeds(s.feeds[f := x'], s.rootCancelled, s.systems[i := y'])
  {
    forall g | g in s.feeds && g != f ensures FeedCtl(g, s.feeds[g], s.rootCancelled, s.systems[i := y']) {
      assert FeedCtl(g, s.feeds[g], s.rootCancelled, s.systems);
      if f in s.feeds {
        assert FeedCtl(f, s.feeds[f], s.rootCancelled, s.systems);
      }
    }
  }

  lemma JointKeepsControl(s: State, i: nat, y': System, f: nat, x': Feed)
    requires HoldingInv(s) && ControlInv(s) && i in s.systems && Joint(s, i, f, x') && Faithful(s.systems[i], y')
    requires SystemCtl(y', s.root, s.rootCancelled, s.feeds[f := x'])
    requires FeedCtl(f, x', s.rootCancelled, s.systems[i := y'])
    ensures ControlInv(s.(systems := s.systems[i := y'], feeds := s.feeds[f := x']))
  {
    FaithfulKeepsRoot(s, i, y');
    JointKeepsSystems(s, i, y', f, x');
    JointKeepsFeeds(s, i, y', f, x');
  }

  // -------------------------------------------------------------- system loops

  // The moves of a system loop on its own; done says whether its context is done.
  predicate Moves(y: System, y': System, done: bool) {
    && (y' == y.(pc := y'.pc) || (y.pc.SWaiting? && y' == y.(pc := y'.pc, feeds := y.feeds - {y.pc.id})))
    && match y.pc
       case SSelect => done && y'.pc == SCancelling(y.feeds.Keys, Exit)
       case SCancelling(todo, next) => todo == {} && y'.pc == SStopping(next)
       case SStopping(next) =>
         || (y'.pc.SWaiting? && y'.pc.next == next && y'.pc.id in y.feeds)
         || (y.feeds == map[] && y'.pc == if next == Exit then SExited else SStartFeeds(0))
       case SWaiting(id, next) => y'.pc == SStopping(next)
       case SStartFeeds(_) => y'.pc == SReplyReset
       case SStatus(todo) =>
         || (y'.pc.SStatusSend? && y'.pc.id in todo && y'.pc.todo == todo - {y'.pc.id})
         || y'.pc == SReplyStatus
       case _ => false
  }

  lemma SystemAloneMoves(s: State, a: Action, s': State) returns (y': System)
    requires SystemEnabled(s, a) && s' == SystemApply(s, a)
    requires !a.CancelFeed? && !a.SendFeedStatus? && !a.FeedStatusDone? && !a.StartFeed? && !a.FeedStarted?
    ensures a.i in s.systems && Moves(s.systems[a.i], y', SystemDone(s, a.i))
    ensures s' == s.(systems := s.systems[a.i := y'])
  {
    y' := s'.systems[a.i];
  }

  lemma MovesKeepsCtl(y: System, y': System, root: RootPc, rootCancelled: bool, feeds: map<nat, Feed>)
    requires SystemCtl(y, root, rootCancelled, feeds) && Moves(y, y', rootCancelled || y.cancelled)
    ensures SystemCtl(y', root, rootCancelled, feeds)
    ensures Faithful(y, y') && !y.pc.SStatusAwait?
  {
  }

  lemma AloneStepKeepsControl(s: State, i: nat, y': System)
    requires ControlInv(s) && i in s.systems && Moves(s.systems[i], y', SystemDone(s, i))
    ensures ControlInv(s.(systems := s.systems[i := y']))
  {
    MovesKeepsCtl(s.systems[i], y', s.root, s.rootCancelled, s.feeds);
    AloneKeepsControl(s, i, y');
  }

  // The moves of a system loop with a feed loop from its map.
  predicate MovesWith(y: System, y': System, id: FeedId, x: Feed, x': Feed) {
    && y' == y.(pc := y'.pc) && id in y.feeds
    && match y.pc
       case SCancelling(todo, next) =>
         id in todo && y'.pc == SCancelling(todo - {id}, next) && x' == x.(cancelled := true)
       case SStatusSend(d, todo) =>
         id == d && y'.pc == SStatusAwait(d, todo) && x.pc == FSelect && x' == x.(pc := FReplying)
       case SStatusAwait(d, todo) =>
         id == d && y'.pc == SStatus(todo) && x.pc == FReplying && x' == x.(pc := FSelect)
       case _ => false
  }

  lemma SystemJointMoves(s: State, a: Action, s': State) returns (y': System, id: FeedId, x': Feed)
    requires SystemEnabled(s, a) && s' == SystemApply(s, a)
    requires a.CancelFeed? || a.SendFeedStatus? || a.FeedStatusDone?
    ensures a.i in s.systems && id in s.systems[a.i].feeds && s.systems[a.i].feeds[id] in s.feeds
    ensures MovesWith(s.systems[a.i], y', id, s.feeds[s.systems[a.i].feeds[id]], x')
    ensures s' == s.(systems := s.systems[a.i := y'], feeds := s.feeds[s.systems[a.i].feeds[id] := x'])
  {
    var y := s.systems[a.i];
    id := if a.CancelFeed? then a.id else y.pc.id;
    y', x' := s'.systems[a.i], s'.feeds[y.feeds[id]];
  }

  // A feed loop has one ID in its system loop's map.
  ghost predicate OneId(y: System, id: FeedId) {
    id in y.feeds && forall d :: d in y.feeds && y.feeds[d] == y.feeds[id] ==> d == id
  }

  lemma OwnFeeds(s: State, i: nat, id: FeedId)
    requires HoldingInv(s) && i in s.systems && id in s.systems[i].feeds
    ensures OneId(s.systems[i], id)
  {
    assert HoldsFeeds(i, s.systems[i], s.feeds, s.duplicates);
  }

  lemma MovesWithKeepsCtl(y: System, y': System, id: FeedId, x': Feed, root: RootPc, rootCancelled: bool, feeds: map<nat, Feed>)
    requires SystemCtl(y, root, rootCancelled, feeds) && OneId(y, id)
    requires y.feeds[id] in feeds && MovesWith(y, y', id, feeds[y.feeds[id]], x')
    ensures SystemCtl(y', root, rootCancelled, feeds[y.feeds[id] := x'])
    ensures Faithful(y, y')
  {
  }

  lemma MovesWithKeepsFeedCtl(s: State, i: nat, y': System, id: FeedId, x': Feed)
    requires i in s.systems && id in s.systems[i].feeds && s.systems[i].feeds[id] in s.feeds
    requires MovesWith(s.systems[i], y', id, s.feeds[s.systems[i].feeds[id]], x')
    requires s.feeds[s.systems[i].feeds[id]].parent == i
    requires FeedCtl(s.systems[i].feeds[id], s.feeds[s.systems[i].feeds[id]], s.rootCancelled, s.systems)
    requires s.feeds[s.systems[i].feeds[id]].pc == FReplying ==> s.systems[i].pc.SStatusAwait?
    ensures FeedCtl(s.systems[i].feeds[id], x', s.rootCancelled, s.systems[i := y'])
    ensures Joint(s, i, s.systems[i].feeds[id], x')
  {
  }

  lemma JointStepKeepsControl(s: State, i: nat, y': System, id: FeedId, x': Feed)
    requires HoldingInv(s) && ControlInv(s)
    requires i in s.systems && id in s.systems[i].feeds && s.systems[i].feeds[id] in s.feeds
    requires MovesWith(s.systems[i], y', id, s.feeds[s.systems[i].feeds[id]], x')
    ensures ControlInv(s.(systems := s.systems[i := y'], feeds := s.feeds[s.systems[i].feeds[id] := x']))
  {
    var f := s.systems[i].feeds[id];
    HeldFeed(s, i, id);
    OwnFeeds(s, i, id);
    assert SystemCtl(s.systems[i], s.root, s.rootCancelled, s.feeds);
    assert FeedCtl(f, s.feeds[f], s.rootCancelled, s.systems);
    MovesWithKeepsCtl(s.systems[i], y', id, x', s.root, s.rootCancelled, s.feeds);
    MovesWithKeepsFeedCtl(s, i, y', id, x');
    JointKeepsControl(s, i, y', f, x');
  }

  // A feed loop that is not yet in the map.
  lemma NewFeedCtl(y: System, f: nat, x': Feed, root: RootPc, rootCancelled: bool, feeds: map<nat, Feed>)
    requires SystemCtl(y, root, rootCancelled, feeds) && y.pc.SStartFeeds?
    requires forall id :: id in y.feeds ==> y.feeds[id] != f
    ensures SystemCtl(y.(pc := SStartingFeed(y.pc.k, f)), root, rootCancelled, feeds[f := x'])
  {
  }

  lemma StartedFeedCtl(y: System, y': System, f: nat, x: Feed, root: RootPc, rootCancelled: bool,
                       feeds: map<nat, Feed>, id: FeedId)
    requires SystemCtl(y, root, rootCancelled, feeds) && y.pc.SStartingFeed?
    requires y' == y.(pc := y'.pc, feeds := y.feeds[id := f]) && y'.pc.SStartFeeds?
    requires !x.cancelled && x.pc == FSelect && forall d :: d in y.feeds ==> y.feeds[d] != f
    ensures SystemCtl(y', root, rootCancelled, feeds[f := x]) && Faithful(y, y')
  {
  }

  lemma StartFeedKeepsControl(s: State, i: nat, f: nat)
    requires HoldingInv(s) && ControlInv(s) && SystemEnabled(s, StartFeed(i, f))
    ensures ControlInv(SystemApply(s, StartFeed(i, f)))
  {
    var y := s.systems[i];
    var k := y.pc.k;
    var y', x' := y.(pc := SStartingFeed(k, f)), Feed(i, y.target[k], false, FStarting, false);
    assert HoldsFeeds(i, y, s.feeds, s.duplicates);
    NewFeedCtl(y, f, x', s.root, s.rootCancelled, s.feeds);
    JointKeepsControl(s, i, y', f, x');
  }

  lemma NotYetHeld(s: State, i: nat, k: nat, f: nat)
    requires HoldingInv(s) && i in s.systems && s.systems[i].pc == SStartingFeed(k, f)
    ensures f in s.feeds && s.feeds[f].parent == i && !s.feeds[f].cancelled
    ensures forall d :: d in s.systems[i].feeds ==> s.systems[i].feeds[d] != f
  {
    assert HoldsFeeds(i, s.systems[i], s.feeds, s.duplicates);
  }

  lemma FeedStartedKeepsControl(s: State, i: nat, k: nat, f: nat)
    requires HoldingInv(s) && ControlInv(s) && i in s.systems && s.systems[i].pc == SStartingFeed(k, f)
    requires k < |s.systems[i].target| && f in s.feeds && s.feeds[f].pc == FStarting
    ensures var y := s.systems[i];
      ControlInv(s.(systems := s.systems[i := y.(pc := SStartFeeds(k + 1), feeds := y.feeds[y.target[k].id := f])],
                    feeds := s.feeds[f := s.feeds[f].(pc := FSelect)]))
  {
    var y := s.systems[i];
    var y', x' := y.(pc := SStartFeeds(k + 1), feeds := y.feeds[y.target[k].id := f]), s.feeds[f].(pc := FSelect);
    NotYetHeld(s, i, k, f);
    StartedFeedCtl(y, y', f, x', s.root, s.rootCancelled, s.feeds, y.target[k].id);
    JointKeepsControl(s, i, y', f, x');
  }

  lemma SystemKeepsControl(s: State, a: Action)
    requires HoldingInv(s) && ControlInv(s) && SystemEnabled(s, a)
    ensures ControlInv(SystemApply(s, a))
  {
    if a.CancelFeed? || a.SendFeedStatus? || a.FeedStatusDone? {
      var y', id, x' := SystemJointMoves(s, a, SystemApply(s, a));
      JointStepKeepsControl(s, a.i, y', id, x');
    } else if a.StartFeed? {
      StartFeedKeepsControl(s, a.i, a.f);
    } else if a.FeedStarted? {
      var k, f := FeedStartedState(s, a.i, SystemApply(s, a));
      FeedStartedKeepsControl(s, a.i, k, f);
    } else {
      var y' := SystemAloneMoves(s, a, SystemApply(s, a));
      AloneStepKeepsControl(s, a.i, y');
    }
  }

  // ------------------------------------------------------------- the root loop

  // The root loop is not waiting for this system loop.
  predicate Free(y: System) {
    !Serving(y) && !Reporting(y) && (y.cancelled ==> y.pc.SExited?)
  }

  predicate Waits(root: RootPc) {
    root.RAwaitReset? || root.RAwaitDone? || root.RStatusAwait?
  }

  // The root loop waits for at most one system loop, the one with that name.
  lemma OthersAreFree(s: State, j: nat)
    requires HoldingInv(s) && ControlInv(s) && j in s.systems
    requires Waits(s.root) && s.root.name in s.registry ==> j != s.registry[s.root.name]
    ensures Free(s.systems[j])
  {
    assert SystemCtl(s.systems[j], s.root, s.rootCancelled, s.feeds);
  }

  lemma FreeKeepsCtl(y: System, root: RootPc, root': RootPc, rootCancelled: bool, feeds: map<nat, Feed>)
    requires SystemCtl(y, root, rootCancelled, feeds) && Free(y)
    ensures SystemCtl(y, root', rootCancelled, feeds)
  {
  }

  // The root loop moves on alone.
  lemma RootAloneKeepsControl(s: State, root': RootPc, clientWaits: bool, duplicates: bool)
    requires HoldingInv(s) && ControlInv(s) && !Waits(s.root)
    requires RootCtl(root', s.rootCancelled, s.registry, s.systems)
    ensures ControlInv(s.(root := root', clientWaits := clientWaits, duplicates := duplicates))
  {
    forall j | j in s.systems ensures SystemCtl(s.systems[j], root', s.rootCancelled, s.feeds) {
      OthersAreFree(s, j);
      FreeKeepsCtl(s.systems[j], s.root, root', s.rootCancelled, s.feeds);
    }
  }

  // Feed loops only notice that their system loop is cancelled.
  lemma RootKeepsFeedCtl(s: State, i: nat, y': System)
    requires AllFeeds(s.feeds, s.rootCancelled, s.systems)
    requires i in s.systems ==> (s.systems[i].cancelled ==> y'.cancelled) && !s.systems[i].pc.SStatusAwait?
    ensures AllFeeds(s.feeds, s.rootCancelled, s.systems[i := y'])
  {
    forall f | f in s.feeds ensures FeedCtl(f, s.feeds[f], s.rootCancelled, s.systems[i := y']) {
      assert FeedCtl(f, s.feeds[f], s.rootCancelled, s.systems);
    }
  }

  // The root loop moves on together with the system loop it dealt or deals with.
  lemma OthersKeepCtl(s: State, root': RootPc, i: nat)
    requires HoldingInv(s) && ControlInv(s)
    requires Waits(s.root) ==> s.root.name in s.registry && i == s.registry[s.root.name]
    ensures forall j :: j in s.systems && j != i ==> SystemCtl(s.systems[j], root', s.rootCancelled, s.feeds)
  {
    forall j | j in s.systems && j != i ensures SystemCtl(s.systems[j], root', s.rootCancelled, s.feeds) {
      OthersAreFree(s, j);
      FreeKeepsCtl(s.systems[j], s.root, root', s.rootCancelled, s.feeds);
    }
  }

  lemma RootJointKeepsControl(s: State, root': RootPc, i: nat, y': System, registry': map<SystemId, nat>, duplicates: bool)
    requires HoldingInv(s) && ControlInv(s)
    requires Waits(s.root) ==> s.root.name in s.registry && i == s.registry[s.root.name]
    requires i in s.systems ==> (s.systems[i].cancelled ==> y'.cancelled) && !s.systems[i].pc.SStatusAwait?
    requires SystemCtl(y', root', s.rootCancelled, s.feeds)
    requires RootCtl(root', s.rootCancelled, registry', s.systems[i := y'])
    ensures ControlInv(s.(root := root', systems := s.systems[i := y'], registry := registry', duplicates := duplicates))
  {
    OthersKeepCtl(s, root', i);
    RootKeepsFeedCtl(s, i, y');
  }

  // What Handled needs of its caller once a name has been dealt with.
  ghost predicate CallerOk(c: Caller, rootCancelled: bool, registry: map<SystemId, nat>) {
    && (c.Sweep? ==> c.rest <= registry.Keys)
    && (c.Shutdown? ==> c.left == registry.Keys && rootCancelled)
  }

  lemma HandledCtl(name: SystemId, feeds: seq<Config>, c: Caller, rootCancelled: bool,
                   registry: map<SystemId, nat>, systems: map<nat, System>)
    requires CallerOk(c, rootCancelled, registry)
    ensures RootCtl(Handled(name, feeds, c), rootCancelled, registry, systems)
    ensures !Waits(Handled(name, feeds, c)) && !Handled(name, feeds, c).RSendReset?
  {
  }

  lemma CancelledCtl(y: System, root: RootPc, root': RootPc, rootCancelled: bool, feeds: map<nat, Feed>)
    requires SystemCtl(y, root, rootCancelled, feeds) && Free(y)
    requires root'.RAwaitDone? && root'.name == y.name
    ensures SystemCtl(y.(cancelled := true), root', rootCancelled, feeds)
  {
  }

  // stopScheduler up to its wait.
  lemma StoppingKeepsControl(s: State, name: SystemId, c: Caller)
    requires HoldingInv(s) && ControlInv(s) && !Waits(s.root)
    requires name in s.registry ==> s.registry[name] in s.systems
    requires name !in s.registry ==> CallerOk(c, s.rootCancelled, s.registry)
    requires name in s.registry ==> CallerOk(c, s.rootCancelled, s.registry - {name})
    requires c.Shutdown? ==> name !in c.left
    ensures ControlInv(Stopping(s, name, c))
  {
    if name !in s.registry {
      HandledCtl(name, [], c, s.rootCancelled, s.registry, s.systems);
      RootAloneKeepsControl(s, Handled(name, [], c), s.clientWaits, s.duplicates);
    } else {
      var i := s.registry[name];
      var y' := s.systems[i].(cancelled := true);
      assert SystemCtl(s.systems[i], s.root, s.rootCancelled, s.feeds);
      OthersAreFree(s, i);
      CancelledCtl(s.systems[i], s.root, RAwaitDone(name, c), s.rootCancelled, s.feeds);
      RootJointKeepsControl(s, RAwaitDone(name, c), i, y', s.registry, s.duplicates);
    }
  }

  lemma NewSystemCtl(name: SystemId, root: RootPc, rootCancelled: bool, feeds: map<nat, Feed>)
    ensures SystemCtl(System(name, false, SSelect, map[], []), root, rootCancelled, feeds)
  {
  }

  lemma AnswerKeepsControl(s: State, answer: Answer, i: nat)
    requires HoldingInv(s) && ControlInv(s) && AnswerEnabled(s, i)
    ensures ControlInv(AnswerApply(s, answer, i))
  {
    var name, c := s.root.name, s.root.caller;
    if answer.Failed? {
      RootAloneKeepsControl(s, HandledWithError(s, name, c), s.clientWaits, s.duplicates);
    } else if answer.feeds == [] {
      StoppingKeepsControl(s, name, c);
    } else {
      var root', duplicates' := RSendReset(name, answer.feeds, c), s.duplicates || !DistinctIds(answer.feeds);
      if name in s.registry {
        RootAloneKeepsControl(s, root', s.clientWaits, duplicates');
      } else {
        NewSystemCtl(name, root', s.rootCancelled, s.feeds);
        RootJointKeepsControl(s, root', i, System(name, false, SSelect, map[], []), s.registry[name := i], duplicates');
      }
    }
  }

  // The moves of the root loop together with a system loop from the registry.
  predicate RootMoves(root: RootPc, root': RootPc, y: System, y': System) {
    match root
    case RSendReset(n, feeds, c) =>
      && root' == RAwaitReset(n, feeds, c)
      && y.pc == SSelect && y' == y.(pc := SCancelling(y.feeds.Keys, Restart), target := feeds)
    case RAwaitReset(n, feeds, c) =>
      root' == Handled(n, feeds, c) && y.pc == SReplyReset && y' == y.(pc := SSelect)
    case RStatusSend(n, left) =>
      root' == RStatusAwait(n, left) && y.pc == SSelect && y' == y.(pc := SStatus(y.feeds.Keys))
    case RStatusAwait(n, left) =>
      root' == RStatus(left) && y.pc == SReplyStatus && y' == y.(pc := SSelect)
    case _ => false
  }

  lemma RootMovesWith(s: State, a: Action, s': State) returns (i: nat, y': System, root': RootPc)
    requires RootEnabled(s, a) && s' == RootApply(s, a)
    requires a.SendReset? || a.ResetDone? || a.SendStatus? || a.StatusDone?
    ensures s.root.RSendReset? || s.root.RAwaitReset? || s.root.RStatusSend? || s.root.RStatusAwait?
    ensures s.root.name in s.registry && i == s.registry[s.root.name] && i in s.systems
    ensures RootMoves(s.root, root', s.systems[i], y')
    ensures s' == s.(root := root', systems := s.systems[i := y'])
  {
    i := s.registry[s.root.name];
    y', root' := s'.systems[i], s'.root;
  }

  lemma RootMovesCtl(y: System, y': System, root: RootPc, root': RootPc, rootCancelled: bool, feeds: map<nat, Feed>)
    requires SystemCtl(y, root, rootCancelled, feeds) && RootMoves(root, root', y, y')
    requires y.name == root.name
    ensures SystemCtl(y', root', rootCancelled, feeds)
  {
  }

  lemma RootMovesRootCtl(s: State, root': RootPc, i: nat, y': System)
    requires RootCtl(s.root, s.rootCancelled, s.registry, s.systems)
    requires s.root.RSendReset? || s.root.RAwaitReset? || s.root.RStatusSend? || s.root.RStatusAwait?
    requires s.root.name in s.registry && i == s.registry[s.root.name] && i in s.systems
    requires RootMoves(s.root, root', s.systems[i], y')
    ensures RootCtl(root', s.rootCancelled, s.registry, s.systems[i := y'])
  {
    if s.root.RAwaitReset? {
      HandledCtl(s.root.name, s.root.feeds, s.root.caller, s.rootCancelled, s.registry, s.systems[i := y']);
    }
  }

  lemma RootMovesKeepsControl(s: State, root': RootPc, i: nat, y': System)
    requires HoldingInv(s) && ControlInv(s)
    requires s.root.RSendReset? || s.root.RAwaitReset? || s.root.RStatusSend? || s.root.RStatusAwait?
    requires s.root.name in s.registry && i == s.registry[s.root.name] && i in s.systems
    requires RootMoves(s.root, root', s.systems[i], y')
    ensures ControlInv(s.(root := root', systems := s.systems[i := y']))
  {
    assert SystemCtl(s.systems[i], s.root, s.rootCancelled, s.feeds);
    RootMovesCtl(s.systems[i], y', s.root, root', s.rootCancelled, s.feeds);
    RootMovesRootCtl(s, root', i, y');
    RootJointKeepsControl(s, root', i, y', s.registry, s.duplicates);
  }

  lemma StopDoneKeepsControl(s: State)
    requires HoldingInv(s) && ControlInv(s) && RootEnabled(s, StopDone)
    ensures ControlInv(RootApply(s, StopDone))
  {
    var name, c := s.root.name, s.root.caller;
    var i := s.registry[name];
    assert SystemCtl(s.systems[i], s.root, s.rootCancelled, s.feeds);
    HandledCtl(name, [], c, s.rootCancelled, s.registry - {name}, s.systems);
    FreeKeepsCtl(s.systems[i], s.root, Handled(name, [], c), s.rootCancelled, s.feeds);
    assert s.systems[i := s.systems[i]] == s.systems;
    RootJointKeepsControl(s, Handled(name, [], c), i, s.systems[i], s.registry - {name}, s.duplicates);
  }

  // The moves of the root loop on its own.
  lemma RootAloneMoves(s: State, a: Action, s': State)
    requires RootEnabled(s, a) && s' == RootApply(s, a)
    requires RootCtl(s.root, s.rootCancelled, s.registry, s.systems)
    requires !a.Answered? && !a.SendReset? && !a.ResetDone? && !a.StopDone? && !a.SendStatus? && !a.StatusDone?
    requires a.SweepNext? ==> a.name in s.root.all.handled
    requires !a.ShutdownNext?
    ensures !Waits(s.root) && RootCtl(s'.root, s.rootCancelled, s.registry, s.systems)
    ensures s' == s.(root := s'.root, clientWaits := s'.clientWaits)
  {
  }

  lemma RootKeepsControl(s: State, a: Action)
    requires HoldingInv(s) && ControlInv(s) && RootEnabled(s, a)
    ensures ControlInv(RootApply(s, a))
  {
    if a.Answered? {
      AnswerKeepsControl(s, AnswerOf(a.response), a.i);
    } else if a.SendReset? || a.ResetDone? || a.SendStatus? || a.StatusDone? {
      var i, y', root' := RootMovesWith(s, a, RootApply(s, a));
      RootMovesKeepsControl(s, root', i, y');
    } else if a.StopDone? {
      StopDoneKeepsControl(s);
    } else if a.ShutdownNext? {
      StoppingKeepsControl(s, a.name, Shutdown(s.root.left - {a.name}));
    } else if a.SweepNext? && a.name !in s.root.all.handled {
      StoppingKeepsControl(s, a.name, Sweep(s.root.left - {a.name}, s.root.all, s.root.ok));
    } else {
      RootAloneMoves(s, a, RootApply(s, a));
      RootAloneKeepsControl(s, RootApply(s, a).root, RootApply(s, a).clientWaits, s.duplicates);
    }
  }

  /** Every step keeps the control invariant. */
  lemma NextKeepsControl(s: State, s': State)
    requires HoldingInv(s) && ControlInv(s) && Next(s, s')
    ensures ControlInv(s')
  {
    if EnvStep(s, s') {
      var a :| EnvEnabled(s, a) && s' == EnvApply(s, a);
      EnvKeepsControl(s, a);
    } else if RootStep(s, s') {
      var a :| RootEnabled(s, a) && s' == RootApply(s, a);
      RootKeepsControl(s, a);
    } else if SystemStep(s, s') {
      var a :| SystemEnabled(s, a) && s' == SystemApply(s, a);
      SystemKeepsControl(s, a);
    } else {
      var a :| FeedEnabled(s, a) && s' == FeedApply(s, a);
      FeedKeepsControl(s, a);
    }
  }

  // ------------------------------------------------------------- cancellations

  // A cancelled system loop that is still in the registry is being waited for.
  ghost predicate CancelInv(root: RootPc, registry: map<SystemId, nat>, systems: map<nat, System>) {
    forall n :: n in registry ==>
      && registry[n] in systems
      && (systems[registry[n]].cancelled ==> root.RAwaitDone? && root.name == n)
  }

  // No system loop is cancelled.
  ghost predicate SameCancels(systems: map<nat, System>, systems': map<nat, System>) {
    forall i :: i in systems ==> i in systems' && systems'[i].cancelled == systems[i].cancelled
  }

  lemma SystemKeepsCancels(s: State, a: Action)
    requires SystemEnabled(s, a)
    ensures SystemApply(s, a).root == s.root && SystemApply(s, a).registry == s.registry
    ensures SameCancels(s.systems, SystemApply(s, a).systems)
  {
    SystemStepFrame(s, a);
  }

  lemma CancelOne(root: RootPc, registry: map<SystemId, nat>, systems: map<nat, System>, name: SystemId, c: Caller)
    requires RegistryInv(registry, systems) && CancelInv(root, registry, systems) && !root.RAwaitDone? && name in registry
    ensures CancelInv(RAwaitDone(name, c), registry, systems[registry[name] := systems[registry[name]].(cancelled := true)])
  {
    forall n | n in registry && n != name ensures registry[n] != registry[name] {
      assert systems[registry[n]].name == n;
    }
  }

  lemma StoppingKeepsCancel(s: State, name: SystemId, c: Caller)
    requires RegistryInv(s.registry, s.systems) && CancelInv(s.root, s.registry, s.systems) && !s.root.RAwaitDone?
    ensures var s' := Stopping(s, name, c); CancelInv(s'.root, s'.registry, s'.systems)
  {
    if name in s.registry {
      CancelOne(s.root, s.registry, s.systems, name, c);
    }
  }

  lemma AnswerKeepsCancel(s: State, answer: Answer, i: nat)
    requires RegistryInv(s.registry, s.systems) && CancelInv(s.root, s.registry, s.systems)
    requires AnswerEnabled(s, i)
    ensures var s' := AnswerApply(s, answer, i); CancelInv(s'.root, s'.registry, s'.systems)
  {
    if answer == Active([]) {
      StoppingKeepsCancel(s, s.root.name, s.root.caller);
    }
  }

  lemma StopDoneKeepsCancel(s: State)
    requires CancelInv(s.root, s.registry, s.systems) && RootEnabled(s, StopDone)
    ensures CancelInv(RootApply(s, StopDone).root, RootApply(s, StopDone).registry, s.systems)
    ensures RootApply(s, StopDone).systems == s.systems
  {
  }

  lemma RootMovesKeepsCancel(s: State, a: Action)
    requires CancelInv(s.root, s.registry, s.systems) && RootEnabled(s, a)
    requires a.SendReset? || a.ResetDone? || a.SendStatus? || a.StatusDone?
    ensures var s' := RootApply(s, a); CancelInv(s'.root, s'.registry, s'.systems)
  {
  }

  lemma RootAloneKeepsCancel(s: State, a: Action)
    requires CancelInv(s.root, s.registry, s.systems) && RootEnabled(s, a)
    requires !a.Answered? && !a.SendReset? && !a.ResetDone? && !a.StopDone? && !a.SendStatus? && !a.StatusDone?
    requires !a.ShutdownNext? && (a.SweepNext? ==> a.name in s.root.all.handled)
    ensures var s' := RootApply(s, a); CancelInv(s'.root, s'.registry, s'.systems)
  {
  }

  lemma RootKeepsCancel(s: State, a: Action)
    requires RegistryInv(s.registry, s.systems) && CancelInv(s.root, s.registry, s.systems) && RootEnabled(s, a)
    ensures var s' := RootApply(s, a); CancelInv(s'.root, s'.registry, s'.systems)
  {
    if a.Answered? {
      AnswerKeepsCancel(s, AnswerOf(a.response), a.i);
    } else if a.StopDone? {
      StopDoneKeepsCancel(s);
    } else if a.ShutdownNext? {
      StoppingKeepsCancel(s, a.name, Shutdown(s.root.left - {a.name}));
    } else if a.SweepNext? && a.name !in s.root.all.handled {
      StoppingKeepsCancel(s, a.name, Sweep(s.root.left - {a.name}, s.root.all, s.root.ok));
    } else if a.SendReset? || a.ResetDone? || a.SendStatus? || a.StatusDone? {
      RootMovesKeepsCancel(s, a);
    } else {
      RootAloneKeepsCancel(s, a);
    }
  }

  lemma EnvKeepsCancel(s: State, a: Action)
    requires CancelInv(s.root, s.registry, s.systems) && EnvEnabled(s, a)
    ensures var s' := EnvApply(s, a); CancelInv(s'.root, s'.registry, s'.systems)
  {
  }

  lemma NextKeepsCancel(s: State, s': State)
    requires HoldingInv(s) && CancelInv(s.root, s.registry, s.systems) && Next(s, s')
    ensures CancelInv(s'.root, s'.registry, s'.systems)
  {
    if EnvStep(s, s') {
      var a :| EnvEnabled(s, a) && s' == EnvApply(s, a);
      EnvKeepsCancel(s, a);
    } else if RootStep(s, s') {
      var a :| RootEnabled(s, a) && s' == RootApply(s, a);
      RootKeepsCancel(s, a);
    } else if SystemStep(s, s') {
      var a :| SystemEnabled(s, a) && s' == SystemApply(s, a);
      SystemKeepsCancels(s, a);
    } else {
      var a :| FeedEnabled(s, a) && s' == FeedApply(s, a);
      FeedStepFrame(s, a);
    }
  }

  ghost predicate Inv(s: State) {
    HoldingInv(s) && ControlInv(s) && CancelInv(s.root, s.registry, s.systems)
  }

  /** The invariants hold in every state of every run. */
  lemma {:induction false} ReachableInv(s: State)
    requires Reachable(s)
    ensures Inv(s)
  {
    var run :| IsRun(run) && run[|run| - 1] == s;
    RunInv(run, |run| - 1);
  }

  lemma {:induction false} RunInv(run: seq<State>, k: nat)
    requires IsRun(run) && k < |run|
    ensures Inv(run[k])
  {
    if k > 0 {
      RunInv(run, k - 1);
      assert Next(run[k - 1], run[k - 1 + 1]);
      NextKeepsHolding(run[k - 1], run[k]);
      NextKeepsControl(run[k - 1], run[k]);
      NextKeepsCancel(run[k - 1], run[k]);
    }
  }
}
