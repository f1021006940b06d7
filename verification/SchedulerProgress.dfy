/** A request that the scheduler has received is never stuck, except where a loop
    waits for one that is gone. */
module SchedulerProgress {
  import opened Decimal
  import opened SchedulingPolicy
  import opened Scheduler
  import opened SchedulerRuns
  import opened SchedulerFrames
  import opened SchedulerInvariants
  import opened SchedulerControl

  // Some loop is in the middle of something.
  ghost predicate Busy(s: State) {
    || (!s.root.RSelect? && !s.root.RReturned?)
    || (exists i :: i in s.systems && !s.systems[i].pc.SSelect? && !s.systems[i].pc.SExited?)
    || (exists f :: f in s.feeds && !s.feeds[f].pc.FSelect? && !s.feeds[f].pc.FExited?)
  }

  // A loop can take a step, or an update that is running can end.
  ghost predicate CanMove(s: State) {
    || (exists a :: RootEnabled(s, a))
    || (exists a :: SystemEnabled(s, a))
    || (exists a :: FeedEnabled(s, a))
    || (exists u :: EnvEnabled(s, UpdateEnds(u)))
  }

  // The root loop is replying to a client that has left.
  predicate Abandoned(s: State) {
    s.root.RReplying? && !s.clientWaits
  }

  // The root loop is sending to a system loop that has exited.
  predicate SendsToExited(s: State) {
    (s.root.RSendReset? || s.root.RStatusSend?) && At(s, s.root.name, SExited)
  }

  // A system loop is sending to a feed loop that has exited.
  predicate AsksExited(s: State, i: nat) {
    i in s.systems && s.systems[i].pc.SStatusSend? && FeedAt(s, i, s.systems[i].pc.id, FExited)
  }

  ghost predicate Blocked(s: State) {
    Abandoned(s) || SendsToExited(s) || exists i :: AsksExited(s, i)
  }

  // ------------------------------------------------------------------ progress

  lemma RootCan(s: State, a: Action)
    requires RootEnabled(s, a)
    ensures CanMove(s)
  {
  }

  lemma SystemCan(s: State, a: Action)
    requires SystemEnabled(s, a)
    ensures CanMove(s)
  {
  }

  lemma DrainingFeedMoves(s: State, f: nat)
    requires UpdatesInv(s.feeds, s.updates) && f in s.feeds && s.feeds[f].pc.FDraining?
    ensures CanMove(s)
  {
    assert HasUpdate(s.updates, f);
    var u :| Outstanding(s.updates, u, f);
    if s.updates[u].state == Sending {
      assert FeedEnabled(s, Drain(f, u));
    } else {
      assert EnvEnabled(s, UpdateEnds(u));
    }
  }

  // A feed loop that was told to stop does so once its update has ended.
  lemma DoneFeedMoves(s: State, f: nat)
    requires Inv(s) && f in s.feeds && s.feeds[f].parent in s.systems
    requires (s.feeds[f].pc.FSelect? && FeedDone(s, f)) || s.feeds[f].pc.FDraining?
    ensures CanMove(s)
  {
    if s.feeds[f].pc.FSelect? {
      assert FeedEnabled(s, FeedContextDone(f));
    } else {
      DrainingFeedMoves(s, f);
    }
  }

  lemma CancellingFeedMoves(s: State, i: nat, id: FeedId)
    requires HoldingInv(s) && i in s.systems && s.systems[i].pc.SCancelling?
    requires id in s.systems[i].pc.todo && id in s.systems[i].feeds
    ensures CanMove(s)
  {
    HeldFeed(s, i, id);
    SystemCan(s, CancelFeed(i, id));
  }

  lemma CancellingSystemMoves(s: State, i: nat)
    requires HoldingInv(s) && i in s.systems && s.systems[i].pc.SCancelling? && Pending(s.systems[i])
    ensures CanMove(s)
  {
    if s.systems[i].pc.todo == {} {
      SystemCan(s, AllCancelled(i));
    } else {
      var id :| id in s.systems[i].pc.todo;
      CancellingFeedMoves(s, i, id);
    }
  }

  lemma WaitingSystemMoves(s: State, i: nat)
    requires Inv(s) && i in s.systems && s.systems[i].pc.SWaiting?
    ensures CanMove(s)
  {
    var y := s.systems[i];
    assert SystemCtl(y, s.root, s.rootCancelled, s.feeds);
    HeldFeed(s, i, y.pc.id);
    var f := y.feeds[y.pc.id];
    if s.feeds[f].pc == FExited {
      SystemCan(s, Waited(i));
    } else {
      assert s.feeds[f].cancelled && s.feeds[f].pc != FReplying;
      DoneFeedMoves(s, f);
    }
  }

  lemma StoppingSystemMoves(s: State, i: nat)
    requires i in s.systems && s.systems[i].pc.SStopping?
    ensures CanMove(s)
  {
    if s.systems[i].feeds == map[] {
      SystemCan(s, AllStopped(i));
    } else {
      var id :| id in s.systems[i].feeds;
      SystemCan(s, WaitFor(i, id));
    }
  }

  lemma StartingSystemMoves(s: State, i: nat)
    requires i in s.systems && s.systems[i].pc.SStartFeeds?
    ensures CanMove(s)
  {
    if s.systems[i].pc.k < |s.systems[i].target| {
      var f := FreshId(s.feeds.Keys);
      SystemCan(s, StartFeed(i, f));
    } else {
      SystemCan(s, AllStarted(i));
    }
  }

  lemma StartingFeedMoves(s: State, i: nat)
    requires Inv(s) && i in s.systems && s.systems[i].pc.SStartingFeed?
    ensures CanMove(s)
  {
    assert HoldsFeeds(i, s.systems[i], s.feeds, s.duplicates);
    SystemCan(s, FeedStarted(i));
  }

  // There is always a number that no loop has yet.
  lemma {:induction false} FreshId(used: set<nat>) returns (f: nat)
    ensures f !in used
    ensures forall x :: x in used ==> x < f
  {
    if used == {} {
      f := 0;
    } else {
      var x :| x in used;
      var g := FreshId(used - {x});
      f := if x < g then g else x + 1;
      forall z | z in used ensures z < f {
        assert z == x || z in used - {x};
      }
    }
  }

  lemma AskingSystemMoves(s: State, i: nat)
    requires Inv(s) && i in s.systems && s.systems[i].pc.SStatusSend? && !AsksExited(s, i)
    ensures CanMove(s)
  {
    var y := s.systems[i];
    assert SystemCtl(y, s.root, s.rootCancelled, s.feeds);
    HeldFeed(s, i, y.pc.id);
    if s.feeds[y.feeds[y.pc.id]].pc == FSelect {
      SystemCan(s, SendFeedStatus(i));
    } else {
      DoneFeedMoves(s, y.feeds[y.pc.id]);
    }
  }

  lemma AskedSystemMoves(s: State, i: nat)
    requires Inv(s) && i in s.systems && s.systems[i].pc.SStatusAwait?
    ensures CanMove(s)
  {
    assert SystemCtl(s.systems[i], s.root, s.rootCancelled, s.feeds);
    HeldFeed(s, i, s.systems[i].pc.id);
    SystemCan(s, FeedStatusDone(i));
  }

  lemma CollectingSystemMoves(s: State, i: nat)
    requires i in s.systems && s.systems[i].pc.SStatus?
    ensures CanMove(s)
  {
    if s.systems[i].pc.todo == {} {
      SystemCan(s, FeedStatusOver(i));
    } else {
      var id :| id in s.systems[i].pc.todo;
      SystemCan(s, FeedStatusNext(i, id));
    }
  }

  lemma ReplyingSystemMoves(s: State, i: nat)
    requires Inv(s) && i in s.systems && (s.systems[i].pc.SReplyReset? || s.systems[i].pc.SReplyStatus?)
    ensures CanMove(s)
  {
    assert SystemCtl(s.systems[i], s.root, s.rootCancelled, s.feeds);
    assert At(s, s.root.name, s.systems[i].pc);
    RootCan(s, if s.systems[i].pc.SReplyReset? then ResetDone else StatusDone);
  }

  // A system loop in the middle of something moves, or the root loop takes its reply.
  lemma BusySystemMoves(s: State, i: nat)
    requires Inv(s) && i in s.systems && !AsksExited(s, i)
    requires !s.systems[i].pc.SSelect? && !s.systems[i].pc.SExited?
    ensures CanMove(s)
  {
    assert SystemCtl(s.systems[i], s.root, s.rootCancelled, s.feeds);
    match s.systems[i].pc
    case SCancelling(_, _) => CancellingSystemMoves(s, i);
    case SStopping(_) => StoppingSystemMoves(s, i);
    case SWaiting(_, _) => WaitingSystemMoves(s, i);
    case SStartFeeds(_) => StartingSystemMoves(s, i);
    case SStartingFeed(_, _) => StartingFeedMoves(s, i);
    case SStatus(_) => CollectingSystemMoves(s, i);
    case SStatusSend(_, _) => AskingSystemMoves(s, i);
    case SStatusAwait(_, _) => AskedSystemMoves(s, i);
    case _ => ReplyingSystemMoves(s, i);
  }

  // A feed loop in the middle of something moves, or the system loop it deals with does.
  lemma BusyFeedMoves(s: State, f: nat)
    requires Inv(s) && f in s.feeds && !s.feeds[f].pc.FSelect? && !s.feeds[f].pc.FExited?
    ensures CanMove(s)
  {
    var x := s.feeds[f];
    assert IsHeld(f, x, s.systems, s.duplicates);
    assert FeedCtl(f, x, s.rootCancelled, s.systems);
    match x.pc
    case FStarting => StartingFeedMoves(s, x.parent);
    case FReplying => AskedSystemMoves(s, x.parent);
    case FDraining => DoneFeedMoves(s, f);
  }

  predicate WaitsForSystem(root: RootPc) {
    root.RSendReset? || root.RAwaitReset? || root.RStatusSend? || root.RStatusAwait? || root.RAwaitDone?
  }

  lemma WaitedSystem(s: State)
    requires Inv(s) && WaitsForSystem(s.root)
    ensures s.root.name in s.registry && s.registry[s.root.name] in s.systems
    ensures s.root.RAwaitReset? ==> Serving(s.systems[s.registry[s.root.name]])
    ensures s.root.RStatusAwait? ==> Reporting(s.systems[s.registry[s.root.name]])
    ensures s.root.RAwaitDone? ==> s.systems[s.registry[s.root.name]].cancelled
  {
  }

  // The root loop waits for a system loop that can take the message, or is at work.
  lemma RootWaitingMoves(s: State)
    requires Inv(s) && !SendsToExited(s) && WaitsForSystem(s.root)
    requires forall i :: !AsksExited(s, i)
    ensures CanMove(s)
  {
    WaitedSystem(s);
    var i := s.registry[s.root.name];
    if !s.systems[i].pc.SSelect? && !s.systems[i].pc.SExited? {
      assert !AsksExited(s, i);
      BusySystemMoves(s, i);
    } else if s.root.RAwaitDone? && s.systems[i].pc.SSelect? {
      SystemCan(s, SystemContextDone(i));
    } else {
      assert At(s, s.root.name, s.systems[i].pc);
      RootCan(s, if s.root.RSendReset? then SendReset else if s.root.RStatusSend? then SendStatus else StopDone);
    }
  }

  lemma RootAloneMoves(s: State)
    requires Inv(s) && !Abandoned(s)
    requires s.root.RListing? || s.root.RNext? || s.root.RConfig? || s.root.RSweep? || s.root.RReplying?
          || s.root.RStatus? || s.root.RShutdown?
    ensures CanMove(s)
  {
    match s.root
    case RListing => RootCan(s, ListingFails);
    case RNext(todo, _) => RootCan(s, if todo == [] then AllHandled else NextSystem);
    case RConfig(_, _) =>
      var i := FreshId(s.systems.Keys);
      RootCan(s, Answered(Unavailable, i));
    case RSweep(left, _, _) =>
      if left == {} {
        RootCan(s, SweepDone);
      } else {
        var n :| n in left;
        RootCan(s, SweepNext(n));
      }
    case RReplying(_) => RootCan(s, RootReply);
    case RStatus(left) =>
      if left == {} {
        RootCan(s, StatusOver);
      } else {
        var n :| n in left;
        RootCan(s, StatusNext(n));
      }
    case RShutdown(left) =>
      if left == {} {
        RootCan(s, Return);
      } else {
        var n :| n in left;
        RootCan(s, ShutdownNext(n));
      }
  }

  lemma BusyMoves(s: State)
    requires Inv(s) && Busy(s) && !Blocked(s)
    ensures CanMove(s)
  {
    if i :| i in s.systems && !s.systems[i].pc.SSelect? && !s.systems[i].pc.SExited? {
      assert !AsksExited(s, i);
      BusySystemMoves(s, i);
    } else if f :| f in s.feeds && !s.feeds[f].pc.FSelect? && !s.feeds[f].pc.FExited? {
      BusyFeedMoves(s, f);
    } else if WaitsForSystem(s.root) {
      RootWaitingMoves(s);
    } else {
      RootAloneMoves(s);
    }
  }

  /** No deadlock: as long as the root context is not cancelled and clients wait for
      their reply, whenever some loop is in the middle of something, some loop can
      move or an update is about to end. */
  lemma NoDeadlock(s: State)
    requires Reachable(s) && Busy(s)
    requires !s.rootCancelled && (s.root.RReplying? ==> s.clientWaits)
    ensures CanMove(s)
  {
    ReachableInv(s);
    if Blocked(s) {
      BlockedOnlyByCancelling(s);
    }
    BusyMoves(s);
  }

  lemma AsksExitedOnlyByCancelling(s: State, i: nat)
    requires Inv(s) && AsksExited(s, i)
    ensures s.rootCancelled
  {
    var y := s.systems[i];
    var f := y.feeds[y.pc.id];
    assert SystemCtl(y, s.root, s.rootCancelled, s.feeds);
    HeldFeed(s, i, y.pc.id);
    assert FeedCtl(f, s.feeds[f], s.rootCancelled, s.systems);
  }

  lemma SendsToExitedOnlyByCancelling(s: State)
    requires Inv(s) && SendsToExited(s)
    ensures s.rootCancelled
  {
    assert SystemCtl(s.systems[s.registry[s.root.name]], s.root, s.rootCancelled, s.feeds);
  }

  /** What a caller has to do to bring about a blocked state: cancel the root
      context, or leave before the reply. */
  lemma BlockedOnlyByCancelling(s: State)
    requires Inv(s) && Blocked(s)
    ensures s.rootCancelled || (s.root.RReplying? && !s.clientWaits)
  {
    if i :| AsksExited(s, i) {
      AsksExitedOnlyByCancelling(s, i);
    } else if SendsToExited(s) {
      SendsToExitedOnlyByCancelling(s);
    }
  }

  // ------------------------------------------------------------ blocked for good

  // A loop that has exited stays as it is, and a step of one system loop leaves
  // the others and the root loop where they are.
  ghost predicate StaysPut(s: State, s': State, moved: nat) {
    && s'.root == s.root && s'.registry == s.registry && s'.clientWaits == s.clientWaits
    && (forall j :: j in s.systems && j != moved ==> j in s'.systems && s'.systems[j] == s.systems[j])
    && (forall f :: f in s.feeds && s.feeds[f].pc == FExited ==> f in s'.feeds && s'.feeds[f].pc == FExited)
  }

  lemma SystemStaysPut(s: State, a: Action)
    requires SystemEnabled(s, a)
    ensures StaysPut(s, SystemApply(s, a), a.i)
    ensures a.i in s.systems && !s.systems[a.i].pc.SExited? && !AsksExited(s, a.i)
  {
  }

  lemma SystemKeepsBlocked(s: State, a: Action)
    requires Blocked(s) && SystemEnabled(s, a)
    ensures Blocked(SystemApply(s, a)) && SystemApply(s, a).root == s.root
  {
    SystemStaysPut(s, a);
    StaysBlocked(s, SystemApply(s, a), a.i);
  }

  lemma StaysBlocked(s: State, s': State, moved: nat)
    requires Blocked(s) && StaysPut(s, s', moved)
    requires moved in s.systems ==> !s.systems[moved].pc.SExited? && !AsksExited(s, moved)
    ensures Blocked(s')
  {
    if i :| AsksExited(s, i) {
      assert AsksExited(s', i);
    } else if SendsToExited(s) {
      assert SendsToExited(s');
    }
  }

  lemma FeedStaysPut(s: State, a: Action, none: nat)
    requires FeedEnabled(s, a)
    ensures StaysPut(s, FeedApply(s, a), none)
  {
    FeedStepFrame(s, a);
  }

  lemma FeedKeepsBlocked(s: State, a: Action)
    requires Blocked(s) && FeedEnabled(s, a)
    ensures Blocked(FeedApply(s, a)) && FeedApply(s, a).root == s.root
  {
    var none := FreshId(s.systems.Keys);
    FeedStaysPut(s, a, none);
    StaysBlocked(s, FeedApply(s, a), none);
  }

  lemma BlockedRoot(s: State)
    requires Inv(s) && Blocked(s)
    ensures s.root.RReplying? || s.root.RSendReset? || s.root.RStatusSend? || s.root.RStatusAwait?
    ensures s.root.RReplying? ==> !s.clientWaits
    ensures s.root.RSendReset? || s.root.RStatusSend? ==> !At(s, s.root.name, SSelect)
    ensures s.root.RStatusAwait? ==> !At(s, s.root.name, SReplyStatus)
  {
    if i :| AsksExited(s, i) {
      assert SystemCtl(s.systems[i], s.root, s.rootCancelled, s.feeds);
      assert s.registry[s.systems[i].name] == i;
    }
  }

  lemma RootStuck(s: State, a: Action)
    requires s.root.RReplying? || s.root.RSendReset? || s.root.RStatusSend? || s.root.RStatusAwait?
    requires s.root.RReplying? ==> !s.clientWaits
    requires s.root.RSendReset? || s.root.RStatusSend? ==> !At(s, s.root.name, SSelect)
    requires s.root.RStatusAwait? ==> !At(s, s.root.name, SReplyStatus)
    ensures !RootEnabled(s, a)
  {
  }

  lemma EnvKeepsBlocked(s: State, a: Action)
    requires Blocked(s) && EnvEnabled(s, a) && !s.root.RSelect?
    ensures Blocked(EnvApply(s, a)) && EnvApply(s, a).root == s.root
  {
    var s' := EnvApply(s, a);
    if i :| AsksExited(s, i) {
      assert AsksExited(s', i);
    }
  }

  /** A blocked root loop never moves again, so no request is answered any more and
      the scheduler does not return. */
  lemma BlockedForGood(s: State, s': State)
    requires Inv(s) && Blocked(s) && Next(s, s')
    ensures Blocked(s') && s'.root == s.root && !s'.root.RSelect? && !s'.root.RReturned?
  {
    BlockedRoot(s);
    if EnvStep(s, s') {
      var a :| EnvEnabled(s, a) && s' == EnvApply(s, a);
      EnvKeepsBlocked(s, a);
    } else if RootStep(s, s') {
      var a :| RootEnabled(s, a) && s' == RootApply(s, a);
      RootStuck(s, a);
    } else if SystemStep(s, s') {
      var a :| SystemEnabled(s, a) && s' == SystemApply(s, a);
      SystemKeepsBlocked(s, a);
    } else {
      var a :| FeedEnabled(s, a) && s' == FeedApply(s, a);
      FeedKeepsBlocked(s, a);
    }
  }

  // ------------------------------------------------------ when nothing can block

  // The surroundings may cancel the root context, or not, and clients may leave
  // before their reply, or not.
  ghost function Env(mayCancel: bool, mayLeave: bool): Action -> bool {
    (a: Action) => (a.CancelRoot? ==> mayCancel) && (a.ClientLeaves? ==> mayLeave)
  }

  // The root context is not done, and no client has left.
  predicate Attentive(s: State) {
    !s.rootCancelled && (s.root.RSelect? || s.clientWaits)
  }

  lemma StepKeepsAttentive(s: State, a: Action, s': State)
    requires Attentive(s) && StepBy(s, a, s') && !a.CancelRoot? && !a.ClientLeaves?
    ensures Attentive(s')
  {
    if RootEnabled(s, a) && s' == RootApply(s, a) {
      RootStepFrame(s, a);
    } else if SystemEnabled(s, a) && s' == SystemApply(s, a) {
      SystemStepFrame(s, a);
    } else if FeedEnabled(s, a) && s' == FeedApply(s, a) {
      FeedStepFrame(s, a);
    }
  }

  lemma {:induction false} RunAttentive(run: seq<State>, k: nat)
    requires IsRunBy(run, Env(false, false)) && k < |run|
    ensures Attentive(run[k])
  {
    if k > 0 {
      RunAttentive(run, k - 1);
      assert NextBy(run[k - 1], run[k - 1 + 1], Env(false, false));
      var a :| Env(false, false)(a) && StepBy(run[k - 1], a, run[k]);
      StepKeepsAttentive(run[k - 1], a, run[k]);
    }
  }

  lemma AttentiveIsNotBlocked(s: State)
    requires ReachableBy(s, Env(false, false))
    ensures !Blocked(s)
  {
    var run :| IsRunBy(run, Env(false, false)) && run[|run| - 1] == s;
    RunAttentive(run, |run| - 1);
    ReachableByIsReachable(s, Env(false, false));
    ReachableInv(s);
    if Blocked(s) {
      BlockedOnlyByCancelling(s);
    }
  }

  // ------------------------------------------------------- blocked states exist

  // The only system loop has no feeds yet.
  function Lone(s: State, name: SystemId, pc: SystemPc): State {
    s.(systems := map[0 := System(name, false, pc, map[], [])])
  }

  lemma LoneSeesContext(s: State, name: SystemId)
    requires s.rootCancelled
    ensures SystemEnabled(Lone(s, name, SSelect), SystemContextDone(0))
    ensures SystemApply(Lone(s, name, SSelect), SystemContextDone(0)) == Lone(s, name, SCancelling({}, Exit))
  {
    assert Lone(s, name, SSelect).systems[0].feeds.Keys == {};
  }

  lemma LoneStops(s: State, name: SystemId)
    ensures SystemEnabled(Lone(s, name, SCancelling({}, Exit)), AllCancelled(0))
    ensures SystemApply(Lone(s, name, SCancelling({}, Exit)), AllCancelled(0)) == Lone(s, name, SStopping(Exit))
  {
  }

  lemma LoneIsOver(s: State, name: SystemId)
    ensures SystemEnabled(Lone(s, name, SStopping(Exit)), AllStopped(0))
    ensures SystemApply(Lone(s, name, SStopping(Exit)), AllStopped(0)) == Lone(s, name, SExited)
  {
  }

  // It exits on the cancelled root context.
  lemma LoneExits(s: State, name: SystemId, allowed: Action -> bool)
    requires ReachableBy(Lone(s, name, SSelect), allowed) && s.rootCancelled
    requires allowed(SystemContextDone(0)) && allowed(AllCancelled(0)) && allowed(AllStopped(0))
    ensures ReachableBy(Lone(s, name, SExited), allowed)
  {
    LoneSeesContext(s, name);
    LoneStops(s, name);
    LoneIsOver(s, name);
    SystemReaches(Lone(s, name, SSelect), SystemContextDone(0), Lone(s, name, SCancelling({}, Exit)), allowed);
    SystemReaches(Lone(s, name, SCancelling({}, Exit)), AllCancelled(0), Lone(s, name, SStopping(Exit)), allowed);
    SystemReaches(Lone(s, name, SStopping(Exit)), AllStopped(0), Lone(s, name, SExited), allowed);
  }

  // The feeds are on their way to the system loop, which is gone.
  predicate Strands(s: State, name: SystemId, feeds: seq<Config>) {
    s.clientWaits && s.root == RSendReset(name, feeds, One) && SendsToExited(s)
  }

  /** Cancelling the root context at the wrong moment can block the scheduler, whatever
      the first system to be reset is and has to update: the new system loop exits
      before its reset message arrives, and the client is still there. */
  lemma CancellingCanBlock(name: SystemId, r: Response, feeds: seq<Config>)
    requires Sensible(r) && AnswerOf(r) == Active(feeds) && feeds != []
    ensures exists s :: ReachableBy(s, Env(true, false)) && Strands(s, name, feeds)
  {
    FirstReset(name, r, feeds, Env(true, false));
    CancelledFirstReset(name, r, feeds);
  }

  lemma CancelledFirstReset(name: SystemId, r: Response, feeds: seq<Config>)
    requires ReachableBy(NewSystem(name, r, feeds), Env(true, false))
    ensures exists s :: ReachableBy(s, Env(true, false)) && Strands(s, name, feeds)
  {
    var s := NewSystem(name, r, feeds);
    var s1 := EnvApply(s, CancelRoot);
    EnvReaches(s, CancelRoot, s1, Env(true, false));
    assert s1 == Lone(s1, name, SSelect);
    LoneExits(s1, name, Env(true, false));
    assert Strands(Lone(s1, name, SExited), name, feeds);
  }

  /** So can a client that leaves before the reply. */
  lemma LeavingCanBlock()
    ensures exists s :: ReachableBy(s, Env(false, true)) && Abandoned(s)
  {
    InitialIsReachableBy(Env(false, true));
    var s1 := EnvApply(INITIAL, RequestStatus);
    EnvReaches(INITIAL, RequestStatus, s1, Env(false, true));
    var s2 := RootApply(s1, StatusOver);
    RootReaches(s1, StatusOver, s2, Env(false, true));
    var s3 := EnvApply(s2, ClientLeaves);
    EnvReaches(s2, ClientLeaves, s3, Env(false, true));
    assert Abandoned(s3);
  }

  // A system with something to update.
  lemma SomeResponse() returns (r: Response, feeds: seq<Config>)
    ensures Sensible(r) && AnswerOf(r) == Active(feeds) && feeds != []
  {
    var c := Config("", "", "", None, PERIODIC, None, None, "", "");
    r := Found([c], [], name => true);
    feeds := Asked(r);
    NothingActive(r.config, r.agencies, r.known);
    assert r.config[0].policy != NONE;
  }

  /** No loop is ever blocked for good, in any interleaving, exactly when the root
      context is not cancelled and no client leaves before its reply. */
  lemma NeverBlockedIff(mayCancel: bool, mayLeave: bool)
    ensures (forall s :: ReachableBy(s, Env(mayCancel, mayLeave)) ==> !Blocked(s)) <==> (!mayCancel && !mayLeave)
  {
    if mayCancel {
      var r, feeds := SomeResponse();
      CancellingCanBlock("", r, feeds);
      var s :| ReachableBy(s, Env(true, false)) && Strands(s, "", feeds);
      ReachableByMore(s, Env(true, false), Env(mayCancel, mayLeave));
    } else if mayLeave {
      LeavingCanBlock();
      var s :| ReachableBy(s, Env(false, true)) && Abandoned(s);
      ReachableByMore(s, Env(false, true), Env(mayCancel, mayLeave));
    } else {
      forall s | ReachableBy(s, Env(mayCancel, mayLeave)) ensures !Blocked(s) {
        AttentiveIsNotBlocked(s);
      }
    }
  }
}
