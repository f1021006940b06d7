/** Every request ends, and so does the scheduler: a measure that the steps of all
    loops use up, whatever the ticks and the updates do meanwhile. */
module SchedulerTermination {
  import opened Collections
  import opened SchedulingPolicy
  import opened Scheduler
  import opened SchedulerRuns
  import opened SchedulerFrames
  import opened SchedulerControl
  import opened SchedulerSafety
  import opened SchedulerProgress

  // What is left to do, in order of weight: the root loop's stage, the systems it
  // has yet to deal with, its step with the current one, the stages that the system
  // loops have yet to go through, the feeds they have yet to deal with, the feed
  // loops that have yet to exit, and the results that have yet to be received.
  datatype Work = Work(stage: nat, names: nat, step: nat, phases: nat, feeds: nat, loops: nat, results: nat)

  predicate Less(v: Work, w: Work) {
    v.stage < w.stage || (v.stage == w.stage && (
    v.names < w.names || (v.names == w.names && (
    v.step < w.step || (v.step == w.step && (
    v.phases < w.phases || (v.phases == w.phases && (
    v.feeds < w.feeds || (v.feeds == w.feeds && (
    v.loops < w.loops || (v.loops == w.loops &&
    v.results < w.results)))))))))))
  }

  function CallerStage(c: Caller): nat {
    match c case One => 5 case All(_, _) => 5 case Sweep(_, _, _) => 4 case Shutdown(_) => 1
  }

  function CallerNames(c: Caller): nat {
    match c case One => 0 case All(todo, _) => |todo| case Sweep(rest, _, _) => |rest| case Shutdown(left) => |left|
  }

  function RootStage(root: RootPc): nat {
    match root
    case RListing => 6
    case RNext(_, _) => 5
    case RConfig(_, c) => CallerStage(c)
    case RSendReset(_, _, c) => CallerStage(c)
    case RAwaitReset(_, _, c) => CallerStage(c)
    case RAwaitDone(_, c) => CallerStage(c)
    case RReplying(_) => 3
    case RSelect => 2
    case RShutdown(_) => 1
    case RReturned => 0
    case _ => 4
  }

  function NamesLeft(root: RootPc): nat {
    match root
    case RNext(todo, _) => |todo|
    case RConfig(_, c) => CallerNames(c)
    case RSendReset(_, _, c) => CallerNames(c)
    case RAwaitReset(_, _, c) => CallerNames(c)
    case RAwaitDone(_, c) => CallerNames(c)
    case RSweep(left, _, _) => |left|
    case RStatus(left) => |left|
    case RStatusSend(_, left) => |left|
    case RStatusAwait(_, left) => |left|
    case RShutdown(left) => |left|
    case _ => 0
  }

  function StepsLeft(root: RootPc): nat {
    match root
    case RConfig(_, _) => 4
    case RSendReset(_, _, _) => 3
    case RAwaitReset(_, _, _) => 2
    case RAwaitDone(_, _) => 2
    case RStatusSend(_, _) => 2
    case RStatusAwait(_, _) => 1
    case _ => 0
  }

  function Phase(pc: SystemPc): nat {
    match pc
    case SSelect => 7
    case SCancelling(_, _) => 6
    case SStopping(_) => 5
    case SWaiting(_, _) => 5
    case SStartFeeds(_) => 4
    case SStartingFeed(_, _) => 4
    case SReplyReset => 3
    case SStatus(_) => 2
    case SStatusSend(_, _) => 2
    case SStatusAwait(_, _) => 2
    case SReplyStatus => 1
    case SExited => 0
  }

  function FeedsLeft(y: System): nat {
    match y.pc
    case SCancelling(todo, _) => |todo|
    case SStopping(_) => 2 * |y.feeds| + 1
    case SWaiting(_, _) => 2 * |y.feeds|
    case SStartFeeds(k) => if k <= |y.target| then 2 * (|y.target| - k) + 1 else 0
    case SStartingFeed(k, _) => if k <= |y.target| then 2 * (|y.target| - k) else 0
    case SStatus(todo) => 3 * |todo|
    case SStatusSend(_, todo) => 3 * |todo| + 2
    case SStatusAwait(_, todo) => 3 * |todo| + 1
    case _ => 0
  }

  // The feed loops that have not exited count once, those that have not even
  // noticed that their context is done twice.
  function Alive(feeds: map<nat, Feed>): set<nat> {
    set f | f in feeds && feeds[f].pc != FExited
  }

  function Unaware(feeds: map<nat, Feed>): set<nat> {
    set f | f in feeds && feeds[f].pc != FExited && feeds[f].pc != FDraining
  }

  function LoopsLeft(feeds: map<nat, Feed>): nat {
    |Alive(feeds)| + |Unaware(feeds)|
  }

  // The updates whose result has not been received count once, those that are
  // still running twice.
  function Unreceived(updates: map<nat, Update>): set<nat> {
    set u | u in updates && updates[u].state != Received
  }

  function Running(updates: map<nat, Update>): set<nat> {
    set u | u in updates && updates[u].state == Flying
  }

  function ResultsLeft(updates: map<nat, Update>): nat {
    |Unreceived(updates)| + |Running(updates)|
  }

  // One token for every stage that some system loop has yet to go through.
  function PhaseTokens(systems: map<nat, System>): set<(nat, nat)> {
    set i, k | i in systems && 0 <= k < Phase(systems[i].pc) :: (i, k)
  }

  function FeedTokens(systems: map<nat, System>): set<(nat, nat)> {
    set i, k | i in systems && 0 <= k < FeedsLeft(systems[i]) :: (i, k)
  }

  function WorkLeft(s: State): Work {
    Work(RootStage(s.root), NamesLeft(s.root), StepsLeft(s.root),
         |PhaseTokens(s.systems)|, |FeedTokens(s.systems)|, LoopsLeft(s.feeds), ResultsLeft(s.updates))
  }

  // The root loop gets further.
  predicate Further(root': RootPc, root: RootPc) {
    || RootStage(root') < RootStage(root)
    || (RootStage(root') == RootStage(root) && NamesLeft(root') < NamesLeft(root))
    || (RootStage(root') == RootStage(root) && NamesLeft(root') == NamesLeft(root) && StepsLeft(root') < StepsLeft(root))
  }

  lemma SmallerSet<T>(a: set<T>, x: T)
    requires x in a
    ensures |a - {x}| < |a|
  {
  }

  lemma ProperSubsetSize<T>(a: set<T>, b: set<T>, x: T)
    requires a <= b && x in b && x !in a
    ensures |a| < |b|
  {
    SubsetSize(a, b - {x});
  }

  lemma HandledGetsFurther(name: SystemId, feeds: seq<Config>, c: Caller, root: RootPc)
    requires (root.RConfig? || root.RAwaitReset? || root.RAwaitDone?) && root.caller == c
    ensures Further(Handled(name, feeds, c), root)
  {
  }

  lemma StoppingGetsFurther(s: State, name: SystemId, c: Caller)
    requires name in s.registry ==> s.registry[name] in s.systems
    ensures Stopping(s, name, c).root == RAwaitDone(name, c) || Stopping(s, name, c).root == Handled(name, [], c)
  {
  }

  lemma ErrorGetsFurther(s: State, i: nat)
    requires AnswerEnabled(s, i) && ResetCaller(s.root.caller)
    ensures Further(AnswerApply(s, Failed, i).root, s.root)
  {
  }

  lemma NothingGetsFurther(s: State, i: nat)
    requires AnswerEnabled(s, i)
    ensures Further(AnswerApply(s, Active([]), i).root, s.root)
  {
    StoppingGetsFurther(s, s.root.name, s.root.caller);
    HandledGetsFurther(s.root.name, [], s.root.caller, s.root);
  }

  lemma SomethingIsSent(s: State, feeds: seq<Config>, i: nat)
    requires AnswerEnabled(s, i) && feeds != []
    ensures AnswerApply(s, Active(feeds), i).root == RSendReset(s.root.name, feeds, s.root.caller)
  {
  }

  lemma SendingIsFurther(name: SystemId, feeds: seq<Config>, c: Caller)
    ensures Further(RSendReset(name, feeds, c), RConfig(name, c))
  {
  }

  lemma AnswerGetsFurther(s: State, answer: Answer, i: nat)
    requires AnswerEnabled(s, i) && ResetCaller(s.root.caller)
    ensures Further(AnswerApply(s, answer, i).root, s.root)
  {
    if answer.Failed? {
      ErrorGetsFurther(s, i);
    } else if answer.feeds == [] {
      NothingGetsFurther(s, i);
    } else {
      SomethingIsSent(s, answer.feeds, i);
      SendingIsFurther(s.root.name, answer.feeds, s.root.caller);
    }
  }

  // The steps that take a name from the set the root loop goes through.
  lemma SweptGetsFurther(root: RootPc, name: SystemId, root': RootPc)
    requires root.RSweep? && name in root.left
    requires root' == RSweep(root.left - {name}, root.all, root.ok)
          || root' == RAwaitDone(name, Sweep(root.left - {name}, root.all, root.ok))
    ensures Further(root', root)
  {
    SmallerSet(root.left, name);
  }

  lemma SweepGetsFurther(s: State, name: SystemId)
    requires RootEnabled(s, SweepNext(name))
    ensures Further(RootApply(s, SweepNext(name)).root, s.root)
  {
    StoppingGetsFurther(s, name, Sweep(s.root.left - {name}, s.root.all, s.root.ok));
    SweptGetsFurther(s.root, name, RootApply(s, SweepNext(name)).root);
  }

  lemma ShutGetsFurther(root: RootPc, name: SystemId, root': RootPc)
    requires root.RShutdown? && name in root.left
    requires root' == RShutdown(root.left - {name}) || root' == RAwaitDone(name, Shutdown(root.left - {name}))
    ensures Further(root', root)
  {
    SmallerSet(root.left, name);
  }

  lemma ShutdownGetsFurther(s: State, name: SystemId)
    requires RootEnabled(s, ShutdownNext(name))
    ensures Further(RootApply(s, ShutdownNext(name)).root, s.root)
  {
    StoppingGetsFurther(s, name, Shutdown(s.root.left - {name}));
    ShutGetsFurther(s.root, name, RootApply(s, ShutdownNext(name)).root);
  }

  lemma StatusGetsFurther(s: State, name: SystemId)
    requires RootEnabled(s, StatusNext(name))
    ensures Further(RootApply(s, StatusNext(name)).root, s.root)
  {
    SmallerSet(s.root.left, name);
  }

  lemma ResetDoneGetsFurther(s: State)
    requires RootEnabled(s, ResetDone)
    ensures Further(RootApply(s, ResetDone).root, s.root)
  {
    HandledGetsFurther(s.root.name, s.root.feeds, s.root.caller, s.root);
  }

  lemma StopDoneGetsFurther(s: State)
    requires RootEnabled(s, StopDone)
    ensures Further(RootApply(s, StopDone).root, s.root)
  {
    HandledGetsFurther(s.root.name, [], s.root.caller, s.root);
  }

  lemma RootGetsFurther(s: State, a: Action)
    requires RootEnabled(s, a) && (s.root.RConfig? ==> ResetCaller(s.root.caller))
    ensures Further(RootApply(s, a).root, s.root)
  {
    if a.Answered? {
      AnswerGetsFurther(s, AnswerOf(a.response), a.i);
    } else if a.SweepNext? {
      SweepGetsFurther(s, a.name);
    } else if a.ShutdownNext? {
      ShutdownGetsFurther(s, a.name);
    } else if a.StatusNext? {
      StatusGetsFurther(s, a.name);
    } else if a.ResetDone? {
      ResetDoneGetsFurther(s);
    } else if a.StopDone? {
      StopDoneGetsFurther(s);
    }
  }

  // ---------------------------------------------------------------- system loops

  // A system loop gets further.
  predicate Nearer(y': System, y: System) {
    Phase(y'.pc) < Phase(y.pc) || (Phase(y'.pc) == Phase(y.pc) && FeedsLeft(y') < FeedsLeft(y))
  }

  // The steps that take a feed from those the system loop goes through.
  lemma NextFeedGetsNearer(s: State, a: Action)
    requires SystemEnabled(s, a) && (a.CancelFeed? || a.FeedStatusNext? || a.Waited?)
    ensures a.i in s.systems && a.i in SystemApply(s, a).systems
    ensures Nearer(SystemApply(s, a).systems[a.i], s.systems[a.i])
  {
    var y := s.systems[a.i];
    if a.Waited? {
      SmallerSet(y.feeds.Keys, y.pc.id);
      assert (y.feeds - {y.pc.id}).Keys == y.feeds.Keys - {y.pc.id};
    } else {
      SmallerSet(y.pc.todo, a.id);
    }
  }

  lemma SystemGetsNearer(s: State, a: Action)
    requires SystemEnabled(s, a)
    ensures a.i in s.systems && a.i in SystemApply(s, a).systems
    ensures Nearer(SystemApply(s, a).systems[a.i], s.systems[a.i])
  {
    if a.CancelFeed? || a.FeedStatusNext? || a.Waited? {
      NextFeedGetsNearer(s, a);
    }
  }

  lemma PhaseTaken(systems: map<nat, System>, i: nat, y': System)
    requires i in systems && Phase(y'.pc) < Phase(systems[i].pc)
    ensures |PhaseTokens(systems[i := y'])| < |PhaseTokens(systems)|
  {
    ProperSubsetSize(PhaseTokens(systems[i := y']), PhaseTokens(systems), (i, Phase(y'.pc)));
  }

  lemma FeedTaken(systems: map<nat, System>, i: nat, y': System)
    requires i in systems && Phase(y'.pc) == Phase(systems[i].pc) && FeedsLeft(y') < FeedsLeft(systems[i])
    ensures PhaseTokens(systems[i := y']) == PhaseTokens(systems)
    ensures |FeedTokens(systems[i := y'])| < |FeedTokens(systems)|
  {
    ProperSubsetSize(FeedTokens(systems[i := y']), FeedTokens(systems), (i, FeedsLeft(y')));
  }

  lemma SystemStepWorks(s: State, a: Action)
    requires SystemEnabled(s, a)
    ensures Less(WorkLeft(SystemApply(s, a)), WorkLeft(s))
  {
    SystemGetsNearer(s, a);
    SystemStepFrame(s, a);
    var y' := SystemApply(s, a).systems[a.i];
    if Phase(y'.pc) < Phase(s.systems[a.i].pc) {
      PhaseTaken(s.systems, a.i, y');
    } else {
      FeedTaken(s.systems, a.i, y');
    }
  }

  // ------------------------------------------------------------------ feed loops

  // A feed loop that exits, or waits for its update to do so.
  lemma OneLoopLess(feeds: map<nat, Feed>, f: nat, x': Feed)
    requires f in feeds && feeds[f].pc != FExited && (x'.pc == FExited || (x'.pc == FDraining && feeds[f].pc != FDraining))
    ensures LoopsLeft(feeds[f := x']) < LoopsLeft(feeds)
  {
    if x'.pc == FExited {
      assert Alive(feeds[f := x']) == Alive(feeds) - {f};
      assert Unaware(feeds[f := x']) <= Unaware(feeds);
      SubsetSize(Unaware(feeds[f := x']), Unaware(feeds));
    } else {
      assert Alive(feeds[f := x']) == Alive(feeds);
      assert Unaware(feeds[f := x']) == Unaware(feeds) - {f};
    }
  }

  lemma SameLoops(feeds: map<nat, Feed>, f: nat, x': Feed)
    requires f in feeds && x'.pc == feeds[f].pc
    ensures LoopsLeft(feeds[f := x']) == LoopsLeft(feeds)
  {
    assert Alive(feeds[f := x']) == Alive(feeds) && Unaware(feeds[f := x']) == Unaware(feeds);
  }

  lemma OneResultLess(updates: map<nat, Update>, u: nat, x: Update)
    requires u in updates && updates[u].feed == x.feed
    requires (updates[u].state == Sending && x.state == Received) || (updates[u].state == Flying && x.state == Sending)
    ensures ResultsLeft(updates[u := x]) < ResultsLeft(updates)
  {
    if x.state == Received {
      assert Unreceived(updates[u := x]) == Unreceived(updates) - {u};
      assert Running(updates[u := x]) == Running(updates);
    } else {
      assert Unreceived(updates[u := x]) == Unreceived(updates);
      assert Running(updates[u := x]) == Running(updates) - {u};
    }
  }

  // Only feed loops and updates change.
  lemma OnlyLoopsAndResults(s: State, s': State)
    requires s' == s.(feeds := s'.feeds, updates := s'.updates)
    ensures WorkLeft(s') == WorkLeft(s).(loops := LoopsLeft(s'.feeds), results := ResultsLeft(s'.updates))
  {
  }

  lemma FeedStepWorks(s: State, a: Action)
    requires FeedEnabled(s, a)
    ensures Less(WorkLeft(FeedApply(s, a)), WorkLeft(s))
  {
    var s' := FeedApply(s, a);
    FeedStepFrame(s, a);
    OnlyLoopsAndResults(s, s');
    if a.Finish? {
      SameLoops(s.feeds, a.f, s'.feeds[a.f]);
      OneResultLess(s.updates, a.u, s'.updates[a.u]);
    } else {
      OneLoopLess(s.feeds, a.f, s'.feeds[a.f]);
    }
  }

  lemma UpdateEndWorks(s: State, u: nat)
    requires EnvEnabled(s, UpdateEnds(u))
    ensures Less(WorkLeft(EnvApply(s, UpdateEnds(u))), WorkLeft(s))
  {
    var s' := EnvApply(s, UpdateEnds(u));
    OnlyLoopsAndResults(s, s');
    OneResultLess(s.updates, u, s'.updates[u]);
  }

  lemma RootStepWorks(s: State, a: Action)
    requires RootEnabled(s, a) && (s.root.RConfig? ==> ResetCaller(s.root.caller))
    ensures Less(WorkLeft(RootApply(s, a)), WorkLeft(s))
  {
    RootGetsFurther(s, a);
    FurtherIsLess(s, RootApply(s, a));
  }

  lemma FurtherIsLess(s: State, s': State)
    requires Further(s'.root, s.root)
    ensures Less(WorkLeft(s'), WorkLeft(s))
  {
  }

  // What a tick can add to: the results that have yet to be received, no more.
  predicate SameButResults(v: Work, w: Work) {
    v.(results := 0) == w.(results := 0)
  }

  predicate IsRequest(a: Action) {
    a.RequestResetAll? || a.RequestReset? || a.RequestStatus?
  }

  lemma EnvStepWorks(s: State, a: Action)
    requires EnvEnabled(s, a) && !IsRequest(a)
    ensures SameButResults(WorkLeft(EnvApply(s, a)), WorkLeft(s))
  {
    var s' := EnvApply(s, a);
    match a
    case Tick(f, u) =>
      OnlyLoopsAndResults(s, s');
      SameLoops(s.feeds, f, s'.feeds[f]);
    case UpdateEnds(u) => OnlyLoopsAndResults(s, s');
    case _ =>
  }

  // The loops' own steps, and the end of an update.
  ghost predicate WorkStep(s: State, s': State) {
    || RootStep(s, s') || SystemStep(s, s') || FeedStep(s, s')
    || exists u :: EnvEnabled(s, UpdateEnds(u)) && s' == EnvApply(s, UpdateEnds(u))
  }

  // A step of the surroundings that asks for nothing.
  ghost predicate OutsideStep(s: State, s': State) {
    exists a :: EnvEnabled(s, a) && !IsRequest(a) && s' == EnvApply(s, a)
  }

  /** Every step of a loop and every end of an update takes from the work that is left,
      in every reachable state, and all that anything else outside but a request can
      add is results to receive. So nothing but ticks and their results can go on
      without end after a request. */
  lemma EveryStepWorks(s: State, s': State)
    requires Reachable(s)
    ensures WorkStep(s, s') ==> Less(WorkLeft(s'), WorkLeft(s))
    ensures OutsideStep(s, s') ==> SameButResults(WorkLeft(s'), WorkLeft(s))
  {
    ReachableInv(s);
    if WorkStep(s, s') {
      WorkStepWorks(s, s');
    }
    if OutsideStep(s, s') {
      var a :| EnvEnabled(s, a) && !IsRequest(a) && s' == EnvApply(s, a);
      EnvStepWorks(s, a);
    }
  }

  lemma WorkStepWorks(s: State, s': State)
    requires WorkStep(s, s') && (s.root.RConfig? ==> ResetCaller(s.root.caller))
    ensures Less(WorkLeft(s'), WorkLeft(s))
  {
    if RootStep(s, s') {
      var a :| RootEnabled(s, a) && s' == RootApply(s, a);
      RootStepWorks(s, a);
    } else if SystemStep(s, s') {
      var a :| SystemEnabled(s, a) && s' == SystemApply(s, a);
      SystemStepWorks(s, a);
    } else if FeedStep(s, s') {
      var a :| FeedEnabled(s, a) && s' == FeedApply(s, a);
      FeedStepWorks(s, a);
    } else {
      var u :| EnvEnabled(s, UpdateEnds(u)) && s' == EnvApply(s, UpdateEnds(u));
      UpdateEndWorks(s, u);
    }
  }

  // ----------------------------------------------------------------- settling

  // Steps of the loops and ends of updates, one after the other.
  ghost predicate Works(path: seq<State>) {
    |path| > 0 && forall k :: 0 <= k < |path| - 1 ==> WorkStep(path[k], path[k + 1])
  }

  // There is no such step to take.
  ghost predicate Settled(s: State) {
    !CanMove(s)
  }

  lemma MoveIsWorkStep(s: State) returns (s': State)
    requires CanMove(s)
    ensures WorkStep(s, s')
  {
    if a :| RootEnabled(s, a) {
      s' := RootApply(s, a);
      assert RootStep(s, s');
    } else if a :| SystemEnabled(s, a) {
      s' := SystemApply(s, a);
      assert SystemStep(s, s');
    } else if a :| FeedEnabled(s, a) {
      s' := FeedApply(s, a);
      assert FeedStep(s, s');
    } else {
      var u :| EnvEnabled(s, UpdateEnds(u));
      s' := EnvApply(s, UpdateEnds(u));
    }
  }

  lemma WorkStepIsStep(s: State, s': State) returns (a: Action)
    requires WorkStep(s, s')
    ensures StepBy(s, a, s') && !IsRequest(a) && !a.CancelRoot? && !a.ClientLeaves?
  {
    if RootStep(s, s') {
      a :| RootEnabled(s, a) && s' == RootApply(s, a);
    } else if SystemStep(s, s') {
      a :| SystemEnabled(s, a) && s' == SystemApply(s, a);
    } else if FeedStep(s, s') {
      a :| FeedEnabled(s, a) && s' == FeedApply(s, a);
    } else {
      var u :| EnvEnabled(s, UpdateEnds(u)) && s' == EnvApply(s, UpdateEnds(u));
      a := UpdateEnds(u);
    }
  }

  lemma WorkStepIsReachable(s: State, s': State)
    requires Reachable(s) && WorkStep(s, s')
    ensures Reachable(s')
  {
    var a := WorkStepIsStep(s, s');
    StepByIsNext(s, a, s');
    ReachableStep(s, s');
  }

  lemma Prepend(s: State, rest: seq<State>)
    requires Works(rest) && WorkStep(s, rest[0])
    ensures Works([s] + rest)
  {
    var path := [s] + rest;
    forall k | 0 <= k < |path| - 1 ensures WorkStep(path[k], path[k + 1]) {
      assert k > 0 ==> path[k] == rest[k - 1] && path[k + 1] == rest[k - 1 + 1];
    }
  }

  /** Left alone, the loops settle from every reachable state: in whatever order they
      take their steps, they come to a state in which there is none to take. */
  lemma {:induction false} WorkSettles(s: State) returns (path: seq<State>)
    requires Reachable(s)
    ensures Works(path) && path[0] == s && Settled(path[|path| - 1])
    decreases WorkLeft(s).stage, WorkLeft(s).names, WorkLeft(s).step, WorkLeft(s).phases, WorkLeft(s).feeds,
              WorkLeft(s).loops, WorkLeft(s).results
  {
    if Settled(s) {
      path := [s];
    } else {
      var s1 := MoveIsWorkStep(s);
      WorkStepIsReachable(s, s1);
      EveryStepWorks(s, s1);
      var rest := WorkSettles(s1);
      Prepend(s, rest);
      path := [s] + rest;
    }
  }

  /** A settled state is one in which a loop waits for one that is gone, or the root
      loop waits for the next request, or it has returned and nothing is left. */
  lemma SettledMeans(s: State)
    requires Reachable(s) && Settled(s)
    ensures Blocked(s) || s.root.RReturned? || (s.root.RSelect? && !s.rootCancelled)
  {
    ReachableInv(s);
    if Busy(s) && !Blocked(s) {
      BusyMoves(s);
    }
    if s.root.RSelect? && s.rootCancelled {
      assert RootEnabled(s, RootDone);
    }
  }

  // ------------------------------------------------------ a request is answered

  lemma {:induction false} PathKeepsAttentive(path: seq<State>, k: nat)
    requires Works(path) && k < |path| && Reachable(path[0]) && Attentive(path[0])
    ensures Reachable(path[k]) && Attentive(path[k])
  {
    if k > 0 {
      PathKeepsAttentive(path, k - 1);
      assert WorkStep(path[k - 1], path[k - 1 + 1]);
      var a := WorkStepIsStep(path[k - 1], path[k]);
      StepKeepsAttentive(path[k - 1], a, path[k]);
      WorkStepIsReachable(path[k - 1], path[k]);
    }
  }

  /** As long as the root context is not cancelled and the client waits, the loops' own
      steps and the ends of updates lead to the reply in every order: wherever they
      settle, the root loop waits for the next request. */
  lemma RequestIsAnswered(path: seq<State>)
    requires Works(path) && Reachable(path[0]) && Attentive(path[0]) && Settled(path[|path| - 1])
    ensures path[|path| - 1].root.RSelect?
  {
    var end := path[|path| - 1];
    PathKeepsAttentive(path, |path| - 1);
    SettledMeans(end);
    ReachableInv(end);
    if Blocked(end) {
      BlockedOnlyByCancelling(end);
    }
  }

  // ------------------------------------------------------ the scheduler returns

  // The root context is done, and the root loop serves no request.
  predicate Quits(s: State) {
    s.rootCancelled &&
    (s.root.RSelect? || s.root.RShutdown? || (s.root.RAwaitDone? && s.root.caller.Shutdown?) || s.root.RReturned?)
  }

  lemma QuitsIsNotBlocked(s: State)
    requires Inv(s) && Quits(s)
    ensures !Blocked(s)
  {
    if Blocked(s) {
      BlockedRoot(s);
    }
  }

  lemma RootKeepsQuits(s: State, a: Action)
    requires Quits(s) && RootEnabled(s, a)
    ensures Quits(RootApply(s, a))
  {
    RootStepFrame(s, a);
  }

  /** When the root context is done while the root loop waits for requests, it stays
      that way as long as it takes none. */
  lemma StepKeepsQuits(s: State, a: Action, s': State)
    requires Quits(s) && StepBy(s, a, s') && !IsRequest(a)
    ensures Quits(s')
  {
    if RootEnabled(s, a) && s' == RootApply(s, a) {
      RootKeepsQuits(s, a);
    } else if SystemEnabled(s, a) && s' == SystemApply(s, a) {
      SystemStepFrame(s, a);
    } else if FeedEnabled(s, a) && s' == FeedApply(s, a) {
      FeedStepFrame(s, a);
    }
  }

  lemma {:induction false} PathKeepsQuits(path: seq<State>, k: nat)
    requires Works(path) && k < |path| && Reachable(path[0]) && Quits(path[0])
    ensures Reachable(path[k]) && Quits(path[k])
  {
    if k > 0 {
      PathKeepsQuits(path, k - 1);
      assert WorkStep(path[k - 1], path[k - 1 + 1]);
      var a := WorkStepIsStep(path[k - 1], path[k]);
      StepKeepsQuits(path[k - 1], a, path[k]);
      WorkStepIsReachable(path[k - 1], path[k]);
    }
  }

  /** When the root context is done while the root loop waits for requests, no loop is
      ever blocked from then on, and the loops' own steps and the ends of updates lead to
      the return in every order: wherever they settle, the root loop has returned. */
  lemma SchedulerReturns(path: seq<State>)
    requires Works(path) && Reachable(path[0]) && Quits(path[0])
    ensures !Blocked(path[|path| - 1])
    ensures Settled(path[|path| - 1]) ==> path[|path| - 1].root.RReturned?
  {
    var end := path[|path| - 1];
    PathKeepsQuits(path, |path| - 1);
    ReachableInv(end);
    QuitsIsNotBlocked(end);
    if Settled(end) {
      SettledMeans(end);
    }
  }
}
