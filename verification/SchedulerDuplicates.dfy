/** Distinct feed IDs are exactly what single flight and quiescence need. */
module SchedulerDuplicates {
  import opened SchedulingPolicy
  import opened Scheduler
  import opened SchedulerRuns
  import opened SchedulerFrames
  import opened SchedulerSafety

  // No two feeds that get a loop have the same ID.
  ghost predicate DistinctActive(config: seq<Config>) {
    forall i, j :: 0 <= i < j < |config| && config[i].policy != NONE && config[j].policy != NONE ==>
      config[i].id != config[j].id
  }

  ghost predicate Single(s: State) {
    forall u, v, name, id :: InFlight(s, u, name, id) && InFlight(s, v, name, id) ==> u == v
  }

  // Nothing remains under a system whose done is closed.
  ghost predicate ExitedQuiet(s: State) {
    forall f :: f in s.feeds && s.feeds[f].parent in s.systems && s.systems[s.feeds[f].parent].pc.SExited? ==> Over(s, f)
  }

  // ------------------------------------------------------------- configured IDs

  lemma DistinctSnoc(feeds: seq<Config>, x: Config)
    ensures DistinctIds(feeds + [x]) <==> (DistinctIds(feeds) && forall y :: y in feeds ==> y.id != x.id)
  {
    var all := feeds + [x];
    if DistinctIds(all) {
      forall y | y in feeds ensures y.id != x.id {
        var i :| 0 <= i < |feeds| && feeds[i] == y;
        assert all[i] == y && all[|feeds|] == x;
      }
      forall i, j | 0 <= i < j < |feeds| ensures feeds[i].id != feeds[j].id {
        assert all[i] == feeds[i] && all[j] == feeds[j];
      }
    }
  }

  lemma NormalizedKeepsId(c: Config, position: nat, agencies: seq<string>, known: Zones)
    requires known("UTC")
    ensures Normalized(c, position, agencies, known).id == c.id
  {
  }

  // Whether a feed with the ID gets a loop.
  lemma ActiveIds(config: seq<Config>, agencies: seq<string>, known: Zones, id: FeedId)
    requires known("UTC")
    ensures (exists y :: y in ActiveFeeds(config, agencies, known) && y.id == id)
       <==> (exists i :: 0 <= i < |config| && config[i].policy != NONE && config[i].id == id)
  {
    if y :| y in ActiveFeeds(config, agencies, known) && y.id == id {
      ActiveFeedsMeaning(config, agencies, known, y);
      var i: nat :| IsActive(config, i, agencies, known, y);
      NormalizedKeepsId(config[i], i, agencies, known);
    }
    if i :| 0 <= i < |config| && config[i].policy != NONE && config[i].id == id {
      var y := Normalized(config[i], i, agencies, known);
      NormalizedKeepsId(config[i], i, agencies, known);
      assert IsActive(config, i, agencies, known, y);
      ActiveFeedsMeaning(config, agencies, known, y);
    }
  }

  lemma DistinctActiveSnoc(config: seq<Config>)
    requires config != []
    ensures var front, c := config[..|config| - 1], config[|config| - 1];
      DistinctActive(config) <==>
        (DistinctActive(front) && (c.policy != NONE ==>
          !exists i :: 0 <= i < |front| && front[i].policy != NONE && front[i].id == c.id))
  {
  }

  lemma {:induction false} DistinctAsked(config: seq<Config>, agencies: seq<string>, known: Zones)
    requires known("UTC")
    ensures DistinctIds(ActiveFeeds(config, agencies, known)) <==> DistinctActive(config)
  {
    if config != [] {
      var n := |config| - 1;
      var front, c := config[..n], config[n];
      DistinctAsked(front, agencies, known);
      DistinctActiveSnoc(config);
      ActiveIds(front, agencies, known, c.id);
      NoneStaysNone(c, n, agencies, known);
      NormalizedKeepsId(c, n, agencies, known);
      var feeds, x := ActiveFeeds(front, agencies, known), Normalized(c, n, agencies, known);
      DistinctSnoc(feeds, x);
      assert ActiveFeeds(config, agencies, known) == if c.policy == NONE then feeds else feeds + [x];
      assert (exists y :: y in feeds && y.id == c.id) <==>
        (exists i :: 0 <= i < |front| && front[i].policy != NONE && front[i].id == c.id);
    }
  }

  // ------------------------------------------------------------------ enough

  // The history of duplicates changes only with a response that asks for some.
  ghost predicate DuplicatesFrom(s: State, a: Action, s': State) {
    s'.duplicates && !s.duplicates ==>
      a.Answered? && a.response.Found? && Sensible(a.response) && !DistinctIds(Asked(a.response))
  }

  lemma AnswerDuplicates(s: State, answer: Answer, i: nat)
    requires AnswerEnabled(s, i)
    ensures AnswerApply(s, answer, i).duplicates ==> s.duplicates || (answer.Active? && !DistinctIds(answer.feeds))
  {
    if answer == Active([]) {
      StoppingFrame(s, s.root.name, s.root.caller);
    }
  }

  lemma RootDuplicates(s: State, a: Action)
    requires RootEnabled(s, a)
    ensures DuplicatesFrom(s, a, RootApply(s, a))
  {
    if a.Answered? {
      AnswerDuplicates(s, AnswerOf(a.response), a.i);
    } else if a.SweepNext? {
      StoppingFrame(s, a.name, Sweep(s.root.left - {a.name}, s.root.all, s.root.ok));
    } else if a.ShutdownNext? {
      StoppingFrame(s, a.name, Shutdown(s.root.left - {a.name}));
    }
  }

  lemma OtherDuplicates(s: State, a: Action)
    ensures EnvEnabled(s, a) ==> EnvApply(s, a).duplicates == s.duplicates
    ensures SystemEnabled(s, a) ==> SystemApply(s, a).duplicates == s.duplicates
    ensures FeedEnabled(s, a) ==> FeedApply(s, a).duplicates == s.duplicates
  {
  }

  lemma StepDuplicates(s: State, a: Action, s': State)
    requires StepBy(s, a, s')
    ensures DuplicatesFrom(s, a, s')
  {
    if RootEnabled(s, a) && s' == RootApply(s, a) {
      RootDuplicates(s, a);
    } else {
      OtherDuplicates(s, a);
    }
  }

  // No configuration that may be found has an ID twice.
  ghost predicate AllDistinct(ok: Response -> bool) {
    forall r: Response :: ok(r) && r.Found? && Sensible(r) ==> DistinctActive(r.config)
  }

  lemma {:induction false} NoDuplicates(run: seq<State>, ok: Response -> bool, k: nat)
    requires IsRunBy(run, Responses(ok)) && k < |run| && AllDistinct(ok)
    ensures !run[k].duplicates
  {
    if k > 0 {
      NoDuplicates(run, ok, k - 1);
      assert NextBy(run[k - 1], run[k - 1 + 1], Responses(ok));
      var a :| Responses(ok)(a) && StepBy(run[k - 1], a, run[k]);
      StepDuplicates(run[k - 1], a, run[k]);
      if a.Answered? && a.response.Found? && Sensible(a.response) {
        DistinctAsked(a.response.config, a.response.agencies, a.response.known);
      }
    }
  }

  lemma DistinctIsEnough(s: State, ok: Response -> bool)
    requires ReachableBy(s, Responses(ok)) && AllDistinct(ok)
    ensures Single(s) && ExitedQuiet(s)
  {
    var run :| IsRunBy(run, Responses(ok)) && run[|run| - 1] == s;
    NoDuplicates(run, ok, |run| - 1);
    ReachableByIsReachable(s, Responses(ok));
    forall u, v, name, id | InFlight(s, u, name, id) && InFlight(s, v, name, id) ensures u == v {
      SingleFlight(s, u, v, name, id);
    }
    forall f | f in s.feeds && s.feeds[f].parent in s.systems && s.systems[s.feeds[f].parent].pc.SExited?
      ensures Over(s, f)
    {
      ExitedIsQuiet(s, s.feeds[f].parent, f);
    }
  }

  // A configuration with an ID twice, as it reaches the only system.
  lemma SomeTwice(r: Response) returns (feeds: seq<Config>, i: nat, j: nat)
    requires r.Found? && Sensible(r) && !DistinctActive(r.config)
    ensures ReachableBy(NewSystem("", r, feeds), OnlyResponse(r))
    ensures i < j < |feeds| && feeds[i].id == feeds[j].id
  {
    DistinctAsked(r.config, r.agencies, r.known);
    feeds := Asked(r);
    i, j :| 0 <= i < j < |feeds| && feeds[i].id == feeds[j].id;
    FirstReset("", r, feeds, OnlyResponse(r));
  }

  // -------------------------------------------------- a reset that has gone well

  // The only system there is, with the feeds of its only reset.
  ghost predicate Alone(s: State, name: SystemId, feeds: seq<Config>, pc: SystemPc) {
    && s.registry == map[name := 0]
    && 0 in s.systems && s.systems[0].name == name && s.systems[0].target == feeds && s.systems[0].pc == pc
    && s.updates == map[]
  }

  predicate IdleLoop(x: Feed) {
    x.parent == 0 && x.pc == FSelect && !x.updateRunning
  }

  // The first k feeds have been started, each with a loop of its own.
  ghost predicate Loops(feeds: seq<Config>, k: nat, loops: map<nat, Feed>) {
    && k <= |feeds|
    && (forall f: nat :: f in loops <==> f < k)
    && (forall f: nat :: f < k ==> loops[f] == Feed(0, feeds[f], false, FSelect, false))
  }

  // The map knows the last loop for every ID.
  ghost predicate Latest(feeds: seq<Config>, k: nat, entries: map<FeedId, nat>) {
    && k <= |feeds|
    && (forall id :: id in entries ==> entries[id] < k && feeds[entries[id]].id == id)
    && (forall j :: 0 <= j < k ==> feeds[j].id in entries && j <= entries[feeds[j].id])
  }

  // The reset has started the first k feeds.
  ghost predicate Started(s: State, name: SystemId, feeds: seq<Config>, k: nat) {
    && s.root == RAwaitReset(name, feeds, One) && s.clientWaits && !s.rootCancelled
    && Alone(s, name, feeds, SStartFeeds(k))
    && Loops(feeds, k, s.feeds) && Latest(feeds, k, s.systems[0].feeds)
  }

  // The reset has started the loop of the feed in place k, which has not initialised yet.
  ghost predicate StartingOne(s: State, name: SystemId, feeds: seq<Config>, k: nat) {
    && k < |feeds|
    && s.root == RAwaitReset(name, feeds, One) && s.clientWaits && !s.rootCancelled
    && Alone(s, name, feeds, SStartingFeed(k, k))
    && k in s.feeds && s.feeds[k] == Feed(0, feeds[k], false, FStarting, false)
    && Loops(feeds, k, s.feeds - {k}) && Latest(feeds, k, s.systems[0].feeds)
  }

  lemma ResetArrives(name: SystemId, r: Response, feeds: seq<Config>)
    ensures var s := NewSystem(name, r, feeds);
      RootEnabled(s, SendReset) && Alone(RootApply(s, SendReset), name, feeds, SCancelling({}, Restart)) &&
      RootApply(s, SendReset).root == RAwaitReset(name, feeds, One) &&
      RootApply(s, SendReset).systems[0].feeds == map[] && RootApply(s, SendReset).feeds == map[]
  {
    var s := NewSystem(name, r, feeds);
    assert s.systems[0].feeds.Keys == {};
  }

  // Some run gets as far as to the start of feed k.
  ghost predicate CanStart(name: SystemId, r: Response, feeds: seq<Config>, k: nat) {
    exists s :: ReachableBy(s, OnlyResponse(r)) && Started(s, name, feeds, k)
  }

  lemma StopsNothing(s: State, name: SystemId, feeds: seq<Config>)
    requires s.root == RAwaitReset(name, feeds, One) && s.clientWaits && !s.rootCancelled
    requires Alone(s, name, feeds, SCancelling({}, Restart)) && s.systems[0].feeds == map[] && s.feeds == map[]
    ensures SystemEnabled(s, AllCancelled(0)) && SystemEnabled(SystemApply(s, AllCancelled(0)), AllStopped(0))
    ensures Started(SystemApply(SystemApply(s, AllCancelled(0)), AllStopped(0)), name, feeds, 0)
  {
  }

  lemma StartsFeeds(name: SystemId, r: Response, feeds: seq<Config>)
    requires ReachableBy(NewSystem(name, r, feeds), OnlyResponse(r))
    ensures CanStart(name, r, feeds, 0)
  {
    ResetArrives(name, r, feeds);
    var s0 := NewSystem(name, r, feeds);
    var s1 := RootApply(s0, SendReset);
    RootReaches(s0, SendReset, s1, OnlyResponse(r));
    StopsNothing(s1, name, feeds);
    var s2 := SystemApply(s1, AllCancelled(0));
    SystemReaches(s1, AllCancelled(0), s2, OnlyResponse(r));
    var s3 := SystemApply(s2, AllStopped(0));
    SystemReaches(s2, AllStopped(0), s3, OnlyResponse(r));
  }

  lemma StartsOne(s: State, name: SystemId, feeds: seq<Config>, k: nat)
    requires Started(s, name, feeds, k) && k < |feeds|
    ensures SystemEnabled(s, StartFeed(0, k)) && StartingOne(SystemApply(s, StartFeed(0, k)), name, feeds, k)
  {
    assert SystemApply(s, StartFeed(0, k)).feeds - {k} == s.feeds;
  }

  lemma LoopsSnoc(feeds: seq<Config>, k: nat, loops: map<nat, Feed>, x: Feed)
    requires k < |feeds| && Loops(feeds, k, loops - {k}) && x == Feed(0, feeds[k], false, FSelect, false)
    ensures Loops(feeds, k + 1, loops[k := x])
  {
    var loops' := loops[k := x];
    forall f: nat ensures (f in loops' <==> f < k + 1) && (f < k ==> loops'[f] == (loops - {k})[f]) {
      assert f != k ==> (f in loops - {k} <==> f in loops');
    }
  }

  lemma LatestSnoc(feeds: seq<Config>, k: nat, entries: map<FeedId, nat>)
    requires k < |feeds| && Latest(feeds, k, entries)
    ensures Latest(feeds, k + 1, entries[feeds[k].id := k])
  {
  }

  lemma OneStarted(s: State, name: SystemId, feeds: seq<Config>, k: nat)
    requires StartingOne(s, name, feeds, k)
    ensures SystemEnabled(s, FeedStarted(0)) && Started(SystemApply(s, FeedStarted(0)), name, feeds, k + 1)
  {
    LoopsSnoc(feeds, k, s.feeds, s.feeds[k].(pc := FSelect));
    LatestSnoc(feeds, k, s.systems[0].feeds);
  }

  lemma StartsOneMore(name: SystemId, r: Response, feeds: seq<Config>, k: nat)
    requires CanStart(name, r, feeds, k) && k < |feeds|
    ensures CanStart(name, r, feeds, k + 1)
  {
    var s :| ReachableBy(s, OnlyResponse(r)) && Started(s, name, feeds, k);
    StartsOne(s, name, feeds, k);
    var s1 := SystemApply(s, StartFeed(0, k));
    SystemReaches(s, StartFeed(0, k), s1, OnlyResponse(r));
    OneStarted(s1, name, feeds, k);
    var s2 := SystemApply(s1, FeedStarted(0));
    SystemReaches(s1, FeedStarted(0), s2, OnlyResponse(r));
  }

  lemma {:induction false} StartsAll(name: SystemId, r: Response, feeds: seq<Config>, k: nat)
    requires ReachableBy(NewSystem(name, r, feeds), OnlyResponse(r)) && k <= |feeds|
    ensures CanStart(name, r, feeds, k)
  {
    if k == 0 {
      StartsFeeds(name, r, feeds);
    } else {
      StartsAll(name, r, feeds, k - 1);
      StartsOneMore(name, r, feeds, k - 1);
    }
  }

  lemma HasStarted(name: SystemId, r: Response, feeds: seq<Config>) returns (s: State)
    requires ReachableBy(NewSystem(name, r, feeds), OnlyResponse(r))
    ensures ReachableBy(s, OnlyResponse(r)) && Started(s, name, feeds, |feeds|)
  {
    StartsAll(name, r, feeds, |feeds|);
    s :| ReachableBy(s, OnlyResponse(r)) && Started(s, name, feeds, |feeds|);
  }

  // ------------------------------------------------- needed for single flight

  // The feeds in both places are updated at the same time.
  lemma BothFly(name: SystemId, r: Response, feeds: seq<Config>, i: nat, j: nat)
    requires ReachableBy(NewSystem(name, r, feeds), OnlyResponse(r))
    requires i < j < |feeds| && feeds[i].id == feeds[j].id
    ensures exists s :: ReachableBy(s, OnlyResponse(r)) && !Single(s)
  {
    var s := HasStarted(name, r, feeds);
    Ticks(s, i, j, name, feeds[i].id);
    var s1 := EnvApply(s, Tick(i, 0));
    EnvReaches(s, Tick(i, 0), s1, OnlyResponse(r));
    var s2 := EnvApply(s1, Tick(j, 1));
    EnvReaches(s1, Tick(j, 1), s2, OnlyResponse(r));
    assert !Single(s2);
  }

  lemma Ticks(s: State, i: nat, j: nat, name: SystemId, id: FeedId)
    requires i != j && s.updates == map[] && 0 in s.systems && s.systems[0].name == name
    requires i in s.feeds && IdleLoop(s.feeds[i]) && s.feeds[i].config.id == id
    requires j in s.feeds && IdleLoop(s.feeds[j]) && s.feeds[j].config.id == id
    ensures EnvEnabled(s, Tick(i, 0)) && EnvEnabled(EnvApply(s, Tick(i, 0)), Tick(j, 1))
    ensures var s' := EnvApply(EnvApply(s, Tick(i, 0)), Tick(j, 1));
      InFlight(s', 0, name, id) && InFlight(s', 1, name, id)
  {
  }

  /** Whatever configurations may be found, single flight is kept in every interleaving
      exactly when none of them gives one ID to two feeds that get a loop. */
  lemma SingleFlightIffDistinct(ok: Response -> bool)
    ensures (forall s :: ReachableBy(s, Responses(ok)) ==> Single(s)) <==> AllDistinct(ok)
  {
    if AllDistinct(ok) {
      forall s | ReachableBy(s, Responses(ok)) ensures Single(s) {
        DistinctIsEnough(s, ok);
      }
    } else {
      var r: Response :| ok(r) && r.Found? && Sensible(r) && !DistinctActive(r.config);
      var feeds, i, j := SomeTwice(r);
      BothFly("", r, feeds, i, j);
      var s :| ReachableBy(s, OnlyResponse(r)) && !Single(s);
      OnlyIsOneOf(s, r, ok);
    }
  }

  // ----------------------------------------------------- needed for quiescence

  // The root context is done, and every loop the only system knows of is idle; so is
  // loop i, of which it does not know.
  ghost predicate Forgotten(s: State, i: nat) {
    && s.rootCancelled && 0 in s.systems
    && i in s.feeds && s.feeds[i].parent == 0 && s.feeds[i].pc == FSelect
    && forall id :: id in s.systems[0].feeds ==>
      var f := s.systems[0].feeds[id];
      f != i && f in s.feeds && s.feeds[f].config.id == id && IdleLoop(s.feeds[f])
  }

  lemma {:induction false} CancelsAll(s: State, r: Response, i: nat) returns (s': State)
    requires ReachableBy(s, OnlyResponse(r)) && Forgotten(s, i)
    requires s.systems[0].pc.SCancelling? && s.systems[0].pc.next == Exit
    requires s.systems[0].pc.todo <= s.systems[0].feeds.Keys
    ensures ReachableBy(s', OnlyResponse(r)) && Forgotten(s', i) && s'.systems[0].pc == SStopping(Exit)
    decreases |s.systems[0].pc.todo|
  {
    if s.systems[0].pc.todo == {} {
      s' := SystemApply(s, AllCancelled(0));
      SystemReaches(s, AllCancelled(0), s', OnlyResponse(r));
    } else {
      var id :| id in s.systems[0].pc.todo;
      var s1 := CancelsOne(s, r, i, id);
      s' := CancelsAll(s1, r, i);
    }
  }

  lemma CancelsOne(s: State, r: Response, i: nat, id: FeedId) returns (s': State)
    requires ReachableBy(s, OnlyResponse(r)) && Forgotten(s, i)
    requires s.systems[0].pc.SCancelling? && id in s.systems[0].pc.todo && id in s.systems[0].feeds
    ensures ReachableBy(s', OnlyResponse(r)) && Forgotten(s', i) && s'.systems[0].feeds == s.systems[0].feeds
    ensures s'.systems[0].pc == SCancelling(s.systems[0].pc.todo - {id}, s.systems[0].pc.next)
    ensures |s'.systems[0].pc.todo| < |s.systems[0].pc.todo|
  {
    CancelKeeps(s, i, id);
    s' := SystemApply(s, CancelFeed(0, id));
    SystemReaches(s, CancelFeed(0, id), s', OnlyResponse(r));
  }

  lemma CancelKeeps(s: State, i: nat, id: FeedId)
    requires Forgotten(s, i) && s.systems[0].pc.SCancelling? && id in s.systems[0].pc.todo && id in s.systems[0].feeds
    ensures SystemEnabled(s, CancelFeed(0, id))
    ensures var s' := SystemApply(s, CancelFeed(0, id));
      Forgotten(s', i) && s'.systems[0].feeds == s.systems[0].feeds &&
      s'.systems[0].pc == SCancelling(s.systems[0].pc.todo - {id}, s.systems[0].pc.next)
  {
  }

  lemma {:induction false} StopsAll(s: State, r: Response, i: nat) returns (s': State)
    requires ReachableBy(s, OnlyResponse(r)) && Forgotten(s, i) && s.systems[0].pc == SStopping(Exit)
    ensures ReachableBy(s', OnlyResponse(r)) && Forgotten(s', i) && s'.systems[0].pc == SExited
    decreases |s.systems[0].feeds.Keys|
  {
    if s.systems[0].feeds == map[] {
      s' := SystemApply(s, AllStopped(0));
      SystemReaches(s, AllStopped(0), s', OnlyResponse(r));
    } else {
      var id :| id in s.systems[0].feeds;
      var s3 := StopsOne(s, r, i, id);
      s' := StopsAll(s3, r, i);
    }
  }

  // As Forgotten, but the loop for one ID has exited.
  ghost predicate ForgottenBut(s: State, i: nat, id: FeedId) {
    && s.rootCancelled && 0 in s.systems
    && i in s.feeds && s.feeds[i].parent == 0 && s.feeds[i].pc == FSelect
    && FeedAt(s, 0, id, FExited)
    && forall id' :: id' in s.systems[0].feeds && id' != id ==>
      var f := s.systems[0].feeds[id'];
      f != i && f in s.feeds && s.feeds[f].config.id == id' && IdleLoop(s.feeds[f])
  }

  lemma ExitsOne(s: State, i: nat, id: FeedId)
    requires Forgotten(s, i) && id in s.systems[0].feeds
    ensures var f := s.systems[0].feeds[id];
      FeedEnabled(s, FeedContextDone(f)) && ForgottenBut(FeedApply(s, FeedContextDone(f)), i, id) &&
      FeedApply(s, FeedContextDone(f)).systems == s.systems
  {
  }

  lemma WaitsForOne(s: State, i: nat, id: FeedId)
    requires ForgottenBut(s, i, id) && s.systems[0].pc == SStopping(Exit)
    ensures SystemEnabled(s, WaitFor(0, id))
    ensures var s' := SystemApply(s, WaitFor(0, id));
      ForgottenBut(s', i, id) && s'.systems[0] == s.systems[0].(pc := SWaiting(id, Exit))
  {
  }

  lemma WaitedForOne(s: State, i: nat, id: FeedId)
    requires ForgottenBut(s, i, id) && s.systems[0].pc == SWaiting(id, Exit)
    ensures SystemEnabled(s, Waited(0))
    ensures var s' := SystemApply(s, Waited(0));
      Forgotten(s', i) && s'.systems[0].pc == SStopping(Exit) && s'.systems[0].feeds == s.systems[0].feeds - {id}
  {
  }

  lemma StopsOne(s: State, r: Response, i: nat, id: FeedId) returns (s': State)
    requires ReachableBy(s, OnlyResponse(r)) && Forgotten(s, i) && s.systems[0].pc == SStopping(Exit)
    requires id in s.systems[0].feeds
    ensures ReachableBy(s', OnlyResponse(r)) && Forgotten(s', i) && s'.systems[0].pc == SStopping(Exit)
    ensures |s'.systems[0].feeds.Keys| < |s.systems[0].feeds.Keys|
  {
    var f := s.systems[0].feeds[id];
    ExitsOne(s, i, id);
    var s1 := FeedApply(s, FeedContextDone(f));
    FeedReaches(s, FeedContextDone(f), s1, OnlyResponse(r));
    WaitsForOne(s1, i, id);
    var s2 := SystemApply(s1, WaitFor(0, id));
    SystemReaches(s1, WaitFor(0, id), s2, OnlyResponse(r));
    WaitedForOne(s2, i, id);
    s' := SystemApply(s2, Waited(0));
    SystemReaches(s2, Waited(0), s', OnlyResponse(r));
    assert s'.systems[0].feeds.Keys == s.systems[0].feeds.Keys - {id};
  }

  // All feeds run, and the system loop has nothing to do.
  ghost predicate AllRun(s: State, name: SystemId, feeds: seq<Config>) {
    && !s.rootCancelled
    && Alone(s, name, feeds, SSelect) && Loops(feeds, |feeds|, s.feeds) && Latest(feeds, |feeds|, s.systems[0].feeds)
  }

  lemma ResetEnds(s: State, name: SystemId, r: Response, feeds: seq<Config>) returns (s': State)
    requires ReachableBy(s, OnlyResponse(r)) && Started(s, name, feeds, |feeds|)
    ensures ReachableBy(s', OnlyResponse(r)) && AllRun(s', name, feeds)
  {
    var s1 := SystemApply(s, AllStarted(0));
    SystemReaches(s, AllStarted(0), s1, OnlyResponse(r));
    assert At(s1, name, SReplyReset);
    s' := RootApply(s1, ResetDone);
    RootReaches(s1, ResetDone, s', OnlyResponse(r));
  }

  lemma LatestForgets(s: State, name: SystemId, feeds: seq<Config>, i: nat, j: nat)
    requires AllRun(s, name, feeds)
    requires i < j < |feeds| && feeds[i].id == feeds[j].id
    ensures EnvEnabled(s, CancelRoot) && Forgotten(EnvApply(s, CancelRoot), i)
    ensures EnvApply(s, CancelRoot).systems[0].pc == SSelect
  {
  }

  lemma GoesDown(s: State, r: Response, i: nat) returns (s': State)
    requires ReachableBy(s, OnlyResponse(r)) && Forgotten(s, i) && s.systems[0].pc == SSelect
    ensures ReachableBy(s', OnlyResponse(r)) && Forgotten(s', i)
    ensures s'.systems[0].pc == SCancelling(s'.systems[0].feeds.Keys, Exit)
  {
    s' := SystemApply(s, SystemContextDone(0));
    SystemReaches(s, SystemContextDone(0), s', OnlyResponse(r));
  }

  // The loop of the first feed with the ID outlives its system loop.
  lemma OneSurvives(name: SystemId, r: Response, feeds: seq<Config>, i: nat, j: nat)
    requires ReachableBy(NewSystem(name, r, feeds), OnlyResponse(r))
    requires i < j < |feeds| && feeds[i].id == feeds[j].id
    ensures exists s :: ReachableBy(s, OnlyResponse(r)) && !ExitedQuiet(s)
  {
    var s := HasStarted(name, r, feeds);
    var s1 := ResetEnds(s, name, r, feeds);
    LatestForgets(s1, name, feeds, i, j);
    var s2 := EnvApply(s1, CancelRoot);
    EnvReaches(s1, CancelRoot, s2, OnlyResponse(r));
    var s3 := GoesDown(s2, r, i);
    var s4 := CancelsAll(s3, r, i);
    var s5 := StopsAll(s4, r, i);
    assert !Over(s5, i);
    assert !ExitedQuiet(s5);
  }

  /** The same condition decides whether a closed done channel means that nothing is
      left of a system. */
  lemma QuietIffDistinct(ok: Response -> bool)
    ensures (forall s :: ReachableBy(s, Responses(ok)) ==> ExitedQuiet(s)) <==> AllDistinct(ok)
  {
    if AllDistinct(ok) {
      forall s | ReachableBy(s, Responses(ok)) ensures ExitedQuiet(s) {
        DistinctIsEnough(s, ok);
      }
    } else {
      var r: Response :| ok(r) && r.Found? && Sensible(r) && !DistinctActive(r.config);
      var feeds, i, j := SomeTwice(r);
      OneSurvives("", r, feeds, i, j);
      var s :| ReachableBy(s, OnlyResponse(r)) && !ExitedQuiet(s);
      OnlyIsOneOf(s, r, ok);
    }
  }
}
