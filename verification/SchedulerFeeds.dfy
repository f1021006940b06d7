/** What every feed loop is given: the normalised feeds of some response. */
module SchedulerFeeds {
  import opened Decimal
  import opened SchedulingPolicy
  import opened Scheduler
  import opened SchedulerRuns
  import opened SchedulerFrames
  import opened SchedulerDuplicates

  ghost predicate AllOk(feeds: seq<Config>, good: Config -> bool) {
    forall c :: c in feeds ==> good(c)
  }

  ghost predicate TargetsOk(systems: map<nat, System>, good: Config -> bool) {
    forall i :: i in systems ==> AllOk(systems[i].target, good)
  }

  ghost predicate RootOk(pc: RootPc, good: Config -> bool) {
    pc.RSendReset? || pc.RAwaitReset? ==> AllOk(pc.feeds, good)
  }

  // Every feed on its way to a loop, and every feed of a loop, is a good one.
  ghost predicate Within(s: State, good: Config -> bool) {
    && RootOk(s.root, good)
    && TargetsOk(s.systems, good)
    && (forall f :: f in s.feeds ==> good(s.feeds[f].config))
  }

  // ------------------------------------------------------------ step by step

  lemma SystemWithin(s: State, a: Action, good: Config -> bool)
    requires Within(s, good) && SystemEnabled(s, a)
    ensures Within(SystemApply(s, a), good)
  {
    SystemStepFrame(s, a);
    var s' := SystemApply(s, a);
    assert TargetsOk(s'.systems, good);
    if a.StartFeed? {
      StartFrame(s, a);
    } else if a.CancelFeed? || a.FeedStarted? || a.SendFeedStatus? || a.FeedStatusDone? {
      var f := JointFrame(s, a);
    } else {
      AloneFrame(s, a);
    }
  }

  lemma FeedWithin(s: State, a: Action, good: Config -> bool)
    requires Within(s, good) && FeedEnabled(s, a)
    ensures Within(FeedApply(s, a), good)
  {
  }

  lemma EnvWithin(s: State, a: Action, good: Config -> bool)
    requires Within(s, good) && EnvEnabled(s, a)
    ensures Within(EnvApply(s, a), good)
  {
  }

  lemma HandledOk(name: SystemId, feeds: seq<Config>, caller: Caller, good: Config -> bool)
    ensures RootOk(Handled(name, feeds, caller), good)
  {
  }

  lemma StoppingWithin(s: State, name: SystemId, c: Caller, good: Config -> bool)
    requires Within(s, good) && (name in s.registry ==> s.registry[name] in s.systems)
    ensures Within(Stopping(s, name, c), good)
  {
    HandledOk(name, [], c, good);
    StoppingFrame(s, name, c);
    assert TargetsOk(Stopping(s, name, c).systems, good);
  }

  lemma FailedWithin(s: State, i: nat, good: Config -> bool)
    requires Within(s, good) && AnswerEnabled(s, i)
    ensures Within(AnswerApply(s, Failed, i), good)
  {
  }

  lemma ActiveWithin(s: State, feeds: seq<Config>, i: nat, good: Config -> bool)
    requires Within(s, good) && AnswerEnabled(s, i) && feeds != [] && AllOk(feeds, good)
    ensures Within(AnswerApply(s, Active(feeds), i), good)
  {
    assert TargetsOk(AnswerApply(s, Active(feeds), i).systems, good);
  }

  lemma AnswerWithin(s: State, answer: Answer, i: nat, good: Config -> bool)
    requires Within(s, good) && AnswerEnabled(s, i)
    requires answer.Active? ==> AllOk(answer.feeds, good)
    ensures Within(AnswerApply(s, answer, i), good)
  {
    if answer == Failed {
      FailedWithin(s, i, good);
    } else if answer == Active([]) {
      StoppingWithin(s, s.root.name, s.root.caller, good);
    } else {
      ActiveWithin(s, answer.feeds, i, good);
    }
  }

  lemma AnsweredWithin(s: State, response: Response, i: nat, good: Config -> bool)
    requires Within(s, good) && AnswerEnabled(s, i) && Sensible(response) && AllOk(Asked(response), good)
    ensures Within(RootApply(s, Answered(response, i)), good)
  {
    AnswerWithin(s, AnswerOf(response), i, good);
  }

  // The steps that the root loop takes together with a system loop.
  lemma RootJointWithin(s: State, a: Action, good: Config -> bool)
    requires Within(s, good) && RootEnabled(s, a)
    requires a.SendReset? || a.ResetDone? || a.SendStatus? || a.StatusDone?
    ensures Within(RootApply(s, a), good)
  {
    assert TargetsOk(RootApply(s, a).systems, good);
  }

  lemma RootAloneWithin(s: State, a: Action, good: Config -> bool)
    requires Within(s, good) && RootEnabled(s, a)
    requires !a.Answered? && !a.SendReset? && !a.ResetDone? && !a.SendStatus? && !a.StatusDone?
    requires !a.SweepNext? && !a.ShutdownNext?
    ensures Within(RootApply(s, a), good)
  {
    assert RootApply(s, a).systems == s.systems && RootApply(s, a).feeds == s.feeds;
  }

  lemma RootWithin(s: State, a: Action, good: Config -> bool)
    requires Within(s, good) && RootEnabled(s, a)
    requires a.Answered? ==> AllOk(Asked(a.response), good)
    ensures Within(RootApply(s, a), good)
  {
    if a.Answered? {
      AnsweredWithin(s, a.response, a.i, good);
    } else if a.SweepNext? {
      StoppingWithin(s, a.name, Sweep(s.root.left - {a.name}, s.root.all, s.root.ok), good);
    } else if a.ShutdownNext? {
      StoppingWithin(s, a.name, Shutdown(s.root.left - {a.name}), good);
    } else if a.SendReset? || a.ResetDone? || a.SendStatus? || a.StatusDone? {
      RootJointWithin(s, a, good);
    } else {
      RootAloneWithin(s, a, good);
    }
  }

  lemma StepWithin(s: State, a: Action, s': State, good: Config -> bool)
    requires Within(s, good) && StepBy(s, a, s')
    requires a.Answered? && Sensible(a.response) ==> AllOk(Asked(a.response), good)
    ensures Within(s', good)
  {
    if EnvEnabled(s, a) && s' == EnvApply(s, a) {
      EnvWithin(s, a, good);
    } else if RootEnabled(s, a) && s' == RootApply(s, a) {
      RootWithin(s, a, good);
    } else if SystemEnabled(s, a) && s' == SystemApply(s, a) {
      SystemWithin(s, a, good);
    } else {
      FeedWithin(s, a, good);
    }
  }

  // All responses ask for good feeds only.
  ghost predicate AsksFor(ok: Response -> bool, good: Config -> bool) {
    forall r: Response :: ok(r) && r.Found? && Sensible(r) ==> AllOk(Asked(r), good)
  }

  lemma {:induction false} RunWithin(run: seq<State>, k: nat, ok: Response -> bool, good: Config -> bool)
    requires IsRunBy(run, Responses(ok)) && AsksFor(ok, good) && k < |run|
    ensures Within(run[k], good)
  {
    if k > 0 {
      RunWithin(run, k - 1, ok, good);
      assert NextBy(run[k - 1], run[k - 1 + 1], Responses(ok));
      var a :| Responses(ok)(a) && StepBy(run[k - 1], a, run[k]);
      StepWithin(run[k - 1], a, run[k], good);
    }
  }

  // ------------------------------------------------------------ runnable feeds

  // Every feed that is to get a loop was configured in a usable way.
  ghost predicate AllUsable(config: seq<Config>) {
    forall i :: 0 <= i < |config| && config[i].policy != NONE ==> Usable(config[i])
  }

  ghost predicate AllRunnable(s: State, known: Zones) {
    forall f :: f in s.feeds ==> Runnable(s.feeds[f].config, known)
  }

  // The responses differ in the feeds and agencies only, and list no more feeds than
  // can be numbered.
  ghost predicate Alike(ok: Response -> bool, known: Zones) {
    forall r: Response :: ok(r) && r.Found? ==> r.known == known && DefaultMinutes(|r.config|) <= MAX_INT64
  }

  lemma UsableIsEnough(s: State, ok: Response -> bool, known: Zones)
    requires known("UTC") && Alike(ok, known) && ReachableBy(s, Responses(ok))
    requires forall r: Response :: ok(r) && r.Found? ==> AllUsable(r.config)
    ensures AllRunnable(s, known)
  {
    var run :| IsRunBy(run, Responses(ok)) && run[|run| - 1] == s;
    var good := c => Runnable(c, known);
    forall r: Response | ok(r) && r.Found? && Sensible(r) ensures AllOk(Asked(r), good) {
      ActiveFeedsAreRunnable(r.config, r.agencies, known);
    }
    RunWithin(run, |run| - 1, ok, good);
  }

  // A configuration with a feed that cannot be run, as it reaches the only system.
  lemma SomeUnusable(name: SystemId, r: Response, known: Zones) returns (feeds: seq<Config>, f: nat)
    requires r.Found? && known("UTC") && r.known == known && DefaultMinutes(|r.config|) <= MAX_INT64
    requires !AllUsable(r.config)
    ensures ReachableBy(NewSystem(name, r, feeds), OnlyResponse(r))
    ensures f < |feeds| && !Runnable(feeds[f], known)
  {
    ActiveFeedsAreRunnable(r.config, r.agencies, known);
    feeds := Asked(r);
    var x :| x in feeds && !Runnable(x, known);
    f :| 0 <= f < |feeds| && feeds[f] == x;
    FirstReset(name, r, feeds, OnlyResponse(r));
  }

  // A loop starts for it.
  lemma UnusableStarts(name: SystemId, r: Response, feeds: seq<Config>, f: nat, known: Zones)
    requires ReachableBy(NewSystem(name, r, feeds), OnlyResponse(r))
    requires f < |feeds| && !Runnable(feeds[f], known)
    ensures exists s :: ReachableBy(s, OnlyResponse(r)) && !AllRunnable(s, known)
  {
    var s := HasStarted(name, r, feeds);
    assert s.feeds[f].config == feeds[f];
    assert !AllRunnable(s, known);
  }

  /** Whatever configurations may be found, no feed loop ever meets a policy or an
      interval that makes it panic, in every interleaving, exactly when every feed of
      every configuration is usable or has policy NONE. */
  lemma NoPanicIffUsable(ok: Response -> bool, known: Zones)
    requires known("UTC") && Alike(ok, known)
    ensures (forall s :: ReachableBy(s, Responses(ok)) ==> AllRunnable(s, known))
       <==> (forall r: Response :: ok(r) && r.Found? ==> AllUsable(r.config))
  {
    if forall r: Response :: ok(r) && r.Found? ==> AllUsable(r.config) {
      forall s | ReachableBy(s, Responses(ok)) ensures AllRunnable(s, known) {
        UsableIsEnough(s, ok, known);
      }
    } else {
      var r: Response :| ok(r) && r.Found? && !AllUsable(r.config);
      var feeds, f := SomeUnusable("", r, known);
      UnusableStarts("", r, feeds, f, known);
      var s :| ReachableBy(s, OnlyResponse(r)) && !AllRunnable(s, known);
      OnlyIsOneOf(s, r, ok);
    }
  }
}
