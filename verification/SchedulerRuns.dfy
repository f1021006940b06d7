/** Runs in which only some actions happen: what the surroundings are supposed to do,
    or not to do. */
module SchedulerRuns {
  import opened SchedulingPolicy
  import opened Scheduler

  ghost predicate StepBy(s: State, a: Action, s': State) {
    || (EnvEnabled(s, a) && s' == EnvApply(s, a))
    || (RootEnabled(s, a) && s' == RootApply(s, a))
    || (SystemEnabled(s, a) && s' == SystemApply(s, a))
    || (FeedEnabled(s, a) && s' == FeedApply(s, a))
  }

  ghost predicate NextBy(s: State, s': State, allowed: Action -> bool) {
    exists a :: allowed(a) && StepBy(s, a, s')
  }

  ghost predicate IsRunBy(run: seq<State>, allowed: Action -> bool) {
    && |run| > 0
    && run[0] == INITIAL
    && forall i :: 0 <= i < |run| - 1 ==> NextBy(run[i], run[i + 1], allowed)
  }

  ghost predicate ReachableBy(s: State, allowed: Action -> bool) {
    exists run :: IsRunBy(run, allowed) && run[|run| - 1] == s
  }

  lemma StepByIsNext(s: State, a: Action, s': State)
    requires StepBy(s, a, s')
    ensures Next(s, s')
  {
    if EnvEnabled(s, a) && s' == EnvApply(s, a) {
      assert EnvStep(s, s');
    } else if RootEnabled(s, a) && s' == RootApply(s, a) {
      assert RootStep(s, s');
    } else if SystemEnabled(s, a) && s' == SystemApply(s, a) {
      assert SystemStep(s, s');
    } else {
      assert FeedStep(s, s');
    }
  }

  lemma NextByIsNext(s: State, s': State, allowed: Action -> bool)
    requires NextBy(s, s', allowed)
    ensures Next(s, s')
  {
    var a :| allowed(a) && StepBy(s, a, s');
    StepByIsNext(s, a, s');
  }

  lemma RunByIsRun(run: seq<State>, allowed: Action -> bool)
    requires IsRunBy(run, allowed)
    ensures IsRun(run)
  {
    forall i | 0 <= i < |run| - 1 ensures Next(run[i], run[i + 1]) {
      NextByIsNext(run[i], run[i + 1], allowed);
    }
  }

  lemma ReachableByIsReachable(s: State, allowed: Action -> bool)
    requires ReachableBy(s, allowed)
    ensures Reachable(s)
  {
    var run :| IsRunBy(run, allowed) && run[|run| - 1] == s;
    RunByIsRun(run, allowed);
  }

  lemma InitialIsReachableBy(allowed: Action -> bool)
    ensures ReachableBy(INITIAL, allowed)
  {
    assert IsRunBy([INITIAL], allowed);
  }

  lemma ReachableByNext(s: State, s': State, allowed: Action -> bool)
    requires ReachableBy(s, allowed) && NextBy(s, s', allowed)
    ensures ReachableBy(s', allowed)
  {
    var run :| IsRunBy(run, allowed) && run[|run| - 1] == s;
    var run' := run + [s'];
    assert IsRunBy(run', allowed) && run'[|run'| - 1] == s';
  }

  lemma ReachableByMore(s: State, few: Action -> bool, more: Action -> bool)
    requires ReachableBy(s, few) && forall a :: few(a) ==> more(a)
    ensures ReachableBy(s, more)
  {
    var run :| IsRunBy(run, few) && run[|run| - 1] == s;
    forall i | 0 <= i < |run| - 1 ensures NextBy(run[i], run[i + 1], more) {
      assert NextBy(run[i], run[i + 1], few);
      var a :| few(a) && StepBy(run[i], a, run[i + 1]);
    }
    assert IsRunBy(run, more);
  }

  lemma EnvReaches(s: State, a: Action, s': State, allowed: Action -> bool)
    requires ReachableBy(s, allowed) && allowed(a) && EnvEnabled(s, a) && s' == EnvApply(s, a)
    ensures ReachableBy(s', allowed)
  {
    assert StepBy(s, a, s');
    ReachableByNext(s, s', allowed);
  }

  lemma RootReaches(s: State, a: Action, s': State, allowed: Action -> bool)
    requires ReachableBy(s, allowed) && allowed(a) && RootEnabled(s, a) && s' == RootApply(s, a)
    ensures ReachableBy(s', allowed)
  {
    assert StepBy(s, a, s');
    ReachableByNext(s, s', allowed);
  }

  lemma SystemReaches(s: State, a: Action, s': State, allowed: Action -> bool)
    requires ReachableBy(s, allowed) && allowed(a) && SystemEnabled(s, a) && s' == SystemApply(s, a)
    ensures ReachableBy(s', allowed)
  {
    assert StepBy(s, a, s');
    ReachableByNext(s, s', allowed);
  }

  lemma FeedReaches(s: State, a: Action, s': State, allowed: Action -> bool)
    requires ReachableBy(s, allowed) && allowed(a) && FeedEnabled(s, a) && s' == FeedApply(s, a)
    ensures ReachableBy(s', allowed)
  {
    assert StepBy(s, a, s');
    ReachableByNext(s, s', allowed);
  }

  // --------------------------------------------------------- the first request

  function Requested(name: SystemId): State {
    INITIAL.(root := RConfig(name, One), clientWaits := true)
  }

  // A new system is about to be sent its feeds.
  function NewSystem(name: SystemId, r: Response, feeds: seq<Config>): State {
    Requested(name).(root := RSendReset(name, feeds, One), registry := map[name := 0],
                     systems := map[0 := System(name, false, SSelect, map[], [])],
                     duplicates := !DistinctIds(feeds), responses := map[name := r])
  }

  lemma AnswerArrives(name: SystemId, r: Response, feeds: seq<Config>)
    requires Sensible(r) && AnswerOf(r) == Active(feeds) && feeds != []
    ensures AnswerEnabled(Requested(name), 0)
    ensures RootApply(Requested(name), Answered(r, 0)) == NewSystem(name, r, feeds)
  {
    var s := AnswerApply(Requested(name), Active(feeds), 0);
    assert s.registry == map[name := 0];
    assert s.systems == map[0 := System(name, false, SSelect, map[], [])];
  }

  lemma FirstReset(name: SystemId, r: Response, feeds: seq<Config>, allowed: Action -> bool)
    requires Sensible(r) && AnswerOf(r) == Active(feeds) && feeds != []
    requires allowed(RequestReset(name)) && allowed(Answered(r, 0))
    ensures ReachableBy(NewSystem(name, r, feeds), allowed)
  {
    InitialIsReachableBy(allowed);
    EnvReaches(INITIAL, RequestReset(name), Requested(name), allowed);
    AnswerArrives(name, r, feeds);
    RootReaches(Requested(name), Answered(r, 0), NewSystem(name, r, feeds), allowed);
  }

  // ------------------------------------------------------------------ responses

  // Every system that is found has one of these configurations.
  ghost function Responses(ok: Response -> bool): Action -> bool {
    (a: Action) => a.Answered? && a.response.Found? ==> ok(a.response)
  }

  ghost function OnlyResponse(r: Response): Action -> bool {
    (a: Action) => a.Answered? && a.response.Found? ==> a.response == r
  }

  lemma OnlyIsOneOf(s: State, r: Response, ok: Response -> bool)
    requires ReachableBy(s, OnlyResponse(r)) && ok(r)
    ensures ReachableBy(s, Responses(ok))
  {
    ReachableByMore(s, OnlyResponse(r), Responses(ok));
  }
}
