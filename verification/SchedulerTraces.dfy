/** Runs with the actions that make them, and what the actions say about a request. */
module SchedulerTraces {
  import opened Decimal
  import opened Scheduler
  import opened SchedulerRuns
  import opened SchedulerFrames
  import opened SchedulerSafety
  import opened SchedulerResponses

  datatype Trace = Trace(states: seq<State>, actions: seq<Action>)

  ghost predicate StepAt(t: Trace, k: int) {
    0 <= k < |t.actions| && k + 1 < |t.states| && StepBy(t.states[k], t.actions[k], t.states[k + 1])
  }

  // From the initial state, one action after the other.
  ghost predicate IsTrace(t: Trace) {
    && |t.states| == |t.actions| + 1
    && t.states[0] == INITIAL
    && forall k :: 0 <= k < |t.actions| ==> StepAt(t, k)
  }

  lemma TraceStep(t: Trace, k: nat, l: nat)
    requires IsTrace(t) && l == k + 1 && l < |t.states|
    ensures StepBy(t.states[k], t.actions[k], t.states[l])
  {
    assert StepAt(t, k);
  }

  lemma {:induction false} TraceIsReachable(t: Trace, k: nat)
    requires IsTrace(t) && k < |t.states|
    ensures Reachable(t.states[k])
  {
    if k == 0 {
      assert IsRun([INITIAL]);
    } else {
      TraceIsReachable(t, k - 1);
      TraceStep(t, k - 1, k);
      StepByIsNext(t.states[k - 1], t.actions[k - 1], t.states[k]);
      ReachableStep(t.states[k - 1], t.states[k]);
    }
  }

  // Every run has such actions, so what holds of all traces holds of all runs.
  lemma {:induction false} RunHasTrace(run: seq<State>) returns (t: Trace)
    requires IsRun(run)
    ensures IsTrace(t) && t.states == run
  {
    if |run| == 1 {
      t := Trace(run, []);
    } else {
      var n := |run| - 1;
      assert Next(run[n - 1], run[n - 1 + 1]);
      var a := NextHasAction(run[n - 1], run[n]);
      var front := RunHasTrace(run[..n]);
      t := Trace(run, front.actions + [a]);
      assert run[..n] == front.states;
      forall k | 0 <= k < |t.actions| ensures StepAt(t, k) {
        assert k < n - 1 ==> StepAt(front, k);
      }
    }
  }

  lemma NextHasAction(s: State, s': State) returns (a: Action)
    requires Next(s, s')
    ensures StepBy(s, a, s')
  {
    if EnvStep(s, s') {
      a :| EnvEnabled(s, a) && s' == EnvApply(s, a);
    } else if RootStep(s, s') {
      a :| RootEnabled(s, a) && s' == RootApply(s, a);
    } else if SystemStep(s, s') {
      a :| SystemEnabled(s, a) && s' == SystemApply(s, a);
    } else {
      a :| FeedEnabled(s, a) && s' == FeedApply(s, a);
    }
  }

  lemma RootActsAlone(s: State, a: Action)
    requires RootEnabled(s, a)
    ensures !EnvEnabled(s, a) && !SystemEnabled(s, a) && !FeedEnabled(s, a)
  {
  }

  lemma RootStepIsRoots(s: State, a: Action, s': State)
    requires StepBy(s, a, s') && RootEnabled(s, a)
    ensures s' == RootApply(s, a) && (a.RootReply? ==> s'.root.RSelect?)
  {
    RootActsAlone(s, a);
  }

  lemma OthersKeepRoot(s: State, a: Action, s': State)
    requires StepBy(s, a, s') && !RootEnabled(s, a) && !s.root.RSelect?
    ensures s'.root == s.root && AnswerIn(s, a) == []
  {
    if SystemEnabled(s, a) && s' == SystemApply(s, a) {
      SystemStepFrame(s, a);
    } else if FeedEnabled(s, a) && s' == FeedApply(s, a) {
      FeedStepFrame(s, a);
    }
  }

  lemma OthersKeepResponses(s: State, a: Action, s': State)
    requires StepBy(s, a, s') && !RootEnabled(s, a)
    ensures s'.responses == s.responses && AnswerIn(s, a) == []
  {
    if SystemEnabled(s, a) && s' == SystemApply(s, a) {
      SystemStepFrame(s, a);
    } else if FeedEnabled(s, a) && s' == FeedApply(s, a) {
      FeedStepFrame(s, a);
    }
  }

  // The root loop is not idle from state i to state j: it serves one request.
  ghost predicate OneRequest(t: Trace, i: nat, j: nat) {
    i <= j < |t.states| && forall k :: i <= k <= j ==> !t.states[k].root.RSelect?
  }

  // --------------------------------------------------------------- the answers

  // What the other services said when they were asked about a system.
  datatype SystemAnswer = SystemAnswer(name: SystemId, response: Response)

  function AnswerIn(s: State, a: Action): seq<SystemAnswer> {
    if a.Answered? && s.root.RConfig? then [SystemAnswer(s.root.name, a.response)] else []
  }

  // The answers between states i and j, in order.
  function Answers(t: Trace, i: nat, j: nat): seq<SystemAnswer>
    requires i <= j < |t.states| && |t.states| == |t.actions| + 1
  {
    if i == j then [] else Answers(t, i, j - 1) + AnswerIn(t.states[j - 1], t.actions[j - 1])
  }

  lemma AnswersNext(t: Trace, i: nat, j: nat)
    requires i < j < |t.states| && |t.states| == |t.actions| + 1
    ensures Answers(t, i, j) == Answers(t, i, j - 1) + AnswerIn(t.states[j - 1], t.actions[j - 1])
  {
  }

  function NamesOf(log: seq<SystemAnswer>): (names: seq<SystemId>)
    ensures |names| == |log|
    ensures forall k :: 0 <= k < |log| ==> names[k] == log[k].name
  {
    seq(|log|, k requires 0 <= k < |log| => log[k].name)
  }

  // None of the answers is an error.
  ghost predicate NoErrors(log: seq<SystemAnswer>) {
    forall e :: e in log ==> !e.response.Unavailable?
  }

  // The last answer about the system that is no error.
  function LastAnswer(log: seq<SystemAnswer>, name: SystemId): (r: Option<Response>)
    ensures r.Some? ==> !r.value.Unavailable? && SystemAnswer(name, r.value) in log
  {
    if log == [] then None else
      var e := log[|log| - 1];
      if e.name == name && !e.response.Unavailable? then Some(e.response) else LastAnswer(log[..|log| - 1], name)
  }

  lemma {:induction false} AnsweredOrNot(log: seq<SystemAnswer>, name: SystemId)
    ensures LastAnswer(log, name).None? <==> forall e :: e in log && e.name == name ==> e.response.Unavailable?
  {
    if log != [] {
      var e := log[|log| - 1];
      AnsweredOrNot(log[..|log| - 1], name);
      assert log == log[..|log| - 1] + [e];
    }
  }

  // What the state remembers about a system is the last answer, if there was one.
  ghost predicate RemembersOne(before: map<SystemId, Response>, log: seq<SystemAnswer>, after: map<SystemId, Response>,
                               n: SystemId)
  {
    match LastAnswer(log, n)
    case Some(r) => n in after && after[n] == r
    case None => (n in after <==> n in before) && (n in after ==> after[n] == before[n])
  }

  ghost predicate Remembers(before: map<SystemId, Response>, log: seq<SystemAnswer>, after: map<SystemId, Response>) {
    forall n :: RemembersOne(before, log, after, n)
  }

  lemma RemembersNext(before: map<SystemId, Response>, log: seq<SystemAnswer>, after: map<SystemId, Response>,
                      e: SystemAnswer)
    requires Remembers(before, log, after)
    ensures Remembers(before, log + [e], if e.response.Unavailable? then after else after[e.name := e.response])
  {
    assert (log + [e])[..|log|] == log;
    var log', after' := log + [e], if e.response.Unavailable? then after else after[e.name := e.response];
    forall n ensures RemembersOne(before, log', after', n) {
      assert RemembersOne(before, log, after, n);
    }
  }

  lemma StepRemembers(s: State, a: Action, s': State)
    requires StepBy(s, a, s')
    ensures AnswerIn(s, a) == [] ==> s'.responses == s.responses
    ensures AnswerIn(s, a) != [] ==>
      (s'.responses == if a.response.Unavailable? then s.responses else s.responses[s.root.name := a.response])
  {
    if RootEnabled(s, a) {
      RootStepIsRoots(s, a, s');
      if !a.Answered? {
        OnlyAnswersRespond(s, a);
      }
    } else {
      OthersKeepResponses(s, a, s');
    }
  }

  lemma StepKeepsMemory(before: map<SystemId, Response>, log: seq<SystemAnswer>, s: State, a: Action, s': State)
    requires StepBy(s, a, s') && Remembers(before, log, s.responses)
    ensures Remembers(before, log + AnswerIn(s, a), s'.responses)
  {
    StepRemembers(s, a, s');
    if AnswerIn(s, a) == [] {
      assert log + AnswerIn(s, a) == log;
    } else {
      RemembersNext(before, log, s.responses, AnswerIn(s, a)[0]);
    }
  }

  lemma RemembersLast(before: map<SystemId, Response>, log: seq<SystemAnswer>, after: map<SystemId, Response>,
                      n: SystemId)
    requires Remembers(before, log, after) && LastAnswer(log, n).Some?
    ensures n in after && after[n] == LastAnswer(log, n).value
  {
    assert RemembersOne(before, log, after, n);
  }

  lemma NothingToRemember(responses: map<SystemId, Response>)
    ensures Remembers(responses, [], responses)
  {
  }

  lemma {:induction false} TraceRemembers(t: Trace, i: nat, j: nat, log: seq<SystemAnswer>)
    requires IsTrace(t) && i <= j < |t.states| && log == Answers(t, i, j)
    ensures Remembers(t.states[i].responses, log, t.states[j].responses)
  {
    if i == j {
      NothingToRemember(t.states[i].responses);
    } else {
      var front := Answers(t, i, j - 1);
      TraceRemembers(t, i, j - 1, front);
      AnswersNext(t, i, j);
      TraceStep(t, j - 1, j);
      StepKeepsMemory(t.states[i].responses, front, t.states[j - 1], t.actions[j - 1], t.states[j]);
    }
  }
}
