/** What a request comes to, in terms of what the other services answered meanwhile. */
module SchedulerRequests {
  import opened SchedulingPolicy
  import opened Scheduler
  import opened SchedulerRuns
  import opened SchedulerFrames
  import opened SchedulerSafety
  import opened SchedulerResponses
  import opened SchedulerResets
  import opened SchedulerTraces

  // ------------------------------------------------------------- what then runs

  // The feed is the normal form of one that is to be updated.
  ghost predicate IsWanted(r: Response, c: Config) {
    r.Found? && r.known("UTC") && exists i: nat :: IsActive(r.config, i, r.agencies, r.known, c)
  }

  // A feed loop of the system that has not exited.
  ghost predicate Lives(s: State, f: nat, name: SystemId) {
    Under(s, f, name) && s.feeds[f].pc != FExited
  }

  // The system loop waits for requests; one loop runs for every feed that is wanted,
  // waiting for ticks, and there is no other.
  ghost predicate RunsResponse(s: State, name: SystemId, r: Response) {
    && At(s, name, SSelect)
    && (forall c :: IsWanted(r, c) <==> exists f :: Runs(s, f, name, c))
    && (forall f :: Lives(s, f, name) ==> Runs(s, f, name, s.feeds[f].config))
    && (forall f, g :: Lives(s, f, name) && Lives(s, g, name) && s.feeds[f].config == s.feeds[g].config ==> f == g)
  }

  lemma AskedIsWanted(r: Response, c: Config)
    requires r.Found? && Sensible(r)
    ensures c in Asked(r) <==> IsWanted(r, c)
  {
    ActiveFeedsMeaning(r.config, r.agencies, r.known, c);
  }

  lemma ExactlyLives(s: State, name: SystemId, feeds: seq<Config>, f: nat)
    requires RunsExactly(s, name, feeds) && Lives(s, f, name)
    ensures Runs(s, f, name, s.feeds[f].config) && s.feeds[f].config in feeds
  {
    var g :| Runs(s, g, name, s.feeds[f].config);
  }

  lemma ExactlyRunsResponse(s: State, name: SystemId, r: Response)
    requires r.Found? && Sensible(r) && RunsExactly(s, name, Asked(r))
    ensures RunsResponse(s, name, r)
  {
    var feeds := Asked(r);
    forall f | Lives(s, f, name) ensures Runs(s, f, name, s.feeds[f].config) && s.feeds[f].config in feeds {
      ExactlyLives(s, name, feeds, f);
    }
    forall c ensures IsWanted(r, c) <==> exists f :: Runs(s, f, name, c) {
      AskedIsWanted(r, c);
      if f :| Runs(s, f, name, c) {
        assert Lives(s, f, name);
      }
    }
  }

  // Between requests, by the responses.
  lemma IdleRunsResponse(s: State, name: SystemId)
    requires Reachable(s) && !s.duplicates && !s.rootCancelled && name in s.registry
    requires s.root.RSelect? || s.root.RReplying?
    requires name in s.responses && s.responses[name].Found?
    ensures RunsResponse(s, name, s.responses[name])
  {
    IdleRunsAsAsked(s, name);
    ExactlyRunsResponse(s, name, s.responses[name]);
  }

  // ------------------------------------------------------- a reset of all systems

  // The answers so far are about the first systems of the list, and no error.
  ghost predicate AskedFirst(names: seq<SystemId>, log: seq<SystemAnswer>, todo: seq<SystemId>) {
    NoErrors(log) && NamesOf(log) + todo == names
  }

  // The answers are about the whole list and no error, or end with an error.
  ghost predicate AskedUntil(names: seq<SystemId>, log: seq<SystemAnswer>, ok: bool) {
    && (ok ==> AskedFirst(names, log, []))
    && (!ok ==>
          && log != [] && log[|log| - 1].response.Unavailable? && NoErrors(log[..|log| - 1])
          && |log| <= |names| && NamesOf(log) == names[..|log|])
  }

  // How many of the systems were handled without an error.
  function Good(log: seq<SystemAnswer>, ok: bool): int {
    if ok then |log| else |log| - 1
  }

  ghost predicate Ending(names: seq<SystemId>, all: ResetAll, ok: bool, log: seq<SystemAnswer>) {
    all.listed == names && AskedUntil(names, log, ok) && Upto(all, Good(log, ok))
  }

  // Where the root loop is in a reset of the listed systems after these answers.
  ghost predicate GoesThrough(names: seq<SystemId>, root: RootPc, log: seq<SystemAnswer>) {
    match root
    case RNext(todo, all) => all.listed == names && AskedFirst(names, log, todo)
    case RConfig(n, All(todo, all)) => all.listed == names && AskedFirst(names, log, [n] + todo)
    case RSendReset(_, _, All(todo, all)) => all.listed == names && AskedFirst(names, log, todo)
    case RAwaitReset(_, _, All(todo, all)) => all.listed == names && AskedFirst(names, log, todo)
    case RAwaitDone(_, All(todo, all)) => all.listed == names && AskedFirst(names, log, todo)
    case RAwaitDone(_, Sweep(_, all, ok)) => Ending(names, all, ok, log)
    case RSweep(_, all, ok) => Ending(names, all, ok, log)
    case RReplying(ResetAllReply(all, ok)) => Ending(names, all, ok, log)
    case _ => false
  }

  lemma AskedNext(names: seq<SystemId>, log: seq<SystemAnswer>, n: SystemId, todo: seq<SystemId>, r: Response)
    requires AskedFirst(names, log, [n] + todo)
    ensures !r.Unavailable? ==> AskedFirst(names, log + [SystemAnswer(n, r)], todo)
    ensures r.Unavailable? ==> AskedUntil(names, log + [SystemAnswer(n, r)], false)
  {
    var log' := log + [SystemAnswer(n, r)];
    assert NamesOf(log') == NamesOf(log) + [n];
    assert NamesOf(log) + ([n] + todo) == NamesOf(log') + todo;
    assert log'[..|log|] == log;
    assert names[..|log'|] == NamesOf(log');
  }

  lemma HandledGoesOn(names: seq<SystemId>, name: SystemId, feeds: seq<Config>, c: Caller, root: RootPc,
                      log: seq<SystemAnswer>)
    requires GoesThrough(names, root, log)
    requires (root.RAwaitReset? || root.RAwaitDone?) && root.caller == c
    ensures GoesThrough(names, Handled(name, feeds, c), log)
  {
  }

  lemma StopGoesOn(names: seq<SystemId>, s: State, name: SystemId, c: Caller, log: seq<SystemAnswer>)
    requires name in s.registry ==> s.registry[name] in s.systems
    requires GoesThrough(names, RAwaitDone(name, c), log)
    ensures GoesThrough(names, Stopping(s, name, c).root, log)
  {
    HandledGoesOn(names, name, [], c, RAwaitDone(name, c), log);
  }

  lemma NothingGoesOn(names: seq<SystemId>, s: State, i: nat, log: seq<SystemAnswer>)
    requires AnswerEnabled(s, i) && s.root.caller.All?
    requires GoesThrough(names, RAwaitDone(s.root.name, s.root.caller), log)
    ensures GoesThrough(names, AnswerApply(s, Active([]), i).root, log)
  {
    StopGoesOn(names, s, s.root.name, s.root.caller, log);
  }

  lemma SomethingGoesOn(names: seq<SystemId>, s: State, feeds: seq<Config>, i: nat, log: seq<SystemAnswer>)
    requires AnswerEnabled(s, i) && s.root.caller.All? && feeds != []
    requires GoesThrough(names, RAwaitDone(s.root.name, s.root.caller), log)
    ensures GoesThrough(names, AnswerApply(s, Active(feeds), i).root, log)
  {
    assert AnswerApply(s, Active(feeds), i).root == RSendReset(s.root.name, feeds, s.root.caller);
  }

  lemma AnswerGoesOn(names: seq<SystemId>, s: State, r: Response, i: nat, log: seq<SystemAnswer>)
    requires AnswerEnabled(s, i) && Sensible(r) && !r.Unavailable? && GoesThrough(names, s.root, log)
    ensures GoesThrough(names, RootApply(s, Answered(r, i)).root, log + [SystemAnswer(s.root.name, r)])
  {
    var feeds, log' := Asked(r), log + [SystemAnswer(s.root.name, r)];
    AskedNext(names, log, s.root.name, s.root.caller.todo, r);
    if feeds == [] {
      NothingGoesOn(names, s, i, log');
    } else {
      SomethingGoesOn(names, s, feeds, i, log');
    }
  }

  lemma ErrorGoesOn(names: seq<SystemId>, s: State, i: nat, log: seq<SystemAnswer>)
    requires AnswerEnabled(s, i) && GoesThrough(names, s.root, log) && ResetInv(s.root, s.registry, s.systems)
    ensures GoesThrough(names, RootApply(s, Answered(Unavailable, i)).root, log + [SystemAnswer(s.root.name, Unavailable)])
  {
    AskedNext(names, log, s.root.name, s.root.caller.todo, Unavailable);
    assert |s.root.caller.all.listed| - |s.root.caller.todo| - 1 == |log|;
  }

  lemma SweepGoesOn(names: seq<SystemId>, s: State, name: SystemId, log: seq<SystemAnswer>)
    requires RootEnabled(s, SweepNext(name)) && GoesThrough(names, s.root, log)
    ensures GoesThrough(names, RootApply(s, SweepNext(name)).root, log)
  {
    if name !in s.root.all.handled {
      StopGoesOn(names, s, name, Sweep(s.root.left - {name}, s.root.all, s.root.ok), log);
    }
  }

  lemma NextGoesOn(names: seq<SystemId>, s: State, log: seq<SystemAnswer>)
    requires RootEnabled(s, NextSystem) && GoesThrough(names, s.root, log)
    ensures GoesThrough(names, RootApply(s, NextSystem).root, log)
  {
    assert s.root.todo == [s.root.todo[0]] + s.root.todo[1..];
  }

  // The steps between two answers that do not go through a list.
  lemma OtherGoesOn(names: seq<SystemId>, s: State, a: Action, log: seq<SystemAnswer>)
    requires RootEnabled(s, a) && GoesThrough(names, s.root, log) && ResetInv(s.root, s.registry, s.systems)
    requires a.AllHandled? || a.SendReset? || a.ResetDone? || a.StopDone? || a.SweepDone?
    ensures GoesThrough(names, RootApply(s, a).root, log)
  {
    if a.ResetDone? {
      HandledGoesOn(names, s.root.name, s.root.feeds, s.root.caller, s.root, log);
    } else if a.StopDone? {
      HandledGoesOn(names, s.root.name, [], s.root.caller, s.root, log);
    }
  }

  lemma RootGoesOn(names: seq<SystemId>, s: State, a: Action, log: seq<SystemAnswer>)
    requires RootEnabled(s, a) && GoesThrough(names, s.root, log) && ResetInv(s.root, s.registry, s.systems)
    requires !a.RootReply?
    ensures GoesThrough(names, RootApply(s, a).root, log + AnswerIn(s, a))
  {
    if a.Answered? {
      if a.response.Unavailable? {
        ErrorGoesOn(names, s, a.i, log);
      } else {
        AnswerGoesOn(names, s, a.response, a.i, log);
      }
    } else {
      assert log + AnswerIn(s, a) == log;
      if a.SweepNext? {
        SweepGoesOn(names, s, a.name, log);
      } else if a.NextSystem? {
        NextGoesOn(names, s, log);
      } else {
        OtherGoesOn(names, s, a, log);
      }
    }
  }

  lemma StepGoesOn(names: seq<SystemId>, s: State, a: Action, s': State, log: seq<SystemAnswer>)
    requires StepBy(s, a, s') && GoesThrough(names, s.root, log) && ResetInv(s.root, s.registry, s.systems)
    requires !s'.root.RSelect?
    ensures GoesThrough(names, s'.root, log + AnswerIn(s, a))
  {
    if RootEnabled(s, a) {
      RootStepIsRoots(s, a, s');
      RootGoesOn(names, s, a, log);
    } else {
      OthersKeepRoot(s, a, s');
      assert log + AnswerIn(s, a) == log;
    }
  }

  lemma TraceResets(t: Trace, k: nat)
    requires IsTrace(t) && k < |t.states|
    ensures ResetInv(t.states[k].root, t.states[k].registry, t.states[k].systems)
  {
    TraceIsReachable(t, k);
    ReachableResets(t.states[k]);
  }

  lemma ListGoesFurther(t: Trace, j: nat, names: seq<SystemId>, log: seq<SystemAnswer>)
    requires IsTrace(t) && 0 < j < |t.states| && !t.states[j].root.RSelect?
    requires GoesThrough(names, t.states[j - 1].root, log)
    ensures GoesThrough(names, t.states[j].root, log + AnswerIn(t.states[j - 1], t.actions[j - 1]))
  {
    TraceStep(t, j - 1, j);
    TraceResets(t, j - 1);
    StepGoesOn(names, t.states[j - 1], t.actions[j - 1], t.states[j], log);
  }

  lemma {:induction false} ListGoesOn(t: Trace, i: nat, j: nat, names: seq<SystemId>, log: seq<SystemAnswer>)
    requires IsTrace(t) && i < j && OneRequest(t, i + 1, j) && t.actions[i] == Listed(names)
    requires log == Answers(t, i + 1, j)
    ensures GoesThrough(names, t.states[j].root, log)
  {
    if j == i + 1 {
      TraceStep(t, i, j);
      ListStarts(names, t.states[i], t.states[j]);
    } else {
      var front := Answers(t, i + 1, j - 1);
      ListGoesOn(t, i, j - 1, names, front);
      AnswersNext(t, i + 1, j);
      ListGoesFurther(t, j, names, front);
    }
  }

  lemma ListStarts(names: seq<SystemId>, s: State, s': State)
    requires StepBy(s, Listed(names), s')
    ensures GoesThrough(names, s'.root, [])
  {
  }

  // ------------------------------------------------------------ what it comes to

  // The answers are about the systems of the list, in order and up to the first error.
  ghost predicate AsksInOrder(names: seq<SystemId>, log: seq<SystemAnswer>) {
    && |log| <= |names|
    && NamesOf(log) == names[..|log|]
    && forall k :: 0 <= k < |log| - 1 ==> !log[k].response.Unavailable?
  }

  lemma AskedInOrder(names: seq<SystemId>, log: seq<SystemAnswer>, ok: bool)
    requires AskedUntil(names, log, ok)
    ensures AsksInOrder(names, log)
    ensures ok <==> NoErrors(log)
    ensures ok ==> NamesOf(log) == names
  {
    if ok {
      assert NamesOf(log) + [] == NamesOf(log) && names[..|log|] == NamesOf(log);
    } else {
      assert log[|log| - 1] in log;
      forall k | 0 <= k < |log| - 1 ensures !log[k].response.Unavailable? {
        assert log[..|log| - 1][k] == log[k];
      }
    }
  }

  // The systems that are scheduled are exactly those whose last answer wants it.
  ghost predicate SchedulesWanted(s: State, log: seq<SystemAnswer>) {
    forall n :: n in s.registry <==> (LastAnswer(log, n).Some? && Wants(LastAnswer(log, n).value))
  }

  // And each of them runs what that answer asks for.
  ghost predicate RunsWanted(s: State, log: seq<SystemAnswer>) {
    forall n :: n in s.registry ==> LastAnswer(log, n).Some? && RunsResponse(s, n, LastAnswer(log, n).value)
  }

  lemma GoodAreAnswered(names: seq<SystemId>, log: seq<SystemAnswer>, ok: bool, n: SystemId)
    requires AskedUntil(names, log, ok)
    ensures 0 <= Good(log, ok) <= |names|
    ensures n in names[..Good(log, ok)] <==> LastAnswer(log, n).Some?
  {
    AskedInOrder(names, log, ok);
    AnsweredOrNot(log, n);
    var good := Good(log, ok);
    if n in names[..good] {
      var k :| 0 <= k < good && names[..good][k] == n;
      assert names[..|log|][k] == n && log[k].name == n && log[k] in log;
    }
    if LastAnswer(log, n).Some? {
      var k :| 0 <= k < |log| && log[k] == SystemAnswer(n, LastAnswer(log, n).value);
      assert names[..|log|][k] == n;
      assert k < good;
      assert names[..good][k] == n;
    }
  }

  lemma WantedAreScheduled(s: State, names: seq<SystemId>, log: seq<SystemAnswer>, ok: bool,
                           before: map<SystemId, Response>)
    requires AskedUntil(names, log, ok) && Remembers(before, log, s.responses)
    requires 0 <= Good(log, ok) <= |names| && OnlyWanted(s, names[..Good(log, ok)])
    ensures SchedulesWanted(s, log)
  {
    forall n ensures n in s.registry <==> (LastAnswer(log, n).Some? && Wants(LastAnswer(log, n).value)) {
      GoodAreAnswered(names, log, ok, n);
      if LastAnswer(log, n).Some? {
        RemembersLast(before, log, s.responses, n);
      }
    }
  }

  lemma WantedRun(s: State, log: seq<SystemAnswer>, before: map<SystemId, Response>)
    requires Reachable(s) && !s.duplicates && !s.rootCancelled && s.root.RReplying?
    requires Remembers(before, log, s.responses) && SchedulesWanted(s, log)
    ensures RunsWanted(s, log)
  {
    forall n | n in s.registry ensures LastAnswer(log, n).Some? && RunsResponse(s, n, LastAnswer(log, n).value) {
      RemembersLast(before, log, s.responses, n);
      IdleRunsResponse(s, n);
    }
  }

  // The reply after these answers about the systems of the list.
  ghost predicate RepliesTo(s: State, names: seq<SystemId>, log: seq<SystemAnswer>) {
    && s.root.RReplying? && s.root.reply.ResetAllReply?
    && AsksInOrder(names, log)
    && (s.root.reply.ok <==> NoErrors(log))
    && (s.root.reply.ok ==> NamesOf(log) == names)
  }

  ghost predicate AtItsEnd(root: RootPc, names: seq<SystemId>, log: seq<SystemAnswer>) {
    && root.RReplying? && root.reply.ResetAllReply?
    && Ending(names, root.reply.all, root.reply.ok, log)
  }

  lemma EndOfList(s: State, names: seq<SystemId>, log: seq<SystemAnswer>, before: map<SystemId, Response>)
    requires Reachable(s) && AtItsEnd(s.root, names, log) && Remembers(before, log, s.responses)
    ensures RepliesTo(s, names, log) && SchedulesWanted(s, log)
  {
    ReachableResets(s);
    ReachableResponses(s);
    var ok := s.root.reply.ok;
    AskedInOrder(names, log, ok);
    HandledOnlyWanted(s, s.root.reply.all, Good(log, ok));
    WantedAreScheduled(s, names, log, ok, before);
  }

  // The scheduler replies to this, and has done what these answers ask for.
  ghost predicate ComesTo(s: State, names: seq<SystemId>, log: seq<SystemAnswer>) {
    && RepliesTo(s, names, log)
    && SchedulesWanted(s, log)
    && (!s.duplicates && !s.rootCancelled ==> RunsWanted(s, log))
  }

  lemma ListEnds(t: Trace, i: nat, j: nat, names: seq<SystemId>, s: State, log: seq<SystemAnswer>)
    requires IsTrace(t) && i < j && OneRequest(t, i + 1, j)
    requires t.actions[i] == Listed(names) && s == t.states[j] && s.root.RReplying?
    requires log == Answers(t, i + 1, j)
    ensures AtItsEnd(s.root, names, log)
  {
    ListGoesOn(t, i, j, names, log);
  }

  lemma EndComesTo(t: Trace, j: nat, s: State, names: seq<SystemId>, log: seq<SystemAnswer>,
                   before: map<SystemId, Response>)
    requires IsTrace(t) && j < |t.states| && s == t.states[j]
    requires AtItsEnd(s.root, names, log) && Remembers(before, log, s.responses)
    ensures ComesTo(s, names, log)
  {
    TraceIsReachable(t, j);
    EndOfList(s, names, log, before);
    if !s.duplicates && !s.rootCancelled {
      WantedRun(s, log, before);
    }
  }

  /** A reset of all systems, from the list that the other service gave to the reply: the
      systems of the list are asked about in order, up to the first error; the reply is
      an error exactly when there was one; and then exactly those systems are scheduled
      about which the last answer in this request wants it, each running what that
      answer asks for. */
  lemma ResetAllOutcome(t: Trace, i: nat, j: nat, names: seq<SystemId>, s: State, log: seq<SystemAnswer>)
    requires IsTrace(t) && i < j && OneRequest(t, i + 1, j)
    requires t.actions[i] == Listed(names) && s == t.states[j] && s.root.RReplying?
    requires log == Answers(t, i + 1, j)
    ensures ComesTo(s, names, log)
  {
    ListEnds(t, i, j, names, s, log);
    TraceRemembers(t, i + 1, j, log);
    EndComesTo(t, j, s, names, log, t.states[i + 1].responses);
  }

  // ---------------------------------------------------------- a failed listing

  lemma StepAfterFailure(s: State, a: Action, s': State)
    requires StepBy(s, a, s') && s.root == RReplying(ListFailed) && !s'.root.RSelect?
    ensures s'.root == s.root && s'.registry == s.registry
  {
    if RootEnabled(s, a) {
      RootStepIsRoots(s, a, s');
    } else {
      OthersKeepRoot(s, a, s');
      OthersKeepRegistry(s, a, s');
    }
  }

  lemma OthersKeepRegistry(s: State, a: Action, s': State)
    requires StepBy(s, a, s') && !RootEnabled(s, a)
    ensures s'.registry == s.registry
  {
    if SystemEnabled(s, a) && s' == SystemApply(s, a) {
      SystemStepFrame(s, a);
    } else if FeedEnabled(s, a) && s' == FeedApply(s, a) {
      FeedStepFrame(s, a);
    }
  }

  lemma FailureStarts(s: State, s': State)
    requires StepBy(s, ListingFails, s')
    ensures s' == s.(root := RReplying(ListFailed))
  {
  }

  /** If the systems cannot be listed, the reply is an error and no system is stopped
      or reset. */
  lemma {:induction false} FailedListing(t: Trace, i: nat, j: nat)
    requires IsTrace(t) && i < j && OneRequest(t, i + 1, j) && t.actions[i] == ListingFails
    ensures t.states[j].root == RReplying(ListFailed) && t.states[j].registry == t.states[i].registry
  {
    TraceStep(t, j - 1, j);
    if j == i + 1 {
      FailureStarts(t.states[i], t.states[j]);
    } else {
      FailedListing(t, i, j - 1);
      StepAfterFailure(t.states[j - 1], t.actions[j - 1], t.states[j]);
    }
  }
}
