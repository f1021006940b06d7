/** What a reset of one system comes to, for that system and for the others. */
module SchedulerOneReset {
  import opened Decimal
  import opened SchedulingPolicy
  import opened Scheduler
  import opened SchedulerRuns
  import opened SchedulerFrames
  import opened SchedulerInvariants
  import opened SchedulerControl
  import opened SchedulerResets
  import opened SchedulerTraces
  import opened SchedulerRequests

  // The registries differ at most in the one system.
  ghost predicate SameBut(registry: map<SystemId, nat>, registry0: map<SystemId, nat>, name: SystemId) {
    forall m :: m != name ==>
      && (m in registry <==> m in registry0)
      && (m in registry ==> registry[m] == registry0[m])
  }

  // The root loop is about to reset the system to the feeds of the answer, or to stop it.
  ghost predicate Obeys(registry: map<SystemId, nat>, registry0: map<SystemId, nat>, name: SystemId,
                        log: seq<SystemAnswer>, wants: bool)
  {
    && |log| == 1 && log[0].name == name && !log[0].response.Unavailable?
    && (Wants(log[0].response) <==> wants)
    && (wants ==> name in registry)
    && SameBut(registry, registry0, name)
  }

  // The reply, and what has become of the system: an error changes nothing, and otherwise
  // the system is scheduled exactly if the answer wants it.
  ghost predicate Replied(registry: map<SystemId, nat>, registry0: map<SystemId, nat>, name: SystemId,
                          log: seq<SystemAnswer>, ok: bool)
  {
    && |log| == 1 && log[0].name == name
    && (ok <==> !log[0].response.Unavailable?)
    && (!ok ==> registry == registry0)
    && (ok ==> (name in registry <==> Wants(log[0].response)))
    && SameBut(registry, registry0, name)
  }

  // Where the root loop is in a reset of the system after these answers.
  ghost predicate Handles(root: RootPc, registry: map<SystemId, nat>, registry0: map<SystemId, nat>, name: SystemId,
                          log: seq<SystemAnswer>)
  {
    match root
    case RConfig(n, One) => n == name && log == [] && registry == registry0
    case RSendReset(n, _, One) => n == name && Obeys(registry, registry0, name, log, true)
    case RAwaitReset(n, _, One) => n == name && Obeys(registry, registry0, name, log, true)
    case RAwaitDone(n, One) => n == name && Obeys(registry, registry0, name, log, false)
    case RReplying(ResetReply(n, ok)) => n == name && Replied(registry, registry0, name, log, ok)
    case _ => false
  }

  // ------------------------------------------------------------- step by step

  lemma ErrorHandles(s: State, i: nat, registry0: map<SystemId, nat>, name: SystemId)
    requires AnswerEnabled(s, i) && Handles(s.root, s.registry, registry0, name, [])
    ensures var s' := AnswerApply(s, Failed, i);
      Handles(s'.root, s'.registry, registry0, name, [SystemAnswer(name, Unavailable)])
  {
  }

  lemma StoppingHandles(s: State, name: SystemId, log: seq<SystemAnswer>)
    requires name in s.registry ==> s.registry[name] in s.systems
    requires |log| == 1 && log[0].name == name && !log[0].response.Unavailable? && !Wants(log[0].response)
    ensures var s' := Stopping(s, name, One); Handles(s'.root, s'.registry, s.registry, name, log)
  {
    assert Stopping(s, name, One).registry == s.registry;
    assert Stopping(s, name, One).root == if name in s.registry then RAwaitDone(name, One) else RReplying(ResetReply(name, true));
  }

  lemma NothingHandles(s: State, i: nat, registry0: map<SystemId, nat>, name: SystemId, r: Response)
    requires AnswerEnabled(s, i) && Handles(s.root, s.registry, registry0, name, [])
    requires !r.Unavailable? && !Wants(r)
    ensures var s' := AnswerApply(s, Active([]), i);
      Handles(s'.root, s'.registry, registry0, name, [SystemAnswer(name, r)])
  {
    StoppingHandles(s, name, [SystemAnswer(name, r)]);
  }

  lemma SomethingHandles(s: State, feeds: seq<Config>, i: nat, registry0: map<SystemId, nat>, name: SystemId, r: Response)
    requires AnswerEnabled(s, i) && Handles(s.root, s.registry, registry0, name, [])
    requires feeds != [] && !r.Unavailable? && Wants(r)
    ensures var s' := AnswerApply(s, Active(feeds), i);
      Handles(s'.root, s'.registry, registry0, name, [SystemAnswer(name, r)])
  {
  }

  lemma AnswerHandles(s: State, r: Response, i: nat, registry0: map<SystemId, nat>, name: SystemId)
    requires AnswerEnabled(s, i) && Sensible(r) && Handles(s.root, s.registry, registry0, name, [])
    ensures var s' := RootApply(s, Answered(r, i));
      Handles(s'.root, s'.registry, registry0, name, [SystemAnswer(name, r)])
  {
    AskedIfWants(r);
    if r.Unavailable? {
      ErrorHandles(s, i, registry0, name);
    } else if Asked(r) == [] {
      NothingHandles(s, i, registry0, name, r);
    } else {
      SomethingHandles(s, Asked(r), i, registry0, name, r);
    }
  }

  // The steps after the answer.
  lemma OtherHandles(s: State, a: Action, registry0: map<SystemId, nat>, name: SystemId, log: seq<SystemAnswer>)
    requires RootEnabled(s, a) && Handles(s.root, s.registry, registry0, name, log)
    requires a.SendReset? || a.ResetDone? || a.StopDone?
    ensures var s' := RootApply(s, a); Handles(s'.root, s'.registry, registry0, name, log)
  {
  }

  lemma RootHandles(s: State, a: Action, registry0: map<SystemId, nat>, name: SystemId, log: seq<SystemAnswer>)
    requires RootEnabled(s, a) && Handles(s.root, s.registry, registry0, name, log) && !a.RootReply?
    ensures var s' := RootApply(s, a); Handles(s'.root, s'.registry, registry0, name, log + AnswerIn(s, a))
  {
    if a.Answered? {
      assert log + AnswerIn(s, a) == [SystemAnswer(name, a.response)];
      AnswerHandles(s, a.response, a.i, registry0, name);
    } else {
      assert log + AnswerIn(s, a) == log;
      OtherHandles(s, a, registry0, name, log);
    }
  }

  lemma StepHandles(s: State, a: Action, s': State, registry0: map<SystemId, nat>, name: SystemId, log: seq<SystemAnswer>)
    requires StepBy(s, a, s') && Handles(s.root, s.registry, registry0, name, log) && !s'.root.RSelect?
    ensures Handles(s'.root, s'.registry, registry0, name, log + AnswerIn(s, a))
  {
    if RootEnabled(s, a) {
      RootStepIsRoots(s, a, s');
      RootHandles(s, a, registry0, name, log);
    } else {
      OthersKeepRoot(s, a, s');
      OthersKeepRegistry(s, a, s');
      assert log + AnswerIn(s, a) == log;
    }
  }

  lemma ResetStarts(s: State, s': State, name: SystemId)
    requires StepBy(s, RequestReset(name), s')
    ensures Handles(s'.root, s'.registry, s.registry, name, [])
    ensures s.root.RSelect? && s' == s.(root := s'.root, clientWaits := true)
  {
  }

  lemma {:induction false} ResetGoesOn(t: Trace, i: nat, j: nat, name: SystemId, log: seq<SystemAnswer>)
    requires IsTrace(t) && i < j && OneRequest(t, i + 1, j) && t.actions[i] == RequestReset(name)
    requires log == Answers(t, i + 1, j)
    ensures Handles(t.states[j].root, t.states[j].registry, t.states[i].registry, name, log)
  {
    if j == i + 1 {
      TraceStep(t, i, j);
      ResetStarts(t.states[i], t.states[j], name);
    } else {
      var front := Answers(t, i + 1, j - 1);
      ResetGoesOn(t, i, j - 1, name, front);
      AnswersNext(t, i + 1, j);
      TraceStep(t, j - 1, j);
      StepHandles(t.states[j - 1], t.actions[j - 1], t.states[j], t.states[i].registry, name, front);
    }
  }

  // --------------------------------------------------------- the other systems

  // The other systems' loops wait for requests as they did.
  ghost predicate Untouched(s: State, s0: State, name: SystemId) {
    forall m :: m in s0.registry && m != name ==>
      && s0.registry[m] in s0.systems && s0.registry[m] in s.systems
      && s.systems[s0.registry[m]] == s0.systems[s0.registry[m]]
  }

  // The other systems are idle, each under its name.
  ghost predicate OthersIdle(s0: State, name: SystemId) {
    forall m :: m in s0.registry && m != name ==>
      && s0.registry[m] in s0.systems
      && var y := s0.systems[s0.registry[m]];
         y.name == m && y.pc.SSelect? && !y.cancelled
  }

  lemma IdleOthers(s: State, name: SystemId)
    requires Inv(s) && !s.rootCancelled && s.root.RSelect?
    ensures OthersIdle(s, name)
  {
    forall m | m in s.registry && m != name
      ensures s.registry[m] in s.systems
      ensures s.systems[s.registry[m]].name == m && s.systems[s.registry[m]].pc.SSelect?
      ensures !s.systems[s.registry[m]].cancelled
    {
      IdleSystem(s, m);
      assert SystemCtl(s.systems[s.registry[m]], s.root, s.rootCancelled, s.feeds);
    }
  }

  // Only the loops of one system change.
  ghost predicate ChangesOnly(s: State, s': State, name: SystemId) {
    && s.systems.Keys <= s'.systems.Keys
    && forall i :: i in s.systems && s.systems[i].name != name ==> s'.systems[i] == s.systems[i]
  }

  lemma StoppingChangesOnly(s: State, name: SystemId, c: Caller)
    requires name in s.registry ==> s.registry[name] in s.systems && s.systems[s.registry[name]].name == name
    ensures ChangesOnly(s, Stopping(s, name, c), name)
  {
  }

  lemma AnswerChangesOnly(s: State, answer: Answer, i: nat)
    requires RegistryInv(s.registry, s.systems) && AnswerEnabled(s, i)
    ensures ChangesOnly(s, AnswerApply(s, answer, i), s.root.name)
  {
    if answer == Active([]) {
      StoppingChangesOnly(s, s.root.name, s.root.caller);
    }
  }

  lemma RootChangesOnly(s: State, a: Action, registry0: map<SystemId, nat>, name: SystemId, log: seq<SystemAnswer>)
    requires RegistryInv(s.registry, s.systems) && RootEnabled(s, a) && !a.RootReply?
    requires Handles(s.root, s.registry, registry0, name, log)
    ensures ChangesOnly(s, RootApply(s, a), name)
  {
    if a.Answered? {
      AnswerChangesOnly(s, AnswerOf(a.response), a.i);
    }
  }

  lemma KeepsUntouched(s: State, s': State, s0: State, name: SystemId)
    requires OthersIdle(s0, name) && Untouched(s, s0, name) && ChangesOnly(s, s', name)
    ensures Untouched(s', s0, name)
  {
  }

  // A system loop that waits for requests moves on its own only if its context is done.
  lemma SystemKeepsUntouched(s: State, a: Action, s0: State, name: SystemId)
    requires SystemEnabled(s, a) && !s.rootCancelled && OthersIdle(s0, name) && Untouched(s, s0, name)
    ensures Untouched(SystemApply(s, a), s0, name)
  {
    SystemStepFrame(s, a);
    SystemMovesOn(s, a);
  }

  lemma SystemMovesOn(s: State, a: Action)
    requires SystemEnabled(s, a) && !s.rootCancelled
    ensures a.i in s.systems && (s.systems[a.i].pc.SSelect? ==> s.systems[a.i].cancelled)
  {
  }

  lemma OthersKeepSystems(s: State, a: Action, s': State)
    requires StepBy(s, a, s') && !RootEnabled(s, a) && !SystemEnabled(s, a)
    ensures s'.systems == s.systems
  {
    if FeedEnabled(s, a) && s' == FeedApply(s, a) {
      FeedStepFrame(s, a);
    }
  }

  lemma SystemActsAlone(s: State, a: Action, s': State)
    requires StepBy(s, a, s') && SystemEnabled(s, a) && !RootEnabled(s, a)
    ensures s' == SystemApply(s, a)
  {
  }

  lemma StepKeepsUntouched(s: State, a: Action, s': State, s0: State, name: SystemId, log: seq<SystemAnswer>)
    requires StepBy(s, a, s') && RegistryInv(s.registry, s.systems) && !s.rootCancelled && !s'.root.RSelect?
    requires Handles(s.root, s.registry, s0.registry, name, log)
    requires OthersIdle(s0, name) && Untouched(s, s0, name)
    ensures Untouched(s', s0, name)
  {
    if RootEnabled(s, a) {
      RootStepIsRoots(s, a, s');
      RootChangesOnly(s, a, s0.registry, name, log);
      KeepsUntouched(s, s', s0, name);
    } else if SystemEnabled(s, a) {
      SystemActsAlone(s, a, s');
      SystemKeepsUntouched(s, a, s0, name);
    } else {
      OthersKeepSystems(s, a, s');
    }
  }

  lemma TraceRegistry(t: Trace, k: nat)
    requires IsTrace(t) && k < |t.states|
    ensures RegistryInv(t.states[k].registry, t.states[k].systems)
  {
    TraceIsReachable(t, k);
    ReachableInv(t.states[k]);
  }

  lemma StaysCancelled(s: State, a: Action, s': State)
    requires StepBy(s, a, s') && s.rootCancelled
    ensures s'.rootCancelled
  {
    if RootEnabled(s, a) {
      RootStepIsRoots(s, a, s');
      RootStepFrame(s, a);
    } else if SystemEnabled(s, a) && s' == SystemApply(s, a) {
      SystemStepFrame(s, a);
    } else if FeedEnabled(s, a) && s' == FeedApply(s, a) {
      FeedStepFrame(s, a);
    }
  }

  lemma UntouchedAtFirst(s: State, s': State, name: SystemId)
    requires OthersIdle(s, name) && s'.systems == s.systems
    ensures Untouched(s', s, name)
  {
  }

  lemma {:induction false} OthersStayUntouched(t: Trace, i: nat, j: nat, name: SystemId)
    requires IsTrace(t) && i < j && OneRequest(t, i + 1, j) && t.actions[i] == RequestReset(name)
    requires OthersIdle(t.states[i], name) && !t.states[j].rootCancelled
    ensures Untouched(t.states[j], t.states[i], name)
  {
    if j == i + 1 {
      TraceStep(t, i, j);
      ResetStarts(t.states[i], t.states[j], name);
      UntouchedAtFirst(t.states[i], t.states[j], name);
    } else {
      TraceStep(t, j - 1, j);
      if t.states[j - 1].rootCancelled {
        StaysCancelled(t.states[j - 1], t.actions[j - 1], t.states[j]);
      }
      OthersStayUntouched(t, i, j - 1, name);
      var log := Answers(t, i + 1, j - 1);
      ResetGoesOn(t, i, j - 1, name, log);
      TraceRegistry(t, j - 1);
      StepKeepsUntouched(t.states[j - 1], t.actions[j - 1], t.states[j], t.states[i], name, log);
    }
  }

  // ------------------------------------------------------------ what it comes to

  // The system runs what the answer asks for.
  lemma ResetRuns(t: Trace, j: nat, s: State, name: SystemId, log: seq<SystemAnswer>, before: map<SystemId, Response>)
    requires IsTrace(t) && j < |t.states| && s == t.states[j] && s.root.RReplying?
    requires !s.duplicates && !s.rootCancelled && name in s.registry
    requires |log| == 1 && log[0].name == name && Wants(log[0].response) && Remembers(before, log, s.responses)
    ensures RunsResponse(s, name, log[0].response)
  {
    TraceIsReachable(t, j);
    assert LastAnswer(log, name) == Some(log[0].response);
    RemembersLast(before, log, s.responses, name);
    IdleRunsResponse(s, name);
  }

  /** A reset of one system, from the request to the reply: the system is asked about once;
      the reply is an error exactly when the answer was one, and then nothing has changed;
      otherwise the system is scheduled exactly if the answer wants it. The registry is
      the same but for this system. */
  lemma ResetOutcome(t: Trace, i: nat, j: nat, name: SystemId, s: State, log: seq<SystemAnswer>)
    requires IsTrace(t) && i < j && OneRequest(t, i + 1, j) && t.actions[i] == RequestReset(name)
    requires s == t.states[j] && s.root.RReplying? && log == Answers(t, i + 1, j)
    ensures s.root.reply.ResetReply? && s.root.reply.name == name
    ensures Replied(s.registry, t.states[i].registry, name, log, s.root.reply.ok)
  {
    ResetGoesOn(t, i, j, name, log);
  }

  /** And if it is scheduled, it runs what the answer asks for. */
  lemma ResetRunsAnswer(t: Trace, i: nat, j: nat, name: SystemId, s: State, log: seq<SystemAnswer>)
    requires IsTrace(t) && i < j && OneRequest(t, i + 1, j) && t.actions[i] == RequestReset(name)
    requires s == t.states[j] && s.root.RReplying? && log == Answers(t, i + 1, j)
    requires !s.duplicates && !s.rootCancelled && s.root.reply == ResetReply(name, true) && name in s.registry
    ensures |log| == 1 && RunsResponse(s, name, log[0].response)
  {
    ResetOutcome(t, i, j, name, s, log);
    TraceRemembers(t, i + 1, j, log);
    ResetRuns(t, j, s, name, log, t.states[i + 1].responses);
  }

  /** Unless the root context is cancelled, a reset of one system leaves the loops of the
      others alone: they keep their feeds and feed loops, and wait for requests throughout. */
  lemma OthersGoOn(t: Trace, i: nat, j: nat, name: SystemId)
    requires IsTrace(t) && i < j && OneRequest(t, i + 1, j) && t.actions[i] == RequestReset(name)
    requires !t.states[i].rootCancelled && !t.states[j].rootCancelled
    ensures Untouched(t.states[j], t.states[i], name) && OthersIdle(t.states[i], name)
  {
    TraceStep(t, i, i + 1);
    ResetStarts(t.states[i], t.states[i + 1], name);
    TraceIdle(t, i, name);
    OthersStayUntouched(t, i, j, name);
  }

  lemma TraceIdle(t: Trace, i: nat, name: SystemId)
    requires IsTrace(t) && i < |t.states| && t.states[i].root.RSelect? && !t.states[i].rootCancelled
    ensures OthersIdle(t.states[i], name)
  {
    TraceIsReachable(t, i);
    ReachableInv(t.states[i]);
    IdleOthers(t.states[i], name);
  }
}
