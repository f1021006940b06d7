/** Every system runs what the last response about it asked for. */
module SchedulerResponses {
  import opened SchedulingPolicy
  import opened Scheduler
  import opened SchedulerFrames
  import opened SchedulerInvariants
  import opened SchedulerControl

  // What the last response about each system asks for.
  function AskedBy(responses: map<SystemId, Response>): map<SystemId, seq<Config>> {
    map n | n in responses && Sensible(responses[n]) :: Asked(responses[n])
  }

  ghost predicate Told(asked: map<SystemId, seq<Config>>, name: SystemId, feeds: seq<Config>) {
    name in asked && asked[name] == feeds
  }

  // The systems were handled as asked, but for one that is asked for again.
  ghost predicate AllTold(asked: map<SystemId, seq<Config>>, all: ResetAll, but: set<SystemId>) {
    forall n :: n in all.handled && n !in but ==> Told(asked, n, all.handled[n])
  }

  ghost predicate CallerTold(asked: map<SystemId, seq<Config>>, c: Caller, but: set<SystemId>) {
    match c
    case All(_, all) => AllTold(asked, all, but)
    case Sweep(_, all, _) => AllTold(asked, all, {})
    case _ => true
  }

  ghost predicate RootTold(asked: map<SystemId, seq<Config>>, root: RootPc) {
    match root
    case RNext(_, all) => AllTold(asked, all, {})
    case RConfig(_, c) => CallerTold(asked, c, {})
    case RSendReset(n, feeds, c) => Told(asked, n, feeds) && CallerTold(asked, c, {n})
    case RAwaitReset(n, feeds, c) => Told(asked, n, feeds) && CallerTold(asked, c, {n})
    case RAwaitDone(n, c) => (ResetCaller(c) ==> Told(asked, n, [])) && CallerTold(asked, c, {n})
    case RSweep(_, all, _) => AllTold(asked, all, {})
    case RReplying(ResetAllReply(all, _)) => AllTold(asked, all, {})
    case _ => true
  }

  // The system whose response the root loop has not passed on yet.
  function InHand(root: RootPc): set<SystemId> {
    match root
    case RSendReset(n, _, _) => {n}
    case RAwaitDone(n, c) => if ResetCaller(c) then {n} else {}
    case _ => {}
  }

  ghost predicate RegistryTold(asked: map<SystemId, seq<Config>>, registry: map<SystemId, nat>,
                               systems: map<nat, System>, but: set<SystemId>) {
    forall n :: n in registry && n !in but ==> registry[n] in systems && Told(asked, n, systems[registry[n]].target)
  }

  ghost predicate ToldInv(root: RootPc, registry: map<SystemId, nat>, systems: map<nat, System>,
                          asked: map<SystemId, seq<Config>>) {
    RootTold(asked, root) && RegistryTold(asked, registry, systems, InHand(root))
  }

  ghost predicate ResponsesInv(s: State) {
    && (forall n :: n in s.responses ==> Sensible(s.responses[n]))
    && ToldInv(s.root, s.registry, s.systems, AskedBy(s.responses))
  }

  // ------------------------------------------------------------- preservation

  // No system loop loses its target.
  ghost predicate SameTargets(systems: map<nat, System>, systems': map<nat, System>) {
    forall i :: i in systems ==> i in systems' && systems'[i].target == systems[i].target
  }

  lemma SameTargetsTold(asked: map<SystemId, seq<Config>>, registry: map<SystemId, nat>,
                        systems: map<nat, System>, systems': map<nat, System>, but: set<SystemId>)
    requires RegistryTold(asked, registry, systems, but) && SameTargets(systems, systems')
    ensures RegistryTold(asked, registry, systems', but)
  {
  }

  lemma HandledTold(asked: map<SystemId, seq<Config>>, name: SystemId, feeds: seq<Config>, c: Caller)
    requires CallerTold(asked, c, {name}) && (ResetCaller(c) ==> Told(asked, name, feeds))
    ensures RootTold(asked, Handled(name, feeds, c)) && InHand(Handled(name, feeds, c)) == {}
  {
  }

  lemma StoppingTold(s: State, name: SystemId, c: Caller, asked: map<SystemId, seq<Config>>)
    requires name in s.registry ==> s.registry[name] in s.systems
    requires RegistryTold(asked, s.registry, s.systems, if ResetCaller(c) then {name} else {})
    requires CallerTold(asked, c, {name}) && (ResetCaller(c) ==> Told(asked, name, []))
    ensures var s' := Stopping(s, name, c); ToldInv(s'.root, s'.registry, s'.systems, asked)
  {
    StoppingFrame(s, name, c);
    var s' := Stopping(s, name, c);
    assert SameTargets(s.systems, s'.systems);
    SameTargetsTold(asked, s.registry, s.systems, s'.systems, if ResetCaller(c) then {name} else {});
    if name !in s.registry {
      HandledTold(asked, name, [], c);
    }
  }

  lemma FailedTold(s: State, i: nat, asked: map<SystemId, seq<Config>>)
    requires AnswerEnabled(s, i) && ToldInv(s.root, s.registry, s.systems, asked)
    ensures var s' := AnswerApply(s, Failed, i); ToldInv(s'.root, s'.registry, s'.systems, asked)
  {
  }

  // A system with feeds, scheduled already or not, is in hand.
  lemma InHandTold(asked: map<SystemId, seq<Config>>, name: SystemId, feeds: seq<Config>, c: Caller,
                   registry: map<SystemId, nat>, systems: map<nat, System>, i: nat, y: System)
    requires Told(asked, name, feeds) && CallerTold(asked, c, {name})
    requires RegistryTold(asked, registry, systems, {name}) && i !in systems
    ensures ToldInv(RSendReset(name, feeds, c), registry, systems, asked)
    ensures ToldInv(RSendReset(name, feeds, c), registry[name := i], systems[i := y], asked)
  {
    assert RegistryTold(asked, registry[name := i], systems[i := y], {name});
  }

  lemma ActiveTold(s: State, feeds: seq<Config>, i: nat, asked: map<SystemId, seq<Config>>)
    requires AnswerEnabled(s, i) && ResetCaller(s.root.caller)
    requires CallerTold(asked, s.root.caller, {s.root.name}) && Told(asked, s.root.name, feeds)
    requires RegistryTold(asked, s.registry, s.systems, {s.root.name})
    ensures var s' := AnswerApply(s, Active(feeds), i); ToldInv(s'.root, s'.registry, s'.systems, asked)
  {
    if feeds == [] {
      StoppingTold(s, s.root.name, s.root.caller, asked);
    } else {
      InHandTold(asked, s.root.name, feeds, s.root.caller, s.registry, s.systems, i,
                 System(s.root.name, false, SSelect, map[], []));
    }
  }

  // A new response concerns its own system only.
  lemma OthersTold(asked: map<SystemId, seq<Config>>, name: SystemId, feeds: seq<Config>, c: Caller,
                   registry: map<SystemId, nat>, systems: map<nat, System>)
    requires CallerTold(asked, c, {}) && RegistryTold(asked, registry, systems, {})
    ensures CallerTold(asked[name := feeds], c, {name}) || c.Sweep?
    ensures RegistryTold(asked[name := feeds], registry, systems, {name})
  {
  }

  lemma SendTold(s: State, asked: map<SystemId, seq<Config>>)
    requires HoldingInv(s) && RootEnabled(s, SendReset) && ToldInv(s.root, s.registry, s.systems, asked)
    ensures var s' := RootApply(s, SendReset); ToldInv(s'.root, s'.registry, s'.systems, asked)
  {
    var s' := RootApply(s, SendReset);
    forall n | n in s.registry ensures s'.registry[n] in s'.systems && Told(asked, n, s'.systems[s.registry[n]].target) {
      assert s.systems[s.registry[n]].name == n;
    }
  }

  lemma ResetDoneTold(s: State, asked: map<SystemId, seq<Config>>)
    requires RootEnabled(s, ResetDone) && ToldInv(s.root, s.registry, s.systems, asked)
    ensures var s' := RootApply(s, ResetDone); ToldInv(s'.root, s'.registry, s'.systems, asked)
  {
    var s' := RootApply(s, ResetDone);
    HandledTold(asked, s.root.name, s.root.feeds, s.root.caller);
    assert SameTargets(s.systems, s'.systems);
    SameTargetsTold(asked, s.registry, s.systems, s'.systems, {});
  }

  lemma StopDoneTold(s: State, asked: map<SystemId, seq<Config>>)
    requires RootEnabled(s, StopDone) && ToldInv(s.root, s.registry, s.systems, asked)
    ensures var s' := RootApply(s, StopDone); ToldInv(s'.root, s'.registry, s'.systems, asked)
  {
    HandledTold(asked, s.root.name, [], s.root.caller);
  }

  lemma SweepTold(s: State, name: SystemId, asked: map<SystemId, seq<Config>>)
    requires RootEnabled(s, SweepNext(name)) && ToldInv(s.root, s.registry, s.systems, asked)
    ensures var s' := RootApply(s, SweepNext(name)); ToldInv(s'.root, s'.registry, s'.systems, asked)
  {
    if name !in s.root.all.handled {
      StoppingTold(s, name, Sweep(s.root.left - {name}, s.root.all, s.root.ok), asked);
    }
  }

  lemma ShutdownTold(s: State, name: SystemId, asked: map<SystemId, seq<Config>>)
    requires RootEnabled(s, ShutdownNext(name)) && ToldInv(s.root, s.registry, s.systems, asked)
    ensures var s' := RootApply(s, ShutdownNext(name)); ToldInv(s'.root, s'.registry, s'.systems, asked)
  {
    StoppingTold(s, name, Shutdown(s.root.left - {name}), asked);
  }

  lemma StatusTold(s: State, a: Action, asked: map<SystemId, seq<Config>>)
    requires RootEnabled(s, a) && (a.SendStatus? || a.StatusDone?)
    requires ToldInv(s.root, s.registry, s.systems, asked)
    ensures var s' := RootApply(s, a); ToldInv(s'.root, s'.registry, s'.systems, asked)
  {
    var s' := RootApply(s, a);
    assert SameTargets(s.systems, s'.systems);
    SameTargetsTold(asked, s.registry, s.systems, s'.systems, {});
  }

  // The steps that change nothing but the root loop's program counter.
  lemma RootAloneTold(s: State, a: Action, asked: map<SystemId, seq<Config>>)
    requires RootEnabled(s, a) && !a.Answered? && !a.SendReset? && !a.ResetDone? && !a.StopDone?
    requires !a.SweepNext? && !a.ShutdownNext? && !a.SendStatus? && !a.StatusDone?
    requires ToldInv(s.root, s.registry, s.systems, asked)
    ensures var s' := RootApply(s, a); ToldInv(s'.root, s'.registry, s'.systems, asked)
  {
    var s' := RootApply(s, a);
    assert s'.registry == s.registry && s'.systems == s.systems && InHand(s.root) == InHand(s'.root) == {};
    assert RootTold(asked, s'.root);
  }

  lemma RootKeepsTold(s: State, a: Action, asked: map<SystemId, seq<Config>>)
    requires HoldingInv(s) && RootEnabled(s, a) && !a.Answered?
    requires ToldInv(s.root, s.registry, s.systems, asked)
    ensures var s' := RootApply(s, a); ToldInv(s'.root, s'.registry, s'.systems, asked)
  {
    if a.SendReset? {
      SendTold(s, asked);
    } else if a.ResetDone? {
      ResetDoneTold(s, asked);
    } else if a.StopDone? {
      StopDoneTold(s, asked);
    } else if a.SweepNext? {
      SweepTold(s, a.name, asked);
    } else if a.ShutdownNext? {
      ShutdownTold(s, a.name, asked);
    } else if a.SendStatus? || a.StatusDone? {
      StatusTold(s, a, asked);
    } else {
      RootAloneTold(s, a, asked);
    }
  }

  lemma AnsweredTold(s: State, response: Response, i: nat)
    requires HoldingInv(s) && ResponsesInv(s) && AnswerEnabled(s, i) && ResetCaller(s.root.caller) && Sensible(response)
    ensures ResponsesInv(RootApply(s, Answered(response, i)))
  {
    var asked := AskedBy(s.responses);
    if response.Unavailable? {
      FailedTold(s, i, asked);
    } else {
      var feeds := Asked(response);
      assert AskedBy(s.responses[s.root.name := response]) == asked[s.root.name := feeds];
      OthersTold(asked, s.root.name, feeds, s.root.caller, s.registry, s.systems);
      ActiveTold(s, feeds, i, asked[s.root.name := feeds]);
    }
  }

  lemma RootKeepsResponses(s: State, a: Action)
    requires Inv(s) && ResponsesInv(s) && RootEnabled(s, a)
    ensures ResponsesInv(RootApply(s, a))
  {
    if a.Answered? {
      AnsweredTold(s, a.response, a.i);
    } else {
      RootKeepsTold(s, a, AskedBy(s.responses));
      OnlyAnswersRespond(s, a);
    }
  }

  lemma OnlyAnswersRespond(s: State, a: Action)
    requires RootEnabled(s, a) && !a.Answered?
    ensures RootApply(s, a).responses == s.responses
  {
    if a.SweepNext? {
      StoppingFrame(s, a.name, Sweep(s.root.left - {a.name}, s.root.all, s.root.ok));
    } else if a.ShutdownNext? {
      StoppingFrame(s, a.name, Shutdown(s.root.left - {a.name}));
    }
  }

  lemma SystemKeepsResponses(s: State, a: Action)
    requires ResponsesInv(s) && SystemEnabled(s, a)
    ensures ResponsesInv(SystemApply(s, a))
  {
    SystemStepFrame(s, a);
    assert SameTargets(s.systems, SystemApply(s, a).systems);
    SameTargetsTold(AskedBy(s.responses), s.registry, s.systems, SystemApply(s, a).systems, InHand(s.root));
  }

  lemma EnvKeepsResponses(s: State, a: Action)
    requires ResponsesInv(s) && EnvEnabled(s, a)
    ensures ResponsesInv(EnvApply(s, a))
  {
    var s' := EnvApply(s, a);
    assert s'.registry == s.registry && s'.systems == s.systems && s'.responses == s.responses;
    assert s'.root == s.root || (InHand(s.root) == InHand(s'.root) == {} && RootTold(AskedBy(s.responses), s'.root));
  }

  /** Every system that is scheduled was last reset to the feeds that the last
      response about it asks for, until the root loop has a new one in hand. */
  lemma NextKeepsResponses(s: State, s': State)
    requires Inv(s) && ResponsesInv(s) && Next(s, s')
    ensures ResponsesInv(s')
  {
    if EnvStep(s, s') {
      var a :| EnvEnabled(s, a) && s' == EnvApply(s, a);
      EnvKeepsResponses(s, a);
    } else if RootStep(s, s') {
      var a :| RootEnabled(s, a) && s' == RootApply(s, a);
      RootKeepsResponses(s, a);
    } else if SystemStep(s, s') {
      var a :| SystemEnabled(s, a) && s' == SystemApply(s, a);
      SystemKeepsResponses(s, a);
    } else {
      var a :| FeedEnabled(s, a) && s' == FeedApply(s, a);
      FeedStepFrame(s, a);
    }
  }

  lemma {:induction false} RunResponses(run: seq<State>, k: nat)
    requires IsRun(run) && k < |run|
    ensures ResponsesInv(run[k])
  {
    if k > 0 {
      RunResponses(run, k - 1);
      RunInv(run, k - 1);
      assert Next(run[k - 1], run[k - 1 + 1]);
      NextKeepsResponses(run[k - 1], run[k]);
    }
  }

  lemma ReachableResponses(s: State)
    requires Reachable(s)
    ensures ResponsesInv(s)
  {
    var run :| IsRun(run) && run[|run| - 1] == s;
    RunResponses(run, |run| - 1);
  }
}
