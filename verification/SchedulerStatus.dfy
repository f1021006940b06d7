/** What a status request collects. */
module SchedulerStatus {
  import opened Edges
  import opened SchedulingPolicy
  import opened Scheduler
  import opened SchedulerRuns
  import opened SchedulerFrames
  import opened SchedulerInvariants
  import opened SchedulerControl
  import opened SchedulerSafety
  import opened SchedulerResponses
  import opened SchedulerResets
  import opened SchedulerTraces
  import opened SchedulerRequests

  // What a feed loop replies about its feed.
  datatype FeedStatus = FeedStatus(systemID: SystemId, feedConfig: Config, currentlyRunning: bool)

  function ReportIn(s: State, a: Action): seq<FeedStatus> {
    if a.FeedStatusDone? && SystemEnabled(s, a) then
      var y := s.systems[a.i];
      var x := s.feeds[y.feeds[y.pc.id]];
      [FeedStatus(y.name, x.config, x.updateRunning)]
    else []
  }

  // The replies between states i and j, in order.
  function Reports(t: Trace, i: nat, j: nat): seq<FeedStatus>
    requires i <= j < |t.states| && |t.states| == |t.actions| + 1
  {
    if i == j then [] else Reports(t, i, j - 1) + ReportIn(t.states[j - 1], t.actions[j - 1])
  }

  lemma ReportsNext(t: Trace, i: nat, j: nat)
    requires i < j < |t.states| && |t.states| == |t.actions| + 1
    ensures Reports(t, i, j) == Reports(t, i, j - 1) + ReportIn(t.states[j - 1], t.actions[j - 1])
  {
  }

  type Key = (SystemId, FeedId)

  // Which feed of which system each reply is about.
  function KeysOf(log: seq<FeedStatus>): (r: seq<Key>)
    ensures |r| == |log|
    ensures forall k :: 0 <= k < |log| ==> r[k] == (log[k].systemID, log[k].feedConfig.id)
  {
    seq(|log|, k requires 0 <= k < |log| => (log[k].systemID, log[k].feedConfig.id))
  }

  // ---------------------------------------------------------- what is still open

  // The feeds a system loop has yet to ask.
  function OpenIds(pc: SystemPc): set<FeedId> {
    match pc
    case SStatus(todo) => todo
    case SStatusSend(id, todo) => todo + {id}
    case SStatusAwait(id, todo) => todo + {id}
    case _ => {}
  }

  // The feed has yet to be asked.
  predicate Open(root: RootPc, registry: map<SystemId, nat>, systems: map<nat, System>, n: SystemId, id: FeedId) {
    match root
    case RStatus(left) => n in left
    case RStatusSend(m, left) => n == m || n in left
    case RStatusAwait(m, left) =>
      n in left || (n == m && m in registry && registry[m] in systems && id in OpenIds(systems[registry[m]].pc))
    case _ => false
  }

  // A feed that was running under the system when the request came.
  predicate Had(s0: State, n: SystemId, id: FeedId) {
    n in s0.registry && s0.registry[n] in s0.systems && id in s0.systems[s0.registry[n]].feeds
  }

  // Every feed is either open or has replied, once.
  ghost predicate Collected(root: RootPc, registry: map<SystemId, nat>, systems: map<nat, System>, s0: State,
                            keys: seq<Key>)
  {
    && Distinct(keys)
    && (forall n, id :: (n, id) in keys ==> Had(s0, n, id))
    && (forall n, id :: Had(s0, n, id) ==> ((n, id) in keys <==> !Open(root, registry, systems, n, id)))
  }

  // The systems that have yet to be asked.
  function Unasked(root: RootPc): set<SystemId> {
    match root
    case RStatus(left) => left
    case RStatusSend(m, left) => left + {m}
    case RStatusAwait(_, left) => left
    case _ => {}
  }

  // A system loop that has yet to be asked still holds its feeds, or will never be asked.
  ghost predicate Waits(y: System, y0: System) {
    y.feeds == y0.feeds || Exiting(y)
  }

  // The system loop that is being asked holds its feeds, and asks none of them twice.
  ghost predicate Asks(y: System, y0: System) {
    && Reporting(y) && y.feeds == y0.feeds
    && (y.pc.SStatusSend? || y.pc.SStatusAwait? ==> y.pc.id !in y.pc.todo)
  }

  ghost predicate Asking(root: RootPc, systems: map<nat, System>, s0: State) {
    && (forall n :: n in Unasked(root) && n in s0.registry ==>
          && s0.registry[n] in s0.systems && s0.registry[n] in systems
          && Waits(systems[s0.registry[n]], s0.systems[s0.registry[n]]))
    && (root.RStatusAwait? ==>
          && root.name in s0.registry && root.name !in root.left
          && s0.registry[root.name] in s0.systems && s0.registry[root.name] in systems
          && Asks(systems[s0.registry[root.name]], s0.systems[s0.registry[root.name]]))
  }

  ghost predicate InStatus(root: RootPc) {
    root.RStatus? || root.RStatusSend? || root.RStatusAwait? || (root.RReplying? && root.reply.StatusReply?)
  }

  ghost predicate StatusInv(root: RootPc, registry: map<SystemId, nat>, systems: map<nat, System>, s0: State,
                            keys: seq<Key>)
  {
    && InStatus(root) && registry == s0.registry
    && (root.RStatusSend? ==> root.name !in root.left)
    && Asking(root, systems, s0)
    && Collected(root, registry, systems, s0, keys)
  }

  // ------------------------------------------------------------ the root loop

  lemma StatusNextKeeps(s: State, name: SystemId, s0: State, keys: seq<Key>)
    requires RootEnabled(s, StatusNext(name))
    requires StatusInv(s.root, s.registry, s.systems, s0, keys)
    ensures var s' := RootApply(s, StatusNext(name)); StatusInv(s'.root, s'.registry, s'.systems, s0, keys)
  {
    var s' := RootApply(s, StatusNext(name));
    forall n, id ensures Open(s'.root, s'.registry, s'.systems, n, id) <==> Open(s.root, s.registry, s.systems, n, id) {
    }
  }

  lemma SendStatusKeeps(s: State, s0: State, keys: seq<Key>)
    requires RegistryInv(s.registry, s.systems) && RootEnabled(s, SendStatus)
    requires StatusInv(s.root, s.registry, s.systems, s0, keys)
    ensures var s' := RootApply(s, SendStatus); StatusInv(s'.root, s'.registry, s'.systems, s0, keys)
  {
    var s' := RootApply(s, SendStatus);
    var i := s.registry[s.root.name];
    assert s.systems[i].feeds == s0.systems[i].feeds;
    OthersHaveOther(s, i, s0);
    forall n, id | Had(s0, n, id)
      ensures Open(s'.root, s'.registry, s'.systems, n, id) <==> Open(s.root, s.registry, s.systems, n, id)
    {
    }
  }

  lemma StatusDoneKeeps(s: State, s0: State, keys: seq<Key>)
    requires RegistryInv(s.registry, s.systems) && RootEnabled(s, StatusDone)
    requires StatusInv(s.root, s.registry, s.systems, s0, keys)
    ensures var s' := RootApply(s, StatusDone); StatusInv(s'.root, s'.registry, s'.systems, s0, keys)
  {
    var s' := RootApply(s, StatusDone);
    OthersHaveOther(s, s.registry[s.root.name], s0);
    forall n, id | Had(s0, n, id)
      ensures Open(s'.root, s'.registry, s'.systems, n, id) <==> Open(s.root, s.registry, s.systems, n, id)
    {
    }
  }

  lemma StatusOverKeeps(s: State, s0: State, keys: seq<Key>)
    requires RootEnabled(s, StatusOver)
    requires StatusInv(s.root, s.registry, s.systems, s0, keys)
    ensures var s' := RootApply(s, StatusOver); StatusInv(s'.root, s'.registry, s'.systems, s0, keys)
  {
    var s' := RootApply(s, StatusOver);
    forall n, id ensures Open(s'.root, s'.registry, s'.systems, n, id) <==> Open(s.root, s.registry, s.systems, n, id) {
    }
  }

  lemma RootKeepsStatus(s: State, a: Action, s0: State, keys: seq<Key>)
    requires RegistryInv(s.registry, s.systems) && RootEnabled(s, a) && !a.RootReply?
    requires StatusInv(s.root, s.registry, s.systems, s0, keys)
    ensures ReportIn(s, a) == []
    ensures var s' := RootApply(s, a); StatusInv(s'.root, s'.registry, s'.systems, s0, keys)
  {
    RootActsAlone(s, a);
    if a.StatusNext? {
      StatusNextKeeps(s, a.name, s0, keys);
    } else if a.SendStatus? {
      SendStatusKeeps(s, s0, keys);
    } else if a.StatusDone? {
      StatusDoneKeeps(s, s0, keys);
    } else {
      StatusOverKeeps(s, s0, keys);
    }
  }

  // ---------------------------------------------------------- the system loops

  // The loop of another system than the one that is being asked moves.
  lemma OtherSystemKeeps(s: State, a: Action, s': State, s0: State, keys: seq<Key>)
    requires RegistryInv(s.registry, s.systems) && SystemEnabled(s, a) && s' == SystemApply(s, a)
    requires a.i in s.systems && Attended(s.systems[a.i], s.root)
    requires StatusInv(s.root, s.registry, s.systems, s0, keys)
    requires s.root.RStatusAwait? ==> a.i != s0.registry[s.root.name]
    ensures StatusInv(s'.root, s'.registry, s'.systems, s0, keys) && ReportIn(s, a) == []
  {
    SystemStepFrame(s, a);
    NotAsked(s, a);
    ExitingKeeps(s, s', a.i, s0, keys);
  }

  lemma ExitingKeeps(s: State, s': State, i: nat, s0: State, keys: seq<Key>)
    requires SystemFrame(s, s', i) && Exiting(s'.systems[i])
    requires StatusInv(s.root, s.registry, s.systems, s0, keys)
    requires s.root.RStatusAwait? ==> i != s0.registry[s.root.name]
    ensures StatusInv(s'.root, s'.registry, s'.systems, s0, keys)
  {
    forall n, id | Had(s0, n, id)
      ensures Open(s'.root, s'.registry, s'.systems, n, id) <==> Open(s.root, s.registry, s.systems, n, id)
    {
    }
  }

  // Such a loop is exiting, or starts to.
  lemma NotAsked(s: State, a: Action)
    requires RegistryInv(s.registry, s.systems) && SystemEnabled(s, a) && InStatus(s.root)
    requires a.i in s.systems && Attended(s.systems[a.i], s.root)
    requires s.root.RStatusAwait? ==> s.root.name in s.registry && a.i != s.registry[s.root.name]
    ensures a.i in SystemApply(s, a).systems && Exiting(SystemApply(s, a).systems[a.i]) && !a.FeedStatusDone?
  {
    NotReporting(s, a.i);
    ExitingGoesOn(s, a);
  }

  lemma NotReporting(s: State, i: nat)
    requires RegistryInv(s.registry, s.systems) && i in s.systems && Attended(s.systems[i], s.root)
    requires s.root.RStatusAwait? ==> s.root.name in s.registry && i != s.registry[s.root.name]
    requires InStatus(s.root)
    ensures !Reporting(s.systems[i]) && !Serving(s.systems[i])
  {
  }

  lemma ExitingGoesOn(s: State, a: Action)
    requires SystemEnabled(s, a) && !Reporting(s.systems[a.i]) && !Serving(s.systems[a.i])
    ensures a.i in SystemApply(s, a).systems && Exiting(SystemApply(s, a).systems[a.i]) && !a.FeedStatusDone?
  {
  }

  // A step of the system loop that is being asked, but for a reply.
  lemma AskingMoves(s: State, a: Action)
    requires SystemEnabled(s, a) && Reporting(s.systems[a.i]) && !a.FeedStatusDone?
    requires Asks(s.systems[a.i], s.systems[a.i])
    ensures var y, y' := s.systems[a.i], SystemApply(s, a).systems[a.i];
      y'.feeds == y.feeds && OpenIds(y'.pc) == OpenIds(y.pc) && Asks(y', y)
  {
    if a.FeedStatusNext? {
      assert OpenIds(SystemApply(s, a).systems[a.i].pc) == OpenIds(s.systems[a.i].pc);
    }
  }

  lemma AskingKeeps(s: State, a: Action, s': State, s0: State, keys: seq<Key>)
    requires RegistryInv(s.registry, s.systems) && SystemEnabled(s, a) && s' == SystemApply(s, a)
    requires !a.FeedStatusDone?
    requires StatusInv(s.root, s.registry, s.systems, s0, keys)
    requires s.root.RStatusAwait? && a.i == s0.registry[s.root.name]
    ensures StatusInv(s'.root, s'.registry, s'.systems, s0, keys) && ReportIn(s, a) == []
  {
    SystemStepFrame(s, a);
    AskingMoves(s, a);
    OthersHaveOther(s, a.i, s0);
    forall n, id | Had(s0, n, id)
      ensures Open(s'.root, s'.registry, s'.systems, n, id) <==> Open(s.root, s.registry, s.systems, n, id)
    {
    }
  }

  // The systems that have yet to be asked have other loops than the one that is.
  lemma OthersHaveOther(s: State, i: nat, s0: State)
    requires RegistryInv(s.registry, s.systems) && s.registry == s0.registry
    requires s.root.RStatusAwait? || s.root.RStatusSend?
    requires s.root.name in s.registry && s.root.name !in s.root.left && i == s.registry[s.root.name]
    ensures forall n :: n in s.root.left && n in s0.registry ==> s0.registry[n] != i
  {
    forall n | n in s.root.left && n in s0.registry ensures s0.registry[n] != i {
      assert s.systems[s.registry[n]].name == n;
    }
  }

  // A reply: the feed is no longer open.
  lemma ReplyCollects(s: State, s': State, i: nat, s0: State, keys: seq<Key>, key: Key)
    requires SystemFrame(s, s', i) && RegistryInv(s.registry, s.systems)
    requires StatusInv(s.root, s.registry, s.systems, s0, keys)
    requires s.root.RStatusAwait? && i == s0.registry[s.root.name] && s.systems[i].pc.SStatusAwait?
    requires key == (s.root.name, s.systems[i].pc.id) && s.systems[i].pc.id in s.systems[i].feeds
    requires s'.systems[i] == s.systems[i].(pc := SStatus(s.systems[i].pc.todo))
    ensures StatusInv(s'.root, s'.registry, s'.systems, s0, keys + [key])
  {
    assert Had(s0, key.0, key.1) && Open(s.root, s.registry, s.systems, key.0, key.1);
    assert key !in keys;
    OthersHaveOther(s, i, s0);
    forall n, id | Had(s0, n, id)
      ensures Open(s'.root, s'.registry, s'.systems, n, id) <==>
        (Open(s.root, s.registry, s.systems, n, id) && (n, id) != key)
    {
    }
  }

  lemma ReplyIsReported(s: State, i: nat)
    requires HoldingInv(s) && SystemEnabled(s, FeedStatusDone(i))
    ensures KeysOf(ReportIn(s, FeedStatusDone(i))) == [(s.systems[i].name, s.systems[i].pc.id)]
  {
    HeldFeed(s, i, s.systems[i].pc.id);
  }

  lemma ReplyMoves(s: State, i: nat)
    requires SystemEnabled(s, FeedStatusDone(i))
    ensures s.systems[i].pc.SStatusAwait? && s.systems[i].pc.id in s.systems[i].feeds
    ensures i in SystemApply(s, FeedStatusDone(i)).systems
    ensures SystemApply(s, FeedStatusDone(i)).systems[i] == s.systems[i].(pc := SStatus(s.systems[i].pc.todo))
  {
  }

  lemma ReplyKeeps(s: State, i: nat, s': State, s0: State, keys: seq<Key>, keys': seq<Key>)
    requires HoldingInv(s) && SystemEnabled(s, FeedStatusDone(i)) && s' == SystemApply(s, FeedStatusDone(i))
    requires keys' == keys + KeysOf(ReportIn(s, FeedStatusDone(i)))
    requires StatusInv(s.root, s.registry, s.systems, s0, keys)
    requires s.root.RStatusAwait? && i == s0.registry[s.root.name]
    ensures StatusInv(s'.root, s'.registry, s'.systems, s0, keys')
  {
    SystemStepFrame(s, FeedStatusDone(i));
    ReplyIsReported(s, i);
    ReplyMoves(s, i);
    assert s.systems[i].name == s.root.name;
    ReplyCollects(s, s', i, s0, keys, (s.root.name, s.systems[i].pc.id));
  }

  lemma SystemKeepsStatus(s: State, a: Action, s': State, s0: State, keys: seq<Key>, keys': seq<Key>)
    requires HoldingInv(s) && SystemEnabled(s, a) && s' == SystemApply(s, a)
    requires a.i in s.systems && Attended(s.systems[a.i], s.root)
    requires StatusInv(s.root, s.registry, s.systems, s0, keys)
    requires keys' == keys + KeysOf(ReportIn(s, a))
    ensures StatusInv(s'.root, s'.registry, s'.systems, s0, keys')
  {
    if s.root.RStatusAwait? && a.i == s0.registry[s.root.name] {
      if a.FeedStatusDone? {
        ReplyKeeps(s, a.i, s', s0, keys, keys');
      } else {
        AskingKeeps(s, a, s', s0, keys);
        assert keys' == keys;
      }
    } else {
      OtherSystemKeeps(s, a, s', s0, keys);
      assert keys' == keys;
    }
  }

  // ------------------------------------------------------------- the whole request

  lemma MovingIsAttended(s: State, a: Action)
    requires ControlInv(s) && SystemEnabled(s, a)
    ensures a.i in s.systems && Attended(s.systems[a.i], s.root)
  {
    assert SystemCtl(s.systems[a.i], s.root, s.rootCancelled, s.feeds);
  }

  lemma SystemActsAlone(s: State, a: Action, s': State)
    requires StepBy(s, a, s') && SystemEnabled(s, a) && !RootEnabled(s, a)
    ensures s' == SystemApply(s, a)
  {
  }

  lemma OthersKeepLoops(s: State, a: Action, s': State)
    requires StepBy(s, a, s') && !RootEnabled(s, a) && !SystemEnabled(s, a) && !s.root.RSelect?
    ensures s'.root == s.root && s'.registry == s.registry && s'.systems == s.systems && ReportIn(s, a) == []
  {
    if FeedEnabled(s, a) && s' == FeedApply(s, a) {
      FeedStepFrame(s, a);
    }
  }

  lemma StatusStarts(s: State, s': State)
    requires RegistryInv(s.registry, s.systems) && StepBy(s, RequestStatus, s')
    ensures StatusInv(s'.root, s'.registry, s'.systems, s, [])
  {
  }

  // What the steps of a trace are.
  lemma TraceRootActs(t: Trace, k: nat, s: State, a: Action, s': State)
    requires IsTrace(t) && k + 1 < |t.states| && s == t.states[k] && a == t.actions[k] && s' == t.states[k + 1]
    requires RootEnabled(s, a)
    ensures s' == RootApply(s, a) && (a.RootReply? ==> s'.root.RSelect?) && RegistryInv(s.registry, s.systems)
  {
    TraceStep(t, k, k + 1);
    RootStepIsRoots(s, a, s');
    TraceIsReachable(t, k);
    ReachableInv(s);
  }

  lemma TraceSystemActs(t: Trace, k: nat, s: State, a: Action, s': State)
    requires IsTrace(t) && k + 1 < |t.states| && s == t.states[k] && a == t.actions[k] && s' == t.states[k + 1]
    requires SystemEnabled(s, a) && !RootEnabled(s, a)
    ensures s' == SystemApply(s, a) && HoldingInv(s) && a.i in s.systems && Attended(s.systems[a.i], s.root)
  {
    TraceStep(t, k, k + 1);
    SystemActsAlone(s, a, s');
    TraceIsReachable(t, k);
    ReachableInv(s);
    MovingIsAttended(s, a);
  }

  lemma TraceOthersAct(t: Trace, k: nat, s: State, a: Action, s': State)
    requires IsTrace(t) && k + 1 < |t.states| && s == t.states[k] && a == t.actions[k] && s' == t.states[k + 1]
    requires !SystemEnabled(s, a) && !RootEnabled(s, a) && !s.root.RSelect?
    ensures s'.root == s.root && s'.registry == s.registry && s'.systems == s.systems && ReportIn(s, a) == []
  {
    TraceStep(t, k, k + 1);
    OthersKeepLoops(s, a, s');
  }

  lemma KeysConcat(a: seq<FeedStatus>, b: seq<FeedStatus>)
    ensures KeysOf(a + b) == KeysOf(a) + KeysOf(b)
  {
  }

  lemma StatusGoesFurther(t: Trace, k: nat, s: State, a: Action, s': State, s0: State, keys: seq<Key>, keys': seq<Key>)
    requires IsTrace(t) && k + 1 < |t.states| && s == t.states[k] && a == t.actions[k] && s' == t.states[k + 1]
    requires !s'.root.RSelect? && StatusInv(s.root, s.registry, s.systems, s0, keys)
    requires keys' == keys + KeysOf(ReportIn(s, a))
    ensures StatusInv(s'.root, s'.registry, s'.systems, s0, keys')
  {
    if RootEnabled(s, a) {
      TraceRootActs(t, k, s, a, s');
      RootKeepsStatus(s, a, s0, keys);
      assert keys' == keys;
    } else if SystemEnabled(s, a) {
      TraceSystemActs(t, k, s, a, s');
      SystemKeepsStatus(s, a, s', s0, keys, keys');
    } else {
      TraceOthersAct(t, k, s, a, s');
      assert keys' == keys;
    }
  }

  lemma StatusComes(t: Trace, i: nat, s0: State, s: State)
    requires IsTrace(t) && i + 1 < |t.states| && s0 == t.states[i] && s == t.states[i + 1]
    requires t.actions[i] == RequestStatus
    ensures StatusInv(s.root, s.registry, s.systems, s0, [])
  {
    TraceStep(t, i, i + 1);
    TraceIsReachable(t, i);
    ReachableInv(s0);
    StatusStarts(s0, s);
  }

  // The replies up to the last step, and those of the last step.
  lemma LastReports(t: Trace, i: nat, j: nat, front: seq<FeedStatus>, keys: seq<Key>)
    requires i < j < |t.states| && |t.states| == |t.actions| + 1
    requires front == Reports(t, i, j - 1) && keys == KeysOf(Reports(t, i, j))
    ensures keys == KeysOf(front) + KeysOf(ReportIn(t.states[j - 1], t.actions[j - 1]))
  {
    ReportsNext(t, i, j);
    KeysConcat(front, ReportIn(t.states[j - 1], t.actions[j - 1]));
  }

  lemma {:induction false} StatusGoesOn(t: Trace, i: nat, j: nat, s0: State, s: State, keys: seq<Key>)
    requires IsTrace(t) && i < j && OneRequest(t, i + 1, j) && t.actions[i] == RequestStatus
    requires s0 == t.states[i] && s == t.states[j] && keys == KeysOf(Reports(t, i + 1, j))
    ensures StatusInv(s.root, s.registry, s.systems, s0, keys)
  {
    if j == i + 1 {
      StatusComes(t, i, s0, s);
      assert keys == [];
    } else {
      var front := Reports(t, i + 1, j - 1);
      var before, p := KeysOf(front), t.states[j - 1];
      StatusGoesOn(t, i, j - 1, s0, p, before);
      LastReports(t, i + 1, j, front, keys);
      StatusGoesFurther(t, j - 1, p, t.actions[j - 1], s, s0, before, keys);
    }
  }

  // One reply about every feed that ran when the request came, and no other.
  ghost predicate OneReplyEach(s0: State, log: seq<FeedStatus>) {
    && Distinct(KeysOf(log))
    && forall n, id :: (n, id) in KeysOf(log) <==> Had(s0, n, id)
  }

  /** A status request, from its arrival to the reply: every feed loop that ran under a
      scheduled system then is asked once, and no other. */
  lemma StatusOutcome(t: Trace, i: nat, j: nat, log: seq<FeedStatus>)
    requires IsTrace(t) && i < j && OneRequest(t, i + 1, j) && t.actions[i] == RequestStatus
    requires t.states[j].root.RReplying? && log == Reports(t, i + 1, j)
    ensures t.states[j].root.reply == StatusReply && OneReplyEach(t.states[i], log)
  {
    StatusGoesOn(t, i, j, t.states[i], t.states[j], KeysOf(log));
  }

  /** And each reply is true: it is about a feed loop of that system, with its
      configuration, and says that an update is running exactly if one is out. */
  lemma ReplyIsTrue(s: State, i: nat)
    requires Reachable(s) && SystemEnabled(s, FeedStatusDone(i))
    ensures exists f ::
      && Under(s, f, s.systems[i].name) && s.feeds[f].pc == FReplying
      && ReportIn(s, FeedStatusDone(i)) == [FeedStatus(s.systems[i].name, s.feeds[f].config, HasUpdate(s.updates, f))]
  {
    var y := s.systems[i];
    var f := y.feeds[y.pc.id];
    ReachableInv(s);
    HeldFeed(s, i, y.pc.id);
    FlagIsTrue(s, f);
    assert Under(s, f, y.name);
  }

  // The IDs a system loop holds are those of its target.
  lemma HeldIds(y: System, feeds: map<nat, Feed>, r: Response, id: FeedId)
    requires Configured(y, feeds) && Started(y) == |y.target| && Sensible(r) && y.target == Asked(r)
    ensures id in y.feeds <==> exists c :: IsWanted(r, c) && c.id == id
  {
    if id in y.feeds {
      var k :| 0 <= k < |y.target| && y.target[k].id == id;
      AskedIsWanted(r, y.target[k]);
    }
    if c :| IsWanted(r, c) && c.id == id {
      AskedIsWanted(r, c);
      var k :| 0 <= k < |y.target| && y.target[k] == c;
    }
  }

  /** Between requests the feeds that run under a system are those that the last response
      about it asks for. */
  lemma HadAreWanted(s: State, n: SystemId, id: FeedId)
    requires Reachable(s) && !s.duplicates && !s.rootCancelled && s.root.RSelect? && n in s.registry
    ensures n in s.responses
    ensures Had(s, n, id) <==> exists c :: IsWanted(s.responses[n], c) && c.id == id
  {
    ReachableInv(s);
    ReachableResponses(s);
    IdleTold(s, n);
    IdleSystem(s, n);
    IdleIsConfigured(s, s.registry[n]);
    HeldIds(s.systems[s.registry[n]], s.feeds, s.responses[n], id);
  }

  lemma IdleIsConfigured(s: State, i: nat)
    requires HoldingInv(s) && !s.duplicates && i in s.systems && s.systems[i].pc.SSelect?
    ensures Configured(s.systems[i], s.feeds) && Started(s.systems[i]) == |s.systems[i].target|
  {
    assert HoldsFeeds(i, s.systems[i], s.feeds, s.duplicates);
  }
}
