/** What the steps of each kind of loop leave alone. */
module SchedulerFrames {
  import opened Scheduler

  // A step of one system loop: its name, context and target stay, and the other
  // system loops, the root loop and the updates are not touched.
  ghost predicate SystemFrame(s: State, s': State, i: nat) {
    && i in s.systems && i in s'.systems
    && s' == s.(systems := s.systems[i := s'.systems[i]], feeds := s'.feeds)
    && s'.systems[i].name == s.systems[i].name
    && s'.systems[i].cancelled == s.systems[i].cancelled
    && s'.systems[i].target == s.systems[i].target
  }

  lemma AloneFrame(s: State, a: Action)
    requires SystemEnabled(s, a)
    requires !a.CancelFeed? && !a.StartFeed? && !a.FeedStarted? && !a.SendFeedStatus? && !a.FeedStatusDone?
    ensures SystemFrame(s, SystemApply(s, a), a.i) && SystemApply(s, a).feeds == s.feeds
  {
  }

  // The feed loop that moves together with its system loop.
  ghost predicate OneFeed(s: State, s': State, f: nat) {
    f in s'.feeds && s'.feeds == s.feeds[f := s'.feeds[f]]
  }

  lemma JointFrame(s: State, a: Action) returns (f: nat)
    requires SystemEnabled(s, a) && (a.CancelFeed? || a.FeedStarted? || a.SendFeedStatus? || a.FeedStatusDone?)
    ensures SystemFrame(s, SystemApply(s, a), a.i) && OneFeed(s, SystemApply(s, a), f)
    ensures f in s.feeds && s.feeds[f].config == SystemApply(s, a).feeds[f].config
    ensures s.feeds[f].pc == FExited ==> SystemApply(s, a).feeds[f].pc == FExited
  {
    var y := s.systems[a.i];
    f := if a.CancelFeed? then y.feeds[a.id] else if a.FeedStarted? then y.pc.feed else y.feeds[y.pc.id];
  }

  lemma StartFrame(s: State, a: Action)
    requires SystemEnabled(s, a) && a.StartFeed?
    ensures SystemFrame(s, SystemApply(s, a), a.i) && OneFeed(s, SystemApply(s, a), a.f)
    ensures a.f !in s.feeds && SystemApply(s, a).feeds[a.f].config in s.systems[a.i].target
  {
  }

  lemma SystemStepFrame(s: State, a: Action)
    requires SystemEnabled(s, a)
    ensures SystemFrame(s, SystemApply(s, a), a.i)
  {
    if a.StartFeed? {
      StartFrame(s, a);
    } else if a.CancelFeed? || a.FeedStarted? || a.SendFeedStatus? || a.FeedStatusDone? {
      var f := JointFrame(s, a);
    } else {
      AloneFrame(s, a);
    }
  }

  // A step of the root loop does not touch feed loops and updates.
  ghost predicate RootFrame(s: State, s': State) {
    s'.feeds == s.feeds && s'.updates == s.updates && s'.rootCancelled == s.rootCancelled
  }

  lemma StoppingFrame(s: State, name: SystemId, c: Caller)
    requires name in s.registry ==> s.registry[name] in s.systems
    ensures var s' := Stopping(s, name, c);
      s' == s.(root := s'.root, systems := s'.systems)
      && s'.systems.Keys == s.systems.Keys
      && forall j :: j in s.systems ==> s'.systems[j].target == s.systems[j].target
  {
  }

  lemma AnswerFrame(s: State, answer: Answer, i: nat)
    requires AnswerEnabled(s, i)
    ensures RootFrame(s, AnswerApply(s, answer, i)) && AnswerApply(s, answer, i).clientWaits == s.clientWaits
  {
    if answer == Active([]) {
      StoppingFrame(s, s.root.name, s.root.caller);
    }
  }

  lemma SweepFrame(s: State, name: SystemId)
    requires RootEnabled(s, SweepNext(name))
    ensures RootFrame(s, RootApply(s, SweepNext(name)))
    ensures RootApply(s, SweepNext(name)).clientWaits == s.clientWaits
  {
    if name !in s.root.all.handled {
      StoppingFrame(s, name, Sweep(s.root.left - {name}, s.root.all, s.root.ok));
    }
  }

  lemma ShutdownFrame(s: State, name: SystemId)
    requires RootEnabled(s, ShutdownNext(name))
    ensures RootFrame(s, RootApply(s, ShutdownNext(name)))
    ensures RootApply(s, ShutdownNext(name)).clientWaits == s.clientWaits
  {
    StoppingFrame(s, name, Shutdown(s.root.left - {name}));
  }

  lemma RootStepFrame(s: State, a: Action)
    requires RootEnabled(s, a)
    ensures RootFrame(s, RootApply(s, a))
    ensures RootApply(s, a).clientWaits == s.clientWaits || RootApply(s, a).root.RSelect?
  {
    if a.Answered? {
      AnswerFrame(s, AnswerOf(a.response), a.i);
    } else if a.SweepNext? {
      SweepFrame(s, a.name);
    } else if a.ShutdownNext? {
      ShutdownFrame(s, a.name);
    }
  }

  // A step of a feed loop touches feed loops and updates only.
  lemma FeedStepFrame(s: State, a: Action)
    requires FeedEnabled(s, a)
    ensures var s' := FeedApply(s, a);
      s' == s.(feeds := s'.feeds, updates := s'.updates)
  {
  }
}
