/** What the scheduler does with whatever its surroundings do: nothing is refused, and
    every feed loop goes on updating its feed. */
module SchedulerTicks {
  import opened Scheduler
  import opened SchedulerRuns
  import opened SchedulerInvariants
  import opened SchedulerControl
  import opened SchedulerSafety
  import opened SchedulerDuplicates
  import opened SchedulerProgress

  // ------------------------------------------------------------- one tick

  // The loop's only update that is out is u, and it is in flight.
  ghost predicate OnlyUpdate(updates: map<nat, Update>, u: nat, f: nat) {
    && u in updates && updates[u] == Update(f, Flying)
    && forall v :: Outstanding(updates, v, f) ==> v == u
  }

  // A feed loop at its select statement whose last update, if any, is over.
  ghost predicate Rests(s: State, f: nat) {
    f in s.feeds && s.feeds[f].pc == FSelect && !HasUpdate(s.updates, f)
  }

  /** However many updates a feed loop has had, if it rests, the next tick starts one:
      the update is the only one of the loop that is out, and nothing else changes. */
  lemma TickStarts(s: State, f: nat, u: nat)
    requires Reachable(s) && Rests(s, f) && u !in s.updates
    ensures EnvEnabled(s, Tick(f, u))
    ensures var s' := EnvApply(s, Tick(f, u));
      && s' == s.(feeds := s.feeds[f := s.feeds[f].(updateRunning := true)], updates := s'.updates)
      && s'.updates == s.updates[u := Update(f, Flying)]
      && OnlyUpdate(s'.updates, u, f)
  {
    FlagIsTrue(s, f);
    var updates := s.updates[u := Update(f, Flying)];
    forall v | Outstanding(updates, v, f) ensures v == u {
      assert v != u ==> Outstanding(s.updates, v, f);
    }
  }

  /** While an update of the loop is out, a tick is taken and leaves everything as it is,
      and no second update starts. */
  lemma TickWaits(s: State, f: nat)
    requires Reachable(s) && f in s.feeds && s.feeds[f].pc == FSelect && HasUpdate(s.updates, f)
    ensures EnvEnabled(s, IdleTick(f)) && EnvApply(s, IdleTick(f)) == s
    ensures forall u :: !EnvEnabled(s, Tick(f, u))
  {
    FlagIsTrue(s, f);
  }

  // ------------------------------------------------------- one update after another

  lemma UpdateStarts(s: State, f: nat, u: nat) returns (s': State)
    requires Reachable(s) && Rests(s, f) && u !in s.updates
    ensures Reachable(s')
    ensures s' == s.(feeds := s.feeds[f := s.feeds[f].(updateRunning := true)],
                     updates := s.updates[u := Update(f, Flying)])
  {
    TickStarts(s, f, u);
    s' := EnvApply(s, Tick(f, u));
    assert StepBy(s, Tick(f, u), s');
    StepByIsNext(s, Tick(f, u), s');
    ReachableStep(s, s');
  }

  lemma UpdateEndsLater(s: State, f: nat, u: nat) returns (s': State)
    requires Reachable(s) && u in s.updates && s.updates[u] == Update(f, Flying)
    ensures Reachable(s') && s' == s.(updates := s.updates[u := Update(f, Sending)])
  {
    s' := EnvApply(s, UpdateEnds(u));
    assert StepBy(s, UpdateEnds(u), s');
    StepByIsNext(s, UpdateEnds(u), s');
    ReachableStep(s, s');
  }

  lemma ResultArrives(s: State, f: nat, u: nat) returns (s': State)
    requires Reachable(s) && u in s.updates && s.updates[u] == Update(f, Sending)
    requires f in s.feeds && s.feeds[f].pc == FSelect
    ensures Reachable(s')
    ensures s' == s.(feeds := s.feeds[f := s.feeds[f].(updateRunning := false)],
                     updates := s.updates[u := Update(f, Received)])
  {
    s' := FeedApply(s, Finish(f, u));
    assert StepBy(s, Finish(f, u), s');
    StepByIsNext(s, Finish(f, u), s');
    ReachableStep(s, s');
  }

  // A whole update leaves nothing but itself behind.
  lemma OneMoreUpdate(s: State, f: nat, u: nat) returns (s': State)
    requires Reachable(s) && Rests(s, f) && u !in s.updates
    ensures Reachable(s') && s' == s.(updates := s.updates[u := Update(f, Received)]) && Rests(s', f)
  {
    FlagIsTrue(s, f);
    var s1 := UpdateStarts(s, f, u);
    var s2 := UpdateEndsLater(s1, f, u);
    s' := ResultArrives(s2, f, u);
    assert s'.feeds == s.feeds;
    assert s'.updates == s.updates[u := Update(f, Received)];
    forall v ensures Outstanding(s'.updates, v, f) <==> Outstanding(s.updates, v, f) {
    }
  }

  // The loop's updates whose results have been received.
  function ReceivedBy(updates: map<nat, Update>, f: nat): set<nat> {
    set u | u in updates && updates[u] == Update(f, Received)
  }

  /** From every reachable state in which a feed loop rests, some run brings it as many
      more updates as one likes, and to rest again. */
  lemma {:induction false} UpdatesGoOn(s: State, f: nat, n: nat) returns (s': State)
    requires Reachable(s) && Rests(s, f)
    ensures Reachable(s') && Rests(s', f) && s' == s.(updates := s'.updates)
    ensures |ReceivedBy(s'.updates, f)| == |ReceivedBy(s.updates, f)| + n
  {
    if n == 0 {
      s' := s;
    } else {
      var s1 := UpdatesGoOn(s, f, n - 1);
      var u := FreshId(s1.updates.Keys);
      s' := OneMoreUpdate(s1, f, u);
      OneMoreReceived(s1.updates, f, u);
    }
  }

  lemma OneMoreReceived(updates: map<nat, Update>, f: nat, u: nat)
    requires u !in updates
    ensures |ReceivedBy(updates[u := Update(f, Received)], f)| == |ReceivedBy(updates, f)| + 1
  {
    assert ReceivedBy(updates[u := Update(f, Received)], f) == ReceivedBy(updates, f) + {u};
  }

  /** For every number some feed loop can have had that many updates. */
  lemma AnyNumberOfUpdates(n: nat)
    ensures exists s, f :: Reachable(s) && f in s.feeds && |ReceivedBy(s.updates, f)| == n
  {
    var r, feeds := SomeResponse();
    FirstReset("", r, feeds, OnlyResponse(r));
    var s := HasStarted("", r, feeds);
    ReachableByIsReachable(s, OnlyResponse(r));
    assert ReceivedBy(s.updates, 0) == {};
    assert Rests(s, 0);
    var s' := UpdatesGoOn(s, 0, n);
    assert 0 in s'.feeds;
  }

  // ------------------------------------------------------- nothing is refused

  // Requests are taken by an idle root loop, ticks by the feed loops, and the ends of
  // updates, cancellation and clients that leave at any time.
  ghost predicate TakesEvents(s: State) {
    && (s.root.RSelect? ==>
          EnvEnabled(s, RequestResetAll) && EnvEnabled(s, RequestStatus) && forall name :: EnvEnabled(s, RequestReset(name)))
    && (forall f :: f in s.feeds && s.feeds[f].pc == FSelect ==>
          EnvEnabled(s, IdleTick(f)) || forall u :: u !in s.updates ==> EnvEnabled(s, Tick(f, u)))
    && (forall u :: u in s.updates && s.updates[u].state == Flying ==> EnvEnabled(s, UpdateEnds(u)))
    && (!s.rootCancelled ==> EnvEnabled(s, CancelRoot))
    && (s.clientWaits ==> EnvEnabled(s, ClientLeaves))
  }

  // Where the root loop asks for the list of systems or for a system, it takes any answer.
  ghost predicate TakesAnswers(s: State) {
    && (s.root.RListing? ==> RootEnabled(s, ListingFails) && forall names :: RootEnabled(s, Listed(names)))
    && (s.root.RConfig? ==> forall r, i :: Sensible(r) && i !in s.systems ==> RootEnabled(s, Answered(r, i)))
  }

  lemma AnyAnswer(s: State, r: Response, i: nat)
    requires RegistryInv(s.registry, s.systems) && s.root.RConfig? && Sensible(r) && i !in s.systems
    ensures RootEnabled(s, Answered(r, i))
  {
  }

  lemma AnyList(s: State, names: seq<SystemId>)
    requires s.root.RListing?
    ensures RootEnabled(s, ListingFails) && RootEnabled(s, Listed(names))
  {
  }

  lemma AnyEvent(s: State)
    ensures TakesEvents(s)
  {
  }

  /** In every reachable state the scheduler takes whatever its surroundings do. */
  lemma NothingIsRefused(s: State)
    requires Reachable(s)
    ensures TakesEvents(s) && TakesAnswers(s)
  {
    ReachableInv(s);
    AnyEvent(s);
    if s.root.RListing? {
      forall names ensures RootEnabled(s, ListingFails) && RootEnabled(s, Listed(names)) {
        AnyList(s, names);
      }
    }
    if s.root.RConfig? {
      forall r, i | Sensible(r) && i !in s.systems ensures RootEnabled(s, Answered(r, i)) {
        AnyAnswer(s, r, i);
      }
    }
  }
}
