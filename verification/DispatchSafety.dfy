/** What every reachable state of the dispatch service satisfies, timed-out stops and restarts included. */
module DispatchSafety {
  import opened Wrappers
  import opened DispatchProtocol

  /** The wait group counts the live goroutines, and stop only closes pipes when there are none. */
  predicate CountInv(s: State) {
    s.waitGroup == |s.relayers| + |s.senders| &&
    (s.phase.ClosingPipes? ==> s.waitGroup == 0) &&
    (s.relayers != [] || s.senders != [] ==> |s.gens| > 0)
  }

  /** While stop waits, its own goroutine only returns from Wait once the count is zero. */
  predicate OwnWaitInv(s: State) {
    s.phase.AwaitingExit? ==> s.waiters != [] && (OwnWaiterReturned(s) ==> s.waitGroup == 0)
  }

  predicate Shut(g: Generation) {
    g.jobsClosed && g.shutdownClosed
  }

  /** Only the newest generation can be open, and it is open exactly while the service runs. */
  predicate GenInv(s: State) {
    (forall g :: 0 <= g < |s.gens| - 1 ==> Shut(s.gens[g])) &&
    (forall g :: 0 <= g < |s.gens| ==> |s.gens[g].queue| <= s.gens[g].capacity) &&
    (s.running ==> s.phase.Unlocked? && |s.gens| > 0 && !Last(s).jobsClosed && !Last(s).shutdownClosed) &&
    (s.phase.JobsClosed? ==> !s.running && |s.gens| > 0 && Last(s).jobsClosed && !Last(s).shutdownClosed) &&
    (!s.running && !s.phase.JobsClosed? && |s.gens| > 0 ==> Shut(Last(s)))
  }

  /** Goroutines wait on channels that exist. */
  predicate WaitInv(s: State) {
    RelayersWait(s.relayers, |s.gens|) && SendersWait(s.senders, |s.gens|)
  }

  predicate RelayersWait(relayers: seq<Relayer>, gens: nat) {
    forall i :: 0 <= i < |relayers| && relayers[i].Selecting? ==> relayers[i].gen < gens
  }

  predicate SendersWait(senders: seq<Sender>, gens: nat) {
    forall i :: 0 <= i < |senders| && senders[i].Blocked? ==> senders[i].gen < gens
  }

  predicate SinglePosition(routes: map<Id, seq<Pipe>>) {
    forall a, b, i, j ::
      a in routes && b in routes && 0 <= i < |routes[a]| && 0 <= j < |routes[b]| && routes[a][i] == routes[b][j]
      ==> a == b && i == j
  }

  /** A pipe is at one position of one route, or in the pool, or closed, and never two of these. */
  predicate PipeInv(s: State) {
    SinglePosition(s.routes) && Routed(s.routes) !! s.pool && Routed(s.routes) !! s.closed && s.pool !! s.closed &&
    (forall p :: p in Routed(s.routes) ==> p < s.nextPipe) &&
    (forall p :: p in s.pool ==> p < s.nextPipe) &&
    (forall p :: p in s.closed ==> p < s.nextPipe)
  }

  /** No sender holds a closed pipe. */
  predicate SenderInv(s: State) {
    forall i :: 0 <= i < |s.senders| ==> s.senders[i].pipe !in s.closed && s.senders[i].pipe < s.nextPipe
  }

  /** The subscriber count is the number of routed pipes plus the pipes that stop closed. */
  predicate SubscriberInv(s: State) {
    s.subscriberCount == |Routed(s.routes)| + |s.closed|
  }

  predicate RoutingInv(s: State) {
    PipeInv(s) && SenderInv(s) && SubscriberInv(s)
  }

  predicate Inv(s: State) {
    CountInv(s) && OwnWaitInv(s) && GenInv(s) && WaitInv(s) && RoutingInv(s)
  }

  // ----- each step keeps each invariant

  lemma CountKept(s: State, step: Step)
    requires CountInv(s) && OwnWaitInv(s) && Enabled(s, step)
    ensures CountInv(Apply(s, step))
  {
  }

  lemma OwnWaitKept(s: State, step: Step)
    requires CountInv(s) && OwnWaitInv(s) && Enabled(s, step)
    requires step.WakeWaiter? ==> s.waitGroup == 0
    ensures OwnWaitInv(Apply(s, step))
  {
  }

  lemma GenKept(s: State, step: Step)
    requires GenInv(s) && Enabled(s, step)
    ensures GenInv(Apply(s, step))
  {
    if step.Receive? {
      ReceiveKeepsGens(s, step.i);
    } else if IsGoroutineStep(step) {
      OthersKeepGens(s, step);
    }
  }

  lemma ReceiveKeepsGens(s: State, i: nat)
    requires GenInv(s) && Enabled(s, Receive(i))
    ensures GenInv(Apply(s, Receive(i)))
  {
  }

  lemma OthersKeepGens(s: State, step: Step)
    requires Enabled(s, step) && IsGoroutineStep(step) && !step.Receive?
    ensures var t := Apply(s, step); t.gens == s.gens && t.running == s.running && t.phase == s.phase
  {
  }

  lemma RelayersKept(s: State, step: Step)
    requires RelayersWait(s.relayers, |s.gens|) && Enabled(s, step)
    ensures var t := Apply(s, step); RelayersWait(t.relayers, |t.gens|)
  {
  }

  lemma SendersKept(s: State, step: Step)
    requires SendersWait(s.senders, |s.gens|) && Enabled(s, step)
    ensures var t := Apply(s, step); SendersWait(t.senders, |t.gens|)
  {
  }

  lemma WaitKept(s: State, step: Step)
    requires WaitInv(s) && Enabled(s, step)
    ensures WaitInv(Apply(s, step))
  {
    RelayersKept(s, step);
    SendersKept(s, step);
  }

  lemma RoutedAppend(routes: map<Id, seq<Pipe>>, id: Id, pipe: Pipe)
    requires id in routes && SinglePosition(routes) && pipe !in Routed(routes)
    ensures var after := routes[id := routes[id] + [pipe]];
            Routed(after) == Routed(routes) + {pipe} && SinglePosition(after)
  {
    RoutedMember(routes);
    var after := routes[id := routes[id] + [pipe]];
    forall p | p in Routed(routes) + {pipe} ensures p in Routed(after) {
      if p == pipe {
        assert after[id][|routes[id]|] == p;
      } else {
        var a, i :| a in routes && 0 <= i < |routes[a]| && routes[a][i] == p;
        assert a in after && after[a][i] == p;
      }
    }
  }

  lemma SwapRemoveElements<T>(pipes: seq<T>, k: nat)
    requires k < |pipes|
    requires Distinct(pipes)
    ensures Distinct(SwapRemove(pipes, k))
    ensures forall p :: p in SwapRemove(pipes, k) <==> p in pipes && p != pipes[k]
  {
    var r := SwapRemove(pipes, k);
    forall i | 0 <= i < |pipes| && i != k ensures pipes[i] in r {
      if i == |pipes| - 1 {
        assert r[k] == pipes[i];
      } else {
        assert r[i] == pipes[i];
      }
    }
  }

  lemma RoutedSwapRemove(routes: map<Id, seq<Pipe>>, id: Id, k: nat)
    requires id in routes && k < |routes[id]| && SinglePosition(routes)
    ensures var after := routes[id := SwapRemove(routes[id], k)];
            Routed(after) == Routed(routes) - {routes[id][k]} && SinglePosition(after)
  {
    var after := routes[id := SwapRemove(routes[id], k)];
    assert Distinct(routes[id]);
    SwapRemoveElements(routes[id], k);
    forall p | p in Routed(routes) - {routes[id][k]} ensures p in Routed(after) {
      var a, i :| a in routes && 0 <= i < |routes[a]| && routes[a][i] == p;
      if a == id {
        assert p in after[id];
      } else {
        assert after[a][i] == p;
      }
    }
    forall p | p in Routed(after) ensures p in Routed(routes) && p != routes[id][k] {
      var a, i :| a in after && 0 <= i < |after[a]| && after[a][i] == p;
      if a == id {
        assert p in after[id] && p in routes[id];
      } else {
        assert routes[a][i] == p;
      }
    }
    assert forall p :: p in after[id] ==> p in routes[id];
    assert forall a, i :: a in after && 0 <= i < |after[a]| ==> after[a][i] in routes[a];
    assert Distinct(after[id]);
  }

  lemma RoutedMember(routes: map<Id, seq<Pipe>>)
    ensures forall a, i :: a in routes && 0 <= i < |routes[a]| ==> routes[a][i] in Routed(routes)
  {
  }

  /** The pipe a subscriber gets is in no route and has not been closed. */
  lemma SubscribedPipeIsUnused(s: State, id: Id, pipe: Pipe)
    requires PipeInv(s) && Enabled(s, Subscribe(id, pipe))
    ensures pipe !in Routed(s.routes) && pipe !in s.closed
  {
  }

  lemma SubscribeKept(s: State, id: Id, pipe: Pipe)
    requires RoutingInv(s) && Enabled(s, Subscribe(id, pipe))
    ensures var t := Apply(s, Subscribe(id, pipe)); RoutingInv(t)
  {
    SubscribedPipeIsUnused(s, id, pipe);
    RoutedAppend(s.routes, id, pipe);
  }

  lemma UnsubscribeKept(s: State, id: Id, k: nat, drained: Option<nat>)
    requires RoutingInv(s) && Enabled(s, Unsubscribe(id, k, drained))
    ensures var t := Apply(s, Unsubscribe(id, k, drained)); RoutingInv(t)
  {
    RoutedSwapRemove(s.routes, id, k);
    RoutedMember(s.routes);
    var t := Apply(s, Unsubscribe(id, k, drained));
    assert t.pool == s.pool + {s.routes[id][k]};
    assert Routed(t.routes) == Routed(s.routes) - {s.routes[id][k]};
  }

  /** Unsubscribing takes the given pipe out of its route and pools it; other routes and pipes stay as they are. */
  lemma UnsubscribeRemoves(s: State, id: Id, k: nat, drained: Option<nat>)
    requires RoutingInv(s) && Enabled(s, Unsubscribe(id, k, drained))
    ensures var t, pipe := Apply(s, Unsubscribe(id, k, drained)), s.routes[id][k];
            Routed(t.routes) == Routed(s.routes) - {pipe} && pipe in Routed(s.routes) &&
            (forall other :: other in s.routes && other != id ==> other in t.routes && t.routes[other] == s.routes[other]) &&
            t.pool == s.pool + {pipe} && t.closed == s.closed && t.subscriberCount == s.subscriberCount - 1
    ensures drained.Some? ==> s.senders[drained.value].pipe == s.routes[id][k]
  {
    RoutedSwapRemove(s.routes, id, k);
    RoutedMember(s.routes);
    assert s.routes[id][k] in Routed(s.routes);
  }

  lemma ClosePipesKept(s: State)
    requires RoutingInv(s) && CountInv(s) && Enabled(s, ClosePipes)
    ensures var t := Apply(s, ClosePipes); RoutingInv(t)
  {
    var t := Apply(s, ClosePipes);
    assert Routed(t.routes) == {};
    assert s.senders == [];
    assert t.closed == s.closed + Routed(s.routes);
  }

  lemma RelayKept(s: State, i: nat)
    requires RoutingInv(s) && Enabled(s, Relay(i))
    ensures SenderInv(Apply(s, Relay(i)))
  {
    RoutedMember(s.routes);
    var job := s.relayers[i].job;
    if job.id in s.routes {
      forall k | 0 <= k < |s.routes[job.id]|
        ensures s.routes[job.id][k] !in s.closed && s.routes[job.id][k] < s.nextPipe
      {
        assert s.routes[job.id][k] in Routed(s.routes);
      }
    }
  }

  lemma NewIdKept(s: State, id: Id)
    requires RoutingInv(s) && Enabled(s, NewId(id))
    ensures var t := Apply(s, NewId(id)); RoutingInv(t)
  {
    assert Routed(s.routes[id := []]) == Routed(s.routes) by {
      forall p | p in Routed(s.routes) ensures p in Routed(s.routes[id := []]) {
        var a, i :| a in s.routes && 0 <= i < |s.routes[a]| && s.routes[a][i] == p;
        assert s.routes[id := []][a][i] == p;
      }
    }
  }

  /** The steps that leave routes, pool and closed pipes alone. */
  lemma OtherKept(s: State, step: Step)
    requires RoutingInv(s) && Enabled(s, step)
    requires !step.Subscribe? && !step.Unsubscribe? && !step.ClosePipes? && !step.NewId?
    ensures var t := Apply(s, step);
            t.routes == s.routes && t.pool == s.pool && t.closed == s.closed && t.nextPipe == s.nextPipe &&
            t.subscriberCount == s.subscriberCount && SenderInv(t)
  {
    if step.Relay? {
      RelayKept(s, step.i);
    }
  }

  lemma PipesKept(s: State, step: Step)
    requires RoutingInv(s) && CountInv(s) && Enabled(s, step)
    ensures var t := Apply(s, step); RoutingInv(t)
  {
    match step
    case Subscribe(id, pipe) => SubscribeKept(s, id, pipe);
    case Unsubscribe(id, k, drained) => UnsubscribeKept(s, id, k, drained);
    case ClosePipes => ClosePipesKept(s);
    case NewId(id) => NewIdKept(s, id);
    case _ => OtherKept(s, step);
  }

  /** Every step of the service that does not panic keeps the whole invariant. */
  lemma StepKeeps(s: State, step: Step)
    requires Inv(s) && Enabled(s, step) && !Panics(s, step)
    ensures Inv(Apply(s, step))
  {
    CountKept(s, step);
    OwnWaitKept(s, step);
    GenKept(s, step);
    WaitKept(s, step);
    PipesKept(s, step);
  }

  /** Every run from the freshly made dispatcher satisfies the invariant at its end. */
  lemma {:induction false} RunKeeps(s: State, steps: seq<Step>)
    requires Inv(s) && CanRun(s, steps)
    ensures Inv(Run(s, steps))
    decreases |steps|
  {
    if steps != [] {
      StepKeeps(s, steps[0]);
      RunKeeps(Apply(s, steps[0]), steps[1..]);
    }
  }

  // ----- what the invariant is for

  /** The panics that the invariant does not exclude: the wait group is reused before a Wait has returned. */
  predicate ReusesWaitGroup(s: State, step: Step) {
    (step.Start? && WaitIsReleasing(s)) || (step.WakeWaiter? && (s.waitGroup != 0 || Waiting in s.waiters))
  }

  lemma OnlyReusePanics(s: State, step: Step)
    requires Inv(s) && Enabled(s, step)
    ensures Panics(s, step) <==> ReusesWaitGroup(s, step)
  {
    if step.ClosePipes? {
      RoutedMember(s.routes);
    }
  }

  /**
  In no run, a stop that timed out and a restart included, does a send meet a closed pipe, does
  publish push to a closed queue, is a channel closed twice or does the wait group go negative:
  the next step panics if and only if it reuses the wait group before a Wait has returned.
  */
  lemma PanicsIff(steps: seq<Step>, step: Step)
    requires CanRun(INITIAL, steps) && Enabled(Run(INITIAL, steps), step)
    ensures Panics(Run(INITIAL, steps), step) <==> ReusesWaitGroup(Run(INITIAL, steps), step)
  {
    RunKeeps(INITIAL, steps);
    OnlyReusePanics(Run(INITIAL, steps), step);
  }

  /** What a step closes or sends to is still open, and only goroutines of a stopped generation end at shutdown. */
  predicate UsesOpen(s: State, step: Step)
    requires Enabled(s, step)
  {
    match step
    case Deliver(i) => s.senders[i].pipe !in s.closed
    case Publish(_) => !Last(s).jobsClosed
    case CloseJobs => !Last(s).jobsClosed
    case CloseShutdown => !Last(s).shutdownClosed
    case ClosePipes => Routed(s.routes) !! s.closed && SinglePosition(s.routes)
    case RelayerExit(i) => s.running ==> s.relayers[i].gen < |s.gens| - 1
    case SenderExit(i) => s.running ==> s.senders[i].gen < |s.gens| - 1
    case _ => true
  }

  lemma InvUsesOpen(s: State, step: Step)
    requires Inv(s) && Enabled(s, step)
    ensures UsesOpen(s, step)
  {
  }

  /** In every run every step uses open channels only. */
  lemma OnlyOpenIsUsed(steps: seq<Step>, step: Step)
    requires CanRun(INITIAL, steps) && Enabled(Run(INITIAL, steps), step)
    ensures UsesOpen(Run(INITIAL, steps), step)
  {
    RunKeeps(INITIAL, steps);
    InvUsesOpen(Run(INITIAL, steps), step);
  }

  /** In every run the wait group is the number of live relayers and senders. */
  lemma WaitGroupCounts(steps: seq<Step>)
    requires CanRun(INITIAL, steps)
    ensures var s := Run(INITIAL, steps);
            s.waitGroup == |s.relayers| + |s.senders| &&
            (s.phase.ClosingPipes? ==> s.relayers == [] && s.senders == [])
  {
    RunKeeps(INITIAL, steps);
  }

  /** A pipe is never in two routes, twice in a route, or both routed and pooled or closed. */
  lemma PipeHasOnePlace(steps: seq<Step>)
    requires CanRun(INITIAL, steps)
    ensures var s := Run(INITIAL, steps);
            SinglePosition(s.routes) && Routed(s.routes) !! s.pool && Routed(s.routes) + s.pool !! s.closed
  {
    RunKeeps(INITIAL, steps);
  }

  /**
  The subscriber count exceeds the routed pipes by exactly the pipes stop has closed, so when
  it reads zero no route has a subscriber and publishing early-returns without losing a message.
  */
  lemma ZeroCountMeansNoSubscriber(steps: seq<Step>)
    requires CanRun(INITIAL, steps)
    ensures var s := Run(INITIAL, steps);
            s.subscriberCount == |Routed(s.routes)| + |s.closed| &&
            (s.subscriberCount == 0 ==> forall id :: id in s.routes ==> s.routes[id] == [])
  {
    RunKeeps(INITIAL, steps);
    var s := Run(INITIAL, steps);
    forall id | id in s.routes ensures s.subscriberCount == 0 ==> s.routes[id] == [] {
      if |s.routes[id]| > 0 {
        assert s.routes[id][0] in Routed(s.routes);
        assert |Routed(s.routes)| > 0;
      }
    }
  }

  // ----- reusing the wait group

  /** No goroutine is between its release from Wait and its return. */
  predicate WaitIsOver(s: State) {
    Released !in s.waiters && !WaitIsReleasing(s)
  }

  /** A goroutine other than a caller of start can panic in its next step. */
  ghost predicate PanicAhead(s: State) {
    exists step: Step :: !step.Start? && Enabled(s, step) && Panics(s, step)
  }

  /** A released goroutine and a count, or a second one that waits. */
  predicate Hazard(s: State) {
    Released in s.waiters && (s.waitGroup != 0 || Waiting in s.waiters)
  }

  lemma PanicAheadIffHazard(s: State)
    requires Inv(s)
    ensures PanicAhead(s) <==> Hazard(s)
  {
    if Hazard(s) {
      var i :| 0 <= i < |s.waiters| && s.waiters[i] == Released;
      var step := WakeWaiter(i);
      assert Enabled(s, step) && Panics(s, step);
    }
    if PanicAhead(s) {
      var step: Step :| !step.Start? && Enabled(s, step) && Panics(s, step);
      OnlyReusePanics(s, step);
      assert s.waiters[step.i] == Released;
    }
  }

  /** A restart panics, or lets a goroutine panic next, if and only if an earlier Wait is not over. */
  lemma RestartPanicsIff(steps: seq<Step>, workers: int, channelCapacity: int)
    requires CanRun(INITIAL, steps) && Enabled(Run(INITIAL, steps), Start(workers, channelCapacity))
    ensures var s, start := Run(INITIAL, steps), Start(workers, channelCapacity);
            Panics(s, start) || PanicAhead(Apply(s, start)) <==> !WaitIsOver(s)
  {
    var s, start := Run(INITIAL, steps), Start(workers, channelCapacity);
    RunKeeps(INITIAL, steps);
    OnlyReusePanics(s, start);
    if !Panics(s, start) {
      StepKeeps(s, start);
      PanicAheadIffHazard(Apply(s, start));
    }
  }

  /** No step but a restart makes a panic possible. */
  lemma HazardOnlyByRestart(s: State, step: Step)
    requires Inv(s) && !Hazard(s) && Enabled(s, step)
    ensures Hazard(Apply(s, step)) <==> step.Start? && Released in s.waiters
  {
    var t := Apply(s, step);
    match step
    case Start(_, _) =>
    case CallWait(i) => assert forall k :: 0 <= k < |s.waiters| && k != i ==> t.waiters[k] == s.waiters[k];
    case WakeWaiter(i) => assert forall k :: 0 <= k < |s.waiters| && k != i ==> t.waiters[k] == s.waiters[k];
    case ReleaseWaiters =>
    case CloseShutdown => assert forall k :: 0 <= k < |s.waiters| ==> t.waiters[k] == s.waiters[k];
    case _ =>
  }

  /** Every start of the run finds all earlier waits over. */
  predicate Guarded(s: State, steps: seq<Step>)
    requires CanRun(s, steps)
    decreases |steps|
  {
    steps == [] || ((steps[0].Start? ==> WaitIsOver(s)) && Guarded(Apply(s, steps[0]), steps[1..]))
  }

  lemma {:induction false} GuardedHasNoHazard(s: State, steps: seq<Step>)
    requires Inv(s) && !Hazard(s) && CanRun(s, steps) && Guarded(s, steps)
    ensures Inv(Run(s, steps)) && !Hazard(Run(s, steps))
    decreases |steps|
  {
    if steps != [] {
      StepKeeps(s, steps[0]);
      HazardOnlyByRestart(s, steps[0]);
      GuardedHasNoHazard(Apply(s, steps[0]), steps[1..]);
    }
  }

  /** When every start waits for the earlier waits to be over, no run panics, timed-out stops included. */
  lemma GuardedNeverPanics(steps: seq<Step>, step: Step)
    requires CanRun(INITIAL, steps) && Guarded(INITIAL, steps) && Enabled(Run(INITIAL, steps), step)
    requires step.Start? ==> WaitIsOver(Run(INITIAL, steps))
    ensures !Panics(Run(INITIAL, steps), step)
  {
    GuardedHasNoHazard(INITIAL, steps);
    var s := Run(INITIAL, steps);
    OnlyReusePanics(s, step);
    PanicAheadIffHazard(s);
  }

  /** Without timed-out stops, every goroutine but the one of a stop that is under way has returned. */
  predicate AllReturned(s: State) {
    forall k :: 0 <= k < |s.waiters| && !s.waiters[k].Returned? ==> s.phase.AwaitingExit? && k == |s.waiters| - 1
  }

  lemma ReturnedKept(s: State, step: Step)
    requires AllReturned(s) && Enabled(s, step) && !step.StopTimeout?
    ensures AllReturned(Apply(s, step))
  {
  }

  lemma {:induction false} CleanRunIsGuarded(s: State, steps: seq<Step>)
    requires AllReturned(s) && CanRun(s, steps) && StopTimeout !in steps
    ensures Guarded(s, steps) && AllReturned(Run(s, steps))
    decreases |steps|
  {
    if steps != [] {
      ReturnedKept(s, steps[0]);
      CleanRunIsGuarded(Apply(s, steps[0]), steps[1..]);
    }
  }

  /** As long as no stop times out, nothing panics. */
  lemma CleanRunNeverPanics(steps: seq<Step>, step: Step)
    requires CanRun(INITIAL, steps) && StopTimeout !in steps && Enabled(Run(INITIAL, steps), step)
    ensures !Panics(Run(INITIAL, steps), step)
  {
    CleanRunIsGuarded(INITIAL, steps);
    GuardedNeverPanics(steps, step);
  }

  lemma {:induction false} RunExtended(s: State, steps: seq<Step>, step: Step)
    requires CanRun(s, steps) && Enabled(Run(s, steps), step) && !Panics(Run(s, steps), step)
    ensures CanRun(s, steps + [step]) && Run(s, steps + [step]) == Apply(Run(s, steps), step)
    decreases |steps|
  {
    var more := steps + [step];
    if steps == [] {
      assert more == [step] && more[1..] == [];
      assert CanRun(Apply(s, step), []) && Run(Apply(s, step), []) == Apply(s, step);
    } else {
      RunExtended(Apply(s, steps[0]), steps[1..], step);
      assert more[0] == steps[0] && more[1..] == steps[1..] + [step];
    }
  }

  // ----- what a stop that times out costs

  predicate WithinLimit(s: State) {
    |s.relayers| <= s.maxWorkers && (s.phase.Unlocked? && !s.running ==> s.relayers == [])
  }

  lemma LimitKept(s: State, step: Step)
    requires CountInv(s) && WithinLimit(s) && Enabled(s, step) && !step.StopTimeout?
    requires s.phase.ClosingPipes? ==> s.relayers == []
    ensures WithinLimit(Apply(s, step))
  {
  }

  /** As long as no stop times out, no more relayers are alive than the last start asked for. */
  lemma {:induction false} WorkersWithinLimit(s: State, steps: seq<Step>)
    requires Inv(s) && WithinLimit(s) && CanRun(s, steps) && StopTimeout !in steps
    ensures |Run(s, steps).relayers| <= Run(s, steps).maxWorkers
    decreases |steps|
  {
    if steps != [] {
      StepKeeps(s, steps[0]);
      LimitKept(s, steps[0]);
      WorkersWithinLimit(Apply(s, steps[0]), steps[1..]);
    }
  }

  /** The relayers come to exceed the limit only by a start, and exactly when some are alive before it. */
  lemma LimitExceededIff(s: State, step: Step)
    requires |s.relayers| <= s.maxWorkers && Enabled(s, step)
    ensures var t := Apply(s, step); |t.relayers| > t.maxWorkers <==> step.Start? && s.relayers != []
  {
  }

  /** Whether the last stop timed out, given whether the one before the run did. */
  predicate LastStopTimedOut(steps: seq<Step>, before: bool) {
    if steps == [] then before
    else LastStopTimedOut(steps[1..], steps[0].StopTimeout? || (before && !steps[0].ClosePipes?))
  }

  predicate IdleUnless(s: State, timedOut: bool) {
    s.phase.Unlocked? && !s.running && !timedOut ==> s.relayers == []
  }

  lemma {:induction false} AliveOnlyAfterTimeout(s: State, steps: seq<Step>, timedOut: bool)
    requires Inv(s) && IdleUnless(s, timedOut) && CanRun(s, steps)
    ensures IdleUnless(Run(s, steps), LastStopTimedOut(steps, timedOut))
    decreases |steps|
  {
    if steps != [] {
      StepKeeps(s, steps[0]);
      AliveOnlyAfterTimeout(Apply(s, steps[0]), steps[1..], steps[0].StopTimeout? || (timedOut && !steps[0].ClosePipes?));
    }
  }

  /**
  Wherever the service can be started, the start exceeds its limit if and only if relayers are
  still alive, and none are when the last stop returned without a timeout.
  */
  lemma RestartExceedsIff(steps: seq<Step>, workers: int, channelCapacity: int)
    requires CanRun(INITIAL, steps) && Enabled(Run(INITIAL, steps), Start(workers, channelCapacity))
    ensures var s := Run(INITIAL, steps);
            var t := Apply(s, Start(workers, channelCapacity));
            (|t.relayers| > t.maxWorkers <==> s.relayers != []) &&
            (s.relayers != [] ==> LastStopTimedOut(steps, false))
  {
    AliveOnlyAfterTimeout(INITIAL, steps, false);
  }

  // ----- two runs with a stop that times out

  /** One relayer is alive after a stop that timed out, and the goroutine of that stop waits for it. */
  const TIMED_OUT := State(false, Unlocked, 1, [Generation(1, [], true, true)], [AtSelect], [], 1, [Waiting],
                           map[], {}, {}, 0, 0, Log(multiset{}, multiset{}, multiset{}))

  lemma ReachTimedOut() returns (steps: seq<Step>)
    ensures CanRun(INITIAL, steps) && StopTimeout in steps && Run(INITIAL, steps) == TIMED_OUT
  {
    steps := [];
    RunExtended(INITIAL, steps, Start(1, 1));
    steps := steps + [Start(1, 1)];
    assert Run(INITIAL, steps).relayers == [AtSelect];
    RunExtended(INITIAL, steps, CloseJobs);
    steps := steps + [CloseJobs];
    RunExtended(INITIAL, steps, CloseShutdown);
    steps := steps + [CloseShutdown];
    assert Run(INITIAL, steps).waiters == [Calling];
    RunExtended(INITIAL, steps, CallWait(0));
    steps := steps + [CallWait(0)];
    RunExtended(INITIAL, steps, StopTimeout);
    steps := steps + [StopTimeout];
  }

  /** A stop that times out lets the relayers of the first start join those of the second. */
  lemma TimedOutStopExceedsLimit() returns (steps: seq<Step>)
    ensures StopTimeout in steps && CanRun(INITIAL, steps)
    ensures |Run(INITIAL, steps).relayers| > Run(INITIAL, steps).maxWorkers
  {
    steps := ReachTimedOut();
    RunExtended(INITIAL, steps, Start(1, 1));
    steps := steps + [Start(1, 1)];
  }

  /** The last relayer has exited, so that the goroutine of the stop has been released from Wait. */
  const RELEASED := TIMED_OUT.(relayers := [], waitGroup := 0, waiters := [Released])

  lemma ReachReleased() returns (steps: seq<Step>)
    ensures CanRun(INITIAL, steps) && Run(INITIAL, steps) == RELEASED
  {
    steps := ReachTimedOut();
    RunExtended(INITIAL, steps, RelayerSelect(0));
    steps := steps + [RelayerSelect(0)];
    RunExtended(INITIAL, steps, RelayerExit(0));
    steps := steps + [RelayerExit(0)];
    assert Run(INITIAL, steps).waitGroup == 0 && Run(INITIAL, steps).waiters == [Waiting];
    RunExtended(INITIAL, steps, ReleaseWaiters);
    steps := steps + [ReleaseWaiters];
    assert Run(INITIAL, steps).waiters == [Released];
  }

  /**
  A stop times out; then the last relayer exits, which releases the goroutine of that stop; then
  the service is started again. When the goroutine wakes it finds the wait group in use and panics.
  */
  lemma RestartCanPanic() returns (steps: seq<Step>, step: Step)
    ensures CanRun(INITIAL, steps) && Enabled(Run(INITIAL, steps), step) && Panics(Run(INITIAL, steps), step)
  {
    var start := Start(1, 1);
    step := WakeWaiter(0);
    var released := ReachReleased();
    assert !Panics(RELEASED, start);
    RunExtended(INITIAL, released, start);
    steps := released + [start];
    ghost var s := Apply(RELEASED, start);
    assert s.waiters == [Released] && s.waitGroup == 1;
    assert WaiterIs(s, 0, Released);
  }

  /** The second stop waits for the relayers of both starts; the first one's goroutine waits too. */
  const SECOND_STOP := TIMED_OUT.(phase := AwaitingExit, gens := [Generation(1, [], true, true), Generation(1, [], true, true)],
                                  relayers := [AtSelect, AtSelect], waitGroup := 2, waiters := [Waiting, Waiting])

  lemma ReachSecondStop() returns (steps: seq<Step>)
    ensures CanRun(INITIAL, steps) && Run(INITIAL, steps) == SECOND_STOP
  {
    steps := ReachTimedOut();
    RunExtended(INITIAL, steps, Start(1, 1));
    steps := steps + [Start(1, 1)];
    assert Run(INITIAL, steps).relayers == [AtSelect, AtSelect];
    RunExtended(INITIAL, steps, CloseJobs);
    steps := steps + [CloseJobs];
    RunExtended(INITIAL, steps, CloseShutdown);
    steps := steps + [CloseShutdown];
    assert Run(INITIAL, steps).waiters == [Waiting, Calling];
    RunExtended(INITIAL, steps, CallWait(1));
    steps := steps + [CallWait(1)];
    assert Run(INITIAL, steps).waiters == [Waiting, Waiting];
  }

  /** Both goroutines have been released. */
  const BOTH_RELEASED := SECOND_STOP.(relayers := [], waitGroup := 0, waiters := [Released, Released])

  lemma ReachBothReleased() returns (steps: seq<Step>)
    ensures CanRun(INITIAL, steps) && Run(INITIAL, steps) == BOTH_RELEASED
  {
    steps := ReachSecondStop();
    RunExtended(INITIAL, steps, RelayerSelect(0));
    steps := steps + [RelayerSelect(0)];
    RunExtended(INITIAL, steps, RelayerExit(0));
    steps := steps + [RelayerExit(0)];
    assert Run(INITIAL, steps).relayers == [AtSelect];
    RunExtended(INITIAL, steps, RelayerSelect(0));
    steps := steps + [RelayerSelect(0)];
    RunExtended(INITIAL, steps, RelayerExit(0));
    steps := steps + [RelayerExit(0)];
    assert Run(INITIAL, steps).waiters == [Waiting, Waiting];
    RunExtended(INITIAL, steps, ReleaseWaiters);
    steps := steps + [ReleaseWaiters];
    assert Run(INITIAL, steps).waiters == [Released, Released];
  }

  /** Even after a stop that returned without a timeout, the wait of an earlier one may not be over. */
  lemma CleanStopIsNotEnough() returns (steps: seq<Step>)
    ensures CanRun(INITIAL, steps) && !LastStopTimedOut(steps, false)
    ensures Enabled(Run(INITIAL, steps), Start(1, 1)) && !WaitIsOver(Run(INITIAL, steps))
  {
    steps := ReachBothReleased();
    RunExtended(INITIAL, steps, WakeWaiter(1));
    steps := steps + [WakeWaiter(1)];
    assert Run(INITIAL, steps).waiters == [Released, Returned];
    RunExtended(INITIAL, steps, SeeZero);
    steps := steps + [SeeZero];
    RunExtended(INITIAL, steps, ClosePipes);
    LastStepDecides(steps, ClosePipes, false);
    steps := steps + [ClosePipes];
    assert Run(INITIAL, steps).waiters[0] == Released;
  }

  lemma {:induction false} LastStepDecides(steps: seq<Step>, step: Step, before: bool)
    requires step.ClosePipes?
    ensures !LastStopTimedOut(steps + [step], before)
    decreases |steps|
  {
    var more := steps + [step];
    if steps == [] {
      assert more[1..] == [];
    } else {
      assert more[1..] == steps[1..] + [step];
      LastStepDecides(steps[1..], step, steps[0].StopTimeout? || (before && !steps[0].ClosePipes?));
    }
  }
}
