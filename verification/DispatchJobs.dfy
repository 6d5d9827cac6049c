/** Accepted jobs are conserved, and a stop that has closed its channels always drains its goroutines. */
module DispatchJobs {
  import opened Wrappers
  import opened DispatchProtocol
  import opened DispatchSafety

  // ----- conservation, counted per job

  function Queued(gens: seq<Generation>, job: Job): nat {
    if gens == [] then 0 else multiset(gens[0].queue)[job] + Queued(gens[1..], job)
  }

  function HoldsOne(r: Relayer, job: Job): nat {
    if r == Holding(job) then 1 else 0
  }

  function Held(relayers: seq<Relayer>, job: Job): nat {
    if relayers == [] then 0 else HoldsOne(relayers[0], job) + Held(relayers[1..], job)
  }

  /** The accepted copies of a job are queued in some generation, held by a relayer, relayed, or found unroutable. */
  predicate Conserved(s: State, job: Job) {
    s.log.accepted[job]
    == Queued(s.gens, job) + Held(s.relayers, job) + s.log.relayed[job] + s.log.unroutable[job] &&
    (job.id == NIL_ID ==> s.log.accepted[job] == 0)
  }

  lemma {:induction false} QueuedUpdate(gens: seq<Generation>, g: nat, x: Generation, job: Job)
    requires g < |gens|
    ensures Queued(gens[g := x], job) == Queued(gens, job) - multiset(gens[g].queue)[job] + multiset(x.queue)[job]
  {
    if g > 0 {
      QueuedUpdate(gens[1..], g - 1, x, job);
      assert gens[g := x][1..] == gens[1..][g - 1 := x];
    } else {
      assert gens[g := x][1..] == gens[1..];
    }
  }

  lemma {:induction false} QueuedAppend(gens: seq<Generation>, x: Generation, job: Job)
    ensures Queued(gens + [x], job) == Queued(gens, job) + multiset(x.queue)[job]
  {
    if gens == [] {
      assert (gens + [x])[1..] == [];
    } else {
      QueuedAppend(gens[1..], x, job);
      assert (gens + [x])[1..] == gens[1..] + [x];
    }
  }

  lemma {:induction false} HeldUpdate(relayers: seq<Relayer>, i: nat, r: Relayer, job: Job)
    requires i < |relayers|
    ensures Held(relayers[i := r], job) == Held(relayers, job) - HoldsOne(relayers[i], job) + HoldsOne(r, job)
  {
    if i > 0 {
      HeldUpdate(relayers[1..], i - 1, r, job);
      assert relayers[i := r][1..] == relayers[1..][i - 1 := r];
    } else {
      assert relayers[i := r][1..] == relayers[1..];
    }
  }

  lemma {:induction false} HeldRemove(relayers: seq<Relayer>, i: nat, job: Job)
    requires i < |relayers|
    ensures Held(RemoveAt(relayers, i), job) == Held(relayers, job) - HoldsOne(relayers[i], job)
  {
    if i > 0 {
      HeldRemove(relayers[1..], i - 1, job);
      assert RemoveAt(relayers, i)[1..] == RemoveAt(relayers[1..], i - 1);
    } else {
      assert RemoveAt(relayers, i) == relayers[1..];
    }
  }

  lemma {:induction false} HeldStarted(relayers: seq<Relayer>, n: nat, job: Job)
    ensures Held(relayers + seq(n, _ => AtSelect), job) == Held(relayers, job)
  {
    if relayers != [] {
      HeldStarted(relayers[1..], n, job);
      assert (relayers + seq(n, _ => AtSelect))[1..] == relayers[1..] + seq(n, _ => AtSelect);
    } else if n > 0 {
      HeldStarted([], n - 1, job);
      assert (relayers + seq(n, _ => AtSelect))[1..] == [] + seq(n - 1, _ => AtSelect);
    }
  }

  lemma ReceiveConserves(s: State, i: nat, job: Job)
    requires Enabled(s, Receive(i)) && Conserved(s, job)
    ensures Conserved(Apply(s, Receive(i)), job)
  {
    var g := s.relayers[i].gen;
    var queue := s.gens[g].queue;
    QueuedUpdate(s.gens, g, s.gens[g].(queue := queue[1..]), job);
    QueuedUpdate(s.gens, g, s.gens[g].(queue := []), job);
    assert queue == [queue[0]] + queue[1..];
    HeldUpdate(s.relayers, i, if queue[0].id == NIL_ID then AtSelect else Holding(queue[0]), job);
  }

  lemma GoroutineConserves(s: State, step: Step, job: Job)
    requires Enabled(s, step) && IsGoroutineStep(step) && Conserved(s, job)
    ensures Conserved(Apply(s, step), job)
  {
    match step
    case RelayerSelect(i) => HeldUpdate(s.relayers, i, Selecting(|s.gens| - 1), job);
    case Receive(i) => ReceiveConserves(s, i, job);
    case ReceiveZero(i) => HeldUpdate(s.relayers, i, AtSelect, job);
    case RelayerExit(i) => HeldRemove(s.relayers, i, job);
    case Relay(i) => RelayConserves(s, i, job);
    case _ =>
  }

  lemma RelayConserves(s: State, i: nat, job: Job)
    requires Enabled(s, Relay(i)) && Conserved(s, job)
    ensures Conserved(Apply(s, Relay(i)), job)
  {
    HeldUpdate(s.relayers, i, AtSelect, job);
  }

  lemma CallerConserves(s: State, step: Step, job: Job)
    requires Enabled(s, step) && !IsGoroutineStep(step) && Conserved(s, job)
    ensures Conserved(Apply(s, step), job)
  {
    match step
    case Start(_, _) =>
      var t := Apply(s, step);
      QueuedAppend(s.gens, Last(t), job);
      HeldStarted(s.relayers, t.maxWorkers, job);
    case CloseJobs => QueuedUpdate(s.gens, |s.gens| - 1, Last(s).(jobsClosed := true), job);
    case CloseShutdown => QueuedUpdate(s.gens, |s.gens| - 1, Last(s).(shutdownClosed := true), job);
    case Publish(j) => QueuedUpdate(s.gens, |s.gens| - 1, Last(s).(queue := Last(s).queue + [j]), job);
    case _ =>
  }

  lemma StepConserves(s: State, step: Step, job: Job)
    requires Enabled(s, step) && Conserved(s, job)
    ensures Conserved(Apply(s, step), job)
  {
    if IsGoroutineStep(step) {
      GoroutineConserves(s, step, job);
    } else {
      CallerConserves(s, step, job);
    }
  }

  lemma {:induction false} RunConserves(s: State, steps: seq<Step>, job: Job)
    requires CanRun(s, steps) && Conserved(s, job)
    ensures Conserved(Run(s, steps), job)
    decreases |steps|
  {
    if steps != [] {
      StepConserves(s, steps[0], job);
      RunConserves(Apply(s, steps[0]), steps[1..], job);
    }
  }

  /** No run loses or duplicates an accepted job. */
  lemma JobsConserved(steps: seq<Step>)
    requires CanRun(INITIAL, steps)
    ensures forall job :: Conserved(Run(INITIAL, steps), job)
  {
    forall job ensures Conserved(Run(INITIAL, steps), job) {
      RunConserves(INITIAL, steps, job);
    }
  }

  // ----- who gets a job

  /** How many senders carry a job to a pipe. */
  function Carriers(senders: seq<Sender>, pipe: Pipe, job: Job): nat {
    if senders == [] then 0
    else (if senders[0].pipe == pipe && senders[0].job == job then 1 else 0) + Carriers(senders[1..], pipe, job)
  }

  lemma {:induction false} CarriersConcat(a: seq<Sender>, b: seq<Sender>, pipe: Pipe, job: Job)
    ensures Carriers(a + b, pipe, job) == Carriers(a, pipe, job) + Carriers(b, pipe, job)
  {
    if a == [] {
      assert a + b == b;
    } else {
      CarriersConcat(a[1..], b, pipe, job);
      assert (a + b)[1..] == a[1..] + b;
    }
  }

  lemma {:induction false} CarriersFanout(pipes: seq<Pipe>, relayed: Job, pipe: Pipe, job: Job)
    requires Distinct(pipes)
    ensures Carriers(Fanout(pipes, relayed), pipe, job) == if pipe in pipes && job == relayed then 1 else 0
  {
    if pipes != [] {
      CarriersFanout(pipes[1..], relayed, pipe, job);
      assert Fanout(pipes, relayed)[1..] == Fanout(pipes[1..], relayed);
      assert pipes == [pipes[0]] + pipes[1..];
    }
  }

  /** Relaying a job gives every pipe registered for its identifier exactly one more sender with it, and no other pipe any. */
  lemma RelayServesItsRoute(s: State, i: nat, pipe: Pipe, job: Job)
    requires Inv(s) && Enabled(s, Relay(i))
    ensures Carriers(Apply(s, Relay(i)).senders, pipe, job) - Carriers(s.senders, pipe, job)
         == if job == s.relayers[i].job && job.id in s.routes && pipe in s.routes[job.id] then 1 else 0
  {
    var relayed := s.relayers[i].job;
    if relayed.id in s.routes {
      var pipes := s.routes[relayed.id];
      assert Distinct(pipes);
      CarriersConcat(s.senders, Fanout(pipes, relayed), pipe, job);
      CarriersFanout(pipes, relayed, pipe, job);
    }
  }

  /** A sender that ends, by a delivery or at shutdown, is one fewer to carry its job to its pipe; the others stay. */
  lemma {:induction false} SenderRemoved(senders: seq<Sender>, i: nat, pipe: Pipe, job: Job)
    requires i < |senders|
    ensures Carriers(RemoveAt(senders, i), pipe, job)
         == Carriers(senders, pipe, job) - if senders[i].pipe == pipe && senders[i].job == job then 1 else 0
  {
    CarriersConcat(senders[..i], senders[i..], pipe, job);
    CarriersConcat(senders[..i], senders[i + 1..], pipe, job);
    assert senders == senders[..i] + senders[i..] && senders[i..][1..] == senders[i + 1..];
  }

  lemma DeliveryServesOne(s: State, step: Step, pipe: Pipe, job: Job)
    requires Enabled(s, step) && (step.Deliver? || step.SenderExit?)
    ensures Carriers(Apply(s, step).senders, pipe, job)
         == Carriers(s.senders, pipe, job) - if s.senders[step.i].pipe == pipe && s.senders[step.i].job == job then 1 else 0
  {
    SenderRemoved(s.senders, step.i, pipe, job);
  }

  // ----- the order of a queue

  /** The job that a step publishes to generation g. */
  function PublishedBy(s: State, step: Step, g: nat): seq<Job> {
    if step.Publish? && g == |s.gens| - 1 then [step.job] else []
  }

  /** The job that a relayer holds after a step that takes it from generation g. */
  function TakenBy(s: State, step: Step, g: nat): seq<Job>
    requires Enabled(s, step)
  {
    var t := Apply(s, step);
    if step.Receive? && s.relayers[step.i].gen == g && t.relayers[step.i].Holding? then [t.relayers[step.i].job] else []
  }

  /** The jobs that the run publishes to generation g, in order. */
  function PublishedTo(s: State, steps: seq<Step>, g: nat): seq<Job>
    requires CanRun(s, steps)
    decreases |steps|
  {
    if steps == [] then [] else PublishedBy(s, steps[0], g) + PublishedTo(Apply(s, steps[0]), steps[1..], g)
  }

  /** The jobs that relayers take from generation g, in order. */
  function TakenFrom(s: State, steps: seq<Step>, g: nat): seq<Job>
    requires CanRun(s, steps)
    decreases |steps|
  {
    if steps == [] then [] else TakenBy(s, steps[0], g) + TakenFrom(Apply(s, steps[0]), steps[1..], g)
  }

  function QueueOf(s: State, g: nat): seq<Job> {
    if g < |s.gens| then s.gens[g].queue else []
  }

  predicate AllNamed(s: State, g: nat) {
    forall job :: job in QueueOf(s, g) ==> job.id != NIL_ID
  }

  lemma QueueKept(s: State, step: Step, g: nat)
    requires Enabled(s, step) && !step.Publish? && !step.Receive?
    ensures QueueOf(Apply(s, step), g) == QueueOf(s, g)
  {
  }

  lemma QueueStep(s: State, step: Step, g: nat)
    requires Enabled(s, step) && AllNamed(s, g)
    ensures AllNamed(Apply(s, step), g)
    ensures QueueOf(s, g) + PublishedBy(s, step, g) == TakenBy(s, step, g) + QueueOf(Apply(s, step), g)
  {
    var t := Apply(s, step);
    if step.Publish? {
      assert t.gens[|s.gens| - 1].queue == Last(s).queue + [step.job];
    } else if step.Receive? {
      var h := s.relayers[step.i].gen;
      assert s.gens[h].queue == [s.gens[h].queue[0]] + s.gens[h].queue[1..];
      assert h == g ==> QueueOf(s, g)[0] in QueueOf(s, g);
    } else {
      QueueKept(s, step, g);
    }
  }

  lemma ChainQueues(q0: seq<Job>, p: seq<Job>, ps: seq<Job>, t: seq<Job>, ts: seq<Job>, q1: seq<Job>, q2: seq<Job>)
    requires q0 + p == t + q1 && q1 + ps == ts + q2
    ensures q0 + (p + ps) == (t + ts) + q2
  {
    assert q0 + (p + ps) == (q0 + p) + ps;
    assert (t + q1) + ps == t + (q1 + ps);
    assert t + (ts + q2) == (t + ts) + q2;
  }

  /** Every queue is first in, first out: what was published to it is what was taken, and then what is still queued. */
  lemma {:induction false} FirstInFirstOut(s: State, steps: seq<Step>, g: nat)
    requires CanRun(s, steps) && AllNamed(s, g)
    ensures QueueOf(s, g) + PublishedTo(s, steps, g) == TakenFrom(s, steps, g) + QueueOf(Run(s, steps), g)
    decreases |steps|
  {
    if steps != [] {
      var t := Apply(s, steps[0]);
      QueueStep(s, steps[0], g);
      FirstInFirstOut(t, steps[1..], g);
      ChainQueues(QueueOf(s, g), PublishedBy(s, steps[0], g), PublishedTo(t, steps[1..], g), TakenBy(s, steps[0], g),
                  TakenFrom(t, steps[1..], g), QueueOf(t, g), QueueOf(Run(s, steps), g));
    }
  }

  predicate SendersGenuine(s: State) {
    forall i :: 0 <= i < |s.senders| ==> s.senders[i].job in s.log.relayed
  }

  lemma GenuineKept(s: State, step: Step)
    requires SendersGenuine(s) && Enabled(s, step)
    ensures SendersGenuine(Apply(s, step))
  {
  }

  lemma {:induction false} RunGenuine(s: State, steps: seq<Step>)
    requires SendersGenuine(s) && CanRun(s, steps)
    ensures SendersGenuine(Run(s, steps))
    decreases |steps|
  {
    if steps != [] {
      GenuineKept(s, steps[0]);
      RunGenuine(Apply(s, steps[0]), steps[1..]);
    }
  }

  /** In every run a sender only carries a job that publish has accepted. */
  lemma NothingForged(steps: seq<Step>)
    requires CanRun(INITIAL, steps)
    ensures var s := Run(INITIAL, steps);
            forall i :: 0 <= i < |s.senders| ==> s.senders[i].job in s.log.accepted
  {
    var s := Run(INITIAL, steps);
    RunGenuine(INITIAL, steps);
    forall i | 0 <= i < |s.senders| ensures s.senders[i].job in s.log.accepted {
      RunConserves(INITIAL, steps, s.senders[i].job);
      assert s.log.relayed[s.senders[i].job] > 0;
    }
  }

  // ----- draining after the channels are closed

  /** What a job can still cost: a receive, a relay, and two moves for every sender it spawns. */
  function JobCost(job: Job, routes: map<Id, seq<Pipe>>): nat {
    3 + if job.id in routes then 2 * |routes[job.id]| else 0
  }

  function QueueCost(queue: seq<Job>, routes: map<Id, seq<Pipe>>): nat {
    if queue == [] then 0 else JobCost(queue[0], routes) + QueueCost(queue[1..], routes)
  }

  function GenCost(gens: seq<Generation>, routes: map<Id, seq<Pipe>>): nat {
    if gens == [] then 0 else QueueCost(gens[0].queue, routes) + GenCost(gens[1..], routes)
  }

  function MoveCost(r: Relayer, routes: map<Id, seq<Pipe>>): nat {
    match r
    case AtSelect => 2
    case Selecting(_) => 1
    case Holding(job) => JobCost(job, routes)
  }

  function RelayerCost(relayers: seq<Relayer>, routes: map<Id, seq<Pipe>>): nat {
    if relayers == [] then 0 else MoveCost(relayers[0], routes) + RelayerCost(relayers[1..], routes)
  }

  function SenderCost(senders: seq<Sender>): nat {
    if senders == [] then 0 else (if senders[0].Spawned? then 2 else 1) + SenderCost(senders[1..])
  }

  function WaiterCost(waiters: seq<Waiter>): nat {
    if waiters == [] then 0
    else
      (match waiters[0] case Calling => 3 case Waiting => 2 case Released => 1 case Returned => 0) +
      WaiterCost(waiters[1..])
  }

  /** An upper bound on the moves left once stop has closed its channels, zero jobs not counted. */
  function Potential(s: State): nat {
    GenCost(s.gens, s.routes) + RelayerCost(s.relayers, s.routes) + SenderCost(s.senders) + WaiterCost(s.waiters)
  }

  lemma {:induction false} GenCostUpdate(gens: seq<Generation>, g: nat, x: Generation, routes: map<Id, seq<Pipe>>)
    requires g < |gens|
    ensures GenCost(gens[g := x], routes)
            == GenCost(gens, routes) - QueueCost(gens[g].queue, routes) + QueueCost(x.queue, routes)
  {
    if g > 0 {
      GenCostUpdate(gens[1..], g - 1, x, routes);
      assert gens[g := x][1..] == gens[1..][g - 1 := x];
    } else {
      assert gens[g := x][1..] == gens[1..];
    }
  }

  lemma {:induction false} RelayerCostUpdate(relayers: seq<Relayer>, i: nat, r: Relayer, routes: map<Id, seq<Pipe>>)
    requires i < |relayers|
    ensures RelayerCost(relayers[i := r], routes)
            == RelayerCost(relayers, routes) - MoveCost(relayers[i], routes) + MoveCost(r, routes)
  {
    if i > 0 {
      RelayerCostUpdate(relayers[1..], i - 1, r, routes);
      assert relayers[i := r][1..] == relayers[1..][i - 1 := r];
    } else {
      assert relayers[i := r][1..] == relayers[1..];
    }
  }

  lemma {:induction false} RelayerCostRemove(relayers: seq<Relayer>, i: nat, routes: map<Id, seq<Pipe>>)
    requires i < |relayers|
    ensures RelayerCost(RemoveAt(relayers, i), routes)
            == RelayerCost(relayers, routes) - MoveCost(relayers[i], routes)
  {
    if i > 0 {
      RelayerCostRemove(relayers[1..], i - 1, routes);
      assert RemoveAt(relayers, i)[1..] == RemoveAt(relayers[1..], i - 1);
    } else {
      assert RemoveAt(relayers, i) == relayers[1..];
    }
  }

  lemma {:induction false} SenderCostRemove(senders: seq<Sender>, i: nat)
    requires i < |senders| && senders[i].Blocked?
    ensures SenderCost(RemoveAt(senders, i)) == SenderCost(senders) - 1
  {
    if i > 0 {
      SenderCostRemove(senders[1..], i - 1);
      assert RemoveAt(senders, i)[1..] == RemoveAt(senders[1..], i - 1);
    } else {
      assert RemoveAt(senders, i) == senders[1..];
    }
  }

  lemma {:induction false} SenderCostSelect(senders: seq<Sender>, i: nat, b: Sender)
    requires i < |senders| && senders[i].Spawned? && b.Blocked?
    ensures SenderCost(senders[i := b]) == SenderCost(senders) - 1
  {
    if i > 0 {
      SenderCostSelect(senders[1..], i - 1, b);
      assert senders[i := b][1..] == senders[1..][i - 1 := b];
    } else {
      assert senders[i := b][1..] == senders[1..];
    }
  }

  lemma {:induction false} SenderCostFanout(senders: seq<Sender>, pipes: seq<Pipe>, job: Job)
    ensures SenderCost(senders + Fanout(pipes, job)) == SenderCost(senders) + 2 * |pipes|
  {
    if senders != [] {
      SenderCostFanout(senders[1..], pipes, job);
      assert (senders + Fanout(pipes, job))[1..] == senders[1..] + Fanout(pipes, job);
    } else if pipes != [] {
      SenderCostFanout([], pipes[1..], job);
      assert (senders + Fanout(pipes, job))[1..] == [] + Fanout(pipes[1..], job);
    }
  }

  lemma {:induction false} WaiterCostUpdate(waiters: seq<Waiter>, i: nat, w: Waiter)
    requires i < |waiters|
    ensures WaiterCost(waiters[i := w]) == WaiterCost(waiters) - WaiterCost([waiters[i]]) + WaiterCost([w])
  {
    if i > 0 {
      WaiterCostUpdate(waiters[1..], i - 1, w);
      assert waiters[i := w][1..] == waiters[1..][i - 1 := w];
    } else {
      assert waiters[i := w][1..] == waiters[1..] && [w][1..] == [] && [waiters[i]][1..] == [];
    }
  }

  lemma {:induction false} WaiterCostRelease(waiters: seq<Waiter>)
    ensures WaiterCost(ReleaseAll(waiters)) <= WaiterCost(waiters)
    ensures Waiting in waiters ==> WaiterCost(ReleaseAll(waiters)) < WaiterCost(waiters)
  {
    if waiters != [] {
      WaiterCostRelease(waiters[1..]);
      assert ReleaseAll(waiters)[1..] == ReleaseAll(waiters[1..]);
    }
  }

  /** While stop waits, callers are locked out: only goroutines move, or stop itself ends the wait. */
  lemma OnlyGoroutinesMove(s: State, step: Step)
    requires s.phase.AwaitingExit? && Enabled(s, step)
    ensures IsGoroutineStep(step) || step.StopTimeout? || step.SeeZero?
    ensures IsGoroutineStep(step) ==>
              Apply(s, step).phase.AwaitingExit? && Apply(s, step).routes == s.routes
  {
  }

  lemma ReceiveLowers(s: State, i: nat)
    requires Enabled(s, Receive(i))
    ensures Potential(Apply(s, Receive(i))) < Potential(s)
  {
    var g := s.relayers[i].gen;
    var job := s.gens[g].queue[0];
    GenCostUpdate(s.gens, g, s.gens[g].(queue := s.gens[g].queue[1..]), s.routes);
    GenCostUpdate(s.gens, g, s.gens[g].(queue := []), s.routes);
    RelayerCostUpdate(s.relayers, i, if job.id == NIL_ID then AtSelect else Holding(job), s.routes);
  }

  lemma RelayLowers(s: State, i: nat)
    requires Enabled(s, Relay(i))
    ensures Potential(Apply(s, Relay(i))) < Potential(s)
  {
    RelayerCostUpdate(s.relayers, i, AtSelect, s.routes);
    if s.relayers[i].job.id in s.routes {
      SenderCostFanout(s.senders, s.routes[s.relayers[i].job.id], s.relayers[i].job);
    }
  }

  lemma WaiterLowers(s: State, step: Step)
    requires Enabled(s, step) && IsWaiterStep(step)
    ensures Potential(Apply(s, step)) < Potential(s)
  {
    match step
    case CallWait(i) => WaiterCostUpdate(s.waiters, i, Apply(s, step).waiters[i]);
    case ReleaseWaiters => WaiterCostRelease(s.waiters);
    case WakeWaiter(i) => WaiterCostUpdate(s.waiters, i, Returned);
  }

  /** Reading a zero job costs one move more; every other goroutine move lowers the potential. */
  lemma PotentialLowers(s: State, step: Step)
    requires Enabled(s, step) && IsGoroutineStep(step)
    ensures step.ReceiveZero? ==> Potential(Apply(s, step)) == Potential(s) + 1
    ensures !step.ReceiveZero? ==> Potential(Apply(s, step)) < Potential(s)
  {
    match step
    case RelayerSelect(i) => RelayerCostUpdate(s.relayers, i, Selecting(|s.gens| - 1), s.routes);
    case Receive(i) => ReceiveLowers(s, i);
    case ReceiveZero(i) => RelayerCostUpdate(s.relayers, i, AtSelect, s.routes);
    case RelayerExit(i) => RelayerCostRemove(s.relayers, i, s.routes);
    case Relay(i) => RelayLowers(s, i);
    case SenderSelect(i) => SenderCostSelect(s.senders, i, Apply(s, step).senders[i]);
    case Deliver(i) => SenderCostRemove(s.senders, i);
    case SenderExit(i) => SenderCostRemove(s.senders, i);
    case _ => WaiterLowers(s, step);
  }

  function ZeroReads(steps: seq<Step>): nat {
    if steps == [] then 0 else (if steps[0].ReceiveZero? then 1 else 0) + ZeroReads(steps[1..])
  }

  predicate AllGoroutine(steps: seq<Step>) {
    forall i :: 0 <= i < |steps| ==> IsGoroutineStep(steps[i])
  }

  /** However goroutines are scheduled, they make boundedly many moves besides reading zero jobs. */
  lemma {:induction false} DrainBounded(s: State, steps: seq<Step>)
    requires CanRun(s, steps) && AllGoroutine(steps)
    ensures |steps| <= Potential(s) + 2 * ZeroReads(steps)
    decreases |steps|
  {
    if steps != [] {
      PotentialLowers(s, steps[0]);
      DrainBounded(Apply(s, steps[0]), steps[1..]);
    }
  }

  /** The move with which a goroutine comes closer to its exit. */
  function RelayerMove(s: State, i: nat): Step
    requires i < |s.relayers|
  {
    match s.relayers[i]
    case AtSelect => RelayerSelect(i)
    case Selecting(_) => RelayerExit(i)
    case Holding(_) => Relay(i)
  }

  function SenderMove(s: State, i: nat): Step
    requires i < |s.senders|
  {
    if s.senders[i].Spawned? then SenderSelect(i) else SenderExit(i)
  }

  /** What brings a goroutine that waits for the others closer to its return. */
  function WaiterMove(s: State, i: nat): Step
    requires i < |s.waiters|
  {
    match s.waiters[i]
    case Calling => CallWait(i)
    case Waiting => ReleaseWaiters
    case Released => WakeWaiter(i)
    case Returned => SeeZero
  }

  /** While stop waits no relayer or sender is stuck, and once they are gone no waiting goroutine is. */
  lemma NoGoroutineStuck(s: State)
    requires Inv(s) && s.phase.AwaitingExit?
    ensures forall i :: 0 <= i < |s.relayers| ==> Enabled(s, RelayerMove(s, i))
    ensures forall i :: 0 <= i < |s.senders| ==> Enabled(s, SenderMove(s, i))
    ensures s.relayers == [] && s.senders == [] ==>
              forall i :: 0 <= i < |s.waiters| && !s.waiters[i].Returned? ==> Enabled(s, WaiterMove(s, i))
  {
    forall i | 0 <= i < |s.relayers| ensures Enabled(s, RelayerMove(s, i)) {
      var r := s.relayers[i];
      assert r.Selecting? ==> Shut(s.gens[r.gen]);
    }
    forall i | 0 <= i < |s.senders| ensures Enabled(s, SenderMove(s, i)) {
      var b := s.senders[i];
      assert b.Blocked? ==> Shut(s.gens[b.gen]);
    }
  }

  /** The next move of the draining schedule, which does not panic. */
  function DrainMove(s: State): Step
    requires s.relayers != [] || s.senders != [] || s.waiters != []
  {
    if s.relayers != [] then RelayerMove(s, 0)
    else if s.senders != [] then SenderMove(s, 0)
    else if WaitIsReleasing(s) then ReleaseWaiters
    else WaiterMove(s, |s.waiters| - 1)
  }

  lemma DrainMoveWorks(s: State)
    requires Inv(s) && s.phase.AwaitingExit? && !Enabled(s, SeeZero)
    ensures Enabled(s, DrainMove(s)) && IsGoroutineStep(DrainMove(s)) && !Panics(s, DrainMove(s))
  {
    NoGoroutineStuck(s);
    OnlyReusePanics(s, DrainMove(s));
  }

  /** From every reachable waiting stop there is a schedule, without deliveries, that ends the wait. */
  lemma {:induction false} CanDrain(s: State) returns (steps: seq<Step>)
    requires Inv(s) && s.phase.AwaitingExit?
    ensures CanRun(s, steps) && AllGoroutine(steps) && |steps| <= Potential(s)
    ensures var t := Run(s, steps); t.relayers == [] && t.senders == [] && Enabled(t, SeeZero)
    decreases Potential(s)
  {
    if Enabled(s, SeeZero) {
      steps := [];
    } else {
      var step := DrainMove(s);
      DrainMoveWorks(s);
      PotentialLowers(s, step);
      StepKeeps(s, step);
      OnlyGoroutinesMove(s, step);
      var rest := CanDrain(Apply(s, step));
      steps := [step] + rest;
      assert steps[1..] == rest;
    }
  }

  // ----- from the queue to the subscribers

  /** A goroutine that evaluates its select waits on the channels of the newest generation. */
  lemma WaitsOnNewest(s: State, i: nat)
    ensures Enabled(s, RelayerSelect(i)) ==> Apply(s, RelayerSelect(i)).relayers[i] == Selecting(|s.gens| - 1)
    ensures Enabled(s, SenderSelect(i)) ==>
              Apply(s, SenderSelect(i)).senders[i] == Blocked(s.senders[i].pipe, s.senders[i].job, |s.gens| - 1)
  {
  }

  lemma HeadIsTaken(s: State, i: nat)
    requires Inv(s) && s.running && i < |s.relayers| && s.relayers[i] == AtSelect
    requires Last(s).queue != [] && Last(s).queue[0].id != NIL_ID
    ensures var steps := [] + [RelayerSelect(i)] + [Receive(i)];
            CanRun(s, steps) && Inv(Run(s, steps)) && i < |Run(s, steps).relayers| &&
            Run(s, steps).relayers[i] == Holding(Last(s).queue[0]) && Run(s, steps).routes == s.routes &&
            Run(s, steps).senders == s.senders
  {
    var first, second := RelayerSelect(i), Receive(i);
    assert CanRun(s, []) && Run(s, []) == s;
    RunExtended(s, [], first);
    RunExtended(s, [] + [first], second);
    StepKeeps(s, first);
    StepKeeps(Apply(s, first), second);
  }

  /** While the service runs, an idle relayer can take the job at the head of the queue and hand it to every subscriber. */
  lemma HeadIsServed(s: State, i: nat, pipe: Pipe)
    requires Inv(s) && s.running && i < |s.relayers| && s.relayers[i] == AtSelect && Last(s).queue != []
    requires var job := Last(s).queue[0]; job.id != NIL_ID && job.id in s.routes && pipe in s.routes[job.id]
    ensures var job, steps := Last(s).queue[0], [] + [RelayerSelect(i)] + [Receive(i)] + [Relay(i)];
            CanRun(s, steps) && Carriers(Run(s, steps).senders, pipe, job) == Carriers(s.senders, pipe, job) + 1
  {
    var steps := [] + [RelayerSelect(i)] + [Receive(i)];
    HeadIsTaken(s, i);
    var u := Run(s, steps);
    OnlyReusePanics(u, Relay(i));
    RelayServesItsRoute(u, i, pipe, Last(s).queue[0]);
    RunExtended(s, steps, Relay(i));
  }
}
