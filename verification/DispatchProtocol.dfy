/**
The dispatch service as a transition system. A step is one region the program runs under a
lock, or one operation on a channel, so goroutines interleave between any two steps.

A call of start allocates one job channel and one shutdown channel, which together form a
generation. A goroutine that has evaluated its select statement waits on the channels of
the generation it then saw, even when a stop that timed out and a restart have replaced
them since.

Every stop leaves a goroutine in a call of Wait on the wait group. When the count reaches zero
the goroutines that wait are released, and each then checks that nobody uses the wait group
again before it returns. A panic ends the program, so no run goes on after one.
*/
module DispatchProtocol {
  import opened Wrappers

  type Id = nat
  const NIL_ID: Id := 0

  /** The identity of an outbound channel. */
  type Pipe = nat

  const DEFAULT_JOBS_LIMIT: nat := 100
  const DEFAULT_MAX_WORKERS: nat := 10

  datatype Job = Job(id: Id, data: int)

  datatype Generation = Generation(capacity: nat, queue: seq<Job>, jobsClosed: bool, shutdownClosed: bool)

  /** A relayer is about to evaluate its select, waits in it, or has taken a job off the queue. */
  datatype Relayer = AtSelect | Selecting(gen: nat) | Holding(job: Job)

  /** A sender goroutine carries one job to one pipe. */
  datatype Sender = Spawned(pipe: Pipe, job: Job) | Blocked(pipe: Pipe, job: Job, gen: nat)

  /** The goroutine that a stop starts is about to call Wait, is held there, has been released, or has returned. */
  datatype Waiter = Calling | Waiting | Released | Returned

  /** Where the call of stop that holds the write lock is, if there is one. */
  datatype Phase = Unlocked | JobsClosed | AwaitingExit | ClosingPipes

  /** History of the jobs: accepted by publish, relayed to a route, or found without a route. */
  datatype Log = Log(accepted: multiset<Job>, relayed: multiset<Job>, unroutable: multiset<Job>)

  datatype State = State(
    running: bool,
    phase: Phase,
    maxWorkers: nat,
    gens: seq<Generation>,
    relayers: seq<Relayer>,
    senders: seq<Sender>,
    waitGroup: int,
    waiters: seq<Waiter>,
    routes: map<Id, seq<Pipe>>,
    pool: set<Pipe>,
    closed: set<Pipe>,
    nextPipe: nat,
    subscriberCount: int,
    log: Log)

  const INITIAL := State(false, Unlocked, 0, [], [], [], 0, [], map[], {}, {}, 0, 0,
                         Log(multiset{}, multiset{}, multiset{}))

  datatype Step =
    | Start(workers: int, channelCapacity: int)
    | CloseJobs
    | CloseShutdown
    | StopTimeout
    | SeeZero
    | ClosePipes
    | RelayerSelect(i: nat)
    | Receive(i: nat)
    | ReceiveZero(i: nat)
    | RelayerExit(i: nat)
    | Relay(i: nat)
    | SenderSelect(i: nat)
    | Deliver(i: nat)
    | SenderExit(i: nat)
    | CallWait(i: nat)
    | ReleaseWaiters
    | WakeWaiter(i: nat)
    | Publish(job: Job)
    | Subscribe(id: Id, pipe: Pipe)
    | Unsubscribe(id: Id, k: nat, drained: Option<nat>)
    | NewId(id: Id)

  /** The moves of the goroutines that wait for the others. */
  predicate IsWaiterStep(step: Step) {
    step.CallWait? || step.ReleaseWaiters? || step.WakeWaiter?
  }

  /** The moves of goroutines, as opposed to those of callers. */
  predicate IsGoroutineStep(step: Step) {
    step.RelayerSelect? || step.Receive? || step.ReceiveZero? || step.RelayerExit? || step.Relay? ||
    step.SenderSelect? || step.Deliver? || step.SenderExit? || IsWaiterStep(step)
  }

  function Last(s: State): Generation
    requires |s.gens| > 0
  {
    s.gens[|s.gens| - 1]
  }

  predicate RelayerIs(s: State, i: nat, waiting: bool) {
    i < |s.relayers| &&
    (waiting ==> s.relayers[i].Selecting? && s.relayers[i].gen < |s.gens|)
  }

  predicate BlockedSender(s: State, i: nat) {
    i < |s.senders| && s.senders[i].Blocked? && s.senders[i].gen < |s.gens|
  }

  /** The non-blocking receive of unsubscribe succeeds exactly when some sender waits on the pipe. */
  predicate DrainMatches(s: State, pipe: Pipe, drained: Option<nat>) {
    match drained
    case Some(i) => BlockedSender(s, i) && s.senders[i].pipe == pipe
    case None => forall i :: 0 <= i < |s.senders| && s.senders[i].Blocked? ==> s.senders[i].pipe != pipe
  }

  predicate WaiterIs(s: State, i: nat, waiter: Waiter) {
    i < |s.waiters| && s.waiters[i] == waiter
  }

  /** The goroutine of the latest stop has returned from Wait. */
  predicate OwnWaiterReturned(s: State) {
    s.waiters != [] && s.waiters[|s.waiters| - 1].Returned?
  }

  /** The count has reached zero, and the call of Done that saw it has yet to release those who wait. */
  predicate WaitIsReleasing(s: State) {
    s.waitGroup == 0 && Waiting in s.waiters
  }

  predicate Enabled(s: State, step: Step) {
    match step
    case Start(_, _) => s.phase.Unlocked? && !s.running
    case CloseJobs => s.phase.Unlocked? && s.running && |s.gens| > 0
    case CloseShutdown => s.phase.JobsClosed? && |s.gens| > 0
    case StopTimeout => s.phase.AwaitingExit?
    case SeeZero => s.phase.AwaitingExit? && OwnWaiterReturned(s)
    case ClosePipes => s.phase.ClosingPipes?
    case RelayerSelect(i) => RelayerIs(s, i, false) && s.relayers[i].AtSelect? && |s.gens| > 0
    case Receive(i) => RelayerIs(s, i, true) && s.gens[s.relayers[i].gen].queue != []
    case ReceiveZero(i) =>
      RelayerIs(s, i, true) && s.gens[s.relayers[i].gen].queue == [] && s.gens[s.relayers[i].gen].jobsClosed
    case RelayerExit(i) => RelayerIs(s, i, true) && s.gens[s.relayers[i].gen].shutdownClosed
    case Relay(i) => RelayerIs(s, i, false) && s.relayers[i].Holding?
    case SenderSelect(i) => i < |s.senders| && s.senders[i].Spawned? && |s.gens| > 0
    case Deliver(i) => BlockedSender(s, i)
    case SenderExit(i) => BlockedSender(s, i) && s.gens[s.senders[i].gen].shutdownClosed
    case CallWait(i) => WaiterIs(s, i, Calling)
    case ReleaseWaiters => WaitIsReleasing(s)
    case WakeWaiter(i) => WaiterIs(s, i, Released)
    case Publish(job) =>
      s.phase.Unlocked? && s.running && job.id != NIL_ID && |s.gens| > 0 && |Last(s).queue| < Last(s).capacity
    case Subscribe(id, pipe) =>
      s.phase.Unlocked? && s.running && id != NIL_ID && id in s.routes && (pipe in s.pool || pipe == s.nextPipe)
    case Unsubscribe(id, k, drained) =>
      s.phase.Unlocked? && s.running && id != NIL_ID && id in s.routes && k < |s.routes[id]| &&
      s.routes[id][k] !in s.routes[id][..k] && DrainMatches(s, s.routes[id][k], drained)
    case NewId(id) => s.phase.Unlocked? && id !in s.routes
  }

  /** The moves the Go runtime answers with a panic. */
  predicate Panics(s: State, step: Step)
    requires Enabled(s, step)
  {
    match step
    case CloseJobs => Last(s).jobsClosed
    case CloseShutdown => Last(s).shutdownClosed
    case ClosePipes =>
      exists id, i, other, j ::
        id in s.routes && 0 <= i < |s.routes[id]| && other in s.routes && 0 <= j < |s.routes[other]| &&
        (s.routes[id][i] in s.closed || ((id != other || i != j) && s.routes[id][i] == s.routes[other][j]))
    case Publish(_) => Last(s).jobsClosed
    case Deliver(i) => s.senders[i].pipe in s.closed || s.waitGroup <= 0
    case RelayerExit(_) => s.waitGroup <= 0
    case SenderExit(_) => s.waitGroup <= 0
    case Unsubscribe(_, _, drained) => drained.Some? && s.waitGroup <= 0
    case Start(_, _) => WaitIsReleasing(s)
    case Relay(i) =>
      s.relayers[i].job.id in s.routes && s.routes[s.relayers[i].job.id] != [] && WaitIsReleasing(s)
    case WakeWaiter(_) => s.waitGroup != 0 || Waiting in s.waiters
    case _ => false
  }

  function Routed(routes: map<Id, seq<Pipe>>): set<Pipe> {
    set id, i | id in routes && 0 <= i < |routes[id]| :: routes[id][i]
  }

  function Fanout(pipes: seq<Pipe>, job: Job): seq<Sender> {
    seq(|pipes|, k requires 0 <= k < |pipes| => Spawned(pipes[k], job))
  }

  function DropSender(s: State, i: nat): State
    requires i < |s.senders|
  {
    s.(senders := RemoveAt(s.senders, i), waitGroup := s.waitGroup - 1)
  }

  function Started(s: State, n: nat, capacity: nat): State {
    s.(running := true, maxWorkers := n, gens := s.gens + [Generation(capacity, [], false, false)],
       relayers := s.relayers + seq(n, _ => AtSelect), waitGroup := s.waitGroup + n)
  }

  function ReleaseAll(waiters: seq<Waiter>): seq<Waiter> {
    seq(|waiters|, k requires 0 <= k < |waiters| => if waiters[k].Waiting? then Released else waiters[k])
  }

  function PipesClosed(s: State): State {
    s.(phase := Unlocked, routes := map id | id in s.routes :: [], closed := s.closed + Routed(s.routes))
  }

  function Relayed(s: State, i: nat, job: Job): State
    requires i < |s.relayers|
  {
    var t := s.(relayers := s.relayers[i := AtSelect]);
    if job.id !in s.routes then
      t.(log := s.log.(unroutable := s.log.unroutable + multiset{job}))
    else
      t.(senders := s.senders + Fanout(s.routes[job.id], job), waitGroup := s.waitGroup + |s.routes[job.id]|,
         log := s.log.(relayed := s.log.relayed + multiset{job}))
  }

  function Subscribed(s: State, id: Id, pipe: Pipe): State
    requires id in s.routes
  {
    s.(routes := s.routes[id := s.routes[id] + [pipe]], subscriberCount := s.subscriberCount + 1,
       pool := s.pool - {pipe}, nextPipe := if pipe == s.nextPipe then s.nextPipe + 1 else s.nextPipe)
  }

  /** Unsubscribing takes the pipe out of its route and pools it, unless it is closed. */
  function Unsubscribed(s: State, id: Id, k: nat, drained: Option<nat>): State
    requires id in s.routes && k < |s.routes[id]|
    requires drained.Some? ==> drained.value < |s.senders|
  {
    var pipe := s.routes[id][k];
    var t := s.(routes := s.routes[id := SwapRemove(s.routes[id], k)],
                subscriberCount := s.subscriberCount - 1,
                pool := if pipe in s.closed then s.pool else s.pool + {pipe});
    if drained.Some? then DropSender(t, drained.value) else t
  }

  function Apply(s: State, step: Step): State
    requires Enabled(s, step)
  {
    match step
    case Start(workers, channelCapacity) =>
      Started(s, if workers < 1 then DEFAULT_MAX_WORKERS else workers,
              if channelCapacity < 1 then DEFAULT_JOBS_LIMIT else channelCapacity)
    case CloseJobs =>
      s.(running := false, phase := JobsClosed, gens := s.gens[|s.gens| - 1 := Last(s).(jobsClosed := true)])
    case CloseShutdown =>
      s.(phase := AwaitingExit, gens := s.gens[|s.gens| - 1 := Last(s).(shutdownClosed := true)],
         waiters := s.waiters + [Calling])
    case StopTimeout => s.(phase := Unlocked)
    case SeeZero => s.(phase := ClosingPipes)
    case ClosePipes => PipesClosed(s)
    case RelayerSelect(i) => s.(relayers := s.relayers[i := Selecting(|s.gens| - 1)])
    case Receive(i) =>
      var g := s.relayers[i].gen;
      var job := s.gens[g].queue[0];
      s.(gens := s.gens[g := s.gens[g].(queue := s.gens[g].queue[1..])],
         relayers := s.relayers[i := if job.id == NIL_ID then AtSelect else Holding(job)])
    case ReceiveZero(i) => s.(relayers := s.relayers[i := AtSelect])
    case RelayerExit(i) => s.(relayers := RemoveAt(s.relayers, i), waitGroup := s.waitGroup - 1)
    case Relay(i) => Relayed(s, i, s.relayers[i].job)
    case SenderSelect(i) =>
      s.(senders := s.senders[i := Blocked(s.senders[i].pipe, s.senders[i].job, |s.gens| - 1)])
    case Deliver(i) => DropSender(s, i)
    case SenderExit(i) => DropSender(s, i)
    case CallWait(i) => s.(waiters := s.waiters[i := if s.waitGroup == 0 then Returned else Waiting])
    case ReleaseWaiters => s.(waiters := ReleaseAll(s.waiters))
    case WakeWaiter(i) => s.(waiters := s.waiters[i := Returned])
    case Publish(job) =>
      s.(gens := s.gens[|s.gens| - 1 := Last(s).(queue := Last(s).queue + [job])],
         log := s.log.(accepted := s.log.accepted + multiset{job}))
    case Subscribe(id, pipe) => Subscribed(s, id, pipe)
    case Unsubscribe(id, k, drained) => Unsubscribed(s, id, k, drained)
    case NewId(id) => s.(routes := s.routes[id := []])
  }

  /** The steps can be taken one after the other, and none of them panics. */
  predicate CanRun(s: State, steps: seq<Step>)
    decreases |steps|
  {
    steps == [] || (Enabled(s, steps[0]) && !Panics(s, steps[0]) && CanRun(Apply(s, steps[0]), steps[1..]))
  }

  function Run(s: State, steps: seq<Step>): State
    requires CanRun(s, steps)
    decreases |steps|
  {
    if steps == [] then s else Run(Apply(s, steps[0]), steps[1..])
  }
}
