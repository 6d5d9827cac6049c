/** The dispatcher object and its multiplexer, each method refining steps of the protocol. */
module Dispatcher {
  import opened Wrappers
  import opened DispatchProtocol
  import opened DispatchSafety

  datatype Error =
    | AlreadyRunning
    | NotRunning
    | ShutdownTimedOut
    | IdNotSet
    | NoData
    | NoIds
    | JobsAtLimit
    | RouteNotFound
    | ChannelNotFound
    | ChannelIsNil
    | Collision
    | Generator

  /** What publish answers, and the state it leaves. */
  function PublishOutcome(s: State, id: Id, data: Option<int>): (Outcome<Error>, State) {
    if id == NIL_ID then (Fail(IdNotSet), s)
    else if data.None? then (Fail(NoData), s)
    else if !s.running then (Pass, s)
    else if Enabled(s, Publish(Job(id, data.value))) then (Pass, Apply(s, Publish(Job(id, data.value))))
    else (Fail(JobsAtLimit), s)
  }

  /** What Mux.Publish answers: nothing is sent when no pipe is counted, else the first error ends the loop. */
  function PublishAll(s: State, ids: seq<Id>, data: Option<int>): (Outcome<Error>, State)
    decreases |ids|
  {
    if ids == [] then (Pass, s)
    else
      var (outcome, t) := PublishOutcome(s, ids[0], data);
      if outcome.Fail? then (outcome, t) else PublishAll(t, ids[1..], data)
  }

  /** A start runs ten workers over a queue of a hundred, unless told otherwise, beside those still alive. */
  lemma StartRuns(s: State, workers: int, channelCapacity: int)
    requires Enabled(s, Start(workers, channelCapacity))
    ensures var t := Apply(s, Start(workers, channelCapacity));
            t.running && t.maxWorkers == (if workers < 1 then 10 else workers) &&
            t.gens == s.gens + [Generation(if channelCapacity < 1 then 100 else channelCapacity, [], false, false)] &&
            t.relayers == s.relayers + seq(t.maxWorkers, _ => AtSelect) && t.waitGroup == s.waitGroup + t.maxWorkers &&
            t.senders == s.senders && t.routes == s.routes && t.pool == s.pool && t.closed == s.closed
  {
  }

  /** A stop ends the service, closes the newest generation with its queue as it is, and leaves a goroutine to wait. */
  lemma StopCloses(s: State)
    requires Enabled(s, CloseJobs)
    ensures var t := Apply(s, CloseJobs);
            Enabled(t, CloseShutdown) &&
            var u := Apply(t, CloseShutdown);
            !u.running && u.gens == s.gens[|s.gens| - 1 := Last(s).(jobsClosed := true, shutdownClosed := true)] &&
            u.waiters == s.waiters + [Calling] && u.relayers == s.relayers && u.senders == s.senders &&
            u.routes == s.routes && u.pool == s.pool && u.closed == s.closed
  {
  }

  /** The service runs and its newest queue has room for n more jobs. */
  predicate HasRoom(s: State, n: nat) {
    s.phase.Unlocked? && s.running && |s.gens| > 0 && |Last(s).queue| + n <= Last(s).capacity
  }

  /** The state with jobs at the end of the newest queue and recorded as accepted, and all else as it was. */
  function Queueing(s: State, jobs: seq<Job>): State
    requires |s.gens| > 0
  {
    s.(gens := s.gens[..|s.gens| - 1] + [Last(s).(queue := Last(s).queue + jobs)],
       log := s.log.(accepted := s.log.accepted + multiset(jobs)))
  }

  /** While the service runs, a publish with identifier and data queues its job last, or finds the queue full. */
  lemma PublishQueues(s: State, id: Id, data: int)
    requires s.phase.Unlocked? && s.running && |s.gens| > 0 && id != 0
    ensures HasRoom(s, 1) ==> PublishOutcome(s, id, Some(data)) == (Pass, Queueing(s, [Job(id, data)]))
    ensures !HasRoom(s, 1) ==> PublishOutcome(s, id, Some(data)) == (Fail(JobsAtLimit), s)
  {
    var last := Last(s).(queue := Last(s).queue + [Job(id, data)]);
    assert s.gens[|s.gens| - 1 := last] == s.gens[..|s.gens| - 1] + [last];
  }

  function JobsFor(ids: seq<Id>, data: int): seq<Job> {
    seq(|ids|, k requires 0 <= k < |ids| => Job(ids[k], data))
  }

  lemma QueueingTwice(s: State, a: seq<Job>, b: seq<Job>)
    requires |s.gens| > 0
    ensures Queueing(Queueing(s, a), b) == Queueing(s, a + b)
  {
    var t := Queueing(s, a);
    assert t.gens[..|t.gens| - 1] == s.gens[..|s.gens| - 1];
    assert Last(s).queue + a + b == Last(s).queue + (a + b);
    assert multiset(a + b) == multiset(a) + multiset(b);
  }

  /** With room for all of them, publishing to several identifiers queues one job for each, in their order. */
  lemma {:induction false} PublishAllQueues(s: State, ids: seq<Id>, data: int)
    requires HasRoom(s, |ids|) && forall k :: 0 <= k < |ids| ==> ids[k] != 0
    ensures PublishAll(s, ids, Some(data)) == (Pass, Queueing(s, JobsFor(ids, data)))
    decreases |ids|
  {
    if ids == [] {
      assert JobsFor(ids, data) == [] && Last(s).queue + [] == Last(s).queue;
      assert s.gens[..|s.gens| - 1] + [Last(s)] == s.gens;
      assert s.log.accepted + multiset([]) == s.log.accepted;
    } else {
      PublishQueues(s, ids[0], data);
      var t := Queueing(s, [Job(ids[0], data)]);
      PublishAllQueues(t, ids[1..], data);
      QueueingTwice(s, [Job(ids[0], data)], JobsFor(ids[1..], data));
      assert [Job(ids[0], data)] + JobsFor(ids[1..], data) == JobsFor(ids, data);
    }
  }

  /** Publishing to several identifiers ends with the first error, and keeps what was queued before it. */
  lemma {:induction false} PublishAllStops(s: State, ids: seq<Id>, data: Option<int>, n: nat)
    requires n < |ids| && PublishAll(s, ids[..n], data).0 == Pass
    requires PublishOutcome(PublishAll(s, ids[..n], data).1, ids[n], data).0.Fail?
    ensures PublishAll(s, ids, data) == PublishOutcome(PublishAll(s, ids[..n], data).1, ids[n], data)
    decreases n
  {
    if n > 0 {
      assert ids[..n][0] == ids[0] && ids[..n][1..] == ids[1..][..n - 1];
      PublishAllStops(PublishOutcome(s, ids[0], data).1, ids[1..], data, n - 1);
    }
  }

  /** The pipes of some of the routes. */
  ghost function PipesOf(routes: map<Id, seq<Pipe>>, ids: set<Id>): set<Pipe> {
    set id, i | id in routes && id in ids && 0 <= i < |routes[id]| :: routes[id][i]
  }

  lemma PipesOfUnion(routes: map<Id, seq<Pipe>>, ids: set<Id>, id: Id)
    ensures PipesOf(routes, ids + {id}) == PipesOf(routes, ids) + PipesOf(routes, {id})
  {
  }

  /** While stop closes routes one by one, the pipes of the routes still to come are open. */
  lemma NotYetClosed(s: State, done: set<Id>, id: Id)
    requires PipeInv(s) && id in s.routes && id !in done
    ensures Distinct(s.routes[id])
    ensures forall k :: 0 <= k < |s.routes[id]| ==> s.routes[id][k] !in s.closed + PipesOf(s.routes, done)
  {
    RoutedMember(s.routes);
  }

  class Dispatcher {
    var running: bool
    var phase: Phase
    var maxWorkers: nat
    var gens: seq<Generation>
    var relayers: seq<Relayer>
    var senders: seq<Sender>
    var waitGroup: int
    var waiters: seq<Waiter>
    var routes: map<Id, seq<Pipe>>
    var pool: set<Pipe>
    var closed: set<Pipe>
    var nextPipe: nat
    var subscriberCount: int
    ghost var log: Log

    ghost function View(): State
      reads this
    {
      State(running, phase, maxWorkers, gens, relayers, senders, waitGroup, waiters, routes, pool, closed, nextPipe,
            subscriberCount, log)
    }

    ghost predicate Valid()
      reads this
    {
      Inv(View())
    }

    constructor ()
      ensures View() == INITIAL && Valid()
    {
      running, phase, maxWorkers, gens, relayers, senders := false, Unlocked, 0, [], [], [];
      waitGroup, waiters := 0, [];
      routes, pool, closed, nextPipe, subscriberCount := map[], {}, {}, 0, 0;
      log := Log(multiset{}, multiset{}, multiset{});
    }

    /** Starts the relayers. Using the wait group again while a Wait is about to be released would panic. */
    method StartWorkers(workers: int, channelCapacity: int) returns (r: Outcome<Error>)
      requires Valid() && phase.Unlocked?
      requires running || !WaitIsReleasing(View())
      modifies this
      ensures Valid()
      ensures r == if old(running) then Fail(AlreadyRunning) else Pass
      ensures View() == if old(running) then old(View()) else Apply(old(View()), Start(workers, channelCapacity))
    {
      ghost var before := View();
      if running {
        return Fail(AlreadyRunning);
      }
      running := true;
      var n := if workers < 1 then DEFAULT_MAX_WORKERS else workers;
      var cap := if channelCapacity < 1 then DEFAULT_JOBS_LIMIT else channelCapacity;
      gens := gens + [Generation(cap, [], false, false)];
      maxWorkers := n;
      for k := 0 to n
        invariant relayers == before.relayers + seq(k, _ => AtSelect)
        invariant waitGroup == before.waitGroup + k
        invariant View() == before.(running := true, maxWorkers := n,
                                    gens := before.gens + [Generation(cap, [], false, false)],
                                    relayers := relayers, waitGroup := waitGroup)
      {
        waitGroup := waitGroup + 1;
        relayers := relayers + [AtSelect];
      }
      assert View() == Apply(before, Start(workers, channelCapacity));
      StepKeeps(before, Start(workers, channelCapacity));
      return Pass;
    }

    /** The first half of stop, up to its wait; the write lock stays held when it succeeds. */
    method BeginStop() returns (r: Outcome<Error>)
      requires Valid() && phase.Unlocked?
      modifies this
      ensures Valid()
      ensures r == if old(running) then Pass else Fail(NotRunning)
      ensures if old(running)
              then Enabled(Apply(old(View()), CloseJobs), CloseShutdown) &&
                   View() == Apply(Apply(old(View()), CloseJobs), CloseShutdown)
              else View() == old(View())
    {
      ghost var before := View();
      if !running {
        return Fail(NotRunning);
      }
      StepKeeps(before, CloseJobs);
      StepKeeps(Apply(before, CloseJobs), CloseShutdown);
      running := false;
      var last := gens[|gens| - 1];
      assert !last.jobsClosed;
      gens, phase := gens[|gens| - 1 := last.(jobsClosed := true)], JobsClosed;
      last := gens[|gens| - 1];
      assert !last.shutdownClosed;
      gens, phase := gens[|gens| - 1 := last.(shutdownClosed := true)], AwaitingExit;
      waiters := waiters + [Calling];
      return Pass;
    }

    /** Closes the pipes of one route, none of which may be closed already. */
    method CloseRoute(id: Id)
      requires id in routes && Distinct(routes[id])
      requires forall k :: 0 <= k < |routes[id]| ==> routes[id][k] !in closed
      modifies this
      ensures View() == old(View()).(routes := old(routes)[id := []],
                                     closed := old(closed) + PipesOf(old(routes), {id}))
    {
      var pipes := routes[id];
      ghost var before := View();
      for i := 0 to |pipes|
        invariant forall p :: p in closed <==> p in before.closed || p in pipes[..i]
        invariant View() == before.(closed := closed)
      {
        assert pipes[i] !in closed;  // closing it a second time would panic
        closed := closed + {pipes[i]};
        assert pipes[..i + 1] == pipes[..i] + [pipes[i]];
      }
      routes := routes[id := []];
      assert pipes[..|pipes|] == pipes;
    }

    /** Closes the pipes of every route, in any order of the routes. */
    method CloseRoutes()
      requires PipeInv(View())
      modifies this
      ensures View() == PipesClosed(old(View()))
    {
      ghost var before := View();
      var left := routes.Keys;
      while left != {}
        invariant left <= before.routes.Keys
        invariant routes.Keys == before.routes.Keys
        invariant forall id :: id in routes ==> routes[id] == if id in left then before.routes[id] else []
        invariant View() == before.(routes := routes,
                                    closed := before.closed + PipesOf(before.routes, before.routes.Keys - left))
        decreases left
      {
        var id :| id in left;
        ghost var done := before.routes.Keys - left;
        NotYetClosed(before, done, id);
        assert PipesOf(routes, {id}) == PipesOf(before.routes, {id});
        CloseRoute(id);
        left := left - {id};
        assert before.routes.Keys - left == done + {id};
        PipesOfUnion(before.routes, done, id);
      }
      phase := Unlocked;
      assert PipesOf(before.routes, before.routes.Keys - left) == Routed(before.routes);
    }

    /** The second half of stop: give up after the timeout, or close every routed pipe. */
    method EndStop(timedOut: bool) returns (r: Outcome<Error>)
      requires Valid() && phase.AwaitingExit?
      requires !timedOut ==> OwnWaiterReturned(View())
      modifies this
      ensures Valid()
      ensures r == if timedOut then Fail(ShutdownTimedOut) else Pass
      ensures timedOut ==> View() == Apply(old(View()), StopTimeout)
      ensures !timedOut ==> View() == Apply(Apply(old(View()), SeeZero), ClosePipes)
      ensures closed == (if timedOut then old(closed) else old(closed) + Routed(old(routes)))
      ensures routes.Keys == old(routes).Keys && forall id :: id in routes ==> routes[id] == if timedOut then old(routes)[id] else []
    {
      ghost var before := View();
      if timedOut {
        phase := Unlocked;
        StepKeeps(before, StopTimeout);
        return Fail(ShutdownTimedOut);
      }
      StepKeeps(before, SeeZero);
      StepKeeps(Apply(before, SeeZero), ClosePipes);
      phase := ClosingPipes;
      CloseRoutes();
      return Pass;
    }

    method PublishJob(id: Id, data: Option<int>) returns (r: Outcome<Error>)
      requires Valid() && phase.Unlocked?
      modifies this
      ensures Valid() && phase.Unlocked?
      ensures (r, View()) == PublishOutcome(old(View()), id, data)
      ensures id != 0 && data.Some? && old(running) ==>
                if old(HasRoom(View(), 1)) then r == Pass && View() == Queueing(old(View()), [Job(id, data.value)])
                else r == Fail(JobsAtLimit) && View() == old(View())
      ensures id == 0 || data.None? || !old(running) ==>
                View() == old(View()) &&
                r == if id == 0 then Fail(IdNotSet) else if data.None? then Fail(NoData) else Pass
    {
      ghost var before := View();
      if id == NIL_ID {
        return Fail(IdNotSet);
      }
      if data.None? {
        return Fail(NoData);
      }
      if !running {
        return Pass;
      }
      PublishQueues(before, id, data.value);
      var last := gens[|gens| - 1];
      assert !last.jobsClosed;  // a send on a closed job channel would panic
      if |last.queue| < last.capacity {
        var job := Job(id, data.value);
        gens := gens[|gens| - 1 := last.(queue := last.queue + [job])];
        log := log.(accepted := log.accepted + multiset{job});
        StepKeeps(before, Publish(job));
        return Pass;
      }
      return Fail(JobsAtLimit);
    }

    /** Appends a pipe to a route and counts the subscriber. */
    method Link(id: Id, pipe: Pipe)
      requires id in routes
      modifies this
      ensures View() == Subscribed(old(View()), id, pipe)
    {
      pool := pool - {pipe};
      nextPipe := if pipe == nextPipe then nextPipe + 1 else nextPipe;
      routes := routes[id := routes[id] + [pipe]];
      subscriberCount := subscriberCount + 1;
    }

    /** Subscribes; pooled is the pipe the pool hands out, or None when it makes a new one. */
    method AddSubscriber(id: Id, pooled: Option<Pipe>) returns (r: Outcome<Error>, pipe: Pipe)
      requires Valid() && phase.Unlocked?
      requires pooled.Some? ==> pooled.value in pool
      modifies this
      ensures Valid()
      ensures r == if id == NIL_ID then Fail(IdNotSet)
                   else if !old(running) then Fail(NotRunning)
                   else if id !in old(routes) then Fail(RouteNotFound)
                   else Pass
      ensures r.Fail? ==> View() == old(View())
      ensures r.Pass? ==>
                Enabled(old(View()), Subscribe(id, pipe)) &&
                View() == Apply(old(View()), Subscribe(id, pipe)) &&
                pipe !in Routed(old(routes)) && pipe !in closed
      ensures r.Pass? ==>
                pipe == (if pooled.Some? then pooled.value else old(nextPipe)) &&
                routes == old(routes)[id := old(routes)[id] + [pipe]] && pool == old(pool) - {pipe} &&
                subscriberCount == old(subscriberCount) + 1
    {
      ghost var before := View();
      pipe := 0;
      if id == NIL_ID {
        return Fail(IdNotSet), pipe;
      }
      if !running {
        return Fail(NotRunning), pipe;
      }
      if id !in routes {
        return Fail(RouteNotFound), pipe;
      }
      pipe := if pooled.Some? then pooled.value else nextPipe;
      StepKeeps(before, Subscribe(id, pipe));
      SubscribedPipeIsUnused(before, id, pipe);
      Link(id, pipe);
      return Pass, pipe;
    }

    /** Takes the pipe at position k out of its route, drains it and pools it unless it is closed. */
    method Unlink(id: Id, k: nat, drained: Option<nat>)
      requires id in routes && k < |routes[id]|
      requires drained.Some? ==> drained.value < |senders|
      modifies this
      ensures View() == Unsubscribed(old(View()), id, k, drained)
    {
      var pipes := routes[id];
      var used := pipes[k];
      pipes := pipes[k := pipes[|pipes| - 1]];
      routes := routes[id := pipes[..|pipes| - 1]];
      subscriberCount := subscriberCount - 1;
      if drained.Some? {
        senders := RemoveAt(senders, drained.value);
        waitGroup := waitGroup - 1;
      }
      if used !in closed {
        pool := pool + {used};
      }
    }

    /**
    Unsubscribes; usedChan is None for a nil channel, and drained is the waiting sender whose
    value the non-blocking receive takes, if there is one.
    */
    method RemoveSubscriber(id: Id, usedChan: Option<Pipe>, drained: Option<nat>) returns (r: Outcome<Error>)
      requires Valid() && phase.Unlocked?
      requires usedChan.Some? ==> DrainMatches(View(), usedChan.value, drained)
      modifies this
      ensures Valid()
      ensures r == if id == NIL_ID then Fail(IdNotSet)
                   else if usedChan.None? then Fail(ChannelIsNil)
                   else if !old(running) then Pass
                   else if id !in old(routes) then Fail(RouteNotFound)
                   else if usedChan.value !in old(routes)[id] then Fail(ChannelNotFound)
                   else Pass
      ensures r.Fail? || !old(running) ==> View() == old(View())
      ensures r.Pass? && old(running) ==>
                exists k: nat :: k < |old(routes)[id]| && old(routes)[id][k] == usedChan.value &&
                       Enabled(old(View()), Unsubscribe(id, k, drained)) &&
                       View() == Apply(old(View()), Unsubscribe(id, k, drained))
      // Only the given pipe leaves the routes, and it goes to the pool.
      ensures r.Pass? && old(running) ==>
                Routed(routes) == Routed(old(routes)) - {usedChan.value} && pool == old(pool) + {usedChan.value} &&
                subscriberCount == old(subscriberCount) - 1
    {
      ghost var before := View();
      if id == NIL_ID {
        return Fail(IdNotSet);
      }
      if usedChan.None? {
        return Fail(ChannelIsNil);
      }
      if !running {
        return Pass;
      }
      if id !in routes {
        return Fail(RouteNotFound);
      }
      var pipes := routes[id];
      for i := 0 to |pipes|
        invariant usedChan.value !in pipes[..i]
        invariant View() == before
      {
        if pipes[i] == usedChan.value {
          StepKeeps(before, Unsubscribe(id, i, drained));
          UnsubscribeRemoves(before, id, i, drained);
          Unlink(id, i, drained);
          return Pass;
        }
      }
      return Fail(ChannelNotFound);
    }

    /** Registers the identifier the generator produced, None standing for the generator's error. */
    method GetNewId(generated: Option<Id>) returns (r: Outcome<Error>)
      requires Valid() && phase.Unlocked?
      modifies this
      ensures Valid()
      ensures r == if generated.None? then Fail(Generator)
                   else if generated.value in old(routes) then Fail(Collision)
                   else Pass
      ensures View() == if r.Pass? then Apply(old(View()), NewId(generated.value)) else old(View())
      ensures r.Pass? ==> routes == old(routes)[generated.value := []]
    {
      ghost var before := View();
      if generated.None? {
        return Fail(Generator);
      }
      if generated.value in routes {
        return Fail(Collision);
      }
      StepKeeps(before, NewId(generated.value));
      routes := routes[generated.value := []];
      return Pass;
    }

    /** Spawns one sender for every pipe of a route. */
    method SpawnSenders(pipes: seq<Pipe>, job: Job)
      modifies this
      ensures View() == old(View()).(senders := old(senders) + Fanout(pipes, job),
                                     waitGroup := old(waitGroup) + |pipes|)
    {
      ghost var before := View();
      for k := 0 to |pipes|
        invariant senders == before.senders + Fanout(pipes[..k], job)
        invariant waitGroup == before.waitGroup + k
        invariant View() == before.(senders := senders, waitGroup := waitGroup)
      {
        waitGroup := waitGroup + 1;
        senders := senders + [Spawned(pipes[k], job)];
        assert Fanout(pipes[..k + 1], job) == Fanout(pipes[..k], job) + [Spawned(pipes[k], job)];
      }
      assert pipes[..|pipes|] == pipes;
    }

    /** The relayer's work under the route lock: one new sender for every registered pipe. */
    method RelayJob(i: nat)
      requires Valid() && i < |relayers| && relayers[i].Holding?
      modifies this
      ensures Valid()
      ensures View() == Apply(old(View()), Relay(i))
    {
      ghost var before := View();
      StepKeeps(before, Relay(i));
      var job := relayers[i].job;
      relayers := relayers[i := AtSelect];
      if job.id in routes {
        SpawnSenders(routes[job.id], job);
        log := log.(relayed := log.relayed + multiset{job});
      } else {
        log := log.(unroutable := log.unroutable + multiset{job});
      }
    }
  }

  class Mux {
    const d: Dispatcher

    constructor (d: Dispatcher)
      ensures this.d == d
    {
      this.d := d;
    }

    method PublishTo(data: Option<int>, ids: seq<Id>) returns (r: Outcome<Error>)
      requires d.Valid() && d.phase.Unlocked?
      modifies d
      ensures d.Valid()
      ensures (r, d.View()) == if data.None? then (Fail(NoData), old(d.View()))
                               else if ids == [] then (Fail(NoIds), old(d.View()))
                               else if old(d.subscriberCount) == 0 then (Pass, old(d.View()))
                               else PublishAll(old(d.View()), ids, data)
      ensures data.Some? && ids != [] && old(d.subscriberCount) != 0 && 0 !in ids && old(HasRoom(d.View(), |ids|)) ==>
                r == Pass && d.View() == Queueing(old(d.View()), JobsFor(ids, data.value))
    {
      if data.None? {
        return Fail(NoData);
      }
      if ids == [] {
        return Fail(NoIds);
      }
      if d.subscriberCount == 0 {
        return Pass;
      }
      ghost var start := d.View();
      if HasRoom(start, |ids|) && 0 !in ids {
        PublishAllQueues(start, ids, data.value);
      }
      for i := 0 to |ids|
        invariant d.Valid() && d.phase.Unlocked?
        invariant PublishAll(start, ids, data) == PublishAll(d.View(), ids[i..], data)
      {
        assert ids[i..][1..] == ids[i + 1..];
        r := d.PublishJob(ids[i], data);
        if r.Fail? {
          return;
        }
      }
      return Pass;
    }
  }
}
