/** What holds of a data history job over any number of runs. */
module DataHistoryRuns {
  import opened DataHistory

  predicate Settled(rs: seq<Status>) {
    Complete in rs || IssuesFound in rs
  }

  /** The results a range can have: failures and then perhaps one success, or every attempt marked. */
  predicate IsHistory(rs: seq<Status>, max: int) {
    1 <= |rs| <= max &&
    (((forall k :: 0 <= k < |rs| - 1 ==> rs[k] == Failed) && (rs[|rs| - 1] == Failed || rs[|rs| - 1] == Complete)) ||
     (forall k :: 0 <= k < |rs| ==> rs[k] == IssuesFound))
  }

  predicate JobInv(job: Job) {
    job.maxRetry >= 1 && DistinctStarts(job.ranges) &&
    forall i :: 0 <= i < |job.ranges| && job.ranges[i].start in job.results ==> IsHistory(ResultsAt(job, i), job.maxRetry)
  }

  /** A validated job that has no results yet. */
  predicate Fresh(job: Job) {
    job.maxRetry >= 1 && job.batchLimit >= 1 && DistinctStarts(job.ranges) && job.results == map[] && job.status == Active
  }

  predicate SameSetup(a: Job, b: Job) {
    SameStarts(a.ranges, b.ranges) && a.overwrite == b.overwrite && a.batchLimit == b.batchLimit &&
    a.maxRetry == b.maxRetry
  }

  predicate SameAt(a: Job, b: Job, i: nat)
    requires i < |a.ranges| && i < |b.ranges|
  {
    ResultsAt(a, i) == ResultsAt(b, i) && (a.ranges[i].start in a.results <==> b.ranges[i].start in b.results)
  }

  lemma {:induction false} CountFailedBound(rs: seq<Status>)
    ensures CountFailed(rs) <= |rs|
    ensures (forall k :: 0 <= k < |rs| ==> rs[k] == Failed) <==> CountFailed(rs) == |rs|
  {
    if rs != [] {
      var rest := rs[..|rs| - 1];
      CountFailedBound(rest);
      assert forall k :: 0 <= k < |rest| ==> rest[k] == rs[k];
      assert CountFailed(rs) == |rs| ==> CountFailed(rest) == |rest| && rs[|rs| - 1] == Failed;
    }
  }

  /** A pass gives a range up only after exactly the allowed number of failures, and tries it only before. */
  lemma DecideMeans(job: Job, i: nat, attempts: nat)
    requires JobInv(job) && i < |job.ranges|
    ensures Decide(job, i, attempts).Try? ==>
              attempts < job.batchLimit && |ResultsAt(job, i)| < job.maxRetry &&
              forall k :: 0 <= k < |ResultsAt(job, i)| ==> ResultsAt(job, i)[k] == Failed
    ensures Decide(job, i, attempts).GiveUp? ==> |ResultsAt(job, i)| == job.maxRetry && !Settled(ResultsAt(job, i))
    ensures Decide(job, i, attempts).Placeholder? ==> ResultsAt(job, i) == []
    ensures Decide(job, i, attempts).Skip? && job.overwrite && attempts < job.batchLimit ==> Settled(ResultsAt(job, i))
  {
    CountFailedBound(ResultsAt(job, i));
  }

  /** Handling range i keeps the histories, touches no other range, and leaves a settled range as it is. */
  lemma NextKeeps(job: Job, i: nat, attempts: nat, attempt: Attempt)
    requires JobInv(job) && i < |job.ranges|
    requires Decide(job, i, attempts).Try? ==> attempt.Finished?
    ensures var next := Next(job, i, attempts, attempt);
            JobInv(next) && SameSetup(job, next) && next.status == job.status &&
            (forall j :: 0 <= j < |job.ranges| && j != i ==> SameAt(job, next, j)) &&
            (Settled(ResultsAt(job, i)) ==> SameAt(job, next, i))
  {
    DecideMeans(job, i, attempts);
    var next := Next(job, i, attempts, attempt);
    assert forall j :: 0 <= j < |job.ranges| && j != i ==> SameAt(job, next, j);
    var rs := ResultsAt(next, i);
    assert next.ranges[i].start in next.results ==> IsHistory(rs, job.maxRetry);
  }

  // ----- bounded retries

  /** A pass keeps the histories, stays within the batch limit, and changes neither settled nor earlier ranges. */
  lemma {:induction false} PassKeeps(job: Job, i: nat, attempts: nat, oracle: nat -> Attempt)
    requires JobInv(job) && i <= |job.ranges|
    ensures var pass := PassFrom(job, i, attempts, oracle);
            JobInv(pass.job) && SameSetup(job, pass.job) && pass.job.status == job.status &&
            (attempts <= job.batchLimit ==> pass.attempts <= job.batchLimit) &&
            (forall j :: 0 <= j < |job.ranges| && (j < i || Settled(ResultsAt(job, j))) ==> SameAt(job, pass.job, j))
    decreases |job.ranges| - i
  {
    if i < |job.ranges| {
      DecideMeans(job, i, attempts);
      var tried := Decide(job, i, attempts).Try?;
      if !(tried && oracle(i).Aborted?) {
        NextKeeps(job, i, attempts, oracle(i));
        var next := Next(job, i, attempts, oracle(i));
        PassKeeps(next, i + 1, if tried then attempts + 1 else attempts, oracle);
        var passed := PassFrom(job, i, attempts, oracle).job;
        forall j | 0 <= j < |job.ranges| && (j < i || Settled(ResultsAt(job, j))) ensures SameAt(job, passed, j) {
          assert SameAt(job, next, j) && SameAt(next, passed, j);
        }
      }
    }
  }

  function Loaded(job: Job, c: Cycle): Job {
    job.(ranges := SetHasData(job.ranges, c.hasData))
  }

  lemma LoadedKeeps(job: Job, c: Cycle)
    requires JobInv(job)
    ensures JobInv(Loaded(job, c)) && SameSetup(job, Loaded(job, c))
    ensures forall j :: 0 <= j < |job.ranges| ==> SameAt(job, Loaded(job, c), j)
  {
  }

  /** The pass of one run: histories kept, batch limit respected, settled ranges left alone. */
  lemma FirstPassKeeps(job: Job, c: Cycle)
    requires JobInv(job)
    ensures var pass := FirstPass(job, c);
            JobInv(pass.job) && SameSetup(job, pass.job) && pass.job.status == job.status &&
            (job.batchLimit >= 0 ==> pass.attempts <= job.batchLimit) &&
            forall j :: 0 <= j < |job.ranges| && Settled(ResultsAt(job, j)) ==> SameAt(job, pass.job, j)
  {
    LoadedKeeps(job, c);
    PassKeeps(Loaded(job, c), 0, 0, c.oracle);
    var passed := FirstPass(job, c).job;
    forall j | 0 <= j < |job.ranges| && Settled(ResultsAt(job, j)) ensures SameAt(job, passed, j) {
      assert SameAt(job, Loaded(job, c), j) && SameAt(Loaded(job, c), passed, j);
    }
  }

  /** The end of a run changes nothing but the status. */
  lemma RunIsPass(job: Job, c: Cycle)
    requires job.status == Active && job.ranges != []
    ensures var after := RunJob(job, c).0; after == FirstPass(job, c).job.(status := after.status)
    ensures FirstPass(job, c).aborted ==> RunJob(job, c).0 == FirstPass(job, c).job
  {
  }

  /** One run keeps the histories, makes at most as many attempts as the batch limit, and leaves settled ranges alone. */
  lemma RunKeeps(job: Job, c: Cycle)
    requires JobInv(job)
    ensures var (after, _) := RunJob(job, c);
            JobInv(after) && SameSetup(job, after) &&
            forall j :: 0 <= j < |job.ranges| && Settled(ResultsAt(job, j)) ==> SameAt(job, after, j)
    ensures job.batchLimit >= 0 ==> FirstPass(job, c).attempts <= job.batchLimit
  {
    FirstPassKeeps(job, c);
    if job.status == Active && job.ranges != [] {
      RunIsPass(job, c);
      StatusOnly(FirstPass(job, c).job, RunJob(job, c).0);
      var after := RunJob(job, c).0;
      forall j | 0 <= j < |job.ranges| && Settled(ResultsAt(job, j)) ensures SameAt(job, after, j) {
        assert SameAt(job, FirstPass(job, c).job, j);
      }
    }
  }

  lemma StatusOnly(a: Job, b: Job)
    requires JobInv(a) && b == a.(status := b.status)
    ensures JobInv(b) && SameSetup(a, b) && forall j :: 0 <= j < |a.ranges| ==> SameAt(a, b, j)
  {
    assert forall j :: 0 <= j < |a.ranges| ==> ResultsAt(a, j) == ResultsAt(b, j);
  }

  /** Over any runs a range never holds more results than the retry limit. */
  lemma {:induction false} RetriesBounded(job: Job, cycles: seq<Cycle>)
    requires JobInv(job)
    ensures var after := RunAll(job, cycles);
            JobInv(after) && SameSetup(job, after) &&
            forall i :: 0 <= i < |after.ranges| ==> |ResultsAt(after, i)| <= job.maxRetry
    decreases |cycles|
  {
    if cycles != [] {
      RunKeeps(job, cycles[0]);
      RetriesBounded(RunJob(job, cycles[0]).0, cycles[1..]);
    }
  }

  // ----- every range settles when existing data is overwritten

  function Weight(job: Job, i: nat): nat
    requires i < |job.ranges|
  {
    var n := |ResultsAt(job, i)|;
    if Settled(ResultsAt(job, i)) || n > job.maxRetry then 0 else job.maxRetry + 1 - n
  }

  function Work(job: Job, i: nat): nat
    requires i <= |job.ranges|
    decreases |job.ranges| - i
  {
    if i == |job.ranges| then 0 else Weight(job, i) + Work(job, i + 1)
  }

  predicate SettledFrom(job: Job, i: nat) {
    forall j :: i <= j < |job.ranges| ==> Settled(ResultsAt(job, j))
  }

  lemma {:induction false} WorkSame(a: Job, b: Job, i: nat)
    requires SameSetup(a, b) && i <= |a.ranges|
    requires forall j :: i <= j < |a.ranges| ==> SameAt(a, b, j)
    ensures Work(a, i) == Work(b, i)
    decreases |a.ranges| - i
  {
    if i < |a.ranges| {
      WorkSame(a, b, i + 1);
      assert SameAt(a, b, i);
    }
  }

  lemma {:induction false} WorkBound(job: Job, i: nat)
    requires i <= |job.ranges| && job.maxRetry >= 1
    ensures Work(job, i) <= (|job.ranges| - i) * (job.maxRetry + 1)
    decreases |job.ranges| - i
  {
    if i < |job.ranges| {
      WorkBound(job, i + 1);
      assert (|job.ranges| - i) * (job.maxRetry + 1) == (|job.ranges| - (i + 1)) * (job.maxRetry + 1) + job.maxRetry + 1;
    }
  }

  lemma NextLowers(job: Job, i: nat, attempts: nat, attempt: Attempt)
    requires JobInv(job) && i < |job.ranges| && job.overwrite
    requires Decide(job, i, attempts).Try? ==> attempt.Finished?
    ensures var next := Next(job, i, attempts, attempt);
            Weight(next, i) <= Weight(job, i) &&
            (attempts < job.batchLimit && !Settled(ResultsAt(job, i)) ==> Weight(next, i) < Weight(job, i))
  {
    DecideMeans(job, i, attempts);
    var next := Next(job, i, attempts, attempt);
    if Decide(job, i, attempts).GiveUp? {
      assert ResultsAt(next, i)[0] == IssuesFound;
    } else if Decide(job, i, attempts).Try? {
      var rs := ResultsAt(job, i);
      assert ResultsAt(next, i) == rs + [if attempt.complete then Complete else Failed];
      assert attempt.complete ==> ResultsAt(next, i)[|rs|] == Complete;
    }
  }

  lemma UnsettledAhead(a: Job, b: Job, i: nat)
    requires SameSetup(a, b) && i < |a.ranges| && Settled(ResultsAt(a, i)) && !SettledFrom(a, i)
    requires forall j :: i < j < |a.ranges| ==> SameAt(a, b, j)
    ensures !SettledFrom(b, i + 1)
  {
    var j :| i <= j < |a.ranges| && !Settled(ResultsAt(a, j));
    assert SameAt(a, b, j);
  }

  /** A pass that is not aborted and still has an unsettled range ahead lowers the work that is left. */
  lemma {:induction false} PassLowers(job: Job, i: nat, attempts: nat, oracle: nat -> Attempt)
    requires JobInv(job) && i <= |job.ranges| && job.overwrite
    ensures var pass := PassFrom(job, i, attempts, oracle);
            SameSetup(job, pass.job) && Work(pass.job, i) <= Work(job, i) &&
            (!pass.aborted && attempts < job.batchLimit && !SettledFrom(job, i) ==> Work(pass.job, i) < Work(job, i))
    decreases |job.ranges| - i
  {
    PassKeeps(job, i, attempts, oracle);
    if i < |job.ranges| {
      var tried := Decide(job, i, attempts).Try?;
      if !(tried && oracle(i).Aborted?) {
        var next := Next(job, i, attempts, oracle(i));
        var attempts' := if tried then attempts + 1 else attempts;
        NextKeeps(job, i, attempts, oracle(i));
        NextLowers(job, i, attempts, oracle(i));
        DecideMeans(job, i, attempts);
        WorkSame(job, next, i + 1);
        PassLowers(next, i + 1, attempts', oracle);
        PassKeeps(next, i + 1, attempts', oracle);
        var pass := PassFrom(job, i, attempts, oracle);
        assert SameAt(next, pass.job, i);
        if Settled(ResultsAt(job, i)) && !SettledFrom(job, i) {
          UnsettledAhead(job, next, i);
        }
      }
    }
  }

  /** No attempt in these runs ends with an error. */
  predicate NoneAborts(job: Job, cycles: seq<Cycle>)
    decreases |cycles|
  {
    cycles == [] || ((job.status == Active ==> !FirstPass(job, cycles[0]).aborted) &&
                     NoneAborts(RunJob(job, cycles[0]).0, cycles[1..]))
  }

  /** A run that ends without error and finds an unsettled range lowers the work. */
  lemma RunLowers(job: Job, c: Cycle)
    requires JobInv(job) && job.overwrite && job.batchLimit >= 1 && job.status == Active
    requires !FirstPass(job, c).aborted && !SettledFrom(job, 0)
    ensures Work(RunJob(job, c).0, 0) < Work(job, 0)
  {
    LoadedKeeps(job, c);
    WorkSame(job, Loaded(job, c), 0);
    var j :| 0 <= j < |job.ranges| && !Settled(ResultsAt(job, j));
    assert SameAt(job, Loaded(job, c), j);
    assert !SettledFrom(Loaded(job, c), 0);
    PassLowers(Loaded(job, c), 0, 0, c.oracle);
    PassKeeps(Loaded(job, c), 0, 0, c.oracle);
    RunIsPass(job, c);
    StatusOnly(FirstPass(job, c).job, RunJob(job, c).0);
    WorkSame(FirstPass(job, c).job, RunJob(job, c).0, 0);
  }

  lemma {:induction false} SettlesWithin(job: Job, cycles: seq<Cycle>)
    requires JobInv(job) && job.overwrite && job.batchLimit >= 1
    requires job.status == Active || SettledFrom(job, 0)
    requires NoneAborts(job, cycles) && |cycles| >= Work(job, 0)
    ensures SettledFrom(RunAll(job, cycles), 0)
    decreases |cycles|
  {
    if SettledFrom(job, 0) {
      StaysSettled(job, cycles);
    } else {
      assert Work(job, 0) > 0 by {
        var j :| 0 <= j < |job.ranges| && !Settled(ResultsAt(job, j));
        UnsettledHasWork(job, 0, j);
      }
      RunKeeps(job, cycles[0]);
      RunLowers(job, cycles[0]);
      var after := RunJob(job, cycles[0]).0;
      if after.status != Active {
        FinishedIsSettled(job, cycles[0]);
      }
      SettlesWithin(after, cycles[1..]);
    }
  }

  lemma {:induction false} UnsettledHasWork(job: Job, i: nat, j: nat)
    requires JobInv(job) && i <= j < |job.ranges| && !Settled(ResultsAt(job, j))
    ensures Work(job, i) > 0
    decreases j - i
  {
    if i < j {
      UnsettledHasWork(job, i + 1, j);
    }
  }

  lemma {:induction false} StaysSettled(job: Job, cycles: seq<Cycle>)
    requires JobInv(job) && SettledFrom(job, 0)
    ensures SettledFrom(RunAll(job, cycles), 0)
    decreases |cycles|
  {
    if cycles != [] {
      RunKeeps(job, cycles[0]);
      var after := RunJob(job, cycles[0]).0;
      forall j | 0 <= j < |after.ranges| ensures Settled(ResultsAt(after, j)) {
        assert SameAt(job, after, j);
      }
      StaysSettled(after, cycles[1..]);
    }
  }

  lemma FinishedIsSettled(job: Job, c: Cycle)
    requires JobInv(job) && job.status == Active && RunJob(job, c).0.status != Active
    ensures SettledFrom(RunJob(job, c).0, 0)
  {
    RunIsPass(job, c);
    FirstPassKeeps(job, c);
    var after := RunJob(job, c).0;
    var passed := FirstPass(job, c).job;
    forall j | 0 <= j < |after.ranges| ensures Settled(ResultsAt(after, j)) {
      assert FirstDone(passed, j);
      assert ResultsAt(after, j) == ResultsAt(passed, j);
      assert ResultsAt(after, j)[0] in ResultsAt(after, j);
    }
  }

  /** From no results, n ranges settle within n * (MaxRetryAttempts + 1) runs that end without error. */
  lemma AllRangesSettle(job: Job, cycles: seq<Cycle>)
    requires Fresh(job) && job.overwrite && NoneAborts(job, cycles)
    requires |cycles| >= |job.ranges| * (job.maxRetry + 1)
    ensures SettledFrom(RunAll(job, cycles), 0)
  {
    WorkBound(job, 0);
    SettlesWithin(job, cycles);
  }

  // ----- completion

  /**
  The status after a run that ends without error: the job stays active unless the first result of
  every range is Complete or IssuesFound; it is Complete iff all firsts are Complete, Failed iff all
  are IssuesFound, and IssuesFound otherwise. The guard against both flags is never reached.
  */
  lemma CompletionByFirsts(job: Job, c: Cycle)
    requires JobInv(job) && job.status == Active && job.ranges != [] && !FirstPass(job, c).aborted
    ensures var (after, outcome) := RunJob(job, c);
            outcome.Pass? && |after.ranges| == |job.ranges| &&
            var done := forall i :: 0 <= i < |after.ranges| ==> FirstIs(after, i, Complete) || FirstIs(after, i, IssuesFound);
            (after.status == Active <==> !done) &&
            (after.status == Complete <==> forall i :: 0 <= i < |after.ranges| ==> FirstIs(after, i, Complete)) &&
            (after.status == Failed <==> forall i :: 0 <= i < |after.ranges| ==> FirstIs(after, i, IssuesFound)) &&
            (after.status == Active || after.status == Complete || after.status == Failed || after.status == IssuesFound)
  {
    FirstPassKeeps(job, c);
    RunIsPass(job, c);
    var passed := FirstPass(job, c).job;
    var after := RunJob(job, c).0;
    forall i | 0 <= i < |passed.ranges|
      ensures FirstDone(passed, i) <==> FirstIs(after, i, Complete) || FirstIs(after, i, IssuesFound)
      ensures FirstIs(passed, i, Complete) <==> FirstIs(after, i, Complete)
      ensures FirstIs(passed, i, IssuesFound) <==> FirstIs(after, i, IssuesFound)
    {
      assert ResultsAt(after, i) == ResultsAt(passed, i);
      assert passed.ranges[i].start in passed.results ==> IsHistory(ResultsAt(passed, i), passed.maxRetry);
    }
    assert FirstIs(passed, 0, Complete) ==> !FirstIs(passed, 0, IssuesFound);
  }

  /** A range that succeeded only after a failure keeps its job open through every later run. */
  lemma {:induction false} FailedThenCompleteStaysOpen(job: Job, i: nat, cycles: seq<Cycle>)
    requires JobInv(job) && job.status == Active && i < |job.ranges|
    requires Settled(ResultsAt(job, i)) && ResultsAt(job, i)[0] == Failed
    ensures var after := RunAll(job, cycles);
            after.status == Active && i < |after.ranges| && ResultsAt(after, i) == ResultsAt(job, i)
    decreases |cycles|
  {
    if cycles != [] {
      RunKeeps(job, cycles[0]);
      var after := RunJob(job, cycles[0]).0;
      assert SameAt(job, after, i);
      if !FirstPass(job, cycles[0]).aborted {
        CompletionByFirsts(job, cycles[0]);
        assert !FirstIs(after, i, Complete) && !FirstIs(after, i, IssuesFound);
      } else {
        FirstPassKeeps(job, cycles[0]);
      }
      FailedThenCompleteStaysOpen(after, i, cycles[1..]);
    }
  }

  /** With every range settled, a run finishes the job if and only if no range's first attempt failed. */
  lemma SettledJobFinishesIff(job: Job, c: Cycle)
    requires JobInv(job) && job.status == Active && job.ranges != [] && SettledFrom(job, 0)
    ensures RunJob(job, c).0.status != Active <==> (forall i :: 0 <= i < |job.ranges| ==> ResultsAt(job, i)[0] != Failed)
  {
    LoadedKeeps(job, c);
    var loaded := Loaded(job, c);
    forall j | 0 <= j < |loaded.ranges| ensures Settled(ResultsAt(loaded, j)) {
      assert SameAt(job, loaded, j);
    }
    NothingToTry(loaded, 0, 0, c.oracle);
    RunKeeps(job, c);
    CompletionByFirsts(job, c);
    var after := RunJob(job, c).0;
    forall i | 0 <= i < |job.ranges|
      ensures ResultsAt(job, i)[0] != Failed <==> FirstIs(after, i, Complete) || FirstIs(after, i, IssuesFound)
    {
      assert SameAt(job, after, i);
      assert job.ranges[i].start in job.results && IsHistory(ResultsAt(job, i), job.maxRetry);
    }
  }

  lemma {:induction false} NothingToTry(job: Job, i: nat, attempts: nat, oracle: nat -> Attempt)
    requires JobInv(job) && i <= |job.ranges| && SettledFrom(job, 0)
    ensures !PassFrom(job, i, attempts, oracle).aborted
    decreases |job.ranges| - i
  {
    if i < |job.ranges| {
      assert Settled(ResultsAt(job, i));
      DecideMeans(job, i, attempts);
      assert !Decide(job, i, attempts).Try?;
      NextKeeps(job, i, attempts, oracle(i));
      var next := Next(job, i, attempts, oracle(i));
      assert forall j :: 0 <= j < |next.ranges| ==> SameAt(job, next, j);
      NothingToTry(next, i + 1, attempts, oracle);
    }
  }

  // ----- without overwriting, data from elsewhere can strand a failed range

  /** The cycle, and every attempt in it, reports data for all intervals of range i. */
  predicate Covers(flags: seq<seq<bool>>, i: nat) {
    i < |flags| && false !in flags[i]
  }

  ghost predicate KeepsCovered(c: Cycle, i: nat) {
    Covers(c.hasData, i) && forall k: nat :: c.oracle(k).Finished? ==> Covers(c.oracle(k).hasData, i)
  }

  lemma {:induction false} CoveredPassSkips(job: Job, i: nat, from: nat, attempts: nat, oracle: nat -> Attempt)
    requires JobInv(job) && !job.overwrite && i < |job.ranges| && from <= |job.ranges|
    requires false !in job.ranges[i].intervals && job.ranges[i].start in job.results
    requires forall k: nat :: oracle(k).Finished? ==> Covers(oracle(k).hasData, i)
    ensures var passed := PassFrom(job, from, attempts, oracle).job; SameSetup(job, passed) && SameAt(job, passed, i)
    decreases |job.ranges| - from
  {
    PassKeeps(job, from, attempts, oracle);
    if from < |job.ranges| {
      var tried := Decide(job, from, attempts).Try?;
      if !(tried && oracle(from).Aborted?) {
        NextKeeps(job, from, attempts, oracle(from));
        var next := Next(job, from, attempts, oracle(from));
        assert SameAt(job, next, i);
        CoveredPassSkips(next, i, from + 1, if tried then attempts + 1 else attempts, oracle);
      }
    }
  }

  /**
  Without overwriting, a range whose first attempt failed and whose data then arrived by other
  means is never retried nor marked, and its job stays active through every run.
  */
  lemma {:induction false} CoveredFailureStaysOpen(job: Job, i: nat, cycles: seq<Cycle>)
    requires JobInv(job) && !job.overwrite && job.status == Active && i < |job.ranges|
    requires ResultsAt(job, i) != [] && ResultsAt(job, i)[0] == Failed
    requires forall c :: c in cycles ==> KeepsCovered(c, i)
    ensures var after := RunAll(job, cycles);
            after.status == Active && i < |after.ranges| && ResultsAt(after, i) == ResultsAt(job, i)
    decreases |cycles|
  {
    if cycles != [] {
      var c := cycles[0];
      assert KeepsCovered(c, i);
      RunKeeps(job, c);
      LoadedKeeps(job, c);
      assert SameAt(job, Loaded(job, c), i);
      CoveredPassSkips(Loaded(job, c), i, 0, 0, c.oracle);
      FirstPassKeeps(job, c);
      var after := RunJob(job, c).0;
      assert ResultsAt(after, i) == ResultsAt(job, i);
      if !FirstPass(job, c).aborted {
        CompletionByFirsts(job, c);
        assert !FirstIs(after, i, Complete) && !FirstIs(after, i, IssuesFound);
      }
      CoveredFailureStaysOpen(after, i, cycles[1..]);
    }
  }

  /** A pass over covered ranges attempts nothing: it only enters a success where there is no result. */
  lemma {:induction false} CoveredPass(job: Job, from: nat, attempts: nat, oracle: nat -> Attempt)
    requires JobInv(job) && !job.overwrite && from <= |job.ranges|
    requires forall j :: 0 <= j < |job.ranges| ==> false !in job.ranges[j].intervals
    ensures var pass := PassFrom(job, from, attempts, oracle);
            SameSetup(job, pass.job) && !pass.aborted &&
            forall j :: from <= j < |job.ranges| ==>
              ResultsAt(pass.job, j) == if ResultsAt(job, j) == [] then [Complete] else ResultsAt(job, j)
    decreases |job.ranges| - from
  {
    PassKeeps(job, from, attempts, oracle);
    if from < |job.ranges| {
      assert !Decide(job, from, attempts).Try?;
      NextKeeps(job, from, attempts, oracle(from));
      var next := Next(job, from, attempts, oracle(from));
      assert next.ranges == job.ranges;
      CoveredPass(next, from + 1, attempts, oracle);
      PassKeeps(next, from + 1, attempts, oracle);
      var passed := PassFrom(job, from, attempts, oracle).job;
      assert SameAt(next, passed, from);
      assert forall j :: from < j < |job.ranges| ==> SameAt(job, next, j);
    }
  }

  /**
  Without overwriting and with data for every interval of every range, a run finishes the job if
  and only if no range that has results starts with a failure.
  */
  lemma CoveredJobFinishesIff(job: Job, c: Cycle)
    requires JobInv(job) && !job.overwrite && job.status == Active && job.ranges != []
    requires forall i :: 0 <= i < |job.ranges| ==> Covers(c.hasData, i)
    ensures RunJob(job, c).0.status != Active <==>
            (forall i :: 0 <= i < |job.ranges| && ResultsAt(job, i) != [] ==> ResultsAt(job, i)[0] != Failed)
  {
    LoadedKeeps(job, c);
    var loaded := Loaded(job, c);
    forall j | 0 <= j < |loaded.ranges| ensures false !in loaded.ranges[j].intervals {
      assert Covers(c.hasData, j);
    }
    CoveredPass(loaded, 0, 0, c.oracle);
    RunKeeps(job, c);
    RunIsPass(job, c);
    CompletionByFirsts(job, c);
    var after := RunJob(job, c).0;
    forall i | 0 <= i < |job.ranges|
      ensures FirstIs(after, i, Complete) || FirstIs(after, i, IssuesFound) <==>
              (ResultsAt(job, i) != [] ==> ResultsAt(job, i)[0] != Failed)
    {
      assert SameAt(job, loaded, i);
      assert ResultsAt(after, i) == ResultsAt(FirstPass(job, c).job, i);
      assert job.ranges[i].start in job.results ==> IsHistory(ResultsAt(job, i), job.maxRetry);
    }
  }
}
