/** What a data history job records: where each result comes from, and what the first run of a job decides. */
module DataHistoryResults {
  import opened Wrappers
  import opened DataHistory
  import opened DataHistoryRuns

  // ----- one range

  /** Without overwriting, a range with data for all its intervals is not attempted. */
  predicate Covered(job: Job, i: nat)
    requires i < |job.ranges|
  {
    !job.overwrite && false !in job.ranges[i].intervals
  }

  /**
  A covered range without results gets one; another range is attempted, within the batch, exactly when
  it has neither succeeded nor been given up and has failed less often than allowed; having failed as
  often as that it is given up.
  */
  lemma DecideIff(job: Job, i: nat, attempts: nat)
    requires JobInv(job) && i < |job.ranges|
    ensures var d, rs := Decide(job, i, attempts), ResultsAt(job, i);
            (d.Placeholder? <==> Covered(job, i) && job.ranges[i].start !in job.results) &&
            (d.Try? <==> !Covered(job, i) && attempts < job.batchLimit && !Settled(rs) && |rs| < job.maxRetry) &&
            (d.GiveUp? <==> !Covered(job, i) && attempts < job.batchLimit && !Settled(rs) && |rs| == job.maxRetry)
  {
    DecideMeans(job, i, attempts);
    CountFailedBound(ResultsAt(job, i));
  }

  /**
  An attempt appends exactly one result to its range, Complete if the attempt was complete and Failed if
  not, and replaces the data flags it reports. Giving up marks every result; a placeholder is one success.
  */
  lemma NextRecords(job: Job, i: nat, attempts: nat, attempt: Attempt)
    requires DistinctStarts(job.ranges) && i < |job.ranges|
    requires Decide(job, i, attempts).Try? ==> attempt.Finished?
    ensures var d, next, rs := Decide(job, i, attempts), Next(job, i, attempts, attempt), ResultsAt(job, i);
            |next.ranges| == |job.ranges| &&
            (forall j :: 0 <= j < |job.ranges| && j != i ==> ResultsAt(next, j) == ResultsAt(job, j)) &&
            (d.Try? ==> |ResultsAt(next, i)| == |rs| + 1 && ResultsAt(next, i)[..|rs|] == rs &&
                        ResultsAt(next, i)[|rs|] == (if attempt.complete then Complete else Failed) &&
                        forall j :: 0 <= j < |job.ranges| ==>
                          next.ranges[j].intervals ==
                          if j < |attempt.hasData| then attempt.hasData[j] else job.ranges[j].intervals) &&
            (d.GiveUp? ==> |ResultsAt(next, i)| == |rs| && forall r :: r in ResultsAt(next, i) ==> r == IssuesFound) &&
            (d.Placeholder? ==> ResultsAt(next, i) == [Complete]) &&
            (d.Skip? ==> next == job) && (!d.Try? ==> next.ranges == job.ranges)
  {
  }

  // ----- where a success comes from

  /** Some attempt reports data for all intervals of range i. */
  ghost predicate Reports(oracle: nat -> Attempt, i: nat) {
    exists j: nat :: oracle(j).Finished? && Covers(oracle(j).hasData, i)
  }

  ghost predicate Succeeds(oracle: nat -> Attempt, i: nat) {
    oracle(i).Finished? && oracle(i).complete
  }

  /** In a pass, range i is covered only if it was before or an attempt reported so, and succeeds only for a cause. */
  lemma {:induction false} PassCause(job: Job, from: nat, attempts: nat, oracle: nat -> Attempt, i: nat)
    requires JobInv(job) && from <= |job.ranges| && i < |job.ranges|
    ensures var after := PassFrom(job, from, attempts, oracle).job;
            SameSetup(job, after) &&
            (false !in after.ranges[i].intervals ==> false !in job.ranges[i].intervals || Reports(oracle, i)) &&
            (Complete in ResultsAt(after, i) ==>
               Complete in ResultsAt(job, i) || Succeeds(oracle, i) ||
               (!job.overwrite && (false !in job.ranges[i].intervals || Reports(oracle, i))))
    decreases |job.ranges| - from
  {
    PassKeeps(job, from, attempts, oracle);
    if from < |job.ranges| {
      var tried := Decide(job, from, attempts).Try?;
      if !(tried && oracle(from).Aborted?) {
        var next := Next(job, from, attempts, oracle(from));
        NextKeeps(job, from, attempts, oracle(from));
        NextRecords(job, from, attempts, oracle(from));
        PassCause(next, from + 1, if tried then attempts + 1 else attempts, oracle, i);
        if tried && false !in next.ranges[i].intervals && false in job.ranges[i].intervals {
          assert Covers(oracle(from).hasData, i);
        }
        if Complete in ResultsAt(next, i) && Complete !in ResultsAt(job, i) {
          DecideIff(job, i, attempts);
          assert from == i;
        }
      }
    }
  }

  /** Some cycle's attempt at range i was complete. */
  ghost predicate SomeSuccess(cycles: seq<Cycle>, i: nat) {
    exists c :: c in cycles && Succeeds(c.oracle, i)
  }

  /** Some cycle found or reported data for all intervals of range i. */
  ghost predicate SomeCover(cycles: seq<Cycle>, i: nat) {
    exists c :: c in cycles && (Covers(c.hasData, i) || Reports(c.oracle, i))
  }

  lemma RunCause(job: Job, c: Cycle, i: nat)
    requires JobInv(job) && i < |job.ranges|
    ensures var after := RunJob(job, c).0;
            JobInv(after) && SameSetup(job, after) &&
            (false !in after.ranges[i].intervals ==>
               false !in job.ranges[i].intervals || Covers(c.hasData, i) || Reports(c.oracle, i)) &&
            (Complete in ResultsAt(after, i) ==>
               Complete in ResultsAt(job, i) || Succeeds(c.oracle, i) ||
               (!job.overwrite && (false !in job.ranges[i].intervals || Covers(c.hasData, i) || Reports(c.oracle, i))))
  {
    RunKeeps(job, c);
    if job.status == Active && job.ranges != [] {
      LoadedKeeps(job, c);
      assert SameAt(job, Loaded(job, c), i);
      PassCause(Loaded(job, c), 0, 0, c.oracle, i);
      RunIsPass(job, c);
      var passed, after := FirstPass(job, c).job, RunJob(job, c).0;
      assert ResultsAt(after, i) == ResultsAt(passed, i) && after.ranges == passed.ranges;
    }
  }

  lemma {:induction false} RunsCause(job: Job, cycles: seq<Cycle>, i: nat)
    requires JobInv(job) && i < |job.ranges|
    ensures var after := RunAll(job, cycles);
            |after.ranges| == |job.ranges| &&
            (Complete in ResultsAt(after, i) ==>
               Complete in ResultsAt(job, i) || SomeSuccess(cycles, i) ||
               (!job.overwrite && (false !in job.ranges[i].intervals || SomeCover(cycles, i))))
    decreases |cycles|
  {
    if cycles != [] {
      var c, rest := cycles[0], cycles[1..];
      RunCause(job, c, i);
      RunsCause(RunJob(job, c).0, rest, i);
      assert c in cycles && forall d :: d in rest ==> d in cycles;
    }
  }

  /**
  From no results, a range only has a success after any runs if some attempt at it was complete or,
  without overwriting, if at some time all its intervals were said to have data.
  */
  lemma SuccessHasCause(job: Job, cycles: seq<Cycle>, i: nat)
    requires Fresh(job) && i < |job.ranges|
    ensures var after := RunAll(job, cycles);
            |after.ranges| == |job.ranges| &&
            (Complete in ResultsAt(after, i) ==>
               SomeSuccess(cycles, i) || (!job.overwrite && (false !in job.ranges[i].intervals || SomeCover(cycles, i))))
  {
    RunsCause(job, cycles, i);
  }

  // ----- the first run

  ghost predicate AllFinish(oracle: nat -> Attempt, n: nat) {
    forall i: nat :: i < n ==> oracle(i).Finished?
  }

  /** With room in the batch, a pass with overwriting attempts every range that has no results yet, once. */
  lemma {:induction false} FreshPass(job: Job, from: nat, oracle: nat -> Attempt)
    requires JobInv(job) && job.overwrite && from <= |job.ranges| && |job.ranges| <= job.batchLimit
    requires forall j :: from <= j < |job.ranges| ==> job.ranges[j].start !in job.results
    requires AllFinish(oracle, |job.ranges|)
    ensures var pass := PassFrom(job, from, from, oracle);
            SameSetup(job, pass.job) && !pass.aborted && pass.attempts == |job.ranges| &&
            forall j :: from <= j < |job.ranges| ==>
              ResultsAt(pass.job, j) == [if oracle(j).complete then Complete else Failed]
    decreases |job.ranges| - from
  {
    PassKeeps(job, from, from, oracle);
    if from < |job.ranges| {
      DecideIff(job, from, from);
      NextKeeps(job, from, from, oracle(from));
      NextRecords(job, from, from, oracle(from));
      var next := Next(job, from, from, oracle(from));
      assert ResultsAt(next, from) == [if oracle(from).complete then Complete else Failed];
      assert forall j :: from < j < |job.ranges| ==> SameAt(job, next, j);
      FreshPass(next, from + 1, oracle);
      PassKeeps(next, from + 1, from + 1, oracle);
      assert SameAt(next, PassFrom(next, from + 1, from + 1, oracle).job, from);
    }
  }

  /**
  With overwriting and a batch that holds all ranges, the first run of a job whose attempts all finish
  completes the job if and only if every attempt was complete, and leaves it active otherwise.
  */
  lemma FirstRunCompletesIff(job: Job, c: Cycle)
    requires Fresh(job) && job.overwrite && job.ranges != [] && |job.ranges| <= job.batchLimit
    requires AllFinish(c.oracle, |job.ranges|)
    ensures var after := RunJob(job, c).0;
            (after.status == Complete <==> forall i: nat :: i < |job.ranges| ==> c.oracle(i).complete) &&
            (after.status == Complete || after.status == Active)
  {
    LoadedKeeps(job, c);
    FreshPass(Loaded(job, c), 0, c.oracle);
    RunKeeps(job, c);
    RunIsPass(job, c);
    CompletionByFirsts(job, c);
    var after := RunJob(job, c).0;
    forall i: nat | i < |job.ranges|
      ensures FirstIs(after, i, Complete) <==> c.oracle(i).complete
      ensures !FirstIs(after, i, IssuesFound)
    {
      assert ResultsAt(after, i) == ResultsAt(FirstPass(job, c).job, i);
    }
  }

  // ----- errors

  /** A run refuses a job that is not active or has no ranges; an attempt's error ends it with what was recorded before. */
  lemma RunErrors(job: Job, c: Cycle)
    ensures job.status != Active || job.ranges == [] ==> RunJob(job, c) == (job, Fail(JobInvalid))
    ensures job.status == Active && job.ranges != [] && FirstPass(job, c).aborted ==>
              RunJob(job, c) == (FirstPass(job, c).job, Fail(AttemptFailed))
  {
  }

  /** A pass is aborted by the error of an attempt at some range, and leaves that range and the later ones as they were. */
  lemma {:induction false} AbortedAt(job: Job, from: nat, attempts: nat, oracle: nat -> Attempt) returns (k: nat)
    requires JobInv(job) && from <= |job.ranges| && PassFrom(job, from, attempts, oracle).aborted
    ensures from <= k < |job.ranges| && oracle(k).Aborted?
    ensures var after := PassFrom(job, from, attempts, oracle).job;
            SameSetup(job, after) && forall j :: k <= j < |job.ranges| ==> SameAt(job, after, j)
    decreases |job.ranges| - from
  {
    var tried := Decide(job, from, attempts).Try?;
    if tried && oracle(from).Aborted? {
      k := from;
    } else {
      NextKeeps(job, from, attempts, oracle(from));
      var next := Next(job, from, attempts, oracle(from));
      k := AbortedAt(next, from + 1, if tried then attempts + 1 else attempts, oracle);
      var after := PassFrom(job, from, attempts, oracle).job;
      forall j | k <= j < |job.ranges| ensures SameAt(job, after, j) {
        assert SameAt(job, next, j) && SameAt(next, after, j);
      }
    }
  }
}
