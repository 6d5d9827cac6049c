/**
The data history job: one run goes over the job's date ranges, retries the unsettled ones within
a batch limit, and finishes the job when the first result of every range allows it.
One attempt at a range is an oracle, since it talks to an exchange or a database.
*/
module DataHistory {
  import opened Wrappers

  const DEFAULT_BATCH_LIMIT: int := 3
  const DEFAULT_RETRY_ATTEMPTS: int := 3

  datatype Status = Active | Failed | Complete | Removed | IssuesFound | Paused

  /** A date range: its start time and, for each of its intervals, whether there is data. */
  datatype Range = Range(start: int, intervals: seq<bool>)

  /** One attempt ends with a result and new data flags for all ranges, or with an error. */
  datatype Attempt = Finished(complete: bool, hasData: seq<seq<bool>>) | Aborted

  datatype Error = NotStarted | JobInvalid | AttemptFailed
  datatype Job = Job(
    ranges: seq<Range>,
    results: map<int, seq<Status>>,
    overwrite: bool,
    batchLimit: int,
    maxRetry: int,
    status: Status)

  function SetHasData(ranges: seq<Range>, flags: seq<seq<bool>>): (r: seq<Range>)
    ensures SameStarts(ranges, r)
  {
    seq(|ranges|, i requires 0 <= i < |ranges| =>
          if i < |flags| then Range(ranges[i].start, flags[i]) else ranges[i])
  }

  predicate SameStarts(a: seq<Range>, b: seq<Range>) {
    |a| == |b| && forall i :: 0 <= i < |a| ==> a[i].start == b[i].start
  }

  predicate DistinctStarts(ranges: seq<Range>) {
    forall i, j :: 0 <= i < j < |ranges| ==> ranges[i].start != ranges[j].start
  }

  function CountFailed(rs: seq<Status>): nat {
    if rs == [] then 0 else (if rs[|rs| - 1] == Failed then 1 else 0) + CountFailed(rs[..|rs| - 1])
  }

  function Repeat(n: nat, s: Status): seq<Status> {
    seq(n, _ => s)
  }

  datatype Decision = Skip | Placeholder | GiveUp | Try

  /** What a run does with range i once it has made the given number of attempts. */
  function Decide(job: Job, i: nat, attempts: nat): Decision
    requires i < |job.ranges|
  {
    var range := job.ranges[i];
    var known := range.start in job.results;
    if false !in range.intervals && !job.overwrite then (if known then Skip else Placeholder)
    else if attempts >= job.batchLimit then Skip
    else if known && IssuesFound in job.results[range.start] then Skip
    else if known && CountFailed(job.results[range.start]) >= job.maxRetry then GiveUp
    else if known && Complete in job.results[range.start] then Skip
    else Try
  }

  function ResultsAt(job: Job, i: nat): seq<Status>
    requires i < |job.ranges|
  {
    if job.ranges[i].start in job.results then job.results[job.ranges[i].start] else []
  }

  function WithResults(job: Job, i: nat, rs: seq<Status>): Job
    requires i < |job.ranges|
  {
    job.(results := job.results[job.ranges[i].start := rs])
  }

  function Attempted(job: Job, i: nat, attempt: Attempt): Job
    requires i < |job.ranges| && attempt.Finished?
  {
    WithResults(job, i, ResultsAt(job, i) + [if attempt.complete then Complete else Failed])
      .(ranges := SetHasData(job.ranges, attempt.hasData))
  }

  /** The job after range i, when its attempt, if there is one, does not abort the pass. */
  function Next(job: Job, i: nat, attempts: nat, attempt: Attempt): Job
    requires i < |job.ranges|
    requires Decide(job, i, attempts).Try? ==> attempt.Finished?
  {
    match Decide(job, i, attempts)
    case Skip => job
    case Placeholder => WithResults(job, i, [Complete])
    case GiveUp => WithResults(job, i, Repeat(|ResultsAt(job, i)|, IssuesFound))
    case Try => Attempted(job, i, attempt)
  }

  datatype Sweep = Sweep(job: Job, attempts: nat, aborted: bool)

  /** The pass over the ranges from index i on. */
  function PassFrom(job: Job, i: nat, attempts: nat, oracle: nat -> Attempt): Sweep
    requires i <= |job.ranges|
    decreases |job.ranges| - i
  {
    if i == |job.ranges| then Sweep(job, attempts, false)
    else
      var tried := Decide(job, i, attempts).Try?;
      if tried && oracle(i).Aborted? then Sweep(job, attempts + 1, true)
      else PassFrom(Next(job, i, attempts, oracle(i)), i + 1, if tried then attempts + 1 else attempts, oracle)
  }

  /** A range counts as done by its first result only. */
  predicate FirstDone(job: Job, i: nat)
    requires i < |job.ranges|
  {
    job.ranges[i].start in job.results &&
    (ResultsAt(job, i) == [] || ResultsAt(job, i)[0] == Complete || ResultsAt(job, i)[0] == IssuesFound)
  }

  predicate FirstIs(job: Job, i: nat, s: Status)
    requires i < |job.ranges|
  {
    ResultsAt(job, i) != [] && ResultsAt(job, i)[0] == s
  }

  predicate DoneUpTo(job: Job, n: nat)
    requires n <= |job.ranges|
  {
    forall i :: 0 <= i < n ==> FirstDone(job, i)
  }

  predicate NoFirstUpTo(job: Job, s: Status, n: nat)
    requires n <= |job.ranges|
  {
    forall i :: 0 <= i < n ==> !FirstIs(job, i, s)
  }

  lemma UpToNext(job: Job, n: nat)
    requires n < |job.ranges|
    ensures DoneUpTo(job, n + 1) == (DoneUpTo(job, n) && FirstDone(job, n))
    ensures forall s :: NoFirstUpTo(job, s, n + 1) == (NoFirstUpTo(job, s, n) && !FirstIs(job, n, s))
  {
  }

  predicate AllFirstDone(job: Job) {
    DoneUpTo(job, |job.ranges|)
  }

  predicate NoFirst(job: Job, s: Status) {
    NoFirstUpTo(job, s, |job.ranges|)
  }

  /** The end of a run: the job is finished when every range is done by its first result. */
  function Finish(job: Job): (Job, Outcome<Error>) {
    if !AllFirstDone(job) then (job, Pass)
    else if NoFirst(job, IssuesFound) && NoFirst(job, Complete) then (job, Fail(JobInvalid))
    else if NoFirst(job, IssuesFound) then (job.(status := Complete), Pass)
    else if NoFirst(job, Complete) then (job.(status := Failed), Pass)
    else (job.(status := IssuesFound), Pass)
  }

  /** One scheduled cycle: the data flags as reloaded, and the answers to the attempts. */
  datatype Cycle = Cycle(hasData: seq<seq<bool>>, oracle: nat -> Attempt)

  function FirstPass(job: Job, c: Cycle): Sweep {
    PassFrom(job.(ranges := SetHasData(job.ranges, c.hasData)), 0, 0, c.oracle)
  }

  function RunJob(job: Job, c: Cycle): (Job, Outcome<Error>) {
    if job.status != Active || job.ranges == [] then (job, Fail(JobInvalid))
    else
      var pass := FirstPass(job, c);
      if pass.aborted then (pass.job, Fail(AttemptFailed)) else Finish(pass.job)
  }

  function RunAll(job: Job, cycles: seq<Cycle>): Job
    decreases |cycles|
  {
    if cycles == [] then job else RunAll(RunJob(job, cycles[0]).0, cycles[1..])
  }

  /** The job object. */
  class DataHistoryJob {
    var ranges: seq<Range>
    var results: map<int, seq<Status>>
    var overwrite: bool
    var batchLimit: int
    var maxRetry: int
    var status: Status

    function View(): Job
      reads this
    {
      Job(ranges, results, overwrite, batchLimit, maxRetry, status)
    }

    /** The part of validation that sets the limits. */
    method SetLimits()
      modifies this`batchLimit, this`maxRetry
      ensures batchLimit == if old(batchLimit) <= 0 then 3 else old(batchLimit)
      ensures maxRetry == if old(maxRetry) <= 0 then 3 else old(maxRetry)
      ensures batchLimit >= 1 && maxRetry >= 1
    {
      if batchLimit <= 0 {
        batchLimit := DEFAULT_BATCH_LIMIT;
      }
      if maxRetry <= 0 {
        maxRetry := DEFAULT_RETRY_ATTEMPTS;
      }
    }

    /** Reads the results of a range: whether one found issues, how many failed, whether one completed. */
    method Tally(rs: seq<Status>) returns (issues: bool, failures: nat, hasData: bool)
      ensures issues == (IssuesFound in rs)
      ensures !issues ==> failures == CountFailed(rs) && hasData == (Complete in rs)
    {
      issues, failures, hasData := false, 0, false;
      for x := 0 to |rs|
        invariant !issues && IssuesFound !in rs[..x]
        invariant failures == CountFailed(rs[..x])
        invariant hasData == (Complete in rs[..x])
      {
        assert rs[..x + 1] == rs[..x] + [rs[x]] && rs[..x + 1][..x] == rs[..x];
        match rs[x] {
          case IssuesFound => return true, failures, hasData;
          case Failed => failures := failures + 1;
          case Complete => hasData := true;
          case _ =>
        }
      }
      assert rs[..|rs|] == rs;
    }

    method HasAllData(i: nat) returns (all: bool)
      requires i < |ranges|
      ensures all == (false !in ranges[i].intervals)
    {
      for j := 0 to |ranges[i].intervals|
        invariant false !in ranges[i].intervals[..j]
      {
        if !ranges[i].intervals[j] {
          return false;
        }
      }
      return true;
    }

    /** Handles one range of a pass, and says whether it was attempted and whether the pass aborts. */
    method HandleRange(i: nat, attempts: nat, oracle: nat -> Attempt) returns (tried: bool, aborted: bool)
      requires i < |ranges|
      modifies this
      ensures tried == Decide(old(View()), i, attempts).Try?
      ensures aborted == (tried && oracle(i).Aborted?)
      ensures View() == if aborted then old(View()) else Next(old(View()), i, attempts, oracle(i))
      // A finished attempt is recorded with its answer, and nothing else is.
      ensures tried && !aborted ==>
                var start := old(ranges[i].start);
                results == old(results)[start := (if start in old(results) then old(results)[start] else []) +
                                                 [if oracle(i).complete then Complete else Failed]]
    {
      var start := ranges[i].start;
      var skipProcessing := HasAllData(i);
      if skipProcessing {
        if start !in results && !overwrite {
          results := results[start := [Complete]];
        }
        if !overwrite {
          return false, false;
        }
      }
      if attempts >= batchLimit {
        return false, false;
      }
      var hasDataInRange := false;
      if start in results {
        var issues, failures, complete := Tally(results[start]);
        if issues {
          return false, false;
        }
        if failures >= maxRetry {
          var marked := results[start];
          for x := 0 to |marked|
            invariant |marked| == |results[start]|
            invariant forall y :: 0 <= y < x ==> marked[y] == IssuesFound
          {
            marked := marked[x := IssuesFound];
          }
          assert marked == Repeat(|results[start]|, IssuesFound);
          results := results[start := marked];
          return false, false;
        }
        hasDataInRange := complete;
      }
      if hasDataInRange {
        return false, false;
      }
      var attempt := oracle(i);
      if attempt.Aborted? {
        return true, true;
      }
      var lookup := if start in results then results[start] else [];
      results := results[start := lookup + [if attempt.complete then Complete else Failed]];
      ranges := SetHasData(ranges, attempt.hasData);
      return true, false;
    }

    /** Whether every range is done, and which first results were seen. */
    method CheckCompletion() returns (completed: bool, allSuccessful: bool, allFailed: bool)
      ensures completed == AllFirstDone(View())
      ensures completed ==> allSuccessful == NoFirst(View(), IssuesFound) && allFailed == NoFirst(View(), Complete)
    {
      completed, allSuccessful, allFailed := true, true, true;
      ghost var job := View();
      for i := 0 to |ranges|
        invariant completed == DoneUpTo(job, i)
        invariant allSuccessful == NoFirstUpTo(job, IssuesFound, i)
        invariant allFailed == NoFirstUpTo(job, Complete, i)
      {
        var result := [];
        if ranges[i].start in results {
          result := results[ranges[i].start];
        } else {
          completed := false;
        }
        assert result == ResultsAt(job, i);
        UpToNext(job, i);
        if |result| > 0 {
          match result[0] {
            case IssuesFound => allSuccessful := false;
            case Complete => allFailed := false;
            case _ =>
              completed := false;
              return;
          }
        }
      }
    }

    /** Sets the status of a finished job. */
    method CompleteJob(allSuccessful: bool, allFailed: bool) returns (r: Outcome<Error>)
      modifies this`status
      ensures r == if allSuccessful && allFailed then Fail(JobInvalid) else Pass
      ensures status == if allSuccessful && allFailed then old(status)
                        else if allSuccessful then Complete
                        else if allFailed then Failed
                        else IssuesFound
    {
      if allSuccessful && allFailed {
        return Fail(JobInvalid);
      }
      if allSuccessful {
        status := Complete;
      } else if allFailed {
        status := Failed;
      } else {
        status := IssuesFound;
      }
      return Pass;
    }

    /** The pass over all ranges. */
    method MakePass(oracle: nat -> Attempt) returns (aborted: bool)
      modifies this
      ensures var pass := PassFrom(old(View()), 0, 0, oracle); View() == pass.job && aborted == pass.aborted
    {
      ghost var begin := View();
      var attempts := 0;
      for i := 0 to |ranges|
        invariant |ranges| == |begin.ranges| && i <= |ranges|
        invariant PassFrom(View(), i, attempts, oracle) == PassFrom(begin, 0, 0, oracle)
      {
        ghost var before := View();
        var tried;
        tried, aborted := HandleRange(i, attempts, oracle);
        if aborted {
          assert PassFrom(before, i, attempts, oracle) == Sweep(before, attempts + 1, true);
          return;
        }
        if tried {
          attempts := attempts + 1;
        }
        assert PassFrom(before, i, attempts - (if tried then 1 else 0), oracle)
            == PassFrom(View(), i + 1, attempts, oracle);
      }
      aborted := false;
    }

    /** One run of the job, behind the guards of runJob. */
    method Run(started: bool, hasData: seq<seq<bool>>, oracle: nat -> Attempt) returns (r: Outcome<Error>)
      modifies this
      ensures !started ==> r == Fail(NotStarted) && View() == old(View())
      ensures started ==> (View(), r) == RunJob(old(View()), Cycle(hasData, oracle))
    {
      if !started {
        return Fail(NotStarted);
      }
      if status != Active || |ranges| == 0 {
        return Fail(JobInvalid);
      }
      ranges := SetHasData(ranges, hasData);
      var aborted := MakePass(oracle);
      if aborted {
        return Fail(AttemptFailed);
      }
      var completed, allSuccessful, allFailed := CheckCompletion();
      if completed {
        r := CompleteJob(allSuccessful, allFailed);
      } else {
        r := Pass;
      }
    }
  }
}
