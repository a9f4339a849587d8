/**
 `run` and the `result` record of main.go: enqueue the bundle numbers, wait for
 the pool, then reduce the duration channel and the error channel into the
 figures the benchmark prints.
 */
module BenchMain {
  import opened Optional
  import opened GoNumeric
  import opened Folds
  import opened Runner
  import opened GrootfsPool

  datatype BenchResult = BenchResult(
    totalDurationNs: nat,
    bundlesPerSecond: Float,
    averageTimePerBundle: Float,
    totalErrorsAmt: nat,
    errorRate: Float,
    bundlesRequested: int,
    concurrencyFactor: int)

  /** How `run` ends: with a result, or with the panic of `make` on a negative bundle count. */
  datatype RunOutcome = Completed(result: BenchResult) | Panics

  /** The bundle numbers `run` sends on the job queue before closing it: `1, 2, ..., n`. */
  function Bundles(n: int): (b: seq<int>)
    ensures |b| == if n < 0 then 0 else n
    ensures forall k | 0 <= k < |b| :: b[k] == k + 1
  {
    if n <= 0 then [] else Bundles(n - 1) + [n]
  }

  /** The queue is sent in increasing order, every number at most once. */
  lemma BundlesIncreasing(n: int, i: nat, j: nat)
    requires i < j < |Bundles(n)|
    ensures 0 < Bundles(n)[i] < Bundles(n)[j] <= n
  {
  }

  /**
   The bundles the workers take off the queue before `Wait` returns. With no
   worker the queue is never read: `Wait` returns at once.
   */
  function Consumed(p: Pool, n: int): seq<int>
  {
    if p.concurrency == 0 then [] else Bundles(n)
  }

  /** The environment's record of the consumed jobs, in queue order, each taken by a launched worker. */
  predicate EventsMatchQueue(p: Pool, n: int, events: seq<JobEvent>)
  {
    && |events| == |Consumed(p, n)|
    && forall k | 0 <= k < |events| :: events[k].job == Consumed(p, n)[k] && events[k].workerId < p.concurrency
  }

  /**
   `run(totalBundlesAmt, concurrency, pool)`. The error rate is taken over the
   requested bundle count, not over the jobs observed, and the average has no
   guard against zero successes.
   */
  function Run(totalBundlesAmt: int, concurrency: int, pool: Pool, events: seq<JobEvent>, totalDurationNs: nat): (o: RunOutcome)
    requires EventsMatchQueue(pool, totalBundlesAmt, events)
    ensures o.Panics? <==> totalBundlesAmt < 0
    ensures o.Completed? ==>
      var r := o.result;
      var created := SumBy(events, SuccessWeight);
      var failed := SumBy(events, FailureWeight);
      && r.bundlesRequested == totalBundlesAmt
      && r.concurrencyFactor == concurrency
      && r.totalDurationNs == totalDurationNs
      && r.totalErrorsAmt == failed
      && r.bundlesPerSecond == Div(created as real, Seconds(totalDurationNs))
      && r.averageTimePerBundle == Div(Seconds(SumBy(events, SuccessNsWeight)), created as real)
      && r.errorRate == Div((failed * 100) as real, totalBundlesAmt as real)
  {
    match Start(pool, totalBundlesAmt)
    case None => Panics
    case Some(started) =>
      var drained := Process(started, events);
      ProcessSplitsOutcomes(started, events);
      var finished := Wait(WorkersDone(drained, pool.concurrency)).value;
      var createdBundles := |finished.durations|;
      var totalErrorsAmt := |finished.errors|;
      Completed(BenchResult(
        totalDurationNs := totalDurationNs,
        bundlesPerSecond := Div(createdBundles as real, Seconds(totalDurationNs)),
        averageTimePerBundle := Div(Seconds(Sum(finished.durations)), createdBundles as real),
        totalErrorsAmt := totalErrorsAmt,
        errorRate := Div((totalErrorsAmt * 100) as real, totalBundlesAmt as real),
        bundlesRequested := totalBundlesAmt,
        concurrencyFactor := concurrency))
  }

  lemma {:induction false} WeightsSplit(events: seq<JobEvent>)
    ensures SumBy(events, SuccessWeight) + SumBy(events, FailureWeight) == |events|
  {
    if events != [] {
      WeightsSplit(events[..|events| - 1]);
    }
  }

  /**
   With at least one worker every requested bundle ends up as exactly one
   duration or one error, so for a positive request the error rate is a
   percentage; for a request of 0 it is `0/0`, a NaN.
   */
  lemma EveryBundleAccounted(totalBundlesAmt: nat, concurrency: int, pool: Pool, events: seq<JobEvent>, totalDurationNs: nat)
    requires pool.concurrency > 0
    requires EventsMatchQueue(pool, totalBundlesAmt, events)
    ensures var r := Run(totalBundlesAmt, concurrency, pool, events, totalDurationNs).result;
      SumBy(events, SuccessWeight) + r.totalErrorsAmt == totalBundlesAmt
    ensures totalBundlesAmt > 0 ==>
      var r := Run(totalBundlesAmt, concurrency, pool, events, totalDurationNs).result;
      r.errorRate.Finite? && 0.0 <= r.errorRate.value <= 100.0
    ensures totalBundlesAmt == 0 ==>
      Run(totalBundlesAmt, concurrency, pool, events, totalDurationNs).result.errorRate == NaN
  {
    WeightsSplit(events);
    if totalBundlesAmt > 0 {
      PercentageBounds(SumBy(events, FailureWeight), totalBundlesAmt);
    }
  }

  /** With at least one success the average is the mean duration, in seconds, of the successful bundles. */
  lemma AverageOverCreated(totalBundlesAmt: nat, concurrency: int, pool: Pool, events: seq<JobEvent>, totalDurationNs: nat)
    requires EventsMatchQueue(pool, totalBundlesAmt, events)
    requires SumBy(events, SuccessWeight) > 0
    ensures var r := Run(totalBundlesAmt, concurrency, pool, events, totalDurationNs).result;
      r.averageTimePerBundle == Finite(Seconds(SumBy(events, SuccessNsWeight)) / SumBy(events, SuccessWeight) as real)
  {
  }

  /**
   With no worker nothing is created and nothing fails; the average is 0/0, a
   NaN, and the error rate is 0 for a positive request and NaN for none.
   */
  lemma NoWorkersNoBundles(totalBundlesAmt: nat, concurrency: int, pool: Pool, events: seq<JobEvent>, totalDurationNs: nat)
    requires pool.concurrency == 0
    requires EventsMatchQueue(pool, totalBundlesAmt, events)
    ensures var r := Run(totalBundlesAmt, concurrency, pool, events, totalDurationNs).result;
      r.totalErrorsAmt == 0 && r.averageTimePerBundle == NaN
      && (totalBundlesAmt > 0 ==> r.errorRate == Finite(0.0))
      && (totalBundlesAmt == 0 ==> r.errorRate == NaN)
  {
    assert events == [];
  }
}
