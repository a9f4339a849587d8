/**
 The older worker pool of grootfspool/pool.go. `New` registers the workers on
 a wait group, `Start` sizes the duration and error channels and launches the
 workers, each worker turns every job index it takes into exactly one duration
 (on success) or one error, and `Wait` closes both channels once every worker
 has left.

 Goroutine interleaving is abstracted: the environment supplies, for each job
 taken off the queue, the worker that took it, the random suffix, the runner's
 outcome and the elapsed time, and the deliveries happen in that order.
 */
module GrootfsPool {
  import opened Optional
  import opened Text
  import opened Folds
  import opened Runner

  datatype Pool = Pool(grootfsBin: string, storePath: string, image: string, concurrency: nat)

  /**
   A started pool: the launched worker ids, the wait-group counter, the two
   result channels (their buffered contents and common capacity), and whether
   `Wait` has closed them.
   */
  datatype Started = Started(
    pool: Pool,
    workerIds: seq<nat>,
    running: nat,
    capacity: nat,
    durations: seq<nat>,
    errors: seq<string>,
    closed: bool)

  /** `New`. `wg.Add` with a negative count panics, so a negative concurrency gives no pool. */
  function New(grootfsBin: string, storePath: string, image: string, concurrency: int): (p: Option<Pool>)
    ensures p.None? <==> concurrency < 0
    ensures p.Some? ==>
      p.value == Pool(grootfsBin, storePath, image, concurrency)
  {
    if concurrency < 0 then None else Some(Pool(grootfsBin, storePath, image, concurrency))
  }

  /**
   `Start`. `make` panics on a negative buffer size; otherwise exactly
   `concurrency` workers, numbered from 0, are launched, the wait group counts
   all of them, and both result channels are empty and open with capacity
   `totalBundles`.
   */
  function Start(p: Pool, totalBundles: int): (s: Option<Started>)
    ensures s.None? <==> totalBundles < 0
    ensures s.Some? ==>
      && s.value.pool == p
      && |s.value.workerIds| == p.concurrency == s.value.running
      && (forall w | 0 <= w < p.concurrency :: s.value.workerIds[w] == w)
      && s.value.capacity == totalBundles
      && s.value.durations == [] && s.value.errors == []
      && !s.value.closed
  {
    if totalBundles < 0 then None
    else Some(Started(p, Range(p.concurrency), p.concurrency, totalBundles, [], [], false))
  }

  /** The name a worker gives the image: `image-{workerId}-{job}-{rand}`. */
  function PoolImageName(workerId: nat, job: int, rand: nat): string
  {
    "image-" + NatToDecimal(workerId) + "-" + IntToDecimal(job) + "-" + NatToDecimal(rand)
  }

  lemma SplitNegativeThenDigits(i1: int, r1: nat, i2: int, r2: nat)
    requires i1 < 0 && i2 < 0
    requires IntToDecimal(i1) + "-" + NatToDecimal(r1) == IntToDecimal(i2) + "-" + NatToDecimal(r2)
    ensures i1 == i2 && r1 == r2
  {
    var a1, a2 := NatToDecimal(-i1), NatToDecimal(-i2);
    var b1, b2 := NatToDecimal(r1), NatToDecimal(r2);
    assert IntToDecimal(i1) == ['-'] + a1;
    assert IntToDecimal(i2) == ['-'] + a2;
    SplitAfterNegativeDigits(a1, b1, a2, b2);
    NatToDecimalInjective(-i1, -i2);
    NatToDecimalInjective(r1, r2);
  }

  lemma SplitNaturalThenDigits(i1: nat, r1: nat, i2: nat, r2: nat)
    requires IntToDecimal(i1) + "-" + NatToDecimal(r1) == IntToDecimal(i2) + "-" + NatToDecimal(r2)
    ensures i1 == i2 && r1 == r2
  {
    SplitAfterDigits(NatToDecimal(i1), NatToDecimal(r1), NatToDecimal(i2), NatToDecimal(r2), '-');
    NatToDecimalInjective(i1, i2);
    NatToDecimalInjective(r1, r2);
  }

  /** The sign of the job index is read off the first character, then the digits split at the dash. */
  lemma SplitSignedThenDigits(i1: int, r1: nat, i2: int, r2: nat)
    requires IntToDecimal(i1) + "-" + NatToDecimal(r1) == IntToDecimal(i2) + "-" + NatToDecimal(r2)
    ensures i1 == i2 && r1 == r2
  {
    var s := IntToDecimal(i1) + "-" + NatToDecimal(r1);
    assert s[0] == IntToDecimal(i1)[0] && s[0] == IntToDecimal(i2)[0];
    if i1 < 0 {
      SplitNegativeThenDigits(i1, r1, i2, r2);
    } else {
      SplitNaturalThenDigits(i1, r1, i2, r2);
    }
  }

  /** Names from distinct (worker, job, random suffix) triples are distinct. */
  lemma PoolImageNameInjective(w1: nat, j1: int, r1: nat, w2: nat, j2: int, r2: nat)
    requires PoolImageName(w1, j1, r1) == PoolImageName(w2, j2, r2)
    ensures w1 == w2 && j1 == j2 && r1 == r2
  {
    SplitPrefixedDigits("image-", NatToDecimal(w1), IntToDecimal(j1), NatToDecimal(r1),
      NatToDecimal(w2), IntToDecimal(j2), NatToDecimal(r2), '-');
    NatToDecimalInjective(w1, w2);
    SplitSignedThenDigits(j1, r1, j2, r2);
  }

  /** The command a worker runs for one job: the image name sits at index 5. */
  function WorkerCommand(p: Pool, workerId: nat, job: int, rand: nat): (cmd: seq<string>)
    ensures |cmd| == 6
    ensures cmd[0] == p.grootfsBin
    ensures cmd[1..5] == ["--store", p.storePath, "create", p.image]
    ensures cmd[5] == PoolImageName(workerId, job, rand)
  {
    var cmd := [p.grootfsBin, "--store", p.storePath, "create", p.image, PoolImageName(workerId, job, rand)];
    assert cmd[1..5] == ["--store", p.storePath, "create", p.image];
    cmd
  }

  /** What the environment decides about one job a worker takes off the queue. */
  datatype JobEvent = JobEvent(workerId: nat, job: int, rand: nat, outcome: RunnerOutcome, durationNs: nat)

  /** What a worker sends for one job: to the duration channel or to the error channel. */
  datatype Emission = Duration(ns: nat) | Error(text: string)

  /** The worker's handling of one job: a duration on success, the formatted error otherwise. */
  function Emit(e: JobEvent): (m: Emission)
    ensures m.Duration? <==> e.outcome.Succeeded?
    ensures m.Duration? ==> m.ns == e.durationNs
    ensures e.outcome.Failed? ==> m == Error(e.outcome.err + ": " + e.outcome.output)
  {
    match e.outcome
    case Succeeded => Duration(e.durationNs)
    case Failed(err, output) => Error(err + ": " + output)
  }

  /** An error sent by a worker contains the runner's error text. */
  lemma EmitKeepsRunnerError(e: JobEvent)
    requires e.outcome.Failed?
    ensures Emit(e).Error? && IsInfix(e.outcome.err, Emit(e).text)
  {
    InfixOfConcat([], e.outcome.err, ": " + e.outcome.output);
    assert [] + e.outcome.err + (": " + e.outcome.output) == e.outcome.err + ": " + e.outcome.output;
  }

  /** The send of one emission: it lands in exactly one of the two channels. */
  function Deliver(s: Started, m: Emission): (s': Started)
    ensures s'.(durations := s.durations, errors := s.errors) == s
    ensures m.Duration? ==> s'.durations == s.durations + [m.ns] && s'.errors == s.errors
    ensures m.Error? ==> s'.errors == s.errors + [m.text] && s'.durations == s.durations
  {
    match m
    case Duration(ns) => s.(durations := s.durations + [ns])
    case Error(text) => s.(errors := s.errors + [text])
  }

  /** The deliveries for a sequence of jobs, in order; only the two channels change. */
  function Process(s: Started, events: seq<JobEvent>): (s': Started)
    ensures s'.(durations := s.durations, errors := s.errors) == s
  {
    if events == [] then s else Deliver(Process(s, events[..|events| - 1]), Emit(events[|events| - 1]))
  }

  function SuccessWeight(e: JobEvent): nat
  {
    if e.outcome.Succeeded? then 1 else 0
  }

  function FailureWeight(e: JobEvent): nat
  {
    if e.outcome.Failed? then 1 else 0
  }

  function SuccessNsWeight(e: JobEvent): nat
  {
    if e.outcome.Succeeded? then e.durationNs else 0
  }

  /** The successful durations among `events`, in order. */
  function SuccessDurations(events: seq<JobEvent>): seq<nat>
  {
    if events == [] then []
    else
      var last := events[|events| - 1];
      SuccessDurations(events[..|events| - 1]) + (if last.outcome.Succeeded? then [last.durationNs] else [])
  }

  /** The error texts of the failed jobs among `events`, in order. */
  function FailureTexts(events: seq<JobEvent>): seq<string>
  {
    if events == [] then []
    else
      var last := events[|events| - 1];
      FailureTexts(events[..|events| - 1]) + (if last.outcome.Failed? then [Emit(last).text] else [])
  }

  /** When every failure reports runner error `e`, every error text a worker sends contains `e`. */
  lemma {:induction false} FailureTextsKeepRunnerError(events: seq<JobEvent>, e: string)
    requires forall k | 0 <= k < |events| && events[k].outcome.Failed? :: events[k].outcome.err == e
    ensures forall i | 0 <= i < |FailureTexts(events)| :: IsInfix(e, FailureTexts(events)[i])
  {
    if events != [] {
      var p := events[..|events| - 1];
      var last := events[|events| - 1];
      FailureTextsKeepRunnerError(p, e);
      if last.outcome.Failed? {
        EmitKeepsRunnerError(last);
      }
    }
  }

  /**
   Every job yields exactly one emission: the durations gain the elapsed time
   of each successful job and the errors the text of each failed job, in
   order; nothing else about the pool changes.
   */
  lemma {:induction false} ProcessSplitsOutcomes(s: Started, events: seq<JobEvent>)
    ensures Process(s, events).durations == s.durations + SuccessDurations(events)
    ensures Process(s, events).errors == s.errors + FailureTexts(events)
    ensures |Process(s, events).durations| == |s.durations| + SumBy(events, SuccessWeight)
    ensures |Process(s, events).errors| == |s.errors| + SumBy(events, FailureWeight)
    ensures Sum(Process(s, events).durations) == Sum(s.durations) + SumBy(events, SuccessNsWeight)
  {
    if events != [] {
      var p := events[..|events| - 1];
      var last := events[|events| - 1];
      var before := Process(s, p);
      ProcessSplitsOutcomes(s, p);
      assert Process(s, events) == Deliver(before, Emit(last));
      if last.outcome.Succeeded? {
        AppendAssociative(s.durations, SuccessDurations(p), [last.durationNs]);
        SumByConcat(before.durations, [last.durationNs], Identity);
      } else {
        AppendAssociative(s.errors, FailureTexts(p), [Emit(last).text]);
      }
    }
  }

  /** Each job adds to exactly one channel, so the two together grow by the number of jobs. */
  lemma {:induction false} OneEmissionPerJob(s: Started, events: seq<JobEvent>)
    ensures |Process(s, events).durations| + |Process(s, events).errors|
         == |s.durations| + |s.errors| + |events|
  {
    if events != [] {
      OneEmissionPerJob(s, events[..|events| - 1]);
    }
  }

  /** One failure out of two jobs leaves one duration and one error. */
  lemma OneFailureOfTwo(s: Started, ok: JobEvent, bad: JobEvent)
    requires ok.outcome.Succeeded? && bad.outcome.Failed?
    requires s.durations == [] && s.errors == []
    ensures |Process(s, [bad, ok]).durations| == 1
    ensures |Process(s, [bad, ok]).errors| == 1
  {
    ProcessSplitsOutcomes(s, [bad, ok]);
    assert [bad, ok][..1] == [bad];
    assert [bad][..0] == [];
    assert [bad, ok] == [bad] + [ok];
    SumByConcat([bad], [ok], SuccessWeight);
    SumByConcat([bad], [ok], FailureWeight);
    SumBySingleton(bad, SuccessWeight);
    SumBySingleton(ok, SuccessWeight);
    SumBySingleton(bad, FailureWeight);
    SumBySingleton(ok, FailureWeight);
  }

  /** As many jobs as the capacity never overfill either buffered channel, so no send blocks. */
  lemma ChannelsNeverOverfill(s: Started, events: seq<JobEvent>)
    requires |s.durations| + |s.errors| + |events| <= s.capacity
    ensures |Process(s, events).durations| <= s.capacity
    ensures |Process(s, events).errors| <= s.capacity
  {
    OneEmissionPerJob(s, events);
  }

  /** A worker leaves after the job queue is drained: `defer p.wg.Done()`. */
  function WorkerDone(s: Started): (s': Started)
    requires s.running > 0
    ensures s'.running == s.running - 1
  {
    s.(running := s.running - 1)
  }

  /** `k` workers leave. */
  function WorkersDone(s: Started, k: nat): (s': Started)
    requires k <= s.running
    ensures s'.running == s.running - k
    ensures s'.(running := s.running) == s
  {
    if k == 0 then s else WorkerDone(WorkersDone(s, k - 1))
  }

  /** `Wait`: blocks while a worker runs, then closes both channels and keeps their contents. */
  function Wait(s: Started): (r: Option<Started>)
    ensures r.Some? <==> s.running == 0
    ensures r.Some? ==> r.value.closed && r.value.(closed := s.closed) == s
  {
    if s.running > 0 then None else Some(s.(closed := true))
  }

  /** The channels close only once all launched workers have left. */
  lemma WaitReturnsAfterAllWorkers(p: Pool, totalBundles: nat, events: seq<JobEvent>, k: nat)
    requires k <= p.concurrency
    ensures var s := Process(Start(p, totalBundles).value, events);
      Wait(WorkersDone(s, k)).Some? <==> k == p.concurrency
  {
  }
}
