/**
 The bulk "create" job of bench/job.go: concurrency defaulting, the split of the
 requested image count over worker goroutines, the argument list handed to the
 grootfs binary, the Result each invocation pushes, and the reduction of the
 Result channel into a Summary.

 Goroutines, the wait group and the Result channel are abstracted: the
 environment supplies one Attempt per planned invocation (clock reading, runner
 outcome, elapsed time) and the channel is drained in that order. Every count
 and sum in the Summary is independent of the order (SummaryIgnoresOrder).
 */
module BenchJob {
  import opened Optional
  import opened GoNumeric
  import opened Text
  import opened Folds
  import opened Runner

  /** The value passed with `--disk-limit-size-bytes` when quotas are on. */
  const DiskLimitSizeBytes: string := "1019430400"

  datatype Job = Job(
    grootfsBinPath: string,
    storePath: string,
    driver: string,
    logLevel: string,
    baseImage: string,
    useQuota: bool,
    concurrency: int,
    totalImages: int)

  /** What the environment decides about one invocation: the `UnixNano` clock reading used in the image name, the runner's outcome, the elapsed time. */
  datatype Attempt = Attempt(nanos: int, outcome: RunnerOutcome, durationNs: nat)

  datatype Result = Result(err: Option<string>, durationNs: nat)

  datatype SumSpec = SumSpec(durationNs: nat, concurrency: int, useQuota: bool)

  datatype Summary = Summary(
    totalDurationNs: nat,
    imagesPerSecond: Float,
    ranWithQuota: bool,
    averageTimePerImage: real,
    totalErrorsAmt: nat,
    errorRate: Float,
    totalImages: nat,
    concurrencyFactor: int,
    errorMessages: seq<string>)

  /** How `Job.Run` ends: with a Summary, with a runtime panic, or never (blocked in `wg.Wait`). */
  datatype RunOutcome = Completed(summary: Summary) | Panics | Blocks

  // ---------------------------------------------------------------------------
  // Concurrency and the worker plan
  // ---------------------------------------------------------------------------

  /** `Run` replaces a zero concurrency by the CPU count; the result is a safe divisor. */
  function ResolveConcurrency(concurrency: int, cpuCount: nat): (c: int)
    requires cpuCount >= 1
    ensures c != 0
    ensures concurrency != 0 ==> c == concurrency
    ensures concurrency == 0 ==> c == cpuCount
  {
    if concurrency == 0 then cpuCount else concurrency
  }

  /** The iteration counts of the `c` main goroutines (none when `c` is negative). */
  function MainCounts(n: nat, c: int): seq<nat>
    requires c != 0
  {
    if c > 0 then Repeat<nat>(Quo(n, c), c) else []
  }

  /**
   The iteration count of every goroutine `runWorkers` launches, in launch order:
   the main workers, then one single-iteration worker per leftover.
   */
  function WorkerPlan(n: nat, c: int): seq<nat>
    requires c != 0
  {
    MainCounts(n, c) + Repeat<nat>(1, Rem(n, c))
  }

  function PlannedRuns(n: nat, c: int): nat
    requires c != 0
  {
    Sum(WorkerPlan(n, c))
  }

  lemma MainCountsTotal(n: nat, c: int)
    requires c != 0
    ensures Sum(MainCounts(n, c)) == if c > 0 then c * Quo(n, c) else 0
  {
    if c > 0 {
      SumRepeat(Quo(n, c), c);
    }
  }

  lemma PlannedRunsSplit(n: nat, c: int)
    requires c != 0
    ensures PlannedRuns(n, c) == Sum(MainCounts(n, c)) + Rem(n, c)
  {
    SumByConcat(MainCounts(n, c), Repeat<nat>(1, Rem(n, c)), Identity);
    SumRepeat(1, Rem(n, c));
  }

  lemma RemBelowDivisor(n: nat, d: nat)
    requires d > 0
    ensures n % d == n <==> n < d
  {
    if n >= d {
      assert n % d < d;
    }
  }

  /**
   The plan runs exactly `n` invocations for a positive concurrency; for a
   negative one only the leftover goroutines run. The wait group, sized `n`,
   is released exactly when the plan runs `n` invocations.
   */
  lemma WorkerPlanTotal(n: nat, c: int)
    requires c != 0
    ensures PlannedRuns(n, c) == if c > 0 then n else n % -c
    ensures PlannedRuns(n, c) == n <==> c > 0 || n < -c
  {
    PlannedRunsSplit(n, c);
    MainCountsTotal(n, c);
    if c > 0 {
      QuoRemNatural(n, c);
      QuoRem(n, c);
    } else {
      assert Rem(n, c) == n % -c;
      RemBelowDivisor(n, -c);
    }
  }

  /** The worker ids of `workers` goroutines numbered from 0, each running `per` iterations. */
  function MainIds(workers: nat, per: nat): seq<nat>
  {
    if workers == 0 then [] else MainIds(workers - 1, per) + Repeat<nat>(workers - 1, per)
  }

  /**
   The worker id passed to `grootfsCmd` by each planned invocation. Leftover
   goroutines are numbered from 0 again, so they share ids with main workers.
   */
  function InvocationIds(n: nat, c: int): seq<nat>
    requires c != 0
  {
    (if c > 0 then MainIds(c, Quo(n, c)) else []) + Range(Rem(n, c))
  }

  lemma {:induction false} MainIdsLength(workers: nat, per: nat)
    ensures |MainIds(workers, per)| == Sum(Repeat<nat>(per, workers))
  {
    if workers > 0 {
      MainIdsLength(workers - 1, per);
      assert Repeat<nat>(per, workers)[..workers - 1] == Repeat<nat>(per, workers - 1);
    }
  }

  lemma {:induction false} MainIdsCount(workers: nat, per: nat, w: nat)
    ensures Count(MainIds(workers, per), w) == if w < workers then per else 0
  {
    if workers > 0 {
      var id: nat := workers - 1;
      assert MainIds(workers, per) == MainIds(id, per) + Repeat<nat>(id, per);
      MainIdsCount(id, per, w);
      CountAppendRepeat<nat>(MainIds(id, per), id, per, w);
    }
  }

  /** One invocation per planned iteration. */
  lemma InvocationIdsLength(n: nat, c: int)
    requires c != 0
    ensures |InvocationIds(n, c)| == PlannedRuns(n, c)
  {
    PlannedRunsSplit(n, c);
    if c > 0 {
      MainIdsLength(c, Quo(n, c));
    }
  }

  /** Worker id `w` is used `n / c` times by main worker `w` plus once by leftover worker `w`. */
  lemma InvocationIdsCount(n: nat, c: int, w: nat)
    requires c != 0
    ensures Count(InvocationIds(n, c), w)
         == (if w < c then Quo(n, c) else 0) + (if w < Rem(n, c) then 1 else 0)
  {
    IdsCount(c, Quo(n, c), Rem(n, c), w);
  }

  lemma IdsCount(c: int, per: int, leftovers: nat, w: nat)
    requires c > 0 ==> per >= 0
    ensures Count((if c > 0 then MainIds(c, per) else []) + Range(leftovers), w)
         == (if w < c then per else 0) + (if w < leftovers then 1 else 0)
  {
    var main: seq<nat> := if c > 0 then MainIds(c, per) else [];
    CountConcat(main, Range(leftovers), w);
    RangeCount(leftovers, w);
    if c > 0 {
      MainIdsCount(c, per, w);
    }
  }

  /** With a positive concurrency every invocation's worker id lies in `[0, c)`. */
  lemma InvocationIdsBelowConcurrency(n: nat, c: int, k: nat)
    requires c > 0
    requires k < |InvocationIds(n, c)|
    ensures InvocationIds(n, c)[k] < c
  {
    var ids := InvocationIds(n, c);
    var w := ids[k];
    CountPositive(ids, k);
    InvocationIdsCount(n, c, w);
    QuoRem(n, c);
  }

  /** `TotalImages = 11`, `Concurrency = 3`: three workers of three and two leftovers of one, eleven commands. */
  lemma ElevenImagesOverThreeWorkers()
    ensures WorkerPlan(11, 3) == [3, 3, 3, 1, 1]
    ensures PlannedRuns(11, 3) == 11
  {
    assert Quo(11, 3) == 3 && Rem(11, 3) == 2;
    assert Repeat<nat>(3, 3) == [3, 3, 3];
    assert Repeat<nat>(1, 2) == [1, 1];
    WorkerPlanTotal(11, 3);
  }

  // ---------------------------------------------------------------------------
  // The grootfs argument list
  // ---------------------------------------------------------------------------

  /** The parts of a `grootfs ... create ...` invocation. */
  datatype CreateRequest = CreateRequest(
    storePath: string,
    logLevel: string,
    driver: string,
    useQuota: bool,
    baseImage: string,
    imageName: string)

  /** The name `grootfsCmd` gives the image: `base-image-{workerId}-{UnixNano}`. */
  function ImageName(workerId: nat, nanos: int): string
  {
    "base-image-" + NatToDecimal(workerId) + "-" + IntToDecimal(nanos)
  }

  /** Names from distinct (worker id, clock reading) pairs are distinct. */
  lemma ImageNameInjective(w1: nat, t1: int, w2: nat, t2: int)
    requires ImageName(w1, t1) == ImageName(w2, t2)
    ensures w1 == w2 && t1 == t2
  {
    SplitPrefixedDigit("base-image-", NatToDecimal(w1), IntToDecimal(t1), NatToDecimal(w2), IntToDecimal(t2), '-');
    NatToDecimalInjective(w1, w2);
    IntToDecimalInjective(t1, t2);
  }

  /** Index of `"create"` in the argument list. */
  function CreateIndex(driver: string): nat
  {
    if driver != "" then 6 else 4
  }

  /** The argument list (without the binary) for one create invocation. */
  function CreateArgs(r: CreateRequest): (args: seq<string>)
    ensures |args| == 7 + (if r.driver != "" then 2 else 0) + (if r.useQuota then 2 else 0)
    ensures args[..4] == ["--store", r.storePath, "--log-level", r.logLevel]
    ensures r.driver != "" ==> args[4..6] == ["--driver", r.driver]
    ensures args[CreateIndex(r.driver)] == "create"
    ensures r.useQuota ==>
      args[CreateIndex(r.driver) + 1..CreateIndex(r.driver) + 3] == ["--disk-limit-size-bytes", DiskLimitSizeBytes]
    ensures !r.useQuota ==> args[CreateIndex(r.driver) + 1] == r.baseImage
    ensures args[|args| - 2..] == [r.baseImage, r.imageName]
  {
    ["--store", r.storePath, "--log-level", r.logLevel]
    + (if r.driver != "" then ["--driver", r.driver] else [])
    + ["create"]
    + (if r.useQuota then ["--disk-limit-size-bytes", DiskLimitSizeBytes] else [])
    + [r.baseImage, r.imageName]
  }

  /** Reads an argument list back according to the grammar `CreateArgs` writes. */
  function ParseCreateArgs(args: seq<string>): Option<CreateRequest>
  {
    if |args| < 4 || args[0] != "--store" || args[2] != "--log-level" then None
    else ParseDriver(args[1], args[3], args[4..])
  }

  function ParseDriver(storePath: string, logLevel: string, rest: seq<string>): Option<CreateRequest>
  {
    if |rest| >= 2 && rest[0] == "--driver" && rest[1] != "" then
      ParseCreate(storePath, logLevel, rest[1], rest[2..])
    else
      ParseCreate(storePath, logLevel, "", rest)
  }

  function ParseCreate(storePath: string, logLevel: string, driver: string, rest: seq<string>): Option<CreateRequest>
  {
    if |rest| == 3 && rest[0] == "create" then
      Some(CreateRequest(storePath, logLevel, driver, false, rest[1], rest[2]))
    else if |rest| == 5 && rest[0] == "create" && rest[1] == "--disk-limit-size-bytes" && rest[2] == DiskLimitSizeBytes then
      Some(CreateRequest(storePath, logLevel, driver, true, rest[3], rest[4]))
    else
      None
  }

  /** Every request survives being written as arguments and read back. */
  lemma CreateArgsRoundTrip(r: CreateRequest)
    ensures ParseCreateArgs(CreateArgs(r)) == Some(r)
  {
    var args := CreateArgs(r);
    var tail := if r.useQuota
      then ["create", "--disk-limit-size-bytes", DiskLimitSizeBytes, r.baseImage, r.imageName]
      else ["create", r.baseImage, r.imageName];
    if r.driver != "" {
      assert args[4..] == ["--driver", r.driver] + tail;
      assert args[4..][2..] == tail;
    } else {
      assert args[4..] == tail;
    }
  }

  /** Every argument list the parser accepts is exactly the one written for what it read. */
  lemma ParseCreateArgsExact(args: seq<string>)
    requires ParseCreateArgs(args).Some?
    ensures CreateArgs(ParseCreateArgs(args).value) == args
  {
    var r := ParseCreateArgs(args).value;
    var rest := args[4..];
    if |rest| >= 2 && rest[0] == "--driver" && rest[1] != "" {
      assert args == args[..4] + ["--driver", rest[1]] + rest[2..];
    } else {
      assert args == args[..4] + rest;
    }
  }

  /** The request `grootfsCmd` builds for worker `workerId` at clock reading `nanos`. */
  function RequestFor(job: Job, workerId: nat, nanos: int): CreateRequest
  {
    CreateRequest(job.storePath, job.logLevel, job.driver, job.useQuota, job.baseImage, ImageName(workerId, nanos))
  }

  /** `exec.Command(GrootFSBinPath, args...).Args`: the binary followed by the arguments. */
  function GrootfsCommand(job: Job, workerId: nat, nanos: int): (cmd: seq<string>)
    ensures |cmd| == 8 + (if job.driver != "" then 2 else 0) + (if job.useQuota then 2 else 0)
    ensures cmd[0] == job.grootfsBinPath
    ensures ParseCreateArgs(cmd[1..]) == Some(RequestFor(job, workerId, nanos))
    ensures cmd[|cmd| - 2] == job.baseImage && cmd[|cmd| - 1] == ImageName(workerId, nanos)
  {
    var args := CreateArgs(RequestFor(job, workerId, nanos));
    CreateArgsRoundTrip(RequestFor(job, workerId, nanos));
    assert ([job.grootfsBinPath] + args)[1..] == args;
    [job.grootfsBinPath] + args
  }

  // ---------------------------------------------------------------------------
  // One invocation
  // ---------------------------------------------------------------------------

  /** `run`: the Result pushed for one invocation. */
  function RunInvocation(a: Attempt): (r: Result)
    ensures r.durationNs == a.durationNs
    ensures r.err.None? <==> a.outcome.Succeeded?
    ensures a.outcome.Failed? ==> r.err == Some(a.outcome.err + ", " + a.outcome.output)
  {
    match a.outcome
    case Succeeded => Result(None, a.durationNs)
    case Failed(err, output) => Result(Some(err + ", " + output), a.durationNs)
  }

  /** A failed invocation's error text contains both the runner's error and the process output. */
  lemma RunInvocationKeepsOutput(a: Attempt)
    requires a.outcome.Failed?
    ensures IsInfix(a.outcome.err, RunInvocation(a).err.value)
    ensures IsInfix(a.outcome.output, RunInvocation(a).err.value)
  {
    var e := a.outcome.err;
    var o := a.outcome.output;
    InfixOfConcat([], e, ", " + o);
    assert [] + e + (", " + o) == e + ", " + o;
    InfixOfConcat(e + ", ", o, []);
    assert e + ", " + o + [] == e + ", " + o;
  }

  /** The Results of a sequence of attempts, one each, in the same order. */
  function JobResults(attempts: seq<Attempt>): (rs: seq<Result>)
    ensures |rs| == |attempts|
    ensures forall k | 0 <= k < |rs| :: rs[k] == RunInvocation(attempts[k])
  {
    seq(|attempts|, k requires 0 <= k < |attempts| => RunInvocation(attempts[k]))
  }

  // ---------------------------------------------------------------------------
  // SummarizeResults
  // ---------------------------------------------------------------------------

  function FailWeight(r: Result): nat
  {
    if r.err.Some? then 1 else 0
  }

  function SuccessNsWeight(r: Result): nat
  {
    if r.err.None? then r.durationNs else 0
  }

  /** The number of Results that carry an error. */
  function CountFailed(rs: seq<Result>): nat
  {
    SumBy(rs, FailWeight)
  }

  /** The total elapsed time of the Results without an error. */
  function SuccessNs(rs: seq<Result>): nat
  {
    SumBy(rs, SuccessNsWeight)
  }

  /** The message recorded for the failed Result at 1-based stream position `position`. */
  function ErrorMessage(position: nat, err: string): string
  {
    "could not create image " + NatToDecimal(position) + ": " + err + "\n"
  }

  /** A summary message contains the error text it reports. */
  lemma ErrorMessageKeepsError(position: nat, err: string)
    ensures IsInfix(err, ErrorMessage(position, err))
  {
    InfixOfConcat("could not create image " + NatToDecimal(position) + ": ", err, "\n");
  }

  /** The message reporting a failed invocation contains the runner's error and the process output. */
  lemma ErrorMessageKeepsOutput(position: nat, a: Attempt)
    requires a.outcome.Failed?
    ensures IsInfix(a.outcome.err, ErrorMessage(position, RunInvocation(a).err.value))
    ensures IsInfix(a.outcome.output, ErrorMessage(position, RunInvocation(a).err.value))
  {
    var head := "could not create image " + NatToDecimal(position) + ": ";
    var e, o := a.outcome.err, a.outcome.output;
    assert ErrorMessage(position, RunInvocation(a).err.value) == head + (e + ", " + o) + "\n";
    InfixOfConcat(head, e, ", " + o + "\n");
    assert head + (e + ", " + o) + "\n" == head + e + (", " + o + "\n");
    InfixOfConcat(head + e + ", ", o, "\n");
    assert head + (e + ", " + o) + "\n" == head + e + ", " + o + "\n";
  }

  /** The state of the drain loop: images seen, errors seen, success time so far, messages so far. */
  datatype Tally = Tally(total: nat, errors: nat, successNs: nat, messages: seq<string>)

  const EmptyTally: Tally := Tally(0, 0, 0, [])

  /** One iteration of the `for res := range spec.ResChan` loop. */
  function Step(t: Tally, r: Result): Tally
  {
    var total := t.total + 1;
    match r.err
    case Some(e) => Tally(total, t.errors + 1, t.successNs, t.messages + [ErrorMessage(total, e)])
    case None => Tally(total, t.errors, t.successNs + r.durationNs, t.messages)
  }

  /** The drain loop, front to back. */
  function FoldResults(t: Tally, rs: seq<Result>): Tally
    decreases |rs|
  {
    if rs == [] then t else FoldResults(Step(t, rs[0]), rs[1..])
  }

  /**
   The tally after draining `rs` from the start: it counts every Result, the
   failed ones, the success time, and holds one message per failure, the
   message of the failure at position `k` sitting at the index that counts the
   failures before it.
   */
  function TallyOf(rs: seq<Result>): (t: Tally)
    ensures t.total == |rs|
    ensures t.errors == CountFailed(rs) <= |rs|
    ensures t.successNs == SuccessNs(rs)
    ensures |t.messages| == t.errors
    ensures forall k | 0 <= k < |rs| && rs[k].err.Some? ::
      CountFailed(rs[..k]) < |t.messages| && t.messages[CountFailed(rs[..k])] == ErrorMessage(k + 1, rs[k].err.value)
  {
    if rs == [] then EmptyTally
    else
      var p := rs[..|rs| - 1];
      var t := Step(TallyOf(p), rs[|rs| - 1]);
      assert forall k | 0 <= k < |p| :: rs[..k] == p[..k];
      assert rs[..|p|] == p;
      t
  }

  lemma {:induction false} FoldFromPrefix(p: seq<Result>, s: seq<Result>)
    ensures FoldResults(TallyOf(p), s) == TallyOf(p + s)
    decreases |s|
  {
    if s != [] {
      assert (p + [s[0]])[..|p|] == p;
      assert p + [s[0]] + s[1..] == p + s;
      FoldFromPrefix(p + [s[0]], s[1..]);
    } else {
      assert p + s == p;
    }
  }

  /** The drain loop started from nothing computes `TallyOf`. */
  lemma DrainIsTally(rs: seq<Result>)
    ensures FoldResults(EmptyTally, rs) == TallyOf(rs)
  {
    FoldFromPrefix([], rs);
    assert [] + rs == rs;
  }

  /** `SummarizeResults`: the reduction of the drained Result channel into a Summary. */
  function SummarizeResults(spec: SumSpec, rs: seq<Result>): (s: Summary)
    ensures s.totalImages == |rs|
    ensures s.totalErrorsAmt == CountFailed(rs) <= |rs|
    ensures |s.errorMessages| == s.totalErrorsAmt
    ensures forall k | 0 <= k < |rs| && rs[k].err.Some? ::
      CountFailed(rs[..k]) < |s.errorMessages|
      && s.errorMessages[CountFailed(rs[..k])] == ErrorMessage(k + 1, rs[k].err.value)
    ensures s.concurrencyFactor == spec.concurrency
    ensures s.totalDurationNs == spec.durationNs
    ensures s.ranWithQuota == spec.useQuota
    ensures s.imagesPerSecond == Div((|rs| - CountFailed(rs)) as real, Seconds(spec.durationNs))
    ensures s.errorRate == Div((CountFailed(rs) * 100) as real, |rs| as real)
    ensures s.averageTimePerImage ==
      if |rs| == CountFailed(rs) then -1.0
      else Seconds(SuccessNs(rs)) / (|rs| - CountFailed(rs)) as real
  {
    var t := FoldResults(EmptyTally, rs);
    DrainIsTally(rs);
    var created := t.total - t.errors;
    Summary(
      totalDurationNs := spec.durationNs,
      imagesPerSecond := Div(created as real, Seconds(spec.durationNs)),
      ranWithQuota := spec.useQuota,
      averageTimePerImage := if created == 0 then -1.0 else Seconds(t.successNs) / created as real,
      totalErrorsAmt := t.errors,
      errorRate := Div((t.errors * 100) as real, t.total as real),
      totalImages := t.total,
      concurrencyFactor := spec.concurrency,
      errorMessages := t.messages)
  }

  /** With at least one Result the error rate is a finite percentage. */
  lemma ErrorRateIsPercentage(spec: SumSpec, rs: seq<Result>)
    requires |rs| > 0
    ensures SummarizeResults(spec, rs).errorRate.Finite?
    ensures 0.0 <= SummarizeResults(spec, rs).errorRate.value <= 100.0
  {
    var s := SummarizeResults(spec, rs);
    PercentageBounds(CountFailed(rs), |rs|);
  }

  lemma {:induction false} CountFailedAll(rs: seq<Result>)
    requires forall k | 0 <= k < |rs| :: rs[k].err.Some?
    ensures CountFailed(rs) == |rs|
  {
    if rs != [] {
      CountFailedAll(rs[..|rs| - 1]);
    }
  }

  /**
   When every invocation fails: message `k` reports the Result at position
   `k + 1` with its error, the average is `-1` and the error rate is 100.
   */
  lemma AllFailedSummary(spec: SumSpec, rs: seq<Result>)
    requires |rs| > 0
    requires forall k | 0 <= k < |rs| :: rs[k].err.Some?
    ensures |SummarizeResults(spec, rs).errorMessages| == |rs|
    ensures forall k | 0 <= k < |rs| ::
      SummarizeResults(spec, rs).errorMessages[k] == ErrorMessage(k + 1, rs[k].err.value)
    ensures SummarizeResults(spec, rs).averageTimePerImage == -1.0
    ensures SummarizeResults(spec, rs).errorRate == Finite(100.0)
  {
    CountFailedAll(rs);
    PercentageBounds(|rs|, |rs|);
    forall k | 0 <= k < |rs|
      ensures SummarizeResults(spec, rs).errorMessages[k] == ErrorMessage(k + 1, rs[k].err.value)
    {
      CountFailedAll(rs[..k]);
    }
  }

  /** Draining the channel in any other order gives the same counts, rates and averages. */
  lemma SummaryIgnoresOrder(spec: SumSpec, a: seq<Result>, b: seq<Result>)
    requires multiset(a) == multiset(b)
    ensures var sa, sb := SummarizeResults(spec, a), SummarizeResults(spec, b);
      sa.(errorMessages := []) == sb.(errorMessages := [])
      && |sa.errorMessages| == |sb.errorMessages|
  {
    SumByPermutation(a, b, FailWeight);
    SumByPermutation(a, b, SuccessNsWeight);
    assert |a| == |multiset(a)| == |multiset(b)| == |b|;
  }

  // ---------------------------------------------------------------------------
  // Job.Run
  // ---------------------------------------------------------------------------

  function AttemptFailWeight(a: Attempt): nat
  {
    if a.outcome.Failed? then 1 else 0
  }

  lemma {:induction false} FailedAttemptsCount(attempts: seq<Attempt>)
    ensures CountFailed(JobResults(attempts)) == SumBy(attempts, AttemptFailWeight)
  {
    if attempts != [] {
      var p := attempts[..|attempts| - 1];
      assert JobResults(attempts)[..|attempts| - 1] == JobResults(p);
      FailedAttemptsCount(p);
    }
  }

  /** The job after `Run` has defaulted its concurrency. */
  function Resolved(job: Job, cpuCount: nat): (j: Job)
    requires cpuCount >= 1
    ensures j.concurrency != 0
    ensures job.concurrency != 0 ==> j == job
    ensures job.concurrency == 0 ==> j.concurrency == cpuCount
    ensures j.(concurrency := job.concurrency) == job
  {
    job.(concurrency := ResolveConcurrency(job.concurrency, cpuCount))
  }

  /** The attempts line up one-to-one with the invocations the plan launches. */
  predicate AttemptsMatchPlan(job: Job, cpuCount: nat, attempts: seq<Attempt>)
    requires cpuCount >= 1
  {
    job.totalImages >= 0 ==>
      |attempts| == PlannedRuns(job.totalImages, ResolveConcurrency(job.concurrency, cpuCount))
  }

  /**
   `Job.Run`. A negative image count panics in `make`; a plan that launches
   fewer invocations than the wait group counts blocks forever; otherwise the
   Summary reduces one Result per invocation.
   */
  function RunJob(job: Job, cpuCount: nat, attempts: seq<Attempt>, totalDurationNs: nat): (o: RunOutcome)
    requires cpuCount >= 1
    requires AttemptsMatchPlan(job, cpuCount, attempts)
    ensures o.Panics? <==> job.totalImages < 0
    ensures o.Completed? <==> job.totalImages >= 0 && (job.concurrency >= 0 || job.totalImages < -job.concurrency)
    ensures o.Completed? ==>
      && o.summary.concurrencyFactor == ResolveConcurrency(job.concurrency, cpuCount)
      && o.summary.totalImages == job.totalImages
      && o.summary.totalErrorsAmt == SumBy(attempts, AttemptFailWeight)
      && |o.summary.errorMessages| == o.summary.totalErrorsAmt
      && o.summary.ranWithQuota == job.useQuota
      && o.summary.totalDurationNs == totalDurationNs
  {
    if job.totalImages < 0 then Panics
    else
      var c := Resolved(job, cpuCount).concurrency;
      WorkerPlanTotal(job.totalImages, c);
      if PlannedRuns(job.totalImages, c) != job.totalImages then Blocks
      else
        FailedAttemptsCount(attempts);
        Completed(SummarizeResults(SumSpec(totalDurationNs, c, job.useQuota), JobResults(attempts)))
  }

  /** A job left at concurrency 0 reports the CPU count as its concurrency factor. */
  lemma DefaultConcurrencyIsCpuCount(job: Job, cpuCount: nat, attempts: seq<Attempt>, totalDurationNs: nat)
    requires cpuCount >= 1 && job.concurrency == 0 && job.totalImages >= 0
    requires AttemptsMatchPlan(job, cpuCount, attempts)
    ensures RunJob(job, cpuCount, attempts, totalDurationNs).Completed?
    ensures RunJob(job, cpuCount, attempts, totalDurationNs).summary.concurrencyFactor == cpuCount
  {
  }

  /**
   The command lines the runner receives, in plan order: each is a create
   invocation of this job, named after the invocation's worker id.
   */
  function ExecutedCommands(job: Job, cpuCount: nat, attempts: seq<Attempt>): (cmds: seq<seq<string>>)
    requires cpuCount >= 1 && job.totalImages >= 0
    requires AttemptsMatchPlan(job, cpuCount, attempts)
    ensures |cmds| == |attempts|
    ensures job.concurrency >= 0 ==> |cmds| == job.totalImages
    ensures |InvocationIds(job.totalImages, ResolveConcurrency(job.concurrency, cpuCount))| == |cmds|
    ensures forall k | 0 <= k < |cmds| ::
      && |cmds[k]| > 1
      && cmds[k][0] == job.grootfsBinPath
      && ParseCreateArgs(cmds[k][1..]) ==
           Some(RequestFor(job, InvocationIds(job.totalImages, ResolveConcurrency(job.concurrency, cpuCount))[k], attempts[k].nanos))
  {
    var c := Resolved(job, cpuCount).concurrency;
    var ids := InvocationIds(job.totalImages, c);
    InvocationIdsLength(job.totalImages, c);
    WorkerPlanTotal(job.totalImages, c);
    seq(|attempts|, k requires 0 <= k < |attempts| => GrootfsCommand(job, ids[k], attempts[k].nanos))
  }
}
