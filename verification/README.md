# grootfs-bench: a Dafny model of the benchmark core

grootfs-bench measures how fast the grootfs image tool creates images. This
project models the deterministic parts of the benchmark harness and proves
properties about them:

- **The bulk "create" job** (`bench/job.go`):
  - `Job.Run` replaces a zero concurrency with the CPU count;
  - `runWorkers` splits `TotalImages` over worker goroutines;
  - `grootfsCmd` builds the argument list for the grootfs binary;
  - `run` turns one invocation into a `Result`;
  - `SummarizeResults` folds the Result stream into a `Summary`.
- **The older worker pool** (`grootfspool/pool.go`):
  - `New` registers the workers on the wait group;
  - `Start` sizes the duration and error channels and launches the workers;
  - each `worker` turns every job it takes into exactly one duration or one error;
  - `Wait` closes both channels once every worker has left.
- **The aggregator** (`main.go`):
  - `run` enqueues bundle numbers `1..N`, waits for the pool and reduces the two channels into the `result` record.

## How the model is set up

Goroutines, wait groups and channels are abstracted away. The model takes the following as inputs:

- the CPU count;
- one `Attempt` per invocation of the job: the `UnixNano` reading, the runner's outcome and the elapsed nanoseconds;
- one `JobEvent` per consumed pool job: the worker that took it, the random suffix, the outcome and the elapsed nanoseconds;
- the total wall-clock duration.

The model consumes these inputs in the order given. The Summary's counts and sums do not depend on that order, and `SummaryIgnoresOrder` proves this.

Numbers follow Go's rules. Integer `/` and `%` truncate toward zero (`GoNumeric.Quo`, `GoNumeric.Rem`). A float64 division returns `Finite`, `PosInf`, `NegInf` or `NaN` (`GoNumeric.Div`), so a zero divisor is modelled, not excluded: a zero total duration gives `ImagesPerSecond` and `BundlesPerSecond` of `+Inf` or NaN. Finite quotients are exact reals. `Duration.Seconds()` is `ns / 1e9`.

`Job.Run` has three possible outcomes:

- `Completed`, with a Summary;
- `Panics`, because `make` panics on a negative buffer size;
- `Blocks`, when the plan launches fewer invocations than `wg.Add(TotalImages)` counts, so that `wg.Wait` never returns.

With a positive concurrency the plan always launches exactly `TotalImages` invocations. With a negative concurrency no main worker starts. In that case only the `N % C` leftover goroutines run, and by Go's truncating `%` their number is `N mod |C|`.

For 11 images over 3 workers, `runWorkers` runs three main goroutines of `11/3 = 3` iterations each, then `11%3 = 2` leftover goroutines of one iteration each: `[3,3,3,1,1]` (`BenchJob.ElevenImagesOverThreeWorkers`).

## Model

| member | source | states |
|---|---|---|
| BenchJob.ResolveConcurrency | bench/job.go:48-50 | the resolved concurrency is never zero: it is the configured value when that is nonzero, and the CPU count otherwise |
| BenchJob.Resolved | bench/job.go:47-50 | `Run`'s defaulting changes only the concurrency: a zero concurrency becomes the CPU count, any other job is left as it is, and the result is a safe divisor |
| BenchJob.MainCountsTotal | bench/job.go:72-79 | the main goroutines run `c * (N / c)` iterations in total for a positive `c`, and none for a negative `c` |
| BenchJob.PlannedRunsSplit | bench/job.go:72-87 | the plan's total is the main workers' total plus one invocation per leftover worker (`N % c`) |
| BenchJob.WorkerPlanTotal | bench/job.go:68-90 | `WorkerPlan`, the iteration counts of the goroutines `runWorkers` launches (the main workers, then one per leftover), sums to exactly `N` for a positive concurrency and to `N mod -c` for a negative one; the sum equals the wait-group count `N` exactly when `c > 0` or `N < -c` |
| BenchJob.MainIdsLength | bench/job.go:72-79 | the main workers make one invocation per planned iteration |
| BenchJob.MainIdsCount | bench/job.go:72-79 | main worker `w` uses its id in exactly `N / c` invocations; ids at or beyond the worker count are never used |
| BenchJob.InvocationIdsLength | bench/job.go:68-87 | the sequence of worker ids passed to `grootfsCmd` has one entry per planned invocation |
| BenchJob.InvocationIdsCount | bench/job.go:68-87 | worker id `w` appears `N / c` times for main worker `w`, plus once more when a leftover goroutine also gets `w` |
| BenchJob.IdsCount | bench/job.go:72-87 | main workers `0..c-1` followed by leftovers `0..r-1` give each id the count of both groups together |
| BenchJob.InvocationIdsBelowConcurrency | bench/job.go:72-87 | with a positive concurrency every worker id passed to `grootfsCmd` lies in `[0, c)` |
| BenchJob.ElevenImagesOverThreeWorkers | bench/job.go:72-87 | for `N = 11` and `C = 3` the goroutines run `[3, 3, 3, 1, 1]` iterations, 11 in total |
| BenchJob.ImageNameInjective | bench/job.go:130 | `ImageName` builds `base-image-{workerId}-{nanos}`; names from different (worker id, clock reading) pairs differ |
| BenchJob.CreateArgs | bench/job.go:111-131 | the argument list starts with `--store`, the store, `--log-level` and the level; `--driver` and the driver follow only for a non-empty driver; then comes `create`; the quota flag and `1019430400` follow only with quotas; the list ends with the base image and the image name; its length is `7 + 2·[driver] + 2·[quota]` |
| BenchJob.CreateArgsRoundTrip | bench/job.go:111-131 | reading any argument list built this way back with the grammar gives the original request |
| BenchJob.ParseCreateArgsExact | bench/job.go:111-131 | every argument list the grammar accepts is exactly the list built for the request it reads |
| BenchJob.GrootfsCommand | bench/job.go:110-134 | the command is the grootfs binary followed by the create arguments for this job's settings and the `base-image-{workerId}-{nanos}` name |
| BenchJob.RunInvocation | bench/job.go:92-108 | each invocation yields one Result with the elapsed time; its error is absent exactly when the runner succeeded, and is otherwise `"{err}, {output}"` |
| BenchJob.RunInvocationKeepsOutput | bench/job.go:101-103 | a failed Result's error text contains both the runner's error and the process output |
| BenchJob.JobResults | bench/job.go:92-108 | one Result per attempt, in order |
| BenchJob.TallyOf | bench/job.go:171-183 | after draining `rs` the loop has counted every Result and every failure, summed the success durations, and holds one message per failure; the failure at stream position `k` has its message at the index that counts the failures before it, and that message carries position `k + 1` |
| BenchJob.FoldFromPrefix | bench/job.go:174-183 | continuing the drain loop (`Step` folded over the stream) from the tally of a prefix gives the tally of the whole stream |
| BenchJob.DrainIsTally | bench/job.go:171-183 | `FoldResults`, the front-to-back drain loop applying `Step` once per Result, started from nothing computes `TallyOf` |
| BenchJob.SummarizeResults | bench/job.go:164-196 | `TotalImages` counts the Results and `TotalErrorsAmt` the failed ones; there is one message per failure, each with its 1-based stream position; the concurrency, duration and quota flag are echoed; `ImagesPerSecond` is successes divided by seconds, `ErrorRate` is `100·errors / total`, and `AverageTimePerImage` is `-1` with no success and otherwise the success seconds divided by the success count |
| BenchJob.ErrorRateIsPercentage | bench/job.go:187 | with at least one Result the error rate is finite and lies in `[0, 100]` |
| BenchJob.CountFailedAll | bench/job.go:177-178 | when every Result failed, the error count is the Result count |
| BenchJob.AllFailedSummary | bench/job.go:174-192 | when every Result failed there is one message per Result, message `k` reports position `k + 1` with that Result's error, the average is `-1` and the error rate is 100 |
| BenchJob.ErrorMessageKeepsError | bench/job.go:179 | `ErrorMessage` builds `could not create image {position}: {err}\n`; such a message contains the error text it reports |
| BenchJob.ErrorMessageKeepsOutput | bench/job.go:102-179 | the summary message for a failed invocation contains both the runner's error and the process output |
| BenchJob.SummaryIgnoresOrder | bench/job.go:174-192 | two drains of the same multiset of Results give the same counts, rates, average and number of messages |
| BenchJob.FailedAttemptsCount | bench/job.go:100-107 | the Results contain exactly as many errors as there were failed runner calls |
| BenchJob.RunJob | bench/job.go:47-66 | `Run` panics exactly for a negative image count and completes exactly when the plan releases the wait group; a completed Summary reports the resolved concurrency, the requested image count, one error per failed runner call, one message per error, the quota flag and the measured duration |
| BenchJob.DefaultConcurrencyIsCpuCount | bench/job.go:47-62 | a job configured with concurrency 0 completes and reports the CPU count as its concurrency factor |
| BenchJob.ExecutedCommands | bench/job.go:68-94 | the runner receives one command per planned invocation, `N` of them for a non-negative concurrency; each is the grootfs binary with the create arguments of this job, named after that invocation's worker id and clock reading |
| GrootfsPool.New | grootfspool/pool.go:30-44 | a pool exists exactly when the concurrency is non-negative (`wg.Add` panics otherwise), and it keeps the binary, store, image and concurrency |
| GrootfsPool.Start | grootfspool/pool.go:52-62 | a negative bundle count panics in `make`; otherwise exactly `concurrency` workers numbered from 0 run, the wait group counts all of them, and both channels start empty and open with capacity `totalBundles` |
| GrootfsPool.PoolImageNameInjective | grootfspool/pool.go:85 | `PoolImageName` builds `image-{workerId}-{job}-{rand}`; names from different triples differ |
| GrootfsPool.SplitSignedThenDigits | grootfspool/pool.go:85 | the `{job}-{rand}` tail of a pool image name determines both numbers, whatever the sign of the job index |
| GrootfsPool.WorkerCommand | grootfspool/pool.go:79-85 | the worker's command is `[bin, "--store", store, "create", image, name]`, with the image name at index 5 |
| GrootfsPool.Emit | grootfspool/pool.go:89-96 | a job yields a duration exactly when the runner succeeded, carrying the elapsed time, and otherwise the error `"{err}: {output}"` |
| GrootfsPool.EmitKeepsRunnerError | grootfspool/pool.go:92-93 | a worker's error text contains the runner's error string |
| GrootfsPool.Deliver | grootfspool/pool.go:92-96 | an emission lands in exactly one of the two channels, and nothing else in the pool changes |
| GrootfsPool.Process | grootfspool/pool.go:75-97 | handling a sequence of jobs changes only the two channels |
| GrootfsPool.ProcessSplitsOutcomes | grootfspool/pool.go:75-96 | the durations gain the successful jobs' elapsed times and the errors gain the failed jobs' `"{err}: {output}"` texts, each in job order; the channel sizes grow by the success and failure counts, and the duration total by the success time |
| GrootfsPool.FailureTextsKeepRunnerError | grootfspool/pool.go:92-93 | when every failure reports the same runner error, every error a worker sends contains it |
| GrootfsPool.OneEmissionPerJob | grootfspool/pool.go:75-96 | the two channels together grow by exactly the number of jobs processed |
| GrootfsPool.OneFailureOfTwo | grootfspool/pool.go:92-96 | a success and a failure leave one duration and one error |
| GrootfsPool.ChannelsNeverOverfill | grootfspool/pool.go:52-55 | at most `totalBundles` outcomes never overfill either buffered channel |
| GrootfsPool.WorkerDone | grootfspool/pool.go:73 | a worker's exit lowers the wait-group counter by one |
| GrootfsPool.WorkersDone | grootfspool/pool.go:73 | `k` worker exits lower the counter by `k` and change nothing else |
| GrootfsPool.Wait | grootfspool/pool.go:46-50 | `Wait` returns exactly when no worker is running, and then both channels are closed with their contents kept |
| GrootfsPool.WaitReturnsAfterAllWorkers | grootfspool/pool.go:41-50 | after `Start`, `Wait` returns exactly when all `concurrency` launched workers have left |
| BenchMain.Bundles | main.go:116-119 | the queue receives `1, 2, ..., N` (nothing for `N <= 0`) |
| BenchMain.BundlesIncreasing | main.go:116-118 | the bundle numbers are strictly increasing and lie in `[1, N]` |
| BenchMain.Run | main.go:112-146 | a negative bundle count panics; otherwise the result echoes the requested count, the concurrency and the duration; it counts one error per failed job; `BundlesPerSecond` is the successes over seconds, `AverageTimePerBundle` is the success seconds over the success count (unguarded), and `ErrorRate` is `100·errors` over the requested count |
| BenchMain.WeightsSplit | main.go:123-135 | every consumed job counts as exactly one of a created bundle or an error |
| BenchMain.EveryBundleAccounted | main.go:123-142 | with at least one worker, created bundles plus errors equal the requested count; for a positive requested count the error rate is a percentage in `[0, 100]`, and for a requested count of 0 it is `0/0`, a NaN |
| BenchMain.AverageOverCreated | main.go:123-129 | with at least one success the average is finite: the total success seconds divided by the number created |
| BenchMain.NoWorkersNoBundles | main.go:113-129 | with concurrency 0 `Consumed`, the jobs taken off the queue before `Wait`, is empty: no errors, an average of `0/0` (NaN), and an error rate of 0 for a positive requested count and NaN for a requested count of 0 |
| GoNumeric.Rem | bench/job.go:82 | Go's `%` of a non-negative dividend is non-negative |
| GoNumeric.QuoRem | bench/job.go:74-82 | Go's truncating division satisfies `a == b·(a/b) + a%b`, with the remainder smaller than the divisor and carrying the dividend's sign |
| GoNumeric.QuoRemNatural | bench/job.go:74-82 | for a non-negative dividend and positive divisor Go's `/` and `%` agree with the mathematical ones |
| GoNumeric.Quo | bench/job.go:74 | Go's `/` of a non-negative dividend by a positive divisor is non-negative |
| GoNumeric.Div | bench/job.go:186-187 | float64 division is finite exactly for a nonzero divisor, and then it is the exact quotient; `x/0` is `+Inf`, `-Inf` or NaN according to the sign of `x` |
| GoNumeric.PercentageBounds | bench/job.go:187 | `100·part / whole` lies in `[0, 100]` and is 100 when `part == whole` |
| GoNumeric.Seconds | bench/job.go:181 | `Duration.Seconds()` times `1e9` gives back the nanosecond count |
| Text.NatToDecimal | bench/job.go:130 | `%d` of a natural is a non-empty run of digits with no leading zero |
| Text.IntToDecimal | bench/job.go:130 | `%d` of an integer starts with `-` exactly when it is negative, and is all digits otherwise |
| Text.DecimalRoundTrip | bench/job.go:130 | reading the printed digits back gives the number |
| Text.NatToDecimalInjective | bench/job.go:130 | different naturals print differently |
| Text.IntToDecimalInjective | bench/job.go:130 | different integers print differently |

## Left out

- Goroutine scheduling, `sync.WaitGroup` and channel blocking: they are replaced by the order of the supplied `Attempt` and `JobEvent` inputs. `defer` placement is not modelled. Only the total count of `wg.Done` calls, compared with `wg.Add`, decides whether `Run` returns.
- `time.Now`, `time.Since`, `runtime.NumCPU` and `rand.Int`: these are inputs.
- `exec.Command` and the command runner: a failing run is modelled as the error text the runner returns plus the captured output.
- float64 rounding: the model uses exact reals.
- GoNumeric.Div: does not model the rounding or overflow of the finite quotient, because the model uses exact reals.
- The `Duration` values are non-negative nanosecond counts. A negative elapsed time is not modelled.
- int64 overflow is not modelled. This covers `TotalErrorsAmt*100` and the totals, because the counts stay far below 2^63.
- The `Failures:` lines that `run` prints to stderr, the CLI flags, the spinner, the text output and the JSON output of main.go.
- bench/printer.go, reporter/, performance/ and integration/: these are formatting, HTTP glue and process-spawning tests, with no deterministic core here.
- The clean/delete jobs, `CreatedImages`, `Done` and `JobExecutor`: they appear only in the tests, and bench/job.go does not implement them.
- `Pool.DurationChan` and `Pool.ErrorsChan`: these plain accessors are folded into `BenchMain.Run`.
