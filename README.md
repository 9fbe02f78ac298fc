# Write-throughput benchmark: throttle arithmetic and per-file protocol

A Dafny model of the computational core of `WriteFileThroughputBenchmark`, an
Ozone/Hadoop "freon" command that creates files against a storage cluster and
can cap the write rate. The model covers:

- the throttle set-up of `call`. A positive `--throttle` turns throttling on.
  The expected time of one buffer-sized write is then
  `(long) bufferSize * 1_000_000_000 / throttle` nanoseconds. Without throttling it is 0;
- `enforceThrottle`. It decides whether to sleep, computes the shortfall and
  splits it into the `(millis, nanos)` arguments of `Thread.sleep`;
- the conversion of `--size` from decimal gigabytes to bytes in `long`
  arithmetic, with its overflow bound;
- `createFile` over an abstract file system. The task builds the target path,
  checks existence (and exits with status 1 if the path exists), builds the
  content generator and reads the clock when throttled. It then creates the file
  exclusively, writes it, reads the clock again and enforces the throttle.

Java's `int`, `long` and `short` are subset types of `int`. Wrap-around of `long`
multiplication and subtraction, the `(int)` cast, and the truncating `/` and `%`
are written out in module `JavaArith`. The file system is a class holding the
set of existing paths and the history of calls made on it (module `Storage`).
The benchmark command is a class whose option fields are constants, and whose
`isThrottled` and `contentGenerator` fields change (module `Benchmark`).
`System.nanoTime()` readings are parameters of `CreateFile`. The sleep is the
request returned by `EnforceThrottle`. `generateObjectName` is a constant of
function type that the model never interprets.

The method `ensureOutputDirExists` is named as if it checked that a directory is
present, and its log line reads "No Such Output Directory exists". In fact it
ends the run when the path DOES exist, so no file is ever overwritten. The model
follows the code.

`createFile` reads the start timestamp before `create` (line 157 before line
159). Every task asks for object index 0, so all tasks of a run target the same
path.

## Model

| member | source | states |
|---|---|---|
| JavaArith.Wrap64 | WriteFileThroughputBenchmark.java:154 | a `long` result equals the exact value whenever that fits, and is always congruent to it modulo 2^64 |
| JavaArith.Wrap32 | WriteFileThroughputBenchmark.java:179 | the `(int)` cast keeps any value that fits in an `int` and is congruent to its argument modulo 2^32 |
| JavaArith.Quot | WriteFileThroughputBenchmark.java:124 | Java's `/` rounds toward zero: the largest magnitude whose product with the divisor does not exceed the dividend, with the sign rule of the JLS |
| JavaArith.Rem | WriteFileThroughputBenchmark.java:179 | Java's `%` is smaller in magnitude than the divisor and takes the dividend's sign |
| JavaArith.QuotRem | WriteFileThroughputBenchmark.java:179 | `(a / b) * b + a % b == a` for every non-zero divisor |
| JavaArith.Mul64 | WriteFileThroughputBenchmark.java:154 | `long` `*`: the exact product when it fits in a `long`, and always congruent to it modulo 2^64 |
| JavaArith.Sub64 | WriteFileThroughputBenchmark.java:178 | `long` `-`: the exact difference when it fits in a `long`, and always congruent to it modulo 2^64 |
| JavaArith.Div64 | WriteFileThroughputBenchmark.java:179 | `long` `/`: the truncated quotient, except that `Long.MIN_VALUE / -1` wraps to `Long.MIN_VALUE` |
| JavaArith.QuotFits | WriteFileThroughputBenchmark.java:179 | the truncated quotient of two `long`s fits in a `long` except for `Long.MIN_VALUE / -1`, which gives 2^63 |
| JavaArith.Rem64 | WriteFileThroughputBenchmark.java:179 | `long` `%`: smaller in magnitude than the divisor, with the dividend's sign, and `(a / b) * b + a % b == a`; `Long.MIN_VALUE % -1` is 0 |
| Throttle.ExpectedIoTimeNs | WriteFileThroughputBenchmark.java:121-125 | unthrottled gives 0; throttled gives the floor of `bufferSize * 10^9 / throttle`, a non-negative value `r` with `r * throttle <= bufferSize * 10^9 < (r + 1) * throttle` |
| Throttle.ThrottleProductFits | WriteFileThroughputBenchmark.java:122-125 | for any array length the `long` product with 10^9 is exact and at most `(2^31 - 1) * 10^9 < 2^63` |
| Throttle.FloorQuot | WriteFileThroughputBenchmark.java:123-125 | dividing a non-negative `long` by a positive `int` gives the floor of the exact quotient, never larger than the dividend |
| Throttle.AcceptedBySleep | WriteFileThroughputBenchmark.java:179 | an argument pair that `Thread.sleep(long, int)` accepts asks for a non-negative duration, and is that duration's whole milliseconds and remaining nanoseconds |
| Throttle.SleepSplit | WriteFileThroughputBenchmark.java:178-179 | a positive sleep time splits into `millis >= 0` and `0 <= nanos < 10^6` with `millis * 10^6 + nanos == sleepTimeNs`, and the `(int)` cast of the remainder is lossless |
| Throttle.SleepSplitNegative | WriteFileThroughputBenchmark.java:178-179 | a negative (wrapped) sleep time splits into `millis <= 0` and a lossless `(int)` remainder that `Thread.sleep` rejects |
| Throttle.EnforceThrottle | WriteFileThroughputBenchmark.java:174-181 | sleeps if and only if `ioTimeNs < expectedIoTimeNs`; a sleep request is accepted by `Thread.sleep` if and only if the shortfall fits in a `long`, and then `ioTimeNs + sleep == expectedIoTimeNs` |
| Throttle.ShortfallOverflowRejected | WriteFileThroughputBenchmark.java:178-179 | every shortfall wider than a `long` wraps to a negative sleep time, and the request, with `millis <= 0`, is rejected by `Thread.sleep` |
| Throttle.ShortfallOverflowAtMinValue | WriteFileThroughputBenchmark.java:178-179 | `enforceThrottle(Long.MIN_VALUE, 1)` asks `Thread.sleep` for negative milliseconds |
| Throttle.ThrottledDuration | WriteFileThroughputBenchmark.java:176-181 | whenever the shortfall fits in a `long` (in particular for two non-negative durations), write plus sleep last exactly `max(ioTimeNs, expectedIoTimeNs)`: at least the expected time, and a slow write is never shortened |
| Throttle.ElapsedNs | WriteFileThroughputBenchmark.java:157-163 | unthrottled, both timestamps are 0 and the elapsed time is 0; throttled, it is `end - start` whenever that fits in a `long`, and otherwise congruent to it modulo 2^64 |
| Throttle.MonotonicClockElapsed | WriteFileThroughputBenchmark.java:157-163 | `ioEndTimeNs - ioStartTimeNs` in wrapping `long` arithmetic is the true elapsed time for any interval below 2^63 ns, even when the clock value wraps |
| Throttle.UnthrottledNeverSleeps | WriteFileThroughputBenchmark.java:157-163 | unthrottled, both timestamps are 0, so `enforceThrottle(0, 0)` never sleeps |
| Throttle.ThrottledTaskLastsAtLeastExpected | WriteFileThroughputBenchmark.java:157-163 | throttled, on a monotonic clock, the sleep request is always accepted, and write plus sleep last `max(elapsed, expected)` |
| Throttle.OneSecondPerKibibyte | WriteFileThroughputBenchmark.java:124 | buffer 1024 at 1024 bytes/s expects 10^9 ns, and an instantaneous write then sleeps `(1000 ms, 0 ns)` |
| Benchmark.FileSizeInBytes | WriteFileThroughputBenchmark.java:154 | the byte count equals `fileSize * 10^9` if and only if `-9_223_372_036 <= fileSize <= 9_223_372_036` |
| Benchmark.FileSizeWrapsPastBound | WriteFileThroughputBenchmark.java:154 | `fileSize = 9_223_372_037` GB gives a negative byte count |
| Benchmark.TargetPath | WriteFileThroughputBenchmark.java:148 | the target path is the root, then one `/`, then the object name |
| Benchmark.TargetPathInjective | WriteFileThroughputBenchmark.java:148 | `rootPath + "/" + name` starts with the root followed by `/`, and under one root two names give the same path if and only if they are equal |
| Benchmark.AfterThrottle | WriteFileThroughputBenchmark.java:179 | the task ends normally exactly when there is no sleep or `Thread.sleep` accepts the request, and then carries that request; otherwise it throws `IllegalArgumentException` |
| Benchmark.EnsureOutputDirExists | WriteFileThroughputBenchmark.java:82-88 | exits with status 1 if and only if the path exists; it only adds one existence query to the call history |
| Storage.FileSystem.Exists | WriteFileThroughputBenchmark.java:84 | the existence query answers membership and changes no file |
| Storage.FileSystem.Create | WriteFileThroughputBenchmark.java:159 | `create` without overwrite succeeds exactly when the path is absent, and then adds exactly that path |
| Storage.FileSystem.CreatedElsewhere | WriteFileThroughputBenchmark.java:151-159 | paths that other tasks create between this task's existence check and its create are added to the file system; this task makes no call |
| Storage.FileSystem.Write | WriteFileThroughputBenchmark.java:160 | the generator's write is recorded with its byte count and changes no path |
| Benchmark.WriteFileThroughputBenchmark.constructor | WriteFileThroughputBenchmark.java:28-76 | options are kept as given; the command starts unthrottled with no content generator |
| Benchmark.WriteFileThroughputBenchmark.ThrottleSetup | WriteFileThroughputBenchmark.java:120-125 | `isThrottled` becomes true exactly when it was or `throttle > 0` (so it stays false for `throttle <= 0`); a negative buffer size throws `NegativeArraySizeException`; otherwise the result is `ExpectedIoTimeNs` |
| Benchmark.WriteFileThroughputBenchmark.TargetFile | WriteFileThroughputBenchmark.java:148 | every task's target is the root, one `/`, and the object name for index 0 |
| Benchmark.WriteFileThroughputBenchmark.DispatchTasks | WriteFileThroughputBenchmark.java:127-139 | exactly 10 tasks are submitted, whatever thread count is configured, and every one runs `createFile` with the same buffer and expected time |
| Benchmark.WriteFileThroughputBenchmark.CreateFile | WriteFileThroughputBenchmark.java:145-165 | the target is `rootPath + "/" + generateObjectName(0)`. If it exists, the task exits with status 1 after the existence check alone, and the files and the generator are untouched. Otherwise the generator is set to the decimal-GB size. If another task created the target after the check, `create(overwrite=false)` throws `FileAlreadyExistsException` and nothing is written. Otherwise the calls are the existence check, then `create(overwrite=false)`, then the write, in that order. The file is added, and the outcome is the throttle's on the elapsed time (0 when unthrottled) |
| Benchmark.SecondTaskExits | WriteFileThroughputBenchmark.java:145-151 | two tasks in sequence target the same path: the second always exits with status 1 after only an existence check, and only one file is ever created |

## Left out

- Running the submitted tasks on the thread pool (lines 118, 127-141) is left out because it is about concurrency. `DispatchTasks` models only what the loop submits. Other tasks appear in `CreateFile` only as the paths they create between its existence check and its create. Not modelled: any other interleaving, `shutdown` and `close` running before the tasks finish, and tasks sharing the `contentGenerator` field. `SecondTaskExits` covers only two tasks run one after the other.
- The `IOException`s that `exists` (line 84) and `create` (line 159) can throw are not modelled: `FileSystem.Exists` always answers. `FileSystem.Create` fails only with `FileAlreadyExistsException`. The task's `Runnable` (lines 132-136) would catch and log these exceptions like any other.
- Creating the configuration, parsing the URI, `createFS` and closing the file system (lines 94, 98, 115, 141, 167-173) are left out because they are foreign library calls. Their exceptions are not modelled.
- Hadoop's `Path` normalisation of the joined string is not modelled: the path is the string `rootPath + "/" + name`.
- `ContentGenerator.write` (the chunked write loop, hsync/hflush) is not part of this model. Its write is one recorded call with its byte count. Its I/O errors are not modelled, so `CreateFile` never fails in the write.
- `generateObjectName` belongs to a base class that is not part of this model. It is an uninterpreted function.
- `System.nanoTime` is not modelled: the two readings are parameters. `Thread.sleep` is not modelled either: the sleep is the returned request. Its interruption and the JDK's rounding of `(millis, nanos)` to the clock resolution are not modelled.
- `System.exit(1)` is modelled as the outcome `Exited(1)` of the task. That the whole JVM stops, including the other tasks, is not modelled.
- Logging and the picocli option definitions and defaults (lines 20-68, 100-112) are configuration and output only.
- The `tim-sort` programs time library sorts on random input. They have no logic of their own to model.
