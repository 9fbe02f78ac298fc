/**
  The write-throughput benchmark: its throttle set-up and the per-file
  protocol each dispatched task runs against the shared file system.
 */
module Benchmark {
  import opened JavaArith
  import opened Wrappers
  import opened Throttle
  import opened Storage

  /** `--size` is given in decimal gigabytes. */
  const BYTES_PER_GB: Int64 := 1_000_000_000
  /** The largest size in GB whose byte count fits in a `long`. */
  const MAX_EXACT_FILE_SIZE_GB: Int64 := 9_223_372_036

  /** `fileSize * 1_000_000_000` in `long` arithmetic: exact if and only if
      the size is within the bound. */
  function FileSizeInBytes(fileSize: Int64): (r: Int64)
    ensures r == fileSize * BYTES_PER_GB <==> -MAX_EXACT_FILE_SIZE_GB <= fileSize <= MAX_EXACT_FILE_SIZE_GB
  {
    var bytes := fileSize * BYTES_PER_GB;
    assert LONG_MIN <= bytes <= LONG_MAX <==> -MAX_EXACT_FILE_SIZE_GB <= fileSize <= MAX_EXACT_FILE_SIZE_GB;
    Mul64(fileSize, BYTES_PER_GB)
  }

  /** One gigabyte past the bound the byte count wraps to a negative size. */
  lemma FileSizeWrapsPastBound()
    ensures FileSizeInBytes(MAX_EXACT_FILE_SIZE_GB + 1) < 0
  {
    assert (MAX_EXACT_FILE_SIZE_GB + 1) * BYTES_PER_GB - TWO_64 == -9_223_372_036_709_551_616;
  }

  /** `rootPath + "/" + name`, the string given to `new Path(...)`. */
  function TargetPath(rootPath: string, objectName: string): (p: string)
    ensures |p| == |rootPath| + 1 + |objectName|
    ensures p[..|rootPath|] == rootPath && p[|rootPath|] == '/' && p[|rootPath| + 1..] == objectName
  {
    rootPath + "/" + objectName
  }

  /** Under one root, two object names give the same path only if they are
      the same name, and every target starts with the root followed by `/`. */
  lemma TargetPathInjective(rootPath: string, a: string, b: string)
    ensures TargetPath(rootPath, a) == TargetPath(rootPath, b) <==> a == b
    ensures TargetPath(rootPath, a)[..|rootPath| + 1] == rootPath + "/"
  {
    var n := |rootPath| + 1;
    assert TargetPath(rootPath, a)[n..] == a;
    assert TargetPath(rootPath, b)[n..] == b;
  }

  /** The size of the pool `call` starts, fixed whatever thread count is
      configured. */
  const POOL_SIZE: nat := 10

  /** A task handed to the pool: it runs `createFile` with the shared buffer
      and expected time. */
  datatype Task = CreateFileTask(dataLength: Int32, expectedIoTimeNs: Int64)

  /** The settings of the content generator `createFile` builds. */
  datatype ContentGenerator = ContentGenerator(keySize: Int64, bufferSize: Int32, hSync: bool, hFlush: bool)

  datatype JavaException =
    | NegativeArraySizeException
    | FileAlreadyExistsException
    | IllegalArgumentException

  /** How one `createFile` ends: `System.exit(status)`, an exception, or
      normally after the throttle's sleep (if any). */
  datatype TaskOutcome =
    | Exited(status: int)
    | Threw(exception: JavaException)
    | Finished(sleep: Option<SleepRequest>)

  /** The end of `enforceThrottle`: `Thread.sleep` rejects a request it does
      not accept. */
  function AfterThrottle(request: Option<SleepRequest>): (outcome: TaskOutcome)
    ensures outcome.Finished? <==> (request.None? || AcceptedBySleep(request.value))
    ensures outcome.Finished? ==> outcome.sleep == request
    ensures !outcome.Finished? ==> outcome == Threw(IllegalArgumentException)
  {
    if request.Some? && !AcceptedBySleep(request.value) then Threw(IllegalArgumentException)
    else Finished(request)
  }

  /** `ensureOutputDirExists(fs, outputDir)`: in spite of its name, it stops
      the run with status 1 when the path DOES exist. */
  method EnsureOutputDirExists(fs: FileSystem, outputDir: string) returns (exit: Option<int>)
    modifies fs`calls
    ensures exit == if outputDir in fs.files then Some(1) else None
    ensures fs.calls == old(fs.calls) + [ExistsCall(outputDir)]
  {
    var present := fs.Exists(outputDir);
    if present {
      exit := Some(1);
    } else {
      exit := None;
    }
  }

  class WriteFileThroughputBenchmark {
    const rootPath: string
    const fileSize: Int64
    const blockSize: Int64
    const bufferSize: Int32
    const throttle: Int32
    const replication: Int16
    const hSync: bool
    const hFlush: bool
    /** The base generator's object naming, which is not modelled. */
    const generateObjectName: Int64 -> string

    var contentGenerator: Option<ContentGenerator>
    var isThrottled: bool

    /** `isThrottled` is only ever set when the throttle is positive. */
    ghost predicate Valid()
      reads this
    {
      isThrottled ==> throttle > 0
    }

    /** The command as its options leave it: not yet throttled, no generator. */
    constructor (rootPath: string, fileSize: Int64, blockSize: Int64, bufferSize: Int32, throttle: Int32,
                 replication: Int16, hSync: bool, hFlush: bool, generateObjectName: Int64 -> string)
      ensures Valid() && !isThrottled && contentGenerator == None
      ensures this.rootPath == rootPath && this.fileSize == fileSize && this.blockSize == blockSize
      ensures this.bufferSize == bufferSize && this.throttle == throttle && this.replication == replication
      ensures this.hSync == hSync && this.hFlush == hFlush && this.generateObjectName == generateObjectName
    {
      this.rootPath := rootPath;
      this.fileSize := fileSize;
      this.blockSize := blockSize;
      this.bufferSize := bufferSize;
      this.throttle := throttle;
      this.replication := replication;
      this.hSync := hSync;
      this.hFlush := hFlush;
      this.generateObjectName := generateObjectName;
      contentGenerator := None;
      isThrottled := false;
    }

    /** The path every task writes: the object name for index 0, whichever
        task asks. */
    function TargetFile(): (p: string)
      ensures |p| == |rootPath| + 1 + |generateObjectName(0)|
      ensures p[..|rootPath|] == rootPath && p[|rootPath|] == '/' && p[|rootPath| + 1..] == generateObjectName(0)
    {
      TargetPath(rootPath, generateObjectName(0))
    }

    /** The throttle set-up of `call`: a positive throttle turns throttling on,
        the buffer is allocated (a negative size throws), and the expected
        time per write is computed. */
    method ThrottleSetup() returns (expected: Result<Int64, JavaException>)
      requires Valid()
      modifies this`isThrottled
      ensures Valid()
      ensures isThrottled == (old(isThrottled) || throttle > 0)
      ensures bufferSize < 0 ==> expected == Failure(NegativeArraySizeException)
      ensures bufferSize >= 0 ==> expected == Success(ExpectedIoTimeNs(isThrottled, bufferSize, throttle))
    {
      if throttle > 0 {
        isThrottled := true;
      }
      if bufferSize < 0 {
        return Failure(NegativeArraySizeException);
      }
      var dataLength: Int32 := bufferSize;
      expected := Success(ExpectedIoTimeNs(isThrottled, dataLength, throttle));
    }

    /** The dispatch loop of `call`: `POOL_SIZE` tasks are submitted, all
        alike, each with the buffer and expected time computed once. Running
        them is not modelled. */
    method DispatchTasks(expectedIoTimeNs: Int64) returns (submitted: seq<Task>)
      requires bufferSize >= 0
      ensures |submitted| == POOL_SIZE
      ensures forall k :: 0 <= k < |submitted| ==> submitted[k] == CreateFileTask(bufferSize, expectedIoTimeNs)
    {
      submitted := [];
      for i := 0 to POOL_SIZE
        invariant |submitted| == i
        invariant forall k :: 0 <= k < i ==> submitted[k] == CreateFileTask(bufferSize, expectedIoTimeNs)
      {
        submitted := submitted + [CreateFileTask(bufferSize, expectedIoTimeNs)];
      }
    }

    /** `createFile`: check that the target does not exist (else exit 1),
        build the generator, read the clock when throttled, create the file
        exclusively, write it, read the clock again and enforce the
        throttle. The clock readings are parameters; they are used only when
        throttled. `racingCreates` are the paths other tasks of the run create
        between this task's existence check and its own create; if the target
        is among them, the exclusive create throws. */
    method CreateFile(fs: FileSystem, expectedIoTimeNs: Int64, startReading: Int64, endReading: Int64,
                      racingCreates: set<string>)
      returns (outcome: TaskOutcome)
      modifies this`contentGenerator, fs
      ensures TargetFile() in old(fs.files) ==>
        && outcome == Exited(1)
        && fs.files == old(fs.files)
        && fs.calls == old(fs.calls) + [ExistsCall(TargetFile())]
        && contentGenerator == old(contentGenerator)
      ensures TargetFile() !in old(fs.files) ==>
        && fs.files == old(fs.files) + racingCreates + {TargetFile()}
        && contentGenerator == Some(ContentGenerator(FileSizeInBytes(fileSize), bufferSize, hSync, hFlush))
      ensures TargetFile() !in old(fs.files) && TargetFile() in racingCreates ==>
        && outcome == Threw(FileAlreadyExistsException)
        && fs.calls == old(fs.calls) + [ExistsCall(TargetFile()),
                                        CreateCall(TargetFile(), false, bufferSize, replication, blockSize)]
      ensures TargetFile() !in old(fs.files) && TargetFile() !in racingCreates ==>
        && fs.calls == old(fs.calls) + [ExistsCall(TargetFile()),
                                        CreateCall(TargetFile(), false, bufferSize, replication, blockSize),
                                        WriteCall(TargetFile(), FileSizeInBytes(fileSize))]
        && outcome == AfterThrottle(EnforceThrottle(ElapsedNs(isThrottled, startReading, endReading), expectedIoTimeNs))
    {
      var file := TargetPath(rootPath, generateObjectName(0));
      var exit := EnsureOutputDirExists(fs, file);
      if exit.Some? {
        return Exited(exit.value);
      }
      var filesizeinBytes := FileSizeInBytes(fileSize);
      contentGenerator := Some(ContentGenerator(filesizeinBytes, bufferSize, hSync, hFlush));
      var ioStartTimeNs: Int64 := if isThrottled then startReading else 0;
      fs.CreatedElsewhere(racingCreates);
      var created := fs.Create(file, false, bufferSize, replication, blockSize);
      if !created {
        return Threw(FileAlreadyExistsException);
      }
      fs.Write(file, filesizeinBytes);
      var ioEndTimeNs: Int64 := if isThrottled then endReading else 0;
      outcome := AfterThrottle(EnforceThrottle(Sub64(ioEndTimeNs, ioStartTimeNs), expectedIoTimeNs));
    }
  }

  /** Two tasks of one run target the same path, so once one has run (with
      no other task in between), the next stops the run with status 1 before
      creating or writing anything. */
  method SecondTaskExits(b: WriteFileThroughputBenchmark, fs: FileSystem, expectedIoTimeNs: Int64,
                         startReading: Int64, endReading: Int64)
    returns (first: TaskOutcome, second: TaskOutcome)
    modifies b`contentGenerator, fs
    ensures first == Exited(1) <==> b.TargetFile() in old(fs.files)
    ensures second == Exited(1)
    ensures fs.files == old(fs.files) + {b.TargetFile()}
    ensures first == Exited(1) ==>
      fs.calls == old(fs.calls) + [ExistsCall(b.TargetFile()), ExistsCall(b.TargetFile())]
    ensures first != Exited(1) ==>
      fs.calls == old(fs.calls) + [ExistsCall(b.TargetFile()),
                                   CreateCall(b.TargetFile(), false, b.bufferSize, b.replication, b.blockSize),
                                   WriteCall(b.TargetFile(), FileSizeInBytes(b.fileSize)),
                                   ExistsCall(b.TargetFile())]
  {
    first := b.CreateFile(fs, expectedIoTimeNs, startReading, endReading, {});
    second := b.CreateFile(fs, expectedIoTimeNs, startReading, endReading, {});
  }
}
