/**
  The throttle controller of the write benchmark: the expected duration of
  one buffer-sized write at the target rate, and the sleep that stretches a
  write that finished early up to that duration.
 */
module Throttle {
  import opened JavaArith
  import opened Wrappers

  const NANOS_PER_SECOND: Int64 := 1_000_000_000
  const NANOS_PER_MILLI: Int64 := 1_000_000

  /** The `expectedIoTimeNs` of `call`: `(long) data.length * 1_000_000_000 / throttle`
      in `long` arithmetic when throttled, 0 otherwise. The result is the
      floor of the exact quotient: the product never wraps. */
  function ExpectedIoTimeNs(isThrottled: bool, dataLength: Int32, throttle: Int32): (r: Int64)
    requires 0 <= dataLength
    requires isThrottled ==> throttle > 0
    ensures !isThrottled ==> r == 0
    ensures isThrottled ==> 0 <= r && r * throttle <= dataLength * NANOS_PER_SECOND < (r + 1) * throttle
  {
    if isThrottled then
      ThrottleProductFits(dataLength);
      FloorQuot(dataLength * NANOS_PER_SECOND, throttle);
      Div64(Mul64(dataLength, NANOS_PER_SECOND), throttle)
    else
      0
  }

  /** The `long` product of any array length with 10^9 is exact and stays
      below 2^63. */
  lemma ThrottleProductFits(dataLength: Int32)
    requires 0 <= dataLength
    ensures Mul64(dataLength, NANOS_PER_SECOND) == dataLength * NANOS_PER_SECOND
    ensures 0 <= dataLength * NANOS_PER_SECOND <= INT_MAX * NANOS_PER_SECOND < LONG_MAX
  {
  }

  /** Java's `/` of a non-negative `long` by a positive divisor is the floor
      of the exact quotient, and no larger than the dividend. */
  lemma FloorQuot(n: nat, d: int)
    requires d > 0
    ensures var q := Quot(n, d); 0 <= q <= n && q * d <= n < (q + 1) * d
  {
    var q := Quot(n, d);
    assert q * d >= q * 1;
  }

  /** The two arguments of `Thread.sleep(long millis, int nanos)`. */
  datatype SleepRequest = SleepRequest(millis: Int64, nanos: Int32)

  /** The argument check of `Thread.sleep(long, int)`: it throws
      `IllegalArgumentException` unless this holds. */
  predicate AcceptedBySleep(s: SleepRequest): (ok: bool)
    ensures ok ==> RequestedNs(s) >= 0
    ensures ok ==> s.millis == RequestedNs(s) / NANOS_PER_MILLI && s.nanos == RequestedNs(s) % NANOS_PER_MILLI
  {
    s.millis >= 0 && 0 <= s.nanos < NANOS_PER_MILLI
  }

  /** The duration a request asks for, in nanoseconds. */
  function RequestedNs(s: SleepRequest): int {
    s.millis * NANOS_PER_MILLI + s.nanos
  }

  /** What a throttled task sleeps: nothing, or the request it makes. */
  function SleptNs(r: Option<SleepRequest>): int {
    if r.Some? then RequestedNs(r.value) else 0
  }

  /** The split of a positive `sleepTimeNs` into whole milliseconds and the
      `(int)`-cast remainder: exact, accepted by `Thread.sleep`, and the
      cast loses nothing. */
  lemma SleepSplit(sleepTimeNs: Int64)
    requires sleepTimeNs > 0
    ensures var millis, rest := Div64(sleepTimeNs, NANOS_PER_MILLI), Rem64(sleepTimeNs, NANOS_PER_MILLI);
      && Wrap32(rest) == rest
      && AcceptedBySleep(SleepRequest(millis, rest))
      && RequestedNs(SleepRequest(millis, rest)) == sleepTimeNs
  {
    QuotRem(sleepTimeNs, NANOS_PER_MILLI);
    var q := Quot(sleepTimeNs, NANOS_PER_MILLI);
    assert 0 <= q <= sleepTimeNs;
  }

  /** The split of a negative `sleepTimeNs` (a wrapped shortfall) is a
      request `Thread.sleep` rejects: negative milliseconds, or zero
      milliseconds and negative nanoseconds. */
  lemma SleepSplitNegative(sleepTimeNs: Int64)
    requires sleepTimeNs < 0
    ensures var millis, rest := Div64(sleepTimeNs, NANOS_PER_MILLI), Rem64(sleepTimeNs, NANOS_PER_MILLI);
      && Wrap32(rest) == rest
      && millis <= 0
      && !AcceptedBySleep(SleepRequest(millis, rest))
  {
    QuotRem(sleepTimeNs, NANOS_PER_MILLI);
    var q := Quot(sleepTimeNs, NANOS_PER_MILLI);
    assert q <= 0;
    if q == 0 {
      assert Rem(sleepTimeNs, NANOS_PER_MILLI) == sleepTimeNs;
    }
  }

  /** `enforceThrottle(ioTimeNs, expectedIoTimeNs)`: sleeps, through the
      returned request, exactly when the write was faster than expected.
      `Thread.sleep` accepts the request exactly when the shortfall fits in a
      `long`, and it then asks for the whole shortfall. */
  function EnforceThrottle(ioTimeNs: Int64, expectedIoTimeNs: Int64): (r: Option<SleepRequest>)
    ensures r.Some? <==> ioTimeNs < expectedIoTimeNs
    ensures r.Some? && expectedIoTimeNs - ioTimeNs <= LONG_MAX ==>
      AcceptedBySleep(r.value) && ioTimeNs + RequestedNs(r.value) == expectedIoTimeNs
    ensures r.Some? ==> (AcceptedBySleep(r.value) <==> expectedIoTimeNs - ioTimeNs <= LONG_MAX)
  {
    if ioTimeNs < expectedIoTimeNs then
      var sleepTimeNs := Sub64(expectedIoTimeNs, ioTimeNs);
      var millis := Div64(sleepTimeNs, NANOS_PER_MILLI);
      var nanos := Wrap32(Rem64(sleepTimeNs, NANOS_PER_MILLI));
      var request := SleepRequest(millis, nanos);
      if expectedIoTimeNs - ioTimeNs <= LONG_MAX then
        SleepSplit(sleepTimeNs);
        Some(request)
      else
        SleepSplitNegative(sleepTimeNs);
        Some(request)
    else
      None
  }

  /** A shortfall wider than a `long` wraps to a negative `sleepTimeNs`,
      whatever the two durations: the request has no positive milliseconds
      and `Thread.sleep` rejects it. */
  lemma ShortfallOverflowRejected(ioTimeNs: Int64, expectedIoTimeNs: Int64)
    requires ioTimeNs < expectedIoTimeNs && expectedIoTimeNs - ioTimeNs > LONG_MAX
    ensures var r := EnforceThrottle(ioTimeNs, expectedIoTimeNs);
      r.Some? && r.value.millis <= 0 && !AcceptedBySleep(r.value)
  {
    var sleepTimeNs := Sub64(expectedIoTimeNs, ioTimeNs);
    assert sleepTimeNs == expectedIoTimeNs - ioTimeNs - TWO_64;
    SleepSplitNegative(sleepTimeNs);
  }

  /** For instance `enforceThrottle(Long.MIN_VALUE, 1)` asks `Thread.sleep`
      for -9_223_372_036_854 milliseconds. */
  lemma ShortfallOverflowAtMinValue()
    ensures var r := EnforceThrottle(LONG_MIN, 1);
      r.Some? && r.value.millis < 0 && !AcceptedBySleep(r.value)
  {
    var gap := Sub64(1, LONG_MIN);
    assert gap == LONG_MIN + 1;
    assert Quot(gap, NANOS_PER_MILLI) == -9_223_372_036_854;
  }

  /** Whenever the shortfall fits in a `long` (as it does for two
      non-negative durations, which is what a monotonic clock gives
      `createFile`), a task lasts exactly the longer of its write time and
      the expected time: it is stretched to the expected time and never
      shortened. */
  lemma ThrottledDuration(ioTimeNs: Int64, expectedIoTimeNs: Int64)
    requires expectedIoTimeNs - ioTimeNs <= LONG_MAX
    ensures var r := EnforceThrottle(ioTimeNs, expectedIoTimeNs);
      && (r.Some? ==> AcceptedBySleep(r.value))
      && ioTimeNs + SleptNs(r) == (if ioTimeNs < expectedIoTimeNs then expectedIoTimeNs else ioTimeNs)
      && ioTimeNs + SleptNs(r) >= expectedIoTimeNs
  {
  }

  /** `ioEndTimeNs - ioStartTimeNs` of `createFile`: the two clock readings
      when throttled, and 0 for both otherwise. */
  function ElapsedNs(isThrottled: bool, startReading: Int64, endReading: Int64): (r: Int64)
    ensures !isThrottled ==> r == 0
    ensures isThrottled && LONG_MIN <= endReading - startReading <= LONG_MAX ==> r == endReading - startReading
    ensures isThrottled ==> (endReading - startReading - r) % TWO_64 == 0
  {
    var ioStartTimeNs := if isThrottled then startReading else 0;
    var ioEndTimeNs := if isThrottled then endReading else 0;
    Sub64(ioEndTimeNs, ioStartTimeNs)
  }

  /** The difference of two readings of a monotonic nanosecond clock that
      may wrap (as `System.nanoTime` may) is the time that passed between
      them, for any interval shorter than 2^63 ns. */
  lemma MonotonicClockElapsed(startReading: Int64, elapsed: int)
    requires 0 <= elapsed <= LONG_MAX
    ensures ElapsedNs(true, startReading, Wrap64(startReading + elapsed)) == elapsed
  {
    var endReading := Wrap64(startReading + elapsed);
    if startReading + elapsed <= LONG_MAX {
      assert endReading - startReading == elapsed;
    } else {
      assert endReading == startReading + elapsed - TWO_64;
      assert Wrap64(endReading - startReading) == Wrap64(elapsed - TWO_64) == elapsed;
    }
  }

  /** Unthrottled, both timestamps are 0 and the expected time is 0, so the
      throttle never sleeps. */
  lemma UnthrottledNeverSleeps(dataLength: Int32, throttle: Int32, startReading: Int64, endReading: Int64)
    requires 0 <= dataLength
    ensures ElapsedNs(false, startReading, endReading) == 0
    ensures EnforceThrottle(ElapsedNs(false, startReading, endReading), ExpectedIoTimeNs(false, dataLength, throttle)) == None
  {
  }

  /** Throttled, a write that took `elapsed` ns on a monotonic clock is
      followed by a sleep Thread.sleep accepts, and write plus sleep last
      at least the expected time. */
  lemma ThrottledTaskLastsAtLeastExpected(dataLength: Int32, throttle: Int32, startReading: Int64, elapsed: int)
    requires 0 <= dataLength && throttle > 0
    requires 0 <= elapsed <= LONG_MAX
    ensures var expected := ExpectedIoTimeNs(true, dataLength, throttle);
      var r := EnforceThrottle(ElapsedNs(true, startReading, Wrap64(startReading + elapsed)), expected);
      && (r.Some? ==> AcceptedBySleep(r.value))
      && elapsed + SleptNs(r) == (if elapsed < expected then expected else elapsed)
  {
    MonotonicClockElapsed(startReading, elapsed);
    ThrottledDuration(elapsed, ExpectedIoTimeNs(true, dataLength, throttle));
  }

  /** A 1024-byte buffer at 1024 bytes per second is expected to take one
      second, and an instantaneous write then sleeps for exactly one second. */
  lemma OneSecondPerKibibyte()
    ensures ExpectedIoTimeNs(true, 1024, 1024) == NANOS_PER_SECOND
    ensures EnforceThrottle(0, NANOS_PER_SECOND) == Some(SleepRequest(1000, 0))
  {
    assert Quot(1024 * NANOS_PER_SECOND, 1024) == NANOS_PER_SECOND;
  }
}
