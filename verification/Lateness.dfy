/** How the integer thresholds of the tracker relate to the documented real-valued ones. */
module Lateness {
  import opened Numbers
  import opened Tracking

  /** The documented bound: the smaller of an absolute one and a share of the exact period. */
  function Bound(absolute: int, percentage: int, frequency: real): real
    requires frequency != 0.0
  {
    MinReal(absolute as real, percentage as real * (1000000.0 / frequency) / 100.0)
  }

  predicate DocumentedExceeds(absolute: int, percentage: int, frequency: real, latency: real)
    requires frequency != 0.0
  {
    latency > Bound(absolute, percentage, frequency)
  }

  predicate CodeExceeds(absolute: int, percentage: int, frequency: real, latency: uint64)
    requires frequency != 0.0
  {
    latency > Threshold(absolute, percentage, frequency)
  }

  ghost predicate AgreesAt(absolute: int, percentage: int, frequency: real, latency: uint64) {
    frequency > 0.0 && ThresholdDefined(percentage, frequency) ==>
      CodeExceeds(absolute, percentage, frequency, latency)
      == DocumentedExceeds(absolute, percentage, frequency, latency as real)
  }

  ghost predicate Agrees(absolute: int, percentage: int) {
    forall frequency: real, latency: uint64 :: AgreesAt(absolute, percentage, frequency, latency)
  }

  predicate ExactOptions(absolute: int, percentage: int) {
    absolute >= 0 && percentage >= 0 && (absolute == 0 || percentage == 0 || 100 % percentage == 0)
  }

  // ----- Exactness -----

  /** Truncating the period first and the share of it afterwards loses nothing when the share is 1/m. */
  lemma DoubleFloor(period: real, m: nat, latency: nat)
    requires m > 0 && period >= 0.0
    ensures latency > period.Floor / m <==> latency as real * m as real > period
  {
    var n := period.Floor;
    assert n / m < latency <==> n < latency * m by { DivLess(n, m, latency); }
    var p := latency * m;
    assert p as real == latency as real * m as real;
    assert n < p <==> period < p as real;
  }

  lemma Share(percentage: nat, n: nat)
    requires percentage > 0 && 100 % percentage == 0
    ensures percentage * n / 100 == n / (100 / percentage)
  {
  }

  lemma RealShare(percentage: nat, m: nat, period: real)
    requires percentage * m == 100
    ensures percentage as real * period / 100.0 * m as real == period
  {
  }

  lemma ScaleUp(x: real, y: real, m: real)
    requires m > 0.0
    ensures x > y <==> x * m > y * m
  {
  }

  lemma PeriodNonNegative(frequency: real)
    requires frequency > 0.0
    ensures 1000000.0 / frequency > 0.0 && PeriodUs(frequency) == (1000000.0 / frequency).Floor >= 0
  {
  }

  /** The truncated share and the real one are exceeded by the same whole latencies. */
  lemma ShareFloor(percentage: nat, period: real, latency: nat)
    requires percentage > 0 && 100 % percentage == 0 && period >= 0.0
    ensures percentage * period.Floor / 100 >= 0
    ensures latency > percentage * period.Floor / 100 <==> latency as real > percentage as real * period / 100.0
  {
    var n, m := period.Floor, 100 / percentage;
    Share(percentage, n);
    DoubleFloor(period, m, latency);
    RealShare(percentage, m, period);
    hide *;
    ScaleUp(latency as real, percentage as real * period / 100.0, m as real);
  }

  lemma ThresholdIs(absolute: nat, percentage: nat, frequency: real, share: nat)
    requires FitsInt32(absolute) && frequency > 0.0 && share == percentage * PeriodUs(frequency) / 100
    requires percentage * PeriodUs(frequency) >= 0
    ensures Threshold(absolute, percentage, frequency) == Min(absolute, share)
  {
  }

  lemma ExactShareAgrees(absolute: nat, percentage: nat, frequency: real, latency: uint64)
    requires FitsInt32(absolute) && percentage > 0 && 100 % percentage == 0
    ensures AgreesAt(absolute, percentage, frequency, latency)
  {
    if frequency > 0.0 && ThresholdDefined(percentage, frequency) {
      var period := 1000000.0 / frequency;
      PeriodNonNegative(frequency);
      ShareFloor(percentage, period, latency);
      var share := percentage * period.Floor / 100;
      ThresholdIs(absolute, percentage, frequency, share);
      hide Threshold, Trunc;
    }
  }

  lemma ZeroAgrees(absolute: nat, percentage: nat, frequency: real, latency: uint64)
    requires FitsInt32(absolute) && (absolute == 0 || percentage == 0)
    ensures AgreesAt(absolute, percentage, frequency, latency)
  {
  }

  // ----- Every other setting misclassifies some message -----

  /** A negative bound is read as an unsigned number: it becomes a threshold of at least 2^31 microseconds,
      and exactly the latencies above that one exceed it. */
  lemma NegativeBound(absolute: int, percentage: int, frequency: real, latency: uint64)
    requires FitsInt32(absolute) && frequency > 0.0 && ThresholdDefined(percentage, frequency)
    requires Min(absolute, TruncDiv(percentage * PeriodUs(frequency), 100)) < 0
    ensures var bound := Min(absolute, TruncDiv(percentage * PeriodUs(frequency), 100));
            && Threshold(absolute, percentage, frequency) == TWO32 + bound >= TWO31
            && (CodeExceeds(absolute, percentage, frequency, latency) <==> latency > TWO32 + bound)
  {
    hide PeriodUs;
    var share := percentage * PeriodUs(frequency);
    assert -TWO31 <= TruncDiv(share, 100);
  }

  /** At one million hertz a latency of zero exceeds a negative bound, but not the threshold of the code. */
  lemma NegativeDisagrees(absolute: int, percentage: int)
    requires FitsInt32(absolute) && FitsInt32(percentage) && (absolute < 0 || percentage < 0)
    ensures !AgreesAt(absolute, percentage, 1000000.0, 0)
  {
  }

  /** A share that does not divide 100: with a period of 100/percentage a latency of one microsecond
      equals the documented bound, while the truncated bound is zero. */
  lemma OddShareDisagrees(absolute: int, percentage: int)
    requires FitsInt32(absolute) && absolute > 0 && percentage > 0 && 100 % percentage != 0
    ensures !AgreesAt(absolute, percentage, 10000.0 * percentage as real, 1)
  {
    var f := 10000.0 * percentage as real;
    var period := 1000000.0 / f;
    var n := period.Floor;
    assert period * f == 1000000.0;
    assert percentage as real * period == 100.0;
    assert PeriodUs(f) == n;
    assert percentage as real * n as real <= 100.0;
    assert (percentage * n) as real == percentage as real * n as real;
    assert percentage * n <= 100;
    if percentage * n == 100 {
      MultipleDivides(percentage, n);
    }
    assert n <= 100;
    assert Threshold(absolute, percentage, f) == 0;
  }

  lemma MultipleDivides(p: nat, n: nat)
    requires p > 0 && p * n == 100
    ensures 100 % p == 0
  {
  }

  /** The truncated thresholds classify every message as documented exactly for these settings;
      the defaults 20 % and 100 % are among them, 30 % is not. */
  lemma AgreesExactly(absolute: int, percentage: int)
    requires FitsInt32(absolute) && FitsInt32(percentage)
    ensures Agrees(absolute, percentage) <==> ExactOptions(absolute, percentage)
  {
    if ExactOptions(absolute, percentage) {
      forall frequency: real, latency: uint64 ensures AgreesAt(absolute, percentage, frequency, latency) {
        if absolute == 0 || percentage == 0 {
          ZeroAgrees(absolute, percentage, frequency, latency);
        } else {
          ExactShareAgrees(absolute, percentage, frequency, latency);
        }
      }
    } else if absolute < 0 || percentage < 0 {
      NegativeDisagrees(absolute, percentage);
    } else {
      OddShareDisagrees(absolute, percentage);
    }
  }

  // ----- Severity -----

  function Rank(s: Severity): int {
    match s case OnTime => 0 case Late => 1 case TooLate => 2
  }

  /** A longer latency is never classified as less severe. */
  lemma SeverityMonotone(o: Options, frequency: real, a: uint64, b: uint64)
    requires frequency != 0.0 && a <= b
    ensures Rank(Classify(o, frequency, a)) <= Rank(Classify(o, frequency, b))
  {
  }

  /** The documented class of a latency in microseconds, which is negative for a stamp in the future. */
  function DocumentedClass(o: Options, frequency: real, latency: real): Severity
    requires frequency != 0.0
  {
    if DocumentedExceeds(o.tooLateAbsolute, o.tooLatePercentage, frequency, latency) then TooLate
    else if DocumentedExceeds(o.lateAbsolute, o.latePercentage, frequency, latency) then Late
    else OnTime
  }

  /** Both pairs of bounds are among those that the code gets right. */
  predicate ExactSettings(o: Options) {
    && FitsInt32(o.lateAbsolute) && FitsInt32(o.latePercentage)
    && FitsInt32(o.tooLateAbsolute) && FitsInt32(o.tooLatePercentage)
    && ExactOptions(o.lateAbsolute, o.latePercentage) && ExactOptions(o.tooLateAbsolute, o.tooLatePercentage)
  }

  /** The unsigned latency is the signed quotient exactly for messages stamped less than a microsecond in
      the future; every other one wraps to an enormous latency and is too late under any options. */
  lemma FutureStampTooLate(o: Options, frequency: real, now: int, stamp: int)
    requires frequency != 0.0 && -TWO63 <= now - stamp < TWO63
    ensures LatencyUs(now, stamp) == TruncDiv(now - stamp, 1000) <==> now - stamp > -1000
    ensures now - stamp <= -1000 ==> TruncDiv(now - stamp, 1000) < 0
    ensures now - stamp <= -1000 ==>
              LatencyUs(now, stamp) >= TWO63 && Classify(o, frequency, LatencyUs(now, stamp)) == TooLate
  {
    hide PeriodUs, Min;
    var x := now - stamp;
    if x > -1000 {
      assert 0 <= TruncDiv(x, 1000) < TWO64;
    } else {
      assert -TWO63 <= TruncDiv(x, 1000) < 0;
      assert LatencyUs(now, stamp) == TWO64 + TruncDiv(x, 1000);
    }
  }

  lemma NegativeIsOnTime(o: Options, frequency: real, latency: real)
    requires ExactSettings(o) && frequency > 0.0 && latency < 0.0
    ensures DocumentedClass(o, frequency, latency) == OnTime
  {
    PeriodNonNegative(frequency);
    hide PeriodUs;
    ShareNonNegative(o.latePercentage, 1000000.0 / frequency);
    ShareNonNegative(o.tooLatePercentage, 1000000.0 / frequency);
  }

  lemma ShareNonNegative(percentage: nat, period: real)
    requires period >= 0.0
    ensures percentage as real * period / 100.0 >= 0.0
  {
  }

  lemma ClassOfWhole(o: Options, frequency: real, latency: uint64)
    requires o.enabled && ExactSettings(o) && frequency > 0.0 && ScanDefined(o, frequency)
    ensures Classify(o, frequency, latency) == DocumentedClass(o, frequency, latency as real)
  {
    AgreesExactly(o.lateAbsolute, o.latePercentage);
    AgreesExactly(o.tooLateAbsolute, o.tooLatePercentage);
    assert AgreesAt(o.lateAbsolute, o.latePercentage, frequency, latency);
    assert AgreesAt(o.tooLateAbsolute, o.tooLatePercentage, frequency, latency);
    hide Threshold, ThresholdDefined, DocumentedExceeds;
  }

  /** The latency in microseconds, of which the code drops the fraction. */
  function TrueLatency(now: int, stamp: int): real {
    (now - stamp) as real / 1000.0
  }

  /** A bound that the latency exceeds, but its whole microseconds do not. */
  predicate Straddles(bound: real, now: int, stamp: int) {
    TruncDiv(now - stamp, 1000) as real <= bound < TrueLatency(now, stamp)
  }

  lemma WholeBelow(now: int, stamp: int)
    requires now - stamp > -1000
    ensures 0 <= TruncDiv(now - stamp, 1000)
    ensures TruncDiv(now - stamp, 1000) as real <= TrueLatency(now, stamp)
            || (TrueLatency(now, stamp) < 0.0 && TruncDiv(now - stamp, 1000) == 0)
  {
    var x := now - stamp;
    if x >= 0 {
      assert 1000 * (x / 1000) <= x;
      assert (1000 * (x / 1000)) as real == 1000.0 * (x / 1000) as real;
    }
  }

  lemma BoundNonNegative(absolute: int, percentage: int, frequency: real)
    requires ExactOptions(absolute, percentage) && frequency > 0.0
    ensures Bound(absolute, percentage, frequency) >= 0.0
  {
    PeriodNonNegative(frequency);
    ShareNonNegative(percentage, 1000000.0 / frequency);
  }

  /** For every exact setting, every frequency whose thresholds the code can compute and every pair of
      times, the class given by the code is the documented class of the latency if and only if the message
      is not stamped a microsecond or more in the future, and dropping the fraction of the latency does not
      take it below the too late bound, or below the late bound of a message that is not too late. */
  lemma ClassifiedAsDocumented(o: Options, frequency: real, now: int, stamp: int)
    requires o.enabled && ExactSettings(o) && frequency > 0.0 && ScanDefined(o, frequency)
    requires -TWO63 <= now - stamp < TWO63
    ensures var tooLate := Bound(o.tooLateAbsolute, o.tooLatePercentage, frequency);
            var late := Bound(o.lateAbsolute, o.latePercentage, frequency);
            Classify(o, frequency, LatencyUs(now, stamp)) == DocumentedClass(o, frequency, TrueLatency(now, stamp))
            <==>
              && now - stamp > -1000
              && !Straddles(tooLate, now, stamp)
              && (Straddles(late, now, stamp) ==> TruncDiv(now - stamp, 1000) as real > tooLate)
  {
    hide Classify, ScanDefined, Bound, LatencyUs, TruncDiv;
    FutureStampTooLate(o, frequency, now, stamp);
    if now - stamp <= -1000 {
      NegativeIsOnTime(o, frequency, TrueLatency(now, stamp));
    } else {
      WholeBelow(now, stamp);
      ClassOfWhole(o, frequency, LatencyUs(now, stamp));
      BoundNonNegative(o.tooLateAbsolute, o.tooLatePercentage, frequency);
      BoundNonNegative(o.lateAbsolute, o.latePercentage, frequency);
    }
  }

  /** The documented class under the default options, with the bounds written out. */
  function DefaultClass(period: real, latency: real): Severity {
    if latency > MinReal(50000.0, period) then TooLate
    else if latency > MinReal(5000.0, period / 5.0) then Late
    else OnTime
  }

  lemma DefaultBounds(frequency: real, latency: real)
    requires frequency != 0.0
    ensures Bound(50000, 100, frequency) == MinReal(50000.0, 1000000.0 / frequency)
    ensures Bound(5000, 20, frequency) == MinReal(5000.0, 1000000.0 / frequency / 5.0)
    ensures DocumentedClass(DEFAULT_OPTIONS, frequency, latency) == DefaultClass(1000000.0 / frequency, latency)
  {
    assert 20 as real * (1000000.0 / frequency) / 100.0 == 1000000.0 / frequency / 5.0;
    assert 100 as real * (1000000.0 / frequency) / 100.0 == 1000000.0 / frequency;
    hide MinReal;
  }

  /** Under the default options the class is the documented one if and only if the stamp is less than a
      microsecond ahead and neither bound lies between the whole microseconds and the latency. */
  lemma DefaultsAsDocumented(frequency: real, now: int, stamp: int)
    requires frequency > 0.0 && ScanDefined(DEFAULT_OPTIONS, frequency) && -TWO63 <= now - stamp < TWO63
    ensures var period := 1000000.0 / frequency;
            Classify(DEFAULT_OPTIONS, frequency, LatencyUs(now, stamp))
              == DefaultClass(period, TrueLatency(now, stamp))
            <==>
              && now - stamp > -1000
              && !Straddles(MinReal(50000.0, period), now, stamp)
              && !Straddles(MinReal(5000.0, period / 5.0), now, stamp)
  {
    hide ScanDefined, Classify, LatencyUs, TruncDiv, TrueLatency;
    ClassifiedAsDocumented(DEFAULT_OPTIONS, frequency, now, stamp);
    DefaultBounds(frequency, TrueLatency(now, stamp));
    PeriodNonNegative(frequency);
    assert MinReal(5000.0, 1000000.0 / frequency / 5.0) <= MinReal(50000.0, 1000000.0 / frequency);
  }

  /** Half a microsecond above the bound of 50 ms, at ten hertz: documented as too late, counted as late. */
  lemma FractionDropped()
    ensures TrueLatency(50000500, 0) == 50000.5 && ScanDefined(DEFAULT_OPTIONS, 10.0)
    ensures Classify(DEFAULT_OPTIONS, 10.0, LatencyUs(50000500, 0)) == Late
    ensures DocumentedClass(DEFAULT_OPTIONS, 10.0, TrueLatency(50000500, 0)) == TooLate
  {
    DefaultBounds(10.0, 50000.5);
    ClassOfWhole(DEFAULT_OPTIONS, 10.0, 50000);
    DefaultBounds(10.0, 50000.0);
  }

  // ----- Stored frequencies -----

  /** The frequency a client stores for a period in microseconds, by integer division. */
  function StoredFrequency(period: int): int
    requires period > 0
  {
    1000000 / period
  }

  lemma PeriodOfInteger(f: int)
    requires f > 0
    ensures PeriodUs(f as real) == 1000000 / f
  {
  }

  lemma DivAtLeast(k: int, d: int)
    requires d > 0
    ensures k <= 1000000 / d <==> k * d <= 1000000
  {
    var q := 1000000 / d;
    assert 1000000 == d * q + 1000000 % d;
    if k <= q {
      assert k * d <= q * d;
    } else {
      assert (q + 1) * d <= k * d;
    }
  }

  /** The period that the tracker recovers from the stored frequency of a client: never below the
      client's period, unchanged by a second conversion, and the client's own exactly when the next
      longer period would store a lower frequency. */
  lemma RecoveredPeriod(period: int)
    requires 1 <= period <= 1000000
    ensures var f := StoredFrequency(period);
            var recovered := PeriodUs(f as real);
            && f > 0 && period <= recovered <= 1000000
            && StoredFrequency(recovered) == f
            && (recovered == period <==> StoredFrequency(period + 1) < f)
  {
    var f := StoredFrequency(period);
    DivAtLeast(1, period);
    PeriodOfInteger(f);
    var r := 1000000 / f;
    DivAtLeast(f, period);
    DivAtLeast(period, f);
    DivAtLeast(r, f);
    DivAtLeast(f, r);
    DivAtLeast(f + 1, r);
    DivAtLeast(f + 1, period);
    DivAtLeast(period + 1, f);
    DivAtLeast(f, period + 1);
    assert (f + 1) * period <= (f + 1) * r && r <= r * f;
    assert (period + 1) * f == f * (period + 1) && period * f == f * period && r * f == f * r;
  }

  /** Whether a latency of whole microseconds gets the documented class of the client's own period. */
  predicate OwnClassAt(period: int, latency: uint64)
    requires 1 <= period <= 1000000
  {
    DivAtLeast(1, period);
    Classify(DEFAULT_OPTIONS, StoredFrequency(period) as real, latency) == DefaultClass(period as real, latency as real)
  }

  lemma ClassOfRecovered(period: int, latency: uint64)
    requires 1 <= period <= 1000000
    ensures StoredFrequency(period) > 0
    ensures var recovered := PeriodUs(StoredFrequency(period) as real);
            OwnClassAt(period, latency) <==>
              DefaultClass(recovered as real, latency as real) == DefaultClass(period as real, latency as real)
  {
    RecoveredPeriod(period);
    var f := StoredFrequency(period);
    PeriodOfInteger(f);
    ClientThresholdsDefined(period);
    hide Classify, ScanDefined, DocumentedClass;
    ClassOfWhole(DEFAULT_OPTIONS, f as real, latency);
    DefaultBounds(f as real, latency as real);
    FloorClass(1000000.0 / f as real, latency);
  }

  /** Whole latencies do not see the fraction of a period. */
  lemma FloorClass(period: real, latency: nat)
    requires period > 0.0
    ensures DefaultClass(period, latency as real) == DefaultClass(Trunc(period) as real, latency as real)
  {
    var n := period.Floor;
    DoubleFloor(period, 5, latency);
    DoubleFloor(period, 1, latency);
    DoubleFloor(n as real, 5, latency);
    assert period / 5.0 * 5.0 == period;
    assert n as real / 5.0 * 5.0 == n as real;
  }

  /** Every latency of a client gets the documented class of the period that the client was given if and
      only if that period is recovered, or is too long to matter beside the absolute bounds. */
  lemma OwnPeriodExactly(period: int)
    requires 1 <= period <= 1000000
    ensures (forall latency: uint64 :: OwnClassAt(period, latency))
      <==> period >= 50000 || StoredFrequency(period + 1) < StoredFrequency(period)
  {
    RecoveredPeriod(period);
    hide OwnClassAt, StoredFrequency, PeriodUs;
    var recovered := PeriodUs(StoredFrequency(period) as real);
    forall latency: uint64
      ensures OwnClassAt(period, latency) <==>
                DefaultClass(recovered as real, latency as real) == DefaultClass(period as real, latency as real)
    {
      ClassOfRecovered(period, latency);
    }
    if period < 50000 && recovered > period {
      var latency: uint64 := period + 1;
      assert DefaultClass(period as real, latency as real) == TooLate;
      assert DefaultClass(recovered as real, latency as real) != TooLate;
      assert !OwnClassAt(period, latency);
    }
  }

  /** A client of 1500 microseconds stores 666 hertz, and a latency above its period is not too late. */
  lemma PeriodNotRecovered()
    ensures StoredFrequency(1500) == 666 && PeriodUs(666.0) == 1501
    ensures Classify(DEFAULT_OPTIONS, 666.0, 1501) == Late && DefaultClass(1500.0, 1501.0) == TooLate
  {
    PeriodOfInteger(666);
    ClassOfRecovered(1500, 1501);
    RecoveredPeriod(1500);
  }

  /** A client whose period is longer than a second stores the frequency zero, for which the thresholds
      divide by zero; for all other periods they are defined. */
  lemma ClientThresholdsDefined(period: int)
    requires period > 0
    ensures ScanDefined(DEFAULT_OPTIONS, StoredFrequency(period) as real) <==> period <= 1000000
  {
  }

  /** Short periods are recovered exactly. */
  lemma ShortPeriodsExact(period: int)
    requires 1 <= period <= 1000
    ensures PeriodUs(StoredFrequency(period) as real) == period
  {
    RecoveredPeriod(period);
    var f := StoredFrequency(period);
    DivAtLeast(f, period + 1);
    DivAtLeast(f + 1, period);
    if period < 1000 {
      assert (f + 1) * period > 1000000;
      ProductBelow(f, period);
    }
  }

  lemma ProductBelow(f: int, period: int)
    requires 1 <= period < 1000 && (f + 1) * period > 1000000
    ensures f * (period + 1) > 1000000
  {
    var fp := f * period;
    assert (f + 1) * period == fp + period;
    assert (f - 1000) * period == fp - 1000 * period;
    PositiveFactor(f - 1000, period);
    assert f * (period + 1) == fp + f;
  }

  lemma PositiveFactor(x: int, y: int)
    requires y > 0 && x * y > 0
    ensures x > 0
  {
  }

  /** The publisher keeps the exact quotient, from which its period is recovered for every period. */
  lemma PublisherPeriodExact(period: int)
    requires period > 0
    ensures PeriodUs(1000000.0 / period as real) == period
  {
  }

  /** Both the stored quotient and the one taken by the tracker are rounded to single precision. */
  const EPSILON := 1.0 / 8388608.0

  predicate Rounds(r: real, n: real, d: real) {
    n - n * EPSILON <= r * d <= n + n * EPSILON
  }

  /** However the two quotients are rounded, the tracker loses at most one microsecond of the period of a
      publisher, and none exactly when the second rounding does not end below the period. */
  lemma PublisherPeriodRounded(period: int, frequency: real, quotient: real)
    requires 1 <= period <= 4000000 && frequency > 0.0
    requires Rounds(frequency, 1000000.0, period as real) && Rounds(quotient, 1000000.0, frequency)
    ensures period - 1 <= Trunc(quotient) <= period
    ensures Trunc(quotient) == period <==> quotient >= period as real
  {
    var p := period as real;
    FastEnough(p, frequency);
    NotAbove(p, frequency, quotient);
    NotBelow(p, frequency, quotient);
    hide Rounds;
  }

  lemma FastEnough(p: real, frequency: real)
    requires 1.0 <= p <= 4000000.0 && frequency > 0.0 && Rounds(frequency, 1000000.0, p)
    ensures frequency > 0.24
  {
    if frequency <= 0.24 {
      Times(p, 4000000.0, frequency);
    }
  }

  function Product(x: real, y: real): real {
    x * y
  }

  lemma Margin(r: real, d: real)
    requires Rounds(r, 1000000.0, d)
    ensures 999999.88 <= Product(r, d) <= 1000000.12
  {
    assert 1000000.0 * EPSILON < 0.12;
  }

  lemma NotAbove(p: real, frequency: real, quotient: real)
    requires frequency > 0.24 && Rounds(frequency, 1000000.0, p) && Rounds(quotient, 1000000.0, frequency)
    ensures quotient < p + 1.0
  {
    hide Rounds, Product;
    Margin(frequency, p);
    Margin(quotient, frequency);
    OneMore(p, frequency);
    Cancel(quotient, p + 1.0, frequency);
  }

  lemma NotBelow(p: real, frequency: real, quotient: real)
    requires frequency > 0.24 && Rounds(frequency, 1000000.0, p) && Rounds(quotient, 1000000.0, frequency)
    ensures quotient > p - 1.0
  {
    hide Rounds, Product;
    Margin(frequency, p);
    Margin(quotient, frequency);
    OneMore(p, frequency);
    Cancel(p - 1.0, quotient, frequency);
  }

  lemma Cancel(a: real, b: real, c: real)
    requires c > 0.0 && Product(a, c) < Product(b, c)
    ensures a < b
  {
    if b <= a {
      Times(b, a, c);
    }
  }

  lemma OneMore(p: real, frequency: real)
    ensures Product(p + 1.0, frequency) == Product(frequency, p) + frequency
    ensures Product(p - 1.0, frequency) == Product(frequency, p) - frequency
  {
  }

  lemma Times(a: real, b: real, c: real)
    requires a <= b && c > 0.0
    ensures a * c <= b * c
  {
  }
}
