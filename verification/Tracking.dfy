/** `Tracker`: loss accounting, lateness classes, statistics and the resettable delta window. */
module Tracking {
  import opened Numbers
  import opened Statistics

  // ----- Values -----

  datatype Options = Options(
    enabled: bool,
    latePercentage: int,
    lateAbsolute: int,
    tooLatePercentage: int,
    tooLateAbsolute: int)

  const DEFAULT_OPTIONS := Options(true, 20, 5000, 100, 50000)

  /** `stamp` is in nanoseconds. */
  datatype Header = Header(stamp: int, number: uint32, frequency: real, size: nat)

  datatype Severity = OnTime | Late | TooLate

  function PeriodUs(frequency: real): int
    requires frequency != 0.0
  {
    Trunc(1000000.0 / frequency)
  }

  /** The conversions and products of the threshold stay within `int`; outside, the C++ is undefined. */
  predicate ThresholdDefined(percentage: int, frequency: real) {
    frequency != 0.0 && FitsInt32(PeriodUs(frequency)) && FitsInt32(percentage * PeriodUs(frequency))
  }

  function Threshold(absolute: int, percentage: int, frequency: real): uint32
    requires frequency != 0.0
  {
    ToU32(Min(absolute, TruncDiv(percentage * PeriodUs(frequency), 100)))
  }

  predicate ScanDefined(o: Options, frequency: real) {
    o.enabled ==> ThresholdDefined(o.latePercentage, frequency) && ThresholdDefined(o.tooLatePercentage, frequency)
  }

  function LatencyUs(now: int, stamp: int): uint64 {
    ToU64(TruncDiv(now - stamp, 1000))
  }

  function Classify(o: Options, frequency: real, latency: uint64): Severity
    requires frequency != 0.0
  {
    if latency > Threshold(o.tooLateAbsolute, o.tooLatePercentage, frequency) then TooLate
    else if latency > Threshold(o.lateAbsolute, o.latePercentage, frequency) then Late
    else OnTime
  }

  /** The whole microseconds from a stamp to a time, both in nanoseconds, as an unsigned 64-bit number. */
  ghost predicate Measures(latency: uint64, now: int, stamp: int) {
    && (0 <= now - stamp < TWO63 ==> latency == (now - stamp) / 1000)
    && (-1000 < now - stamp < 0 ==> latency == 0)
    && (-TWO63 <= now - stamp <= -1000 ==> latency == TWO64 - (stamp - now) / 1000)
  }

  lemma LatencyMeasures(now: int, stamp: int)
    ensures Measures(LatencyUs(now, stamp), now, stamp)
  {
  }

  /** The observable state of a tracker. `latencies` and `window` are the samples behind the two
      `Stat` members; `window` restarts whenever the delta statistics are read. */
  datatype State = State(
    options: Options,
    expected: uint32,
    lost: uint64,
    received: nat,
    late: nat,
    tooLate: nat,
    latencies: seq<uint64>,
    deltaReceived: nat,
    window: seq<uint64>,
    last: uint64,
    size: nat,
    frequency: real)

  function Fresh(o: Options): State {
    State(o, 0, 0, 0, 0, 0, [], 0, [], 0, 0, 0.0)
  }

  function WithSample(s: State, latency: uint64, size: nat, frequency: real): State {
    s.(size := if s.latencies == [] then size else s.size,
       frequency := if s.latencies == [] then frequency else s.frequency,
       latencies := s.latencies + [latency],
       window := s.window + [latency])
  }

  /** The number of messages missing between the expected number and the one received. */
  function Gap(number: uint32, expected: uint32): uint32 {
    ToU32(number - expected)
  }

  lemma NoGap(number: uint32, lost: uint64)
    ensures ToU64(lost + Gap(number, number)) == lost
  {
  }

  function Scanned(s: State, h: Header, now: int): State
    requires ScanDefined(s.options, h.frequency)
  {
    var latency := LatencyUs(now, h.stamp);
    var noted := s.(last := latency);
    var counted :=
      if !s.options.enabled then noted
      else
        var severity := Classify(s.options, h.frequency, latency);
        noted.(expected := ToU32(h.number + 1),
               lost := ToU64(s.lost + Gap(h.number, s.expected)),
               late := s.late + (if severity == Late then 1 else 0),
               tooLate := s.tooLate + (if severity == TooLate then 1 else 0));
    var sampled := WithSample(counted, latency, h.size, h.frequency);
    sampled.(received := sampled.received + 1, deltaReceived := sampled.deltaReceived + 1)
  }

  lemma ScannedCounters(s: State, h: Header, now: int)
    requires s.options.enabled && ScanDefined(s.options, h.frequency)
    ensures var t := Scanned(s, h, now);
            && t.options == s.options
            && t.received == s.received + 1
            && t.lost == ToU64(s.lost + Gap(h.number, s.expected))
            && t.expected == ToU32(h.number + 1)
            && |t.latencies| == |s.latencies| + 1
            && t.frequency == if s.latencies == [] then h.frequency else s.frequency
  {
  }

  /** Reading the delta statistics closes the current window. */
  function WindowRead(s: State): State {
    s.(deltaReceived := 0, window := [])
  }

  function AsReals(xs: seq<uint64>): (rs: seq<real>)
    ensures |rs| == |xs|
  {
    seq(|xs|, i requires 0 <= i < |xs| => xs[i] as real)
  }

  lemma AsRealsAppend(xs: seq<uint64>, ys: seq<uint64>)
    ensures AsReals(xs + ys) == AsReals(xs) + AsReals(ys)
  {
  }

  // ----- The object -----

  class Tracker {
    const options: Options
    var deltaStat: Stat
    var deltaReceived: nat
    var lastLatency: uint64
    var lostMessages: uint64
    var receivedMessages: nat
    var lateMessages: nat
    var tooLateMessages: nat
    var dataSize: nat
    var frequency: real
    const stat: Stat
    var trackingNumberCount: uint32
    var allLatency: seq<uint64>
    ghost var window: seq<uint64>

    ghost predicate Valid()
      reads this, stat, deltaStat
    {
      && stat != deltaStat && stat.Valid() && deltaStat.Valid()
      && stat.samples == AsReals(allLatency)
      && deltaStat.samples == AsReals(window)
    }

    ghost function Value(): State
      reads this
    {
      State(options, trackingNumberCount, lostMessages, receivedMessages, lateMessages, tooLateMessages,
            allLatency, deltaReceived, window, lastLatency, dataSize, frequency)
    }

    constructor (o: Options)
      ensures Valid() && Value() == Fresh(o) && fresh(stat) && fresh(deltaStat)
      ensures options == o && allLatency == window == [] && frequency == 0.0
      ensures trackingNumberCount == lostMessages == lastLatency == 0
      ensures receivedMessages == lateMessages == tooLateMessages == deltaReceived == dataSize == 0
    {
      options := o;
      deltaReceived, lastLatency, lostMessages, receivedMessages := 0, 0, 0, 0;
      lateMessages, tooLateMessages, dataSize, frequency, trackingNumberCount := 0, 0, 0, 0.0, 0;
      allLatency, window := [], [];
      stat := new Stat();
      deltaStat := new Stat();
      new;
      assert AsReals([]) == [];
    }

    method AddSample(latency: uint64, size: nat, f: real)
      requires Valid()
      modifies this, stat, deltaStat
      ensures Valid() && deltaStat == old(deltaStat)
      ensures Value() == WithSample(old(Value()), latency, size, f)
    {
      hide Represents;
      if stat.N() == 0 {
        dataSize := size;
        frequency := f;
      }
      stat.AddSample(latency as real);
      deltaStat.AddSample(latency as real);
      allLatency := allLatency + [latency];
      window := window + [latency];
      assert AsReals([latency]) == [latency as real];
      AsRealsAppend(old(allLatency), [latency]);
      AsRealsAppend(old(window), [latency]);
    }

    method Scan(h: Header, now: int)
      requires Valid() && ScanDefined(options, h.frequency)
      modifies this, stat, deltaStat
      ensures Valid() && deltaStat == old(deltaStat)
      ensures Value() == Scanned(old(Value()), h, now)
    {
      hide Represents, Trunc, TruncDiv, Min, ToU32, ToU64, AsReals, Stat.Valid, WithSample;
      var latency := ToU64(TruncDiv(now - h.stamp, 1000));
      lastLatency := latency;

      var late := false;
      var tooLate := false;
      if options.enabled {
        assert h.number == trackingNumberCount ==>
          lostMessages == ToU64(lostMessages + Gap(h.number, trackingNumberCount))
        by { NoGap(h.number, lostMessages); }
        if h.number == trackingNumberCount {
          trackingNumberCount := ToU32(trackingNumberCount + 1);
        } else {
          var lost := ToU32(h.number - trackingNumberCount);
          lostMessages := ToU64(lostMessages + lost);
          trackingNumberCount := ToU32(h.number + 1);
        }

        var period := Trunc(1000000.0 / h.frequency);
        var lateThreshold :=
          ToU32(Min(options.lateAbsolute, TruncDiv(options.latePercentage * period, 100)));
        var tooLateThreshold :=
          ToU32(Min(options.tooLateAbsolute, TruncDiv(options.tooLatePercentage * period, 100)));
        tooLate := latency > tooLateThreshold;
        late := latency > lateThreshold && !tooLate;
        if late {
          lateMessages := lateMessages + 1;
        }
        if tooLate {
          tooLateMessages := tooLateMessages + 1;
        }
      }

      AddSample(latency, h.size, h.frequency);
      receivedMessages := receivedMessages + 1;
      deltaReceived := deltaReceived + 1;
    }

    method NextNumber() returns (number: uint32)
      requires Valid()
      modifies this
      ensures Valid() && deltaStat == old(deltaStat)
      ensures number == old(Value()).expected
      ensures Value() == old(Value()).(expected := ToU32(number + 1))
    {
      number := trackingNumberCount;
      trackingNumberCount := ToU32(trackingNumberCount + 1);
    }

    method ResetDeltaReceived()
      requires Valid()
      modifies this
      ensures Valid() && deltaStat == old(deltaStat)
      ensures Value() == old(Value()).(deltaReceived := 0)
    {
      deltaReceived := 0;
    }

    method ResetDeltaStat()
      requires Valid()
      modifies this
      ensures Valid() && fresh(deltaStat)
      ensures Value() == old(Value()).(window := [])
    {
      deltaStat := new Stat();
      window := [];
      assert AsReals([]) == [];
    }
  }

  // ----- Runs -----

  datatype Event = Message(header: Header, now: int) | ReadWindow

  ghost predicate RunDefined(o: Options, es: seq<Event>) {
    forall i :: 0 <= i < |es| && es[i].Message? ==> ScanDefined(o, es[i].header.frequency)
  }

  /** The state after any sequence of scans and delta reads, each of them atomic. */
  function Run(o: Options, es: seq<Event>): (s: State)
    requires RunDefined(o, es)
    ensures s.options == o
  {
    if es == [] then Fresh(o)
    else
      var front, last := es[..|es| - 1], es[|es| - 1];
      assert forall i :: 0 <= i < |front| ==> front[i] == es[i];
      var s := Run(o, front);
      match last
      case Message(h, now) => Scanned(s, h, now)
      case ReadWindow => WindowRead(s)
  }

  function EventSeverity(o: Options, e: Event): Severity
    requires e.Message? && e.header.frequency != 0.0
  {
    Classify(o, e.header.frequency, LatencyUs(e.now, e.header.stamp))
  }

  /** The positions of the messages of one class. */
  ghost function Classified(o: Options, es: seq<Event>, c: Severity): set<nat>
    requires o.enabled && RunDefined(o, es)
  {
    set i: nat | i < |es| && es[i].Message? && EventSeverity(o, es[i]) == c
  }

  lemma ClassifiedFront(o: Options, es: seq<Event>, c: Severity)
    requires o.enabled && RunDefined(o, es) && es != []
    ensures RunDefined(o, es[..|es| - 1])
    ensures var last := |es| - 1;
            |Classified(o, es, c)| == |Classified(o, es[..last], c)|
              + (if es[last].Message? && EventSeverity(o, es[last]) == c then 1 else 0)
  {
    hide Classify, LatencyUs;
    var last := |es| - 1;
    assert forall i :: 0 <= i < last ==> es[..last][i] == es[i];
    var all, front := Classified(o, es, c), Classified(o, es[..last], c);
    if es[last].Message? && EventSeverity(o, es[last]) == c {
      assert all == front + {last};
    } else {
      assert all == front;
    }
  }

  lemma GapModulo(k: nat, upTo: nat)
    requires upTo <= k
    ensures Gap(ToU32(k), ToU32(upTo)) + TWO32 * ((k - upTo) / TWO32) == k - upTo
    ensures ToU32(ToU32(k) + 1) == ToU32(k + 1)
  {
  }

  lemma ConservationStep(received: nat, lost: uint64, expected: uint32, number: uint32)
    requires (received + lost) % TWO32 == expected
    ensures (received + 1 + ToU64(lost + Gap(number, expected))) % TWO32 == ToU32(number + 1)
  {
    var gap := Gap(number, expected);
    var wrapped := (lost + gap) / TWO64;
    AddMultiple(received + 1 + ToU64(lost + gap), TWO32 * wrapped);
    AddMultiple(number + 1, (received + lost) / TWO32 - (number - expected) / TWO32);
  }

  /** Whatever the numbers received - reordered, duplicated or wrapped - the received and lost
      counters together are the expected number, modulo the width of the number. */
  lemma {:induction false} NumberConservation(o: Options, es: seq<Event>)
    requires o.enabled && RunDefined(o, es)
    ensures (Run(o, es).received + Run(o, es).lost) % TWO32 == Run(o, es).expected
  {
    if es == [] {
    } else {
      var front, last := es[..|es| - 1], es[|es| - 1];
      assert RunDefined(o, front);
      NumberConservation(o, front);
      if last.Message? {
        var s := Run(o, front);
        ConservationStep(s.received, s.lost, s.expected, last.header.number);
        hide ToU64, ToU32, Gap, Classify, Threshold;
        assert Run(o, es) == Scanned(s, last.header, last.now);
      }
    }
  }

  // ----- Numbers in sequence -----

  /** A tracker that has scanned the numbers 0 to n - 1 in order. */
  ghost predicate InSequence(t: State, n: nat) {
    && t.options == DEFAULT_OPTIONS
    && t.expected == ToU32(n)
    && t.lost == 0
    && t.received == |t.latencies| == n
  }

  ghost predicate Consecutive(hs: seq<Header>) {
    forall k :: 0 <= k < |hs| ==> hs[k].number == ToU32(k)
  }

  ghost predicate AllAt(hs: seq<Header>, frequency: real) {
    forall k :: 0 <= k < |hs| ==> hs[k].frequency == frequency
  }

  lemma NextInSequence(t: State, h: Header, now: int, n: nat)
    requires InSequence(t, n) && h.number == ToU32(n) && ScanDefined(t.options, h.frequency)
    ensures InSequence(Scanned(t, h, now), n + 1)
    ensures t.latencies != [] ==> Scanned(t, h, now).frequency == t.frequency
    ensures t.latencies == [] ==> Scanned(t, h, now).frequency == h.frequency
  {
    ScannedCounters(t, h, now);
    SuccessorModulo(n);
    NoGap(h.number, t.lost);
    hide ToU32, ToU64, Gap, Scanned, ScanDefined;
  }

  // ----- What the samples are -----

  /** The message joins the samples with the whole microseconds from its stamp to now. */
  ghost predicate SampledAt(before: State, after: State, h: Header, now: int) {
    && |after.latencies| == |before.latencies| + 1
    && after.latencies[..|before.latencies|] == before.latencies
    && after.window == before.window + [after.last]
    && after.last == after.latencies[|before.latencies|] && Measures(after.last, now, h.stamp)
  }

  lemma ScanSamples(t: State, h: Header, now: int)
    requires ScanDefined(t.options, h.frequency)
    ensures SampledAt(t, Scanned(t, h, now), h, now)
  {
    LatencyMeasures(now, h.stamp);
    hide Measures, LatencyUs, Classify, Gap, ToU32, ToU64;
  }

  lemma LastIsLatency(t: State, h: Header, now: int)
    requires ScanDefined(t.options, h.frequency)
    ensures Scanned(t, h, now).last == LatencyUs(now, h.stamp)
  {
  }

  function MessagesOf(es: seq<Event>): seq<Event> {
    if es == [] then []
    else
      var last := es[|es| - 1];
      MessagesOf(es[..|es| - 1]) + if last.Message? then [last] else []
  }

  /** The samples are the latencies of these messages, the size and the frequency are those of the first. */
  ghost predicate Sampled(s: State, ms: seq<Event>) {
    && |s.latencies| == |ms| == s.received && (forall i :: 0 <= i < |ms| ==> ms[i].Message?)
    && (forall i :: 0 <= i < |ms| ==> Measures(s.latencies[i], ms[i].now, ms[i].header.stamp))
    && (ms != [] ==>
         && s.last == s.latencies[|ms| - 1]
         && s.size == ms[0].header.size && s.frequency == ms[0].header.frequency)
  }

  lemma SampledNext(s: State, ms: seq<Event>, h: Header, now: int)
    requires Sampled(s, ms) && ScanDefined(s.options, h.frequency)
    ensures Sampled(Scanned(s, h, now), ms + [Message(h, now)])
  {
    LatencyMeasures(now, h.stamp);
    hide Measures, LatencyUs, Classify, ScanDefined, Gap, ToU32, ToU64;
  }

  /** Over every run, enabled or not, the history has one sample for each message: the whole microseconds from
      its stamp to the time of its scan. The last latency is the newest sample, and the size and the frequency
      are those of the first message. */
  lemma {:induction false} SamplesAreLatencies(o: Options, es: seq<Event>)
    requires RunDefined(o, es)
    ensures Sampled(Run(o, es), MessagesOf(es))
  {
    if es == [] {
    } else {
      var front, last := es[..|es| - 1], es[|es| - 1];
      assert RunDefined(o, front);
      SamplesAreLatencies(o, front);
      if last.Message? {
        SampledNext(Run(o, front), MessagesOf(front), last.header, last.now);
        hide Sampled, Scanned, ScanDefined;
        assert last == Message(last.header, last.now);
      } else {
        assert MessagesOf(es) == MessagesOf(front);
      }
    }
  }

  // ----- What the lost counter means -----

  /** The numbers scanned, in order. */
  function NumbersScanned(es: seq<Event>): seq<uint32> {
    if es == [] then []
    else
      var last := es[|es| - 1];
      NumbersScanned(es[..|es| - 1]) + if last.Message? then [last.header.number] else []
  }

  /** The number that continues a list of numbers. */
  function Following(ns: seq<uint32>): uint32 {
    if ns == [] then 0
    else
      var last: int := ns[|ns| - 1];
      ToU32(last + 1)
  }

  /** The distances, forwards around the number field, from what was expected to what came. */
  function GapSum(ns: seq<uint32>): nat {
    if ns == [] then 0
    else GapSum(ns[..|ns| - 1]) + Gap(ns[|ns| - 1], Following(ns[..|ns| - 1]))
  }

  ghost predicate InOrder(ns: seq<uint32>) {
    forall k :: 0 <= k < |ns| ==> ns[k] == ToU32(k)
  }

  /** The counters of an enabled tracker that has scanned these numbers. */
  ghost predicate Accounted(s: State, ns: seq<uint32>) {
    && s.options.enabled
    && s.received == |ns|
    && s.expected == Following(ns)
    && s.lost == ToU64(GapSum(ns))
  }

  lemma AccountedNext(s: State, ns: seq<uint32>, h: Header, now: int)
    requires Accounted(s, ns) && ScanDefined(s.options, h.frequency)
    ensures Accounted(Scanned(s, h, now), ns + [h.number])
  {
    var more := ns + [h.number];
    assert more[..|more| - 1] == ns;
    ScannedCounters(s, h, now);
    Wrapped64(GapSum(ns), Gap(h.number, s.expected));
    hide Scanned, ScanDefined, ToU32, ToU64, Gap;
  }

  /** Over every run the lost counter is the sum of the gaps between consecutive numbers, modulo 2^64. */
  lemma {:induction false} LostIsGapSum(o: Options, es: seq<Event>)
    requires o.enabled && RunDefined(o, es)
    ensures Accounted(Run(o, es), NumbersScanned(es))
  {
    if es == [] {
    } else {
      var front, last := es[..|es| - 1], es[|es| - 1];
      assert RunDefined(o, front);
      LostIsGapSum(o, front);
      hide Accounted, Scanned;
      if last.Message? {
        AccountedNext(Run(o, front), NumbersScanned(front), last.header, last.now);
      } else {
        WindowAccounted(Run(o, front), NumbersScanned(front));
        assert NumbersScanned(es) == NumbersScanned(front);
      }
    }
  }

  lemma WindowAccounted(s: State, ns: seq<uint32>)
    requires Accounted(s, ns)
    ensures Accounted(WindowRead(s), ns)
  {
  }

  lemma InOrderNext(ns: seq<uint32>)
    requires ns != []
    ensures InOrder(ns) <==> InOrder(ns[..|ns| - 1]) && ns[|ns| - 1] == ToU32(|ns| - 1)
    ensures InOrder(ns) ==> Following(ns) == ToU32(|ns|)
  {
    var last := |ns| - 1;
    SuccessorModulo(last);
    hide ToU32;
    assert forall k :: 0 <= k < last ==> ns[..last][k] == ns[k];
    if InOrder(ns[..last]) && ns[last] == ToU32(last) {
      assert forall k :: 0 <= k < |ns| ==> ns[k] == ToU32(k) by {
        assert forall k :: 0 <= k < last ==> ns[..last][k] == ToU32(k);
      }
    }
  }

  lemma SuccessorModulo(n: int)
    ensures ToU32(ToU32(n) + 1) == ToU32(n + 1)
  {
  }

  lemma {:induction false} GapSumZero(ns: seq<uint32>)
    ensures 0 <= GapSum(ns) <= (TWO32 - 1) * |ns|
    ensures GapSum(ns) == 0 <==> InOrder(ns)
    ensures InOrder(ns) ==> Following(ns) == ToU32(|ns|)
  {
    if ns == [] {
    } else {
      var last := |ns| - 1;
      GapSumZero(ns[..last]);
      GapBack(ns[last], Following(ns[..last]));
      InOrderNext(ns);
      hide Gap, ToU32, Following, InOrder;
    }
  }

  /** A run of up to 2^32 messages ends without a counted loss if and only if the k-th number scanned is
      k modulo 2^32 for every k: any lost, repeated or overtaken message leaves a trace. */
  lemma NoLossExactly(o: Options, es: seq<Event>)
    requires o.enabled && RunDefined(o, es) && |NumbersScanned(es)| <= TWO32
    ensures Run(o, es).lost == 0 <==> InOrder(NumbersScanned(es))
  {
    hide Run, RunDefined, NumbersScanned, GapSum, InOrder;
    LostIsGapSum(o, es);
    NoLossFor(Run(o, es), NumbersScanned(es));
  }

  lemma NoLossFor(s: State, ns: seq<uint32>)
    requires Accounted(s, ns) && |ns| <= TWO32
    ensures s.lost == 0 <==> InOrder(ns)
  {
    hide GapSum, InOrder;
    GapSumZero(ns);
    assert (TWO32 - 1) * |ns| <= (TWO32 - 1) * TWO32 < TWO64;
  }

  /** One scan leaves the lost counter alone exactly when the number is the expected one. Any other number
      lies some distance behind it - reordered, repeated, or of another sender - and is taken for the rest
      of a turn of the number field. */
  lemma StepBack(s: State, h: Header, now: int)
    requires s.options.enabled && ScanDefined(s.options, h.frequency)
    ensures Scanned(s, h, now).lost == s.lost <==> h.number == s.expected
    ensures h.number != s.expected ==>
              Scanned(s, h, now).lost == ToU64(s.lost + TWO32 - ToU32(s.expected - h.number))
  {
    GapBack(h.number, s.expected);
    hide Scanned, ScanDefined, ToU32, Gap;
    ScannedCounters(s, h, now);
  }

  lemma GapBack(number: uint32, expected: uint32)
    ensures 0 <= Gap(number, expected) < TWO32
    ensures Gap(number, expected) == 0 <==> number == expected
    ensures number != expected ==> Gap(number, expected) == TWO32 - ToU32(expected - number)
  {
  }

  /** Every scanned message is counted once, stored once, and counted in exactly one class. */
  lemma {:induction false} EveryMessageClassified(o: Options, es: seq<Event>)
    requires o.enabled && RunDefined(o, es)
    ensures var s := Run(o, es);
            && s.late == |Classified(o, es, Late)|
            && s.tooLate == |Classified(o, es, TooLate)|
            && s.received == |s.latencies|
            && s.received == |Classified(o, es, OnTime)| + s.late + s.tooLate
  {
    if es == [] {
      assert Classified(o, es, Late) == Classified(o, es, TooLate) == Classified(o, es, OnTime) == {};
    } else {
      ClassifiedFront(o, es, OnTime);
      ClassifiedFront(o, es, Late);
      ClassifiedFront(o, es, TooLate);
      EveryMessageClassified(o, es[..|es| - 1]);
    }
  }

  /** A tracker with tracking disabled never counts a loss or a late message, but still samples. */
  lemma {:induction false} DisabledOnlySamples(o: Options, es: seq<Event>)
    requires !o.enabled
    ensures var s := Run(o, es);
            s.expected == 0 && s.lost == 0 && s.late == 0 && s.tooLate == 0 && s.received == |s.latencies|
  {
    if es == [] {
    } else {
      DisabledOnlySamples(o, es[..|es| - 1]);
    }
  }
}
