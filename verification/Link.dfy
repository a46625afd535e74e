/** Publisher, first-in first-out channel that may drop, and subscriber: whole runs of one topic. */
module Link {
  import opened Numbers
  import opened Tracking

  /** A message on its way; `index` is its true position in the publisher's stream, which no code sees. */
  datatype Packet = Packet(index: nat, header: Header)

  datatype Fate = Waiting | Received | Dropped

  /** History variables: `fates` tells what became of each message sent, and `upTo` is the true index after
      the last delivered message. */
  datatype LinkState = LinkState(
    publisher: Tracking.State,
    channel: seq<Packet>,
    subscriber: Tracking.State,
    fates: seq<Fate>,
    upTo: nat)

  datatype Event =
    | Publish(now: int, duration: uint64, size: nat)
    | Drop(position: nat)
    | Deliver(now: int)

  function Initial(o: Options): LinkState {
    LinkState(Fresh(DEFAULT_OPTIONS), [], Fresh(o), [], 0)
  }

  /** Taking the next number, sending the message and sampling the time that publishing took. */
  function Published(s: LinkState, frequency: real, now: int, duration: uint64, size: nat): LinkState {
    var number := s.publisher.expected;
    s.(publisher := WithSample(s.publisher.(expected := ToU32(number + 1)), duration, size, frequency),
       channel := s.channel + [Packet(|s.fates|, Header(now, number, frequency, size))],
       fates := s.fates + [Waiting])
  }

  /** Packets carry the publisher's frequency and point into the stream. */
  ghost predicate Sound(s: LinkState, frequency: real) {
    forall i :: 0 <= i < |s.channel| ==>
      s.channel[i].header.frequency == frequency && s.channel[i].index < |s.fates|
  }

  function Lost(s: LinkState, position: nat): LinkState
    requires position < |s.channel| && s.channel[position].index < |s.fates|
  {
    s.(channel := s.channel[..position] + s.channel[position + 1..],
       fates := s.fates[s.channel[position].index := Dropped])
  }

  function Delivered(s: LinkState, now: int): LinkState
    requires s.channel != [] && s.channel[0].index < |s.fates|
    requires ScanDefined(s.subscriber.options, s.channel[0].header.frequency)
  {
    var packet := s.channel[0];
    s.(channel := s.channel[1..],
       subscriber := Scanned(s.subscriber, packet.header, now),
       fates := s.fates[packet.index := Received],
       upTo := packet.index + 1)
  }

  function Step(s: LinkState, frequency: real, e: Event): LinkState
    requires Sound(s, frequency) && ScanDefined(s.subscriber.options, frequency)
  {
    match e
    case Publish(now, duration, size) => Published(s, frequency, now, duration, size)
    case Drop(position) => if position < |s.channel| then Lost(s, position) else s
    case Deliver(now) => if s.channel != [] then Delivered(s, now) else s
  }

  function Run(o: Options, frequency: real, es: seq<Event>): (s: LinkState)
    requires ScanDefined(o, frequency)
    ensures Sound(s, frequency) && s.subscriber.options == o
  {
    if es == [] then Initial(o) else Step(Run(o, frequency, es[..|es| - 1]), frequency, es[|es| - 1])
  }

  // ----- Counting fates -----

  function Count(fates: seq<Fate>, f: Fate): nat {
    if fates == [] then 0
    else Count(fates[..|fates| - 1], f) + if fates[|fates| - 1] == f then 1 else 0
  }

  lemma {:induction false} CountAll(fates: seq<Fate>)
    ensures Count(fates, Waiting) + Count(fates, Received) + Count(fates, Dropped) == |fates|
  {
    if fates == [] {
    } else {
      CountAll(fates[..|fates| - 1]);
    }
  }

  lemma {:induction false} CountUpdate(fates: seq<Fate>, i: nat, g: Fate, f: Fate)
    requires i < |fates|
    ensures Count(fates[i := g], f) + (if fates[i] == f then 1 else 0)
         == Count(fates, f) + (if g == f then 1 else 0)
  {
    var last := |fates| - 1;
    if i == last {
      assert fates[i := g][..last] == fates[..last];
    } else {
      assert fates[i := g][..last] == fates[..last][i := g];
      CountUpdate(fates[..last], i, g, f);
    }
  }

  lemma {:induction false} CountRun(fates: seq<Fate>, lo: nat, hi: nat, f: Fate)
    requires lo <= hi <= |fates|
    requires forall i :: lo <= i < hi ==> fates[i] == f
    ensures Count(fates[..hi], f) == Count(fates[..lo], f) + (hi - lo)
  {
    if lo == hi {
    } else {
      CountRun(fates, lo, hi - 1, f);
      assert fates[..hi][..hi - 1] == fates[..hi - 1];
    }
  }

  // ----- The invariant -----

  ghost predicate Holds(channel: seq<Packet>, index: nat) {
    exists j :: 0 <= j < |channel| && channel[j].index == index
  }

  /** Numbers are true indices modulo 2^32, and packets leave in the order they were sent. */
  ghost predicate Numbered(s: LinkState) {
    && s.publisher.expected == ToU32(|s.fates|)
    && s.subscriber.expected == ToU32(s.upTo)
    && s.upTo <= |s.fates|
    && (forall i, j :: 0 <= i < j < |s.channel| ==> s.channel[i].index < s.channel[j].index)
    && (forall i :: 0 <= i < |s.channel| ==>
         s.upTo <= s.channel[i].index < |s.fates| && s.channel[i].header.number == ToU32(s.channel[i].index))
  }

  ghost predicate Traced(s: LinkState) {
    && (forall i :: 0 <= i < |s.channel| ==>
         s.channel[i].index < |s.fates| && s.fates[s.channel[i].index] == Waiting)
    && (forall i :: 0 <= i < |s.fates| && s.fates[i] == Waiting ==> Holds(s.channel, i))
    && (forall i :: s.upTo <= i < |s.fates| ==> s.fates[i] != Received)
  }

  /** The number of messages dropped in a row at the end. */
  function Trailing(fates: seq<Fate>): nat {
    if fates == [] || fates[|fates| - 1] != Dropped then 0 else Trailing(fates[..|fates| - 1]) + 1
  }

  /** How often a row of drops has gone once around the number field. */
  function Turns(fates: seq<Fate>): nat {
    if fates == [] then 0
    else
      var d := Trailing(fates);
      Turns(fates[..|fates| - 1]) + if d > 0 && d % TWO32 == 0 then 1 else 0
  }

  /** The 64-bit lost counter, apart from the whole turns of the number field that it cannot see. */
  ghost predicate Congruent(lost: uint64, turns: nat, drops: nat) {
    (lost + TWO32 * turns) % TWO64 == drops % TWO64
  }

  ghost predicate Tallied(s: LinkState) {
    |s.channel| == Count(s.fates, Waiting) && s.subscriber.received == Count(s.fates, Received)
  }

  ghost predicate SettledAt(fates: seq<Fate>, upTo: nat, received: nat, lost: uint64) {
    && upTo <= |fates|
    && received + Count(fates[..upTo], Dropped) == upTo
    && Trailing(fates[..upTo]) == 0
    && Congruent(lost, Turns(fates[..upTo]), Count(fates[..upTo], Dropped))
  }

  ghost predicate Settled(s: LinkState) {
    SettledAt(s.fates, s.upTo, s.subscriber.received, s.subscriber.lost)
  }

  ghost predicate Counted(s: LinkState) {
    Tallied(s) && Settled(s)
  }

  ghost predicate Invariant(s: LinkState) {
    Numbered(s) && Traced(s) && Counted(s)
  }

  // ----- Publishing and dropping -----

  lemma PublishKeepsTrace(s: LinkState, frequency: real, now: int, duration: uint64, size: nat)
    requires Invariant(s)
    ensures var t := Published(s, frequency, now, duration, size); Numbered(t) && Traced(t)
  {
    var t := Published(s, frequency, now, duration, size);
    hide Counted;
    forall i | 0 <= i < |t.fates| && t.fates[i] == Waiting ensures Holds(t.channel, i) {
      if i < |s.fates| {
        var j :| 0 <= j < |s.channel| && s.channel[j].index == i;
        assert t.channel[j].index == i;
      } else {
        assert t.channel[|s.channel|].index == i;
      }
    }
  }

  lemma PublishKeepsCount(s: LinkState, frequency: real, now: int, duration: uint64, size: nat)
    requires Invariant(s)
    ensures Counted(Published(s, frequency, now, duration, size))
  {
    var t := Published(s, frequency, now, duration, size);
    hide Trailing, Turns, Congruent, Traced, ToU32;
    assert t.fates[..|t.fates| - 1] == s.fates;
    assert t.fates[..t.upTo] == s.fates[..s.upTo];
  }

  lemma RemovalHolds(channel: seq<Packet>, position: nat, index: nat)
    requires position < |channel| && Holds(channel, index) && channel[position].index != index
    ensures Holds(channel[..position] + channel[position + 1..], index)
  {
    var rest := channel[..position] + channel[position + 1..];
    var j :| 0 <= j < |channel| && channel[j].index == index;
    assert rest[if j < position then j else j - 1] == channel[j];
  }

  lemma DropKeepsTrace(s: LinkState, position: nat)
    requires Invariant(s) && position < |s.channel|
    ensures var t := Lost(s, position); Numbered(t) && Traced(t)
  {
    var t := Lost(s, position);
    var k := s.channel[position].index;
    hide Counted, ToU32;
    assert forall i :: 0 <= i < |t.channel| ==> t.channel[i] == s.channel[if i < position then i else i + 1];
    forall i | 0 <= i < |t.fates| && t.fates[i] == Waiting ensures Holds(t.channel, i) {
      RemovalHolds(s.channel, position, i);
    }
  }

  lemma DropKeepsCount(s: LinkState, position: nat)
    requires Invariant(s) && position < |s.channel|
    ensures Counted(Lost(s, position))
  {
    var t := Lost(s, position);
    var k := s.channel[position].index;
    CountUpdate(s.fates, k, Dropped, Waiting);
    CountUpdate(s.fates, k, Dropped, Received);
    assert t.fates[..t.upTo] == s.fates[..s.upTo];
  }

  // ----- Delivering -----

  /** Everything that a delivery skips was dropped. */
  lemma SkippedWereDropped(s: LinkState)
    requires Invariant(s) && s.channel != []
    ensures forall i :: s.upTo <= i < s.channel[0].index ==> s.fates[i] == Dropped
  {
  }

  lemma LostModulo(lost: uint64, gap: nat, turns: nat, more: nat, drops: nat)
    requires Congruent(lost, turns, drops)
    ensures Congruent(ToU64(lost + gap), turns + more, drops + gap + TWO32 * more)
  {
    var x := gap + TWO32 * more;
    assert ToU64(lost + gap) == lost + gap - TWO64 * ((lost + gap) / TWO64);
    Add64(lost + TWO32 * turns + x, -((lost + gap) / TWO64));
    assert lost + TWO32 * turns - drops == TWO64 * ((lost + TWO32 * turns) / TWO64 - drops / TWO64);
    Add64(drops + x, (lost + TWO32 * turns) / TWO64 - drops / TWO64);
  }

  lemma GapCongruent(lost: uint64, turns: nat, drops: nat, k: nat, upTo: nat)
    requires Congruent(lost, turns, drops) && upTo <= k
    ensures Congruent(ToU64(lost + Gap(ToU32(k), ToU32(upTo))), turns + (k - upTo) / TWO32, drops + (k - upTo))
  {
    GapModulo(k, upTo);
    LostModulo(lost, Gap(ToU32(k), ToU32(upTo)), turns, (k - upTo) / TWO32, drops);
    hide Congruent, Gap, ToU32, ToU64;
  }

  ghost predicate CanDeliver(s: LinkState) {
    && Invariant(s) && s.channel != [] && s.subscriber.options.enabled
    && ScanDefined(s.subscriber.options, s.channel[0].header.frequency)
  }

  lemma DeliverKeepsNumbers(s: LinkState, now: int)
    requires CanDeliver(s)
    ensures Numbered(Delivered(s, now))
  {
    var packet := s.channel[0];
    assert packet.header.number == ToU32(packet.index);
    hide Traced, Counted, ToU32, Scanned, ScanDefined;
    GapModulo(packet.index, s.upTo);
    ScannedCounters(s.subscriber, packet.header, now);
    var t := Delivered(s, now);
    assert forall i :: 0 <= i < |t.channel| ==> t.channel[i] == s.channel[i + 1];
  }

  lemma DeliverKeepsTrace(s: LinkState, now: int)
    requires CanDeliver(s)
    ensures Traced(Delivered(s, now))
  {
  }

  lemma DeliverTallies(fates: seq<Fate>, upTo: nat, k: nat)
    requires upTo <= k < |fates| && fates[k] == Waiting
    requires forall i :: upTo <= i < k ==> fates[i] == Dropped
    ensures var after := fates[k := Received];
            && Count(after, Waiting) == Count(fates, Waiting) - 1
            && Count(after, Received) == Count(fates, Received) + 1
            && Count(after[..k + 1], Dropped) == Count(fates[..upTo], Dropped) + (k - upTo)
  {
    var after := fates[k := Received];
    CountRun(fates, upTo, k, Dropped);
    CountUpdate(fates, k, Received, Waiting);
    CountUpdate(fates, k, Received, Received);
    assert after[..k + 1][..k] == fates[..k];
  }

  lemma DeliverKeepsTally(s: LinkState, now: int)
    requires CanDeliver(s)
    ensures Tallied(Delivered(s, now))
  {
    hide Settled;
    ScannedCounters(s.subscriber, s.channel[0].header, now);
    SkippedWereDropped(s);
    DeliverTallies(s.fates, s.upTo, s.channel[0].index);
    hide Scanned, Count;
  }

  /** A row of drops after a message that was not dropped. */
  lemma {:induction false} TurnsOfRow(fates: seq<Fate>, lo: nat, hi: nat)
    requires lo <= hi <= |fates| && Trailing(fates[..lo]) == 0
    requires forall i :: lo <= i < hi ==> fates[i] == Dropped
    ensures Trailing(fates[..hi]) == hi - lo
    ensures Turns(fates[..hi]) == Turns(fates[..lo]) + (hi - lo) / TWO32
  {
    if lo == hi {
    } else {
      TurnsOfRow(fates, lo, hi - 1);
      assert fates[..hi][..hi - 1] == fates[..hi - 1];
      NextTurn(hi - lo - 1);
    }
  }

  lemma NextTurn(d: nat)
    ensures (d + 1) / TWO32 == d / TWO32 + if (d + 1) % TWO32 == 0 then 1 else 0
  {
  }

  lemma SettledNext(fates: seq<Fate>, upTo: nat, received: nat, lost: uint64, k: nat)
    requires SettledAt(fates, upTo, received, lost)
    requires upTo <= k < |fates| && fates[k] == Waiting
    requires forall i :: upTo <= i < k ==> fates[i] == Dropped
    ensures SettledAt(fates[k := Received], k + 1, received + 1, ToU64(lost + Gap(ToU32(k), ToU32(upTo))))
  {
    hide Congruent, ToU64, ToU32, Gap, Count;
    var after := fates[k := Received];
    DeliverTallies(fates, upTo, k);
    TurnsOfRow(fates, upTo, k);
    GapCongruent(lost, Turns(fates[..upTo]), Count(fates[..upTo], Dropped), k, upTo);
    assert after[..k + 1][..k] == fates[..k];
  }

  lemma DeliverSettles(s: LinkState, now: int)
    requires CanDeliver(s)
    ensures Settled(Delivered(s, now))
  {
    hide SettledAt, Tallied, ToU32, ToU64, Gap, Scanned, ScanDefined;
    var packet := s.channel[0];
    SkippedWereDropped(s);
    ScannedCounters(s.subscriber, packet.header, now);
    SettledNext(s.fates, s.upTo, s.subscriber.received, s.subscriber.lost, packet.index);
  }

  // ----- Whole runs -----

  lemma {:induction false} RunInvariant(o: Options, frequency: real, es: seq<Event>)
    requires o.enabled && ScanDefined(o, frequency)
    ensures Invariant(Run(o, frequency, es))
  {
    if es == [] {
    } else {
      var front, last := es[..|es| - 1], es[|es| - 1];
      RunInvariant(o, frequency, front);
      var s := Run(o, frequency, front);
      hide Numbered, Traced, Counted, Published, Lost, Delivered;
      match last
      case Publish(now, duration, size) =>
        PublishKeepsTrace(s, frequency, now, duration, size);
        PublishKeepsCount(s, frequency, now, duration, size);
      case Drop(position) =>
        if position < |s.channel| {
          DropKeepsTrace(s, position);
          DropKeepsCount(s, position);
        }
      case Deliver(now) =>
        if s.channel != [] {
          DeliverKeepsNumbers(s, now);
          DeliverKeepsTrace(s, now);
          DeliverKeepsTally(s, now);
          DeliverSettles(s, now);
        }
    }
  }

  /** No message is unaccounted for: each one sent has been received, is waiting, or was dropped. */
  lemma MessageConservation(o: Options, frequency: real, es: seq<Event>)
    requires o.enabled && ScanDefined(o, frequency)
    ensures var s := Run(o, frequency, es);
            |s.fates| == s.subscriber.received + |s.channel| + Count(s.fates, Dropped)
  {
    RunInvariant(o, frequency, es);
    CountAll(Run(o, frequency, es).fates);
  }

  lemma {:induction false} TurnsBelow(fates: seq<Fate>)
    ensures TWO32 * Turns(fates) + Trailing(fates) % TWO32 <= Count(fates, Dropped)
  {
    if fates == [] {
    } else {
      TurnsBelow(fates[..|fates| - 1]);
      NextTurn(Trailing(fates[..|fates| - 1]));
    }
  }

  /** A stretch of 2^32 consecutive messages ends here, all of them dropped. */
  ghost predicate SilentBefore(fates: seq<Fate>, end: nat) {
    TWO32 <= end <= |fates| && forall i :: end - TWO32 <= i < end ==> fates[i] == Dropped
  }

  ghost predicate LongSilence(fates: seq<Fate>) {
    exists end: nat :: SilentBefore(fates, end)
  }

  lemma {:induction false} TrailingIs(fates: seq<Fate>, d: nat)
    ensures d <= Trailing(fates) <==> d <= |fates| && forall i :: |fates| - d <= i < |fates| ==> fates[i] == Dropped
  {
    if fates == [] || d == 0 {
    } else {
      var last := |fates| - 1;
      TrailingIs(fates[..last], d - 1);
      assert forall i :: 0 <= i < last ==> fates[..last][i] == fates[i];
    }
  }

  lemma LongSilenceNext(fates: seq<Fate>)
    requires fates != []
    ensures LongSilence(fates) <==> LongSilence(fates[..|fates| - 1]) || TWO32 <= Trailing(fates)
  {
    var last := |fates| - 1;
    var front := fates[..last];
    TrailingIs(fates, TWO32);
    hide Trailing;
    if LongSilence(front) {
      var end: nat :| SilentBefore(front, end);
      assert SilentBefore(fates, end);
    }
    if TWO32 <= Trailing(fates) {
      assert SilentBefore(fates, |fates|);
    } else if LongSilence(fates) {
      var end: nat :| SilentBefore(fates, end);
      assert end != |fates|;
      assert SilentBefore(front, end);
    }
  }

  /** The counter misses whole turns exactly when 2^32 messages in a row were dropped. */
  lemma {:induction false} NoTurnsExactly(fates: seq<Fate>)
    ensures Turns(fates) == 0 <==> !LongSilence(fates)
    ensures !LongSilence(fates) ==> Trailing(fates) < TWO32
  {
    if fates == [] {
    } else {
      var front := fates[..|fates| - 1];
      NoTurnsExactly(front);
      LongSilenceNext(fates);
      hide LongSilence;
      assert Trailing(fates) <= Trailing(front) + 1;
    }
  }

  lemma ExactWithoutTurns(lost: uint64, turns: nat, drops: nat)
    requires Congruent(lost, turns, drops) && TWO32 * turns <= drops < TWO64
    ensures lost == drops <==> turns == 0
  {
  }

  /** The number field may wrap any number of times: over every run the lost counter is exactly the
      number of dropped messages that precede the last one received - equivalently, received plus lost
      is the true index of that message plus one - if and only if no 2^32 consecutive messages before
      it were dropped. */
  lemma LostCountsDrops(o: Options, frequency: real, es: seq<Event>)
    requires o.enabled && ScanDefined(o, frequency)
    requires |Run(o, frequency, es).fates| < TWO64
    ensures var s := Run(o, frequency, es);
            && s.upTo <= |s.fates|
            && (s.subscriber.lost == Count(s.fates[..s.upTo], Dropped) <==> !LongSilence(s.fates[..s.upTo]))
            && (s.subscriber.received + s.subscriber.lost == s.upTo <==> !LongSilence(s.fates[..s.upTo]))
  {
    hide Numbered, Traced, Run, Congruent, Trailing, Turns, LongSilence;
    RunInvariant(o, frequency, es);
    var s := Run(o, frequency, es);
    var settled := s.fates[..s.upTo];
    TurnsBelow(settled);
    NoTurnsExactly(settled);
    ExactWithoutTurns(s.subscriber.lost, Turns(settled), Count(settled, Dropped));
  }

  // ----- What the samples measure -----

  /** The times at which the messages were published. */
  function PublishTimes(es: seq<Event>): seq<int> {
    if es == [] then []
    else
      var last := es[|es| - 1];
      PublishTimes(es[..|es| - 1]) + if last.Publish? then [last.now] else []
  }

  function PublishDurations(es: seq<Event>): seq<uint64> {
    if es == [] then []
    else
      var last := es[|es| - 1];
      PublishDurations(es[..|es| - 1]) + if last.Publish? then [last.duration] else []
  }

  function PublishSizes(es: seq<Event>): seq<nat> {
    if es == [] then []
    else
      var last := es[|es| - 1];
      PublishSizes(es[..|es| - 1]) + if last.Publish? then [last.size] else []
  }

  /** The messages delivered, with their true index, and the times of their delivery. */
  function Arrivals(o: Options, frequency: real, es: seq<Event>): seq<(nat, int)>
    requires ScanDefined(o, frequency)
  {
    if es == [] then []
    else
      var front, last := es[..|es| - 1], es[|es| - 1];
      var s := Run(o, frequency, front);
      Arrivals(o, frequency, front)
      + if last.Deliver? && s.channel != [] then [(s.channel[0].index, last.now)] else []
  }

  /** The sizes of the messages delivered. */
  function ArrivalSizes(o: Options, frequency: real, es: seq<Event>): seq<nat>
    requires ScanDefined(o, frequency)
  {
    if es == [] then []
    else
      var front, last := es[..|es| - 1], es[|es| - 1];
      var s := Run(o, frequency, front);
      ArrivalSizes(o, frequency, front)
      + if last.Deliver? && s.channel != [] && s.channel[0].index < |PublishSizes(front)| then
          [PublishSizes(front)[s.channel[0].index]]
        else []
  }

  /** A tracker keeps the size and the frequency of its first message. */
  ghost predicate FirstKept(t: State, sizes: seq<nat>, frequency: real) {
    && |t.latencies| == |sizes|
    && (sizes != [] ==> t.size == sizes[0] && t.frequency == frequency)
  }

  lemma KeepsFirst(before: State, after: State, sizes: seq<nat>, frequency: real, h: Header, now: int)
    requires FirstKept(before, sizes, frequency) && h.frequency == frequency
    requires ScanDefined(before.options, h.frequency) && after == Scanned(before, h, now)
    ensures FirstKept(after, sizes + [h.size], frequency)
  {
    hide Classify, LatencyUs, Gap, ToU32, ToU64, ScanDefined;
  }

  /** Packets carry the time and the size of their publication. */
  ghost predicate Stamped(s: LinkState, times: seq<int>, sizes: seq<nat>) {
    && |times| == |sizes| == |s.fates|
    && forall i :: 0 <= i < |s.channel| ==>
         && s.channel[i].index < |times|
         && s.channel[i].header.stamp == times[s.channel[i].index]
         && s.channel[i].header.size == sizes[s.channel[i].index]
  }

  lemma PublishStamped(s: LinkState, times: seq<int>, sizes: seq<nat>, f: real, now: int, duration: uint64, size: nat)
    requires Stamped(s, times, sizes)
    ensures Stamped(Published(s, f, now, duration, size), times + [now], sizes + [size])
  {
  }

  lemma {:induction false} RunStamped(o: Options, frequency: real, es: seq<Event>)
    requires ScanDefined(o, frequency)
    ensures Stamped(Run(o, frequency, es), PublishTimes(es), PublishSizes(es))
  {
    if es == [] {
    } else {
      hide Scanned, ScanDefined, Published;
      var front, last := es[..|es| - 1], es[|es| - 1];
      RunStamped(o, frequency, front);
      var s := Run(o, frequency, front);
      if last.Publish? {
        PublishStamped(s, PublishTimes(front), PublishSizes(front), frequency, last.now, last.duration, last.size);
      }
    }
  }

  /** A sample of the subscriber is the time of a delivery less the time at which that message was published. */
  ghost predicate Travelled(samples: seq<uint64>, arrivals: seq<(nat, int)>, times: seq<int>) {
    && |samples| == |arrivals|
    && forall i :: 0 <= i < |samples| ==>
         arrivals[i].0 < |times| && Measures(samples[i], arrivals[i].1, times[arrivals[i].0])
  }

  lemma TravelledNext(samples: seq<uint64>, arrivals: seq<(nat, int)>, times: seq<int>, after: seq<uint64>,
      index: nat, now: int)
    requires Travelled(samples, arrivals, times) && index < |times|
    requires |after| == |samples| + 1 && after[..|samples|] == samples
    requires Measures(after[|samples|], now, times[index])
    ensures Travelled(after, arrivals + [(index, now)], times)
  {
    hide Measures;
    assert forall i :: 0 <= i < |samples| ==> after[..|samples|][i] == after[i];
  }

  /** Over every run the subscriber has one sample for each delivery, the whole microseconds from the publication
      of the message to its delivery, and the publisher has one for each publication, the time that it took. */
  lemma {:induction false} SamplesAreTravelTimes(o: Options, frequency: real, es: seq<Event>)
    requires ScanDefined(o, frequency)
    ensures var s := Run(o, frequency, es);
            && Travelled(s.subscriber.latencies, Arrivals(o, frequency, es), PublishTimes(es))
            && s.publisher.latencies == PublishDurations(es)
  {
    if es == [] {
    } else {
      hide Scanned, ScanDefined, Measures;
      var front, last := es[..|es| - 1], es[|es| - 1];
      SamplesAreTravelTimes(o, frequency, front);
      var s := Run(o, frequency, front);
      RunStamped(o, frequency, front);
      if last.Deliver? && s.channel != [] {
        ScanSamples(s.subscriber, s.channel[0].header, last.now);
        TravelledNext(s.subscriber.latencies, Arrivals(o, frequency, front), PublishTimes(front),
                      Run(o, frequency, es).subscriber.latencies, s.channel[0].index, last.now);
      }
    }
  }

  /** Publisher and subscriber keep the size and the frequency of the first message that they have sampled. */
  lemma {:induction false} FirstMessageKept(o: Options, frequency: real, es: seq<Event>)
    requires ScanDefined(o, frequency)
    ensures var s := Run(o, frequency, es);
            && FirstKept(s.publisher, PublishSizes(es), frequency)
            && FirstKept(s.subscriber, ArrivalSizes(o, frequency, es), frequency)
  {
    if es == [] {
    } else {
      hide Scanned, ScanDefined;
      var front, last := es[..|es| - 1], es[|es| - 1];
      FirstMessageKept(o, frequency, front);
      var s := Run(o, frequency, front);
      RunStamped(o, frequency, front);
      if last.Deliver? && s.channel != [] {
        KeepsFirst(s.subscriber, Run(o, frequency, es).subscriber, ArrivalSizes(o, frequency, front), frequency,
                   s.channel[0].header, last.now);
      }
    }
  }

  // ----- A silence that goes unnoticed -----

  function Publishes(n: nat): (es: seq<Event>)
    ensures |es| == n
  {
    if n == 0 then [] else Publishes(n - 1) + [Publish(0, 0, 0)]
  }

  function Drops(k: nat): (es: seq<Event>)
    ensures |es| == k
  {
    if k == 0 then [] else Drops(k - 1) + [Drop(0)]
  }

  /** Nothing delivered yet, and exactly the messages from index k on are waiting. */
  ghost predicate WaitingFrom(s: LinkState, o: Options, n: nat, k: nat) {
    && k <= n && |s.fates| == n && |s.channel| == n - k
    && (forall i :: 0 <= i < n - k ==> s.channel[i].index == i + k)
    && (forall i :: 0 <= i < k ==> s.fates[i] == Dropped)
    && s.upTo == 0
    && s.subscriber == Fresh(o)
  }

  lemma {:induction false} AfterPublishes(o: Options, frequency: real, n: nat)
    requires ScanDefined(o, frequency)
    ensures WaitingFrom(Run(o, frequency, Publishes(n)), o, n, 0)
  {
    if n == 0 {
    } else {
      AfterPublishes(o, frequency, n - 1);
      assert Publishes(n)[..n - 1] == Publishes(n - 1);
    }
  }

  lemma DropNext(o: Options, frequency: real, es: seq<Event>, n: nat, k: nat)
    requires ScanDefined(o, frequency) && WaitingFrom(Run(o, frequency, es), o, n, k) && k < n
    ensures WaitingFrom(Run(o, frequency, es + [Drop(0)]), o, n, k + 1)
  {
    hide Run, Scanned, ScanDefined;
    var s := Run(o, frequency, es);
    RunDrop(o, frequency, es);
    assert s.channel[..0] + s.channel[1..] == s.channel[1..];
  }

  lemma RunDrop(o: Options, frequency: real, es: seq<Event>)
    requires ScanDefined(o, frequency) && Run(o, frequency, es).channel != []
    ensures var s := Run(o, frequency, es);
            s.channel[0].index < |s.fates| && Run(o, frequency, es + [Drop(0)]) == Lost(s, 0)
  {
    hide Scanned, ScanDefined, Lost;
    assert (es + [Drop(0)])[..|es + [Drop(0)]| - 1] == es;
  }

  lemma {:induction false} AfterDrops(o: Options, frequency: real, n: nat, k: nat)
    requires ScanDefined(o, frequency) && k <= n
    ensures WaitingFrom(Run(o, frequency, Publishes(n) + Drops(k)), o, n, k)
  {
    hide Run, WaitingFrom, Publishes, Lost;
    if k == 0 {
      AfterPublishes(o, frequency, n);
      assert Publishes(n) + Drops(0) == Publishes(n);
    } else {
      AfterDrops(o, frequency, n, k - 1);
      var es := Publishes(n) + Drops(k - 1);
      assert Publishes(n) + Drops(k) == es + [Drop(0)];
      DropNext(o, frequency, es, n, k - 1);
    }
  }

  /** Dropping 2^32 messages in a row and delivering the next one leaves the lost counter at zero. */
  lemma LongSilenceUnnoticed(o: Options, frequency: real)
    requires o.enabled && ScanDefined(o, frequency)
    ensures var s := Run(o, frequency, Publishes(TWO32 + 1) + Drops(TWO32) + [Deliver(0)]);
            && s.subscriber.received == 1 && s.subscriber.lost == 0 && s.upTo == TWO32 + 1 == |s.fates|
            && forall i :: 0 <= i < TWO32 ==> s.fates[i] == Dropped
  {
    hide Scanned, ScanDefined, Publishes, Drops, Traced, Counted, Gap, ToU64;
    var before := Publishes(TWO32 + 1) + Drops(TWO32);
    var es := before + [Deliver(0)];
    AfterDrops(o, frequency, TWO32 + 1, TWO32);
    RunInvariant(o, frequency, before);
    assert es[..|es| - 1] == before && es[|es| - 1] == Deliver(0);
    var s := Run(o, frequency, before);
    ScannedCounters(s.subscriber, s.channel[0].header, 0);
    assert s.channel[0].header.number == ToU32(TWO32) == 0;
    NoGap(0, 0);
  }
}
