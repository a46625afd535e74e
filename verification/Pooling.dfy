/** Averages over several trackers and over successive delta windows, with the NaN of an empty `Stat`. */
module Pooling {
  import opened Numbers
  import opened Statistics
  import opened Tracking

  /** `Stat::mean`. */
  function MeanOf(xs: seq<uint64>): Double {
    if xs == [] then NaN else Finite(Mean(AsReals(xs)))
  }

  function Concat(parts: seq<seq<uint64>>): seq<uint64> {
    if parts == [] then [] else Concat(parts[..|parts| - 1]) + parts[|parts| - 1]
  }

  /** The running total of the averages: count times mean, added up. */
  function WeightedTotal(parts: seq<seq<uint64>>): Double {
    if parts == [] then Finite(0.0)
    else
      var last := parts[|parts| - 1];
      Plus(WeightedTotal(parts[..|parts| - 1]), Scale(|last|, MeanOf(last)))
  }

  ghost predicate SomeEmpty(parts: seq<seq<uint64>>) {
    exists i :: 0 <= i < |parts| && parts[i] == []
  }

  lemma CountTimesMean(xs: seq<uint64>)
    requires xs != []
    ensures Scale(|xs|, MeanOf(xs)) == Finite(Sum(AsReals(xs)))
  {
  }

  /** The weighted total is the plain sum of all samples, unless some part has no sample: then it is NaN. */
  lemma {:induction false} WeightedTotalIsSum(parts: seq<seq<uint64>>)
    ensures SomeEmpty(parts) ==> WeightedTotal(parts) == NaN
    ensures !SomeEmpty(parts) ==> WeightedTotal(parts) == Finite(Sum(AsReals(Concat(parts))))
  {
    if parts == [] {
    } else {
      var front, last := parts[..|parts| - 1], parts[|parts| - 1];
      WeightedTotalIsSum(front);
      assert forall i :: 0 <= i < |front| ==> front[i] == parts[i];
      assert SomeEmpty(parts) <==> SomeEmpty(front) || last == [] by {
        if last == [] { assert parts[|parts| - 1] == []; }
        if SomeEmpty(front) {
          var i :| 0 <= i < |front| && front[i] == [];
          assert parts[i] == [];
        }
      }
      if last != [] {
        CountTimesMean(last);
        AsRealsAppend(Concat(front), last);
        SumAppend(AsReals(Concat(front)), AsReals(last));
      }
    }
  }

  /** The average before rounding is the mean of all samples together exactly when there is a part and
      every part has a sample; otherwise it is NaN, even if only one part is empty. */
  lemma PooledMean(parts: seq<seq<uint64>>)
    ensures var average := Over(WeightedTotal(parts), |Concat(parts)|);
            if parts != [] && !SomeEmpty(parts) then
              Concat(parts) != [] && average == Finite(Mean(AsReals(Concat(parts))))
            else average == NaN
  {
    WeightedTotalIsSum(parts);
    if parts != [] && !SomeEmpty(parts) {
      assert Concat(parts) != [];
    }
  }

  // ----- The totals of one process -----

  datatype Totals = Totals(received: nat, lost: uint64, late: nat, tooLate: nat, average: Double)

  function SumReceived(ts: seq<State>): nat {
    if ts == [] then 0 else SumReceived(ts[..|ts| - 1]) + ts[|ts| - 1].received
  }

  function SumLate(ts: seq<State>): nat {
    if ts == [] then 0 else SumLate(ts[..|ts| - 1]) + ts[|ts| - 1].late
  }

  function SumTooLate(ts: seq<State>): nat {
    if ts == [] then 0 else SumTooLate(ts[..|ts| - 1]) + ts[|ts| - 1].tooLate
  }

  function SumLost(ts: seq<State>): nat {
    if ts == [] then 0 else SumLost(ts[..|ts| - 1]) + ts[|ts| - 1].lost
  }

  function Histories(ts: seq<State>): (parts: seq<seq<uint64>>)
    ensures |parts| == |ts| && forall i :: 0 <= i < |ts| ==> parts[i] == ts[i].latencies
  {
    seq(|ts|, i requires 0 <= i < |ts| => ts[i].latencies)
  }

  /** Every sample of the tracker came from a scan; `EveryMessageClassified` shows it of every run. */
  predicate ScanOnly(t: State) {
    t.received == |t.latencies|
  }

  lemma {:induction false} ReceivedIsSamples(ts: seq<State>)
    requires forall i :: 0 <= i < |ts| ==> ScanOnly(ts[i])
    ensures SumReceived(ts) == |Concat(Histories(ts))|
  {
    if ts == [] {
    } else {
      var front := ts[..|ts| - 1];
      assert forall i :: 0 <= i < |front| ==> front[i] == ts[i];
      ReceivedIsSamples(front);
      assert Histories(ts)[..|ts| - 1] == Histories(front);
    }
  }

  lemma ZeroTotals(parts: seq<seq<uint64>>)
    ensures WeightedTotal(parts[..0]) == Finite(0.0) && Concat(parts[..0]) == []
  {
  }

  lemma WeightedStep(parts: seq<seq<uint64>>, i: nat)
    requires i < |parts|
    ensures WeightedTotal(parts[..i + 1]) == Plus(WeightedTotal(parts[..i]), Scale(|parts[i]|, MeanOf(parts[i])))
    ensures |Concat(parts[..i + 1])| == |Concat(parts[..i])| + |parts[i]|
  {
    assert parts[..i + 1][..i] == parts[..i];
  }

  lemma ZeroSums()
    ensures SumReceived([]) == SumLate([]) == SumTooLate([]) == ToU64(SumLost([])) == 0
  {
  }

  lemma SumsStep(ts: seq<State>, i: nat)
    requires i < |ts|
    ensures SumReceived(ts[..i + 1]) == SumReceived(ts[..i]) + ts[i].received
    ensures SumLate(ts[..i + 1]) == SumLate(ts[..i]) + ts[i].late
    ensures SumTooLate(ts[..i + 1]) == SumTooLate(ts[..i]) + ts[i].tooLate
    ensures ToU64(SumLost(ts[..i + 1])) == ToU64(ToU64(SumLost(ts[..i])) + ts[i].lost)
  {
    assert ts[..i + 1][..i] == ts[..i];
  }

  function TotalsOf(trackers: seq<State>): Totals {
    Totals(SumReceived(trackers), ToU64(SumLost(trackers)), SumLate(trackers), SumTooLate(trackers),
           RoundDouble(Over(WeightedTotal(Histories(trackers)), SumReceived(trackers))))
  }

  /** The accumulation loop of `log_trackers_latency_total_stats`. The average is the rounded mean of the
      samples of all trackers together if every tracker has one, and NaN otherwise. */
  method PoolTotals(trackers: seq<State>) returns (totals: Totals)
    requires forall i :: 0 <= i < |trackers| ==> ScanOnly(trackers[i])
    ensures totals == TotalsOf(trackers)
    ensures totals.received == |Concat(Histories(trackers))|
    ensures var samples := Concat(Histories(trackers));
            if trackers != [] && forall i :: 0 <= i < |trackers| ==> trackers[i].latencies != [] then
              samples != [] && totals.average == Finite(Round(Mean(AsReals(samples))) as real)
            else totals.average == NaN
  {
    hide SumReceived, SumLate, SumTooLate, SumLost, WeightedTotal, Concat, Mean, AsReals, ToU64;
    ghost var parts := Histories(trackers);
    ZeroTotals(parts);
    ZeroSums();
    var received, late, tooLate := 0, 0, 0;
    var lost: uint64 := 0;
    var latency := Finite(0.0);
    for i := 0 to |trackers|
      invariant received == SumReceived(trackers[..i])
      invariant late == SumLate(trackers[..i]) && tooLate == SumTooLate(trackers[..i])
      invariant lost == ToU64(SumLost(trackers[..i]))
      invariant latency == WeightedTotal(parts[..i])
    {
      var t := trackers[i];
      SumsStep(trackers, i);
      WeightedStep(parts, i);
      received := received + t.received;
      lost := ToU64(lost + t.lost);
      late := late + t.late;
      tooLate := tooLate + t.tooLate;
      latency := Plus(latency, Scale(t.received, MeanOf(t.latencies)));
    }
    assert trackers[..|trackers|] == trackers && parts[..|parts|] == parts;
    ReceivedIsSamples(trackers);
    PooledMean(parts);
    totals := Totals(received, lost, late, tooLate, RoundDouble(Over(latency, received)));
  }

  // ----- The totals in terms of messages -----

  /** What one tracker has gone through. */
  datatype History = History(options: Options, events: seq<Event>)

  ghost predicate AllDefined(hs: seq<History>) {
    forall i :: 0 <= i < |hs| ==> hs[i].options.enabled && RunDefined(hs[i].options, hs[i].events)
  }

  ghost function TrackersOf(hs: seq<History>): (ts: seq<State>)
    requires AllDefined(hs)
    ensures |ts| == |hs|
  {
    if hs == [] then []
    else TrackersOf(hs[..|hs| - 1]) + [Run(hs[|hs| - 1].options, hs[|hs| - 1].events)]
  }

  ghost function MessageCount(hs: seq<History>): nat {
    if hs == [] then 0 else MessageCount(hs[..|hs| - 1]) + |MessagesOf(hs[|hs| - 1].events)|
  }

  /** The messages of one class, over all histories. */
  ghost function ClassCount(hs: seq<History>, c: Severity): nat
    requires AllDefined(hs)
  {
    if hs == [] then 0
    else ClassCount(hs[..|hs| - 1], c) + |Classified(hs[|hs| - 1].options, hs[|hs| - 1].events, c)|
  }

  /** The gaps between consecutive numbers, over all histories; each tracker counts them modulo 2^64. */
  ghost function GapCount(hs: seq<History>): nat {
    if hs == [] then 0 else GapCount(hs[..|hs| - 1]) + ToU64(GapSum(NumbersScanned(hs[|hs| - 1].events)))
  }

  /** The totals of any trackers count the messages received, the late and the too late ones among them, and the
      numbers missing between them. */
  lemma {:induction false} TotalsCountMessages(hs: seq<History>)
    requires AllDefined(hs)
    ensures var totals := TotalsOf(TrackersOf(hs));
            && totals.received == MessageCount(hs)
            && totals.late == ClassCount(hs, Late) && totals.tooLate == ClassCount(hs, TooLate)
            && totals.lost == ToU64(GapCount(hs))
            && SumLost(TrackersOf(hs)) == GapCount(hs)
  {
    hide Run, RunDefined, GapSum, ToU64, WeightedTotal, MessagesOf, NumbersScanned, Classified;
    if hs == [] {
    } else {
      var front, h := hs[..|hs| - 1], hs[|hs| - 1];
      TotalsCountMessages(front);
      var ts := TrackersOf(hs);
      assert ts[..|ts| - 1] == TrackersOf(front);
      EveryMessageClassified(h.options, h.events);
      SamplesAreLatencies(h.options, h.events);
      LostIsGapSum(h.options, h.events);
    }
  }

  // ----- Delta windows -----

  /** The windows closed by the delta reads of a run, oldest first. */
  function Closed(o: Options, es: seq<Event>): seq<seq<uint64>>
    requires RunDefined(o, es)
  {
    if es == [] then []
    else
      var front := es[..|es| - 1];
      assert forall i :: 0 <= i < |front| ==> front[i] == es[i];
      if es[|es| - 1].ReadWindow? then Closed(o, front) + [Run(o, front).window] else Closed(o, front)
  }

  /** However scans and delta reads interleave, the successive windows make up the whole history, and
      the delta counter is the number of samples in the open window. */
  lemma {:induction false} WindowsPartition(o: Options, es: seq<Event>)
    requires RunDefined(o, es)
    ensures var s := Run(o, es);
            s.latencies == Concat(Closed(o, es) + [s.window]) && s.deltaReceived == |s.window|
  {
    var s := Run(o, es);
    assert (Closed(o, es) + [s.window])[..|Closed(o, es)|] == Closed(o, es);
    if es == [] {
    } else {
      var front := es[..|es| - 1];
      assert RunDefined(o, front);
      WindowsPartition(o, front);
      var r := Run(o, front);
      assert (Closed(o, front) + [r.window])[..|Closed(o, front)|] == Closed(o, front);
    }
  }

  function NonEmpty(parts: seq<seq<uint64>>): seq<seq<uint64>> {
    if parts == [] then []
    else NonEmpty(parts[..|parts| - 1]) + if parts[|parts| - 1] == [] then [] else [parts[|parts| - 1]]
  }

  lemma {:induction false} NonEmptyKeepsSamples(parts: seq<seq<uint64>>)
    ensures Concat(NonEmpty(parts)) == Concat(parts) && !SomeEmpty(NonEmpty(parts))
  {
    if parts == [] {
    } else {
      var front, last := parts[..|parts| - 1], parts[|parts| - 1];
      NonEmptyKeepsSamples(front);
      if last != [] {
        assert (NonEmpty(front) + [last])[..|NonEmpty(front)|] == NonEmpty(front);
      } else {
        assert NonEmpty(parts) == NonEmpty(front);
      }
    }
  }

  /** The count-weighted mean of the non-empty windows, closed and open, is the mean of the whole run. */
  lemma WindowMeans(o: Options, es: seq<Event>)
    requires RunDefined(o, es)
    ensures var s := Run(o, es);
            Over(WeightedTotal(NonEmpty(Closed(o, es) + [s.window])), |s.latencies|) == MeanOf(s.latencies)
  {
    var parts := Closed(o, es) + [Run(o, es).window];
    WindowsPartition(o, es);
    NonEmptyKeepsSamples(parts);
    PooledMean(NonEmpty(parts));
  }

  function Windows(ts: seq<State>): (parts: seq<seq<uint64>>)
    ensures |parts| == |ts| && forall i :: 0 <= i < |ts| ==> parts[i] == ts[i].window
  {
    seq(|ts|, i requires 0 <= i < |ts| => ts[i].window)
  }

  ghost function Values(ts: seq<Tracker>): (vs: seq<State>)
    reads ts
    ensures |vs| == |ts| && forall i :: 0 <= i < |ts| ==> vs[i] == ts[i].Value()
  {
    seq(|ts|, i requires 0 <= i < |ts| reads ts => ts[i].Value())
  }

  datatype Conversion = Converted(value: int) | Undefined

  /** The read-and-reset loop of `get_trackers_avg_latency`. With no sample in any window the result is
      0; otherwise it is the rounded mean of all windows together when no window is empty, and when one is
      empty the average is NaN, whose conversion to an integer C++ leaves undefined. */
  method AverageLatency(trackers: seq<Tracker>) returns (average: Conversion)
    requires forall i, j :: 0 <= i < j < |trackers| ==> trackers[i] != trackers[j]
    requires forall i :: 0 <= i < |trackers| ==> trackers[i].Valid()
    requires forall i :: 0 <= i < |trackers| ==> trackers[i].Value().deltaReceived == |trackers[i].Value().window|
    modifies trackers
    ensures forall i :: 0 <= i < |trackers| ==>
              trackers[i].Valid() && trackers[i].Value() == WindowRead(old(trackers[i].Value()))
    ensures var parts := Windows(old(Values(trackers)));
            var samples := Concat(parts);
            && (average == Undefined <==> samples != [] && SomeEmpty(parts))
            && (samples == [] ==> average == Converted(0))
            && (samples != [] && !SomeEmpty(parts) ==>
                  average == Converted(Round(Mean(AsReals(samples)))))
  {
    hide Represents, WeightedTotal, Concat, Mean, Stat.Valid;
    var received := 0;
    var latency := Finite(0.0);
    ghost var parts := Windows(Values(trackers));
    ZeroTotals(parts);
    for i := 0 to |trackers|
      invariant forall j :: 0 <= j < |trackers| ==> trackers[j].Valid()
      invariant forall j :: 0 <= j < i ==> trackers[j].Value() == WindowRead(old(trackers[j].Value()))
      invariant forall j :: i <= j < |trackers| ==> trackers[j].Value() == old(trackers[j].Value())
      invariant received == |Concat(parts[..i])|
      invariant latency == WeightedTotal(parts[..i])
    {
      var t := trackers[i];
      WeightedStep(parts, i);
      assert parts[i] == t.Value().window;
      received := received + t.deltaReceived;
      var mean := t.deltaStat.GetMean();
      assert mean == MeanOf(parts[i]);
      latency := Plus(latency, Scale(t.deltaReceived, mean));
      t.ResetDeltaReceived();
      t.ResetDeltaStat();
    }
    assert parts[..|trackers|] == parts;
    WeightedTotalIsSum(parts);
    PooledMean(parts);
    var quotient := RoundDouble(Over(latency, received));
    if received == 0 {
      average := Converted(0);
    } else {
      average := if quotient.Finite? then Converted(quotient.value.Floor) else Undefined;
    }
  }
}
