/** The fork tree of the benchmark: every process writes its totals, the parent reads and adds them all. */
module Aggregate {
  import opened Numbers
  import opened Text
  import opened Report
  import opened Pooling
  import Statistics
  import Tracking

  // ----- Forking -----

  /** `fork_process` as seen from all processes at once: each fork leaves a child, which breaks out of
      the loop with the current index, while the original goes on. */
  method ForkProcess(processes: nat) returns (children: seq<nat>, original: nat)
    ensures |children| == (if processes == 0 then 0 else processes - 1)
    ensures forall i :: 0 <= i < |children| ==> children[i] == i
    ensures original == |children|
    ensures processes > 0 ==> IsParent(original, processes)
    ensures forall i :: 0 <= i < |children| ==> !IsParent(children[i], processes)
  {
    children := [];
    var i := 0;
    while i < processes
      invariant i == |children|
      invariant processes == 0 ==> i == 0
      invariant processes > 0 ==> i < processes
      invariant forall j :: 0 <= j < i ==> children[j] == j
    {
      if i != processes - 1 {
        children := children + [i];
      } else {
        break;
      }
      i := i + 1;
    }
    original := i;
  }

  predicate IsParent(index: nat, processes: nat) {
    index + 1 >= processes
  }

  // ----- Paths -----

  function AfterLastSlash(path: string): string {
    if path == [] || path[|path| - 1] == '/' then []
    else AfterLastSlash(path[..|path| - 1]) + [path[|path| - 1]]
  }

  /** Five characters for the extension; on a shorter name the unsigned count wraps and nothing is cut. */
  function Stem(topology: string): string {
    var base := AfterLastSlash(topology);
    if |base| >= 5 then base[..|base| - 5] else base
  }

  function ResultDirectory(topology: string, results: string, multi: bool): string {
    if results != [] then (if multi then results + "/" + Stem(topology) else results)
    else Stem(topology) + "_log"
  }

  const TOTAL_FILE := "/latency_total.txt"

  function WrittenPath(topology: string, results: string, count: nat): string {
    ResultDirectory(topology, results, count > 1) + TOTAL_FILE
  }

  /** The path that the parent rebuilds in `print_aggregate_stats`. */
  function ReadPath(topology: string, results: string, count: nat): string {
    if results != [] then
      (if count > 1 then results + "/" + Stem(topology) + TOTAL_FILE else results + TOTAL_FILE)
    else Stem(topology) + "_log/latency_total.txt"
  }

  lemma {:induction false} BaseName(dir: string, base: string)
    requires '/' !in base
    ensures AfterLastSlash(base) == base && AfterLastSlash(dir + "/" + base) == base
  {
    if base == [] {
      assert dir + "/" + base == dir + "/";
    } else {
      var front, last := base[..|base| - 1], base[|base| - 1];
      BaseName(dir, front);
      assert (dir + "/" + base)[..|dir + "/" + base| - 1] == dir + "/" + front;
      assert base == front + [last];
    }
  }

  /** The stem of `name.json` is the name, with or without directories in front; a base name of less than five
      characters is kept whole. */
  lemma StemOf(dir: string, name: string)
    requires '/' !in name
    ensures Stem(name + ".json") == Stem(dir + "/" + name + ".json") == name
    ensures |name| < 5 ==> Stem(name) == Stem(dir + "/" + name) == name
  {
    var base := name + ".json";
    BaseName(dir, base);
    BaseName(dir, name);
    assert dir + "/" + name + ".json" == dir + "/" + base;
    assert base[..|base| - 5] == name;
  }

  /** The file of a process in full: beside the program when no results directory is given, in it for a single
      topology, and in a directory of the topology's name for several. */
  lemma PathsInFull(dir: string, name: string, results: string, count: nat)
    requires '/' !in name
    ensures var path := if results == "" then name + "_log/latency_total.txt"
                        else if count > 1 then results + "/" + name + "/latency_total.txt"
                        else results + "/latency_total.txt";
            && WrittenPath(name + ".json", results, count) == ReadPath(name + ".json", results, count) == path
            && WrittenPath(dir + "/" + name + ".json", results, count)
               == ReadPath(dir + "/" + name + ".json", results, count) == path
  {
    StemOf(dir, name);
    ReadsWhatWasWritten(name + ".json", results, count);
    ReadsWhatWasWritten(dir + "/" + name + ".json", results, count);
    hide Stem;
  }

  lemma ReadsWhatWasWritten(topology: string, results: string, count: nat)
    ensures ReadPath(topology, results, count) == WrittenPath(topology, results, count)
  {
    assert "_log" + TOTAL_FILE == "_log/latency_total.txt";
    var stem := Stem(topology);
    assert (stem + "_log") + TOTAL_FILE == stem + ("_log" + TOTAL_FILE);
  }

  /** With several topologies the files collide exactly when the stems do. */
  lemma PathsDistinct(a: string, b: string, results: string, count: nat)
    requires count > 1
    ensures WrittenPath(a, results, count) == WrittenPath(b, results, count) <==> Stem(a) == Stem(b)
  {
    hide Stem;
    var prefix := if results != [] then results + "/" else "";
    var suffix := (if results != [] then "" else "_log") + TOTAL_FILE;
    assert WrittenPath(a, results, count) == prefix + (Stem(a) + suffix);
    assert WrittenPath(b, results, count) == prefix + (Stem(b) + suffix);
    if WrittenPath(a, results, count) == WrittenPath(b, results, count) {
      Cancel(prefix, Stem(a), Stem(b), suffix);
    }
  }

  lemma Cancel(prefix: string, a: string, b: string, suffix: string)
    requires prefix + (a + suffix) == prefix + (b + suffix)
    ensures a == b
  {
    assert a + suffix == (prefix + (a + suffix))[|prefix|..] == b + suffix;
    assert a == (a + suffix)[..|a|] && b == (b + suffix)[..|b|];
  }

  // ----- What a process writes -----

  datatype Process = Process(
    trackers: seq<Tracking.State>,
    lateShare: string,
    tooLateShare: string,
    lostShare: string,
    negativeNan: bool)

  function SummaryOf(p: Process): Summary {
    var t := TotalsOf(p.trackers);
    Summary(ToU64(t.received),
            if t.average.Finite? && t.average.value >= 0.0 then Whole(t.average.value.Floor)
            else NotANumber(p.negativeNan),
            ToU64(t.late), p.lateShare, ToU64(t.tooLate), p.tooLateShare, t.lost, p.lostShare)
  }

  function TotalsText(s: Summary, csv: bool): string {
    Row(csv, HEADINGS, 0) + "\n" + Row(csv, Fields(s), 0) + "\n"
  }

  /** The file of a process with commas, value by value; the mean is read off in `MeanReadIs`. */
  lemma FileInFull(p: Process)
    ensures var mean := AverageText(SummaryOf(p).average);
            TotalsText(SummaryOf(p), true) == CSV_HEADING + "\n"
              + (Decimal(ToU64(SumReceived(p.trackers))) + "," + (mean + ","
              + (Decimal(ToU64(SumLate(p.trackers))) + "," + (p.lateShare + ","
              + (Decimal(ToU64(SumTooLate(p.trackers))) + "," + (p.tooLateShare + ","
              + (Decimal(ToU64(SumLost(p.trackers))) + "," + p.lostShare))))))) + "\n"
    ensures SummaryOf(p).average.NotANumber? ==>
              AverageText(SummaryOf(p).average) == if p.negativeNan then "-nan" else "nan"
  {
    hide Row, Fields, Decimal, ToU64, WeightedTotal, SumReceived, SumLate, SumTooLate, SumLost;
    HeadingsAre();
    CsvDataIs(SummaryOf(p));
  }

  /** `getline`: the text up to the next line end, and what follows it. */
  function GetLine(s: string): (string, string) {
    var i := Find(s, '\n');
    (s[..i], if i < |s| then s[i + 1..] else [])
  }

  function SecondLine(content: string): string {
    GetLine(GetLine(content).1).0
  }

  lemma FirstLine(line: string, rest: string)
    requires Free(line, '\n')
    ensures GetLine(line + "\n" + rest) == (line, rest)
  {
    var s := line + "\n" + rest;
    assert s == line + ("\n" + rest);
    FindAfter(line, "\n" + rest, '\n');
    assert s[..|line|] == line && s[|line| + 1..] == rest;
  }

  lemma SecondLineIsData(s: Summary, csv: bool)
    requires SharesPrinted(s)
    ensures SecondLine(TotalsText(s, csv)) == Row(csv, Fields(s), 0)
  {
    hide Row, Fields, AllPrinted, GetLine, SharesPrinted;
    HeadingsPrinted();
    FieldsPrinted(s);
    RowHasNoLineEnd(csv, HEADINGS, 0);
    RowHasNoLineEnd(csv, Fields(s), 0);
    var heading, data := Row(csv, HEADINGS, 0), Row(csv, Fields(s), 0);
    FirstLine(heading, data + "\n");
    FirstLine(data, "");
    assert heading + "\n" + data + "\n" == heading + "\n" + (data + "\n");
    assert data + "\n" + "" == data + "\n";
  }

  lemma HeadingsPrinted()
    ensures AllPrinted(HEADINGS)
  {
  }

  /** The files after the processes have written theirs in this order; a later writer overwrites a shared path. */
  function Written(topologies: seq<string>, results: string, csv: bool, ps: seq<Process>, order: seq<nat>)
    : map<string, string>
    requires |topologies| == |ps| && forall k :: 0 <= k < |order| ==> order[k] < |ps|
  {
    if order == [] then map[]
    else
      var i := order[|order| - 1];
      Written(topologies, results, csv, ps, order[..|order| - 1])
        [WrittenPath(topologies[i], results, |topologies|) := TotalsText(SummaryOf(ps[i]), csv)]
  }

  /** Each process writes; the processes finish in any order. */
  ghost predicate EveryProcess(order: seq<nat>, n: nat) {
    && (forall k :: 0 <= k < |order| ==> order[k] < n)
    && (forall i: nat :: i < n ==> i in order)
  }

  lemma {:induction false} OwnFile(topologies: seq<string>, results: string, csv: bool, ps: seq<Process>,
      order: seq<nat>, i: nat)
    requires |topologies| == |ps| && DistinctStems(topologies)
    requires (forall k :: 0 <= k < |order| ==> order[k] < |ps|) && i in order
    ensures var path := WrittenPath(topologies[i], results, |topologies|);
            var files := Written(topologies, results, csv, ps, order);
            path in files && files[path] == TotalsText(SummaryOf(ps[i]), csv)
  {
    hide WrittenPath, TotalsText, SummaryOf, Stem;
    var last := order[|order| - 1];
    if i == last {
    } else {
      assert i in order[..|order| - 1];
      OwnFile(topologies, results, csv, ps, order[..|order| - 1], i);
      PathsDistinct(topologies[i], topologies[last], results, |topologies|);
    }
  }

  ghost predicate DistinctStems(topologies: seq<string>) {
    forall i, j :: 0 <= i < j < |topologies| ==> Stem(topologies[i]) != Stem(topologies[j])
  }

  // ----- What the parent reads -----

  /** The sums over the first n topologies, each addition modulo 2^64; a missing file is skipped. */
  function ReadTotals(files: map<string, string>, topologies: seq<string>, results: string, csv: bool, n: nat): Parsed
    requires n <= |topologies|
  {
    if n == 0 then Parsed(0, 0, 0, 0, 0)
    else
      var sums := ReadTotals(files, topologies, results, csv, n - 1);
      var path := ReadPath(topologies[n - 1], results, |topologies|);
      if path in files then AddParsed(sums, ParsedOf(SecondLine(files[path]), csv)) else sums
  }

  function AddParsed(a: Parsed, b: Parsed): Parsed {
    Parsed(ToU64(a.received + b.received), ToU64(a.latency + b.latency), ToU64(a.late + b.late),
           ToU64(a.tooLate + b.tooLate), ToU64(a.lost + b.lost))
  }

  /** One value of the second lines of the files that exist, added up; `pick` selects it. */
  function PresentSum(files: map<string, string>, topologies: seq<string>, results: string, csv: bool, n: nat,
                      pick: Parsed -> nat): nat
    requires n <= |topologies|
  {
    if n == 0 then 0
    else
      var path := ReadPath(topologies[n - 1], results, |topologies|);
      PresentSum(files, topologies, results, csv, n - 1, pick)
      + if path in files then pick(ParsedOf(SecondLine(files[path]), csv)) else 0
  }

  lemma SmallSums()
    ensures ToU64(0) == 0
  {
  }

  /** Each of the five sums is that over the files that exist, modulo 2^64; a missing one adds nothing. */
  lemma {:induction false} MissingFilesSkipped(files: map<string, string>, topologies: seq<string>, results: string,
      csv: bool, n: nat)
    requires n <= |topologies|
    ensures var sums := ReadTotals(files, topologies, results, csv, n);
            && sums.received == ToU64(PresentSum(files, topologies, results, csv, n, (p: Parsed) => p.received))
            && sums.latency == ToU64(PresentSum(files, topologies, results, csv, n, (p: Parsed) => p.latency))
            && sums.late == ToU64(PresentSum(files, topologies, results, csv, n, (p: Parsed) => p.late))
            && sums.tooLate == ToU64(PresentSum(files, topologies, results, csv, n, (p: Parsed) => p.tooLate))
            && sums.lost == ToU64(PresentSum(files, topologies, results, csv, n, (p: Parsed) => p.lost))
  {
    hide ParsedOf, SecondLine, ReadPath, ToU64;
    SmallSums();
    if n == 0 {
    } else {
      MissingFilesSkipped(files, topologies, results, csv, n - 1);
      var path := ReadPath(topologies[n - 1], results, |topologies|);
      if path in files {
        var p := ParsedOf(SecondLine(files[path]), csv);
        Wrapped64(PresentSum(files, topologies, results, csv, n - 1, (p: Parsed) => p.received), p.received);
        Wrapped64(PresentSum(files, topologies, results, csv, n - 1, (p: Parsed) => p.latency), p.latency);
        Wrapped64(PresentSum(files, topologies, results, csv, n - 1, (p: Parsed) => p.late), p.late);
        Wrapped64(PresentSum(files, topologies, results, csv, n - 1, (p: Parsed) => p.tooLate), p.tooLate);
        Wrapped64(PresentSum(files, topologies, results, csv, n - 1, (p: Parsed) => p.lost), p.lost);
      }
    }
  }

  /** `print_aggregate_stats` up to the printing: the average is the integer quotient of the summed means. */
  method AggregateStats(files: map<string, string>, topologies: seq<string>, results: string, csv: bool)
    returns (sums: Parsed, average: nat)
    requires topologies != []
    ensures sums == ReadTotals(files, topologies, results, csv, |topologies|)
    ensures average == sums.latency / |topologies|
  {
    hide ParsedOf, SecondLine, ReadPath, ToU64;
    var received: uint64, latency: uint64, late: uint64, tooLate: uint64, lost: uint64 := 0, 0, 0, 0, 0;
    for n := 0 to |topologies|
      invariant Parsed(received, latency, late, tooLate, lost) == ReadTotals(files, topologies, results, csv, n)
    {
      var path := ReadPath(topologies[n], results, |topologies|);
      if path in files {
        var p := ParseTotals(SecondLine(files[path]), csv);
        received := ToU64(received + p.received);
        latency := ToU64(latency + p.latency);
        late := ToU64(late + p.late);
        tooLate := ToU64(tooLate + p.tooLate);
        lost := ToU64(lost + p.lost);
      }
    }
    sums := Parsed(received, latency, late, tooLate, lost);
    average := latency / |topologies|;
  }

  // ----- End to end -----

  function AllTrackers(ps: seq<Process>): seq<Tracking.State> {
    if ps == [] then [] else AllTrackers(ps[..|ps| - 1]) + ps[|ps| - 1].trackers
  }

  /** The mean of one process as the parent reads it: zero when it is not a number. */
  function MeanRead(p: Process): nat {
    var a := SummaryOf(p).average;
    if a.Whole? then a.value else 0
  }

  lemma MeanNonNegative(xs: seq<Numbers.uint64>)
    requires xs != []
    ensures Statistics.Mean(Tracking.AsReals(xs)) >= 0.0
  {
    var rs := Tracking.AsReals(xs);
    Statistics.MeanBetween(rs, 0.0, TWO64 as real);
  }

  /** The mean read is the rounded mean of all samples of the process when each of its trackers has one;
      a single tracker without samples makes the process count with a mean of zero. */
  lemma MeanReadIs(p: Process)
    requires forall i :: 0 <= i < |p.trackers| ==> ScanOnly(p.trackers[i])
    ensures var samples := Concat(Histories(p.trackers));
            if p.trackers != [] && forall i :: 0 <= i < |p.trackers| ==> p.trackers[i].latencies != [] then
              samples != [] && MeanRead(p) == Round(Statistics.Mean(Tracking.AsReals(samples)))
            else MeanRead(p) == 0
  {
    hide WeightedTotal, Concat, SumReceived, SumLate, SumTooLate, SumLost, Statistics.Mean, Tracking.AsReals;
    var parts := Histories(p.trackers);
    ReceivedIsSamples(p.trackers);
    PooledMean(parts);
    if p.trackers != [] && forall i :: 0 <= i < |p.trackers| ==> p.trackers[i].latencies != [] {
      assert !SomeEmpty(parts);
      MeanNonNegative(Concat(parts));
    } else {
      assert parts == [] || SomeEmpty(parts);
    }
  }

  function SumMeans(ps: seq<Process>): nat {
    if ps == [] then 0 else SumMeans(ps[..|ps| - 1]) + MeanRead(ps[|ps| - 1])
  }

  ghost predicate Readable(ps: seq<Process>, csv: bool) {
    forall i :: 0 <= i < |ps| ==>
      SharesPrinted(SummaryOf(ps[i])) && AllApart(csv, SummaryOf(ps[i])) && MeanRead(ps[i]) < 1000000
  }

  lemma {:induction false} SumsAppend(a: seq<Tracking.State>, b: seq<Tracking.State>)
    ensures SumReceived(a + b) == SumReceived(a) + SumReceived(b)
    ensures SumLate(a + b) == SumLate(a) + SumLate(b)
    ensures SumTooLate(a + b) == SumTooLate(a) + SumTooLate(b)
    ensures SumLost(a + b) == SumLost(a) + SumLost(b)
  {
    if b == [] {
      assert a + b == a;
    } else {
      assert (a + b)[..|a + b| - 1] == a + b[..|b| - 1];
      SumsAppend(a, b[..|b| - 1]);
    }
  }

  function Contribution(p: Process): Parsed {
    Parsed(ToU64(SumReceived(p.trackers)), ToU64(MeanRead(p)), ToU64(SumLate(p.trackers)),
           ToU64(SumTooLate(p.trackers)), ToU64(SumLost(p.trackers)))
  }

  lemma ProcessRead(p: Process, csv: bool)
    requires SharesPrinted(SummaryOf(p)) && AllApart(csv, SummaryOf(p)) && MeanRead(p) < 1000000
    ensures ParsedOf(SecondLine(TotalsText(SummaryOf(p), csv)), csv) == Contribution(p)
  {
    hide Row, Fields, ParsedOf, AllApart, SharesPrinted, ToU64, SumReceived, SumLate, SumTooLate, SumLost,
      TotalsText, SecondLine, WeightedTotal, RoundDouble, Over, Histories;
    SecondLineIsData(SummaryOf(p), csv);
    RoundTrip(SummaryOf(p), csv);
    Small64(MeanRead(p));
  }

  /** One message out of order: a number up to 2^32 - 10^9 behind the expected one makes the tracker count at
      least 10^9 lost messages, and the parent reads zero from the padded file of the process. */
  lemma OutOfOrderUnread(t: Tracking.State, n: nat, h: Tracking.Header, now: int, p: Process)
    requires Tracking.InSequence(t, n) && Tracking.ScanDefined(t.options, h.frequency)
    requires 0 < ToU32(t.expected - h.number) <= TWO32 - 1000000000
    requires p.trackers == [Tracking.Scanned(t, h, now)] && SharesPrinted(SummaryOf(p))
    ensures SummaryOf(p).lost == TWO32 - ToU32(t.expected - h.number)
    ensures ParsedOf(SecondLine(TotalsText(SummaryOf(p), false)), false).lost == 0
  {
    hide Row, Fields, ParsedOf, SharesPrinted, SecondLine, TotalsText, Tracking.Scanned, Tracking.ScanDefined;
    Tracking.StepBack(t, h, now);
    assert SumLost(p.trackers) == Tracking.Scanned(t, h, now).lost by {
      assert p.trackers[..0] == [];
    }
    SecondLineIsData(SummaryOf(p), false);
    GreatLossUnread(SummaryOf(p));
  }

  lemma Small64(x: int)
    requires 0 <= x < TWO64
    ensures ToU64(x) == x
  {
  }

  /** The sums that the parent should arrive at. */
  function Pooled(ps: seq<Process>): Parsed {
    var all := AllTrackers(ps);
    Parsed(ToU64(SumReceived(all)), ToU64(SumMeans(ps)), ToU64(SumLate(all)), ToU64(SumTooLate(all)),
        ToU64(SumLost(all)))
  }

  lemma OneMore(front: seq<Process>, p: Process)
    ensures AllTrackers(front + [p]) == AllTrackers(front) + p.trackers
    ensures SumMeans(front + [p]) == SumMeans(front) + MeanRead(p)
  {
  }

  lemma PooledNext(front: seq<Process>, p: Process)
    ensures Pooled(front + [p]) == AddParsed(Pooled(front), Contribution(p))
  {
    hide AllTrackers, SumMeans, MeanRead, ToU64, SumReceived, SumLate, SumTooLate, SumLost;
    var all := AllTrackers(front);
    OneMore(front, p);
    SumsAppend(all, p.trackers);
    AddWrapped(SumReceived(all), SumReceived(p.trackers));
    AddWrapped(SumLate(all), SumLate(p.trackers));
    AddWrapped(SumTooLate(all), SumTooLate(p.trackers));
    AddWrapped(SumLost(all), SumLost(p.trackers));
    AddWrapped(SumMeans(front), MeanRead(p));
  }

  lemma AddWrapped(x: int, y: int)
    ensures ToU64(ToU64(x) + ToU64(y)) == ToU64(x + y)
  {
  }

  lemma ReadNext(files: map<string, string>, topologies: seq<string>, results: string, csv: bool, n: nat)
    requires 0 < n <= |topologies| && ReadPath(topologies[n - 1], results, |topologies|) in files
    ensures ReadTotals(files, topologies, results, csv, n)
         == AddParsed(ReadTotals(files, topologies, results, csv, n - 1),
                      ParsedOf(SecondLine(files[ReadPath(topologies[n - 1], results, |topologies|)]), csv))
  {
  }

  /** After all processes have written, in whatever order, the first n files give the sums of n processes. */
  lemma {:induction false} ReadTotalsAre(topologies: seq<string>, results: string, csv: bool, ps: seq<Process>,
      order: seq<nat>, n: nat)
    requires n <= |topologies| == |ps| && EveryProcess(order, |ps|) && DistinctStems(topologies) && Readable(ps, csv)
    ensures ReadTotals(Written(topologies, results, csv, ps, order), topologies, results, csv, n) == Pooled(ps[..n])
  {
    hide SharesPrinted, SummaryOf, AllApart, MeanRead, ReadTotals, Pooled, Written, DistinctStems, ReadPath,
      WrittenPath, TotalsText, SecondLine, ParsedOf, AddParsed, Contribution;
    var files := Written(topologies, results, csv, ps, order);
    if n == 0 {
      ReadNone(files, topologies, results, csv);
      assert ps[..0] == [];
    } else {
      var p := ps[n - 1];
      ReadTotalsAre(topologies, results, csv, ps, order, n - 1);
      OwnFile(topologies, results, csv, ps, order, n - 1);
      ReadsWhatWasWritten(topologies[n - 1], results, |topologies|);
      ProcessRead(p, csv);
      ReadNext(files, topologies, results, csv, n);
      PooledNext(ps[..n - 1], p);
      assert ps[..n] == ps[..n - 1] + [p];
    }
  }

  lemma ReadNone(files: map<string, string>, topologies: seq<string>, results: string, csv: bool)
    ensures ReadTotals(files, topologies, results, csv, 0) == Pooled([])
  {
  }

  lemma NextMultiple(n: nat, x: nat)
    ensures (n + 1) * x == n * x + x
  {
  }

  lemma {:induction false} MeansBetween(ps: seq<Process>, lo: nat, hi: nat)
    requires forall i :: 0 <= i < |ps| ==> lo <= MeanRead(ps[i]) <= hi
    ensures |ps| * lo <= SumMeans(ps) <= |ps| * hi
  {
    if ps == [] {
    } else {
      hide MeanRead;
      var front := ps[..|ps| - 1];
      assert forall i :: 0 <= i < |front| ==> front[i] == ps[i];
      MeansBetween(front, lo, hi);
      NextMultiple(|front|, lo);
      NextMultiple(|front|, hi);
    }
  }

  lemma QuotientBetween(x: nat, n: nat, lo: nat, hi: nat)
    requires n > 0 && n * lo <= x <= n * hi
    ensures lo <= x / n <= hi
  {
    DivLess(x, n, lo);
    DivLess(x, n, hi + 1);
    NextMultiple(hi, n);
  }

  /** What the parent should print: the counters of all trackers of all processes together, modulo 2^64, and
      an average between the smallest and the largest mean of a process. */
  ghost predicate SystemTotals(sums: Parsed, average: nat, ps: seq<Process>) {
    var all := AllTrackers(ps);
    && sums.received == ToU64(SumReceived(all)) && sums.lost == ToU64(SumLost(all))
    && sums.late == ToU64(SumLate(all)) && sums.tooLate == ToU64(SumTooLate(all))
    && forall lo: nat, hi: nat :: Between(ps, lo, hi) ==> lo <= average <= hi
  }

  ghost predicate Between(ps: seq<Process>, lo: nat, hi: nat) {
    forall i :: 0 <= i < |ps| ==> lo <= MeanRead(ps[i]) <= hi
  }

  lemma AverageBetween(ps: seq<Process>)
    requires ps != []
    ensures forall lo: nat, hi: nat :: Between(ps, lo, hi) ==> lo <= SumMeans(ps) / |ps| <= hi
  {
    hide MeanRead, SumMeans;
    forall lo: nat, hi: nat | Between(ps, lo, hi) ensures lo <= SumMeans(ps) / |ps| <= hi {
      MeansBetween(ps, lo, hi);
      QuotientBetween(SumMeans(ps), |ps|, lo, hi);
    }
  }

  lemma MeansFit(ps: seq<Process>, csv: bool)
    requires Readable(ps, csv) && |ps| * 1000000 < TWO64
    ensures ToU64(SumMeans(ps)) == SumMeans(ps)
  {
    hide AllApart, SharesPrinted, SummaryOf, SumMeans;
    assert forall i :: 0 <= i < |ps| ==> MeanRead(ps[i]) < 1000000;
    hide Readable, MeanRead;
    MeansBetween(ps, 0, 1000000);
  }

  lemma PooledIsTotal(ps: seq<Process>, sums: Parsed)
    requires ps != [] && sums == Pooled(ps) && ToU64(SumMeans(ps)) == SumMeans(ps)
    ensures SystemTotals(sums, sums.latency / |ps|, ps)
  {
    hide ToU64, SumReceived, SumLate, SumTooLate, SumLost, AllTrackers, SumMeans, Between;
    AverageBetween(ps);
  }

  /** What the parent reads after the processes have written in this order. */
  ghost function ParentReads(topologies: seq<string>, results: string, csv: bool, ps: seq<Process>, order: seq<nat>)
    : Parsed
    requires |topologies| == |ps| && EveryProcess(order, |ps|)
  {
    ReadTotals(Written(topologies, results, csv, ps, order), topologies, results, csv, |topologies|)
  }

  /** With distinct stems and readable lines the parent arrives at the totals of the system, in whatever
      order the processes wrote their files. */
  lemma EndToEnd(topologies: seq<string>, results: string, csv: bool, ps: seq<Process>, order: seq<nat>)
    requires 0 < |topologies| == |ps| && EveryProcess(order, |ps|) && DistinctStems(topologies) && Readable(ps, csv)
    requires |ps| * 1000000 < TWO64
    ensures var sums := ParentReads(topologies, results, csv, ps, order);
            SystemTotals(sums, sums.latency / |topologies|, ps)
  {
    hide Written, ReadTotals, DistinctStems, Readable, SystemTotals, Pooled, SumMeans;
    ReadTotalsAre(topologies, results, csv, ps, order, |ps|);
    assert ps[..|ps|] == ps;
    MeansFit(ps, csv);
    PooledIsTotal(ps, Pooled(ps));
  }

  /** The whole program: forking, every process writing its file when it finishes, and the parent, once it has
      waited for the others, adding up all files. `ps[i]` is what a process measures on topology i;
      `finished` is the order in which the processes, numbered by their place among all of them, write. */
  method RunBenchmark(topologies: seq<string>, results: string, csv: bool, ps: seq<Process>, finished: seq<nat>)
    returns (sums: Parsed, average: nat)
    requires 0 < |topologies| == |ps| && EveryProcess(finished, |ps|)
    ensures DistinctStems(topologies) && Readable(ps, csv) && |ps| * 1000000 < TWO64 ==>
              SystemTotals(sums, average, ps)
  {
    hide DistinctStems, Readable, SystemTotals, ReadTotals, WrittenPath, SummaryOf, Row, Fields, PaddedData, CsvData,
      RoomForAll;
    var children, original := ForkProcess(|topologies|);
    var indices := children + [original];
    assert |indices| == |topologies| && forall j :: 0 <= j < |indices| ==> indices[j] == j;
    var files: map<string, string> := map[];
    for t := 0 to |finished|
      invariant files == Written(topologies, results, csv, ps, finished[..t])
    {
      var index := indices[finished[t]];
      assert finished[..t + 1][..t] == finished[..t];
      var text := LogTotalStats(SummaryOf(ps[index]), csv);
      assert text == TotalsText(SummaryOf(ps[index]), csv);
      files := files[WrittenPath(topologies[index], results, |topologies|) := text];
    }
    assert finished[..|finished|] == finished;
    assert IsParent(original, |topologies|);
    sums, average := AggregateStats(files, topologies, results, csv);
    if DistinctStems(topologies) && Readable(ps, csv) && |ps| * 1000000 < TWO64 {
      EndToEnd(topologies, results, csv, ps, finished);
    }
  }
}
