/** One action whose feedback and results travel on separate channels, so that a result can overtake its feedback. */
module Overtaking {
  import opened Numbers
  import opened Tracking
  import opened Node

  datatype Message = Feedback | Result

  /** Each channel keeps its own order. `scanned` tells what the client has received, in order; every goal
      succeeds, so each result received is scanned. */
  datatype Race = Race(
    client: NodeState,
    server: NodeState,
    goals: seq<Header>,
    feedbacks: seq<Header>,
    results: seq<Header>,
    scanned: seq<Message>)

  datatype Event =
    | Tick(available: bool, now: int, size: nat)
    | Accept(now: int, feedbackTime: int, resultTime: int, size: nat)
    | Hear(now: int)
    | Finish(now: int)

  function Count(scanned: seq<Message>, m: Message): nat {
    if scanned == [] then 0
    else Count(scanned[..|scanned| - 1], m) + if scanned[|scanned| - 1] == m then 1 else 0
  }

  function NumberOf(m: Message, k: nat): uint32 {
    ToU32(if m == Feedback then 2 * k else 2 * k + 1)
  }

  /** The numbers that the client scans: both channels count from their own beginning. */
  function NumbersReceived(scanned: seq<Message>): (ns: seq<uint32>)
    ensures |ns| == |scanned|
  {
    if scanned == [] then []
    else
      var front, m := scanned[..|scanned| - 1], scanned[|scanned| - 1];
      NumbersReceived(front) + [NumberOf(m, Count(front, m))]
  }

  /** Whenever a result is received, more feedback than results came before, its own included. */
  ghost predicate NoneOvertakes(scanned: seq<Message>) {
    forall i :: 0 <= i < |scanned| && scanned[i] == Result ==>
      Count(scanned[..i], Feedback) > Count(scanned[..i], Result)
  }

  /** The lock lets no goal be sent, and so no feedback arrive, before the result of the goal before. */
  ghost predicate OneGoalAhead(scanned: seq<Message>) {
    forall i :: 0 <= i <= |scanned| ==> Count(scanned[..i], Feedback) <= Count(scanned[..i], Result) + 1
  }

  // ----- The invariant -----

  ghost predicate Sent(hs: seq<Header>, m: Message, frequency: real) {
    AllAt(hs, frequency) && forall k :: 0 <= k < |hs| ==> hs[k].number == NumberOf(m, k)
  }

  ghost predicate Channels(s: Race, frequency: real) {
    && AllAt(s.goals, frequency) && Consecutive(s.goals)
    && Sent(s.feedbacks, Feedback, frequency) && Sent(s.results, Result, frequency)
    && |s.feedbacks| == |s.results| <= |s.goals| <= Count(s.scanned, Result) + 1
    && Count(s.scanned, Feedback) <= |s.feedbacks| && Count(s.scanned, Result) <= |s.results|
    && OneGoalAhead(s.scanned)
  }

  ghost predicate ClientInvariant(e: Entry, goals: nat, scanned: seq<Message>, frequency: real) {
    && e.number == ToU32(goals)
    && e.tracker.options == DEFAULT_OPTIONS && e.tracker.frequency == frequency
    && Accounted(e.tracker, NumbersReceived(scanned))
  }

  ghost predicate ServerInvariant(e: Entry, accepted: nat, frequency: real) {
    && e.number == ToU32(2 * accepted)
    && InSequence(e.tracker, accepted)
    && (e.tracker.latencies != [] ==> e.tracker.frequency == frequency)
  }

  ghost predicate Invariant(name: string, frequency: real, s: Race) {
    && name in s.client.actionClients && name in s.server.actionServers
    && Channels(s, frequency)
    && ClientInvariant(s.client.actionClients[name], |s.goals|, s.scanned, frequency)
    && ServerInvariant(s.server.actionServers[name], |s.feedbacks|, frequency)
    && (s.client.actionLock <==> |s.goals| == Count(s.scanned, Result) + 1)
  }

  function Initial(name: string, frequency: real): Race {
    Race(NodeState(false, map[], map[], false, map[name := NewEntry(frequency)], map[]),
         NodeState(false, map[], map[], false, map[], map[name := NewEntry(0.0)]),
         [], [], [], [])
  }

  lemma InitialHolds(name: string, frequency: real)
    ensures Invariant(name, frequency, Initial(name, frequency))
  {
  }

  // ----- One step -----

  ghost function Ticked(name: string, s: Race, available: bool, now: int, size: nat): Race
    requires name in s.client.actionClients
  {
    var (client, goal) := GoalSent(s.client, name, available, now, size);
    s.(client := client, goals := if goal.Some? then s.goals + [goal.value] else s.goals)
  }

  ghost function Accepted(name: string, s: Race, now: int, feedbackTime: int, resultTime: int, size: nat): Race
    requires name in s.server.actionServers && |s.feedbacks| < |s.goals|
    requires ScanDefined(s.server.actionServers[name].tracker.options, s.goals[|s.feedbacks|].frequency)
  {
    var handled := GoalHandled(s.server, name, s.goals[|s.feedbacks|], now);
    var (server, feedback, result) := GoalAccepted(handled, name, feedbackTime, resultTime, size);
    s.(server := server, feedbacks := s.feedbacks + [feedback], results := s.results + [result])
  }

  ghost function Heard(name: string, s: Race, now: int): Race
    requires name in s.client.actionClients && Count(s.scanned, Feedback) < |s.feedbacks|
    requires ScanDefined(s.client.actionClients[name].tracker.options,
                         s.feedbacks[Count(s.scanned, Feedback)].frequency)
  {
    s.(client := FeedbackReceived(s.client, name, s.feedbacks[Count(s.scanned, Feedback)], now),
       scanned := s.scanned + [Feedback])
  }

  ghost function Finished(name: string, s: Race, now: int): Race
    requires name in s.client.actionClients && Count(s.scanned, Result) < |s.results|
    requires ScanDefined(s.client.actionClients[name].tracker.options, s.results[Count(s.scanned, Result)].frequency)
  {
    s.(client := ResultReceived(s.client, name, s.results[Count(s.scanned, Result)], true, now),
       scanned := s.scanned + [Result])
  }

  lemma CountNext(scanned: seq<Message>, m: Message, n: Message)
    ensures Count(scanned + [m], n) == Count(scanned, n) + if m == n then 1 else 0
  {
  }

  lemma TickKeeps(name: string, f: real, s: Race, available: bool, now: int, size: nat)
    requires Invariant(name, f, s)
    ensures Invariant(name, f, Ticked(name, s, available, now, size))
  {
    hide ToU32, Sent, OneGoalAhead, Accounted, ServerInvariant, Count;
    SuccessorModulo(|s.goals|);
  }

  lemma AcceptServer(e: Entry, accepted: nat, goal: Header, f: real, now: int)
    requires ServerInvariant(e, accepted, f) && goal.number == ToU32(accepted) && goal.frequency == f
    requires ScanDefined(e.tracker.options, goal.frequency)
    ensures var handled := e.(tracker := Scanned(e.tracker, goal, now));
            && ServerInvariant(TakeNumber(TakeNumber(handled)), accepted + 1, f)
            && handled.tracker.frequency == f
            && handled.number == NumberOf(Feedback, accepted)
            && TakeNumber(handled).number == NumberOf(Result, accepted)
  {
    hide ToU32, ToU64, Scanned, ScanDefined;
    NextInSequence(e.tracker, goal, now, accepted);
    SuccessorModulo(2 * accepted);
    SuccessorModulo(2 * accepted + 1);
  }

  lemma AcceptKeeps(name: string, f: real, s: Race, now: int, feedbackTime: int, resultTime: int, size: nat)
    requires Invariant(name, f, s) && |s.feedbacks| < |s.goals|
    requires ScanDefined(s.server.actionServers[name].tracker.options, s.goals[|s.feedbacks|].frequency)
    ensures Invariant(name, f, Accepted(name, s, now, feedbackTime, resultTime, size))
  {
    hide ToU32, Scanned, ScanDefined, ServerInvariant, ClientInvariant, OneGoalAhead, TakeNumber, NumberOf, Count;
    AcceptServer(s.server.actionServers[name], |s.feedbacks|, s.goals[|s.feedbacks|], f, now);
  }

  lemma AheadNext(scanned: seq<Message>, m: Message)
    requires OneGoalAhead(scanned)
    requires Count(scanned + [m], Feedback) <= Count(scanned + [m], Result) + 1
    ensures OneGoalAhead(scanned + [m])
  {
    hide Count;
    var more := scanned + [m];
    forall i | 0 <= i <= |more| ensures Count(more[..i], Feedback) <= Count(more[..i], Result) + 1 {
      if i <= |scanned| {
        assert more[..i] == scanned[..i];
      } else {
        assert more[..i] == more;
      }
    }
  }

  lemma ClientScans(e: Entry, goals: nat, scanned: seq<Message>, f: real, m: Message, h: Header, now: int)
    requires ClientInvariant(e, goals, scanned, f) && h.frequency == f && h.number == NumberOf(m, Count(scanned, m))
    requires ScanDefined(e.tracker.options, h.frequency)
    ensures ClientInvariant(e.(tracker := Scanned(e.tracker, h, now)), goals, scanned + [m], f)
  {
    hide ToU32, Scanned, ScanDefined, NumberOf, Count;
    var more := scanned + [m];
    assert more[..|more| - 1] == scanned;
    assert NumbersReceived(more) == NumbersReceived(scanned) + [h.number];
    AccountedNext(e.tracker, NumbersReceived(scanned), h, now);
    ScannedCounters(e.tracker, h, now);
    hide Accounted;
  }

  lemma HearKeeps(name: string, f: real, s: Race, now: int)
    requires Invariant(name, f, s) && Count(s.scanned, Feedback) < |s.feedbacks|
    requires ScanDefined(s.client.actionClients[name].tracker.options,
                         s.feedbacks[Count(s.scanned, Feedback)].frequency)
    ensures Invariant(name, f, Heard(name, s, now))
  {
    hide ToU32, Scanned, ScanDefined, ServerInvariant, ClientInvariant, OneGoalAhead, NumberOf, Count;
    CountNext(s.scanned, Feedback, Feedback);
    CountNext(s.scanned, Feedback, Result);
    AheadNext(s.scanned, Feedback);
    ClientScans(s.client.actionClients[name], |s.goals|, s.scanned, f, Feedback,
                s.feedbacks[Count(s.scanned, Feedback)], now);
  }

  lemma AheadAll(scanned: seq<Message>)
    requires OneGoalAhead(scanned)
    ensures Count(scanned, Feedback) <= Count(scanned, Result) + 1
  {
    assert scanned[..|scanned|] == scanned;
  }

  lemma FinishKeeps(name: string, f: real, s: Race, now: int)
    requires Invariant(name, f, s) && Count(s.scanned, Result) < |s.results|
    requires ScanDefined(s.client.actionClients[name].tracker.options, s.results[Count(s.scanned, Result)].frequency)
    ensures Invariant(name, f, Finished(name, s, now))
  {
    hide ToU32, Scanned, ScanDefined, ServerInvariant, ClientInvariant, OneGoalAhead, NumberOf, Count;
    CountNext(s.scanned, Result, Feedback);
    CountNext(s.scanned, Result, Result);
    AheadAll(s.scanned);
    AheadNext(s.scanned, Result);
    ClientScans(s.client.actionClients[name], |s.goals|, s.scanned, f, Result,
                s.results[Count(s.scanned, Result)], now);
  }

  lemma Ready(name: string, f: real, s: Race)
    requires Invariant(name, f, s)
    ensures s.client.actionClients[name].tracker.options == DEFAULT_OPTIONS
    ensures s.server.actionServers[name].tracker.options == DEFAULT_OPTIONS
    ensures AllAt(s.goals, f) && AllAt(s.feedbacks, f) && AllAt(s.results, f)
  {
    hide Accounted, Count, OneGoalAhead;
  }

  // ----- Whole runs -----

  /** Events that nothing is ready for change nothing. */
  ghost function Step(name: string, f: real, s: Race, e: Event): (t: Race)
    requires ScanDefined(DEFAULT_OPTIONS, f) && Invariant(name, f, s)
    ensures Invariant(name, f, t)
  {
    hide ScanDefined, Channels, ClientInvariant, ServerInvariant, Ticked, Accepted, Heard, Finished, Count;
    Ready(name, f, s);
    match e
    case Tick(available, now, size) =>
      TickKeeps(name, f, s, available, now, size);
      Ticked(name, s, available, now, size)
    case Accept(now, feedbackTime, resultTime, size) =>
      if |s.feedbacks| < |s.goals| then
        AcceptKeeps(name, f, s, now, feedbackTime, resultTime, size);
        Accepted(name, s, now, feedbackTime, resultTime, size)
      else s
    case Hear(now) =>
      if Count(s.scanned, Feedback) < |s.feedbacks| then
        HearKeeps(name, f, s, now);
        Heard(name, s, now)
      else s
    case Finish(now) =>
      if Count(s.scanned, Result) < |s.results| then
        FinishKeeps(name, f, s, now);
        Finished(name, s, now)
      else s
  }

  ghost function Run(name: string, f: real, es: seq<Event>): (s: Race)
    requires ScanDefined(DEFAULT_OPTIONS, f)
    ensures Invariant(name, f, s)
  {
    if es == [] then InitialHolds(name, f); Initial(name, f)
    else Step(name, f, Run(name, f, es[..|es| - 1]), es[|es| - 1])
  }

  // ----- When the client counts a loss -----

  /** Feedback and results in turn. */
  predicate InTurn(scanned: seq<Message>) {
    scanned == []
    || (InTurn(scanned[..|scanned| - 1])
        && scanned[|scanned| - 1] == if |scanned| % 2 == 1 then Feedback else Result)
  }

  lemma {:induction false} TurnCounts(scanned: seq<Message>)
    requires InTurn(scanned)
    ensures Count(scanned, Feedback) == (|scanned| + 1) / 2 && Count(scanned, Result) == |scanned| / 2
  {
    if scanned == [] {
    } else {
      TurnCounts(scanned[..|scanned| - 1]);
    }
  }

  /** After messages in turn, the next one carries the next number exactly when it is its turn. */
  lemma NextNumber(n: nat, m: Message)
    ensures NumberOf(m, if m == Feedback then (n + 1) / 2 else n / 2) == ToU32(n)
      <==> m == if n % 2 == 0 then Feedback else Result
  {
  }

  lemma {:induction false} InOrderExactly(scanned: seq<Message>)
    ensures InOrder(NumbersReceived(scanned)) <==> InTurn(scanned)
  {
    if scanned == [] {
    } else {
      var last := |scanned| - 1;
      var front, m, ns := scanned[..last], scanned[last], NumbersReceived(scanned);
      InOrderExactly(front);
      assert ns[..last] == NumbersReceived(front) && ns[last] == NumberOf(m, Count(front, m));
      InOrderNext(ns);
      hide ToU32, NumberOf, NumbersReceived, InOrder, Count;
      if InTurn(front) {
        TurnCounts(front);
        NextNumber(last, m);
      }
    }
  }

  lemma Fronts(scanned: seq<Message>)
    requires scanned != []
    ensures var last := |scanned| - 1;
            && (NoneOvertakes(scanned) <==>
                  && NoneOvertakes(scanned[..last])
                  && (scanned[last] == Result ==>
                        Count(scanned[..last], Feedback) > Count(scanned[..last], Result)))
            && (OneGoalAhead(scanned) ==> OneGoalAhead(scanned[..last]))
  {
    hide Count;
    var last := |scanned| - 1;
    assert forall i :: 0 <= i <= last ==> scanned[..last][..i] == scanned[..i];
    assert forall i :: 0 <= i < last ==> scanned[..last][i] == scanned[i];
  }

  lemma {:induction false} InTurnExactly(scanned: seq<Message>)
    requires OneGoalAhead(scanned)
    ensures InTurn(scanned) <==> NoneOvertakes(scanned)
  {
    if scanned == [] {
    } else {
      var front, m := scanned[..|scanned| - 1], scanned[|scanned| - 1];
      Fronts(scanned);
      InTurnExactly(front);
      AheadAll(scanned);
      assert scanned == front + [m];
      CountNext(front, m, Feedback);
      CountNext(front, m, Result);
      hide Count, NoneOvertakes, OneGoalAhead;
      if InTurn(front) {
        TurnCounts(front);
      }
    }
  }

  /** In every run in which all goals succeed: at most one goal is in flight and the lock is held exactly while
      one is, the server counts no loss, and among up to 2^32 messages the client counts none if and only
      if no result overtakes its feedback, although no message is ever lost. */
  lemma NoLossExactly(name: string, f: real, es: seq<Event>)
    requires ScanDefined(DEFAULT_OPTIONS, f)
    ensures var s := Run(name, f, es);
            && name in s.client.actionClients && name in s.server.actionServers
            && |s.goals| <= Count(s.scanned, Result) + 1
            && (s.client.actionLock <==> |s.goals| > Count(s.scanned, Result))
            && s.server.actionServers[name].tracker.lost == 0
            && s.client.actionClients[name].tracker.received == |s.scanned|
            && (|s.scanned| <= TWO32 ==>
                  (s.client.actionClients[name].tracker.lost == 0 <==> NoneOvertakes(s.scanned)))
  {
    hide Run, Count, NoneOvertakes, OneGoalAhead, InOrder, NumbersReceived, InTurn, GapSum;
    var s := Run(name, f, es);
    InOrderExactly(s.scanned);
    InTurnExactly(s.scanned);
    if |s.scanned| <= TWO32 {
      NoLossFor(s.client.actionClients[name].tracker, NumbersReceived(s.scanned));
    }
  }

  /** When the first result overtakes its feedback, the client has counted 2^32 - 1 lost messages once it has
      received both. */
  lemma OvertakenOnce(name: string, f: real, es: seq<Event>)
    requires ScanDefined(DEFAULT_OPTIONS, f) && Run(name, f, es).scanned == [Result, Feedback]
    ensures var s := Run(name, f, es);
            name in s.client.actionClients && s.client.actionClients[name].tracker.lost == TWO32 - 1
  {
    hide Run;
    var s := Run(name, f, es);
    var ns := NumbersReceived(s.scanned);
    assert [Result, Feedback][..1] == [Result] && [Result][..0] == [];
    assert Count([], Result) == 0 && Count([Result], Feedback) == 0;
    assert ns == [1, 0];
    assert ns[..1] == [1] && [1][..0] == [];
    assert GapSum([1]) == 1 && GapSum(ns) == 1 + (TWO32 - 2);
  }

  lemma RunNext(name: string, f: real, es: seq<Event>, e: Event)
    requires ScanDefined(DEFAULT_OPTIONS, f)
    ensures Run(name, f, es + [e]) == Step(name, f, Run(name, f, es), e)
  {
    assert (es + [e])[..|es + [e]| - 1] == es;
  }

  /** What has been sent, answered and received. */
  predicate At(s: Race, goals: nat, accepted: nat, scanned: seq<Message>) {
    |s.goals| == goals && |s.feedbacks| == |s.results| == accepted && s.scanned == scanned
  }

  lemma Begins(name: string, f: real)
    requires ScanDefined(DEFAULT_OPTIONS, f)
    ensures At(Run(name, f, []), 0, 0, [])
  {
  }

  lemma Sends(name: string, f: real, s: Race)
    requires ScanDefined(DEFAULT_OPTIONS, f) && Invariant(name, f, s) && At(s, 0, 0, [])
    ensures At(Step(name, f, s, Tick(true, 0, 0)), 1, 0, [])
  {
    hide ScanDefined, Channels, ClientInvariant, ServerInvariant;
  }

  lemma Accepts(name: string, f: real, s: Race)
    requires ScanDefined(DEFAULT_OPTIONS, f) && Invariant(name, f, s) && At(s, 1, 0, [])
    ensures At(Step(name, f, s, Accept(0, 0, 0, 0)), 1, 1, [])
  {
    hide ScanDefined, Scanned, Channels, ClientInvariant, ServerInvariant;
  }

  lemma Finishes(name: string, f: real, s: Race)
    requires ScanDefined(DEFAULT_OPTIONS, f) && Invariant(name, f, s) && At(s, 1, 1, [])
    ensures At(Step(name, f, s, Finish(0)), 1, 1, [Result])
  {
    hide ScanDefined, Scanned, Channels, ClientInvariant, ServerInvariant;
    assert [] + [Result] == [Result];
  }

  lemma Hears(name: string, f: real, s: Race)
    requires ScanDefined(DEFAULT_OPTIONS, f) && Invariant(name, f, s) && At(s, 1, 1, [Result])
    ensures At(Step(name, f, s, Hear(0)), 1, 1, [Result, Feedback])
  {
    hide ScanDefined, Scanned, Channels, ClientInvariant, ServerInvariant;
    assert Count([Result], Feedback) == 0 by {
      assert [Result][..0] == [];
    }
    assert [Result] + [Feedback] == [Result, Feedback];
  }

  /** One goal, whose result arrives before its feedback. */
  lemma OvertakingHappens(name: string, f: real)
    requires ScanDefined(DEFAULT_OPTIONS, f)
    ensures var s := Run(name, f, [Tick(true, 0, 0), Accept(0, 0, 0, 0), Finish(0), Hear(0)]);
            && s.scanned == [Result, Feedback]
            && name in s.client.actionClients && s.client.actionClients[name].tracker.lost == TWO32 - 1
  {
    hide Run, Step, ScanDefined, Invariant;
    var e0, e1, e2, e3 := Tick(true, 0, 0), Accept(0, 0, 0, 0), Finish(0), Hear(0);
    assert [] + [e0] == [e0] && [e0] + [e1] == [e0, e1] && [e0, e1] + [e2] == [e0, e1, e2];
    assert [e0, e1, e2] + [e3] == [e0, e1, e2, e3];
    Begins(name, f);
    RunNext(name, f, [], e0);
    Sends(name, f, Run(name, f, []));
    RunNext(name, f, [e0], e1);
    Accepts(name, f, Run(name, f, [e0]));
    RunNext(name, f, [e0, e1], e2);
    Finishes(name, f, Run(name, f, [e0, e1]));
    RunNext(name, f, [e0, e1, e2], e3);
    Hears(name, f, Run(name, f, [e0, e1, e2]));
    OvertakenOnce(name, f, [e0, e1, e2, e3]);
  }
}
