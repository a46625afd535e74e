/** Whole runs of the action goals of one node, over lossless channels that keep the order. */
module Actions {
  import opened Numbers
  import opened Tracking
  import opened Node
  import Lateness
  import Services

  /** The history of one action: goals sent, feedback and results returned by the server, how much of
      the feedback the client has heard, and which of the results it received were successes. */
  datatype Wire = Wire(
    goals: seq<Header>,
    feedbacks: seq<Header>,
    results: seq<Header>,
    heard: nat,
    outcomes: seq<bool>)

  /** `holder` names the action whose goal is in flight. */
  datatype System = System(client: NodeState, server: NodeState, wires: map<string, Wire>, holder: Option<string>)

  datatype Event =
    | Tick(name: string, available: bool, now: int, size: nat)
    | Accept(name: string, now: int, feedbackTime: int, resultTime: int, size: nat)
    | Feedback(name: string, now: int)
    | Result(name: string, succeeded: bool, now: int)

  ghost function Initial(f: map<string, real>): System {
    System(
      NodeState(false, map[], map[], false, map n | n in f :: NewEntry(f[n]), map[]),
      NodeState(false, map[], map[], false, map[], map n | n in f :: NewEntry(0.0)),
      map n | n in f :: Wire([], [], [], 0, []),
      None)
  }

  // ----- The invariant -----

  function Failures(outcomes: seq<bool>): nat {
    if outcomes == [] then 0
    else Failures(outcomes[..|outcomes| - 1]) + if outcomes[|outcomes| - 1] then 0 else 1
  }

  /** The last result was a failure and nothing has been scanned since, so its number is still missing. */
  function Unnoticed(w: Wire): nat {
    if w.heard == |w.outcomes| && w.outcomes != [] && !w.outcomes[|w.outcomes| - 1] then 1 else 0
  }

  /** How many of the server's messages the client expects to have passed. */
  function Passed(w: Wire): int {
    2 * |w.outcomes| + (if w.heard > |w.outcomes| then 1 else 0) - Unnoticed(w)
  }

  ghost predicate ClientInvariant(t: State, w: Wire, frequency: real) {
    && t.options == DEFAULT_OPTIONS && t.frequency == frequency
    && |w.outcomes| <= w.heard
    && t.expected == ToU32(Passed(w))
    && t.received + Failures(w.outcomes) == w.heard + |w.outcomes|
    && t.lost == ToU64(Failures(w.outcomes) - Unnoticed(w))
  }

  ghost predicate ServerInvariant(e: Entry, w: Wire, frequency: real) {
    && e.number == ToU32(2 * |w.feedbacks|)
    && InSequence(e.tracker, |w.feedbacks|)
    && (e.tracker.latencies != [] ==> e.tracker.frequency == frequency)
  }

  ghost predicate WireInvariant(w: Wire, frequency: real) {
    && |w.outcomes| <= w.heard <= |w.feedbacks| == |w.results| <= |w.goals| <= |w.outcomes| + 1
    && (forall k :: 0 <= k < |w.goals| ==> w.goals[k].number == ToU32(k))
    && (forall k :: 0 <= k < |w.feedbacks| ==> w.feedbacks[k].number == ToU32(2 * k))
    && (forall k :: 0 <= k < |w.results| ==> w.results[k].number == ToU32(2 * k + 1))
    && AllAt(w.goals, frequency)
    && AllAt(w.feedbacks, frequency)
    && AllAt(w.results, frequency)
  }

  ghost predicate ActionInvariant(client: Entry, server: Entry, w: Wire, frequency: real) {
    && WireInvariant(w, frequency)
    && client.number == ToU32(|w.goals|)
    && ClientInvariant(client.tracker, w, frequency)
    && ServerInvariant(server, w, frequency)
  }

  /** The number of goals of one action that are in flight. */
  function InFlight(w: Wire): int {
    |w.goals| - |w.outcomes|
  }

  ghost predicate SameActions(f: map<string, real>, s: System) {
    s.client.actionClients.Keys == s.server.actionServers.Keys == s.wires.Keys == f.Keys
  }

  ghost predicate LockInvariant(f: map<string, real>, s: System)
    requires SameActions(f, s)
  {
    && s.client.actionLock == s.holder.Some?
    && (s.holder.Some? ==> s.holder.value in f)
    && forall n :: n in f ==> InFlight(s.wires[n]) == if s.holder == Some(n) then 1 else 0
  }

  ghost predicate Invariant(f: map<string, real>, s: System) {
    && SameActions(f, s)
    && LockInvariant(f, s)
    && forall n :: n in f ==>
         ActionInvariant(s.client.actionClients[n], s.server.actionServers[n], s.wires[n], f[n])
  }

  // ----- One action -----

  lemma GoalInvariant(e: Entry, server: Entry, w: Wire, f: real, now: int, size: nat)
    requires ActionInvariant(e, server, w, f) && InFlight(w) == 0
    ensures var goal := Header(now, e.number, e.tracker.frequency, size);
            ActionInvariant(TakeNumber(e), server, w.(goals := w.goals + [goal]), f)
  {
    SuccessorModulo(|w.goals|);
    hide ToU32, ToU64, InSequence, Failures;
  }

  lemma AcceptServer(server: Entry, w: Wire, f: real, now: int, more: Wire)
    requires ServerInvariant(server, w, f) && WireInvariant(w, f) && |w.feedbacks| < |w.goals|
    requires ScanDefined(server.tracker.options, w.goals[|w.feedbacks|].frequency)
    requires |more.feedbacks| == |w.feedbacks| + 1
    ensures var handled := server.(tracker := Scanned(server.tracker, w.goals[|w.feedbacks|], now));
            && ServerInvariant(TakeNumber(TakeNumber(handled)), more, f)
            && handled.number == ToU32(2 * |w.feedbacks|)
            && TakeNumber(handled).number == ToU32(2 * |w.feedbacks| + 1)
            && handled.tracker.frequency == f
  {
    var n := |w.feedbacks|;
    NextInSequence(server.tracker, w.goals[n], now, n);
    SuccessorModulo(2 * n);
    SuccessorModulo(2 * n + 1);
    hide ToU32, ToU64, Scanned, ScanDefined;
  }

  /** What the client has received so far does not depend on what the server adds to the wire. */
  lemma ClientUnmoved(t: State, w: Wire, more: Wire, f: real)
    requires ClientInvariant(t, w, f) && more.heard == w.heard && more.outcomes == w.outcomes
    ensures ClientInvariant(t, more, f)
  {
  }

  lemma AcceptWire(w: Wire, f: real, feedback: Header, result: Header)
    requires WireInvariant(w, f) && |w.feedbacks| < |w.goals|
    requires feedback.number == ToU32(2 * |w.feedbacks|) && feedback.frequency == f
    requires result.number == ToU32(2 * |w.feedbacks| + 1) && result.frequency == f
    ensures WireInvariant(w.(feedbacks := w.feedbacks + [feedback], results := w.results + [result]), f)
  {
  }

  lemma AcceptInvariant(e: Entry, server: Entry, w: Wire, f: real, now: int, feedback: Header, result: Header)
    requires ActionInvariant(e, server, w, f) && |w.feedbacks| < |w.goals|
    requires ScanDefined(server.tracker.options, w.goals[|w.feedbacks|].frequency)
    requires var handled := server.(tracker := Scanned(server.tracker, w.goals[|w.feedbacks|], now));
             && feedback.number == handled.number && feedback.frequency == handled.tracker.frequency
             && result.number == TakeNumber(handled).number && result.frequency == handled.tracker.frequency
    ensures var handled := server.(tracker := Scanned(server.tracker, w.goals[|w.feedbacks|], now));
            ActionInvariant(e, TakeNumber(TakeNumber(handled)),
                            w.(feedbacks := w.feedbacks + [feedback], results := w.results + [result]), f)
  {
    hide WireInvariant, ServerInvariant, ClientInvariant, ToU32, Scanned, ScanDefined, TakeNumber;
    var more := w.(feedbacks := w.feedbacks + [feedback], results := w.results + [result]);
    AcceptServer(server, w, f, now, more);
    AcceptWire(w, f, feedback, result);
    ClientUnmoved(e.tracker, w, more, f);
  }

  /** Scanning number m when the messages up to `passed` are accounted for loses the ones in between. */
  lemma ScanAt(t: State, h: Header, now: int, m: nat, passed: int, lost: nat)
    requires t.options == DEFAULT_OPTIONS && ScanDefined(t.options, h.frequency)
    requires 0 <= passed <= m < passed + TWO32 && h.number == ToU32(m)
    requires t.expected == ToU32(passed) && t.lost == ToU64(lost)
    ensures var after := Scanned(t, h, now);
            && after.options == t.options && after.received == t.received + 1
            && after.expected == ToU32(m + 1) && after.lost == ToU64(lost + (m - passed))
            && (t.frequency == h.frequency ==> after.frequency == t.frequency)
  {
    ScannedCounters(t, h, now);
    GapModulo(m, passed);
    assert (m - passed) / TWO32 == 0;
    Wrapped64(lost, m - passed);
    hide Scanned, ScanDefined, ToU32, ToU64, Gap;
  }

  lemma FeedbackInvariant(e: Entry, server: Entry, w: Wire, f: real, now: int)
    requires ActionInvariant(e, server, w, f) && w.heard < |w.feedbacks| && ScanDefined(DEFAULT_OPTIONS, f)
    requires ScanDefined(e.tracker.options, w.feedbacks[w.heard].frequency)
    ensures ActionInvariant(e.(tracker := Scanned(e.tracker, w.feedbacks[w.heard], now)), server,
                            w.(heard := w.heard + 1), f)
  {
    assert w.heard == |w.outcomes|;
    FailureSeen(w.outcomes);
    ScanAt(e.tracker, w.feedbacks[w.heard], now, 2 * w.heard, Passed(w), Failures(w.outcomes) - Unnoticed(w));
    hide ToU32, ToU64, Scanned, ScanDefined, Failures, InSequence;
  }

  lemma FailureSeen(outcomes: seq<bool>)
    ensures outcomes != [] && !outcomes[|outcomes| - 1] ==> Failures(outcomes) >= 1
  {
  }

  lemma ResultInvariant(e: Entry, server: Entry, w: Wire, f: real, succeeded: bool, now: int)
    requires ActionInvariant(e, server, w, f) && |w.outcomes| < w.heard <= |w.results|
        && ScanDefined(DEFAULT_OPTIONS, f)
    requires ScanDefined(e.tracker.options, w.results[|w.outcomes|].frequency)
    ensures var t := if succeeded then Scanned(e.tracker, w.results[|w.outcomes|], now) else e.tracker;
            ActionInvariant(e.(tracker := t), server, w.(outcomes := w.outcomes + [succeeded]), f)
  {
    var k := |w.outcomes|;
    var outcomes := w.outcomes + [succeeded];
    assert outcomes[..k] == w.outcomes;
    assert Failures(outcomes) == Failures(w.outcomes) + if succeeded then 0 else 1;
    assert w.heard == k + 1 && Unnoticed(w) == 0;
    ScanAt(e.tracker, w.results[k], now, 2 * k + 1, Passed(w), Failures(w.outcomes));
    hide ToU32, ToU64, Scanned, ScanDefined, Failures, InSequence;
  }

  // ----- One step of the system -----

  /** A step of one action leaves the others alone. */
  lemma OthersKeep(f: map<string, real>, s: System, t: System, name: string)
    requires Invariant(f, s) && SameActions(f, t) && LockInvariant(f, t) && name in f
    requires ActionInvariant(t.client.actionClients[name], t.server.actionServers[name], t.wires[name], f[name])
    requires forall n :: n in f && n != name ==>
               t.client.actionClients[n] == s.client.actionClients[n]
               && t.server.actionServers[n] == s.server.actionServers[n] && t.wires[n] == s.wires[n]
    ensures Invariant(f, t)
  {
    hide ActionInvariant, LockInvariant;
  }

  lemma LockAt(f: map<string, real>, s: System, name: string)
    requires SameActions(f, s) && LockInvariant(f, s) && name in f
    ensures s.client.actionLock == s.holder.Some?
    ensures InFlight(s.wires[name]) == if s.holder == Some(name) then 1 else 0
  {
  }

  /** Only goals sent and results received move the lock. */
  lemma LockKeeps(f: map<string, real>, s: System, t: System, name: string)
    requires SameActions(f, s) && SameActions(f, t) && LockInvariant(f, s) && name in f
    requires forall n :: n in f && n != name ==> t.wires[n] == s.wires[n]
    requires t.client.actionLock == t.holder.Some?
    requires || t.holder == s.holder
             || (s.holder == None && t.holder == Some(name))
             || (s.holder == Some(name) && t.holder == None)
    requires InFlight(t.wires[name]) == if t.holder == Some(name) then 1 else 0
    ensures LockInvariant(f, t)
  {
  }

  ghost function Ticked(s: System, name: string, available: bool, now: int, size: nat): System
    requires name in s.client.actionClients && name in s.wires
  {
    var (client, goal) := GoalSent(s.client, name, available, now, size);
    var w := s.wires[name];
    if goal.None? then s.(client := client)
    else s.(client := client, wires := s.wires[name := w.(goals := w.goals + [goal.value])], holder := Some(name))
  }

  ghost function Accepted(s: System, name: string, now: int, feedbackTime: int, resultTime: int, size: nat): System
    requires name in s.server.actionServers && name in s.wires
    requires |s.wires[name].feedbacks| < |s.wires[name].goals|
    requires ScanDefined(s.server.actionServers[name].tracker.options,
                         s.wires[name].goals[|s.wires[name].feedbacks|].frequency)
  {
    var w := s.wires[name];
    var handled := GoalHandled(s.server, name, w.goals[|w.feedbacks|], now);
    var (server, feedback, result) := GoalAccepted(handled, name, feedbackTime, resultTime, size);
    s.(server := server,
       wires := s.wires[name := w.(feedbacks := w.feedbacks + [feedback], results := w.results + [result])])
  }

  ghost function FedBack(s: System, name: string, now: int): System
    requires name in s.client.actionClients && name in s.wires
    requires s.wires[name].heard < |s.wires[name].feedbacks|
    requires ScanDefined(s.client.actionClients[name].tracker.options,
                         s.wires[name].feedbacks[s.wires[name].heard].frequency)
  {
    var w := s.wires[name];
    s.(client := FeedbackReceived(s.client, name, w.feedbacks[w.heard], now),
       wires := s.wires[name := w.(heard := w.heard + 1)])
  }

  ghost function Finished(s: System, name: string, succeeded: bool, now: int): System
    requires name in s.client.actionClients && name in s.wires
    requires |s.wires[name].outcomes| < |s.wires[name].results|
    requires ScanDefined(s.client.actionClients[name].tracker.options,
                         s.wires[name].results[|s.wires[name].outcomes|].frequency)
  {
    var w := s.wires[name];
    s.(client := ResultReceived(s.client, name, w.results[|w.outcomes|], succeeded, now),
       wires := s.wires[name := w.(outcomes := w.outcomes + [succeeded])],
       holder := None)
  }

  lemma TickKeeps(f: map<string, real>, s: System, name: string, available: bool, now: int, size: nat)
    requires Invariant(f, s) && name in f
    ensures Invariant(f, Ticked(s, name, available, now, size))
  {
    hide ActionInvariant, LockInvariant, TakeNumber;
    LockAt(f, s, name);
    var e := s.client.actionClients[name];
    if !s.client.actionLock && available {
      GoalInvariant(e, s.server.actionServers[name], s.wires[name], f[name], now, size);
    }
    var t := Ticked(s, name, available, now, size);
    LockKeeps(f, s, t, name);
    OthersKeep(f, s, t, name);
  }

  lemma AcceptedParts(s: System, name: string, now: int, feedbackTime: int, resultTime: int, size: nat)
    requires name in s.server.actionServers && name in s.wires
    requires |s.wires[name].feedbacks| < |s.wires[name].goals|
    requires ScanDefined(s.server.actionServers[name].tracker.options,
                         s.wires[name].goals[|s.wires[name].feedbacks|].frequency)
    ensures var t := Accepted(s, name, now, feedbackTime, resultTime, size);
            var (w, server) := (s.wires[name], s.server.actionServers[name]);
            var handled := server.(tracker := Scanned(server.tracker, w.goals[|w.feedbacks|], now));
            var rate := handled.tracker.frequency;
            && t.client == s.client && t.holder == s.holder
            && t.server.actionServers == s.server.actionServers[name := TakeNumber(TakeNumber(handled))]
            && t.wires == s.wires[name := w.(
                 feedbacks := w.feedbacks + [Header(feedbackTime, handled.number, rate, size)],
                 results := w.results + [Header(resultTime, TakeNumber(handled).number, rate, size)])]
  {
  }

  lemma AcceptKeeps(f: map<string, real>, s: System, name: string, now: int, feedbackTime: int,
      resultTime: int, size: nat)
    requires Invariant(f, s) && name in f
    requires |s.wires[name].feedbacks| < |s.wires[name].goals|
    requires ScanDefined(s.server.actionServers[name].tracker.options,
                         s.wires[name].goals[|s.wires[name].feedbacks|].frequency)
    ensures Invariant(f, Accepted(s, name, now, feedbackTime, resultTime, size))
  {
    hide ActionInvariant, LockInvariant, TakeNumber, Scanned, ScanDefined, Accepted;
    LockAt(f, s, name);
    var w, server := s.wires[name], s.server.actionServers[name];
    var handled := server.(tracker := Scanned(server.tracker, w.goals[|w.feedbacks|], now));
    var rate := handled.tracker.frequency;
    AcceptInvariant(s.client.actionClients[name], server, w, f[name], now,
                    Header(feedbackTime, handled.number, rate, size),
                    Header(resultTime, TakeNumber(handled).number, rate, size));
    var t := Accepted(s, name, now, feedbackTime, resultTime, size);
    AcceptedParts(s, name, now, feedbackTime, resultTime, size);
    LockKeeps(f, s, t, name);
    OthersKeep(f, s, t, name);
  }

  lemma FeedbackKeeps(f: map<string, real>, s: System, name: string, now: int)
    requires Invariant(f, s) && name in f && ScanDefined(DEFAULT_OPTIONS, f[name])
    requires s.wires[name].heard < |s.wires[name].feedbacks|
    requires ScanDefined(s.client.actionClients[name].tracker.options,
                         s.wires[name].feedbacks[s.wires[name].heard].frequency)
    ensures Invariant(f, FedBack(s, name, now))
  {
    hide ActionInvariant, LockInvariant, Scanned, ScanDefined;
    LockAt(f, s, name);
    FeedbackInvariant(s.client.actionClients[name], s.server.actionServers[name], s.wires[name], f[name], now);
    var t := FedBack(s, name, now);
    LockKeeps(f, s, t, name);
    OthersKeep(f, s, t, name);
  }

  lemma ResultKeeps(f: map<string, real>, s: System, name: string, succeeded: bool, now: int)
    requires Invariant(f, s) && name in f && ScanDefined(DEFAULT_OPTIONS, f[name])
    requires |s.wires[name].outcomes| < s.wires[name].heard <= |s.wires[name].results|
    requires s.holder == Some(name)
    requires ScanDefined(s.client.actionClients[name].tracker.options,
                         s.wires[name].results[|s.wires[name].outcomes|].frequency)
    ensures Invariant(f, Finished(s, name, succeeded, now))
  {
    hide ActionInvariant, LockInvariant, Scanned, ScanDefined;
    LockAt(f, s, name);
    var e, server := s.client.actionClients[name], s.server.actionServers[name];
    ResultInvariant(e, server, s.wires[name], f[name], succeeded, now);
    var t := Finished(s, name, succeeded, now);
    LockKeeps(f, s, t, name);
    OthersKeep(f, s, t, name);
  }

  /** What is waiting at one action can be scanned, and results wait only while a goal is in flight. */
  lemma Ready(client: Entry, server: Entry, w: Wire, f: real)
    requires ActionInvariant(client, server, w, f)
    ensures |w.outcomes| <= w.heard <= |w.feedbacks| == |w.results| <= |w.goals|
    ensures client.tracker.options == server.tracker.options == DEFAULT_OPTIONS
    ensures AllAt(w.goals, f) && AllAt(w.feedbacks, f) && AllAt(w.results, f)
    ensures w.heard > |w.outcomes| ==> InFlight(w) == 1
  {
  }

  /** Events that nothing is ready for change nothing; a result is delivered after its feedback. */
  ghost function Step(f: map<string, real>, s: System, e: Event): (t: System)
    requires Services.Usable(f) && Invariant(f, s)
    ensures Invariant(f, t)
  {
    if e.name !in f then s
    else
      hide Scanned, ScanDefined, LockInvariant, ActionInvariant, Ticked, Accepted, FedBack, Finished;
      LockAt(f, s, e.name);
      Ready(s.client.actionClients[e.name], s.server.actionServers[e.name], s.wires[e.name], f[e.name]);
      match e
      case Tick(name, available, now, size) =>
        TickKeeps(f, s, name, available, now, size);
        Ticked(s, name, available, now, size)
      case Accept(name, now, feedbackTime, resultTime, size) =>
        if |s.wires[name].feedbacks| < |s.wires[name].goals| then
          AcceptKeeps(f, s, name, now, feedbackTime, resultTime, size);
          Accepted(s, name, now, feedbackTime, resultTime, size)
        else s
      case Feedback(name, now) =>
        if s.wires[name].heard < |s.wires[name].feedbacks| then
          FeedbackKeeps(f, s, name, now);
          FedBack(s, name, now)
        else s
      case Result(name, succeeded, now) =>
        if |s.wires[name].outcomes| < s.wires[name].heard then
          ResultKeeps(f, s, name, succeeded, now);
          Finished(s, name, succeeded, now)
        else s
  }

  // ----- Whole runs -----

  ghost function Run(f: map<string, real>, es: seq<Event>): (s: System)
    requires Services.Usable(f)
    ensures Invariant(f, s)
  {
    if es == [] then Initial(f) else Step(f, Run(f, es[..|es| - 1]), es[|es| - 1])
  }

  lemma RunKeeps(f: map<string, real>, es: seq<Event>, name: string)
    requires Services.Usable(f) && name in f
    ensures var s := Run(f, es);
            && SameActions(f, s)
            && ActionInvariant(s.client.actionClients[name], s.server.actionServers[name], s.wires[name], f[name])
  {
  }

  /** In every reachable state at most one goal of the node is in flight, over all its actions, and the
      lock is held exactly while one is. */
  lemma OneGoalInFlight(f: map<string, real>, es: seq<Event>)
    requires Services.Usable(f)
    ensures var s := Run(f, es);
            && s.wires.Keys == f.Keys
            && (forall n :: n in f ==> 0 <= InFlight(s.wires[n]) <= 1)
            && (forall m, n :: m in f && n in f && InFlight(s.wires[m]) == 1 && InFlight(s.wires[n]) == 1 ==> m == n)
            && (s.client.actionLock <==> exists n :: n in f && InFlight(s.wires[n]) == 1)
  {
    hide Run, ActionInvariant;
    var s := Run(f, es);
    if s.client.actionLock {
      assert InFlight(s.wires[s.holder.value]) == 1;
    }
  }

  /** The k-th goal of an action carries k, its feedback 2k and its result 2k + 1, modulo 2^32; all of
      them carry the frequency of the client. */
  ghost predicate Numbering(w: Wire, frequency: real) {
    && (forall k :: 0 <= k < |w.goals| ==> w.goals[k].number == k % TWO32)
    && (forall k :: 0 <= k < |w.feedbacks| ==> w.feedbacks[k].number == (2 * k) % TWO32)
    && (forall k :: 0 <= k < |w.results| ==> w.results[k].number == (2 * k + 1) % TWO32)
    && (forall h :: h in w.goals || h in w.feedbacks || h in w.results ==> h.frequency == frequency)
  }

  lemma NumberingHolds(client: Entry, server: Entry, w: Wire, frequency: real)
    requires ActionInvariant(client, server, w, frequency)
    ensures Numbering(w, frequency)
  {
  }

  lemma ActionNumbering(f: map<string, real>, es: seq<Event>, name: string)
    requires Services.Usable(f) && name in f
    ensures name in Run(f, es).wires && Numbering(Run(f, es).wires[name], f[name])
  {
    hide Run, ActionInvariant, Numbering;
    RunKeeps(f, es, name);
    var s := Run(f, es);
    NumberingHolds(s.client.actionClients[name], s.server.actionServers[name], s.wires[name], f[name]);
  }

  /** Once no goal of the action is in flight, the client has received one feedback per completed goal
      and one result per success. Its lost counter is the number of failed results apart from a failure
      that nothing has followed yet: zero, with two messages per goal, when all goals succeeded. The
      server has received every goal and lost none. */
  ghost predicate Settled(client: State, server: State, w: Wire) {
    var failures := Failures(w.outcomes);
    && |w.goals| == |w.outcomes| && failures >= Unnoticed(w)
    && client.received + failures == 2 * |w.outcomes|
    && client.lost == ToU64(failures - Unnoticed(w))
    && (failures == 0 ==> client.lost == 0 && client.received == 2 * |w.outcomes|)
    && server.lost == 0 && server.received == |w.goals|
  }

  lemma SettledHolds(client: Entry, server: Entry, w: Wire, frequency: real)
    requires ActionInvariant(client, server, w, frequency) && InFlight(w) == 0
    ensures Settled(client.tracker, server.tracker, w)
  {
  }

  lemma CompletedGoals(f: map<string, real>, es: seq<Event>, name: string)
    requires Services.Usable(f) && name in f
    ensures var s := Run(f, es);
            && name in s.client.actionClients && name in s.server.actionServers && name in s.wires
            && (InFlight(s.wires[name]) == 0 ==>
                  Settled(s.client.actionClients[name].tracker, s.server.actionServers[name].tracker, s.wires[name]))
  {
    hide Run, ActionInvariant, Settled;
    RunKeeps(f, es, name);
    var s := Run(f, es);
    if InFlight(s.wires[name]) == 0 {
      SettledHolds(s.client.actionClients[name], s.server.actionServers[name], s.wires[name], f[name]);
    }
  }

  lemma RunNext(f: map<string, real>, es: seq<Event>, e: Event)
    requires Services.Usable(f)
    ensures Run(f, es + [e]) == Step(f, Run(f, es), e)
  {
    assert (es + [e])[..|es + [e]| - 1] == es;
  }

  /** What one event does to the wire of its action and to the tracker of its client: a goal is stamped with the
      time of its tick, feedback and result with the two times of their making, and the client samples what it
      receives at the time it receives it. */
  ghost predicate WireStep(w: Wire, after: Wire, tracker: State, later: State, free: bool, f: real, e: Event) {
    match e
    case Tick(name, available, now, size) =>
      && later == tracker
      && after == if available && free then w.(goals := w.goals + [Header(now, ToU32(|w.goals|), f, size)]) else w
    case Accept(name, now, feedbackTime, resultTime, size) =>
      && later == tracker
      && after ==
           if |w.feedbacks| < |w.goals| then
             w.(feedbacks := w.feedbacks + [Header(feedbackTime, ToU32(2 * |w.feedbacks|), f, size)],
                results := w.results + [Header(resultTime, ToU32(2 * |w.feedbacks| + 1), f, size)])
           else w
    case Feedback(name, now) =>
      if w.heard < |w.feedbacks| then
        after == w.(heard := w.heard + 1) && SampledAt(tracker, later, w.feedbacks[w.heard], now)
      else after == w && later == tracker
    case Result(name, succeeded, now) =>
      if |w.outcomes| < w.heard <= |w.results| then
        && after == w.(outcomes := w.outcomes + [succeeded])
        && if succeeded then SampledAt(tracker, later, w.results[|w.outcomes|], now) else later == tracker
      else after == w && later == tracker
  }

  lemma ActionFacts(client: Entry, server: Entry, w: Wire, f: real)
    requires ActionInvariant(client, server, w, f)
    ensures client.number == ToU32(|w.goals|) && client.tracker.frequency == f
    ensures |w.outcomes| <= w.heard <= |w.feedbacks| == |w.results| <= |w.goals|
    ensures client.tracker.options == server.tracker.options == DEFAULT_OPTIONS
    ensures AllAt(w.goals, f) && AllAt(w.feedbacks, f) && AllAt(w.results, f)
  {
  }

  lemma AcceptFacts(client: Entry, server: Entry, w: Wire, f: real, now: int)
    requires ActionInvariant(client, server, w, f) && |w.feedbacks| < |w.goals|
    requires ScanDefined(server.tracker.options, w.goals[|w.feedbacks|].frequency)
    ensures var handled := server.(tracker := Scanned(server.tracker, w.goals[|w.feedbacks|], now));
            && handled.number == ToU32(2 * |w.feedbacks|)
            && TakeNumber(handled).number == ToU32(2 * |w.feedbacks| + 1)
            && handled.tracker.frequency == f
  {
    hide Scanned, ScanDefined, ToU32, ClientInvariant, TakeNumber;
    AcceptServer(server, w, f, now, w.(feedbacks := w.feedbacks + [w.goals[|w.feedbacks|]]));
    hide ServerInvariant, WireInvariant;
  }

  lemma WireAfter(f: map<string, real>, es: seq<Event>, e: Event)
    requires Services.Usable(f) && e.name in f
    ensures var s, t := Run(f, es), Run(f, es + [e]);
            && e.name in s.wires && e.name in t.wires
            && e.name in s.client.actionClients && e.name in t.client.actionClients
            && WireStep(s.wires[e.name], t.wires[e.name], s.client.actionClients[e.name].tracker,
                        t.client.actionClients[e.name].tracker, !s.client.actionLock, f[e.name], e)
  {
    hide Run, ActionInvariant, LockInvariant, Scanned, ScanDefined, SampledAt, ToU32;
    RunNext(f, es, e);
    RunKeeps(f, es, e.name);
    var s := Run(f, es);
    var client, server, w := s.client.actionClients[e.name], s.server.actionServers[e.name], s.wires[e.name];
    ActionFacts(client, server, w, f[e.name]);
    match e
    case Tick(_, _, _, _) =>
    case Accept(name, now, feedbackTime, resultTime, size) =>
      if |w.feedbacks| < |w.goals| {
        AcceptedParts(s, name, now, feedbackTime, resultTime, size);
        AcceptFacts(client, server, w, f[name], now);
      }
    case Feedback(name, now) =>
      if w.heard < |w.feedbacks| {
        ScanSamples(client.tracker, w.feedbacks[w.heard], now);
      }
    case Result(name, succeeded, now) =>
      if |w.outcomes| < w.heard && succeeded {
        ScanSamples(client.tracker, w.results[|w.outcomes|], now);
      }
  }

  // ----- The nodes that run -----

  /** The set-up of one action. */
  ghost predicate Fitted(s: System, name: string, frequency: real) {
    && name in s.client.actionClients && s.client.actionClients[name] == NewEntry(frequency)
    && name in s.server.actionServers && s.server.actionServers[name] == NewEntry(0.0)
    && name in s.wires && s.wires[name] == Wire([], [], [], 0, [])
  }

  /** Nothing but these actions has been set up. */
  ghost predicate OnlyActions(s: System, names: set<string>) {
    && s.client == NodeState(false, map[], map[], false, s.client.actionClients, map[])
    && s.server == NodeState(false, map[], map[], false, map[], s.server.actionServers)
    && s.client.actionClients.Keys == s.server.actionServers.Keys == s.wires.Keys == names
    && s.holder == None
  }

  lemma AllFitted(f: map<string, real>, s: System)
    requires OnlyActions(s, f.Keys) && forall n :: n in f ==> Fitted(s, n, f[n])
    ensures s == Initial(f)
  {
  }

  /** Setting up one more. */
  lemma FittedNext(s: System, t: System, names: set<string>, name: string, f: map<string, real>)
    requires OnlyActions(s, names) && name !in names && name in f
    requires t.client == s.client.(actionClients := s.client.actionClients[name := NewEntry(f[name])])
    requires t.server == s.server.(actionServers := s.server.actionServers[name := NewEntry(0.0)])
    requires t.wires == s.wires[name := Wire([], [], [], 0, [])]
    requires t.holder == s.holder
    ensures OnlyActions(t, names + {name}) && Fitted(t, name, f[name])
    ensures forall n :: n in f && n != name && Fitted(s, n, f[n]) ==> Fitted(t, n, f[n])
  {
  }

  lemma NotYet(s: System, names: set<string>, name: string)
    requires OnlyActions(s, names) && name !in names
    ensures name !in s.client.actionClients && name !in s.server.actionServers
  {
  }

  lemma NothingFitted(s: System)
    requires s.client == s.server == NodeState(false, map[], map[], false, map[], map[])
    requires s.wires == map[] && s.holder == None
    ensures OnlyActions(s, {})
  {
  }

  /** One action more on each of the two nodes. */
  method Add(client: PerformanceNode, server: PerformanceNode, name: string, period: int)
    requires client != server && period > 0 && name !in client.actionClients && name !in server.actionServers
    modifies client, server
    ensures client.Value() == old(client.Value()).(
              actionClients := old(client.actionClients)[name := NewEntry(Lateness.StoredFrequency(period) as real)])
    ensures server.Value() == old(server.Value()).(actionServers := old(server.actionServers)[name := NewEntry(0.0)])
  {
    hide NewEntry;
    NewEntryIs(Lateness.StoredFrequency(period) as real);
    client.AddPeriodicActionClient(name, period);
    server.AddActionServer(name);
  }

  /** A node with the periodic clients, and a node with the servers, of the given actions. */
  method Start(periods: map<string, int>)
    returns (client: PerformanceNode, server: PerformanceNode, wires: map<string, Wire>)
    requires Services.Positive(periods)
    ensures fresh(client) && fresh(server) && client != server
    ensures System(client.Value(), server.Value(), wires, None) == Initial(Services.StoredFrequencies(periods))
  {
    client := new PerformanceNode();
    server := new PerformanceNode();
    wires := map[];
    var rest := periods.Keys;
    ghost var f := Services.StoredFrequencies(periods);
    hide OnlyActions, Fitted, Initial, NewEntry, Lateness.StoredFrequency;
    NothingFitted(System(client.Value(), server.Value(), wires, None));
    assert periods.Keys - rest == {};
    while rest != {}
      invariant rest <= periods.Keys && fresh(client) && fresh(server) && client != server
      invariant OnlyActions(System(client.Value(), server.Value(), wires, None), periods.Keys - rest)
      invariant forall n :: n in f && n !in rest ==>
        Fitted(System(client.Value(), server.Value(), wires, None), n, f[n])
    {
      var name :| name in rest;
      ghost var before := System(client.Value(), server.Value(), wires, None);
      NotYet(before, periods.Keys - rest, name);
      Add(client, server, name, periods[name]);
      wires := wires[name := Wire([], [], [], 0, [])];
      FittedNext(before, System(client.Value(), server.Value(), wires, None), periods.Keys - rest, name, f);
      assert periods.Keys - (rest - {name}) == periods.Keys - rest + {name};
      rest := rest - {name};
    }
    assert periods.Keys - rest == f.Keys;
    AllFitted(f, System(client.Value(), server.Value(), wires, None));
  }

  /** One callback of one of the two nodes; `holder` is a history variable. */
  method Perform(f: map<string, real>, client: PerformanceNode, server: PerformanceNode, wires: map<string, Wire>,
                 ghost holder: Option<string>, e: Event) returns (after: map<string, Wire>, ghost held: Option<string>)
    requires client != server && Services.Usable(f)
    requires Invariant(f, System(client.Value(), server.Value(), wires, holder))
    modifies client, server
    ensures System(client.Value(), server.Value(), after, held)
         == Step(f, old(System(client.Value(), server.Value(), wires, holder)), e)
  {
    hide ActionInvariant, LockInvariant, ScanDefined, Scanned, CountedOnce, SameApartFrom, InSequence, TakeNumber,
      ToU32;
    after, held := wires, holder;
    if e.name !in wires {
      return;
    }
    ghost var s := System(client.Value(), server.Value(), wires, holder);
    Ready(s.client.actionClients[e.name], s.server.actionServers[e.name], s.wires[e.name], f[e.name]);
    var w := wires[e.name];
    match e
    case Tick(name, available, now, size) =>
      var goal := client.SendGoal(name, available, now, size);
      if goal.Some? {
        after := wires[name := w.(goals := w.goals + [goal.value])];
        held := Some(name);
      }
    case Accept(name, now, feedbackTime, resultTime, size) =>
      if |w.feedbacks| < |w.goals| {
        server.HandleGoal(name, w.goals[|w.feedbacks|], now);
        var feedback, result := server.HandleAccepted(name, feedbackTime, resultTime, size);
        after := wires[name := w.(feedbacks := w.feedbacks + [feedback], results := w.results + [result])];
      }
    case Feedback(name, now) =>
      if w.heard < |w.feedbacks| {
        client.HandleFeedback(name, w.feedbacks[w.heard], now);
        after := wires[name := w.(heard := w.heard + 1)];
      }
    case Result(name, succeeded, now) =>
      if |w.outcomes| < w.heard {
        client.HandleResult(name, w.results[|w.outcomes|], succeeded, now);
        after := wires[name := w.(outcomes := w.outcomes + [succeeded])];
        held := None;
      }
  }

  /** The two nodes after any sequence of callbacks are in the state of the run, so the flag of the client
      node is set exactly while one goal is in flight. */
  method Execute(f: map<string, real>, client: PerformanceNode, server: PerformanceNode, wires: map<string, Wire>,
                 es: seq<Event>) returns (after: map<string, Wire>, ghost held: Option<string>)
    requires client != server && Services.Usable(f)
    requires System(client.Value(), server.Value(), wires, None) == Initial(f)
    modifies client, server
    ensures System(client.Value(), server.Value(), after, held) == Run(f, es)
    ensures after.Keys == f.Keys
    ensures client.actionLock <==> exists n :: n in f && InFlight(after[n]) == 1
    ensures forall n :: n in f ==>
              && Numbering(after[n], f[n])
              && n in client.actionClients && n in server.actionServers
              && (InFlight(after[n]) == 0 ==>
                    Settled(client.actionClients[n].tracker, server.actionServers[n].tracker, after[n]))
  {
    hide Initial, Step, Invariant, Services.Usable, Settled, Numbering;
    after, held := wires, None;
    for i := 0 to |es|
      invariant System(client.Value(), server.Value(), after, held) == Run(f, es[..i])
    {
      assert es[..i + 1][..i] == es[..i];
      after, held := Perform(f, client, server, after, held, es[i]);
    }
    assert es[..|es|] == es;
    OneGoalInFlight(f, es);
    forall n | n in f
      ensures var s := Run(f, es);
              && n in s.wires && Numbering(s.wires[n], f[n])
              && n in s.client.actionClients && n in s.server.actionServers
              && (InFlight(s.wires[n]) == 0 ==>
                    Settled(s.client.actionClients[n].tracker, s.server.actionServers[n].tracker, s.wires[n]))
    {
      ActionNumbering(f, es, n);
      CompletedGoals(f, es, n);
    }
  }
}
