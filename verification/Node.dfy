/** The request and goal callbacks of a performance node. */
module Node {
  import opened Numbers
  import opened Tracking

  datatype Option<+T> = None | Some(value: T)

  /** A tracker stored together with the next number of its own messages. */
  datatype Entry = Entry(tracker: State, number: uint32)

  datatype NodeState = NodeState(
    clientLock: bool,
    clients: map<string, Entry>,
    servers: map<string, State>,
    actionLock: bool,
    actionClients: map<string, Entry>,
    actionServers: map<string, Entry>)

  /** A new client with its frequency; a new server has none yet. */
  function NewEntry(frequency: real): Entry {
    Entry(Fresh(DEFAULT_OPTIONS).(frequency := frequency), 0)
  }

  lemma NewEntryIs(frequency: real)
    ensures NewEntry(frequency) == Entry(Fresh(DEFAULT_OPTIONS).(frequency := frequency), 0)
    ensures NewEntry(0.0) == Entry(Fresh(DEFAULT_OPTIONS), 0)
  {
  }

  function TakeNumber(e: Entry): Entry {
    e.(number := ToU32(e.number + 1))
  }

  // ----- What the callbacks do -----

  function RequestSent(s: NodeState, name: string, available: bool, now: int, size: nat): (NodeState, Option<Header>)
    requires name in s.clients
  {
    if s.clientLock then (s, None)
    else if !available then (s.(clientLock := false), None)
    else
      var e := s.clients[name];
      (s.(clientLock := false, clients := s.clients[name := TakeNumber(e)]),
       Some(Header(now, e.number, e.tracker.frequency, size)))
  }

  /** The response is numbered by the samples the server has taken so far. */
  function RequestHandled(s: NodeState, name: string, request: Header, now: int): (NodeState, Header)
    requires name in s.servers && ScanDefined(s.servers[name].options, request.frequency)
  {
    var t := s.servers[name];
    (s.(servers := s.servers[name := Scanned(t, request, now)]),
     Header(now, ToU32(|t.latencies|), request.frequency, 0))
  }

  /** The client scans the header of its own request, not the one of the response. */
  function ResponseReceived(s: NodeState, name: string, request: Header, now: int): NodeState
    requires name in s.clients && ScanDefined(s.clients[name].tracker.options, request.frequency)
  {
    var e := s.clients[name];
    s.(clients := s.clients[name := e.(tracker := Scanned(e.tracker, request, now))])
  }

  function GoalSent(s: NodeState, name: string, available: bool, now: int, size: nat): (NodeState, Option<Header>)
    requires name in s.actionClients
  {
    if s.actionLock then (s, None)
    else if !available then (s.(actionLock := false), None)
    else
      var e := s.actionClients[name];
      (s.(actionLock := true, actionClients := s.actionClients[name := TakeNumber(e)]),
       Some(Header(now, e.number, e.tracker.frequency, size)))
  }

  function GoalHandled(s: NodeState, name: string, goal: Header, now: int): NodeState
    requires name in s.actionServers && ScanDefined(s.actionServers[name].tracker.options, goal.frequency)
  {
    var e := s.actionServers[name];
    s.(actionServers := s.actionServers[name := e.(tracker := Scanned(e.tracker, goal, now))])
  }

  /** The accepted goal is answered at once with one feedback and one result. */
  function GoalAccepted(s: NodeState, name: string, feedbackTime: int, resultTime: int, size: nat)
    : (NodeState, Header, Header)
    requires name in s.actionServers
  {
    var e := s.actionServers[name];
    var f := e.tracker.frequency;
    (s.(actionServers := s.actionServers[name := TakeNumber(TakeNumber(e))]),
     Header(feedbackTime, e.number, f, size),
     Header(resultTime, TakeNumber(e).number, f, size))
  }

  function FeedbackReceived(s: NodeState, name: string, feedback: Header, now: int): NodeState
    requires name in s.actionClients && ScanDefined(s.actionClients[name].tracker.options, feedback.frequency)
  {
    var e := s.actionClients[name];
    s.(actionClients := s.actionClients[name := e.(tracker := Scanned(e.tracker, feedback, now))])
  }

  /** Only a successful result is scanned; the lock is released either way. */
  function ResultReceived(s: NodeState, name: string, result: Header, succeeded: bool, now: int): NodeState
    requires name in s.actionClients && ScanDefined(s.actionClients[name].tracker.options, result.frequency)
  {
    var t := if succeeded then FeedbackReceived(s, name, result, now) else s;
    t.(actionLock := false)
  }

  // ----- What a caller sees -----

  /** One message more, sampled at this time; a loss exactly when its number is not the expected one; and the
      late and too late counters move by its class. */
  ghost predicate CountedOnce(before: State, after: State, h: Header, now: int) {
    && after.options == before.options
    && after.received == before.received + 1 && after.deltaReceived == before.deltaReceived + 1
    && SampledAt(before, after, h, now)
    && (before.options.enabled ==>
         && h.frequency != 0.0
         && after.expected == ToU32(h.number + 1) && (after.lost == before.lost <==> h.number == before.expected)
         && var severity := Classify(before.options, h.frequency, after.last);
            && after.late == before.late + (if severity == Late then 1 else 0)
            && after.tooLate == before.tooLate + (if severity == TooLate then 1 else 0))
    && (forall n: nat :: InSequence(before, n) && h.number == ToU32(n) ==> InSequence(after, n + 1))
  }

  lemma ScanCountsOnce(t: State, h: Header, now: int)
    requires ScanDefined(t.options, h.frequency)
    ensures CountedOnce(t, Scanned(t, h, now), h, now)
  {
    hide Gap, Threshold, ToU64, LatencyUs, Measures, Classify, SampledAt;
    ScanSamples(t, h, now);
    LastIsLatency(t, h, now);
    if t.options.enabled {
      StepBack(t, h, now);
    }
    forall n: nat | InSequence(t, n) && h.number == ToU32(n) ensures InSequence(Scanned(t, h, now), n + 1) {
      NextInSequence(t, h, now, n);
    }
    hide InSequence;
  }

  lemma SamplesBefore(before: State, after: State, h: Header, now: int)
    requires CountedOnce(before, after, h, now)
    ensures |before.latencies| == |after.latencies| - 1
    ensures forall n: nat :: InSequence(before, n) ==> |before.latencies| == n
  {
  }

  ghost predicate SameApartFrom<T>(before: map<string, T>, after: map<string, T>, name: string) {
    after.Keys == before.Keys && forall n :: n in before && n != name ==> after[n] == before[n]
  }

  // ----- The object -----

  class PerformanceNode {
    var clientLock: bool
    var clients: map<string, Entry>
    var servers: map<string, State>
    var actionLock: bool
    var actionClients: map<string, Entry>
    var actionServers: map<string, Entry>

    ghost function Value(): NodeState
      reads this
    {
      NodeState(clientLock, clients, servers, actionLock, actionClients, actionServers)
    }

    constructor ()
      ensures Value() == NodeState(false, map[], map[], false, map[], map[])
    {
      clientLock, clients, servers := false, map[], map[];
      actionLock, actionClients, actionServers := false, map[], map[];
    }

    /** Storing a name twice keeps the first entry, as `std::map::insert` does; the frequency is then set on it. */
    method AddPeriodicClient(name: string, period: int)
      requires period > 0
      modifies this
      ensures name in clients
      ensures var e := if name in old(clients) then old(clients)[name] else Entry(Fresh(DEFAULT_OPTIONS), 0);
              Value() == old(Value()).(clients :=
                old(clients)[name := e.(tracker := e.tracker.(frequency := (1000000 / period) as real))])
    {
      if name !in clients {
        clients := clients[name := Entry(Fresh(DEFAULT_OPTIONS), 0)];
      }
      var e := clients[name];
      clients := clients[name := e.(tracker := e.tracker.(frequency := (1000000 / period) as real))];
    }

    method AddServer(name: string)
      modifies this
      ensures name in servers && (name !in old(servers) ==> servers[name] == Fresh(DEFAULT_OPTIONS))
      ensures Value() == old(Value()).(servers :=
                if name in old(servers) then old(servers) else old(servers)[name := Fresh(DEFAULT_OPTIONS)])
    {
      if name !in servers {
        servers := servers[name := Fresh(DEFAULT_OPTIONS)];
      }
    }

    method AddPeriodicActionClient(name: string, period: int)
      requires period > 0
      modifies this
      ensures name in actionClients
      ensures var entry := Entry(Fresh(DEFAULT_OPTIONS), 0);
              var e := if name in old(actionClients) then old(actionClients)[name] else entry;
              Value() == old(Value()).(actionClients :=
                old(actionClients)[name := e.(tracker := e.tracker.(frequency := (1000000 / period) as real))])
    {
      if name !in actionClients {
        actionClients := actionClients[name := Entry(Fresh(DEFAULT_OPTIONS), 0)];
      }
      var e := actionClients[name];
      actionClients := actionClients[name := e.(tracker := e.tracker.(frequency := (1000000 / period) as real))];
    }

    method AddActionServer(name: string)
      modifies this
      ensures name in actionServers
      ensures name !in old(actionServers) ==> actionServers[name] == Entry(Fresh(DEFAULT_OPTIONS), 0)
      ensures Value() == old(Value()).(actionServers :=
                if name in old(actionServers) then old(actionServers)
                else old(actionServers)[name := Entry(Fresh(DEFAULT_OPTIONS), 0)])
    {
      if name !in actionServers {
        actionServers := actionServers[name := Entry(Fresh(DEFAULT_OPTIONS), 0)];
      }
    }

    method SendRequest(name: string, available: bool, now: int, size: nat) returns (request: Option<Header>)
      requires name in clients
      modifies this
      ensures (Value(), request) == RequestSent(old(Value()), name, available, now, size)
      ensures request.Some? <==> available && !old(clientLock)
      ensures request.None? ==> Value() == old(Value())
      ensures request.Some? ==>
                && Value() == old(Value()).(clients := clients) && SameApartFrom(old(clients), clients, name)
                && clients[name].tracker == old(clients)[name].tracker
                && request.value.stamp == now && request.value.frequency == clients[name].tracker.frequency
                && request.value.number == old(clients)[name].number && request.value.size == size
                && clients[name].number == ToU32(request.value.number + 1)
    {
      if clientLock {
        return None;
      }
      clientLock := true;
      if !available {
        clientLock := false;
        return None;
      }
      var e := clients[name];
      request := Some(Header(now, e.number, e.tracker.frequency, size));
      clients := clients[name := e.(number := ToU32(e.number + 1))];
      clientLock := false;
    }

    method HandleRequest(name: string, request: Header, now: int) returns (response: Header)
      requires name in servers && ScanDefined(servers[name].options, request.frequency)
      modifies this
      ensures (Value(), response) == RequestHandled(old(Value()), name, request, now)
      ensures Value() == old(Value()).(servers := servers) && SameApartFrom(old(servers), servers, name)
      ensures CountedOnce(old(servers)[name], servers[name], request, now)
      ensures response.stamp == now && response.frequency == request.frequency && response.size == 0
      ensures response.number == ToU32(|servers[name].latencies| - 1)
      ensures forall n: nat :: InSequence(old(servers)[name], n) && request.number == ToU32(n) ==>
                response.number == request.number
    {
      hide Scanned, ScanDefined, CountedOnce, ToU32;
      var t := servers[name];
      response := Header(now, ToU32(|t.latencies|), request.frequency, 0);
      servers := servers[name := Scanned(t, request, response.stamp)];
      ScanCountsOnce(t, request, now);
      SamplesBefore(t, servers[name], request, now);
    }

    method HandleResponse(name: string, request: Header, response: Header, now: int)
      requires name in clients && ScanDefined(clients[name].tracker.options, request.frequency)
      modifies this
      ensures Value() == ResponseReceived(old(Value()), name, request, now)
      ensures Value() == old(Value()).(clients := clients) && SameApartFrom(old(clients), clients, name)
      ensures CountedOnce(old(clients)[name].tracker, clients[name].tracker, request, now)
      ensures clients[name].number == old(clients)[name].number
    {
      hide Scanned, ScanDefined, CountedOnce;
      var e := clients[name];
      clients := clients[name := e.(tracker := Scanned(e.tracker, request, now))];
      ScanCountsOnce(e.tracker, request, now);
    }

    method SendGoal(name: string, available: bool, now: int, size: nat) returns (goal: Option<Header>)
      requires name in actionClients
      modifies this
      ensures (Value(), goal) == GoalSent(old(Value()), name, available, now, size)
      ensures goal.Some? <==> available && !old(actionLock)
      ensures goal.None? ==> Value() == old(Value())
      ensures goal.Some? ==>
                && Value() == old(Value()).(actionClients := actionClients, actionLock := true)
                && SameApartFrom(old(actionClients), actionClients, name)
                && actionClients[name].tracker == old(actionClients)[name].tracker
                && goal.value.stamp == now && goal.value.frequency == actionClients[name].tracker.frequency
                && goal.value.number == old(actionClients)[name].number && goal.value.size == size
                && actionClients[name].number == ToU32(goal.value.number + 1)
    {
      if actionLock {
        return None;
      }
      actionLock := true;
      var e := actionClients[name];
      if !available {
        actionLock := false;
        return None;
      }
      goal := Some(Header(now, e.number, e.tracker.frequency, size));
      actionClients := actionClients[name := e.(number := ToU32(e.number + 1))];
    }

    method HandleGoal(name: string, goal: Header, now: int)
      requires name in actionServers && ScanDefined(actionServers[name].tracker.options, goal.frequency)
      modifies this
      ensures Value() == GoalHandled(old(Value()), name, goal, now)
      ensures Value() == old(Value()).(actionServers := actionServers)
      ensures SameApartFrom(old(actionServers), actionServers, name)
      ensures CountedOnce(old(actionServers)[name].tracker, actionServers[name].tracker, goal, now)
      ensures actionServers[name].number == old(actionServers)[name].number
    {
      hide Scanned, ScanDefined, CountedOnce;
      var e := actionServers[name];
      actionServers := actionServers[name := e.(tracker := Scanned(e.tracker, goal, now))];
      ScanCountsOnce(e.tracker, goal, now);
    }

    method HandleAccepted(name: string, feedbackTime: int, resultTime: int, size: nat)
      returns (feedback: Header, result: Header)
      requires name in actionServers
      modifies this
      ensures (Value(), feedback, result) == GoalAccepted(old(Value()), name, feedbackTime, resultTime, size)
      ensures Value() == old(Value()).(actionServers := actionServers)
      ensures SameApartFrom(old(actionServers), actionServers, name)
      ensures actionServers[name].tracker == old(actionServers)[name].tracker
      ensures feedback.frequency == result.frequency == actionServers[name].tracker.frequency
      ensures feedback.stamp == feedbackTime && result.stamp == resultTime && feedback.size == result.size == size
      ensures forall n: nat :: old(actionServers)[name].number == ToU32(n) ==>
                && feedback.number == ToU32(n) && result.number == ToU32(n + 1)
                && actionServers[name].number == ToU32(n + 2)
    {
      var e := actionServers[name];
      feedback := Header(feedbackTime, e.number, e.tracker.frequency, size);
      e := e.(number := ToU32(e.number + 1));
      result := Header(resultTime, e.number, e.tracker.frequency, size);
      e := e.(number := ToU32(e.number + 1));
      actionServers := actionServers[name := e];
      forall n: nat | feedback.number == ToU32(n) ensures result.number == ToU32(n + 1) && e.number == ToU32(n + 2) {
        SuccessorModulo(n);
        SuccessorModulo(n + 1);
      }
    }

    method HandleFeedback(name: string, feedback: Header, now: int)
      requires name in actionClients && ScanDefined(actionClients[name].tracker.options, feedback.frequency)
      modifies this
      ensures Value() == FeedbackReceived(old(Value()), name, feedback, now)
      ensures Value() == old(Value()).(actionClients := actionClients)
      ensures SameApartFrom(old(actionClients), actionClients, name)
      ensures CountedOnce(old(actionClients)[name].tracker, actionClients[name].tracker, feedback, now)
      ensures actionClients[name].number == old(actionClients)[name].number
    {
      hide Scanned, ScanDefined, CountedOnce;
      var e := actionClients[name];
      actionClients := actionClients[name := e.(tracker := Scanned(e.tracker, feedback, now))];
      ScanCountsOnce(e.tracker, feedback, now);
    }

    method HandleResult(name: string, result: Header, succeeded: bool, now: int)
      requires name in actionClients && ScanDefined(actionClients[name].tracker.options, result.frequency)
      modifies this
      ensures Value() == ResultReceived(old(Value()), name, result, succeeded, now)
      ensures Value() == old(Value()).(actionClients := actionClients, actionLock := false)
      ensures SameApartFrom(old(actionClients), actionClients, name)
      ensures actionClients[name].number == old(actionClients)[name].number
      ensures if succeeded then CountedOnce(old(actionClients)[name].tracker, actionClients[name].tracker, result, now)
              else actionClients == old(actionClients)
    {
      hide Scanned, ScanDefined, CountedOnce;
      if succeeded {
        var e := actionClients[name];
        actionClients := actionClients[name := e.(tracker := Scanned(e.tracker, result, now))];
        ScanCountsOnce(e.tracker, result, now);
      }
      actionLock := false;
    }
  }
}
