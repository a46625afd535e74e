/** Whole runs of a client node and the nodes serving it, over lossless channels that keep the order. */
module Services {
  import opened Numbers
  import opened Tracking
  import opened Node
  import Lateness

  /** The history of one service: all requests sent, all responses returned, and the times at which
      the client has handled responses. The requests after the last answered one are still waiting. */
  datatype Wire = Wire(requested: seq<Header>, answered: seq<Header>, handled: seq<int>)

  /** Each service is called by one client entry; `server` holds the trackers of all serving nodes. */
  datatype System = System(client: NodeState, server: NodeState, wires: map<string, Wire>)

  datatype Event =
    | Tick(name: string, available: bool, now: int, size: nat)
    | Serve(name: string, now: int)
    | Respond(name: string, now: int)

  /** The frequencies stored for the periodic clients. */
  ghost predicate Usable(f: map<string, real>) {
    forall n :: n in f ==> ScanDefined(DEFAULT_OPTIONS, f[n])
  }

  predicate Positive(periods: map<string, int>) {
    forall n :: n in periods ==> periods[n] > 0
  }

  function StoredFrequencies(periods: map<string, int>): (f: map<string, real>)
    requires Positive(periods)
    ensures f.Keys == periods.Keys
  {
    map n | n in periods :: Lateness.StoredFrequency(periods[n]) as real
  }

  /** What the periodic clients store lets the trackers compute their thresholds exactly when no period
      exceeds one second. */
  lemma PeriodicClientsUsable(periods: map<string, int>)
    requires Positive(periods)
    ensures Usable(StoredFrequencies(periods)) <==> forall n :: n in periods ==> periods[n] <= 1000000
  {
    hide ScanDefined, Lateness.StoredFrequency;
    var f := StoredFrequencies(periods);
    forall n | n in periods ensures n in f && (ScanDefined(DEFAULT_OPTIONS, f[n]) <==> periods[n] <= 1000000) {
      Lateness.ClientThresholdsDefined(periods[n]);
    }
  }

  ghost function Initial(f: map<string, real>): System {
    System(
      NodeState(false, map n | n in f :: NewEntry(f[n]), map[], false, map[], map[]),
      NodeState(false, map[], map n | n in f :: Fresh(DEFAULT_OPTIONS), false, map[], map[]),
      map n | n in f :: Wire([], [], []))
  }

  function Stamps(hs: seq<Header>): (times: seq<int>)
    ensures |times| == |hs| && forall k :: 0 <= k < |hs| ==> times[k] == hs[k].stamp
  {
    seq(|hs|, k requires 0 <= k < |hs| => hs[k].stamp)
  }

  /** The k-th sample is the whole microseconds from the stamp of the k-th request to the k-th time. */
  ghost predicate Timed(samples: seq<uint64>, times: seq<int>, requests: seq<Header>) {
    && |samples| == |times| <= |requests|
    && forall k :: 0 <= k < |samples| ==> Measures(samples[k], times[k], requests[k].stamp)
  }

  lemma TimedNext(before: State, after: State, times: seq<int>, requests: seq<Header>, now: int)
    requires Timed(before.latencies, times, requests) && |times| < |requests|
    requires SampledAt(before, after, requests[|times|], now)
    ensures Timed(after.latencies, times + [now], requests)
  {
    hide Measures;
    assert forall k :: 0 <= k < |times| ==> after.latencies[..|times|][k] == after.latencies[k];
  }

  ghost predicate ServiceInvariant(e: Entry, t: State, w: Wire, frequency: real) {
    && |w.handled| <= |w.answered| <= |w.requested|
    && Consecutive(w.requested) && Consecutive(w.answered)
    && AllAt(w.requested, frequency)
    && e.number == ToU32(|w.requested|)
    && e.tracker.frequency == frequency
    && InSequence(e.tracker, |w.handled|)
    && InSequence(t, |w.answered|)
    && Timed(e.tracker.latencies, w.handled, w.requested)
    && Timed(t.latencies, Stamps(w.answered), w.requested)
  }

  /** The lock is free between callbacks, and every service is in its own invariant. */
  ghost predicate Invariant(f: map<string, real>, s: System) {
    && !s.client.clientLock
    && s.client.clients.Keys == s.server.servers.Keys == s.wires.Keys == f.Keys
    && forall n :: n in f ==> ServiceInvariant(s.client.clients[n], s.server.servers[n], s.wires[n], f[n])
  }

  // ----- One step -----

  ghost function Requested(s: System, name: string, available: bool, now: int, size: nat): System
    requires name in s.client.clients && name in s.wires
  {
    var (client, request) := RequestSent(s.client, name, available, now, size);
    var w := s.wires[name];
    System(client, s.server,
           if request.None? then s.wires
           else s.wires[name := w.(requested := w.requested + [request.value])])
  }

  ghost function Served(s: System, name: string, now: int): System
    requires name in s.server.servers && name in s.wires
    requires |s.wires[name].answered| < |s.wires[name].requested|
    requires ScanDefined(s.server.servers[name].options, s.wires[name].requested[|s.wires[name].answered|].frequency)
  {
    var w := s.wires[name];
    var (server, response) := RequestHandled(s.server, name, w.requested[|w.answered|], now);
    System(s.client, server, s.wires[name := w.(answered := w.answered + [response])])
  }

  ghost function Responded(s: System, name: string, now: int): System
    requires name in s.client.clients && name in s.wires
    requires |s.wires[name].handled| < |s.wires[name].requested|
    requires ScanDefined(s.client.clients[name].tracker.options,
        s.wires[name].requested[|s.wires[name].handled|].frequency)
  {
    var w := s.wires[name];
    System(ResponseReceived(s.client, name, w.requested[|w.handled|], now), s.server,
           s.wires[name := w.(handled := w.handled + [now])])
  }

  lemma RequestedInvariant(e: Entry, t: State, w: Wire, f: real, now: int, size: nat)
    requires ServiceInvariant(e, t, w, f)
    ensures var request := Header(now, e.number, e.tracker.frequency, size);
            ServiceInvariant(TakeNumber(e), t, w.(requested := w.requested + [request]), f)
  {
    SuccessorModulo(|w.requested|);
    hide ToU32, InSequence, Measures;
  }

  lemma ServedInvariant(e: Entry, t: State, w: Wire, f: real, response: Header, now: int)
    requires ServiceInvariant(e, t, w, f) && |w.answered| < |w.requested| && ScanDefined(DEFAULT_OPTIONS, f)
    requires response.number == ToU32(|t.latencies|) && response.stamp == now
    requires ScanDefined(t.options, w.requested[|w.answered|].frequency)
    ensures ServiceInvariant(e, Scanned(t, w.requested[|w.answered|], now), w.(answered := w.answered + [response]), f)
  {
    hide ToU32, Scanned, ScanDefined, Timed, SampledAt;
    var request := w.requested[|w.answered|];
    NextInSequence(t, request, now, |w.answered|);
    ScanSamples(t, request, now);
    TimedNext(t, Scanned(t, request, now), Stamps(w.answered), w.requested, now);
    assert Stamps(w.answered + [response]) == Stamps(w.answered) + [now];
    assert response.number == ToU32(|w.answered|);
    hide InSequence;
  }

  lemma RespondedInvariant(e: Entry, t: State, w: Wire, f: real, now: int)
    requires ServiceInvariant(e, t, w, f) && ScanDefined(DEFAULT_OPTIONS, f)
    requires |w.handled| < |w.answered| <= |w.requested|
    requires ScanDefined(e.tracker.options, w.requested[|w.handled|].frequency)
    ensures ServiceInvariant(e.(tracker := Scanned(e.tracker, w.requested[|w.handled|], now)), t,
                             w.(handled := w.handled + [now]), f)
  {
    hide ToU32, Scanned, ScanDefined, Timed, SampledAt, Stamps;
    var request := w.requested[|w.handled|];
    NextInSequence(e.tracker, request, now, |w.handled|);
    ScanSamples(e.tracker, request, now);
    TimedNext(e.tracker, Scanned(e.tracker, request, now), w.handled, w.requested, now);
    hide InSequence;
  }

  /** A step of one service leaves the others alone. */
  lemma OthersKeep(f: map<string, real>, s: System, t: System, name: string)
    requires Invariant(f, s) && name in f && !t.client.clientLock
    requires t.client.clients.Keys == t.server.servers.Keys == t.wires.Keys == f.Keys
    requires ServiceInvariant(t.client.clients[name], t.server.servers[name], t.wires[name], f[name])
    requires forall n :: n in f && n != name ==>
               t.client.clients[n] == s.client.clients[n] && t.server.servers[n] == s.server.servers[n]
               && t.wires[n] == s.wires[n]
    ensures Invariant(f, t)
  {
  }

  lemma TickKeeps(f: map<string, real>, s: System, name: string, available: bool, now: int, size: nat)
    requires Invariant(f, s) && name in f
    ensures Invariant(f, Requested(s, name, available, now, size))
  {
    hide ServiceInvariant, TakeNumber, Scanned, ScanDefined, ToU32;
    var e, t, w := s.client.clients[name], s.server.servers[name], s.wires[name];
    assert ServiceInvariant(e, t, w, f[name]);
    RequestedInvariant(e, t, w, f[name], now, size);
    OthersKeep(f, s, Requested(s, name, available, now, size), name);
  }

  lemma ServeKeeps(f: map<string, real>, s: System, name: string, now: int)
    requires Invariant(f, s) && Usable(f) && name in f && |s.wires[name].answered| < |s.wires[name].requested|
    requires ScanDefined(s.server.servers[name].options, s.wires[name].requested[|s.wires[name].answered|].frequency)
    ensures Invariant(f, Served(s, name, now))
  {
    hide ServiceInvariant, TakeNumber, Scanned, ScanDefined, ToU32;
    var e, t, w := s.client.clients[name], s.server.servers[name], s.wires[name];
    assert ServiceInvariant(e, t, w, f[name]);
    var response := Header(now, ToU32(|t.latencies|), w.requested[|w.answered|].frequency, 0);
    ServedInvariant(e, t, w, f[name], response, now);
    OthersKeep(f, s, Served(s, name, now), name);
  }

  lemma RespondKeeps(f: map<string, real>, s: System, name: string, now: int)
    requires Invariant(f, s) && Usable(f) && name in f
    requires |s.wires[name].handled| < |s.wires[name].answered| <= |s.wires[name].requested|
    requires ScanDefined(s.client.clients[name].tracker.options,
        s.wires[name].requested[|s.wires[name].handled|].frequency)
    ensures Invariant(f, Responded(s, name, now))
  {
    hide ServiceInvariant, TakeNumber, Scanned, ScanDefined, ToU32;
    var e, t, w := s.client.clients[name], s.server.servers[name], s.wires[name];
    assert ServiceInvariant(e, t, w, f[name]);
    RespondedInvariant(e, t, w, f[name], now);
    OthersKeep(f, s, Responded(s, name, now), name);
  }

  /** What is waiting at one service can be scanned. */
  lemma Ready(e: Entry, t: State, w: Wire, f: real)
    requires ServiceInvariant(e, t, w, f) && ScanDefined(DEFAULT_OPTIONS, f)
    ensures e.tracker.options == t.options == DEFAULT_OPTIONS
    ensures |w.handled| <= |w.answered| <= |w.requested| && AllAt(w.requested, f)
  {
    hide ScanDefined;
  }

  /** Events that nothing is ready for change nothing. */
  ghost function Step(f: map<string, real>, s: System, e: Event): (t: System)
    requires Usable(f) && Invariant(f, s)
    ensures Invariant(f, t)
  {
    if e.name !in f then s
    else
      assert ServiceInvariant(s.client.clients[e.name], s.server.servers[e.name], s.wires[e.name], f[e.name]);
      match e
      case Tick(name, available, now, size) =>
        TickKeeps(f, s, name, available, now, size);
        Requested(s, name, available, now, size)
      case Serve(name, now) =>
        if |s.wires[name].answered| < |s.wires[name].requested| then
          ServeKeeps(f, s, name, now);
          Served(s, name, now)
        else s
      case Respond(name, now) =>
        if |s.wires[name].handled| < |s.wires[name].answered| then
          RespondKeeps(f, s, name, now);
          Responded(s, name, now)
        else s
  }

  // ----- Whole runs -----

  ghost function Run(f: map<string, real>, es: seq<Event>): (s: System)
    requires Usable(f)
    ensures Invariant(f, s)
  {
    if es == [] then Initial(f) else Step(f, Run(f, es[..|es| - 1]), es[|es| - 1])
  }

  /** In every run, for every service: the requests carry 0, 1, 2, ... modulo 2^32 with no gap, whether
      or not timer ticks found the service unavailable; the k-th response header carries k; the client
      and the server have each received exactly what reached them; neither ever counts a loss; and the k-th
      sample of the client is the time of the k-th response less the stamp of the k-th request, and that of the
      server the stamp of the k-th response less it. */
  lemma ServiceProtocol(f: map<string, real>, es: seq<Event>, name: string)
    requires Usable(f) && name in f
    ensures var s := Run(f, es);
            && name in s.wires && name in s.client.clients && name in s.server.servers
            && (forall k :: 0 <= k < |s.wires[name].requested| ==> s.wires[name].requested[k].number == k % TWO32)
            && (forall k :: 0 <= k < |s.wires[name].answered| ==> s.wires[name].answered[k].number == k % TWO32)
            && s.server.servers[name].received == |s.wires[name].answered|
            && s.client.clients[name].tracker.received == |s.wires[name].handled|
            && s.server.servers[name].lost == 0 && s.client.clients[name].tracker.lost == 0
            && Timed(s.client.clients[name].tracker.latencies, s.wires[name].handled, s.wires[name].requested)
            && Timed(s.server.servers[name].latencies, Stamps(s.wires[name].answered), s.wires[name].requested)
            && !s.client.clientLock
  {
    var s := Run(f, es);
    assert ServiceInvariant(s.client.clients[name], s.server.servers[name], s.wires[name], f[name]);
  }

  lemma RunNext(f: map<string, real>, es: seq<Event>, e: Event)
    requires Usable(f)
    ensures Run(f, es + [e]) == Step(f, Run(f, es), e)
  {
    assert (es + [e])[..|es + [e]| - 1] == es;
  }

  /** What one event does to the wire of its service: an available tick sends a request stamped with its time and
      the stored frequency, serving answers at its time, and a response is handled at its time. */
  ghost predicate WireStep(w: Wire, after: Wire, f: real, e: Event) {
    match e
    case Tick(name, available, now, size) =>
      after == if available then w.(requested := w.requested + [Header(now, ToU32(|w.requested|), f, size)]) else w
    case Serve(name, now) =>
      after == if |w.answered| < |w.requested| then
                 w.(answered := w.answered + [Header(now, ToU32(|w.answered|), f, 0)])
               else w
    case Respond(name, now) =>
      after == if |w.handled| < |w.answered| then w.(handled := w.handled + [now]) else w
  }

  /** The messages and times on the wires are those of the events. */
  lemma WireAfter(f: map<string, real>, es: seq<Event>, e: Event)
    requires Usable(f) && e.name in f
    ensures var s, t := Run(f, es), Run(f, es + [e]);
            e.name in s.wires && e.name in t.wires && WireStep(s.wires[e.name], t.wires[e.name], f[e.name], e)
  {
    hide Run, ServiceInvariant, Scanned, ScanDefined, ToU32;
    RunNext(f, es, e);
    var s := Run(f, es);
    ServiceFacts(s.client.clients[e.name], s.server.servers[e.name], s.wires[e.name], f[e.name]);
  }

  lemma ServiceFacts(e: Entry, t: State, w: Wire, f: real)
    requires ServiceInvariant(e, t, w, f)
    ensures e.number == ToU32(|w.requested|) && e.tracker.frequency == f
    ensures |t.latencies| == |w.answered| && AllAt(w.requested, f)
  {
  }

  /** A tick on a service that is not available leaves no trace at all. */
  lemma UnavailableTick(f: map<string, real>, es: seq<Event>, name: string, now: int, size: nat)
    requires Usable(f)
    ensures Run(f, es + [Tick(name, false, now, size)]) == Run(f, es)
  {
    hide ServiceInvariant, Usable;
    var e := Tick(name, false, now, size);
    assert (es + [e])[..|es + [e]| - 1] == es;
  }

  // ----- The nodes that run -----

  /** The set-up of one service. */
  ghost predicate Fitted(s: System, name: string, frequency: real) {
    && name in s.client.clients && s.client.clients[name] == NewEntry(frequency)
    && name in s.server.servers && s.server.servers[name] == Fresh(DEFAULT_OPTIONS)
    && name in s.wires && s.wires[name] == Wire([], [], [])
  }

  /** Nothing but these services has been set up. */
  ghost predicate OnlyServices(s: System, names: set<string>) {
    && s.client == NodeState(false, s.client.clients, map[], false, map[], map[])
    && s.server == NodeState(false, map[], s.server.servers, false, map[], map[])
    && s.client.clients.Keys == s.server.servers.Keys == s.wires.Keys == names
  }

  lemma AllFitted(f: map<string, real>, s: System)
    requires OnlyServices(s, f.Keys) && forall n :: n in f ==> Fitted(s, n, f[n])
    ensures s == Initial(f)
  {
  }

  /** Setting up one more. */
  lemma FittedNext(s: System, t: System, names: set<string>, name: string, f: map<string, real>)
    requires OnlyServices(s, names) && name !in names && name in f
    requires t.client == s.client.(clients := s.client.clients[name := NewEntry(f[name])])
    requires t.server == s.server.(servers := s.server.servers[name := Fresh(DEFAULT_OPTIONS)])
    requires t.wires == s.wires[name := Wire([], [], [])]
    ensures OnlyServices(t, names + {name}) && Fitted(t, name, f[name])
    ensures forall n :: n in f && n != name && Fitted(s, n, f[n]) ==> Fitted(t, n, f[n])
  {
  }

  lemma NotYet(s: System, names: set<string>, name: string)
    requires OnlyServices(s, names) && name !in names
    ensures name !in s.client.clients && name !in s.server.servers
  {
  }

  lemma NothingFitted(s: System)
    requires s.client == s.server == NodeState(false, map[], map[], false, map[], map[]) && s.wires == map[]
    ensures OnlyServices(s, {})
  {
  }

  /** One service more on each of the two nodes. */
  method Add(client: PerformanceNode, server: PerformanceNode, name: string, period: int)
    requires client != server && period > 0 && name !in client.clients && name !in server.servers
    modifies client, server
    ensures client.Value() == old(client.Value()).(
              clients := old(client.clients)[name := NewEntry(Lateness.StoredFrequency(period) as real)])
    ensures server.Value() == old(server.Value()).(servers := old(server.servers)[name := Fresh(DEFAULT_OPTIONS)])
  {
    hide NewEntry;
    NewEntryIs(Lateness.StoredFrequency(period) as real);
    client.AddPeriodicClient(name, period);
    server.AddServer(name);
  }

  /** A node with the periodic clients, and a node with the servers, of the given services. */
  method Start(periods: map<string, int>)
    returns (client: PerformanceNode, server: PerformanceNode, wires: map<string, Wire>)
    requires Positive(periods)
    ensures fresh(client) && fresh(server) && client != server
    ensures System(client.Value(), server.Value(), wires) == Initial(StoredFrequencies(periods))
  {
    client := new PerformanceNode();
    server := new PerformanceNode();
    wires := map[];
    var rest := periods.Keys;
    ghost var f := StoredFrequencies(periods);
    hide OnlyServices, Fitted, Initial, NewEntry, Lateness.StoredFrequency;
    NothingFitted(System(client.Value(), server.Value(), wires));
    assert periods.Keys - rest == {};
    while rest != {}
      invariant rest <= periods.Keys && fresh(client) && fresh(server) && client != server
      invariant OnlyServices(System(client.Value(), server.Value(), wires), periods.Keys - rest)
      invariant forall n :: n in f && n !in rest ==> Fitted(System(client.Value(), server.Value(), wires), n, f[n])
    {
      var name :| name in rest;
      ghost var before := System(client.Value(), server.Value(), wires);
      NotYet(before, periods.Keys - rest, name);
      Add(client, server, name, periods[name]);
      wires := wires[name := Wire([], [], [])];
      FittedNext(before, System(client.Value(), server.Value(), wires), periods.Keys - rest, name, f);
      assert periods.Keys - (rest - {name}) == periods.Keys - rest + {name};
      rest := rest - {name};
    }
    assert periods.Keys - rest == f.Keys;
    AllFitted(f, System(client.Value(), server.Value(), wires));
  }

  /** One callback of one of the two nodes. */
  method Perform(f: map<string, real>, client: PerformanceNode, server: PerformanceNode, wires: map<string, Wire>,
                 e: Event) returns (after: map<string, Wire>)
    requires client != server && Usable(f) && Invariant(f, System(client.Value(), server.Value(), wires))
    modifies client, server
    ensures System(client.Value(), server.Value(), after)
         == Step(f, old(System(client.Value(), server.Value(), wires)), e)
  {
    hide ServiceInvariant, ScanDefined, Scanned, RequestSent, RequestHandled, ResponseReceived, CountedOnce,
      SameApartFrom;
    after := wires;
    if e.name !in wires {
      return;
    }
    ghost var s := System(client.Value(), server.Value(), wires);
    Ready(s.client.clients[e.name], s.server.servers[e.name], s.wires[e.name], f[e.name]);
    var w := wires[e.name];
    match e
    case Tick(name, available, now, size) =>
      var request := client.SendRequest(name, available, now, size);
      if request.Some? {
        after := wires[name := w.(requested := w.requested + [request.value])];
      }
    case Serve(name, now) =>
      if |w.answered| < |w.requested| {
        var response := server.HandleRequest(name, w.requested[|w.answered|], now);
        after := wires[name := w.(answered := w.answered + [response])];
      }
    case Respond(name, now) =>
      if |w.handled| < |w.answered| {
        client.HandleResponse(name, w.requested[|w.handled|], w.answered[|w.handled|], now);
        after := wires[name := w.(handled := w.handled + [now])];
      }
  }

  /** The two nodes after any sequence of callbacks are in the state of the run. */
  method Execute(f: map<string, real>, client: PerformanceNode, server: PerformanceNode, wires: map<string, Wire>,
                 es: seq<Event>) returns (after: map<string, Wire>)
    requires client != server && Usable(f) && System(client.Value(), server.Value(), wires) == Initial(f)
    modifies client, server
    ensures System(client.Value(), server.Value(), after) == Run(f, es)
    ensures forall n :: n in f ==>
              && n in client.clients && n in server.servers && n in after
              && server.servers[n].received == |after[n].answered| && server.servers[n].lost == 0
              && client.clients[n].tracker.received == |after[n].handled| && client.clients[n].tracker.lost == 0
  {
    hide Initial, Step, Invariant, Usable, ServiceInvariant;
    after := wires;
    for i := 0 to |es|
      invariant System(client.Value(), server.Value(), after) == Run(f, es[..i])
    {
      assert es[..i + 1][..i] == es[..i];
      after := Perform(f, client, server, after, es[i]);
    }
    assert es[..|es|] == es;
    forall n | n in f
      ensures var s := Run(f, es);
              && n in s.wires && n in s.client.clients && n in s.server.servers
              && s.server.servers[n].received == |s.wires[n].answered| && s.server.servers[n].lost == 0
              && s.client.clients[n].tracker.received == |s.wires[n].handled|
              && s.client.clients[n].tracker.lost == 0
    {
      ServiceProtocol(f, es, n);
    }
  }
}
