/** Several client nodes of one service: the requests of all of them meet in the one tracker of the server. */
module Sharing {
  import opened Numbers
  import opened Tracking
  import opened Node

  /** What one client has sent, and how many of the responses it has handled. */
  datatype Log = Log(sent: seq<Header>, heard: nat)

  /** Each client node has one entry for the service; `served` names the senders of the requests that the
      server has handled, in order. */
  datatype Shared = Shared(clients: map<nat, NodeState>, server: NodeState, logs: map<nat, Log>, served: seq<nat>)

  datatype Event =
    | Tick(client: nat, available: bool, now: int, size: nat)
    | Serve(client: nat, now: int)
    | Respond(client: nat, now: int)

  ghost predicate Usable(f: map<nat, real>) {
    forall c :: c in f ==> ScanDefined(DEFAULT_OPTIONS, f[c])
  }

  function NewClient(name: string, frequency: real): NodeState {
    NodeState(false, map[name := NewEntry(frequency)], map[], false, map[], map[])
  }

  ghost function Initial(name: string, f: map<nat, real>): Shared {
    Shared(
      map c | c in f :: NewClient(name, f[c]),
      NodeState(false, map[], map[name := Fresh(DEFAULT_OPTIONS)], false, map[], map[]),
      map c | c in f :: Log([], 0),
      [])
  }

  /** How many requests of one client have been served. */
  function Turns(served: seq<nat>, c: nat): nat {
    if served == [] then 0
    else Turns(served[..|served| - 1], c) + if served[|served| - 1] == c then 1 else 0
  }

  /** Each client numbers its requests from zero, so this is what the server scans. */
  function NumbersServed(served: seq<nat>): (ns: seq<uint32>)
    ensures |ns| == |served|
  {
    if served == [] then []
    else
      var front, c := served[..|served| - 1], served[|served| - 1];
      NumbersServed(front) + [ToU32(Turns(front, c))]
  }

  ghost predicate OneClient(served: seq<nat>) {
    forall i, j :: 0 <= i < |served| && 0 <= j < |served| ==> served[i] == served[j]
  }

  // ----- The invariant -----

  ghost predicate ClientInvariant(name: string, n: NodeState, log: Log, turns: nat, frequency: real) {
    && !n.clientLock && name in n.clients
    && n.clients[name].number == ToU32(|log.sent|)
    && n.clients[name].tracker.frequency == frequency
    && InSequence(n.clients[name].tracker, log.heard)
    && Consecutive(log.sent) && AllAt(log.sent, frequency)
    && log.heard <= turns <= |log.sent|
  }

  ghost predicate ServerInvariant(name: string, n: NodeState, served: seq<nat>) {
    && name in n.servers && n.servers[name].options == DEFAULT_OPTIONS
    && Accounted(n.servers[name], NumbersServed(served))
  }

  ghost predicate Invariant(name: string, f: map<nat, real>, s: Shared) {
    && s.clients.Keys == s.logs.Keys == f.Keys
    && ServerInvariant(name, s.server, s.served)
    && forall c :: c in f ==> ClientInvariant(name, s.clients[c], s.logs[c], Turns(s.served, c), f[c])
  }

  lemma InitialHolds(name: string, f: map<nat, real>)
    ensures Invariant(name, f, Initial(name, f))
  {
  }

  // ----- One client and the server -----

  lemma TickClient(name: string, n: NodeState, log: Log, turns: nat, f: real, available: bool, now: int, size: nat)
    requires ClientInvariant(name, n, log, turns, f)
    ensures var (after, request) := RequestSent(n, name, available, now, size);
            var more := if request.Some? then log.(sent := log.sent + [request.value]) else log;
            ClientInvariant(name, after, more, turns, f)
  {
    SuccessorModulo(|log.sent|);
    hide ToU32, InSequence;
  }

  lemma RespondClient(name: string, n: NodeState, log: Log, turns: nat, f: real, now: int)
    requires ClientInvariant(name, n, log, turns, f) && log.heard < turns && ScanDefined(DEFAULT_OPTIONS, f)
    ensures ScanDefined(n.clients[name].tracker.options, log.sent[log.heard].frequency)
    ensures ClientInvariant(name, ResponseReceived(n, name, log.sent[log.heard], now), log.(heard := log.heard + 1),
                            turns, f)
  {
    hide ToU32, Scanned, ScanDefined;
    NextInSequence(n.clients[name].tracker, log.sent[log.heard], now, log.heard);
    hide InSequence;
  }

  lemma ServeServer(name: string, n: NodeState, served: seq<nat>, c: nat, request: Header, now: int)
    requires ServerInvariant(name, n, served)
    requires request.number == ToU32(Turns(served, c)) && ScanDefined(DEFAULT_OPTIONS, request.frequency)
    ensures ServerInvariant(name, RequestHandled(n, name, request, now).0, served + [c])
  {
    hide ToU32, ScanDefined, Scanned;
    var more := served + [c];
    assert more[..|more| - 1] == served;
    AccountedNext(n.servers[name], NumbersServed(served), request, now);
    ScannedOptions(n.servers[name], request, now);
    hide Accounted;
  }

  lemma ScannedOptions(s: State, h: Header, now: int)
    requires ScanDefined(s.options, h.frequency)
    ensures Scanned(s, h, now).options == s.options
  {
  }

  lemma TurnsNext(served: seq<nat>, c: nat, d: nat)
    ensures Turns(served + [c], d) == Turns(served, d) + if c == d then 1 else 0
  {
  }

  // ----- One step of the system -----

  ghost function Ticked(name: string, s: Shared, c: nat, available: bool, now: int, size: nat): Shared
    requires c in s.clients && c in s.logs && name in s.clients[c].clients
  {
    var (after, request) := RequestSent(s.clients[c], name, available, now, size);
    var log := s.logs[c];
    var more := if request.Some? then log.(sent := log.sent + [request.value]) else log;
    s.(clients := s.clients[c := after], logs := s.logs[c := more])
  }

  ghost function Served(name: string, s: Shared, c: nat, now: int): Shared
    requires c in s.logs && Turns(s.served, c) < |s.logs[c].sent| && name in s.server.servers
    requires ScanDefined(s.server.servers[name].options, s.logs[c].sent[Turns(s.served, c)].frequency)
  {
    var (server, _) := RequestHandled(s.server, name, s.logs[c].sent[Turns(s.served, c)], now);
    s.(server := server, served := s.served + [c])
  }

  ghost function Responded(name: string, s: Shared, c: nat, now: int): Shared
    requires c in s.clients && c in s.logs && name in s.clients[c].clients && s.logs[c].heard < |s.logs[c].sent|
    requires ScanDefined(s.clients[c].clients[name].tracker.options, s.logs[c].sent[s.logs[c].heard].frequency)
  {
    var log := s.logs[c];
    s.(clients := s.clients[c := ResponseReceived(s.clients[c], name, log.sent[log.heard], now)],
       logs := s.logs[c := log.(heard := log.heard + 1)])
  }

  lemma ClientOf(name: string, f: map<nat, real>, s: Shared, c: nat)
    requires Invariant(name, f, s) && c in f
    ensures c in s.clients && c in s.logs
    ensures ClientInvariant(name, s.clients[c], s.logs[c], Turns(s.served, c), f[c])
  {
  }

  /** What is waiting can be scanned. */
  lemma Ready(name: string, f: map<nat, real>, s: Shared, c: nat)
    requires Usable(f) && Invariant(name, f, s) && c in f && c in s.clients && c in s.logs
    ensures name in s.clients[c].clients && name in s.server.servers
    ensures s.logs[c].heard <= Turns(s.served, c) <= |s.logs[c].sent|
    ensures ScanDefined(DEFAULT_OPTIONS, f[c])
    ensures s.server.servers[name].options == s.clients[c].clients[name].tracker.options == DEFAULT_OPTIONS
    ensures AllAt(s.logs[c].sent, f[c]) && Consecutive(s.logs[c].sent)
  {
    hide ScanDefined, Turns;
    ClientOf(name, f, s, c);
  }

  /** A step of one client leaves the others and the server alone. */
  lemma OthersKeep(name: string, f: map<nat, real>, s: Shared, t: Shared, c: nat)
    requires Invariant(name, f, s) && c in f && t.server == s.server && t.served == s.served
    requires t.clients.Keys == t.logs.Keys == f.Keys
    requires ClientInvariant(name, t.clients[c], t.logs[c], Turns(s.served, c), f[c])
    requires forall d :: d in f && d != c ==> t.clients[d] == s.clients[d] && t.logs[d] == s.logs[d]
    ensures Invariant(name, f, t)
  {
    hide ClientInvariant, ServerInvariant, Turns;
  }

  lemma TickKeeps(name: string, f: map<nat, real>, s: Shared, c: nat, available: bool, now: int, size: nat)
    requires Invariant(name, f, s) && c in f && name in s.clients[c].clients
    ensures Invariant(name, f, Ticked(name, s, c, available, now, size))
  {
    hide ClientInvariant, ServerInvariant, Turns, RequestSent;
    ClientOf(name, f, s, c);
    TickClient(name, s.clients[c], s.logs[c], Turns(s.served, c), f[c], available, now, size);
    OthersKeep(name, f, s, Ticked(name, s, c, available, now, size), c);
  }

  lemma RespondKeeps(name: string, f: map<nat, real>, s: Shared, c: nat, now: int)
    requires Invariant(name, f, s) && c in f && name in s.clients[c].clients && ScanDefined(DEFAULT_OPTIONS, f[c])
    requires s.logs[c].heard < Turns(s.served, c) <= |s.logs[c].sent|
    requires ScanDefined(s.clients[c].clients[name].tracker.options, s.logs[c].sent[s.logs[c].heard].frequency)
    ensures Invariant(name, f, Responded(name, s, c, now))
  {
    hide ClientInvariant, ServerInvariant, Turns, ResponseReceived, ScanDefined;
    ClientOf(name, f, s, c);
    RespondClient(name, s.clients[c], s.logs[c], Turns(s.served, c), f[c], now);
    OthersKeep(name, f, s, Responded(name, s, c, now), c);
  }

  lemma OneMoreTurn(name: string, n: NodeState, log: Log, turns: nat, f: real)
    requires ClientInvariant(name, n, log, turns, f) && turns < |log.sent|
    ensures ClientInvariant(name, n, log, turns + 1, f)
  {
    hide InSequence;
  }

  lemma ServeKeeps(name: string, f: map<nat, real>, s: Shared, c: nat, now: int)
    requires Invariant(name, f, s) && c in f && name in s.server.servers && ScanDefined(DEFAULT_OPTIONS, f[c])
    requires AllAt(s.logs[c].sent, f[c]) && Consecutive(s.logs[c].sent)
    requires Turns(s.served, c) < |s.logs[c].sent|
    requires ScanDefined(s.server.servers[name].options, s.logs[c].sent[Turns(s.served, c)].frequency)
    ensures Invariant(name, f, Served(name, s, c, now))
  {
    hide ClientInvariant, ServerInvariant, Turns, RequestHandled, ScanDefined, ToU32;
    var t := Served(name, s, c, now);
    ServeServer(name, s.server, s.served, c, s.logs[c].sent[Turns(s.served, c)], now);
    forall d | d in f ensures ClientInvariant(name, t.clients[d], t.logs[d], Turns(t.served, d), f[d]) {
      ClientOf(name, f, s, d);
      TurnsNext(s.served, c, d);
      if d == c {
        OneMoreTurn(name, s.clients[c], s.logs[c], Turns(s.served, c), f[c]);
      }
    }
  }

  // ----- Whole runs -----

  /** Events that nothing is ready for change nothing. */
  ghost function Step(name: string, f: map<nat, real>, s: Shared, e: Event): (t: Shared)
    requires Usable(f) && Invariant(name, f, s)
    ensures Invariant(name, f, t)
  {
    if e.client !in f then s
    else
      hide ScanDefined, ClientInvariant, ServerInvariant, Turns, Ticked, Served, Responded;
      Ready(name, f, s, e.client);
      match e
      case Tick(c, available, now, size) =>
        TickKeeps(name, f, s, c, available, now, size);
        Ticked(name, s, c, available, now, size)
      case Serve(c, now) =>
        if Turns(s.served, c) < |s.logs[c].sent| then
          ServeKeeps(name, f, s, c, now);
          Served(name, s, c, now)
        else s
      case Respond(c, now) =>
        if s.logs[c].heard < Turns(s.served, c) then
          RespondKeeps(name, f, s, c, now);
          Responded(name, s, c, now)
        else s
  }

  ghost function Run(name: string, f: map<nat, real>, es: seq<Event>): (s: Shared)
    requires Usable(f)
    ensures Invariant(name, f, s)
  {
    if es == [] then InitialHolds(name, f); Initial(name, f)
    else Step(name, f, Run(name, f, es[..|es| - 1]), es[|es| - 1])
  }

  // ----- When the server counts a loss -----

  lemma {:induction false} TurnsAll(served: seq<nat>, c: nat)
    ensures Turns(served, c) <= |served|
    ensures Turns(served, c) == |served| <==> forall i :: 0 <= i < |served| ==> served[i] == c
  {
    if served == [] {
    } else {
      var last := |served| - 1;
      TurnsAll(served[..last], c);
      assert forall i :: 0 <= i < last ==> served[..last][i] == served[i];
    }
  }

  lemma SameBelow(a: nat, b: nat)
    requires a <= b
    ensures a == b ==> ToU32(a) == ToU32(b)
    ensures b < TWO32 && ToU32(a) == ToU32(b) ==> a == b
  {
  }

  lemma OneClientNext(served: seq<nat>)
    requires served != []
    ensures var last := |served| - 1;
            OneClient(served) <==>
              OneClient(served[..last]) && forall i :: 0 <= i < last ==> served[..last][i] == served[last]
  {
    var last := |served| - 1;
    assert forall i :: 0 <= i < last ==> served[..last][i] == served[i];
    if forall i :: 0 <= i < last ==> served[..last][i] == served[last] {
      assert forall i :: 0 <= i < |served| ==> served[i] == served[last];
    }
  }

  lemma {:induction false} InOrderExactly(served: seq<nat>)
    ensures OneClient(served) ==> InOrder(NumbersServed(served))
    ensures |served| <= TWO32 && InOrder(NumbersServed(served)) ==> OneClient(served)
  {
    if served == [] {
    } else {
      var last := |served| - 1;
      var front, c, ns := served[..last], served[last], NumbersServed(served);
      InOrderExactly(front);
      assert ns[..last] == NumbersServed(front) && ns[last] == ToU32(Turns(front, c));
      InOrderNext(ns);
      TurnsAll(front, c);
      SameBelow(Turns(front, c), last);
      OneClientNext(served);
      hide ToU32, Turns, NumbersServed, OneClient, InOrder;
    }
  }

  /** Whatever the number of clients and however their requests interleave: no client ever counts a loss, and
      among up to 2^32 served requests the server counts none if and only if they all came from one client,
      although no message is ever lost. */
  lemma SharedServer(name: string, f: map<nat, real>, es: seq<Event>)
    requires Usable(f)
    ensures var s := Run(name, f, es);
            && name in s.server.servers && s.server.servers[name].received == |s.served|
            && (|s.served| <= TWO32 ==> (s.server.servers[name].lost == 0 <==> OneClient(s.served)))
            && (OneClient(s.served) ==> s.server.servers[name].lost == 0)
            && s.clients.Keys == s.logs.Keys == f.Keys
            && (forall c :: c in f ==> name in s.clients[c].clients
                                       && s.clients[c].clients[name].tracker.lost == 0
                                       && s.clients[c].clients[name].tracker.received == s.logs[c].heard
                                       && s.logs[c].heard <= Turns(s.served, c) <= |s.logs[c].sent|)
  {
    hide Run, OneClient, InOrder, NumbersServed, GapSum, Turns;
    var s := Run(name, f, es);
    InOrderExactly(s.served);
    GapSumZero(NumbersServed(s.served));
    if |s.served| <= TWO32 {
      NoLossFor(s.server.servers[name], NumbersServed(s.served));
    }
    forall c | c in f
      ensures ClientInvariant(name, s.clients[c], s.logs[c], Turns(s.served, c), f[c])
    {
    }
  }

  /** When the first request of another client follows n requests of one client, the server counts the rest of
      the turn of the number field as lost, and nothing exactly when n is a multiple of 2^32. */
  lemma SecondClientCountsAsLoss(name: string, f: map<nat, real>, es: seq<Event>, c: nat, now: int)
    requires Usable(f) && c in f && c in Run(name, f, es).logs && Run(name, f, es).logs[c].sent != []
    requires OneClient(Run(name, f, es).served) && Turns(Run(name, f, es).served, c) == 0
    ensures var n := |Run(name, f, es).served|;
            var t := Run(name, f, es + [Serve(c, now)]);
            && name in t.server.servers && t.server.servers[name].received == n + 1
            && (t.server.servers[name].lost == 0 <==> n % TWO32 == 0)
            && (n % TWO32 != 0 ==> t.server.servers[name].lost == TWO32 - n % TWO32)
  {
    hide Run, Step, OneClient, Usable, Turns, Invariant;
    RunNext(name, f, es, Serve(c, now));
    FirstTurn(name, f, Run(name, f, es), c, now);
  }

  lemma RunNext(name: string, f: map<nat, real>, es: seq<Event>, e: Event)
    requires Usable(f)
    ensures Run(name, f, es + [e]) == Step(name, f, Run(name, f, es), e)
  {
    assert (es + [e])[..|es + [e]| - 1] == es;
  }

  lemma FirstTurn(name: string, f: map<nat, real>, s: Shared, c: nat, now: int)
    requires Usable(f) && Invariant(name, f, s) && c in f && c in s.logs && s.logs[c].sent != []
    requires OneClient(s.served) && Turns(s.served, c) == 0
    ensures var n := |s.served|;
            var t := Step(name, f, s, Serve(c, now));
            && name in t.server.servers && t.server.servers[name].received == n + 1
            && (t.server.servers[name].lost == 0 <==> n % TWO32 == 0)
            && (n % TWO32 != 0 ==> t.server.servers[name].lost == TWO32 - n % TWO32)
  {
    hide OneClient, Usable, InOrder, NumbersServed, GapSum, Turns, Scanned, ScanDefined, ClientInvariant, Invariant,
      ServerInvariant, ToU32, ToU64, Gap;
    ServerOf(name, f, s, c);
    Ready(name, f, s, c);
    var tracker, request := s.server.servers[name], s.logs[c].sent[0];
    assert Step(name, f, s, Serve(c, now)) == Served(name, s, c, now);
    Zeros();
    FirstScan(tracker, request, now, s.served);
  }

  lemma ServerOf(name: string, f: map<nat, real>, s: Shared, c: nat)
    requires Invariant(name, f, s) && c in f
    ensures c in s.clients && name in s.server.servers
    ensures Accounted(s.server.servers[name], NumbersServed(s.served))
  {
    hide ClientInvariant, Accounted;
  }

  lemma FirstScan(t: State, request: Header, now: int, served: seq<nat>)
    requires Accounted(t, NumbersServed(served)) && ScanDefined(t.options, request.frequency)
    requires OneClient(served) && request.number == 0
    ensures var n, after := |served|, Scanned(t, request, now);
            && after.received == n + 1
            && (after.lost == 0 <==> n % TWO32 == 0)
            && (n % TWO32 != 0 ==> after.lost == TWO32 - n % TWO32)
  {
    hide OneClient, InOrder, NumbersServed, GapSum, Scanned, ScanDefined, ToU32, ToU64, Gap, Following;
    InOrderExactly(served);
    GapSumZero(NumbersServed(served));
    ScannedCounters(t, request, now);
    RestOfTurn(|served|);
    Zeros();
  }

  lemma Zeros()
    ensures ToU32(0) == 0 && ToU64(0) == 0
  {
  }

  lemma RestOfTurn(n: nat)
    ensures ToU64(Gap(0, ToU32(n))) == if n % TWO32 == 0 then 0 else TWO32 - n % TWO32
  {
  }
}
