/** The two discovery gates that an experiment waits for. */
module Discovery {
  // ----- Names in order -----

  /** The order of `std::string`. */
  predicate Precedes(a: string, b: string) {
    a == [] || (b != [] && (a[0] < b[0] || (a[0] == b[0] && Precedes(a[1..], b[1..]))))
  }

  lemma {:induction false} PrecedesTotal(a: string, b: string)
    ensures Precedes(a, b) || Precedes(b, a)
    ensures Precedes(a, b) && Precedes(b, a) ==> a == b
  {
    if a == [] || b == [] || a[0] != b[0] {
    } else {
      PrecedesTotal(a[1..], b[1..]);
      assert a == [a[0]] + a[1..] && b == [b[0]] + b[1..];
    }
  }

  lemma {:induction false} PrecedesTransitive(a: string, b: string, c: string)
    requires Precedes(a, b) && Precedes(b, c)
    ensures Precedes(a, c)
  {
    if a == [] || a[0] != b[0] || b[0] != c[0] {
    } else {
      PrecedesTransitive(a[1..], b[1..], c[1..]);
    }
  }

  predicate Sorted(xs: seq<string>) {
    |xs| >= 2 ==> Precedes(xs[0], xs[1]) && Sorted(xs[1..])
  }

  function Insert(x: string, xs: seq<string>): (ys: seq<string>)
    requires Sorted(xs)
    ensures Sorted(ys) && multiset(ys) == multiset{x} + multiset(xs)
    ensures ys != [] && (ys[0] == x || (xs != [] && ys[0] == xs[0]))
  {
    if xs == [] then [x]
    else
      assert xs == [xs[0]] + xs[1..];
      PrecedesTotal(x, xs[0]);
      if Precedes(x, xs[0]) then
        assert ([x] + xs)[1..] == xs;
        [x] + xs
      else
        var rest := Insert(x, xs[1..]);
        assert ([xs[0]] + rest)[1..] == rest;
        [xs[0]] + rest
  }

  /** `std::sort`. */
  function Sort(xs: seq<string>): (ys: seq<string>)
    ensures Sorted(ys) && multiset(ys) == multiset(xs)
  {
    if xs == [] then []
    else
      assert xs == xs[..|xs| - 1] + [xs[|xs| - 1]];
      Insert(xs[|xs| - 1], Sort(xs[..|xs| - 1]))
  }

  /** `std::set_intersection`: both sorted ranges are walked in step. */
  function Merge(a: seq<string>, b: seq<string>): seq<string>
    decreases |a| + |b|
  {
    if a == [] || b == [] then []
    else if a[0] == b[0] then [a[0]] + Merge(a[1..], b[1..])
    else if Precedes(a[0], b[0]) then Merge(a[1..], b)
    else Merge(a, b[1..])
  }

  lemma {:induction false} HeadIsLeast(xs: seq<string>, x: string)
    requires Sorted(xs) && xs != [] && x in xs
    ensures Precedes(xs[0], x)
  {
    if x == xs[0] {
      PrecedesTotal(x, x);
    } else {
      assert x in xs[1..];
      HeadIsLeast(xs[1..], x);
      PrecedesTransitive(xs[0], xs[1], x);
    }
  }

  lemma SkippedHead(a: seq<string>, b: seq<string>)
    requires a != [] && b != [] && Sorted(a) && Sorted(b) && a[0] != b[0] && Precedes(a[0], b[0])
    ensures multiset(a) * multiset(b) == multiset(a[1..]) * multiset(b)
  {
    if a[0] in b {
      HeadIsLeast(b, a[0]);
      PrecedesTotal(a[0], b[0]);
    }
    assert a == [a[0]] + a[1..];
    assert a[0] !in multiset(b);
    assert multiset(a) == multiset{a[0]} + multiset(a[1..]);
  }

  lemma SharedHead(a: seq<string>, b: seq<string>)
    requires a != [] && b != [] && a[0] == b[0]
    ensures multiset(a) * multiset(b) == multiset{a[0]} + multiset(a[1..]) * multiset(b[1..])
  {
    assert a == [a[0]] + a[1..] && b == [a[0]] + b[1..];
    assert multiset(a) == multiset{a[0]} + multiset(a[1..]);
    assert multiset(b) == multiset{a[0]} + multiset(b[1..]);
  }

  lemma Commutes(x: multiset<string>, y: multiset<string>)
    ensures x * y == y * x
  {
  }

  /** On sorted ranges the merge takes each name as often as the range that has it less often. */
  lemma {:induction false} MergeIsIntersection(a: seq<string>, b: seq<string>)
    requires Sorted(a) && Sorted(b)
    ensures multiset(Merge(a, b)) == multiset(a) * multiset(b)
    decreases |a| + |b|
  {
    if a == [] || b == [] {
    } else {
      if a[0] == b[0] {
        MergeIsIntersection(a[1..], b[1..]);
        SharedHead(a, b);
      } else if Precedes(a[0], b[0]) {
        MergeIsIntersection(a[1..], b);
        SkippedHead(a, b);
      } else {
        PrecedesTotal(a[0], b[0]);
        MergeIsIntersection(a, b[1..]);
        SkippedHead(b, a);
        Commutes(multiset(a), multiset(b));
        Commutes(multiset(a), multiset(b[1..]));
      }
    }
  }

  method GetIntersectionSize(a: seq<string>, b: seq<string>) returns (size: nat)
    ensures size == |multiset(a) * multiset(b)|
  {
    var intersection := Merge(Sort(a), Sort(b));
    MergeIsIntersection(Sort(a), Sort(b));
    assert |multiset(intersection)| == |intersection|;
    size := |intersection|;
  }

  lemma FullIntersection(a: multiset<string>, b: multiset<string>)
    ensures |a * b| == |b| <==> b <= a
  {
    var rest := b - a * b;
    assert b == a * b + rest;
    if b <= a {
      assert a * b == b;
    }
  }

  // ----- Participants -----

  /** One pass over the nodes, each with the names it has discovered. It succeeds exactly when every
      node has discovered every reference name at least as often as the system uses it. */
  method PdpPass(discovered: seq<seq<string>>, reference: seq<string>) returns (ok: bool)
    requires |reference| == |discovered|
    ensures ok <==> discovered != [] && forall i :: 0 <= i < |discovered| ==>
              multiset(reference) <= multiset(discovered[i])
  {
    ok := false;
    for i := 0 to |discovered|
      invariant ok <==> i > 0
      invariant forall j :: 0 <= j < i ==> multiset(reference) <= multiset(discovered[j])
    {
      var participants := GetIntersectionSize(discovered[i], reference);
      FullIntersection(multiset(discovered[i]), multiset(reference));
      assert |multiset(reference)| == |reference|;
      ok := participants == |discovered|;
      if !ok {
        break;
      }
    }
  }

  // ----- Endpoints -----

  /** The keys of a node's subscription and publisher maps. */
  datatype NodeInfo = NodeInfo(subscriptions: set<string>, publications: set<string>)

  /** `operator[]` of a map of integers inserts zero for a missing key. */
  function Lookup(m: map<string, int>, key: string): int {
    if key in m then m[key] else 0
  }

  /** The number of nodes that subscribe to a topic. */
  function Subscribers(nodes: seq<NodeInfo>, topic: string): nat {
    if nodes == [] then 0
    else Subscribers(nodes[..|nodes| - 1], topic) + if topic in nodes[|nodes| - 1].subscriptions then 1 else 0
  }

  method CountSubscribers(nodes: seq<NodeInfo>) returns (perTopic: map<string, int>)
    ensures forall t :: Lookup(perTopic, t) == Subscribers(nodes, t)
  {
    perTopic := map[];
    for i := 0 to |nodes|
      invariant forall t :: Lookup(perTopic, t) == Subscribers(nodes[..i], t)
    {
      assert nodes[..i + 1][..i] == nodes[..i];
      ghost var before := perTopic;
      var todo := nodes[i].subscriptions;
      while todo != {}
        invariant todo <= nodes[i].subscriptions
        invariant forall t ::
          (Lookup(perTopic, t) == Lookup(before, t) + if t in nodes[i].subscriptions && t !in todo then 1 else 0)
        decreases |todo|
      {
        var topic :| topic in todo;
        perTopic := perTopic[topic := Lookup(perTopic, topic) + 1];
        todo := todo - {topic};
      }
    }
    assert nodes[..|nodes|] == nodes;
  }

  /** The node has discovered, for each topic it publishes, at least the required number of endpoints. */
  ghost predicate EndpointsFound(node: NodeInfo, required: string -> int, found: string -> int) {
    forall t :: t in node.publications ==> found(t) >= required(t)
  }

  /** One pass over the nodes; `found(i, t)` is what node i counts on topic t. The default insertions change
      no later lookup, and the pass succeeds exactly when every node found enough on every topic. */
  method EdpPass(nodes: seq<NodeInfo>, perTopic: map<string, int>, found: (int, string) -> int)
    returns (ok: bool, after: map<string, int>)
    ensures forall t :: Lookup(after, t) == Lookup(perTopic, t)
    ensures ok <==> nodes != [] && forall i :: 0 <= i < |nodes| ==>
              EndpointsFound(nodes[i], t => Lookup(perTopic, t), t => found(i, t))
  {
    ok, after := false, perTopic;
    for i := 0 to |nodes|
      invariant ok <==> i > 0
      invariant forall t :: Lookup(after, t) == Lookup(perTopic, t)
      invariant forall j :: 0 <= j < i ==>
        EndpointsFound(nodes[j], t => Lookup(perTopic, t), t => found(j, t))
    {
      var todo := nodes[i].publications;
      if todo == {} {
        ok := true;
        continue;
      }
      while todo != {}
        invariant todo <= nodes[i].publications
        invariant ok || todo == nodes[i].publications
        invariant forall t :: Lookup(after, t) == Lookup(perTopic, t)
        invariant forall t :: t in nodes[i].publications && t !in todo ==> found(i, t) >= Lookup(perTopic, t)
        decreases |todo|
      {
        var topic :| topic in todo;
        after := after[topic := Lookup(after, topic)];
        ok := found(i, topic) >= after[topic];
        if !ok {
          break;
        }
        todo := todo - {topic};
      }
      if !ok {
        assert !EndpointsFound(nodes[i], t => Lookup(perTopic, t), t => found(i, t));
        break;
      }
    }
  }

  /** The counting and one pass together: the gate opens exactly when, for every node and every topic it
      publishes, the discovered endpoints are at least the nodes of this system that subscribe to it. */
  method EdpGate(nodes: seq<NodeInfo>, found: (int, string) -> int) returns (ok: bool)
    ensures ok <==> nodes != [] && forall i :: 0 <= i < |nodes| ==>
              EndpointsFound(nodes[i], t => Subscribers(nodes, t), t => found(i, t))
  {
    var perTopic := CountSubscribers(nodes);
    var after;
    ok, after := EdpPass(nodes, perTopic, found);
    forall i | 0 <= i < |nodes|
      ensures EndpointsFound(nodes[i], t => Lookup(perTopic, t), t => found(i, t))
         <==> EndpointsFound(nodes[i], t => Subscribers(nodes, t), t => found(i, t))
    {
    }
  }
}
