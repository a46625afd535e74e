/** The generated publisher and subscriber nodes, and what the endpoint gate asks of them. */
module Topology {
  import opened Text
  import opened Discovery

  function TopicName(id: nat): string {
    "topic_" + Decimal(id)
  }

  lemma TopicNameInjective(a: nat, b: nat)
    ensures TopicName(a) == TopicName(b) <==> a == b
  {
    if TopicName(a) == TopicName(b) {
      assert Decimal(a) == TopicName(a)[6..] == TopicName(b)[6..] == Decimal(b);
      DecimalInjective(a, b);
    }
  }

  /** The topics with identifiers from lo up to hi. */
  function Topics(lo: nat, hi: nat): set<string>
    decreases hi - lo
  {
    if lo >= hi then {} else Topics(lo, hi - 1) + {TopicName(hi - 1)}
  }

  lemma {:induction false} TopicsMembers(lo: nat, hi: nat, id: nat)
    ensures TopicName(id) in Topics(lo, hi) <==> lo <= id < hi
    decreases hi - lo
  {
    if lo >= hi {
    } else {
      TopicsMembers(lo, hi - 1, id);
      TopicNameInjective(id, hi - 1);
    }
  }

  lemma {:induction false} TopicsAreNames(lo: nat, hi: nat, t: string)
    requires t in Topics(lo, hi)
    ensures exists id: nat :: lo <= id < hi && t == TopicName(id)
    decreases hi - lo
  {
    if t == TopicName(hi - 1) {
      assert lo <= hi - 1 < hi;
    } else {
      TopicsAreNames(lo, hi - 1, t);
    }
  }

  // ----- Generation -----

  /** Subscriber nodes `start` to `end`; the k-th topic of each has identifier `end + k`. */
  method CreateSubscriberNodes(start: nat, end: nat, publishers: nat) returns (nodes: seq<NodeInfo>)
    ensures nodes == SubscriberNodes(start, end, publishers)
  {
    nodes := [];
    var id := start;
    while id < end
      invariant start <= id && (id <= end || id == start)
      invariant nodes == seq(id - start, _ => NodeInfo(Topics(end, end + publishers), {}))
    {
      var topics := {};
      for k := 0 to publishers
        invariant topics == Topics(end, end + k)
      {
        var topic := k + end;
        topics := topics + {TopicName(topic)};
      }
      nodes := nodes + [NodeInfo(topics, {})];
      id := id + 1;
    }
  }

  /** Publisher nodes `start` to `end`, each with the topic of its own identifier. */
  method CreatePublisherNodes(start: nat, end: nat) returns (nodes: seq<NodeInfo>)
    ensures nodes == PublisherNodes(start, end)
  {
    nodes := [];
    var id := start;
    while id < end
      invariant start <= id && (id <= end || id == start)
      invariant nodes == seq(id - start, i requires i >= 0 => NodeInfo({}, {TopicName(start + i)}))
    {
      nodes := nodes + [NodeInfo({}, {TopicName(id)})];
      id := id + 1;
    }
  }

  function SubscriberNodes(start: nat, end: nat, publishers: nat): seq<NodeInfo> {
    if end <= start then [] else seq(end - start, _ => NodeInfo(Topics(end, end + publishers), {}))
  }

  function PublisherNodes(start: nat, end: nat): seq<NodeInfo> {
    if end <= start then [] else seq(end - start, i requires i >= 0 => NodeInfo({}, {TopicName(start + i)}))
  }

  function Published(nodes: seq<NodeInfo>): set<string> {
    if nodes == [] then {} else Published(nodes[..|nodes| - 1]) + nodes[|nodes| - 1].publications
  }

  /** The generated nodes in plain terms: a subscriber node has the topics `topic_` with each identifier from the
      end of the subscribers on, one for each publisher; a publisher node has the topic of its own identifier. */
  lemma NodesInFull(start: nat, end: nat, publishers: nat, id: nat)
    ensures var subs := SubscriberNodes(start, end, publishers);
            && |subs| == (if end <= start then 0 else end - start)
            && forall i :: 0 <= i < |subs| ==>
                 && subs[i].publications == {}
                 && ("topic_" + Decimal(id) in subs[i].subscriptions <==> end <= id < end + publishers)
    ensures var pubs := PublisherNodes(start, end);
            && |pubs| == (if end <= start then 0 else end - start)
            && forall i :: 0 <= i < |pubs| ==>
                 pubs[i].subscriptions == {} && pubs[i].publications == {"topic_" + Decimal(start + i)}
  {
    hide Topics, Decimal;
    TopicsMembers(end, end + publishers, id);
    var pubs := PublisherNodes(start, end);
    forall i | 0 <= i < |pubs|
      ensures pubs[i].subscriptions == {} && pubs[i].publications == {"topic_" + Decimal(start + i)}
    {
      assert pubs[i] == NodeInfo({}, {TopicName(start + i)});
    }
  }

  // ----- Matching -----

  lemma {:induction false} PublishedTopics(start: nat, end: nat)
    ensures Published(PublisherNodes(start, end)) == Topics(start, end)
    decreases end - start
  {
    if start >= end {
    } else {
      PublishedTopics(start, end - 1);
      assert PublisherNodes(start, end)[..end - start - 1] == PublisherNodes(start, end - 1);
    }
  }

  /** The topics subscribed to are exactly those published when the publisher identifiers start where the
      subscriber identifiers end and there are as many publishers as the subscribers were told - or when
      there is no topic on either side. */
  lemma TopicsMatch(subEnd: nat, publishers: nat, pubStart: nat, pubEnd: nat)
    ensures Topics(subEnd, subEnd + publishers) == Published(PublisherNodes(pubStart, pubEnd))
      <==> (publishers == 0 && pubEnd <= pubStart) || (pubStart == subEnd && pubEnd == subEnd + publishers)
  {
    PublishedTopics(pubStart, pubEnd);
    var a, b := Topics(subEnd, subEnd + publishers), Topics(pubStart, pubEnd);
    if a == b {
      TopicsMembers(subEnd, subEnd + publishers, subEnd);
      TopicsMembers(pubStart, pubEnd, subEnd);
      TopicsMembers(subEnd, subEnd + publishers, pubStart);
      TopicsMembers(pubStart, pubEnd, pubStart);
      TopicsMembers(subEnd, subEnd + publishers, pubEnd);
      TopicsMembers(pubStart, pubEnd, pubEnd);
      TopicsMembers(subEnd, subEnd + publishers, subEnd + publishers);
      TopicsMembers(pubStart, pubEnd, subEnd + publishers);
    }
  }

  lemma {:induction false} SubscribersAppend(a: seq<NodeInfo>, b: seq<NodeInfo>, t: string)
    ensures Subscribers(a + b, t) == Subscribers(a, t) + Subscribers(b, t)
  {
    if b == [] {
      assert a + b == a;
    } else {
      assert (a + b)[..|a + b| - 1] == a + b[..|b| - 1];
      SubscribersAppend(a, b[..|b| - 1], t);
    }
  }

  lemma {:induction false} AllSubscribe(nodes: seq<NodeInfo>, t: string, member: bool)
    requires forall i :: 0 <= i < |nodes| ==> (t in nodes[i].subscriptions <==> member)
    ensures Subscribers(nodes, t) == if member then |nodes| else 0
  {
    if nodes == [] {
    } else {
      AllSubscribe(nodes[..|nodes| - 1], t, member);
    }
  }

  function Generated(s: nat, p: nat): (nodes: seq<NodeInfo>)
    ensures |nodes| == s + p
    ensures forall i :: 0 <= i < s ==> nodes[i] == NodeInfo(Topics(s, s + p), {})
    ensures forall i :: s <= i < s + p ==> nodes[i] == NodeInfo({}, {TopicName(i)})
  {
    SubscriberNodes(0, s, p) + PublisherNodes(s, s + p)
  }

  lemma RequiredCount(s: nat, p: nat, id: nat)
    requires s <= id < s + p
    ensures Subscribers(Generated(s, p), TopicName(id)) == s
  {
    var subs, pubs := SubscriberNodes(0, s, p), PublisherNodes(s, s + p);
    SubscribersAppend(subs, pubs, TopicName(id));
    TopicsMembers(s, s + p, id);
    AllSubscribe(subs, TopicName(id), true);
    AllSubscribe(pubs, TopicName(id), false);
  }

  /** For S subscriber nodes with identifiers from 0 and P publisher nodes after them, every subscriber has
      exactly the published topics, and the endpoint gate asks each publisher for all S subscribers. */
  lemma GeneratedTopology(s: nat, p: nat, found: (int, string) -> int)
    ensures var nodes := Generated(s, p);
            && (forall i :: 0 <= i < s ==> nodes[i].subscriptions == Published(PublisherNodes(s, s + p)))
            && (forall id :: s <= id < s + p ==> Subscribers(nodes, TopicName(id)) == s)
            && ((forall i :: 0 <= i < s + p ==> EndpointsFound(nodes[i], t => Subscribers(nodes, t), t => found(i, t)))
                <==> forall id :: s <= id < s + p ==> found(id, TopicName(id)) >= s)
  {
    hide Subscribers, Topics, Published, TopicName, Generated;
    var nodes := Generated(s, p);
    TopicsMatch(s, p, s, s + p);
    forall id | s <= id < s + p ensures Subscribers(nodes, TopicName(id)) == s {
      RequiredCount(s, p, id);
    }
    forall i | 0 <= i < s + p
      ensures EndpointsFound(nodes[i], t => Subscribers(nodes, t), t => found(i, t))
        <==> (i >= s ==> found(i, TopicName(i)) >= s)
    {
      if i >= s {
        assert nodes[i].publications == {TopicName(i)};
        assert Subscribers(nodes, TopicName(i)) == s;
      }
    }
  }
}
