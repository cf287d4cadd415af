/** Topic subscriptions of websocket clients: a two-way index. */
module TopicSubscriptions {

  type Socket = nat

  predicate EndsWithWildcard(pattern: string) {
    |pattern| >= 2 && pattern[|pattern| - 2..] == ":*"
  }

  predicate MatchesTopic(pattern: string, eventTopic: string) {
    if pattern == "*" then true
    else if EndsWithWildcard(pattern) then pattern[..|pattern| - 1] <= eventTopic
    else pattern == eventTopic
  }

  /** `kind:*` matches the topics `kind:rest`, and no topic of another kind. */
  lemma WildcardMatches(kind: string, eventTopic: string)
    ensures MatchesTopic(kind + ":*", eventTopic) <==> exists rest :: eventTopic == kind + ":" + rest
  {
    var pattern := kind + ":*";
    assert pattern[|pattern| - 2..] == ":*";
    assert pattern[..|pattern| - 1] == kind + ":";
    if kind + ":" <= eventTopic {
      assert eventTopic == kind + ":" + eventTopic[|kind| + 1..];
    }
  }

  /** `*` matches every topic; what is not written as a wildcard matches itself alone. */
  lemma PlainMatches(pattern: string, eventTopic: string)
    ensures pattern == "*" ==> MatchesTopic(pattern, eventTopic)
    ensures pattern != "*" && (forall kind :: pattern != kind + ":*") ==>
              (MatchesTopic(pattern, eventTopic) <==> pattern == eventTopic)
  {
    if EndsWithWildcard(pattern) {
      assert pattern == pattern[..|pattern| - 2] + ":*";
    }
  }

  datatype Op =
    | Subscribe(socket: Socket, topics: seq<string>)
    | Unsubscribe(socket: Socket, topics: seq<string>)
    | RemoveClient(socket: Socket)

  function TopicSet(topics: seq<string>): set<string> {
    set t | t in topics
  }

  /** The topics that a run of operations leaves a socket with. */
  function Replayed(ops: seq<Op>, s: Socket): set<string> {
    if ops == [] then {}
    else
      var before := Replayed(ops[..|ops| - 1], s);
      match ops[|ops| - 1]
      case Subscribe(socket, topics) => if s == socket then before + TopicSet(topics) else before
      case Unsubscribe(socket, topics) => if s == socket then before - TopicSet(topics) else before
      case RemoveClient(socket) => if s == socket then {} else before
  }

  /** The operation gives the topic to the socket. */
  predicate Adds(op: Op, s: Socket, t: string) {
    op.Subscribe? && op.socket == s && t in op.topics
  }

  predicate Takes(op: Op, s: Socket, t: string) {
    op.socket == s && (op.RemoveClient? || (op.Unsubscribe? && t in op.topics))
  }

  predicate AddedLast(ops: seq<Op>, i: nat, s: Socket, t: string) {
    i < |ops| && Adds(ops[i], s, t) && forall j | i < j < |ops| :: !Takes(ops[j], s, t)
  }

  /** A socket is left with exactly the topics that it has subscribed to and not lost since. */
  lemma {:induction false} ReplayedAre(ops: seq<Op>, s: Socket, t: string)
    ensures t in Replayed(ops, s) <==> exists i: nat :: AddedLast(ops, i, s, t)
  {
    if ops != [] {
      var init, last := ops[..|ops| - 1], |ops| - 1;
      ReplayedAre(init, s, t);
      assert AddedLast(ops, last, s, t) <==> Adds(ops[last], s, t);
      forall i: nat | i < last
        ensures AddedLast(ops, i, s, t) <==> AddedLast(init, i, s, t) && !Takes(ops[last], s, t)
      {
        assert ops[i] == init[i];
        assert forall j | i < j < last :: ops[j] == init[j];
      }
    }
  }

  function In<K, V>(index: map<K, set<V>>, k: K): set<V> {
    if k in index then index[k] else {}
  }

  type TopicIndex = map<string, set<Socket>>
  type ClientIndex = map<Socket, set<string>>

  predicate Agree(byTopic: TopicIndex, byClient: ClientIndex, t: string, s: Socket) {
    s in In(byTopic, t) <==> t in In(byClient, s)
  }

  ghost predicate Inverse(byTopic: TopicIndex, byClient: ClientIndex) {
    forall t, s :: Agree(byTopic, byClient, t, s)
  }

  lemma PairAdded(byTopic: TopicIndex, byClient: ClientIndex, t: string, s: Socket)
    requires Inverse(byTopic, byClient)
    ensures Inverse(byTopic[t := In(byTopic, t) + {s}], byClient[s := In(byClient, s) + {t}])
  {
    var topics, clients := byTopic[t := In(byTopic, t) + {s}], byClient[s := In(byClient, s) + {t}];
    forall u, r ensures Agree(topics, clients, u, r) {
      assert Agree(byTopic, byClient, u, r);
    }
  }

  /** An empty client set is not kept. */
  function WithoutClient(byTopic: TopicIndex, t: string, s: Socket): TopicIndex {
    if In(byTopic, t) - {s} == {} then byTopic - {t} else byTopic[t := In(byTopic, t) - {s}]
  }

  lemma PairRemoved(byTopic: TopicIndex, byClient: ClientIndex, t: string, s: Socket)
    requires Inverse(byTopic, byClient)
    ensures Inverse(WithoutClient(byTopic, t, s), byClient[s := In(byClient, s) - {t}])
  {
    var topics, clients := WithoutClient(byTopic, t, s), byClient[s := In(byClient, s) - {t}];
    forall u, r ensures Agree(topics, clients, u, r) {
      assert Agree(byTopic, byClient, u, r);
    }
  }

  lemma EmptySetDropped(byTopic: TopicIndex, byClient: ClientIndex, s: Socket)
    requires Inverse(byTopic, byClient) && In(byClient, s) == {}
    ensures Inverse(byTopic, byClient - {s}) && Inverse(byTopic, byClient[s := {}])
  {
    var without, empty := byClient - {s}, byClient[s := {}];
    forall u, r ensures Agree(byTopic, without, u, r) {
      assert Agree(byTopic, byClient, u, r);
    }
    forall u, r ensures Agree(byTopic, empty, u, r) {
      assert Agree(byTopic, byClient, u, r);
    }
  }

  class SubscriptionRegistry {
    var topicToClients: map<string, set<Socket>>
    var clientToTopics: map<Socket, set<string>>

    /** The maps are inverses of each other, and no topic keeps an empty client set. */
    ghost predicate Valid()
      reads this
    {
      && Inverse(topicToClients, clientToTopics)
      && (forall t | t in topicToClients :: topicToClients[t] != {})
    }

    ghost function TopicsOf(s: Socket): set<string>
      reads this
    {
      In(clientToTopics, s)
    }

    constructor ()
      ensures Valid() && forall s :: TopicsOf(s) == {}
    {
      topicToClients, clientToTopics := map[], map[];
    }

    method Subscribe(socket: Socket, topics: seq<string>)
      requires Valid()
      modifies this
      ensures Valid() && socket in clientToTopics
      ensures forall s :: TopicsOf(s) == if s == socket then old(TopicsOf(s)) + TopicSet(topics) else old(TopicsOf(s))
    {
      if socket !in clientToTopics {
        EmptySetDropped(topicToClients, clientToTopics, socket);
        clientToTopics := clientToTopics[socket := {}];
      }
      for i := 0 to |topics|
        invariant Valid() && socket in clientToTopics
        invariant forall s :: TopicsOf(s) == if s == socket then old(TopicsOf(s)) + TopicSet(topics[..i])
                  else old(TopicsOf(s))
      {
        ghost var was := topicToClients;
        PairAdded(topicToClients, clientToTopics, topics[i], socket);
        clientToTopics := clientToTopics[socket := clientToTopics[socket] + {topics[i]}];
        if topics[i] !in topicToClients {
          topicToClients := topicToClients[topics[i] := {}];
        }
        topicToClients := topicToClients[topics[i] := topicToClients[topics[i]] + {socket}];
        assert topicToClients == was[topics[i] := In(was, topics[i]) + {socket}];
        assert TopicSet(topics[..i + 1]) == TopicSet(topics[..i]) + {topics[i]};
      }
      assert topics[..|topics|] == topics;
    }

    method Unsubscribe(socket: Socket, topics: seq<string>)
      requires Valid()
      modifies this
      ensures Valid()
      ensures forall s :: TopicsOf(s) == if s == socket then old(TopicsOf(s)) - TopicSet(topics) else old(TopicsOf(s))
      ensures socket in clientToTopics ==> TopicsOf(socket) != {}
    {
      if socket !in clientToTopics { return; }
      for i := 0 to |topics|
        invariant Valid() && socket in clientToTopics
        invariant forall s :: TopicsOf(s) == if s == socket then old(TopicsOf(s)) - TopicSet(topics[..i])
                  else old(TopicsOf(s))
      {
        PairRemoved(topicToClients, clientToTopics, topics[i], socket);
        ghost var was := topicToClients;
        clientToTopics := clientToTopics[socket := clientToTopics[socket] - {topics[i]}];
        if topics[i] in topicToClients {
          var clients := topicToClients[topics[i]] - {socket};
          topicToClients := topicToClients[topics[i] := clients];
          if clients == {} {
            topicToClients := topicToClients - {topics[i]};
          }
        }
        assert topicToClients == WithoutClient(was, topics[i], socket);
        assert TopicSet(topics[..i + 1]) == TopicSet(topics[..i]) + {topics[i]};
      }
      assert topics[..|topics|] == topics;
      if clientToTopics[socket] == {} {
        EmptySetDropped(topicToClients, clientToTopics, socket);
        clientToTopics := clientToTopics - {socket};
      }
    }

    method RemoveClient(socket: Socket)
      requires Valid()
      modifies this
      ensures Valid() && socket !in clientToTopics
      ensures forall s :: TopicsOf(s) == if s == socket then {} else old(TopicsOf(s))
    {
      if socket !in clientToTopics { return; }
      var pending := clientToTopics[socket];
      ghost var byClient := clientToTopics;
      while pending != {}
        invariant byClient == clientToTopics[socket := pending] && clientToTopics == old(clientToTopics)
        invariant Inverse(topicToClients, byClient)
        invariant forall t | t in topicToClients :: topicToClients[t] != {}
      {
        var topic :| topic in pending;
        PairRemoved(topicToClients, byClient, topic, socket);
        ghost var was := topicToClients;
        if topic in topicToClients {
          var clients := topicToClients[topic] - {socket};
          topicToClients := topicToClients[topic := clients];
          if clients == {} {
            topicToClients := topicToClients - {topic};
          }
        }
        assert topicToClients == WithoutClient(was, topic, socket);
        pending := pending - {topic};
        byClient := byClient[socket := pending];
      }
      EmptySetDropped(topicToClients, byClient, socket);
      assert byClient - {socket} == clientToTopics - {socket};
      clientToTopics := clientToTopics - {socket};
    }

    /** Exactly the sockets that have a matching pattern. */
    method GetMatchingClients(eventTopic: string) returns (matched: set<Socket>)
      requires Valid()
      ensures forall s :: s in matched <==> exists p :: p in TopicsOf(s) && MatchesTopic(p, eventTopic)
    {
      matched := {};
      var pending := topicToClients.Keys;
      while pending != {}
        invariant pending <= topicToClients.Keys
        invariant forall s :: s in matched <==>
                    exists p :: p in topicToClients && p !in pending && s in topicToClients[p]
                        && MatchesTopic(p, eventTopic)
      {
        var pattern :| pattern in pending;
        if MatchesTopic(pattern, eventTopic) {
          matched := matched + topicToClients[pattern];
        }
        pending := pending - {pattern};
      }
      forall s ensures s in matched <==> exists p :: p in TopicsOf(s) && MatchesTopic(p, eventTopic) {
        if p :| p in TopicsOf(s) && MatchesTopic(p, eventTopic) {
          assert Agree(topicToClients, clientToTopics, p, s);
        }
        if s in matched {
          var p :| p in topicToClients && s in topicToClients[p] && MatchesTopic(p, eventTopic);
          assert Agree(topicToClients, clientToTopics, p, s);
        }
      }
    }
  }

  /** A run on a fresh registry, and who gets an event after it. */
  method Route(ops: seq<Op>, eventTopic: string) returns (matched: set<Socket>)
    ensures forall s :: s in matched <==> exists p :: p in Replayed(ops, s) && MatchesTopic(p, eventTopic)
  {
    var registry := new SubscriptionRegistry();
    for i := 0 to |ops|
      invariant registry.Valid() && fresh(registry)
      invariant forall s :: registry.TopicsOf(s) == Replayed(ops[..i], s)
    {
      assert ops[..i + 1][..i] == ops[..i];
      match ops[i] {
        case Subscribe(socket, topics) => registry.Subscribe(socket, topics);
        case Unsubscribe(socket, topics) => registry.Unsubscribe(socket, topics);
        case RemoveClient(socket) => registry.RemoveClient(socket);
      }
    }
    assert ops[..|ops|] == ops;
    matched := registry.GetMatchingClients(eventTopic);
  }
}
