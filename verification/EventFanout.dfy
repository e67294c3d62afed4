/**
 Peer discovery from the swarm loop to the subscribers: batches are encoded in one of three
 shapes, the node fans them out again, and the registry delivers the single events.
 */
module EventFanout {
  import opened Sequences
  import opened HandlerRegistrySpec
  import opened HandlerRegistryTheorems

  const PEER_DISCOVERED := "peer_discovered"

  datatype Event = PeerDiscovered(peerId: string, addresses: seq<string>)

  /** What the NIF sends to the node process. */
  datatype NodeMessage = One(event: Event) | Many(events: seq<Event>) | Noop

  /** `send_peers_discovered`: nothing for an empty mDNS batch; one address per pair. */
  function SendPeersDiscovered(peers: seq<(string, string)>): seq<NodeMessage> {
    var events := MdnsEvents(peers);
    if |peers| == 0 then []
    else if |peers| == 1 then [One(events[0])]
    else [Many(events)]
  }

  function MdnsEvents(peers: seq<(string, string)>): seq<Event> {
    seq(|peers|, i requires 0 <= i < |peers| => PeerDiscovered(peers[i].0, [peers[i].1]))
  }

  /** The rendezvous arm of `handle_swarm_event`: always one message, a no-op for an empty batch. */
  function SendRegistrations(registrations: seq<Event>): seq<NodeMessage> {
    match |registrations|
    case 0 => [Noop]
    case 1 => [One(registrations[0])]
    case _ => [Many(registrations)]
  }

  /** The events that the node's `handle_info` passes to the registry. */
  function HandleInfo(m: NodeMessage): seq<Event> {
    match m
    case One(event) => [event]
    case Many(events) => events
    case Noop => []
  }

  function HandleAll(messages: seq<NodeMessage>): seq<Event> {
    if messages == [] then [] else HandleInfo(messages[0]) + HandleAll(messages[1..])
  }

  datatype Batch = Mdns(peers: seq<(string, string)>) | Rendezvous(registrations: seq<Event>)

  function Send(b: Batch): seq<NodeMessage> {
    match b
    case Mdns(peers) => SendPeersDiscovered(peers)
    case Rendezvous(registrations) => SendRegistrations(registrations)
  }

  function SendAll(batches: seq<Batch>): seq<NodeMessage> {
    if batches == [] then [] else Send(batches[0]) + SendAll(batches[1..])
  }

  /** One event for every discovered pair, batch after batch. */
  function Discoveries(batches: seq<Batch>): seq<Event> {
    if batches == [] then [] else BatchEvents(batches[0]) + Discoveries(batches[1..])
  }

  function BatchEvents(b: Batch): seq<Event> {
    match b
    case Mdns(peers) => MdnsEvents(peers)
    case Rendezvous(registrations) => registrations
  }

  lemma {:induction false} HandleAllConcat(a: seq<NodeMessage>, b: seq<NodeMessage>)
    ensures HandleAll(a + b) == HandleAll(a) + HandleAll(b)
  {
    if a == [] {
      assert a + b == b;
    } else {
      HandleAllConcat(a[1..], b);
      assert (a + b)[0] == a[0] && (a + b)[1..] == a[1..] + b;
      ConcatIsAssociative(HandleInfo(a[0]), HandleAll(a[1..]), HandleAll(b));
    }
  }

  lemma OneBatch(b: Batch)
    ensures HandleAll(Send(b)) == BatchEvents(b)
  {
    var messages := Send(b);
    assert |messages| <= 1;
    if messages != [] {
      assert messages[1..] == [];
      assert HandleAll(messages) == HandleInfo(messages[0]);
    }
  }

  /** Encoding in three shapes and fanning out undo each other, for batches of every size. */
  lemma {:induction false} FanOutUndoesBatching(batches: seq<Batch>)
    ensures HandleAll(SendAll(batches)) == Discoveries(batches)
  {
    if batches != [] {
      HandleAllConcat(Send(batches[0]), SendAll(batches[1..]));
      OneBatch(batches[0]);
      hide Send;
      FanOutUndoesBatching(batches[1..]);
    }
  }

  function BatchSize(b: Batch): nat {
    match b
    case Mdns(peers) => |peers|
    case Rendezvous(registrations) => |registrations|
  }

  function TotalSize(batches: seq<Batch>): nat {
    if batches == [] then 0 else BatchSize(batches[0]) + TotalSize(batches[1..])
  }

  /** Discovery i of a batch: the peer id and its addresses, of which an mDNS pair has just the one. */
  predicate IsDiscovery(event: Event, b: Batch, i: nat)
    requires i < BatchSize(b)
  {
    match b
    case Mdns(peers) => event.peerId == peers[i].0 && event.addresses == [peers[i].1]
    case Rendezvous(registrations) => event == registrations[i]
  }

  lemma {:induction false} DiscoveriesLength(batches: seq<Batch>)
    ensures |Discoveries(batches)| == TotalSize(batches)
  {
    if batches != [] {
      DiscoveriesLength(batches[1..]);
    }
  }

  lemma {:induction false} DiscoveryAt(batches: seq<Batch>, b: nat, i: nat)
    requires b < |batches| && i < BatchSize(batches[b])
    ensures TotalSize(batches[..b]) + i < |Discoveries(batches)|
    ensures IsDiscovery(Discoveries(batches)[TotalSize(batches[..b]) + i], batches[b], i)
  {
    DiscoveriesLength(batches);
    DiscoveriesLength(batches[1..]);
    if b > 0 {
      var first, rest := BatchEvents(batches[0]), batches[1..];
      assert batches[..b][1..] == rest[..b - 1];
      assert TotalSize(batches[..b]) == |first| + TotalSize(rest[..b - 1]);
      assert Discoveries(batches) == first + Discoveries(rest);
      DiscoveryAt(rest, b - 1, i);
    }
  }

  /**
   The node passes on as many events as were discovered, and discovery i of batch b is the one
   behind all discoveries of the batches before it.
   */
  lemma EveryDiscoveryComesOut(batches: seq<Batch>, b: nat, i: nat)
    ensures |HandleAll(SendAll(batches))| == TotalSize(batches)
    ensures b < |batches| && i < BatchSize(batches[b]) ==>
              var events, k := HandleAll(SendAll(batches)), TotalSize(batches[..b]) + i;
              k < |events| && IsDiscovery(events[k], batches[b], i)
  {
    FanOutUndoesBatching(batches);
    DiscoveriesLength(batches);
    if b < |batches| && i < BatchSize(batches[b]) {
      DiscoveryAt(batches, b, i);
    }
  }

  /**
   The three shapes: an empty mDNS batch sends nothing and an empty rendezvous batch a no-op; one
   discovery goes out alone and several as a list, all in one message.
   */
  lemma ShapeFollowsBatchSize(b: Batch)
    ensures var messages := Send(b);
            match BatchSize(b)
            case 0 => messages == if b.Mdns? then [] else [Noop]
            case 1 => |messages| == 1 && messages[0].One? && IsDiscovery(messages[0].event, b, 0)
            case n =>
              && |messages| == 1 && messages[0].Many? && |messages[0].events| == n
              && forall i :: 0 <= i < n ==> IsDiscovery(messages[0].events[i], b, i)
  {
    if BatchSize(b) == 1 && b.Rendezvous? {
      assert Send(b) == [One(b.registrations[0])];
    }
  }

  // ----- Through the registry -----

  /** The events dispatched under a key in a history of the registry, in order. */
  function Published(ops: seq<Op<Event>>, key: Key): seq<Event> {
    if ops == [] then []
    else (if ops[0].Dispatch? && ops[0].key == key then [ops[0].event] else []) + Published(ops[1..], key)
  }

  /** Whenever an event of this type is dispatched, the process is subscribed to it from this node and no other. */
  ghost predicate Listens(w: World<Event>, ops: seq<Op<Event>>, key: Key, pid: Pid)
    decreases |ops|
  {
    ops == [] ||
    (&& (ops[0].Dispatch? && ops[0].key.eventType == key.eventType ==>
           (Triple(ops[0].key, pid) in Triples(w.registry) <==> ops[0].key == key))
     && Listens(Next(w, ops[0]), ops[1..], key, pid))
  }

  /** The events of one type among the messages of a process. */
  function EventsOfType(messages: seq<Message<Event>>, eventType: string): seq<Event> {
    if messages == [] then []
    else (if messages[0].eventType == eventType then [messages[0].event] else [])
         + EventsOfType(messages[1..], eventType)
  }

  lemma {:induction false} EventsOfTypeConcat(a: seq<Message<Event>>, b: seq<Message<Event>>, eventType: string)
    ensures EventsOfType(a + b, eventType) == EventsOfType(a, eventType) + EventsOfType(b, eventType)
  {
    if a == [] {
      assert a + b == b;
    } else {
      EventsOfTypeConcat(a[1..], b, eventType);
      assert (a + b)[0] == a[0] && (a + b)[1..] == a[1..] + b;
      var first := if a[0].eventType == eventType then [a[0].event] else [];
      ConcatIsAssociative(first, EventsOfType(a[1..], eventType), EventsOfType(b, eventType));
    }
  }

  lemma {:induction false} ListenerIsDuePublished(w: World<Event>, ops: seq<Op<Event>>, key: Key, pid: Pid)
    requires Listens(w, ops, key, pid)
    ensures EventsOfType(Due(w, ops, pid), key.eventType) == Published(ops, key)
    decreases |ops|
  {
    if ops != [] {
      var op := ops[0];
      var first := DueAtOnce(w, op, pid);
      hide Next, Triples;
      EventsOfTypeConcat(first, Due(Next(w, op), ops[1..], pid), key.eventType);
      ListenerIsDuePublished(Next(w, op), ops[1..], key, pid);
    }
  }

  /**
   End to end: whatever else happens at the registry in between, a process that is subscribed to
   peer discovery of a node throughout receives exactly one event per discovered pair, in order,
   however the pairs were batched. The node's casts arrive at the registry in the order sent.
   */
  lemma SubscriberSeesEveryDiscovery(w: World<Event>, ops: seq<Op<Event>>, node: Pid, pid: Pid, batches: seq<Batch>)
    requires Inv(w) && Feasible(w, ops)
    requires Published(ops, Key(node, PEER_DISCOVERED)) == HandleAll(SendAll(batches))
    requires Listens(w, ops, Key(node, PEER_DISCOVERED), pid)
    ensures EventsOfType(Received(Run(w, ops).runtime.sent, pid), PEER_DISCOVERED) ==
            EventsOfType(Received(w.runtime.sent, pid), PEER_DISCOVERED) + Discoveries(batches)
  {
    EveryProcessReceivesWhatIsDue(w, ops, pid);
    EventsOfTypeConcat(Received(w.runtime.sent, pid), Due(w, ops, pid), PEER_DISCOVERED);
    ListenerIsDuePublished(w, ops, Key(node, PEER_DISCOVERED), pid);
    FanOutUndoesBatching(batches);
  }
}
