/**
 The protocol between NIF callers and the swarm loop, as a state machine over its steps.

 Callers `try_send` into a bounded queue and block on a oneshot reply when they ask a query; the
 loop takes commands off the queue. A blocked caller holds a reference to the node handle, so the
 handle can only be dropped, and with it the only sender, when nobody is blocked. Leaving the
 loop, also by a panic, closes the queue and drops what is in it.
 */
module CommandChannelSpec {
  const CAPACITY: nat := 512

  /** Every query names the call that waits for its reply. */
  datatype Command = Query(call: nat) | FireAndForget(tag: nat) | Shutdown

  datatype SendResult = Sent | Full | Closed

  /** What a query call has come to. */
  datatype Outcome = Waiting | Replied(value: nat) | ChannelFull | NodeStopped

  datatype Node = Node(
    queue: seq<Command>,
    open: bool,                  // the loop runs and holds the receiver
    handle: bool,                // the handle exists and holds the sender
    calls: map<nat, Outcome>,
    accepted: seq<Command>,
    handled: seq<Command>,
    discarded: seq<Command>)

  datatype Step =
    | Ask(call: nat)
    | Post(tag: nat)
    | StopNode
    | DropHandle
    | Receive(reply: nat, panics: bool)
    | OtherLoopEvent              // an eviction tick or a swarm event

  function Init(): Node {
    Node([], true, true, map[], [], [], [])
  }

  function SendOutcome(s: Node): SendResult {
    if !s.open then Closed else if |s.queue| >= CAPACITY then Full else Sent
  }

  function AfterSend(s: Node, cmd: Command): Node {
    if SendOutcome(s) == Sent then s.(queue := s.queue + [cmd], accepted := s.accepted + [cmd]) else s
  }

  function AfterAsk(s: Node, call: nat): Node {
    var t := AfterSend(s, Query(call));
    t.(calls := t.calls[call := match SendOutcome(s)
                                case Sent => Waiting
                                case Full => ChannelFull
                                case Closed => NodeStopped])
  }

  /** Dropping the receiver drops every queued command, and a dropped query wakes its caller with an error. */
  function AfterClose(s: Node): Node {
    s.(open := false,
       queue := [],
       discarded := s.discarded + s.queue,
       calls := map c | c in s.calls :: if Query(c) in s.queue then NodeStopped else s.calls[c])
  }

  function AfterReceive(s: Node, reply: nat, panics: bool): Node {
    if s.queue == [] then AfterClose(s)
    else
      var cmd := s.queue[0];
      var t := s.(queue := s.queue[1..], handled := s.handled + [cmd]);
      match cmd
      case Shutdown => AfterClose(t)
      case FireAndForget(_) => if panics then AfterClose(t) else t
      case Query(c) =>
        if panics then AfterClose(t.(calls := t.calls[c := NodeStopped]))
        else t.(calls := t.calls[c := Replied(reply)])
  }

  predicate Blocked(s: Node, call: nat) {
    call in s.calls && s.calls[call] == Waiting
  }

  ghost predicate Enabled(s: Node, step: Step) {
    match step
    case Ask(call) => s.handle && call !in s.calls
    case Post(_) => s.handle
    case StopNode => s.handle
    case DropHandle => s.handle && forall c :: !Blocked(s, c)
    case Receive(_, _) => s.open && (s.queue != [] || !s.handle)
    case OtherLoopEvent => s.open
  }

  function Next(s: Node, step: Step): Node {
    match step
    case Ask(call) => AfterAsk(s, call)
    case Post(tag) => AfterSend(s, FireAndForget(tag))
    case StopNode => AfterSend(s, Shutdown)
    case DropHandle => AfterSend(s, Shutdown).(handle := false)
    case Receive(reply, panics) => AfterReceive(s, reply, panics)
    case OtherLoopEvent => s
  }

  function Run(s: Node, steps: seq<Step>): Node
    decreases |steps|
  {
    if steps == [] then s else Run(Next(s, steps[0]), steps[1..])
  }

  /** An interleaving that can happen. */
  ghost predicate Feasible(s: Node, steps: seq<Step>)
    decreases |steps|
  {
    steps == [] || (Enabled(s, steps[0]) && Feasible(Next(s, steps[0]), steps[1..]))
  }

  /** The number of turns in which the loop takes from the queue. */
  function Receives(steps: seq<Step>): nat {
    if steps == [] then 0 else (if steps[0].Receive? then 1 else 0) + Receives(steps[1..])
  }

  // ----- Invariant -----

  /** Commands leave in the order in which they were accepted. */
  predicate FifoInv(s: Node) {
    && |s.queue| <= CAPACITY
    && s.accepted == s.handled + s.queue + s.discarded
    && (s.open ==> s.discarded == [])
    && (!s.open ==> s.queue == [])
  }

  /** A caller is blocked exactly while its query is queued. */
  ghost predicate CallInv(s: Node) {
    && (forall c :: Blocked(s, c) <==> Query(c) in s.queue)
    && (forall c :: Query(c) in s.accepted ==> c in s.calls)
    && (forall i, j :: 0 <= i < j < |s.queue| && s.queue[i].Query? ==> s.queue[i] != s.queue[j])
    && (forall c :: c in s.calls && s.calls[c].Replied? ==> Query(c) in s.handled)
    && (forall c :: c in s.calls && s.calls[c].ChannelFull? ==> Query(c) !in s.accepted)
  }

  predicate StoppedInv(s: Node) {
    forall c :: c in s.calls && s.calls[c] == NodeStopped ==> !s.open
  }

  ghost predicate Inv(s: Node) {
    FifoInv(s) && CallInv(s)
  }
}
