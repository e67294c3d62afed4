/**
 The swarm loop's bookkeeping of inbound requests, as a queue ordered by age.

 The loop itself (module `SwarmLoop`) keeps a hash map from printed channel ids to channels and
 instants. Here the same requests are a sequence, oldest first: a tick drops a prefix, a
 response takes one element out, an accepted request is appended. The remaining fields record
 the past of a run. Times are milliseconds of one monotonic clock.
 */
module SwarmLoopSpec {
  import opened Wrappers
  import opened Bytes
  import opened Labels
  import opened Sequences

  const RESPONSE_TTL: nat := 60_000
  const MAX_PENDING_RESPONSES: nat := 1024

  type Pid = nat

  /** An accepted request: the n of its id "ch-n", its response channel, its instant of arrival. */
  datatype Request = Request(number: nat, channel: nat, at: nat)

  /** A call of `send_response`. */
  datatype Response = Response(channelId: string, channel: nat, data: bytes)

  /** A message to the event handler announcing an inbound request under a channel id. */
  datatype Notice = Notice(pid: Pid, channelId: string, channel: nat, payload: bytes)

  datatype Input =
    | Tick
    | Inbound(channel: nat, payload: bytes)
    | SendResponse(channelId: string, data: bytes)
    | RegisterEventHandler(pid: Pid)
    | Other                           // any other command or swarm event
    | Stop                            // the Shutdown command, or a closed command channel

  datatype Event = Event(time: nat, input: Input)

  datatype Loop = Loop(
    running: bool,
    now: nat,
    lastTick: nat,
    live: seq<Request>,
    counter: nat,
    handler: Option<Pid>,
    arrived: nat,
    accepted: seq<Request>,
    refused: seq<nat>,
    answered: seq<Request>,
    evicted: seq<Request>,
    abandoned: seq<Request>,
    responses: seq<Response>,
    notices: seq<Notice>)

  function ChannelId(r: Request): string {
    Label("ch-", r.number)
  }

  function Init(time: nat): Loop {
    Loop(true, time, time, [], 0, None, 0, [], [], [], [], [], [], [])
  }

  /** The number of requests at the head of the queue that have reached the time to live. */
  function StaleCount(live: seq<Request>, time: nat): (k: nat)
    ensures k <= |live|
  {
    if live == [] || time - live[0].at < RESPONSE_TTL then 0 else 1 + StaleCount(live[1..], time)
  }

  /** The index of the live request with this id, or the length of the queue. */
  function Find(live: seq<Request>, channelId: string): (i: nat)
    ensures i <= |live|
    ensures i < |live| ==> ChannelId(live[i]) == channelId
    ensures forall j :: 0 <= j < i ==> ChannelId(live[j]) != channelId
  {
    if live == [] || ChannelId(live[0]) == channelId then 0 else 1 + Find(live[1..], channelId)
  }

  function NextTick(s: Loop): Loop {
    var k := StaleCount(s.live, s.now);
    s.(lastTick := s.now, live := s.live[k..], evicted := s.evicted + s.live[..k])
  }

  function NextInbound(s: Loop, channel: nat, payload: bytes): Loop {
    if |s.live| >= MAX_PENDING_RESPONSES then
      s.(arrived := s.arrived + 1, refused := s.refused + [channel])
    else
      var r := Request(s.counter + 1, channel, s.now);
      s.(arrived := s.arrived + 1,
         counter := s.counter + 1,
         live := s.live + [r],
         accepted := s.accepted + [r],
         notices := match s.handler
                    case Some(pid) => s.notices + [Notice(pid, ChannelId(r), r.channel, payload)]
                    case None => s.notices)
  }

  function NextSendResponse(s: Loop, channelId: string, data: bytes): Loop {
    var i := Find(s.live, channelId);
    if i == |s.live| then s
    else
      s.(live := Without(s.live, i),
         answered := s.answered + [s.live[i]],
         responses := s.responses + [Response(channelId, s.live[i].channel, data)])
  }

  function Next(s: Loop, ev: Event): Loop {
    if !s.running then s
    else
      var t := s.(now := ev.time);
      match ev.input
      case Tick => NextTick(t)
      case Inbound(channel, payload) => NextInbound(t, channel, payload)
      case SendResponse(channelId, data) => NextSendResponse(t, channelId, data)
      case RegisterEventHandler(pid) => t.(handler := Some(pid))
      case Other => t
      case Stop => t.(running := false, live := [], abandoned := t.live)
  }

  function Run(s: Loop, events: seq<Event>): Loop
    decreases |events|
  {
    if events == [] then s else Run(Next(s, events[0]), events[1..])
  }

  /**
   What the environment guarantees: the clock never runs backwards, and every inbound request
   comes with a response channel of its own; the channel of the n-th request is called n.
   */
  predicate Admits(s: Loop, ev: Event) {
    s.now <= ev.time && (ev.input.Inbound? && s.running ==> ev.input.channel == s.arrived)
  }

  predicate Admissible(s: Loop, events: seq<Event>)
    decreases |events|
  {
    events == [] || (Admits(s, events[0]) && Admissible(Next(s, events[0]), events[1..]))
  }

  // ----- Invariant -----

  /** Ids and instants are ordered alike. */
  predicate Ordered(live: seq<Request>) {
    forall i, j :: 0 <= i < j < |live| ==> live[i].number < live[j].number && live[i].at <= live[j].at
  }

  predicate Increasing(s: seq<nat>) {
    forall i, j :: 0 <= i < j < |s| ==> s[i] < s[j]
  }

  predicate QueueInv(s: Loop) {
    && Ordered(s.live)
    && |s.live| <= MAX_PENDING_RESPONSES
    && s.lastTick <= s.now
    && (forall i :: 0 <= i < |s.live| ==> s.live[i].number <= s.counter && s.live[i].at <= s.now)
    && (forall i :: 0 <= i < |s.live| ==> s.lastTick < s.live[i].at + RESPONSE_TTL)
    && (s.running ==> s.abandoned == [])
    && (!s.running ==> s.live == [])
  }

  predicate EvictionInv(s: Loop) {
    && (forall i, j :: 0 <= i < j < |s.evicted| ==> s.evicted[i].number < s.evicted[j].number)
    && (forall i, j :: 0 <= i < |s.evicted| && 0 <= j < |s.live| ==> s.evicted[i].number < s.live[j].number)
    && (forall i :: 0 <= i < |s.evicted| ==> s.evicted[i].number <= s.counter)
  }

  predicate ArrivalInv(s: Loop) {
    && |s.accepted| == s.counter
    && |s.accepted| + |s.refused| == s.arrived
    && (forall i :: 0 <= i < |s.accepted| ==> s.accepted[i].number == i + 1 && s.accepted[i].channel < s.arrived)
    && (forall i, j :: 0 <= i < j < |s.accepted| ==> s.accepted[i].channel < s.accepted[j].channel)
    && (forall i :: 0 <= i < |s.refused| ==> s.refused[i] < s.arrived)
    && Increasing(s.refused)
    && (forall i, j :: 0 <= i < |s.accepted| && 0 <= j < |s.refused| ==> s.accepted[i].channel != s.refused[j])
  }

  /** Every accepted request has exactly one of the four fates. */
  ghost predicate FateInv(s: Loop) {
    multiset(s.accepted) ==
    multiset(s.live) + multiset(s.answered) + multiset(s.evicted) + multiset(s.abandoned)
  }

  predicate LogInv(s: Loop) {
    && |s.responses| == |s.answered|
    && (forall i :: 0 <= i < |s.responses| ==>
          s.responses[i].channelId == ChannelId(s.answered[i]) && s.responses[i].channel == s.answered[i].channel)
    && (forall i :: 0 <= i < |s.notices| ==> Announces(s.accepted, s.notices[i]))
  }

  predicate Announces(accepted: seq<Request>, n: Notice) {
    exists k :: 0 <= k < |accepted| && n.channelId == ChannelId(accepted[k]) && n.channel == accepted[k].channel
  }

  ghost predicate Inv(s: Loop) {
    QueueInv(s) && EvictionInv(s) && ArrivalInv(s) && FateInv(s) && LogInv(s)
  }

  // ----- Every step keeps the invariant -----

  /** A tick removes exactly the live requests that have reached the time to live. */
  lemma {:induction false} StaleCountSplits(live: seq<Request>, time: nat)
    requires Ordered(live)
    ensures forall i :: 0 <= i < |live| ==> (time - live[i].at >= RESPONSE_TTL <==> i < StaleCount(live, time))
  {
    if live != [] {
      StaleCountSplits(live[1..], time);
      forall i | 0 <= i < |live|
        ensures time - live[i].at >= RESPONSE_TTL <==> i < StaleCount(live, time)
      {
        if i > 0 {
          assert live[1..][i - 1] == live[i];
        }
      }
    }
  }

  lemma StaleSuffix(live: seq<Request>, time: nat)
    requires Ordered(live)
    ensures forall r :: r in live[StaleCount(live, time)..] <==> r in live && time - r.at < RESPONSE_TTL
  {
    StaleCountSplits(live, time);
    hide StaleCount;
    var k := StaleCount(live, time);
    forall r ensures r in live[k..] <==> r in live && time - r.at < RESPONSE_TTL {
      if r in live[k..] {
        var i :| 0 <= i < |live| - k && live[k..][i] == r;
        assert live[i + k] == r;
      }
      if r in live && time - r.at < RESPONSE_TTL {
        var i :| 0 <= i < |live| && live[i] == r;
        assert live[k..][i - k] == r;
      }
    }
  }

  lemma TickKeepsQueue(s: Loop)
    requires QueueInv(s) && EvictionInv(s) && s.running
    ensures QueueInv(NextTick(s)) && EvictionInv(NextTick(s))
  {
    StaleCountSplits(s.live, s.now);
    hide StaleCount;
  }

  lemma TickKeepsHistory(s: Loop)
    requires ArrivalInv(s) && FateInv(s) && LogInv(s)
    ensures ArrivalInv(NextTick(s)) && FateInv(NextTick(s)) && LogInv(NextTick(s))
  {
    hide StaleCount, Announces, ChannelId;
    SplitMultiset(s.live, StaleCount(s.live, s.now));
  }

  lemma TickKeepsInv(s: Loop)
    requires Inv(s) && s.running
    ensures Inv(NextTick(s))
  {
    hide QueueInv, EvictionInv, ArrivalInv, FateInv, LogInv, NextTick;
    TickKeepsQueue(s);
    TickKeepsHistory(s);
  }

  lemma InboundKeepsQueue(s: Loop, channel: nat, payload: bytes)
    requires QueueInv(s) && EvictionInv(s) && s.running
    ensures QueueInv(NextInbound(s, channel, payload)) && EvictionInv(NextInbound(s, channel, payload))
  {
    hide ChannelId;
  }

  lemma InboundKeepsArrivals(s: Loop, channel: nat, payload: bytes)
    requires ArrivalInv(s) && channel == s.arrived
    ensures ArrivalInv(NextInbound(s, channel, payload))
  {
    hide ChannelId;
  }

  lemma InboundKeepsFates(s: Loop, channel: nat, payload: bytes)
    requires FateInv(s)
    ensures FateInv(NextInbound(s, channel, payload))
  {
    hide ChannelId;
  }

  lemma InboundKeepsLog(s: Loop, channel: nat, payload: bytes)
    requires LogInv(s)
    ensures LogInv(NextInbound(s, channel, payload))
  {
    hide ChannelId;
    var t := NextInbound(s, channel, payload);
    forall i | 0 <= i < |t.notices|
      ensures Announces(t.accepted, t.notices[i])
    {
      if i < |s.notices| {
        AnnouncesExtends(s.accepted, t.accepted, s.notices[i]);
      } else {
        assert t.accepted[|s.accepted|].channel == t.notices[i].channel;
      }
    }
  }

  lemma InboundKeepsInv(s: Loop, channel: nat, payload: bytes)
    requires Inv(s) && s.running && channel == s.arrived
    ensures Inv(NextInbound(s, channel, payload))
  {
    hide QueueInv, EvictionInv, ArrivalInv, FateInv, LogInv, NextInbound;
    InboundKeepsQueue(s, channel, payload);
    InboundKeepsArrivals(s, channel, payload);
    InboundKeepsFates(s, channel, payload);
    InboundKeepsLog(s, channel, payload);
  }

  lemma AnnouncesExtends(accepted: seq<Request>, more: seq<Request>, n: Notice)
    requires Announces(accepted, n) && accepted <= more
    ensures Announces(more, n)
  {
    var k :| 0 <= k < |accepted| && n.channelId == ChannelId(accepted[k]) && n.channel == accepted[k].channel;
    assert more[k] == accepted[k];
  }

  lemma SendResponseKeepsQueue(s: Loop, channelId: string, data: bytes)
    requires QueueInv(s) && EvictionInv(s) && s.running
    ensures QueueInv(NextSendResponse(s, channelId, data)) && EvictionInv(NextSendResponse(s, channelId, data))
  {
    hide ChannelId;
  }

  lemma SendResponseKeepsHistory(s: Loop, channelId: string, data: bytes)
    requires ArrivalInv(s) && LogInv(s)
    ensures ArrivalInv(NextSendResponse(s, channelId, data))
    ensures LogInv(NextSendResponse(s, channelId, data))
  {
    hide Announces, ChannelId, Without;
  }

  lemma SendResponseKeepsFates(s: Loop, channelId: string, data: bytes)
    requires FateInv(s)
    ensures FateInv(NextSendResponse(s, channelId, data))
  {
    hide Find, ChannelId, Without;
    var i := Find(s.live, channelId);
    if i < |s.live| {
      WithoutMultiset(s.live, i);
    }
  }

  lemma SendResponseKeepsInv(s: Loop, channelId: string, data: bytes)
    requires Inv(s) && s.running
    ensures Inv(NextSendResponse(s, channelId, data))
  {
    hide QueueInv, EvictionInv, ArrivalInv, FateInv, LogInv, NextSendResponse;
    SendResponseKeepsQueue(s, channelId, data);
    SendResponseKeepsHistory(s, channelId, data);
    SendResponseKeepsFates(s, channelId, data);
  }

  /** The clock moves on, and the fields an invariant mentions stay as they are. */
  lemma QuietStepKeepsInv(s: Loop, now: nat, handler: Option<Pid>)
    requires Inv(s) && s.now <= now
    ensures Inv(s.(now := now, handler := handler))
  {
    hide Announces, ChannelId;
  }

  lemma StopKeepsInv(s: Loop)
    requires Inv(s) && s.running
    ensures Inv(s.(running := false, live := [], abandoned := s.live))
  {
    hide Announces, ChannelId;
  }

  lemma NextKeepsInv(s: Loop, ev: Event)
    requires Inv(s) && Admits(s, ev)
    ensures Inv(Next(s, ev))
  {
    hide Inv, NextTick, NextInbound, NextSendResponse;
    if s.running {
      var t := s.(now := ev.time);
      QuietStepKeepsInv(s, ev.time, s.handler);
      assert t == s.(now := ev.time, handler := s.handler);
      match ev.input
      case Tick => TickKeepsInv(t);
      case Inbound(channel, payload) => InboundKeepsInv(t, channel, payload);
      case SendResponse(channelId, data) => SendResponseKeepsInv(t, channelId, data);
      case RegisterEventHandler(pid) => QuietStepKeepsInv(s, ev.time, Some(pid));
      case Other =>
      case Stop => StopKeepsInv(t);
    }
  }

  lemma {:induction false} RunKeepsInv(s: Loop, events: seq<Event>)
    requires Inv(s) && Admissible(s, events)
    ensures Inv(Run(s, events))
    decreases |events|
  {
    if events != [] {
      NextKeepsInv(s, events[0]);
      RunKeepsInv(Next(s, events[0]), events[1..]);
    }
  }
}
