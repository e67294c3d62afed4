/**
 The swarm loop's imperative state: a hash map from printed channel ids to response channels and
 their instants, a counter and the event handler. It refines the age-ordered queue of module
 `SwarmLoopSpec`.
 */
module SwarmLoop {
  import opened Wrappers
  import opened Bytes
  import opened Labels
  import opened Sequences
  import opened SwarmLoopSpec
  import opened SwarmLoopTheorems

  datatype Pending = Pending(channel: nat, created: nat)

  /** The map holds exactly the requests of the queue, each under its printed id. */
  ghost predicate Matches(m: map<string, Pending>, live: seq<Request>) {
    && m.Keys == (set r | r in live :: ChannelId(r))
    && forall r | r in live :: m[ChannelId(r)] == Pending(r.channel, r.at)
  }

  lemma IdsAreInjective(a: Request, b: Request)
    ensures ChannelId(a) == ChannelId(b) <==> a.number == b.number
  {
    LabelIsInjective("ch-", a.number, b.number);
  }

  lemma {:induction false} SizesAgree(m: map<string, Pending>, live: seq<Request>)
    requires Ordered(live) && Matches(m, live)
    ensures |m| == |live|
  {
    if live != [] {
      var i := |live| - 1;
      MatchesRemove(m, live, i);
      assert Without(live, i) == live[..i];
      assert live[i] in live;
      SizesAgree(m - {ChannelId(live[i])}, live[..i]);
      assert (m - {ChannelId(live[i])}).Keys == m.Keys - {ChannelId(live[i])};
    }
  }

  /** Looking an id up in the map and searching the queue for it agree. */
  lemma LookupAgrees(m: map<string, Pending>, live: seq<Request>, channelId: string)
    requires Matches(m, live)
    ensures var i := Find(live, channelId);
            && (channelId in m <==> i < |live|)
            && (i < |live| ==> m[channelId] == Pending(live[i].channel, live[i].at))
  {
    hide ChannelId;
    var i := Find(live, channelId);
    if channelId in m {
      var r :| r in live && channelId == ChannelId(r);
      var j :| 0 <= j < |live| && live[j] == r;
    }
    if i < |live| {
      assert live[i] in live;
    }
  }

  /** A smaller map matches a smaller queue when they keep the same requests. */
  lemma MatchesSubset(m: map<string, Pending>, live: seq<Request>, m': map<string, Pending>, kept: seq<Request>)
    requires Matches(m, live)
    requires forall id :: id in m' ==> id in m && m'[id] == m[id]
    requires forall r :: r in kept <==> r in live && ChannelId(r) in m'
    ensures Matches(m', kept)
  {
    hide ChannelId;
    forall id ensures id in m' <==> id in (set r | r in kept :: ChannelId(r)) {
      if id in m' {
        var r :| r in live && id == ChannelId(r);
        assert r in kept;
      }
    }
  }

  /** Filtering the map by age drops exactly the stale prefix of the queue. */
  lemma MatchesRetain(m: map<string, Pending>, live: seq<Request>, now: nat)
    requires Ordered(live) && Matches(m, live)
    ensures Matches(map id | id in m && now - m[id].created < RESPONSE_TTL :: m[id], live[StaleCount(live, now)..])
  {
    hide ChannelId, StaleCount, Ordered;
    StaleSuffix(live, now);
    MatchesSubset(m, live, map id | id in m && now - m[id].created < RESPONSE_TTL :: m[id],
                  live[StaleCount(live, now)..]);
  }

  lemma MatchesInsert(m: map<string, Pending>, live: seq<Request>, r: Request)
    requires Matches(m, live) && forall q | q in live :: q.number < r.number
    ensures Matches(m[ChannelId(r) := Pending(r.channel, r.at)], live + [r])
  {
    hide ChannelId;
    forall q | q in live ensures ChannelId(q) != ChannelId(r) {
      IdsAreInjective(q, r);
    }
  }

  lemma MatchesRemove(m: map<string, Pending>, live: seq<Request>, i: nat)
    requires Ordered(live) && Matches(m, live) && i < |live|
    ensures Matches(m - {ChannelId(live[i])}, Without(live, i))
  {
    hide ChannelId, Ordered, Without;
    WithoutMembers(live, i);
    forall r | r in live
      ensures ChannelId(r) in m
      ensures ChannelId(r) == ChannelId(live[i]) <==> r.number == live[i].number
    {
      IdsAreInjective(r, live[i]);
    }
    MatchesSubset(m, live, m - {ChannelId(live[i])}, Without(live, i));
  }

  lemma QueueFacts(s: Loop)
    requires Inv(s)
    ensures Ordered(s.live) && forall r | r in s.live :: r.number <= s.counter
  {
  }

  class SwarmLoop {
    var pendingResponses: map<string, Pending>
    var channelCounter: nat
    var eventHandler: Option<Pid>
    var responses: seq<Response> // calls of send_response, in order
    var notices: seq<Notice>     // messages sent to the event handler, in order
    ghost var spec: Loop

    ghost predicate Valid()
      reads this
    {
      && Inv(spec)
      && Matches(pendingResponses, spec.live)
      && channelCounter == spec.counter
      && eventHandler == spec.handler
      && responses == spec.responses
      && notices == spec.notices
    }

    constructor (now: nat)
      ensures Valid() && spec == Init(now)
    {
      InitInv(now);
      hide Inv;
      pendingResponses := map[];
      channelCounter := 0;
      eventHandler := None;
      responses, notices := [], [];
      spec := Init(now);
    }

    /** The eviction arm: `retain` with the age test. */
    method Evict(now: nat)
      requires Valid() && spec.running && spec.now <= now
      modifies this
      ensures Valid() && spec == Next(old(spec), Event(now, Tick))
    {
      hide Inv, Matches, StaleCount;
      QueueFacts(spec);
      NextKeepsInv(spec, Event(now, Tick));
      MatchesRetain(pendingResponses, spec.live, now);
      spec := Next(spec, Event(now, Tick));
      pendingResponses :=
        map id | id in pendingResponses && now - pendingResponses[id].created < RESPONSE_TTL :: pendingResponses[id];
    }

    /** An inbound request with its response channel. */
    method OnRequest(now: nat, channel: nat, payload: bytes)
      requires Valid() && spec.running && spec.now <= now && channel == spec.arrived
      modifies this
      ensures Valid() && spec == Next(old(spec), Event(now, Inbound(channel, payload)))
    {
      hide Inv, Matches, Decimal;
      QueueFacts(spec);
      NextKeepsInv(spec, Event(now, Inbound(channel, payload)));
      SizesAgree(pendingResponses, spec.live);
      MatchesInsert(pendingResponses, spec.live, Request(spec.counter + 1, channel, now));
      spec := Next(spec, Event(now, Inbound(channel, payload)));
      if |pendingResponses| >= MAX_PENDING_RESPONSES {
        return;
      }
      channelCounter := channelCounter + 1;
      var channelId := "ch-" + Decimal(channelCounter);
      pendingResponses := pendingResponses[channelId := Pending(channel, now)];
      if eventHandler.Some? {
        notices := notices + [Notice(eventHandler.value, channelId, channel, payload)];
      }
    }

    /** The RpcSendResponse command: `remove` the id from the map and use its channel. */
    method OnSendResponse(now: nat, channelId: string, data: bytes)
      requires Valid() && spec.running && spec.now <= now
      modifies this
      ensures Valid() && spec == Next(old(spec), Event(now, SendResponse(channelId, data)))
    {
      hide Inv, Matches, ChannelId, Without;
      QueueFacts(spec);
      NextKeepsInv(spec, Event(now, SendResponse(channelId, data)));
      LookupAgrees(pendingResponses, spec.live, channelId);
      if channelId in pendingResponses {
        MatchesRemove(pendingResponses, spec.live, Find(spec.live, channelId));
        var entry := pendingResponses[channelId];
        pendingResponses := pendingResponses - {channelId};
        responses := responses + [Response(channelId, entry.channel, data)];
      }
      spec := Next(spec, Event(now, SendResponse(channelId, data)));
    }

    method OnRegisterEventHandler(now: nat, pid: Pid)
      requires Valid() && spec.running && spec.now <= now
      modifies this
      ensures Valid() && spec == Next(old(spec), Event(now, RegisterEventHandler(pid)))
    {
      hide Inv, Matches;
      NextKeepsInv(spec, Event(now, RegisterEventHandler(pid)));
      spec := Next(spec, Event(now, RegisterEventHandler(pid)));
      eventHandler := Some(pid);
    }

    /** A command or swarm event that does not touch this state. */
    method OnOther(now: nat)
      requires Valid() && spec.running && spec.now <= now
      modifies this`spec
      ensures Valid() && spec == Next(old(spec), Event(now, Other))
    {
      hide Inv, Matches;
      NextKeepsInv(spec, Event(now, Other));
      spec := Next(spec, Event(now, Other));
    }

    /** Leaving the loop drops the map with every channel still in it. */
    method OnStop(now: nat)
      requires Valid() && spec.running && spec.now <= now
      modifies this
      ensures Valid() && spec == Next(old(spec), Event(now, Stop))
    {
      hide Inv;
      NextKeepsInv(spec, Event(now, Stop));
      spec := Next(spec, Event(now, Stop));
      pendingResponses := map[];
    }

    /** The endless `select!` loop, on whatever sequence of events the runtime happens to deliver. */
    method Run(events: seq<Event>)
      requires Valid() && spec.running && Admissible(spec, events)
      modifies this
      ensures Valid() && spec == SwarmLoopSpec.Run(old(spec), events)
    {
      hide Inv, Matches, Next;
      var i := 0;
      while i < |events|
        invariant i <= |events| && Valid() && spec.running
        invariant Admissible(spec, events[i..])
        invariant SwarmLoopSpec.Run(spec, events[i..]) == SwarmLoopSpec.Run(old(spec), events)
      {
        var ev := events[i];
        assert events[i..][1..] == events[i + 1..];
        i := i + 1;
        OnlyStopStops(spec, ev);
        match ev.input
        case Tick => Evict(ev.time);
        case Inbound(channel, payload) => OnRequest(ev.time, channel, payload);
        case SendResponse(channelId, data) => OnSendResponse(ev.time, channelId, data);
        case RegisterEventHandler(pid) => OnRegisterEventHandler(ev.time, pid);
        case Other => OnOther(ev.time);
        case Stop =>
          OnStop(ev.time);
          AfterStop(spec, events[i..]);
          return;
      }
    }
  }

  lemma OnlyStopStops(s: Loop, ev: Event)
    requires s.running
    ensures Next(s, ev).running <==> !ev.input.Stop?
  {
  }

  lemma {:induction false} AfterStop(s: Loop, events: seq<Event>)
    requires !s.running
    ensures SwarmLoopSpec.Run(s, events) == s
    decreases |events|
  {
    if events != [] {
      AfterStop(s, events[1..]);
    }
  }
}
