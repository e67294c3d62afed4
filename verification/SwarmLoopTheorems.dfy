/** Whole-run theorems about inbound requests: every run from start-up, every interleaving of events. */
module SwarmLoopTheorems {
  import opened Wrappers
  import opened Bytes
  import opened Labels
  import opened Sequences
  import opened SwarmLoopSpec

  lemma InitInv(time: nat)
    ensures Inv(Init(time))
  {
  }

  /** All requests whose fate is known: still pending, answered, evicted, or dropped when the loop ended. */
  function Fates(s: Loop): seq<Request> {
    s.live + s.answered + s.evicted + s.abandoned
  }

  lemma AcceptedAreDistinct(s: Loop)
    requires ArrivalInv(s)
    ensures Distinct(s.accepted)
  {
    forall i, j | 0 <= i < j < |s.accepted| ensures s.accepted[i] != s.accepted[j] {
      assert s.accepted[i].number != s.accepted[j].number;
    }
  }

  lemma FatesAreDistinct(s: Loop)
    requires ArrivalInv(s) && FateInv(s)
    ensures Distinct(Fates(s)) && multiset(Fates(s)) == multiset(s.accepted)
  {
    AcceptedAreDistinct(s);
    DistinctIffMultiplicity(s.accepted);
    DistinctIffMultiplicity(Fates(s));
  }

  /**
   Conservation. Every inbound request is accepted or refused, and every accepted one has exactly
   one fate: nothing is lost, and no request is in two places.
   */
  lemma EveryRequestHasOneFate(time: nat, events: seq<Event>)
    requires Admissible(Init(time), events)
    ensures var s := Run(Init(time), events);
            && s.arrived == s.counter + |s.refused|
            && s.counter == |s.live| + |s.answered| + |s.evicted| + |s.abandoned|
            && Distinct(Fates(s))
            && forall r :: r in Fates(s) <==> r in s.accepted
  {
    InitInv(time);
    RunKeepsInv(Init(time), events);
    var s := Run(Init(time), events);
    FatesAreDistinct(s);
    forall r ensures r in Fates(s) <==> r in s.accepted {
      assert r in Fates(s) <==> r in multiset(Fates(s));
      assert r in s.accepted <==> r in multiset(s.accepted);
    }
    assert |multiset(Fates(s))| == |Fates(s)|;
    assert |multiset(s.accepted)| == |s.accepted|;
  }

  /** The k-th answer belongs to some accepted request. */
  lemma AnsweredWasAccepted(s: Loop, k: nat) returns (a: nat)
    requires ArrivalInv(s) && FateInv(s) && k < |s.answered|
    ensures a < |s.accepted| && s.accepted[a] == s.answered[k]
  {
    assert s.answered[k] in multiset(s.answered);
    assert s.answered[k] in multiset(s.accepted);
    a :| 0 <= a < |s.accepted| && s.accepted[a] == s.answered[k];
  }

  /** Ids are never issued twice, and no response channel is used twice or after being refused. */
  lemma EachChannelIsUsedAtMostOnce(time: nat, events: seq<Event>)
    requires Admissible(Init(time), events)
    ensures var s := Run(Init(time), events);
            && (forall i, j :: 0 <= i < j < |s.accepted| ==> ChannelId(s.accepted[i]) != ChannelId(s.accepted[j]))
            && (forall i, j :: 0 <= i < j < |s.responses| ==> s.responses[i].channel != s.responses[j].channel)
            && (forall i, c :: 0 <= i < |s.responses| && c in s.refused ==> s.responses[i].channel != c)
  {
    InitInv(time);
    RunKeepsInv(Init(time), events);
    var s := Run(Init(time), events);
    FatesAreDistinct(s);
    hide Run, Admissible, ChannelId, FateInv, EvictionInv, QueueInv, Distinct, Announces;
    forall i, j | 0 <= i < j < |s.accepted| ensures ChannelId(s.accepted[i]) != ChannelId(s.accepted[j]) {
      LabelIsInjective("ch-", s.accepted[i].number, s.accepted[j].number);
    }
    forall i, j | 0 <= i < j < |s.responses| ensures s.responses[i].channel != s.responses[j].channel {
      FatesAreDistinctAt(s, i, j);
      var a := AnsweredWasAccepted(s, i);
      var b := AnsweredWasAccepted(s, j);
      assert a < b || b < a;
    }
    forall i, c | 0 <= i < |s.responses| && c in s.refused ensures s.responses[i].channel != c {
      var a := AnsweredWasAccepted(s, i);
    }
  }

  lemma FatesAreDistinctAt(s: Loop, i: nat, j: nat)
    requires Distinct(Fates(s)) && i < j < |s.answered|
    ensures s.answered[i] != s.answered[j]
  {
    assert Fates(s)[|s.live| + i] == s.answered[i] && Fates(s)[|s.live| + j] == s.answered[j];
  }

  /** A response sent for an announced id goes out on the very channel that was announced under it. */
  lemma ResponsesReachTheAnnouncedRequest(time: nat, events: seq<Event>)
    requires Admissible(Init(time), events)
    ensures var s := Run(Init(time), events);
            forall n, p :: n in s.notices && p in s.responses && n.channelId == p.channelId ==> n.channel == p.channel
  {
    InitInv(time);
    RunKeepsInv(Init(time), events);
    var s := Run(Init(time), events);
    hide Run, Admissible, EvictionInv, QueueInv;
    forall n, p | n in s.notices && p in s.responses && n.channelId == p.channelId
      ensures n.channel == p.channel
    {
      var i :| 0 <= i < |s.notices| && s.notices[i] == n;
      assert Announces(s.accepted, s.notices[i]);
      var k :| 0 <= k < |s.accepted| && n.channelId == ChannelId(s.accepted[k]) && n.channel == s.accepted[k].channel;
      var j :| 0 <= j < |s.responses| && s.responses[j] == p;
      var l := AnsweredWasAccepted(s, j);
      LabelIsInjective("ch-", s.accepted[k].number, s.accepted[l].number);
    }
  }

  /**
   Eviction is oldest-first over a whole run: requests are evicted in the order of their ids, and
   every evicted id is below every id still pending. The map never exceeds its cap.
   */
  lemma EvictionIsOldestFirst(time: nat, events: seq<Event>)
    requires Admissible(Init(time), events)
    ensures var s := Run(Init(time), events);
            && |s.live| <= MAX_PENDING_RESPONSES
            && (forall i, j :: 0 <= i < j < |s.evicted| ==> s.evicted[i].number < s.evicted[j].number)
            && (forall e, r :: e in s.evicted && r in s.live ==> e.number < r.number)
  {
    InitInv(time);
    RunKeepsInv(Init(time), events);
  }

  /** A tick evicts what has been pending for the time to live or longer, and nothing younger. */
  lemma TickEvictsExactlyTheStale(s: Loop, time: nat)
    requires Inv(s) && s.running && s.now <= time
    ensures var t := Next(s, Event(time, Tick));
            && (forall r :: r in t.live <==> r in s.live && time - r.at < RESPONSE_TTL)
            && s.evicted <= t.evicted
            && s.live == t.evicted[|s.evicted|..] + t.live
  {
    StaleSuffix(s.live, time);
    assert s.live == s.live[..StaleCount(s.live, time)] + s.live[StaleCount(s.live, time)..];
  }

  /** As long as the last tick is at most `gap` ago, no pending request is as old as the time to live plus `gap`. */
  lemma PendingAgeIsBounded(time: nat, events: seq<Event>, gap: nat)
    requires Admissible(Init(time), events)
    ensures var s := Run(Init(time), events);
            s.now <= s.lastTick + gap ==> forall r :: r in s.live ==> s.now - r.at < RESPONSE_TTL + gap
  {
    InitInv(time);
    RunKeepsInv(Init(time), events);
  }

  /** A step brings in no request but the one it numbers anew. */
  lemma OnlyNewRequestsEnter(s: Loop, ev: Event)
    ensures s.counter <= Next(s, ev).counter
    ensures forall r :: r in Next(s, ev).live ==> r in s.live || r.number > s.counter
  {
  }

  lemma {:induction false} DepartedRequestsStayAway(s: Loop, events: seq<Event>, r: Request)
    requires r.number <= s.counter && r !in s.live
    ensures r !in Run(s, events).live
    decreases |events|
  {
    if events != [] {
      OnlyNewRequestsEnter(s, events[0]);
      DepartedRequestsStayAway(Next(s, events[0]), events[1..], r);
    }
  }

  lemma PendingIsNumbered(s: Loop, r: Request)
    requires Inv(s) && r in s.live
    ensures s.running && r.number <= s.counter
  {
  }

  lemma TickClears(s: Loop, tick: Event, limit: nat, r: Request)
    requires Inv(s) && Admits(s, tick) && s.running && tick.input.Tick? && tick.time >= limit + RESPONSE_TTL
    requires r in s.live && r.at <= limit
    ensures r !in Next(s, tick).live
  {
    TickEvictsExactlyTheStale(s, tick.time);
  }

  /**
   Room is made: after any run that contains a tick at least one time to live after `limit`, no
   request that arrived up to `limit` is pending any more. In particular, with `limit` the present,
   a map that is full now has lost all its present requests by then.
   */
  lemma {:induction false} EveryPendingRequestLeaves(s: Loop, events: seq<Event>, i: nat, limit: nat, r: Request)
    requires Inv(s) && Admissible(s, events)
    requires i < |events| && events[i].input.Tick? && events[i].time >= limit + RESPONSE_TTL
    requires r in s.live && r.at <= limit
    ensures r !in Run(s, events).live
    decreases |events|
  {
    hide Inv, Next;
    var t := Next(s, events[0]);
    PendingIsNumbered(s, r);
    NextKeepsInv(s, events[0]);
    OnlyNewRequestsEnter(s, events[0]);
    if i == 0 {
      TickClears(s, events[0], limit, r);
    }
    if r in t.live {
      assert events[1..][i - 1] == events[i];
      EveryPendingRequestLeaves(t, events[1..], i - 1, limit, r);
    } else {
      DepartedRequestsStayAway(t, events[1..], r);
    }
  }

  // ----- Messages in and out -----

  /** From notice `n0` on, each notice announces the accepted request `d` places further on, and none is missing. */
  predicate AnnouncedFrom(s: Loop, n0: nat, d: int) {
    && n0 <= |s.notices| && 0 <= n0 + d
    && |s.accepted| == |s.notices| + d
    && forall n :: n0 <= n < |s.notices| ==>
         s.notices[n].channelId == ChannelId(s.accepted[n + d]) && s.notices[n].channel == s.accepted[n + d].channel
  }

  lemma StepAnnounces(s: Loop, ev: Event, n0: nat, d: int)
    requires s.handler.Some? && AnnouncedFrom(s, n0, d)
    ensures Next(s, ev).handler.Some? && AnnouncedFrom(Next(s, ev), n0, d)
  {
    hide ChannelId;
  }

  lemma {:induction false} RunAnnounces(s: Loop, events: seq<Event>, n0: nat, d: int)
    requires s.handler.Some? && AnnouncedFrom(s, n0, d)
    ensures AnnouncedFrom(Run(s, events), n0, d)
    decreases |events|
  {
    if events != [] {
      StepAnnounces(s, events[0], n0, d);
      RunAnnounces(Next(s, events[0]), events[1..], n0, d);
    }
  }

  /** Once a handler is registered, every request accepted from then on is announced, once and in order. */
  lemma EveryRequestIsAnnounced(s: Loop, events: seq<Event>)
    requires s.handler.Some? && |s.notices| <= |s.accepted|
    ensures AnnouncedFrom(Run(s, events), |s.notices|, |s.accepted| - |s.notices|)
  {
    RunAnnounces(s, events, |s.notices|, |s.accepted| - |s.notices|);
  }

  /** Answering a pending request uses its own channel with the given data and disturbs no other request. */
  lemma SendResponseAnswersItsRequest(s: Loop, time: nat, r: Request, data: bytes)
    requires Inv(s) && s.running && r in s.live
    ensures var t := Next(s, Event(time, SendResponse(ChannelId(r), data)));
            && t.responses == s.responses + [Response(ChannelId(r), r.channel, data)]
            && (forall q :: q in t.live <==> q in s.live && q != r)
            && t.evicted == s.evicted
  {
    FindFinds(s.live, r);
    WithoutMembers(s.live, Find(s.live, ChannelId(r)));
    hide Find, ChannelId, Without, EvictionInv, ArrivalInv, FateInv, LogInv;
  }

  lemma FindFinds(live: seq<Request>, r: Request)
    requires Ordered(live) && r in live
    ensures var i := Find(live, ChannelId(r)); i < |live| && live[i] == r
  {
    var j :| 0 <= j < |live| && live[j] == r;
    var i := Find(live, ChannelId(r));
    LabelIsInjective("ch-", live[i].number, r.number);
  }

  /** An id that is not pending, because it is unknown, used up or expired, changes nothing but the clock. */
  lemma SendResponseToUnknownIdIsIgnored(s: Loop, time: nat, channelId: string, data: bytes)
    requires s.running && forall i :: 0 <= i < |s.live| ==> ChannelId(s.live[i]) != channelId
    ensures Next(s, Event(time, SendResponse(channelId, data))) == s.(now := time)
  {
  }

  lemma WithoutMembers(live: seq<Request>, i: nat)
    requires Ordered(live) && i < |live|
    ensures forall r :: r in Without(live, i) <==> r in live && r.number != live[i].number
    ensures forall r :: r in live && r.number == live[i].number ==> r == live[i]
  {
    var rest := Without(live, i);
    forall r ensures r in rest <==> r in live && r.number != live[i].number {
      if r in live && r.number != live[i].number {
        var j :| 0 <= j < |live| && live[j] == r;
        assert r == rest[if j < i then j else j - 1];
      }
      if r in rest {
        var j :| 0 <= j < |rest| && rest[j] == r;
        assert r == live[if j < i then j else j + 1];
      }
    }
  }
}
