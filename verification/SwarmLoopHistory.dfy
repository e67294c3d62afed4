/**
 What a run of the swarm loop owes to its events: every record of a run is read off the event
 sequence itself, without reference to the step function.
 */
module SwarmLoopHistory {
  import opened Wrappers
  import opened Bytes
  import opened Labels
  import opened SwarmLoopSpec
  import opened SwarmLoopTheorems

  /** The handler most recently registered in these events. */
  function LastHandler(events: seq<Event>): Option<Pid> {
    if events == [] then None
    else
      match events[|events| - 1].input
      case RegisterEventHandler(pid) => Some(pid)
      case _ => LastHandler(events[..|events| - 1])
  }

  /** The time of the most recent tick, or of the start. */
  function LastTickTime(start: nat, events: seq<Event>): nat {
    if events == [] then start
    else
      match events[|events| - 1].input
      case Tick => events[|events| - 1].time
      case _ => LastTickTime(start, events[..|events| - 1])
  }

  predicate Stopped(events: seq<Event>) {
    exists i :: 0 <= i < |events| && events[i].input == Stop
  }

  /** Event i is the arrival of the request with this channel and payload at this time. */
  predicate ArrivesAt(events: seq<Event>, i: nat, time: nat, channel: nat, payload: bytes) {
    i < |events| && events[i] == Event(time, Inbound(channel, payload))
  }

  ghost predicate HasArrived(events: seq<Event>, r: Request) {
    exists i: nat, payload :: ArrivesAt(events, i, r.at, r.channel, payload)
  }

  /** The notice carries the payload that arrived with its channel, to the handler registered last before. */
  ghost predicate Justified(events: seq<Event>, n: Notice) {
    exists i: nat, time :: ArrivesAt(events, i, time, n.channel, n.payload) && LastHandler(events[..i]) == Some(n.pid)
  }

  /** The response was ordered under this id with this data. */
  predicate Requested(events: seq<Event>, p: Response) {
    exists i :: 0 <= i < |events| && events[i].input == SendResponse(p.channelId, p.data)
  }

  /** Every accepted request that arrives while a handler is registered is announced to it with its payload. */
  ghost predicate AllAnnounced(events: seq<Event>, s: Loop) {
    forall i: nat, r, payload ::
      r in s.accepted && ArrivesAt(events, i, r.at, r.channel, payload) && !Stopped(events[..i])
      && LastHandler(events[..i]).Some? ==>
        Notice(LastHandler(events[..i]).value, "ch-" + Decimal(r.number), r.channel, payload) in s.notices
  }

  predicate ChannelsAreOld(events: seq<Event>, arrived: nat) {
    forall i :: 0 <= i < |events| && events[i].input.Inbound? ==> events[i].input.channel < arrived
  }

  /**
   Everything a run has recorded is read off its events, and everything it owes is recorded:
   acceptances at the time and with the channel of an arrival, notices with the payload of their
   arrival and to the handler of that moment, responses as they were ordered.
   */
  ghost predicate FollowsEvents(start: nat, events: seq<Event>, s: Loop) {
    && (s.running <==> !Stopped(events))
    && (s.running ==> s.handler == LastHandler(events))
    && (s.running ==> s.lastTick == LastTickTime(start, events))
    && (s.running ==> s.now == if events == [] then start else events[|events| - 1].time)
    && (s.running ==> ChannelsAreOld(events, s.arrived))
    && (forall r :: r in s.accepted ==> HasArrived(events, r))
    && (forall n :: n in s.notices ==> Justified(events, n))
    && (forall p :: p in s.responses ==> Requested(events, p))
    && AllAnnounced(events, s)
  }

  lemma {:induction false} RunSnoc(s: Loop, events: seq<Event>, ev: Event)
    ensures Run(s, events + [ev]) == Next(Run(s, events), ev)
    ensures Admissible(s, events + [ev]) <==> Admissible(s, events) && Admits(Run(s, events), ev)
    decreases |events|
  {
    if events != [] {
      assert (events + [ev])[1..] == events[1..] + [ev];
      RunSnoc(Next(s, events[0]), events[1..], ev);
    }
  }

  lemma HistoryGrows(events: seq<Event>, ev: Event)
    ensures Stopped(events + [ev]) <==> Stopped(events) || ev.input == Stop
    ensures forall r :: HasArrived(events, r) ==> HasArrived(events + [ev], r)
    ensures forall n :: Justified(events, n) ==> Justified(events + [ev], n)
    ensures forall p :: Requested(events, p) ==> Requested(events + [ev], p)
  {
    var more := events + [ev];
    if Stopped(events) {
      var i :| 0 <= i < |events| && events[i].input == Stop;
      assert more[i].input == Stop;
    }
    if ev.input == Stop {
      assert more[|events|].input == Stop;
    }
    forall r | HasArrived(events, r) ensures HasArrived(more, r) {
      var i: nat, payload :| ArrivesAt(events, i, r.at, r.channel, payload);
      assert ArrivesAt(more, i, r.at, r.channel, payload);
    }
    forall n | Justified(events, n) ensures Justified(more, n) {
      var i: nat, time :| ArrivesAt(events, i, time, n.channel, n.payload) && LastHandler(events[..i]) == Some(n.pid);
      assert more[..i] == events[..i];
      assert ArrivesAt(more, i, time, n.channel, n.payload);
    }
    forall p | Requested(events, p) ensures Requested(more, p) {
      var i :| 0 <= i < |events| && events[i].input == SendResponse(p.channelId, p.data);
      assert more[i].input == SendResponse(p.channelId, p.data);
    }
  }

  /** What one event adds to the records. */
  lemma RecordsOfStep(s: Loop, ev: Event)
    requires s.running
    ensures var t := Next(s, ev);
            && t.now == ev.time
            && t.arrived == s.arrived + (if ev.input.Inbound? then 1 else 0)
            && (t.running <==> ev.input != Stop)
            && t.handler == (if ev.input.RegisterEventHandler? then Some(ev.input.pid) else s.handler)
            && t.lastTick == (if ev.input.Tick? then ev.time else s.lastTick)
            && (forall p :: p in t.responses ==> p in s.responses || ev.input == SendResponse(p.channelId, p.data))
            && (forall n :: n in s.notices ==> n in t.notices)
  {
  }

  lemma RecordsOfArrival(s: Loop, ev: Event)
    requires s.running
    ensures var t := Next(s, ev);
            && (forall r :: r in t.accepted && r !in s.accepted ==>
                  ev.input.Inbound? && r.channel == ev.input.channel && r.at == ev.time)
            && (forall n :: n in t.notices && n !in s.notices ==>
                  && ev.input.Inbound? && n.channel == ev.input.channel && n.payload == ev.input.payload
                  && s.handler == Some(n.pid))
            && (forall r :: r in t.accepted && r !in s.accepted && s.handler.Some? ==>
                  Notice(s.handler.value, "ch-" + Decimal(r.number), r.channel, ev.input.payload) in t.notices)
  {
    hide Decimal;
  }

  lemma ArrivalStep(start: nat, events: seq<Event>, s: Loop, ev: Event)
    requires Inv(s) && Admits(s, ev) && FollowsEvents(start, events, s) && s.running
    ensures var t := Next(s, ev);
            && (forall r :: r in t.accepted ==> HasArrived(events + [ev], r))
            && (forall n :: n in t.notices ==> Justified(events + [ev], n))
  {
    var t, more, k := Next(s, ev), events + [ev], |events|;
    HistoryGrows(events, ev);
    RecordsOfArrival(s, ev);
    hide Next, Inv;
    assert more[..k] == events;
    forall r | r in t.accepted ensures HasArrived(more, r) {
      if r !in s.accepted {
        assert ArrivesAt(more, k, r.at, r.channel, ev.input.payload);
      }
    }
    forall n | n in t.notices ensures Justified(more, n) {
      if n !in s.notices {
        assert ArrivesAt(more, k, ev.time, n.channel, n.payload);
      }
    }
  }

  lemma AnnouncedStep(start: nat, events: seq<Event>, s: Loop, ev: Event)
    requires Inv(s) && Admits(s, ev) && FollowsEvents(start, events, s) && s.running
    ensures AllAnnounced(events + [ev], Next(s, ev))
  {
    var t, more, k := Next(s, ev), events + [ev], |events|;
    RecordsOfArrival(s, ev);
    RecordsOfStep(s, ev);
    assert forall r :: r in s.accepted ==> r.channel < s.arrived;
    forall i: nat, r, payload |
      r in t.accepted && ArrivesAt(more, i, r.at, r.channel, payload) && !Stopped(more[..i])
      && LastHandler(more[..i]).Some?
      ensures Notice(LastHandler(more[..i]).value, "ch-" + Decimal(r.number), r.channel, payload) in t.notices
    {
      hide Next, Inv, Decimal;
      assert more[..k] == events;
      if i < k {
        assert more[..i] == events[..i];
        assert ArrivesAt(events, i, r.at, r.channel, payload);
      }
    }
  }

  lemma FollowsStep(start: nat, events: seq<Event>, s: Loop, ev: Event)
    requires Inv(s) && Admits(s, ev) && FollowsEvents(start, events, s)
    ensures FollowsEvents(start, events + [ev], Next(s, ev))
  {
    var t, more, k := Next(s, ev), events + [ev], |events|;
    assert more[..k] == events && more[k] == ev;
    HistoryGrows(events, ev);
    if s.running {
      ArrivalStep(start, events, s, ev);
      AnnouncedStep(start, events, s, ev);
      RecordsOfStep(s, ev);
      hide Next, Inv, AllAnnounced, HasArrived, Justified, Stopped;
      forall p | p in t.responses ensures Requested(more, p) {
        if p !in s.responses {
          assert more[k].input == SendResponse(p.channelId, p.data);
        }
      }
    } else {
      assert t == s;
      hide Next, Inv, HasArrived, Justified, Requested;
      forall i: nat, r, payload |
        r in s.accepted && ArrivesAt(more, i, r.at, r.channel, payload) && !Stopped(more[..i])
        && LastHandler(more[..i]).Some?
        ensures Notice(LastHandler(more[..i]).value, "ch-" + Decimal(r.number), r.channel, payload) in s.notices
      {
        hide Decimal;
        assert i < k;
        assert more[..i] == events[..i];
        assert ArrivesAt(events, i, r.at, r.channel, payload);
      }
    }
  }

  /**
   Over every run. In particular: each notice carries the payload of the arrival with its channel
   and goes to the handler registered last before it; no accepted request goes unannounced while
   a handler is registered.
   */
  lemma {:induction false} EveryRunFollowsItsEvents(start: nat, events: seq<Event>)
    requires Admissible(Init(start), events)
    ensures FollowsEvents(start, events, Run(Init(start), events))
    decreases |events|
  {
    if events == [] {
    } else {
      var before, ev := events[..|events| - 1], events[|events| - 1];
      assert events == before + [ev];
      RunSnoc(Init(start), before, ev);
      EveryRunFollowsItsEvents(start, before);
      InitInv(start);
      RunKeepsInv(Init(start), before);
      FollowsStep(start, before, Run(Init(start), before), ev);
    }
  }

  /** An inbound request is accepted exactly when fewer than 1024 are pending, and refused otherwise. */
  lemma AcceptedIffRoom(s: Loop, time: nat, channel: nat, payload: bytes)
    requires s.running
    ensures var t := Next(s, Event(time, Inbound(channel, payload)));
            if |s.live| < 1024 then
              && t.live == s.live + [Request(s.counter + 1, channel, time)]
              && t.accepted == s.accepted + [Request(s.counter + 1, channel, time)] && t.refused == s.refused
            else t.live == s.live && t.accepted == s.accepted && t.refused == s.refused + [channel]
  {
  }
}
