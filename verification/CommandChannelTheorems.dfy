/** Safety and termination of the command channel, for every interleaving. */
module CommandChannelTheorems {
  import opened CommandChannelSpec
  import opened Sequences

  lemma SendKeepsInv(s: Node, cmd: Command)
    requires Inv(s) && !cmd.Query?
    ensures Inv(AfterSend(s, cmd))
  {
  }

  lemma AskKeepsInv(s: Node, call: nat)
    requires Inv(s) && call !in s.calls
    ensures Inv(AfterAsk(s, call))
  {
    assert Query(call) !in s.accepted;
    assert forall c :: c in s.queue ==> c in s.accepted;
  }

  lemma CloseKeepsInv(s: Node)
    requires Inv(s) && s.open
    ensures Inv(AfterClose(s)) && forall c :: !Blocked(AfterClose(s), c)
  {
  }

  /** Taking a command off the queue, with the outcome its caller gets if it is a query. */
  lemma TakeKeepsInv(s: Node, outcome: Outcome)
    requires Inv(s) && s.open && s.queue != [] && (outcome.Replied? || outcome.NodeStopped?)
    ensures var t := s.(queue := s.queue[1..], handled := s.handled + [s.queue[0]]);
            Inv(if s.queue[0].Query? then t.(calls := t.calls[s.queue[0].call := outcome]) else t)
  {
    assert s.queue == [s.queue[0]] + s.queue[1..];
    assert s.accepted == s.handled + [s.queue[0]] + s.queue[1..];
  }

  lemma NextKeepsInv(s: Node, step: Step)
    requires Inv(s) && Enabled(s, step)
    ensures Inv(Next(s, step))
  {
    hide FifoInv, CallInv, AfterClose, AfterSend, AfterAsk;
    match step
    case Ask(call) => AskKeepsInv(s, call);
    case Post(tag) => SendKeepsInv(s, FireAndForget(tag));
    case StopNode => SendKeepsInv(s, Shutdown);
    case DropHandle =>
      SendKeepsInv(s, Shutdown);
      DropKeepsInv(AfterSend(s, Shutdown));
    case Receive(reply, panics) =>
      if s.queue == [] {
        CloseKeepsInv(s);
      } else {
        var outcome := if panics then NodeStopped else Replied(reply);
        TakeKeepsInv(s, outcome);
        var t := s.(queue := s.queue[1..], handled := s.handled + [s.queue[0]]);
        if s.queue[0].Query? {
          t := t.(calls := t.calls[s.queue[0].call := outcome]);
        }
        CloseKeepsInv(t);
      }
    case OtherLoopEvent =>
  }

  lemma DropKeepsInv(s: Node)
    requires Inv(s)
    ensures Inv(s.(handle := false))
  {
  }

  lemma {:induction false} RunKeepsInv(s: Node, steps: seq<Step>)
    requires Inv(s) && Feasible(s, steps)
    ensures Inv(Run(s, steps))
    decreases |steps|
  {
    if steps != [] {
      NextKeepsInv(s, steps[0]);
      RunKeepsInv(Next(s, steps[0]), steps[1..]);
    }
  }

  /**
   In every reachable state: the queue is bounded, commands were handled in the order in which
   they were accepted, callers are blocked exactly while their query is queued, and nobody is
   blocked once the loop has exited.
   */
  lemma ReachableStatesAreSafe(steps: seq<Step>)
    requires Feasible(Init(), steps)
    ensures var s := Run(Init(), steps);
            && |s.queue| <= CAPACITY
            && s.handled + s.queue <= s.accepted
            && (forall c :: Blocked(s, c) <==> Query(c) in s.queue)
            && (!s.open ==> forall c :: c in s.calls ==> s.calls[c] != Waiting)
  {
    RunKeepsInv(Init(), steps);
    var s := Run(Init(), steps);
    ConcatIsAssociative(s.handled, s.queue, s.discarded);
    forall c | !s.open && c in s.calls ensures s.calls[c] != Waiting {
      assert !Blocked(s, c);
    }
  }

  lemma {:induction false} RunKeepsStoppedInv(s: Node, steps: seq<Step>)
    requires StoppedInv(s) && Feasible(s, steps)
    ensures StoppedInv(Run(s, steps))
    decreases |steps|
  {
    if steps != [] {
      RunKeepsStoppedInv(Next(s, steps[0]), steps[1..]);
    }
  }

  /**
   What an outcome means: a reply was given by a loop that handled the query, a full channel means
   the query was never accepted, and a stopped node has indeed left its loop.
   */
  lemma OutcomesAreTruthful(steps: seq<Step>, call: nat)
    requires Feasible(Init(), steps) && call in Run(Init(), steps).calls
    ensures var s := Run(Init(), steps);
            match s.calls[call]
            case Waiting => s.open && Query(call) in s.queue
            case Replied(_) => Query(call) in s.handled
            case ChannelFull => Query(call) !in s.accepted
            case NodeStopped => !s.open
  {
    RunKeepsInv(Init(), steps);
    RunKeepsStoppedInv(Init(), steps);
    OutcomeMeaning(Run(Init(), steps), call);
  }

  lemma OutcomeMeaning(s: Node, call: nat)
    requires Inv(s) && StoppedInv(s) && call in s.calls
    ensures match s.calls[call]
            case Waiting => s.open && Query(call) in s.queue
            case Replied(_) => Query(call) in s.handled
            case ChannelFull => Query(call) !in s.accepted
            case NodeStopped => !s.open
  {
    assert s.calls[call] == Waiting <==> Blocked(s, call);
  }

  lemma OutcomeSurvivesStep(s: Node, step: Step, call: nat)
    requires Inv(s) && Enabled(s, step) && call in s.calls && s.calls[call] != Waiting
    ensures call in Next(s, step).calls && Next(s, step).calls[call] == s.calls[call]
  {
    assert Query(call) !in s.queue;
  }

  /** A query ends once: whatever a call has come to is never changed again. */
  lemma {:induction false} OutcomesAreFinal(s: Node, steps: seq<Step>, call: nat)
    requires Inv(s) && Feasible(s, steps) && call in s.calls && s.calls[call] != Waiting
    ensures call in Run(s, steps).calls && Run(s, steps).calls[call] == s.calls[call]
    decreases |steps|
  {
    if steps != [] {
      OutcomeSurvivesStep(s, steps[0], call);
      NextKeepsInv(s, steps[0]);
      OutcomesAreFinal(Next(s, steps[0]), steps[1..], call);
    }
  }

  lemma WaitStep(s: Node, step: Step, call: nat, k: nat)
    requires Inv(s) && Enabled(s, step) && k < |s.queue| && s.queue[k] == Query(call)
    ensures var t, r := Next(s, step), if step.Receive? then 1 else 0;
            && call in t.calls
            && (Blocked(t, call) ==> r <= k < |t.queue| + r && t.queue[k - r] == Query(call))
  {
    assert Blocked(s, call);
    NextKeepsInv(s, step);
    if step.Receive? && Blocked(Next(s, step), call) {
      assert Query(call) in Next(s, step).queue;
    }
  }

  /**
   Bounded waiting: a caller whose query has k commands in front of it is no longer blocked after
   the loop has turned to the queue more than k times, in whatever interleaving with other
   senders. Until then its query moves forward by one with each turn.
   */
  lemma {:induction false} WaitingIsBounded(s: Node, steps: seq<Step>, call: nat, k: nat)
    requires Inv(s) && Feasible(s, steps) && k < |s.queue| && s.queue[k] == Query(call)
    ensures var t, r := Run(s, steps), Receives(steps);
            && call in t.calls
            && (Blocked(t, call) ==> r <= k < |t.queue| + r && t.queue[k - r] == Query(call))
    decreases |steps|
  {
    assert Blocked(s, call);
    if steps != [] {
      var t := Next(s, steps[0]);
      WaitStep(s, steps[0], call, k);
      NextKeepsInv(s, steps[0]);
      hide Inv, Next, Enabled;
      if Blocked(t, call) {
        WaitingIsBounded(t, steps[1..], call, if steps[0].Receive? then k - 1 else k);
      } else {
        OutcomesAreFinal(t, steps[1..], call);
      }
    }
  }

  /** When the handle is dropped no query is queued: its caller would still hold the handle. */
  lemma DropFindsNoQuery(s: Node)
    requires Inv(s) && Enabled(s, DropHandle)
    ensures forall c :: Query(c) !in s.queue
  {
    forall c ensures Query(c) !in s.queue {
      assert !Blocked(s, c);
    }
  }

  /**
   Without a handle the loop terminates: it is never stuck, it turns to the queue at most once per
   queued command and once more, and after that many turns it has exited. What it handles
   meanwhile was queued already. Nothing here depends on a Shutdown having found room.
   */
  lemma {:induction false} LoopEndsAfterDrop(s: Node, steps: seq<Step>)
    requires Inv(s) && !s.handle && Feasible(s, steps)
    ensures var t := Run(s, steps);
            && !t.handle
            && Receives(steps) <= |s.queue| + 1
            && (Receives(steps) == |s.queue| + 1 ==> !t.open)
            && (t.open ==> Enabled(t, Receive(0, false)))
            && t.handled <= s.handled + s.queue
    decreases |steps|
  {
    if steps != [] {
      var t := Next(s, steps[0]);
      NextKeepsInv(s, steps[0]);
      LoopEndsAfterDrop(t, steps[1..]);
      if steps[0].Receive? && s.queue != [] {
        assert s.handled + s.queue == s.handled + [s.queue[0]] + s.queue[1..];
        assert t.handled + t.queue <= s.handled + s.queue;
      }
    }
  }

  /** A drop that finds the queue full still ends the loop: the closed channel makes up for the refused Shutdown. */
  lemma DropOfAFullQueueEndsTheLoop(s: Node, steps: seq<Step>)
    requires Inv(s) && |s.queue| == CAPACITY && Feasible(s, [DropHandle] + steps)
    requires Receives(steps) > CAPACITY
    ensures Next(s, DropHandle).queue == s.queue
    ensures !Run(s, [DropHandle] + steps).open
  {
    var all := [DropHandle] + steps;
    assert all[1..] == steps;
    NextKeepsInv(s, DropHandle);
    LoopEndsAfterDrop(Next(s, DropHandle), steps);
  }

  // ----- Exact results of sends and turns -----

  /** A query asked is queued with its caller blocked, or refused at once for the reason that applies. */
  lemma AskIsQueuedOrRefused(s: Node, call: nat)
    requires Enabled(s, Ask(call))
    ensures var t := Next(s, Ask(call));
            && t.calls.Keys == s.calls.Keys + {call}
            && (forall c :: c in s.calls ==> t.calls[c] == s.calls[c])
            && (!s.open ==> t.calls[call] == NodeStopped && t.queue == s.queue)
            && (s.open && |s.queue| >= 512 ==> t.calls[call] == ChannelFull && t.queue == s.queue)
            && (s.open && |s.queue| < 512 ==> t.calls[call] == Waiting && t.queue == s.queue + [Query(call)])
  {
  }

  /** What the other senders put into the queue: exactly when it is open and has room. */
  lemma SendsAreAcceptedIffRoom(s: Node, tag: nat)
    ensures var room := s.open && |s.queue| < 512;
            && Next(s, Post(tag)).queue == (if room then s.queue + [FireAndForget(tag)] else s.queue)
            && Next(s, StopNode).queue == (if room then s.queue + [Shutdown] else s.queue)
            && Next(s, DropHandle).queue == (if room then s.queue + [Shutdown] else s.queue)
            && !Next(s, DropHandle).handle
  {
  }

  /** The loop is left by exactly these turns: a Shutdown, a panic, or a queue that is empty for good. */
  lemma LoopExitsExactlyWhen(s: Node, step: Step)
    requires s.open && Enabled(s, step)
    ensures !Next(s, step).open <==> step.Receive? && (s.queue == [] || s.queue[0] == Shutdown || step.panics)
  {
  }

  lemma {:induction false} ClosedStaysClosed(s: Node, steps: seq<Step>)
    requires Inv(s) && !s.open && Feasible(s, steps)
    ensures !Run(s, steps).open && Receives(steps) == 0
    decreases |steps|
  {
    if steps != [] {
      NextKeepsInv(s, steps[0]);
      ClosedStaysClosed(Next(s, steps[0]), steps[1..]);
    }
  }

  /** A queued command moves forward by one with each turn, as long as the loop runs. */
  lemma QueueStep(s: Node, step: Step, k: nat)
    requires Inv(s) && Enabled(s, step) && k < |s.queue| && Next(s, step).open
    requires step.Receive? ==> k > 0
    ensures var t, r := Next(s, step), if step.Receive? then 1 else 0;
            k - r < |t.queue| && t.queue[k - r] == s.queue[k]
  {
  }

  /** A queued Shutdown ends the loop at its turn at the latest, also while the handle is alive. */
  lemma {:induction false} ShutdownEndsTheLoop(s: Node, steps: seq<Step>, k: nat)
    requires Inv(s) && Feasible(s, steps) && k < |s.queue| && s.queue[k] == Shutdown
    requires Receives(steps) > k
    ensures !Run(s, steps).open
    decreases |steps|
  {
    var t := Next(s, steps[0]);
    NextKeepsInv(s, steps[0]);
    if s.open {
      LoopExitsExactlyWhen(s, steps[0]);
    }
    if t.open {
      QueueStep(s, steps[0], k);
      ShutdownEndsTheLoop(t, steps[1..], if steps[0].Receive? then k - 1 else k);
    } else {
      ClosedStaysClosed(t, steps[1..]);
    }
  }

  /** `stop_node` on a queue with room: the loop has ended after the commands queued before it, and one turn. */
  lemma StopNodeEndsTheLoop(s: Node, steps: seq<Step>)
    requires Inv(s) && s.open && |s.queue| < CAPACITY && Feasible(s, [StopNode] + steps)
    requires Receives(steps) > |s.queue|
    ensures !Run(s, [StopNode] + steps).open
  {
    var all := [StopNode] + steps;
    assert all[1..] == steps;
    NextKeepsInv(s, StopNode);
    ShutdownEndsTheLoop(Next(s, StopNode), steps, |s.queue|);
  }

  /** The k-th turn of the loop with the queue. */
  function NthReceive(steps: seq<Step>, k: nat): (step: Step)
    requires k < Receives(steps)
    ensures step.Receive?
  {
    if steps[0].Receive? then
      if k == 0 then steps[0] else NthReceive(steps[1..], k - 1)
    else NthReceive(steps[1..], k)
  }

  /**
   The outcome of a queued query is determined: with k commands in front of it, turn k answers it
   with the reply of that very turn, or with NodeStopped if that turn panics. Before turn k it is
   open, unless the loop has ended; then it is NodeStopped.
   */
  lemma {:induction false} QueryOutcomeIsDetermined(s: Node, steps: seq<Step>, call: nat, k: nat)
    requires Inv(s) && StoppedInv(s) && Feasible(s, steps) && k < |s.queue| && s.queue[k] == Query(call)
    ensures var t := Run(s, steps);
            && call in t.calls
            && t.calls[call] ==
               if Receives(steps) > k then
                 if NthReceive(steps, k).panics then NodeStopped else Replied(NthReceive(steps, k).reply)
               else if t.open then Waiting else NodeStopped
    decreases |steps|
  {
    assert Blocked(s, call);
    if steps != [] {
      var t := Next(s, steps[0]);
      NextKeepsInv(s, steps[0]);
      if steps[0].Receive? && k == 0 {
        assert t.calls[call] == if steps[0].panics then NodeStopped else Replied(steps[0].reply);
        OutcomesAreFinal(t, steps[1..], call);
      } else if t.open {
        QueueStep(s, steps[0], k);
        hide Inv, Next, Enabled;
        QueryOutcomeIsDetermined(t, steps[1..], call, if steps[0].Receive? then k - 1 else k);
      } else {
        CloseEndsQuery(s, steps[0], call, k);
        OutcomesAreFinal(t, steps[1..], call);
        ClosedStaysClosed(t, steps[1..]);
      }
    }
  }

  /** A turn that ends the loop stops every query that was not at the head. */
  lemma CloseEndsQuery(s: Node, step: Step, call: nat, k: nat)
    requires Inv(s) && Enabled(s, step) && k < |s.queue| && s.queue[k] == Query(call)
    requires s.open && !Next(s, step).open && (step.Receive? ==> k > 0)
    ensures call in Next(s, step).calls && Next(s, step).calls[call] == NodeStopped
  {
    assert Blocked(s, call);
    assert s.queue[1..][k - 1] == Query(call);
  }

  /** Turns handle commands one by one, in the order of the queue, whatever is sent meanwhile. */
  lemma {:induction false} TurnsHandleInOrder(s: Node, steps: seq<Step>)
    requires Inv(s) && Feasible(s, steps) && Receives(steps) <= |s.queue|
    ensures Run(s, steps).handled == s.handled + s.queue[..Receives(steps)]
    decreases |steps|
  {
    if steps == [] {
      assert s.handled + s.queue[..0] == s.handled;
    } else {
      var t, r := Next(s, steps[0]), Receives(steps[1..]);
      NextKeepsInv(s, steps[0]);
      TurnHandles(s, steps[0]);
      hide Inv, Next, Enabled;
      if !t.open {
        if s.open {
          LoopExitsExactlyWhen(s, steps[0]);
        }
        ClosedStaysClosed(t, steps[1..]);
        ClosedHandlesNothing(t, steps[1..]);
      } else {
        TurnsHandleInOrder(t, steps[1..]);
        SlicesJoin(s.queue, t.queue, if steps[0].Receive? then 1 else 0, r);
      }
    }
  }

  lemma SlicesJoin<T>(q: seq<T>, q': seq<T>, m: nat, n: nat)
    requires m + n <= |q| && q[m..] <= q'
    ensures q[..m] + q'[..n] == q[..m + n]
  {
    assert q'[..n] == q[m..][..n];
  }

  lemma TurnHandles(s: Node, step: Step)
    requires Inv(s) && Enabled(s, step) && (step.Receive? ==> s.queue != [])
    ensures var t, r := Next(s, step), if step.Receive? then 1 else 0;
            && t.handled == s.handled + s.queue[..r]
            && (t.open ==> s.queue[r..] <= t.queue)
  {
    assert s.queue[..0] == [];
    assert s.queue != [] ==> s.queue[..1] == [s.queue[0]];
  }

  lemma {:induction false} ClosedHandlesNothing(s: Node, steps: seq<Step>)
    requires Inv(s) && !s.open && Feasible(s, steps)
    ensures Run(s, steps).handled == s.handled
    decreases |steps|
  {
    if steps != [] {
      NextKeepsInv(s, steps[0]);
      ClosedHandlesNothing(Next(s, steps[0]), steps[1..]);
    }
  }
}
