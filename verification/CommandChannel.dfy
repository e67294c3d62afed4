/** The command channel as mutable state, operated by the NIF functions and the swarm loop. */
module CommandChannel {
  import opened CommandChannelSpec
  import opened CommandChannelTheorems

  class NodeHandle {
    var queue: seq<Command>
    var open: bool
    var handle: bool
    var calls: map<nat, Outcome>
    ghost var accepted: seq<Command>
    ghost var handled: seq<Command>
    ghost var discarded: seq<Command>

    ghost function View(): Node
      reads this
    {
      Node(queue, open, handle, calls, accepted, handled, discarded)
    }

    constructor ()
      ensures View() == Init()
    {
      queue, open, handle, calls := [], true, true, map[];
      accepted, handled, discarded := [], [], [];
    }

    /** `Sender::try_send`: never blocks; closed is reported before full. */
    method TrySend(cmd: Command) returns (r: SendResult)
      modifies this`queue, this`accepted
      ensures r == SendOutcome(old(View())) && View() == AfterSend(old(View()), cmd)
    {
      if !open {
        return Closed;
      }
      if |queue| >= CAPACITY {
        return Full;
      }
      queue := queue + [cmd];
      accepted := accepted + [cmd];
      r := Sent;
    }

    /** The sending half of `query_typed`: an immediate error, or a caller blocked on its oneshot. */
    method QueryTyped(call: nat)
      requires Enabled(View(), Ask(call))
      modifies this
      ensures View() == Next(old(View()), Ask(call))
    {
      var sent := TrySend(Query(call));
      match sent
      case Sent => calls := calls[call := Waiting];
      case Full => calls := calls[call := ChannelFull];
      case Closed => calls := calls[call := NodeStopped];
    }

    method SendTyped(tag: nat) returns (r: SendResult)
      requires Enabled(View(), Post(tag))
      modifies this
      ensures r == SendOutcome(old(View())) && View() == Next(old(View()), Post(tag))
    {
      r := TrySend(FireAndForget(tag));
    }

    method Stop()
      requires Enabled(View(), StopNode)
      modifies this
      ensures View() == Next(old(View()), StopNode)
    {
      var _ := TrySend(Shutdown);
    }

    method Drop()
      requires Enabled(View(), DropHandle)
      modifies this
      ensures View() == Next(old(View()), DropHandle)
    {
      var _ := TrySend(Shutdown);
      handle := false;
    }

    /** Dropping the receiver pops what is left and drops it, one command at a time. */
    method Close()
      requires CallInv(View())
      modifies this`open, this`queue, this`calls, this`discarded
      ensures View() == AfterClose(old(View()))
    {
      open := false;
      ghost var all := queue;
      var i := 0;
      while queue != []
        invariant !open && i <= |all| && queue == all[i..]
        invariant discarded == old(discarded) + all[..i]
        invariant calls.Keys == old(calls).Keys
        invariant forall c | c in calls ::
          calls[c] == if Query(c) in all[..i] then NodeStopped else old(calls)[c]
        decreases |queue|
      {
        var cmd := queue[0];
        queue := queue[1..];
        discarded := discarded + [cmd];
        assert all[..i + 1] == all[..i] + [all[i]];
        if cmd.Query? {
          assert Blocked(old(View()), cmd.call);
          calls := calls[cmd.call := NodeStopped];
        }
        i := i + 1;
      }
      assert all[..i] == all;
    }

    /** One turn of the loop with `cmd_rx.recv()`; `panics` when the handling of the command does. */
    method HandleNext(reply: nat, panics: bool)
      requires Inv(View()) && Enabled(View(), Receive(reply, panics))
      modifies this
      ensures View() == Next(old(View()), Receive(reply, panics))
      ensures Inv(View())
    {
      NextKeepsInv(View(), Receive(reply, panics));
      if queue == [] {
        Close();
        return;
      }
      TakeKeepsInv(View(), if panics then NodeStopped else Replied(reply));
      var cmd := queue[0];
      queue := queue[1..];
      handled := handled + [cmd];
      if cmd.Query? {
        calls := calls[cmd.call := if panics then NodeStopped else Replied(reply)];
      }
      if cmd.Shutdown? || panics {
        Close();
      }
    }
  }
}
