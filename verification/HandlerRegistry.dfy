/**
 The registry's callbacks: the GenServer state is a value that each callback returns anew, the
 runtime is updated in place.
 */
module HandlerRegistry {
  import opened Wrappers
  import opened Sequences
  import opened HandlerRegistrySpec
  import Spec = HandlerRegistrySpec

  /** The runtime as seen from the registry process. */
  class Beam<E> {
    var dead: set<Pid>
    var nextRef: Ref
    var armed: map<Ref, Pid>
    var inbox: seq<Down>
    var sent: seq<Message<E>>

    ghost function View(): Runtime<E>
      reads this
    {
      Runtime(dead, nextRef, armed, inbox, sent)
    }

    constructor ()
      ensures View() == Init<E>().runtime
    {
      dead, nextRef, armed, inbox, sent := {}, 0, map[], [], [];
    }

    method Monitor(pid: Pid) returns (ref: Ref)
      modifies this
      ensures ref == old(nextRef) && View() == Spec.Monitor(old(View()), pid)
    {
      ref := nextRef;
      nextRef := nextRef + 1;
      if pid in dead {
        inbox := inbox + [Down(ref, pid)];
      } else {
        armed := armed[ref := pid];
      }
    }

    /** `Process.demonitor(ref, [:flush])`. */
    method Demonitor(ref: Ref)
      modifies this`armed, this`inbox
      ensures View() == Spec.Demonitor(old(View()), {ref})
    {
      armed := armed - {ref};
      var kept: seq<Down> := [];
      for i := 0 to |inbox|
        invariant kept + Flush(inbox[i..], {ref}) == Flush(inbox, {ref})
      {
        ghost var before, rest := kept, Flush(inbox[i + 1..], {ref});
        assert inbox[i..][1..] == inbox[i + 1..];
        if inbox[i].ref != ref {
          kept := kept + [inbox[i]];
          assert kept + rest == before + ([inbox[i]] + rest);
        }
      }
      inbox := kept;
    }

    method Send(m: Message<E>)
      modifies this`sent
      ensures sent == old(sent) + [m]
    {
      sent := sent + [m];
    }
  }

  method HandleRegister<E>(state: Registry, vm: Beam<E>, key: Key, pid: Pid) returns (next: Registry)
    modifies vm
    ensures World(next, vm.View(), false) == AfterRegister(World(state, old(vm.View()), false), key, pid)
  {
    var entries := Get(state.subscriptions, key);
    if KeyFind(entries, pid) < |entries| {
      return state;
    }
    var ref := vm.Monitor(pid);
    next := Registry(state.subscriptions[key := [Entry(pid, ref)] + entries],
                     state.monitors[ref := Monitored(pid, key)]);
  }

  method HandleUnregister<E>(state: Registry, vm: Beam<E>, key: Key, pid: Pid) returns (next: Registry)
    modifies vm
    ensures World(next, vm.View(), false) == AfterUnregister(World(state, old(vm.View()), false), key, pid)
  {
    var entries := Get(state.subscriptions, key);
    var i := KeyFind(entries, pid);
    if i == |entries| {
      return state;
    }
    vm.Demonitor(entries[i].ref);
    var remaining := Without(entries, i);
    next := Registry(if remaining == [] then state.subscriptions - {key} else state.subscriptions[key := remaining],
                     state.monitors - {entries[i].ref});
  }

  lemma {:induction false} FlushTwice(inbox: seq<Down>, a: set<Ref>, b: set<Ref>)
    ensures Flush(Flush(inbox, a), b) == Flush(inbox, a + b)
  {
    if inbox != [] {
      FlushTwice(inbox[1..], a, b);
      var rest := Flush(inbox[1..], a);
      assert ([inbox[0]] + rest)[1..] == rest;
    }
  }

  function SetOf(refs: seq<Ref>): set<Ref> {
    set r | r in refs
  }

  /** Collects the keys and references of a node, in whatever order the map enumerates. */
  method CollectForNode(subscriptions: map<Key, seq<Entry>>, node: Pid)
    returns (keysToDrop: set<Key>, refsToDrop: seq<Ref>)
    ensures keysToDrop == KeysOf(subscriptions, node)
    ensures SetOf(refsToDrop) == RefsOf(subscriptions, node)
  {
    keysToDrop, refsToDrop := {}, [];
    var todo := subscriptions.Keys;
    while todo != {}
      invariant todo <= subscriptions.Keys
      invariant forall key :: key in keysToDrop <==> key in subscriptions && key !in todo && key.node == node
      invariant forall r :: r in refsToDrop <==>
        exists key, i :: key in keysToDrop && 0 <= i < |subscriptions[key]| && subscriptions[key][i].ref == r
      decreases |todo|
    {
      var key :| key in todo;
      todo := todo - {key};
      if key.node == node {
        var entries := subscriptions[key];
        var refs := seq(|entries|, i requires 0 <= i < |entries| => entries[i].ref);
        ghost var before := refsToDrop;
        refsToDrop := refs + refsToDrop;
        keysToDrop := keysToDrop + {key};
        forall r ensures r in refsToDrop <==> r in before || exists i :: 0 <= i < |entries| && entries[i].ref == r {
          if i :| 0 <= i < |entries| && entries[i].ref == r {
            assert refs[i] == r;
          }
        }
      }
    }
  }

  lemma DemonitorNone<E>(rt: Runtime<E>)
    ensures Demonitor(rt, {}) == rt
  {
    FlushNothing(rt.inbox);
    assert rt.armed - {} == rt.armed;
  }

  lemma DemonitorOneMore<E>(rt: Runtime<E>, done: set<Ref>, ref: Ref)
    ensures Demonitor(Demonitor(rt, done), {ref}) == Demonitor(rt, done + {ref})
  {
    FlushTwice(rt.inbox, done, {ref});
    assert rt.armed - done - {ref} == rt.armed - (done + {ref});
  }

  method DemonitorEach<E>(vm: Beam<E>, refs: seq<Ref>)
    modifies vm
    ensures vm.View() == Demonitor(old(vm.View()), SetOf(refs))
  {
    hide Demonitor;
    ghost var rt := vm.View();
    assert SetOf(refs[..0]) == {};
    DemonitorNone(rt);
    for i := 0 to |refs|
      invariant vm.View() == Demonitor(rt, SetOf(refs[..i]))
    {
      assert SetOf(refs[..i + 1]) == SetOf(refs[..i]) + {refs[i]};
      DemonitorOneMore(rt, SetOf(refs[..i]), refs[i]);
      vm.Demonitor(refs[i]);
    }
    assert refs[..|refs|] == refs;
  }

  method HandleCleanupNode<E>(state: Registry, vm: Beam<E>, node: Pid) returns (next: Registry)
    modifies vm
    ensures World(next, vm.View(), false) == AfterCleanup(World(state, old(vm.View()), false), node)
  {
    var keysToDrop, refsToDrop := CollectForNode(state.subscriptions, node);
    DemonitorEach(vm, refsToDrop);
    next := Registry(state.subscriptions - keysToDrop, state.monitors - SetOf(refsToDrop));
  }

  lemma {:induction false} FlushNothing(inbox: seq<Down>)
    ensures Flush(inbox, {}) == inbox
  {
    if inbox != [] {
      FlushNothing(inbox[1..]);
    }
  }

  method HandleDispatch<E>(state: Registry, vm: Beam<E>, key: Key, event: E)
    modifies vm
    ensures World(state, vm.View(), false) == AfterDispatch(World(state, old(vm.View()), false), key, event)
  {
    var entries := Get(state.subscriptions, key);
    for i := 0 to |entries|
      modifies vm`sent
      invariant vm.sent == old(vm.sent) + Deliveries(entries, key.eventType, event)[..i]
    {
      vm.Send(Message(entries[i].pid, key.eventType, event));
    }
  }

  /** Takes the next :DOWN out of the mailbox; None is a CaseClauseError. */
  method HandleNextDown<E>(state: Registry, vm: Beam<E>) returns (next: Option<Registry>)
    requires vm.inbox != []
    modifies vm`inbox
    ensures var after := AfterDown(World(state, old(vm.View()), false));
            match next
            case Some(reg) => World(reg, vm.View(), false) == after
            case None => World(state, vm.View(), true) == after
  {
    var d := vm.inbox[0];
    vm.inbox := vm.inbox[1..];
    next := RemoveDead(state, d.ref, d.pid);
  }
}
