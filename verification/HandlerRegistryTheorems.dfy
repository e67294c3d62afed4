/** The registry keeps its indices consistent and refines a plain set of (node, type, pid) triples. */
module HandlerRegistryTheorems {
  import opened Wrappers
  import opened Sequences
  import opened HandlerRegistrySpec

  // ----- Every step keeps the invariant -----

  lemma KeyDeleteMembers(entries: seq<Entry>, pid: Pid)
    requires DistinctPids(entries)
    ensures forall e :: e in KeyDelete(entries, pid) <==> e in entries && e.pid != pid
    ensures DistinctPids(KeyDelete(entries, pid))
  {
    hide KeyFind;
    var i, rest := KeyFind(entries, pid), KeyDelete(entries, pid);
    if i < |entries| {
      forall e ensures e in rest <==> e in entries && e.pid != pid {
        if e in rest {
          var j :| 0 <= j < |rest| && rest[j] == e;
          assert e == entries[if j < i then j else j + 1];
        }
        if e in entries && e.pid != pid {
          var j :| 0 <= j < |entries| && entries[j] == e;
          assert e == rest[if j < i then j else j - 1];
        }
      }
    }
  }

  /** Removing a subscriber takes out its one entry and its one monitor. */
  lemma DeleteKeepsLinked(reg: Registry, key: Key, e: Entry)
    requires Linked(reg) && Subscribed(reg, key, e)
    ensures var reg' := Registry(DeleteSubscriber(reg.subscriptions, key, e.pid), reg.monitors - {e.ref});
            && Linked(reg')
            && forall k, f :: Subscribed(reg', k, f) <==> Subscribed(reg, k, f) && !(k == key && f == e)
  {
    var reg' := Registry(DeleteSubscriber(reg.subscriptions, key, e.pid), reg.monitors - {e.ref});
    hide KeyDelete, DistinctPids;
    KeyDeleteMembers(reg.subscriptions[key], e.pid);
    forall f | Subscribed(reg, key, f) && f.pid == e.pid ensures f == e {
      SamePidSameEntry(reg, key, e, f);
    }
    forall k, f ensures Subscribed(reg', k, f) <==> Subscribed(reg, k, f) && !(k == key && f == e) {
      if k == key && Subscribed(reg, k, f) && f != e {
        assert f in KeyDelete(reg.subscriptions[key], e.pid);
      }
    }
    forall r | r in reg'.monitors ensures Subscribed(reg', reg.monitors[r].key, Entry(reg.monitors[r].pid, r)) {
      assert Subscribed(reg, reg.monitors[r].key, Entry(reg.monitors[r].pid, r));
    }
  }

  lemma SamePidSameEntry(reg: Registry, key: Key, e: Entry, f: Entry)
    requires Linked(reg) && Subscribed(reg, key, e) && Subscribed(reg, key, f) && e.pid == f.pid
    ensures e == f
  {
    var entries := reg.subscriptions[key];
    var i :| 0 <= i < |entries| && entries[i] == e;
    var j :| 0 <= j < |entries| && entries[j] == f;
    assert i == j;
  }

  lemma RegisterKeepsInv<E>(w: World<E>, key: Key, pid: Pid)
    requires Inv(w)
    ensures Inv(AfterRegister(w, key, pid))
  {
    var entries := Get(w.registry.subscriptions, key);
    if KeyFind(entries, pid) == |entries| {
      var w', e := AfterRegister(w, key, pid), Entry(pid, w.runtime.nextRef);
      assert forall k, f :: Subscribed(w'.registry, k, f) <==> Subscribed(w.registry, k, f) || (k == key && f == e);
    }
  }

  lemma DeleteKeepsMonitoring<E>(reg: Registry, rt: Runtime<E>, refs: set<Ref>)
    requires Monitoring(reg, rt)
    ensures Monitoring(reg.(monitors := reg.monitors - refs), Demonitor(rt, refs))
  {
  }

  lemma UnregisterKeepsInv<E>(w: World<E>, key: Key, pid: Pid)
    requires Inv(w)
    ensures Inv(AfterUnregister(w, key, pid))
  {
    hide Linked, Monitoring, DeleteSubscriber, Demonitor;
    var entries := Get(w.registry.subscriptions, key);
    var i := KeyFind(entries, pid);
    if i < |entries| {
      DeleteKeepsLinked(w.registry, key, entries[i]);
      DeleteKeepsMonitoring(w.registry, w.runtime, {entries[i].ref});
      MonitoringIgnoresSubscriptions(w.registry.(monitors := w.registry.monitors - {entries[i].ref}),
                                     AfterUnregister(w, key, pid).registry, Demonitor(w.runtime, {entries[i].ref}));
    }
  }

  lemma MonitoringIgnoresSubscriptions<E>(a: Registry, b: Registry, rt: Runtime<E>)
    requires Monitoring(a, rt) && a.monitors == b.monitors
    ensures Monitoring(b, rt)
  {
  }

  lemma CleanupKeepsInv<E>(w: World<E>, node: Pid)
    requires Inv(w)
    ensures Inv(AfterCleanup(w, node))
    ensures forall k, f :: Subscribed(AfterCleanup(w, node).registry, k, f) <==>
              Subscribed(w.registry, k, f) && k.node != node
  {
    var reg, refs := w.registry, RefsOf(w.registry.subscriptions, node);
    var w' := AfterCleanup(w, node);
    assert Linked(w'.registry) by {
      hide Monitoring, Demonitor, DistinctPids;
      forall r | r in reg.monitors ensures r in refs <==> reg.monitors[r].key.node == node {
        RefsOfMembers(reg, node, r);
      }
      hide RefsOf;
      forall k, f ensures Subscribed(w'.registry, k, f) <==> Subscribed(reg, k, f) && k.node != node {
      }
    }
    hide Linked, RefsOf;
    DeleteKeepsMonitoring(reg, w.runtime, refs);
    MonitoringIgnoresSubscriptions(reg.(monitors := reg.monitors - refs), w'.registry, w'.runtime);
  }

  lemma RefsOfMembers(reg: Registry, node: Pid, r: Ref)
    requires Linked(reg) && r in reg.monitors
    ensures r in RefsOf(reg.subscriptions, node) <==> reg.monitors[r].key.node == node
  {
    if reg.monitors[r].key.node == node {
      var key, e := reg.monitors[r].key, Entry(reg.monitors[r].pid, r);
      assert Subscribed(reg, key, e);
      var i :| 0 <= i < |reg.subscriptions[key]| && reg.subscriptions[key][i] == e;
    }
    if r in RefsOf(reg.subscriptions, node) {
      var key, i :| key in reg.subscriptions && key.node == node && 0 <= i < |reg.subscriptions[key]|
                 && reg.subscriptions[key][i].ref == r;
      assert Subscribed(reg, key, reg.subscriptions[key][i]);
    }
  }

  /** A queued :DOWN always names a live monitor of the same pid, so its handling cannot fail. */
  lemma DownKeepsInv<E>(w: World<E>)
    requires Inv(w) && w.runtime.inbox != []
    ensures var d, w' := w.runtime.inbox[0], AfterDown(w);
            && Inv(w')
            && d.ref in w.registry.monitors
            && w.registry.monitors[d.ref].pid == d.pid
            && forall k, f :: Subscribed(w'.registry, k, f) <==>
                 Subscribed(w.registry, k, f) && !(k == w.registry.monitors[d.ref].key && f == Entry(d.pid, d.ref))
  {
    var d := w.runtime.inbox[0];
    assert d in w.runtime.inbox;
    var reg' := RemoveDead(w.registry, d.ref, d.pid).value;
    DeleteKeepsLinked(w.registry, w.registry.monitors[d.ref].key, Entry(d.pid, d.ref));
    hide Linked, DeleteSubscriber;
    DownKeepsMonitoring(w.registry, w.runtime);
    hide Monitoring;
    MonitoringIgnoresSubscriptions(w.registry.(monitors := w.registry.monitors - {d.ref}), reg',
                                   w.runtime.(inbox := w.runtime.inbox[1..]));
  }

  lemma DownKeepsMonitoring<E>(reg: Registry, rt: Runtime<E>)
    requires Monitoring(reg, rt) && rt.inbox != []
    ensures Monitoring(reg.(monitors := reg.monitors - {rt.inbox[0].ref}), rt.(inbox := rt.inbox[1..]))
  {
    var d, rest := rt.inbox[0], rt.inbox[1..];
    assert rt.inbox == [d] + rest;
    assert d !in rest;
  }

  lemma ExitKeepsInv<E>(w: World<E>, pid: Pid, order: seq<Ref>)
    requires Inv(w) && Enabled(w, Exit(pid, order))
    ensures Inv(AfterExit(w, pid, order))
  {
    hide Linked;
    var w' := AfterExit(w, pid, order);
    var fired := Fired(pid, order);
    FiredMembers(pid, order);
    hide Fired;
    assert w'.runtime.inbox == w.runtime.inbox + fired;
    DistinctConcat(w.runtime.inbox, fired);
    hide Distinct;
    assert forall d :: d in w'.runtime.inbox <==> d in w.runtime.inbox || d in fired;
  }

  lemma FiredMembers(pid: Pid, order: seq<Ref>)
    requires Distinct(order)
    ensures Distinct(Fired(pid, order))
    ensures forall d :: d in Fired(pid, order) <==> d.pid == pid && d.ref in order
  {
    var fired := Fired(pid, order);
    forall d ensures d in fired <==> d.pid == pid && d.ref in order {
      if d.pid == pid && d.ref in order {
        var i :| 0 <= i < |order| && order[i] == d.ref;
        assert fired[i] == d;
      }
    }
  }

  lemma NextKeepsInv<E>(w: World<E>, op: Op<E>)
    requires Inv(w) && Enabled(w, op)
    ensures Inv(Next(w, op))
  {
    hide Linked, Monitoring;
    match op
    case Register(key, pid) => RegisterKeepsInv(w, key, pid);
    case Unregister(key, pid) => UnregisterKeepsInv(w, key, pid);
    case CleanupNode(node) => CleanupKeepsInv(w, node);
    case Dispatch(key, event) => DispatchKeepsInv(w, key, event);
    case HandleDown =>
      if w.runtime.inbox != [] {
        DownKeepsInv(w);
      }
    case Exit(pid, order) => ExitKeepsInv(w, pid, order);
  }

  lemma DispatchKeepsInv<E>(w: World<E>, key: Key, event: E)
    requires Inv(w)
    ensures Inv(AfterDispatch(w, key, event))
  {
  }

  lemma {:induction false} RunKeepsInv<E>(w: World<E>, ops: seq<Op<E>>)
    requires Inv(w) && Feasible(w, ops)
    ensures Inv(Run(w, ops))
    decreases |ops|
  {
    if ops != [] {
      NextKeepsInv(w, ops[0]);
      RunKeepsInv(Next(w, ops[0]), ops[1..]);
    }
  }

  /**
   In every reachable state the two maps index each other one to one, no list is empty or names a
   pid twice, every queued :DOWN names a live monitor of its own pid, and no callback has crashed.
   */
  lemma ReachableRegistryIsConsistent<E>(ops: seq<Op<E>>)
    requires Feasible(Init(), ops)
    ensures var w := Run(Init(), ops);
            && Linked(w.registry)
            && !w.crashed
            && Distinct(w.runtime.inbox)
            && forall d :: d in w.runtime.inbox ==>
                 d.ref in w.registry.monitors && w.registry.monitors[d.ref].pid == d.pid
  {
    RunKeepsInv<E>(Init(), ops);
  }

  // ----- Refinement of a set of triples -----

  datatype Triple = Triple(key: Key, pid: Pid)

  predicate Holds(reg: Registry, t: Triple) {
    exists i :: 0 <= i < |Get(reg.subscriptions, t.key)| && Get(reg.subscriptions, t.key)[i].pid == t.pid
  }

  /** The abstract registry: which pid is subscribed to which node and event type. */
  ghost function Triples(reg: Registry): iset<Triple> {
    iset t: Triple | Holds(reg, t)
  }

  /** What each step does to the set. A :DOWN takes out the triple its monitor was made for. */
  ghost function SetStep<E>(w: World<E>, op: Op<E>): iset<Triple> {
    var before := Triples(w.registry);
    match op
    case Register(key, pid) => before + iset{Triple(key, pid)}
    case Unregister(key, pid) => before - iset{Triple(key, pid)}
    case CleanupNode(node) => iset t | t in before && t.key.node != node
    case HandleDown =>
      if w.runtime.inbox == [] || w.runtime.inbox[0].ref !in w.registry.monitors then before
      else before - iset{Triple(w.registry.monitors[w.runtime.inbox[0].ref].key, w.runtime.inbox[0].pid)}
    case Dispatch(_, _) => before
    case Exit(_, _) => before
  }

  lemma HoldsIffSubscribed(reg: Registry, t: Triple)
    requires Linked(reg)
    ensures Holds(reg, t) <==> exists e :: Subscribed(reg, t.key, e) && e.pid == t.pid
    ensures Holds(reg, t) <==> exists r :: r in reg.monitors && reg.monitors[r] == Monitored(t.pid, t.key)
  {
    if Holds(reg, t) {
      var i :| 0 <= i < |Get(reg.subscriptions, t.key)| && Get(reg.subscriptions, t.key)[i].pid == t.pid;
      assert Subscribed(reg, t.key, reg.subscriptions[t.key][i]);
    }
    if e :| Subscribed(reg, t.key, e) && e.pid == t.pid {
      var i :| 0 <= i < |reg.subscriptions[t.key]| && reg.subscriptions[t.key][i] == e;
      assert Get(reg.subscriptions, t.key)[i].pid == t.pid;
    }
    if r :| r in reg.monitors && reg.monitors[r] == Monitored(t.pid, t.key) {
      assert Subscribed(reg, t.key, Entry(t.pid, r));
    }
  }

  /** Taking one entry away takes away exactly its triple. */
  lemma OneEntryLess(reg: Registry, reg': Registry, key: Key, e: Entry)
    requires Linked(reg) && Linked(reg') && Subscribed(reg, key, e)
    requires forall k, f :: Subscribed(reg', k, f) <==> Subscribed(reg, k, f) && !(k == key && f == e)
    ensures Triples(reg') == Triples(reg) - iset{Triple(key, e.pid)}
  {
    forall t: Triple ensures Holds(reg', t) <==> Holds(reg, t) && t != Triple(key, e.pid) {
      hide Holds, Linked, Subscribed;
      HoldsIffSubscribed(reg, t);
      HoldsIffSubscribed(reg', t);
      if f :| Subscribed(reg, key, f) && f.pid == e.pid && f != e {
        SamePidSameEntry(reg, key, e, f);
      }
    }
  }

  lemma RegisterRefines<E>(w: World<E>, key: Key, pid: Pid)
    requires Inv(w)
    ensures Triples(AfterRegister(w, key, pid).registry) == Triples(w.registry) + iset{Triple(key, pid)}
  {
    var w', entries := AfterRegister(w, key, pid), Get(w.registry.subscriptions, key);
    if KeyFind(entries, pid) < |entries| {
      assert Holds(w.registry, Triple(key, pid));
      return;
    }
    var entries' := Get(w'.registry.subscriptions, key);
    assert entries' == [Entry(pid, w.runtime.nextRef)] + entries;
    assert entries'[0].pid == pid;
    forall t ensures Holds(w'.registry, t) <==> Holds(w.registry, t) || t == Triple(key, pid) {
      if t.key != key {
        assert Get(w'.registry.subscriptions, t.key) == Get(w.registry.subscriptions, t.key);
      } else if t.pid != pid {
        if i :| 0 <= i < |entries| && entries[i].pid == t.pid {
          assert entries'[i + 1].pid == t.pid;
        }
        if i :| 0 <= i < |entries'| && entries'[i].pid == t.pid {
          assert entries[i - 1].pid == t.pid;
        }
      }
    }
  }

  /** The registry refines the plain set, step by step. */
  lemma StepRefinesSet<E>(w: World<E>, op: Op<E>)
    requires Inv(w) && Enabled(w, op)
    ensures Triples(Next(w, op).registry) == SetStep(w, op)
  {
    match op
    case Register(key, pid) => RegisterRefines(w, key, pid);
    case Unregister(key, pid) =>
      var entries := Get(w.registry.subscriptions, key);
      var i := KeyFind(entries, pid);
      if i < |entries| {
        hide Linked, Monitoring, DeleteSubscriber, Demonitor;
        assert Subscribed(w.registry, key, entries[i]);
        DeleteKeepsLinked(w.registry, key, entries[i]);
        OneEntryLess(w.registry, Next(w, op).registry, key, entries[i]);
      }
    case CleanupNode(node) =>
      forall t: Triple ensures Holds(Next(w, op).registry, t) <==> Holds(w.registry, t) && t.key.node != node {
        if t.key.node != node {
          assert Get(Next(w, op).registry.subscriptions, t.key) == Get(w.registry.subscriptions, t.key);
        }
      }
    case HandleDown =>
      if w.runtime.inbox != [] {
        var d := w.runtime.inbox[0];
        DownKeepsInv(w);
        assert Subscribed(w.registry, w.registry.monitors[d.ref].key, Entry(d.pid, d.ref));
        hide Monitoring, AfterDown;
        OneEntryLess(w.registry, AfterDown(w).registry, w.registry.monitors[d.ref].key, Entry(d.pid, d.ref));
      }
    case Dispatch(_, _) =>
    case Exit(_, _) =>
  }

  /** Once no :DOWN is queued, every subscriber is alive. */
  lemma QuietRegistryHasOnlyLivingSubscribers<E>(w: World<E>)
    requires Inv(w) && w.runtime.inbox == []
    ensures forall t :: t in Triples(w.registry) ==> t.pid !in w.runtime.dead
  {
    forall t | t in Triples(w.registry) ensures t.pid !in w.runtime.dead {
      HoldsIffSubscribed(w.registry, t);
      var r :| r in w.registry.monitors && w.registry.monitors[r] == Monitored(t.pid, t.key);
      assert r in w.runtime.armed;
    }
  }

  lemma DownSparesTheLiving<E>(w: World<E>)
    requires Inv(w) && w.runtime.inbox != []
    ensures var w' := AfterDown(w);
            && Inv(w') && w'.runtime.inbox == w.runtime.inbox[1..] && w'.runtime.dead == w.runtime.dead
            && forall t :: (t in Triples(w'.registry) ==> t in Triples(w.registry))
                        && (t.pid !in w.runtime.dead && t in Triples(w.registry) ==> t in Triples(w'.registry))
  {
    DownKeepsInv(w);
    StepRefinesSet(w, HandleDown);
    assert w.runtime.inbox[0] in w.runtime.inbox;
  }

  /** Handling the queued :DOWNs removes the subscriptions of dead processes and no others. */
  lemma {:induction false} DrainRemovesExactlyTheDead<E>(w: World<E>)
    requires Inv(w)
    ensures var w' := Run(w, seq(|w.runtime.inbox|, _ => HandleDown));
            && Inv(w') && w'.runtime.inbox == [] && w'.runtime.dead == w.runtime.dead
            && Triples(w'.registry) == iset t | t in Triples(w.registry) && t.pid !in w.runtime.dead
    decreases |w.runtime.inbox|
  {
    hide Inv, Triples;
    var n := |w.runtime.inbox|;
    if n == 0 {
      QuietRegistryHasOnlyLivingSubscribers(w);
    } else {
      hide AfterDown;
      var ops: seq<Op<E>> := seq(n, _ => HandleDown);
      assert ops[1..] == seq(n - 1, _ => HandleDown);
      assert Next(w, ops[0]) == AfterDown(w);
      DownSparesTheLiving(w);
      DrainRemovesExactlyTheDead(AfterDown(w));
    }
  }

  // ----- Delivery -----

  /** What a process has received. */
  function Received<E>(sent: seq<Message<E>>, pid: Pid): seq<Message<E>> {
    if sent == [] then []
    else (if sent[0].pid == pid then [sent[0]] else []) + Received(sent[1..], pid)
  }

  lemma {:induction false} ReceivedConcat<E>(a: seq<Message<E>>, b: seq<Message<E>>, pid: Pid)
    ensures Received(a + b, pid) == Received(a, pid) + Received(b, pid)
  {
    if a == [] {
      assert a + b == b;
    } else {
      ReceivedConcat(a[1..], b, pid);
      assert (a + b)[0] == a[0] && (a + b)[1..] == a[1..] + b;
      var first := if a[0].pid == pid then [a[0]] else [];
      ConcatIsAssociative(first, Received(a[1..], pid), Received(b, pid));
    }
  }

  lemma {:induction false} DeliveriesReachEachSubscriberOnce<E>(entries: seq<Entry>, eventType: string,
                                                                event: E, pid: Pid)
    requires DistinctPids(entries)
    ensures Received(Deliveries(entries, eventType, event), pid) ==
            if exists i :: 0 <= i < |entries| && entries[i].pid == pid then [Message(pid, eventType, event)] else []
  {
    if entries != [] {
      var messages := Deliveries(entries, eventType, event);
      assert messages[1..] == Deliveries(entries[1..], eventType, event);
      DeliveriesReachEachSubscriberOnce(entries[1..], eventType, event, pid);
      if i :| 0 <= i < |entries[1..]| && entries[1..][i].pid == pid {
        assert entries[i + 1].pid == pid;
      }
      if i :| 0 <= i < |entries| && entries[i].pid == pid && i > 0 {
        assert entries[1..][i - 1].pid == pid;
      }
    }
  }

  /**
   A dispatch sends one message for each entry of its key, in the order of the list, with the type
   and the event it was given, and changes nothing else.
   */
  lemma DispatchSendsToTheList<E>(w: World<E>, key: Key, event: E)
    ensures var w' := Next(w, Dispatch(key, event));
            var entries := if key in w.registry.subscriptions then w.registry.subscriptions[key] else [];
            var sent, sent' := w.runtime.sent, w'.runtime.sent;
            && w' == w.(runtime := w.runtime.(sent := sent'))
            && |sent'| == |sent| + |entries| && sent'[..|sent|] == sent
            && forall i :: 0 <= i < |entries| ==>
                 var m := sent'[|sent| + i];
                 m.pid == entries[i].pid && m.eventType == key.eventType && m.event == event
  {
  }

  /** The messages a process is due: one per dispatch made while its triple is in the set. */
  ghost function Due<E>(w: World<E>, ops: seq<Op<E>>, pid: Pid): seq<Message<E>>
    decreases |ops|
  {
    if ops == [] then []
    else
      DueAtOnce(w, ops[0], pid) + Due(Next(w, ops[0]), ops[1..], pid)
  }

  ghost function DueAtOnce<E>(w: World<E>, op: Op<E>, pid: Pid): seq<Message<E>> {
    if op.Dispatch? && Triple(op.key, pid) in Triples(w.registry) then [Message(pid, op.key.eventType, op.event)]
    else []
  }

  lemma StepDelivers<E>(w: World<E>, op: Op<E>, pid: Pid)
    requires Inv(w) && Enabled(w, op)
    ensures Received(Next(w, op).runtime.sent, pid) ==
            Received(w.runtime.sent, pid) + DueAtOnce(w, op, pid)
  {
    if op.Dispatch? {
      var entries := Get(w.registry.subscriptions, op.key);
      ReceivedConcat(w.runtime.sent, Deliveries(entries, op.key.eventType, op.event), pid);
      DeliveriesReachEachSubscriberOnce(entries, op.key.eventType, op.event, pid);
    }
  }

  /** Over any history a process receives exactly what it is due, in order, and nothing else. */
  lemma {:induction false} EveryProcessReceivesWhatIsDue<E>(w: World<E>, ops: seq<Op<E>>, pid: Pid)
    requires Inv(w) && Feasible(w, ops)
    ensures Received(Run(w, ops).runtime.sent, pid) == Received(w.runtime.sent, pid) + Due(w, ops, pid)
    decreases |ops|
  {
    if ops != [] {
      var t := Next(w, ops[0]);
      StepDelivers(w, ops[0], pid);
      NextKeepsInv(w, ops[0]);
      hide Next, Inv, Received, Triples;
      EveryProcessReceivesWhatIsDue(t, ops[1..], pid);
      var first := DueAtOnce(w, ops[0], pid);
      ConcatIsAssociative(Received(w.runtime.sent, pid), first, Due(t, ops[1..], pid));
    }
  }

  // ----- Order of the lists and the dead -----

  /** References are handed out in increasing order, so the entry made last stands first. */
  ghost predicate NewestFirst<E>(w: World<E>) {
    && (forall key, i :: key in w.registry.subscriptions && 0 <= i < |w.registry.subscriptions[key]| ==>
          w.registry.subscriptions[key][i].ref < w.runtime.nextRef)
    && (forall key :: key in w.registry.subscriptions ==> Descending(w.registry.subscriptions[key]))
  }

  predicate Descending(entries: seq<Entry>) {
    forall i, j :: 0 <= i < j < |entries| ==> entries[i].ref > entries[j].ref
  }

  lemma DeleteKeepsOrder(subscriptions: map<Key, seq<Entry>>, key: Key, pid: Pid, bound: Ref)
    requires forall k, i :: k in subscriptions && 0 <= i < |subscriptions[k]| ==> subscriptions[k][i].ref < bound
    requires forall k :: k in subscriptions ==> Descending(subscriptions[k])
    ensures var s := DeleteSubscriber(subscriptions, key, pid);
            && (forall k, i :: k in s && 0 <= i < |s[k]| ==> s[k][i].ref < bound)
            && forall k :: k in s ==> Descending(s[k])
  {
    hide KeyFind;
  }

  lemma NewestFirstStep<E>(w: World<E>, op: Op<E>)
    requires NewestFirst(w)
    ensures NewestFirst(Next(w, op))
  {
    hide DeleteSubscriber, KeyFind;
    match op
    case Unregister(key, pid) =>
      DeleteKeepsOrder(w.registry.subscriptions, key, pid, w.runtime.nextRef);
    case HandleDown =>
      if w.runtime.inbox != [] && w.runtime.inbox[0].ref in w.registry.monitors {
        var d := w.runtime.inbox[0];
        DeleteKeepsOrder(w.registry.subscriptions, w.registry.monitors[d.ref].key, d.pid, w.runtime.nextRef);
      }
    case _ =>
  }

  /** Over every history each list is ordered with the newest subscription first. */
  lemma {:induction false} ListsAreNewestFirst<E>(w: World<E>, ops: seq<Op<E>>)
    requires NewestFirst(w)
    ensures NewestFirst(Run(w, ops))
    decreases |ops|
  {
    if ops != [] {
      NewestFirstStep(w, ops[0]);
      ListsAreNewestFirst(Next(w, ops[0]), ops[1..]);
    }
  }

  /** Over every history the dead are the processes that exited; no callback kills or revives one. */
  lemma {:induction false} TheDeadAreThoseThatExited<E>(w: World<E>, ops: seq<Op<E>>, pid: Pid)
    ensures pid in Run(w, ops).runtime.dead <==>
            pid in w.runtime.dead || exists i :: 0 <= i < |ops| && ops[i].Exit? && ops[i].pid == pid
    decreases |ops|
  {
    if ops != [] {
      hide DeleteSubscriber, KeyFind;
      var rest := ops[1..];
      assert pid in Next(w, ops[0]).runtime.dead <==>
             pid in w.runtime.dead || (ops[0].Exit? && ops[0].pid == pid);
      hide Next;
      TheDeadAreThoseThatExited(Next(w, ops[0]), rest, pid);
      assert forall i :: 0 <= i < |rest| ==> rest[i] == ops[i + 1];
      if i :| 0 <= i < |ops| && ops[i].Exit? && ops[i].pid == pid && i > 0 {
        assert rest[i - 1].pid == pid;
      }
    }
  }
}
