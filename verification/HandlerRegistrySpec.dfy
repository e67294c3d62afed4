/**
 The handler registry and the part of the Erlang runtime it acts on.

 The registry's state is two maps that index each other: subscriptions by node and event type,
 monitors by reference. The runtime keeps the armed monitors, the `:DOWN` messages on their way
 to the registry and everything that was sent to subscribers.
 */
module HandlerRegistrySpec {
  import opened Wrappers
  import opened Sequences

  type Pid = nat
  type Ref = nat

  datatype Key = Key(node: Pid, eventType: string)
  datatype Entry = Entry(pid: Pid, ref: Ref)
  datatype Monitored = Monitored(pid: Pid, key: Key)
  datatype Registry = Registry(subscriptions: map<Key, seq<Entry>>, monitors: map<Ref, Monitored>)

  datatype Down = Down(ref: Ref, pid: Pid)
  datatype Message<E> = Message(pid: Pid, eventType: string, event: E)

  datatype Runtime<E> = Runtime(
    dead: set<Pid>,
    nextRef: Ref,
    armed: map<Ref, Pid>,
    inbox: seq<Down>,
    sent: seq<Message<E>>)

  /** `crashed` records a CaseClauseError of the registry. */
  datatype World<E> = World(registry: Registry, runtime: Runtime<E>, crashed: bool)

  datatype Op<E> =
    | Register(key: Key, pid: Pid)
    | Unregister(key: Key, pid: Pid)
    | CleanupNode(node: Pid)
    | Dispatch(key: Key, event: E)
    | HandleDown                            // the registry takes the next :DOWN
    | Exit(pid: Pid, order: seq<Ref>)       // a process dies; its monitors fire in this order

  function Init<E>(): World<E> {
    World(Registry(map[], map[]), Runtime({}, 0, map[], [], []), false)
  }

  // ----- Lists of entries -----

  function Get(subscriptions: map<Key, seq<Entry>>, key: Key): seq<Entry> {
    if key in subscriptions then subscriptions[key] else []
  }

  /** The index of the first entry of this pid, or the length of the list. */
  function KeyFind(entries: seq<Entry>, pid: Pid): (i: nat)
    ensures i <= |entries|
    ensures i < |entries| ==> entries[i].pid == pid
    ensures forall j :: 0 <= j < i ==> entries[j].pid != pid
  {
    if entries == [] || entries[0].pid == pid then 0 else 1 + KeyFind(entries[1..], pid)
  }

  function KeyDelete(entries: seq<Entry>, pid: Pid): seq<Entry> {
    var i := KeyFind(entries, pid);
    if i < |entries| then Without(entries, i) else entries
  }

  /** The list without its entry of this pid is put back; an empty list is removed with its key. */
  function DeleteSubscriber(subscriptions: map<Key, seq<Entry>>, key: Key, pid: Pid): map<Key, seq<Entry>> {
    var remaining := KeyDelete(Get(subscriptions, key), pid);
    if remaining == [] then subscriptions - {key} else subscriptions[key := remaining]
  }

  // ----- Runtime -----

  /** `Process.monitor`: a process that is dead already answers with an immediate :DOWN. */
  function Monitor<E>(rt: Runtime<E>, pid: Pid): Runtime<E> {
    var ref := rt.nextRef;
    if pid in rt.dead then rt.(nextRef := ref + 1, inbox := rt.inbox + [Down(ref, pid)])
    else rt.(nextRef := ref + 1, armed := rt.armed[ref := pid])
  }

  function Flush(inbox: seq<Down>, refs: set<Ref>): (kept: seq<Down>)
    ensures forall d :: d in kept <==> d in inbox && d.ref !in refs
    ensures Distinct(inbox) ==> Distinct(kept)
  {
    if inbox == [] then []
    else
      var rest := Flush(inbox[1..], refs);
      if inbox[0].ref in refs then rest else [inbox[0]] + rest
  }

  /** `Process.demonitor(ref, [:flush])` for each of these references. */
  function Demonitor<E>(rt: Runtime<E>, refs: set<Ref>): Runtime<E> {
    rt.(armed := rt.armed - refs, inbox := Flush(rt.inbox, refs))
  }

  // ----- Registry callbacks -----

  function AfterRegister<E>(w: World<E>, key: Key, pid: Pid): World<E> {
    var entries := Get(w.registry.subscriptions, key);
    if KeyFind(entries, pid) < |entries| then w
    else
      var ref := w.runtime.nextRef;
      w.(registry := Registry(w.registry.subscriptions[key := [Entry(pid, ref)] + entries],
                              w.registry.monitors[ref := Monitored(pid, key)]),
         runtime := Monitor(w.runtime, pid))
  }

  function AfterUnregister<E>(w: World<E>, key: Key, pid: Pid): World<E> {
    var entries := Get(w.registry.subscriptions, key);
    var i := KeyFind(entries, pid);
    if i == |entries| then w
    else
      w.(registry := Registry(DeleteSubscriber(w.registry.subscriptions, key, pid),
                              w.registry.monitors - {entries[i].ref}),
         runtime := Demonitor(w.runtime, {entries[i].ref}))
  }

  function KeysOf(subscriptions: map<Key, seq<Entry>>, node: Pid): set<Key> {
    set key | key in subscriptions && key.node == node
  }

  function RefsOf(subscriptions: map<Key, seq<Entry>>, node: Pid): set<Ref> {
    set key, i | key in subscriptions && key.node == node && 0 <= i < |subscriptions[key]| :: subscriptions[key][i].ref
  }

  function AfterCleanup<E>(w: World<E>, node: Pid): World<E> {
    var refs := RefsOf(w.registry.subscriptions, node);
    w.(registry := Registry(w.registry.subscriptions - KeysOf(w.registry.subscriptions, node),
                            w.registry.monitors - refs),
       runtime := Demonitor(w.runtime, refs))
  }

  /** The messages of one dispatch, in list order. */
  function Deliveries<E>(entries: seq<Entry>, eventType: string, event: E): seq<Message<E>> {
    seq(|entries|, i requires 0 <= i < |entries| => Message(entries[i].pid, eventType, event))
  }

  function AfterDispatch<E>(w: World<E>, key: Key, event: E): World<E> {
    var messages := Deliveries(Get(w.registry.subscriptions, key), key.eventType, event);
    w.(runtime := w.runtime.(sent := w.runtime.sent + messages))
  }

  /** `remove_dead_subscriber`; None stands for the CaseClauseError when the monitor names another pid. */
  function RemoveDead(reg: Registry, ref: Ref, pid: Pid): Option<Registry> {
    if ref !in reg.monitors then Some(reg)
    else if reg.monitors[ref].pid != pid then None
    else Some(Registry(DeleteSubscriber(reg.subscriptions, reg.monitors[ref].key, pid), reg.monitors - {ref}))
  }

  function AfterDown<E>(w: World<E>): World<E> {
    if w.runtime.inbox == [] then w
    else
      var d := w.runtime.inbox[0];
      var rt := w.runtime.(inbox := w.runtime.inbox[1..]);
      match RemoveDead(w.registry, d.ref, d.pid)
      case Some(reg) => World(reg, rt, w.crashed)
      case None => World(w.registry, rt, true)
  }

  function AfterExit<E>(w: World<E>, pid: Pid, order: seq<Ref>): World<E> {
    w.(runtime := w.runtime.(
         dead := w.runtime.dead + {pid},
         armed := map r | r in w.runtime.armed && w.runtime.armed[r] != pid :: w.runtime.armed[r],
         inbox := w.runtime.inbox + Fired(pid, order)))
  }

  /** The :DOWN messages of a dying process. */
  function Fired(pid: Pid, order: seq<Ref>): seq<Down> {
    seq(|order|, i requires 0 <= i < |order| => Down(order[i], pid))
  }

  function Next<E>(w: World<E>, op: Op<E>): World<E> {
    match op
    case Register(key, pid) => AfterRegister(w, key, pid)
    case Unregister(key, pid) => AfterUnregister(w, key, pid)
    case CleanupNode(node) => AfterCleanup(w, node)
    case Dispatch(key, event) => AfterDispatch(w, key, event)
    case HandleDown => AfterDown(w)
    case Exit(pid, order) => AfterExit(w, pid, order)
  }

  /** A process dies once, and every monitor armed on it fires once, in some order. */
  ghost predicate Enabled<E>(w: World<E>, op: Op<E>) {
    op.Exit? ==>
      && op.pid !in w.runtime.dead
      && Distinct(op.order)
      && forall r :: r in op.order <==> r in w.runtime.armed && w.runtime.armed[r] == op.pid
  }

  function Run<E>(w: World<E>, ops: seq<Op<E>>): World<E>
    decreases |ops|
  {
    if ops == [] then w else Run(Next(w, ops[0]), ops[1..])
  }

  ghost predicate Feasible<E>(w: World<E>, ops: seq<Op<E>>)
    decreases |ops|
  {
    ops == [] || (Enabled(w, ops[0]) && Feasible(Next(w, ops[0]), ops[1..]))
  }

  // ----- Invariant -----

  predicate Subscribed(reg: Registry, key: Key, e: Entry) {
    key in reg.subscriptions && e in reg.subscriptions[key]
  }

  predicate DistinctPids(entries: seq<Entry>) {
    forall i, j :: 0 <= i < j < |entries| ==> entries[i].pid != entries[j].pid
  }

  /** Subscriptions and monitors index each other one to one; no list is empty or names a pid twice. */
  ghost predicate Linked(reg: Registry) {
    && (forall key, e :: Subscribed(reg, key, e) ==>
          e.ref in reg.monitors && reg.monitors[e.ref] == Monitored(e.pid, key))
    && (forall r :: r in reg.monitors ==> Subscribed(reg, reg.monitors[r].key, Entry(reg.monitors[r].pid, r)))
    && (forall key :: key in reg.subscriptions ==>
          reg.subscriptions[key] != [] && DistinctPids(reg.subscriptions[key]))
  }

  /** Each monitor of the registry is armed on a living process, or its one :DOWN is in the inbox. */
  ghost predicate Monitoring<E>(reg: Registry, rt: Runtime<E>) {
    && (forall r :: r in reg.monitors ==> r < rt.nextRef)
    && (forall r :: r in reg.monitors ==>
          if r in rt.armed then rt.armed[r] == reg.monitors[r].pid && reg.monitors[r].pid !in rt.dead
          else Down(r, reg.monitors[r].pid) in rt.inbox)
    && (forall r :: r in rt.armed ==> r in reg.monitors)
    && (forall d :: d in rt.inbox ==>
          d.ref in reg.monitors && reg.monitors[d.ref].pid == d.pid && d.ref !in rt.armed && d.pid in rt.dead)
    && Distinct(rt.inbox)
  }

  ghost predicate Inv<E>(w: World<E>) {
    Linked(w.registry) && Monitoring(w.registry, w.runtime) && !w.crashed
  }
}
