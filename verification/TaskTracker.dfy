/**
 The task tracker: every callback returns a new state, and peer loss also a list of messages.
 Maps are enumerated in an order the runtime chooses; every result here holds for each order.
 */
module TaskTracker {
  import opened Labels
  import opened Sequences

  type Pid = nat
  type PeerId = string

  const PEER_LOST := "peer_lost"

  datatype Status = Pending | Completed | Failed(reason: string)

  datatype Task = Task(id: string, peerId: PeerId, target: string, message: string, dispatchedAt: int, status: Status)

  datatype Tracker = Tracker(tasks: map<string, Task>, subscribers: seq<Pid>, counter: nat)

  datatype Notice = Notice(pid: Pid, peerId: PeerId, orphaned: seq<Task>)

  /** A tracker with its past: ids issued, tasks reported lost, tasks cleaned up, messages sent. */
  datatype History = History(now: Tracker, issued: seq<string>, lost: seq<Task>, removed: nat, notices: seq<Notice>)

  datatype Op =
    | Dispatch(peerId: PeerId, target: string, message: string, at: int)
    | Complete(id: string)
    | Fail(id: string, reason: string)
    | Subscribe(pid: Pid)
    | Cleanup
    | ConnectionClosed(closed: PeerId, numEstablished: nat, order: seq<string>, alive: set<Pid>)

  function TaskId(n: nat): string {
    Label("task-", n)
  }

  /** An order in which the runtime may enumerate the map. */
  ghost predicate Enumerates(order: seq<string>, tasks: map<string, Task>) {
    Distinct(order) && forall id :: id in order <==> id in tasks
  }

  // ----- Callbacks -----

  function HandleDispatch(s: Tracker, peerId: PeerId, target: string, message: string, at: int): (Tracker, string) {
    var id := TaskId(s.counter + 1);
    var task := Task(id, peerId, target, message, at, Pending);
    (s.(tasks := s.tasks[id := task], counter := s.counter + 1), id)
  }

  /** The reply is false for `{:error, :not_found}`. */
  function UpdateTaskStatus(s: Tracker, id: string, status: Status): (Tracker, bool) {
    if id in s.tasks then (s.(tasks := s.tasks[id := s.tasks[id].(status := status)]), true) else (s, false)
  }

  function PendingTasks(tasks: map<string, Task>, order: seq<string>, filter: Task -> bool): seq<Task>
    requires forall id :: id in order ==> id in tasks
  {
    if order == [] then []
    else
      var task := tasks[order[0]];
      (if task.status == Pending && filter(task) then [task] else []) + PendingTasks(tasks, order[1..], filter)
  }

  function PendingForPeer(s: Tracker, order: seq<string>, peerId: PeerId): seq<Task>
    requires forall id :: id in order ==> id in s.tasks
  {
    PendingTasks(s.tasks, order, (t: Task) => t.peerId == peerId)
  }

  function AllPending(s: Tracker, order: seq<string>): seq<Task>
    requires forall id :: id in order ==> id in s.tasks
  {
    PendingTasks(s.tasks, order, (_: Task) => true)
  }

  function HandleCleanup(s: Tracker): (Tracker, nat) {
    var removed := map id | id in s.tasks && s.tasks[id].status != Pending :: s.tasks[id];
    var kept := map id | id in s.tasks && s.tasks[id].status == Pending :: s.tasks[id];
    (s.(tasks := kept), |removed|)
  }

  /** One pass over the tasks that marks the orphans and collects them. */
  function MarkOrphans(tasks: map<string, Task>, order: seq<string>, peerId: PeerId,
                       tasksAcc: map<string, Task>, orphanedAcc: seq<Task>): (map<string, Task>, seq<Task>)
    requires forall id :: id in order ==> id in tasks
  {
    if order == [] then (tasksAcc, orphanedAcc)
    else
      var id := order[0];
      var task := tasks[id];
      if task.status == Pending && task.peerId == peerId then
        var failed := task.(status := Failed(PEER_LOST));
        MarkOrphans(tasks, order[1..], peerId, tasksAcc[id := failed], [failed] + orphanedAcc)
      else
        MarkOrphans(tasks, order[1..], peerId, tasksAcc, orphanedAcc)
  }

  /** One message for each subscription of a living process, also when it subscribed twice. */
  function Notices(subscribers: seq<Pid>, alive: set<Pid>, peerId: PeerId, orphaned: seq<Task>): seq<Notice> {
    if subscribers == [] then []
    else (if subscribers[0] in alive then [Notice(subscribers[0], peerId, orphaned)] else [])
         + Notices(subscribers[1..], alive, peerId, orphaned)
  }

  /** Returns the new state, the orphaned tasks and the messages. */
  function HandleConnectionClosed(s: Tracker, peerId: PeerId, numEstablished: nat, order: seq<string>, alive: set<Pid>)
    : (Tracker, seq<Task>, seq<Notice>)
    requires forall id :: id in order ==> id in s.tasks
  {
    if numEstablished != 0 then (s, [], [])
    else
      var (updated, orphaned) := MarkOrphans(s.tasks, order, peerId, s.tasks, []);
      if orphaned == [] then (s, [], [])
      else (s.(tasks := updated), orphaned, Notices(s.subscribers, alive, peerId, orphaned))
  }

  // ----- Runs -----

  function Init(): History {
    History(Tracker(map[], [], 0), [], [], 0, [])
  }

  ghost predicate Enabled(h: History, op: Op) {
    op.ConnectionClosed? ==> Enumerates(op.order, h.now.tasks)
  }

  function Next(h: History, op: Op): History
    requires op.ConnectionClosed? ==> forall id :: id in op.order ==> id in h.now.tasks
  {
    match op
    case Dispatch(peerId, target, message, at) =>
      var (s, id) := HandleDispatch(h.now, peerId, target, message, at);
      h.(now := s, issued := h.issued + [id])
    case Complete(id) => h.(now := UpdateTaskStatus(h.now, id, Completed).0)
    case Fail(id, reason) => h.(now := UpdateTaskStatus(h.now, id, Failed(reason)).0)
    case Subscribe(pid) => h.(now := h.now.(subscribers := [pid] + h.now.subscribers))
    case Cleanup =>
      var (s, n) := HandleCleanup(h.now);
      h.(now := s, removed := h.removed + n)
    case ConnectionClosed(peerId, numEstablished, order, alive) =>
      var (s, orphaned, notices) := HandleConnectionClosed(h.now, peerId, numEstablished, order, alive);
      h.(now := s, lost := h.lost + orphaned, notices := h.notices + notices)
  }

  ghost predicate Feasible(h: History, ops: seq<Op>)
    decreases |ops|
  {
    ops == [] || (Enabled(h, ops[0]) && Feasible(Next(h, ops[0]), ops[1..]))
  }

  ghost function Run(h: History, ops: seq<Op>): History
    requires Feasible(h, ops)
    decreases |ops|
  {
    if ops == [] then h else Run(Next(h, ops[0]), ops[1..])
  }

  // ----- What a single callback does -----

  /** The task is pending at this peer. */
  predicate Orphan(task: Task, peerId: PeerId) {
    task.status == Pending && task.peerId == peerId
  }

  function Lost(task: Task): Task {
    task.(status := Failed(PEER_LOST))
  }

  /** The orphans of a peer among these ids, last one first, as they are reported. */
  function OrphansOf(tasks: map<string, Task>, order: seq<string>, peerId: PeerId): seq<Task>
    requires forall id :: id in order ==> id in tasks
  {
    if order == [] then []
    else OrphansOf(tasks, order[1..], peerId)
         + if Orphan(tasks[order[0]], peerId) then [Lost(tasks[order[0]])] else []
  }

  lemma {:induction false} MarkOrphansMarks(tasks: map<string, Task>, order: seq<string>, peerId: PeerId,
                                            tasksAcc: map<string, Task>, orphanedAcc: seq<Task>)
    requires forall id :: id in order ==> id in tasks
    requires Distinct(order) && tasksAcc.Keys == tasks.Keys
    ensures var (updated, orphaned) := MarkOrphans(tasks, order, peerId, tasksAcc, orphanedAcc);
            && orphaned == OrphansOf(tasks, order, peerId) + orphanedAcc
            && updated.Keys == tasks.Keys
            && forall id :: id in tasks ==>
                 updated[id] == if id in order && Orphan(tasks[id], peerId) then Lost(tasks[id]) else tasksAcc[id]
  {
    if order != [] {
      var id, rest := order[0], order[1..];
      assert order == [id] + rest && id !in rest;
      if Orphan(tasks[id], peerId) {
        var failed := Lost(tasks[id]);
        MarkOrphansMarks(tasks, rest, peerId, tasksAcc[id := failed], [failed] + orphanedAcc);
        ConcatIsAssociative(OrphansOf(tasks, rest, peerId), [failed], orphanedAcc);
      } else {
        MarkOrphansMarks(tasks, rest, peerId, tasksAcc, orphanedAcc);
        assert OrphansOf(tasks, order, peerId) == OrphansOf(tasks, rest, peerId);
      }
    }
  }

  /** Every task is filed under its own id. */
  predicate Filed(tasks: map<string, Task>) {
    forall id :: id in tasks ==> tasks[id].id == id
  }

  predicate DistinctIds(tasks: seq<Task>) {
    forall i, j :: 0 <= i < j < |tasks| ==> tasks[i].id != tasks[j].id
  }

  lemma {:induction false} OrphansOfAreExact(tasks: map<string, Task>, order: seq<string>, peerId: PeerId)
    requires Filed(tasks) && Distinct(order) && forall id :: id in order ==> id in tasks
    ensures DistinctIds(OrphansOf(tasks, order, peerId))
    ensures forall t :: t in OrphansOf(tasks, order, peerId) <==>
              t.id in order && Orphan(tasks[t.id], peerId) && t == Lost(tasks[t.id])
  {
    if order != [] {
      var id, rest := order[0], order[1..];
      assert order == [id] + rest && id !in rest;
      OrphansOfAreExact(tasks, rest, peerId);
      var orphans := OrphansOf(tasks, rest, peerId);
      assert forall i :: 0 <= i < |orphans| ==> orphans[i] in orphans;
    }
  }

  function Recipients(notices: seq<Notice>): seq<Pid> {
    seq(|notices|, i requires 0 <= i < |notices| => notices[i].pid)
  }

  lemma {:induction false} NoticesGoToTheLiving(subscribers: seq<Pid>, alive: set<Pid>, peerId: PeerId,
                                                orphaned: seq<Task>)
    ensures forall n :: n in Notices(subscribers, alive, peerId, orphaned) ==>
              n.pid in alive && n.peerId == peerId && n.orphaned == orphaned
  {
    if subscribers != [] {
      NoticesGoToTheLiving(subscribers[1..], alive, peerId, orphaned);
    }
  }

  lemma FirstRecipient(n: Notice, ns: seq<Notice>)
    ensures multiset(Recipients([n] + ns)) == multiset{n.pid} + multiset(Recipients(ns))
  {
    assert Recipients([n] + ns) == [n.pid] + Recipients(ns);
  }

  lemma {:induction false} NoticesPerSubscription(subscribers: seq<Pid>, alive: set<Pid>, peerId: PeerId,
                                                  orphaned: seq<Task>, pid: Pid)
    ensures multiset(Recipients(Notices(subscribers, alive, peerId, orphaned)))[pid] ==
            if pid in alive then multiset(subscribers)[pid] else 0
  {
    assert Recipients([]) == [];
    hide Recipients;
    if subscribers != [] {
      var first, rest := subscribers[0], subscribers[1..];
      var others := Notices(rest, alive, peerId, orphaned);
      NoticesPerSubscription(rest, alive, peerId, orphaned, pid);
      assert subscribers == [first] + rest;
      if first in alive {
        assert Notices(subscribers, alive, peerId, orphaned) == [Notice(first, peerId, orphaned)] + others;
        FirstRecipient(Notice(first, peerId, orphaned), others);
      } else {
        assert Notices(subscribers, alive, peerId, orphaned) == others;
      }
    }
  }

  /**
   Every message of a peer loss goes to a living subscriber with the lost peer and its orphans;
   a living process gets one for each of its subscriptions if there are orphans, and otherwise
   nobody gets any.
   */
  lemma PeerLossMessagesAreExact(s: Tracker, peerId: PeerId, n: nat, order: seq<string>, alive: set<Pid>)
    requires Filed(s.tasks) && Enumerates(order, s.tasks)
    ensures var (_, orphaned, notices) := HandleConnectionClosed(s, peerId, n, order, alive);
            && (forall m :: m in notices ==> m.pid in alive && m.peerId == peerId && m.orphaned == orphaned)
            && forall pid :: multiset(Recipients(notices))[pid] ==
                             if pid in alive && orphaned != [] then multiset(s.subscribers)[pid] else 0
  {
    if n == 0 {
      PeerLossIsExact(s, peerId, order, alive);
    }
    var orphaned := HandleConnectionClosed(s, peerId, n, order, alive).1;
    NoticesGoToTheLiving(s.subscribers, alive, peerId, orphaned);
    forall pid {
      NoticesPerSubscription(s.subscribers, alive, peerId, orphaned, pid);
    }
  }

  lemma AllOrphansAreMarked(s: Tracker, order: seq<string>, peerId: PeerId)
    requires Enumerates(order, s.tasks)
    ensures var (updated, orphaned) := MarkOrphans(s.tasks, order, peerId, s.tasks, []);
            && updated == (map id | id in s.tasks ::
                             if Orphan(s.tasks[id], peerId) then Lost(s.tasks[id]) else s.tasks[id])
            && orphaned == OrphansOf(s.tasks, order, peerId)
  {
    MarkOrphansMarks(s.tasks, order, peerId, s.tasks, []);
    hide MarkOrphans, OrphansOf, Distinct, Orphan;
    var orphans := OrphansOf(s.tasks, order, peerId);
    assert orphans + [] == orphans;
  }

  /**
   Losing a peer fails exactly its pending tasks, leaves every other task as it is, and reports
   exactly those tasks, each once, whatever the order of enumeration.
   */
  lemma PeerLossIsExact(s: Tracker, peerId: PeerId, order: seq<string>, alive: set<Pid>)
    requires Filed(s.tasks) && Enumerates(order, s.tasks)
    ensures var (s', orphaned, notices) := HandleConnectionClosed(s, peerId, 0, order, alive);
            && s' == s.(tasks := map id | id in s.tasks ::
                                   if Orphan(s.tasks[id], peerId) then Lost(s.tasks[id]) else s.tasks[id])
            && DistinctIds(orphaned)
            && (forall t :: t in orphaned <==>
                  t.id in s.tasks && Orphan(s.tasks[t.id], peerId) && t == Lost(s.tasks[t.id]))
            && (orphaned == [] ==> notices == [])
            && (orphaned != [] ==> notices == Notices(s.subscribers, alive, peerId, orphaned))
    ensures forall n: nat :: n != 0 ==> HandleConnectionClosed(s, peerId, n, order, alive) == (s, [], [])
  {
    hide MarkOrphans, OrphansOf, Notices, Distinct, DistinctIds;
    AllOrphansAreMarked(s, order, peerId);
    OrphansOfAreExact(s.tasks, order, peerId);
    var (s', orphaned, notices) := HandleConnectionClosed(s, peerId, 0, order, alive);
    var all := OrphansOf(s.tasks, order, peerId);
    assert forall id :: id in s.tasks && Orphan(s.tasks[id], peerId) ==> Lost(s.tasks[id]) in all;
    assert s'.tasks == map id | id in s.tasks ::
                         if Orphan(s.tasks[id], peerId) then Lost(s.tasks[id]) else s.tasks[id];
  }

  lemma {:induction false} PendingTasksAreExact(tasks: map<string, Task>, order: seq<string>, filter: Task -> bool)
    requires Filed(tasks) && Distinct(order) && forall id :: id in order ==> id in tasks
    ensures DistinctIds(PendingTasks(tasks, order, filter))
    ensures forall t :: t in PendingTasks(tasks, order, filter) <==>
              t.id in order && t == tasks[t.id] && t.status == Pending && filter(t)
  {
    if order != [] {
      var id, rest := order[0], order[1..];
      assert order == [id] + rest && id !in rest;
      PendingTasksAreExact(tasks, rest, filter);
      var pending := PendingTasks(tasks, rest, filter);
      assert forall i :: 0 <= i < |pending| ==> pending[i] in pending;
    }
  }

  /** All pending tasks are the disjoint union of the pending tasks of the peers. */
  lemma PendingIsDisjointUnion(s: Tracker, order: seq<string>)
    requires Filed(s.tasks) && Enumerates(order, s.tasks)
    ensures DistinctIds(AllPending(s, order))
    ensures forall t :: t in AllPending(s, order) <==>
              t.id in s.tasks && t == s.tasks[t.id] && t.status == Pending
    ensures forall t, p :: t in PendingForPeer(s, order, p) <==> t in AllPending(s, order) && t.peerId == p
    ensures forall t :: t in AllPending(s, order) <==> exists p :: t in PendingForPeer(s, order, p)
    ensures forall t, p, q :: t in PendingForPeer(s, order, p) && t in PendingForPeer(s, order, q) ==> p == q
    ensures forall p :: DistinctIds(PendingForPeer(s, order, p))
  {
    PendingTasksAreExact(s.tasks, order, (_: Task) => true);
    forall p
      ensures DistinctIds(PendingForPeer(s, order, p))
      ensures forall t :: t in PendingForPeer(s, order, p) <==> t in AllPending(s, order) && t.peerId == p
    {
      PendingTasksAreExact(s.tasks, order, (t: Task) => t.peerId == p);
    }
    forall t | t in AllPending(s, order) ensures exists p :: t in PendingForPeer(s, order, p) {
      assert t in PendingForPeer(s, order, t.peerId);
    }
  }

  /** Cleanup keeps exactly the pending tasks, unchanged, and returns the number of the others. */
  lemma CleanupIsExact(s: Tracker)
    ensures var (s', n) := HandleCleanup(s);
            && (forall id :: id in s'.tasks <==> id in s.tasks && s.tasks[id].status == Pending)
            && (forall id :: id in s'.tasks ==> s'.tasks[id] == s.tasks[id])
            && |s.tasks| == |s'.tasks| + n
            && s'.counter == s.counter && s'.subscribers == s.subscribers
  {
    var removed := map id | id in s.tasks && s.tasks[id].status != Pending :: s.tasks[id];
    var kept := HandleCleanup(s).0.tasks;
    assert s.tasks.Keys == removed.Keys + kept.Keys && removed.Keys !! kept.Keys;
  }

  // ----- Whole runs -----

  predicate IdInv(h: History) {
    && |h.issued| == h.now.counter
    && (forall i :: 0 <= i < |h.issued| ==> h.issued[i] == TaskId(i + 1))
    && (forall id :: id in h.now.tasks ==> id in h.issued)
    && Filed(h.now.tasks)
    && h.now.counter == |h.now.tasks| + h.removed
  }

  /** A task reported lost is not pending any more. */
  predicate LostInv(h: History) {
    && DistinctIds(h.lost)
    && forall t :: t in h.lost ==>
         t.id in h.issued && (t.id in h.now.tasks ==> h.now.tasks[t.id].status != Pending)
  }

  predicate Inv(h: History) {
    IdInv(h) && LostInv(h)
  }

  lemma NextIdIsFresh(h: History)
    requires IdInv(h)
    ensures TaskId(h.now.counter + 1) !in h.issued
  {
    forall i | 0 <= i < |h.issued| ensures h.issued[i] != TaskId(h.now.counter + 1) {
      LabelIsInjective("task-", i + 1, h.now.counter + 1);
    }
  }

  lemma DispatchKeepsInv(h: History, op: Op)
    requires Inv(h) && op.Dispatch?
    ensures Inv(Next(h, op))
  {
    NextIdIsFresh(h);
    hide TaskId;
  }

  lemma DistinctIdsConcat(a: seq<Task>, b: seq<Task>)
    requires DistinctIds(a) && DistinctIds(b)
    requires forall s, t :: s in a && t in b ==> s.id != t.id
    ensures DistinctIds(a + b)
  {
    forall i, j | 0 <= i < j < |a + b| ensures (a + b)[i].id != (a + b)[j].id {
      if i < |a| <= j {
        assert (a + b)[i] in a && (a + b)[j] in b;
      }
    }
  }

  lemma ConnectionClosedKeepsInv(h: History, op: Op)
    requires Inv(h) && op.ConnectionClosed? && Enabled(h, op)
    ensures Inv(Next(h, op))
  {
    hide TaskId, DistinctIds, Distinct;
    var h' := Next(h, op);
    if op.numEstablished == 0 {
      PeerLossIsExact(h.now, op.closed, op.order, op.alive);
      hide HandleConnectionClosed;
      var orphaned := HandleConnectionClosed(h.now, op.closed, 0, op.order, op.alive).1;
      assert IdInv(h') by {
        hide LostInv;
        assert h'.now.tasks.Keys == h.now.tasks.Keys;
        assert |h'.now.tasks| == |h'.now.tasks.Keys| && |h.now.tasks| == |h.now.tasks.Keys|;
      }
      DistinctIdsConcat(h.lost, orphaned);
      assert forall t :: t in h'.lost <==> t in h.lost || t in orphaned;
    } else {
      assert h.lost + [] == h.lost;
    }
  }

  lemma StatusOrSubscriberKeepsInv(h: History, op: Op)
    requires Inv(h) && (op.Complete? || op.Fail? || op.Subscribe?)
    ensures Inv(Next(h, op))
  {
    hide TaskId, DistinctIds;
    var h' := Next(h, op);
    assert |h.now.tasks| == |h.now.tasks.Keys| && |h'.now.tasks| == |h'.now.tasks.Keys|;
    assert h'.now.tasks.Keys == h.now.tasks.Keys;
  }

  lemma CleanupKeepsInv(h: History)
    requires Inv(h)
    ensures Inv(Next(h, Cleanup))
  {
    hide TaskId, DistinctIds;
    CleanupIsExact(h.now);
  }

  lemma NextKeepsInv(h: History, op: Op)
    requires Inv(h) && Enabled(h, op)
    ensures Inv(Next(h, op))
  {
    hide Inv, Next;
    match op
    case Dispatch(_, _, _, _) => DispatchKeepsInv(h, op);
    case Cleanup => CleanupKeepsInv(h);
    case ConnectionClosed(_, _, _, _) => ConnectionClosedKeepsInv(h, op);
    case _ => StatusOrSubscriberKeepsInv(h, op);
  }

  lemma {:induction false} RunKeepsInv(h: History, ops: seq<Op>)
    requires Inv(h) && Feasible(h, ops)
    ensures Inv(Run(h, ops))
    decreases |ops|
  {
    if ops != [] {
      NextKeepsInv(h, ops[0]);
      RunKeepsInv(Next(h, ops[0]), ops[1..]);
    }
  }

  /**
   Over every run: ids are never issued twice, also after a cleanup; every task is in the map or
   was counted by a cleanup; and no task is reported lost twice.
   */
  lemma TasksAreConservedAndLostAtMostOnce(ops: seq<Op>)
    requires Feasible(Init(), ops)
    ensures var h := Run(Init(), ops);
            && Distinct(h.issued)
            && |h.issued| == h.now.counter == |h.now.tasks| + h.removed
            && DistinctIds(h.lost)
            && forall t :: t in h.lost ==> t.id in h.issued
  {
    RunKeepsInv(Init(), ops);
    var h := Run(Init(), ops);
    forall i, j | 0 <= i < j < |h.issued| ensures h.issued[i] != h.issued[j] {
      LabelIsInjective("task-", i + 1, j + 1);
    }
  }

  predicate IsPending(h: History, id: string) {
    id in h.now.tasks && h.now.tasks[id].status == Pending
  }

  lemma NotPendingStep(h: History, op: Op, id: string)
    requires Inv(h) && Enabled(h, op) && id in h.issued && !IsPending(h, id)
    ensures id in Next(h, op).issued && !IsPending(Next(h, op), id)
  {
    match op
    case Dispatch(_, _, _, _) => NextIdIsFresh(h);
    case ConnectionClosed(_, _, _, _) =>
      if op.numEstablished == 0 {
        PeerLossIsExact(h.now, op.closed, op.order, op.alive);
      }
    case _ =>
  }

  /** A task that has left the pending state never returns to it. */
  lemma {:induction false} NeverPendingAgain(h: History, ops: seq<Op>, id: string)
    requires Inv(h) && Feasible(h, ops) && id in h.issued && !IsPending(h, id)
    ensures !IsPending(Run(h, ops), id)
    decreases |ops|
  {
    if ops != [] {
      NotPendingStep(h, ops[0], id);
      NextKeepsInv(h, ops[0]);
      NeverPendingAgain(Next(h, ops[0]), ops[1..], id);
    }
  }

  lemma GoneStep(h: History, op: Op, id: string)
    requires Inv(h) && Enabled(h, op) && id in h.issued && id !in h.now.tasks
    ensures id in Next(h, op).issued && id !in Next(h, op).now.tasks
  {
    match op
    case Dispatch(_, _, _, _) => NextIdIsFresh(h);
    case ConnectionClosed(_, _, _, _) => PeerLossIsExact(h.now, op.closed, op.order, op.alive);
    case _ =>
  }

  lemma {:induction false} GoneTasksStayGone(h: History, ops: seq<Op>, id: string)
    requires Inv(h) && Feasible(h, ops) && id in h.issued && id !in h.now.tasks
    ensures id !in Run(h, ops).now.tasks
    decreases |ops|
  {
    if ops != [] {
      GoneStep(h, ops[0], id);
      NextKeepsInv(h, ops[0]);
      GoneTasksStayGone(Next(h, ops[0]), ops[1..], id);
    }
  }

  lemma OnlyStatusStep(h: History, op: Op, id: string)
    requires Inv(h) && Enabled(h, op) && id in h.now.tasks && id in Next(h, op).now.tasks
    ensures Next(h, op).now.tasks[id] == h.now.tasks[id].(status := Next(h, op).now.tasks[id].status)
  {
    match op
    case Dispatch(_, _, _, _) => NextIdIsFresh(h);
    case ConnectionClosed(_, _, _, _) => PeerLossIsExact(h.now, op.closed, op.order, op.alive);
    case _ =>
  }

  /** As long as a task is kept, nothing about it but its status ever changes. */
  lemma {:induction false} OnlyStatusChanges(h: History, ops: seq<Op>, id: string)
    requires Inv(h) && Feasible(h, ops) && id in h.now.tasks && id in Run(h, ops).now.tasks
    ensures Run(h, ops).now.tasks[id] == h.now.tasks[id].(status := Run(h, ops).now.tasks[id].status)
    decreases |ops|
  {
    if ops != [] {
      var t := Next(h, ops[0]);
      NextKeepsInv(h, ops[0]);
      if id in t.now.tasks {
        OnlyStatusStep(h, ops[0], id);
        OnlyStatusChanges(t, ops[1..], id);
      } else {
        assert id in t.issued by {
          assert id in h.issued;
        }
        GoneTasksStayGone(t, ops[1..], id);
      }
    }
  }

  // ----- What is recorded -----

  /** `complete` and `fail` set the status of exactly the given task, and answer whether there is one. */
  lemma CompleteAndFailSetTheStatus(h: History, id: string, reason: string)
    ensures var done, failed := Next(h, Complete(id)).now, Next(h, Fail(id, reason)).now;
            if id in h.now.tasks then
              && done == h.now.(tasks := h.now.tasks[id := h.now.tasks[id].(status := Completed)])
              && failed == h.now.(tasks := h.now.tasks[id := h.now.tasks[id].(status := Failed(reason))])
            else done == h.now && failed == h.now
    ensures forall status :: UpdateTaskStatus(h.now, id, status).1 <==> id in h.now.tasks
  {
  }

  /**
   A dispatched task is filed, pending, under a new id with everything it was dispatched with; no
   other task changes.
   */
  lemma DispatchFilesTheTask(h: History, peerId: PeerId, target: string, message: string, at: int)
    requires Inv(h)
    ensures var h' := Next(h, Dispatch(peerId, target, message, at));
            var id := "task-" + Decimal(h.now.counter + 1);
            && id !in h.now.tasks && id !in h.issued && h'.issued == h.issued + [id]
            && h'.now.tasks.Keys == h.now.tasks.Keys + {id}
            && h'.now.tasks[id].id == id
            && h'.now.tasks[id].peerId == peerId
            && h'.now.tasks[id].target == target
            && h'.now.tasks[id].message == message
            && h'.now.tasks[id].dispatchedAt == at
            && h'.now.tasks[id].status == Pending
            && forall other :: other in h.now.tasks ==> h'.now.tasks[other] == h.now.tasks[other]
  {
    NextIdIsFresh(h);
  }

  /** As long as a task is kept, it is the one that was dispatched, whatever happens in between. */
  lemma TasksAreKeptAsDispatched(h: History, peerId: PeerId, target: string, message: string, at: int, ops: seq<Op>)
    requires Inv(h) && Feasible(h, [Dispatch(peerId, target, message, at)] + ops)
    ensures var h' := Run(h, [Dispatch(peerId, target, message, at)] + ops);
            var id := "task-" + Decimal(h.now.counter + 1);
            id in h'.now.tasks ==>
              && h'.now.tasks[id].peerId == peerId && h'.now.tasks[id].target == target
              && h'.now.tasks[id].message == message && h'.now.tasks[id].dispatchedAt == at
  {
    var op := Dispatch(peerId, target, message, at);
    var id := "task-" + Decimal(h.now.counter + 1);
    assert ([op] + ops)[1..] == ops;
    DispatchFilesTheTask(h, peerId, target, message, at);
    NextKeepsInv(h, op);
    if id in Run(h, [op] + ops).now.tasks {
      OnlyStatusChanges(Next(h, op), ops, id);
    }
  }

  /**
   The record of losses misses nothing: a pending task of a lost peer is reported, and every living
   subscriber is told of it.
   */
  lemma EveryLossIsReported(h: History, peerId: PeerId, order: seq<string>, alive: set<Pid>, id: string)
    requires Inv(h) && Enumerates(order, h.now.tasks)
    requires id in h.now.tasks && h.now.tasks[id].status == Pending && h.now.tasks[id].peerId == peerId
    ensures var h' := Next(h, ConnectionClosed(peerId, 0, order, alive));
            var task := h.now.tasks[id].(status := Failed(PEER_LOST));
            && task in h'.lost
            && id in h'.now.tasks && h'.now.tasks[id] == task
            && forall pid :: pid in alive && pid in h.now.subscribers ==>
                 exists n :: n in h'.notices && n.pid == pid && n.peerId == peerId && task in n.orphaned
  {
    PeerLossIsExact(h.now, peerId, order, alive);
    var h' := Next(h, ConnectionClosed(peerId, 0, order, alive));
    var task := h.now.tasks[id].(status := Failed(PEER_LOST));
    var (_, orphaned, notices) := HandleConnectionClosed(h.now, peerId, 0, order, alive);
    assert task in orphaned;
    assert h'.notices == h.notices + notices;
    hide Next, HandleConnectionClosed, Inv;
    forall pid | pid in alive && pid in h.now.subscribers
      ensures exists n :: n in h'.notices && n.pid == pid && n.peerId == peerId && task in n.orphaned
    {
      var n := LivingSubscriberIsTold(h.now, peerId, order, alive, pid);
      assert n in h'.notices;
    }
  }

  lemma LivingSubscriberIsTold(s: Tracker, peerId: PeerId, order: seq<string>, alive: set<Pid>, pid: Pid)
    returns (n: Notice)
    requires Filed(s.tasks) && Enumerates(order, s.tasks)
    requires pid in alive && pid in s.subscribers
    requires HandleConnectionClosed(s, peerId, 0, order, alive).1 != []
    ensures var (_, orphaned, notices) := HandleConnectionClosed(s, peerId, 0, order, alive);
            n in notices && n.pid == pid && n.peerId == peerId && n.orphaned == orphaned
  {
    PeerLossMessagesAreExact(s, peerId, 0, order, alive);
    var notices := HandleConnectionClosed(s, peerId, 0, order, alive).2;
    hide HandleConnectionClosed, Enumerates, Filed;
    assert multiset(s.subscribers)[pid] > 0;
    assert pid in multiset(Recipients(notices));
    var i :| 0 <= i < |notices| && Recipients(notices)[i] == pid;
    n := notices[i];
  }

  /** The processes that subscribed in these operations. */
  function SubscribedIn(ops: seq<Op>): multiset<Pid> {
    if ops == [] then multiset{}
    else (if ops[0].Subscribe? then multiset{ops[0].pid} else multiset{}) + SubscribedIn(ops[1..])
  }

  /** Each subscription is kept, as often as it was made, and there are no others. */
  lemma {:induction false} SubscribersAreThoseWhoSubscribed(h: History, ops: seq<Op>)
    requires Inv(h) && Feasible(h, ops)
    ensures multiset(Run(h, ops).now.subscribers) == multiset(h.now.subscribers) + SubscribedIn(ops)
    decreases |ops|
  {
    if ops != [] {
      NextKeepsInv(h, ops[0]);
      SubscribersStep(h, ops[0]);
      SubscribersAreThoseWhoSubscribed(Next(h, ops[0]), ops[1..]);
    }
  }

  lemma SubscribersStep(h: History, op: Op)
    requires Inv(h) && Enabled(h, op)
    ensures multiset(Next(h, op).now.subscribers) ==
            multiset(h.now.subscribers) + if op.Subscribe? then multiset{op.pid} else multiset{}
  {
    if op.ConnectionClosed? {
      PeerLossIsExact(h.now, op.closed, op.order, op.alive);
    }
  }
}
