# ExLibp2p: a verified model

ExLibp2p drives a rust-libp2p node from Elixir. This project models the parts of it that keep
state across steps, and proves what they promise, in Dafny 4.11.
`dafny verify dfyconfig.toml` checks everything.

- `DhtStateFormat`, `DhtStateTheorems`, `DhtState`: the DHT snapshot format as printer and parser,
  the theorems about it, and the imperative codec with its cursor.
- `SwarmLoopSpec`, `SwarmLoopTheorems`, `SwarmLoopHistory`, `SwarmLoop`: the swarm loop's inbound
  requests. The loop's hash map from printed ids to response channels refines a queue ordered by
  age; the theorems are about every run of the queue with a non-decreasing clock, and
  `SwarmLoopHistory` reads what a run must have done off its events.
- `CommandChannelSpec`, `CommandChannelTheorems`, `CommandChannel`: the bounded command channel,
  blocked queries, dropping the handle and leaving the loop, in every interleaving.
- `HandlerRegistrySpec`, `HandlerRegistryTheorems`, `HandlerRegistry`: the subscriber registry with
  the runtime's monitors and its mailbox of `:DOWN` messages, refining a set of triples.
- `TaskTracker`: the task life cycle, for every order in which a map may be enumerated.
- `FileStorage`: the write, chmod, rename idiom with readers and crashes at every state.
- `Persistence`: the routing table from export to import across a restart.
- `EventFanout`: discovery batches from the swarm loop to the subscribers.
- `Bytes`, `Labels`, `Sequences`, `Wrappers`: big-endian integers, printed ids, sequence facts.

Pids, references, times (milliseconds of one monotonic clock) and channels are numbers. The
clock, response channels, replies of queries, failures of file operations and the parsing of
peer ids and addresses are parameters.

Three things the proofs bring out about the code:

- The narrowing casts of `encode` lose a table with a field of 2^16 bytes or more without an error
  (`DhtStateTheorems.OversizedPeerIdIsLost`); `DhtStateTheorems.RoundTripIff` says exactly when nothing is lost.
- The export has no size cap while the import has one, so a table over 4 MiB replaces the previous
  snapshot and is then refused (`Persistence.LargeTableIsLost`, `Persistence.SnapshotKeepsTableIff`).
- DESIGN_DECISIONS.md (lines 970-1002) describes the command channel as unbounded. The code bounds
  it at 512 (`native/ex_libp2p_nif/src/node.rs:358`), and the model follows the code.

## Model

| member | source | states |
|---|---|---|
| `DhtStateTheorems.DecodeAcceptsExactlyPrintedTables` | native/ex_libp2p_nif/src/dht_state.rs:96-136 | Canonical acceptance, both directions: decoding answers a table on exactly the inputs within the cap that begin with that table's printed form (trailing bytes are ignored), and only tables whose lengths fit their fields are ever answered |
| `DhtStateTheorems.RoundTripIff` | native/ex_libp2p_nif/src/dht_state.rs:63-136 | For every table, decode after encode gives the table back if and only if every peer-id length, address count and address length is below 2^16 and the printed form is at most 4 MiB |
| `DhtStateTheorems.OversizedPeerIdIsLost` | native/ex_libp2p_nif/src/dht_state.rs:79-80 | A concrete table lost by the narrowing cast of a length: within the cap, and decoded to a different table |
| `DhtStateTheorems.EncodingIsPrefixFree` | native/ex_libp2p_nif/src/dht_state.rs:63-90 | On tables that fit, one printed form is a prefix of another only if the tables are equal; printing is injective |
| `DhtStateTheorems.TruncatedIff` | native/ex_libp2p_nif/src/dht_state.rs:116-183 | Within the cap, an input is refused as truncated if and only if it is shorter than the magic or a strict prefix of the printed form of some table that fits |
| `DhtStateTheorems.StrictPrefixIsTruncated` | native/ex_libp2p_nif/src/dht_state.rs:148-183 | Cutting a printed table anywhere behind the magic gives a truncation error, never a shorter table |
| `DhtStateTheorems.TruncationReportIsExact` | native/ex_libp2p_nif/src/dht_state.rs:149-154 | offset <= length < offset + need on every truncation, and with bytes appended the same report comes back exactly as long as the bytes asked for are not all there |
| `DhtStateTheorems.HeaderRefusedIff` | native/ex_libp2p_nif/src/dht_state.rs:97-114 | The three other errors by their exact input conditions, in the order in which the checks are made |
| `DhtStateTheorems.EntriesEncodingSize` | native/ex_libp2p_nif/src/dht_state.rs:65-70 | The size estimate is the exact printed length, also when casts lose bits, and every entry costs at least four bytes |
| `DhtStateTheorems.AcceptedHeaderLayout` | native/ex_libp2p_nif/src/dht_state.rs:106-117 | Every accepted input starts with the bytes 4C 32 44 54 01, and the number of entries answered is its bytes 5 to 8, most significant first |
| `DhtStateTheorems.ParsedEntryLayout` | native/ex_libp2p_nif/src/dht_state.rs:121-132 | A parsed entry byte by byte: two length bytes, high byte first, the peer id, two count bytes, high byte first |
| `DhtStateTheorems.ParsedAddrLayout` | native/ex_libp2p_nif/src/dht_state.rs:124-130 | A parsed address: two length bytes, high byte first, and that many bytes behind them |
| `DhtStateTheorems.PrintedHeaderLayout` | native/ex_libp2p_nif/src/dht_state.rs:72-75 | Every printed table, also one that does not fit, starts with the literal magic and version and the low 32 bits of its count, most significant byte first |
| `DhtStateTheorems.PrintedEntryLayout` | native/ex_libp2p_nif/src/dht_state.rs:77-82 | The k-th printed entry stands behind the summed sizes of the entries before it, with its length, peer id, count and addresses in that order and the high byte of each 16-bit field first |
| `DhtStateTheorems.PrintedAddressLayout` | native/ex_libp2p_nif/src/dht_state.rs:83-86 | The j-th address of the k-th printed entry stands behind the summed sizes of the addresses before it |
| `DhtState.EstimateSize` | native/ex_libp2p_nif/src/dht_state.rs:65-70 | The nested sums of the estimate, as loops, compute header, count and per-entry sizes |
| `DhtState.Encode` | native/ex_libp2p_nif/src/dht_state.rs:63-90 | The buffer built in nested loops is the printed form, and its length is the capacity reserved beforehand |
| `DhtState.AppendEntry` | native/ex_libp2p_nif/src/dht_state.rs:77-87 | One turn of the entry loop appends the printed entry and leaves what was printed before |
| `DhtState.Cursor.constructor` | native/ex_libp2p_nif/src/dht_state.rs:144-146 | A new cursor stands at the start of the borrowed buffer |
| `DhtState.Cursor.ReadArray` | native/ex_libp2p_nif/src/dht_state.rs:148-159 | A fixed-size read yields the bytes at the offset and moves past them, or reports offset and need and does not move |
| `DhtState.Cursor.ReadNat16` | native/ex_libp2p_nif/src/dht_state.rs:165-167 | A big-endian 16-bit read at the offset |
| `DhtState.Cursor.ReadVec` | native/ex_libp2p_nif/src/dht_state.rs:173-183 | A variable-size read with the same bounds check |
| `DhtState.ReadHeader` | native/ex_libp2p_nif/src/dht_state.rs:106-117 | Magic, version and declared count, with their errors |
| `DhtState.ReadAddresses` | native/ex_libp2p_nif/src/dht_state.rs:124-130 | The inner loop meets the list parser from the offset where it started, and its reads are bounded by the bytes consumed |
| `DhtState.ReadEntry` | native/ex_libp2p_nif/src/dht_state.rs:121-132 | One turn of the entry loop meets the entry parser; a completed entry has consumed at least four bytes |
| `DhtState.Decode` | native/ex_libp2p_nif/src/dht_state.rs:96-136 | The cursor loops compute the specified decoding of the array; reads attempted are at most the input length plus one and completed entries at most (length - 9) / 4, whatever counts the input declares |
| `Labels.LabelIsInjective` | native/ex_libp2p_nif/src/node.rs:713 | Printed ids such as ch-n and task-n are equal only for equal numbers |
| `SwarmLoop.SwarmLoop.constructor` | native/ex_libp2p_nif/src/node.rs:393-404 | The loop starts with an empty map, counter zero and no handler |
| `SwarmLoop.SwarmLoop.Evict` | native/ex_libp2p_nif/src/node.rs:408-417 | Filtering the hash map by age refines dropping the stale prefix of the age-ordered queue |
| `SwarmLoop.SwarmLoop.OnRequest` | native/ex_libp2p_nif/src/node.rs:700-724 | Size test, counter, id, insertion and announcement refine appending to the queue or refusing at the cap |
| `SwarmLoop.SwarmLoop.OnSendResponse` | native/ex_libp2p_nif/src/node.rs:602-622 | Removing the printed id from the map and using its channel refines taking that request out of the queue |
| `SwarmLoop.SwarmLoop.OnRegisterEventHandler` | native/ex_libp2p_nif/src/node.rs:421-423 | The handler is replaced and nothing else changes |
| `SwarmLoop.SwarmLoop.OnOther` | native/ex_libp2p_nif/src/node.rs:788-793 | Other commands and events leave the request bookkeeping alone |
| `SwarmLoop.SwarmLoop.OnStop` | native/ex_libp2p_nif/src/node.rs:671 | Shutdown or a closed channel ends the loop and drops every channel still in the map |
| `SwarmLoop.SwarmLoop.Run` | native/ex_libp2p_nif/src/node.rs:406-797 | The select loop, on any admissible sequence of events, ends in the state of the queue machine after those events |
| `SwarmLoop.SizesAgree` | native/ex_libp2p_nif/src/node.rs:700 | The number of map entries is the length of the queue, so the cap test counts requests |
| `SwarmLoop.LookupAgrees` | native/ex_libp2p_nif/src/node.rs:603 | Looking an id up in the map and searching the queue find the same channel, or both nothing |
| `SwarmLoop.MatchesRetain` | native/ex_libp2p_nif/src/node.rs:410-416 | Retaining map entries by age and dropping a prefix of the queue keep the same requests |
| `SwarmLoopSpec.StaleCountSplits` | native/ex_libp2p_nif/src/node.rs:410-416 | In an ordered queue the requests at or over the time to live are exactly a prefix |
| `SwarmLoopSpec.NextKeepsInv` | native/ex_libp2p_nif/src/node.rs:406-797 | Every step keeps ids and times ordered alike, the cap, the eviction order, the arrival records, the fate of each request and the message logs |
| `SwarmLoopSpec.RunKeepsInv` | native/ex_libp2p_nif/src/node.rs:406-797 | The same over every run with a non-decreasing clock and distinct response channels |
| `SwarmLoopTheorems.EveryRequestHasOneFate` | native/ex_libp2p_nif/src/node.rs:400-417 | Over every run: arrived = accepted + refused; accepted = pending + answered + evicted + dropped at exit; each accepted request in exactly one of these, none twice |
| `SwarmLoopTheorems.EachChannelIsUsedAtMostOnce` | native/ex_libp2p_nif/src/node.rs:602-622 | Over every run no id is issued twice, no response channel is used twice, and none that was refused is used at all |
| `SwarmLoopTheorems.ResponsesReachTheAnnouncedRequest` | native/ex_libp2p_nif/src/node.rs:712-723 | Over every run a response given for an id goes out on the very channel announced to the handler under that id |
| `SwarmLoopTheorems.EveryRequestIsAnnounced` | native/ex_libp2p_nif/src/node.rs:716-724 | Once a handler is registered, every later accepted request is announced to a handler once, in order |
| `SwarmLoopTheorems.SendResponseAnswersItsRequest` | native/ex_libp2p_nif/src/node.rs:603-606 | A response to a pending request uses its channel and data and leaves every other request pending |
| `SwarmLoopTheorems.SendResponseToUnknownIdIsIgnored` | native/ex_libp2p_nif/src/node.rs:615-620 | A response to an unknown, used or expired id has no effect |
| `SwarmLoopTheorems.EvictionIsOldestFirst` | native/ex_libp2p_nif/src/node.rs:408-417 | Over every run at most 1024 requests are pending, evictions happen in the order of ids, and every evicted id is below every pending one |
| `SwarmLoopTheorems.TickEvictsExactlyTheStale` | native/ex_libp2p_nif/src/node.rs:408-417 | A tick in any reachable state evicts exactly the requests of 60 s or more, as a prefix of the queue |
| `SwarmLoopTheorems.PendingAgeIsBounded` | native/ex_libp2p_nif/src/node.rs:403-417 | Over every run, as long as ticks are at most some gap apart no pending request is as old as 60 s plus that gap |
| `SwarmLoopTheorems.EveryPendingRequestLeaves` | native/ex_libp2p_nif/src/node.rs:694-699 | After any run with a tick 60 s or more after some moment, no request that arrived up to that moment is pending, so a full map makes room |
| `SwarmLoopHistory.EveryRunFollowsItsEvents` | native/ex_libp2p_nif/src/node.rs:406-797 | Over every run, read off the events alone: each notice carries the payload of the arrival with its channel and goes to the handler registered last before it; each accepted request is one that arrived, at the time it arrived; each arrival that finds a handler and is accepted is announced; each response was asked for; the last tick and the handler are those of the events |
| `SwarmLoopHistory.AcceptedIffRoom` | native/ex_libp2p_nif/src/node.rs:700-714 | An inbound request is accepted, with the next number and the present time, exactly when fewer than 1024 are pending, and otherwise its channel is refused |
| `CommandChannel.NodeHandle.constructor` | native/ex_libp2p_nif/src/node.rs:357-377 | Channel, loop and handle start together with an empty queue |
| `CommandChannel.NodeHandle.TrySend` | native/ex_libp2p_nif/src/lib.rs:498-506 | try_send never blocks: appended, full at 512, or closed, with closed reported first |
| `CommandChannel.NodeHandle.QueryTyped` | native/ex_libp2p_nif/src/lib.rs:124-134 | A query either fails at once with ChannelFull or NodeStopped or leaves its caller blocked with its command queued |
| `CommandChannel.NodeHandle.SendTyped` | native/ex_libp2p_nif/src/lib.rs:498-506 | A fire-and-forget command with its immediate result |
| `CommandChannel.NodeHandle.Stop` | native/ex_libp2p_nif/src/lib.rs:51-60 | stop_node sends Shutdown and ignores a refusal |
| `CommandChannel.NodeHandle.Drop` | native/ex_libp2p_nif/src/node.rs:66-71 | Dropping the handle tries to send Shutdown and drops the only sender |
| `CommandChannel.NodeHandle.Close` | native/ex_libp2p_nif/src/node.rs:671-672 | Dropping the queue one command at a time wakes exactly the callers of the queued queries |
| `CommandChannel.NodeHandle.HandleNext` | native/ex_libp2p_nif/src/node.rs:419-672 | One turn of the loop with the queue, including Shutdown, a closed channel and a panic, keeps the protocol invariant |
| `CommandChannelTheorems.NextKeepsInv` | native/ex_libp2p_nif/src/node.rs:419-672 | Every enabled step of callers, handle and loop keeps FIFO order, the bound and the exact set of blocked callers |
| `CommandChannelTheorems.ReachableStatesAreSafe` | native/ex_libp2p_nif/src/lib.rs:124-134 | In every reachable state: at most 512 queued, commands handled in the order accepted, callers blocked exactly while their query is queued, nobody blocked after the loop has exited |
| `CommandChannelTheorems.OutcomesAreTruthful` | native/ex_libp2p_nif/src/lib.rs:129-133 | In every reachable state a reply means the query was handled, ChannelFull that it was never accepted, NodeStopped that the loop has exited |
| `CommandChannelTheorems.OutcomesAreFinal` | native/ex_libp2p_nif/src/lib.rs:124-134 | Over every continuation a query that has ended keeps its one outcome |
| `CommandChannelTheorems.WaitingIsBounded` | native/ex_libp2p_nif/src/lib.rs:133 | In every interleaving a query moves forward one place with each turn of the loop and is over after k + 1 turns when k commands were in front |
| `CommandChannelTheorems.DropFindsNoQuery` | native/ex_libp2p_nif/src/node.rs:66-71 | When the handle can be dropped no query is queued |
| `CommandChannelTheorems.LoopEndsAfterDrop` | native/ex_libp2p_nif/src/node.rs:671 | After the drop the loop is never stuck, handles only what was queued, and exits within one turn more than there are queued commands |
| `CommandChannelTheorems.DropOfAFullQueueEndsTheLoop` | native/ex_libp2p_nif/src/node.rs:66-71 | The same when the queue was full and the drop could not place its Shutdown |
| `CommandChannelTheorems.AskIsQueuedOrRefused` | native/ex_libp2p_nif/src/lib.rs:124-134 | A query is queued at the end with its caller blocked exactly when the loop runs and fewer than 512 commands are queued; else its outcome is NodeStopped when the loop has ended and ChannelFull when it has not |
| `CommandChannelTheorems.SendsAreAcceptedIffRoom` | native/ex_libp2p_nif/src/lib.rs:498-506 | The same for fire-and-forget commands, stop_node and the Shutdown of a drop |
| `CommandChannelTheorems.LoopExitsExactlyWhen` | native/ex_libp2p_nif/src/node.rs:671 | A step ends the loop exactly when it takes Shutdown, finds the channel closed and empty, or panics |
| `CommandChannelTheorems.ShutdownEndsTheLoop` | native/ex_libp2p_nif/src/node.rs:671 | In every interleaving a queued Shutdown has ended the loop once the turn that takes it is over, also while the handle is alive |
| `CommandChannelTheorems.StopNodeEndsTheLoop` | native/ex_libp2p_nif/src/lib.rs:51-60 | stop_node on a running loop with room in the channel ends the loop within one turn more than there were queued commands |
| `CommandChannelTheorems.QueryOutcomeIsDetermined` | native/ex_libp2p_nif/src/lib.rs:124-134 | In every interleaving the outcome of a queued query is that of the one turn that takes it: its reply, or NodeStopped if that turn panics or the loop ends before |
| `CommandChannelTheorems.TurnsHandleInOrder` | native/ex_libp2p_nif/src/node.rs:419-672 | In every interleaving the commands handled are the queued ones, in order, one for each turn |
| `HandlerRegistry.Beam.Monitor` | lib/ex_libp2p/node/handler_registry.ex:118 | Monitoring a living process arms a fresh reference; a dead one answers at once |
| `HandlerRegistry.Beam.Demonitor` | lib/ex_libp2p/node/handler_registry.ex:200 | demonitor with flush disarms the reference and removes its messages from the mailbox, in order |
| `HandlerRegistry.HandleRegister` | lib/ex_libp2p/node/handler_registry.ex:110-128 | The register callback and its effect on the runtime, idempotent per key and pid |
| `HandlerRegistry.HandleUnregister` | lib/ex_libp2p/node/handler_registry.ex:195-213 | The unregister callback with its demonitor; an emptied list goes with its key |
| `HandlerRegistry.CollectForNode` | lib/ex_libp2p/node/handler_registry.ex:233-242 | Whatever order the map enumerates in, exactly the node's keys and references are collected |
| `HandlerRegistry.HandleCleanupNode` | lib/ex_libp2p/node/handler_registry.ex:233-251 | Collecting and then demonitoring one by one removes exactly the node's subscriptions, monitors and queued messages |
| `HandlerRegistry.HandleDispatch` | lib/ex_libp2p/node/handler_registry.ex:151-157 | The dispatch loop sends one message per entry, in list order |
| `HandlerRegistry.HandleNextDown` | lib/ex_libp2p/node/handler_registry.ex:165-167 | Taking the next :DOWN out of the mailbox and removing its subscriber |
| `HandlerRegistryTheorems.NextKeepsInv` | lib/ex_libp2p/node/handler_registry.ex:110-251 | Every callback and every process exit keeps both indices linked one to one and each monitor either armed on a living process or represented by its one queued :DOWN |
| `HandlerRegistryTheorems.ReachableRegistryIsConsistent` | lib/ex_libp2p/node/handler_registry.ex:110-251 | Over every history: indices linked, no empty list, no pid twice, every queued :DOWN names a live monitor of its own pid, and no case clause has failed |
| `HandlerRegistryTheorems.DownKeepsInv` | lib/ex_libp2p/node/handler_registry.ex:215-231 | Handling a queued :DOWN finds its monitor with the matching pid and takes out exactly that entry |
| `HandlerRegistryTheorems.CleanupKeepsInv` | lib/ex_libp2p/node/handler_registry.ex:233-251 | cleanup_node leaves exactly the entries of the other nodes |
| `HandlerRegistryTheorems.StepRefinesSet` | lib/ex_libp2p/node/handler_registry.ex:110-251 | Each step changes the set of (node, type, pid) triples as the plain set operation does |
| `HandlerRegistryTheorems.QuietRegistryHasOnlyLivingSubscribers` | lib/ex_libp2p/node/handler_registry.ex:215-231 | With no :DOWN queued, every subscriber is alive |
| `HandlerRegistryTheorems.DrainRemovesExactlyTheDead` | lib/ex_libp2p/node/handler_registry.ex:164-167 | Handling all queued :DOWNs removes the triples of dead processes and no others, and never fails |
| `HandlerRegistryTheorems.DeliveriesReachEachSubscriberOnce` | lib/ex_libp2p/node/handler_registry.ex:151-157 | One dispatch reaches each listed process once and no other |
| `HandlerRegistryTheorems.DispatchSendsToTheList` | lib/ex_libp2p/node/handler_registry.ex:151-157 | A dispatch sends exactly one message for each entry of its key, in list order, with the type and event it was given, and changes nothing else |
| `HandlerRegistryTheorems.ListsAreNewestFirst` | lib/ex_libp2p/node/handler_registry.ex:120-123 | Over every history each list is ordered with the newest subscription first |
| `HandlerRegistryTheorems.TheDeadAreThoseThatExited` | lib/ex_libp2p/node/handler_registry.ex:164-167 | Over every history a process counts as dead exactly if it exited in that history |
| `HandlerRegistryTheorems.EveryProcessReceivesWhatIsDue` | lib/ex_libp2p/node/handler_registry.ex:151-157 | Over any history a process receives exactly one message per dispatch made while its triple is in the set, in order, and nothing else |
| `TaskTracker.MarkOrphansMarks` | lib/ex_libp2p/otp/task_tracker.ex:209-217 | The one-pass fold over the tasks marks and collects exactly the orphans, for every order of enumeration |
| `TaskTracker.PeerLossIsExact` | lib/ex_libp2p/otp/task_tracker.ex:203-237 | Peer loss fails exactly the pending tasks of that peer, changes nothing else, reports each of them once, and is ignored while connections remain |
| `TaskTracker.PeerLossMessagesAreExact` | lib/ex_libp2p/otp/task_tracker.ex:224-226 | Every message of a peer loss names that peer and carries exactly its orphans; a living process gets one for each of its subscriptions if there are orphans, and otherwise nobody gets any |
| `TaskTracker.EveryLossIsReported` | lib/ex_libp2p/otp/task_tracker.ex:203-237 | A pending task of a lost peer is recorded as lost with its new status, and every living subscriber is sent a message that holds it |
| `TaskTracker.PendingTasksAreExact` | lib/ex_libp2p/otp/task_tracker.ex:257-259 | The pending listing has exactly the pending tasks that pass the filter, each once |
| `TaskTracker.PendingIsDisjointUnion` | lib/ex_libp2p/otp/task_tracker.ex:162-168 | All pending tasks are the disjoint union of the pending tasks of the peers |
| `TaskTracker.CleanupIsExact` | lib/ex_libp2p/otp/task_tracker.ex:174-181 | Cleanup keeps exactly the pending tasks unchanged and returns the number of the others |
| `TaskTracker.NextIdIsFresh` | lib/ex_libp2p/otp/task_tracker.ex:132-145 | The id given to the next task was never issued before |
| `TaskTracker.NextKeepsInv` | lib/ex_libp2p/otp/task_tracker.ex:131-255 | Every callback keeps the id and loss records consistent with the tasks |
| `TaskTracker.TasksAreConservedAndLostAtMostOnce` | lib/ex_libp2p/otp/task_tracker.ex:131-255 | Over every run: ids distinct, counter = tasks kept + tasks cleaned up, and each task reported lost at most once |
| `TaskTracker.NeverPendingAgain` | lib/ex_libp2p/otp/task_tracker.ex:246-255 | Over every continuation a task that has left pending never returns to it, also not after cleanup |
| `TaskTracker.OnlyStatusChanges` | lib/ex_libp2p/otp/task_tracker.ex:246-250 | Over every continuation nothing about a task but its status changes while it is kept |
| `TaskTracker.CompleteAndFailSetTheStatus` | lib/ex_libp2p/otp/task_tracker.ex:246-255 | complete and fail set the status of exactly the given task, and answer not_found exactly when there is no such task |
| `TaskTracker.DispatchFilesTheTask` | lib/ex_libp2p/otp/task_tracker.ex:132-145 | A dispatch files a pending task with the given peer, target, message and time under a new id and changes no other task |
| `TaskTracker.TasksAreKeptAsDispatched` | lib/ex_libp2p/otp/task_tracker.ex:132-145 | Over every continuation a task that is kept has the peer, target, message and time with which it was dispatched |
| `TaskTracker.SubscribersAreThoseWhoSubscribed` | lib/ex_libp2p/otp/task_tracker.ex:170-172 | Over every run the subscriptions are exactly those that were made, each as often as it was made |
| `FileStorage.Disk.WriteFile` | lib/ex_libp2p/keypair/storage/file.ex:21 | A write passes through every prefix of the content, one state each, and keeps the mode of an existing file; a failure after n steps leaves the first n states; no other path is touched |
| `FileStorage.Disk.Chmod` | lib/ex_libp2p/keypair/storage/file.ex:22 | chmod changes the mode in one step or fails without effect |
| `FileStorage.Disk.Rename` | lib/ex_libp2p/keypair/storage/file.ex:23 | rename replaces the target in one step or fails without effect |
| `FileStorage.Disk.Remove` | lib/ex_libp2p/keypair/storage/file.ex:29 | rm removes the file or fails without effect |
| `FileStorage.Write` | lib/ex_libp2p/keypair/storage/file.ex:18-32 | With a failure at any step, every state a reader can see has the complete old file or, from the last state of a successful write on, the complete new one with mode 0o600; it succeeds exactly when write, chmod and rename do, and an error leaves the old file; the temporary file stays only when its removal fails too |
| `FileStorage.ReadersSeeWholeFiles` | lib/ex_libp2p/keypair/storage/file.ex:18-32 | Over any number of writes by one writer, each finished, failed or killed at any state, a reader always finds the initial file or a completely written one |
| `Persistence.ExportRoutingTable` | native/ex_libp2p_nif/src/node.rs:536-562 | One entry for each peer of each bucket, at the place behind all peers of the earlier buckets, with the peer id and the addresses printed in order, and no other entries |
| `Persistence.ImportRoutingTable` | native/ex_libp2p_nif/src/node.rs:563-594 | The import calls add_address for every pair that parses, in order, skips the rest, and counts the calls |
| `Persistence.ImportEntry` | native/ex_libp2p_nif/src/node.rs:568-588 | An entry whose peer id does not parse is skipped as a whole |
| `Persistence.ImportAddresses` | native/ex_libp2p_nif/src/node.rs:577-587 | An address that does not parse is skipped alone |
| `Persistence.ImportIsAddressByAddress` | native/ex_libp2p_nif/src/node.rs:563-594 | Each address of each entry adds its pair exactly when it and the peer id of its entry parse, between the calls for all that stands before it and the calls for all that stands behind it |
| `Persistence.ImportUndoesExport` | native/ex_libp2p_nif/src/node.rs:536-594 | Importing an exported table yields exactly its (peer, address) pairs in order; peers without addresses drop out |
| `Persistence.PairsFollowTheBuckets` | native/ex_libp2p_nif/src/node.rs:536-562 | The pairs of the table, in a row, have every address of every peer of every bucket at its own place, and no others |
| `Persistence.SnapshotKeepsTableIff` | native/ex_libp2p_nif/src/lib.rs:274-323 | For a table whose lengths fit, the snapshot restores its pairs if and only if it is within the cap or there are no pairs |
| `Persistence.LargeTableIsLost` | native/ex_libp2p_nif/src/lib.rs:279-286 | A concrete table that is exported without complaint and refused as a whole at import |
| `Persistence.Terminate` | lib/ex_libp2p/node.ex:301-324 | A terminating node writes the encoded table atomically; it changes nothing on the disk when the export fails |
| `Persistence.Boot` | lib/ex_libp2p/node.ex:183-205 | A starting node imports what the snapshot file decodes to, or nothing |
| `Persistence.Restart` | lib/ex_libp2p/node.ex:183-205 | A restart adds exactly the exported pairs, every address of every peer of every bucket at its place, and counts them when the snapshot was written and is acceptable; when it was not written, exactly what the old snapshot gives |
| `Persistence.CrashLeavesOldOrNewTable` | lib/ex_libp2p/keypair/storage/file.ex:18-32 | Killed at any state of the write, the node restarts with the pairs of the old snapshot or of the new one |
| `EventFanout.OneBatch` | native/ex_libp2p_nif/src/events.rs:286-316 | One batch of 0, 1 or many peers, encoded and fanned out, gives its events back |
| `EventFanout.FanOutUndoesBatching` | lib/ex_libp2p/node.ex:239-248 | The same for any sequence of mDNS and rendezvous batches |
| `EventFanout.ShapeFollowsBatchSize` | native/ex_libp2p_nif/src/events.rs:255-316 | The shape of the message by the size of the batch: nothing or a no-op for none, a single event for one, a list for several, with peer id and addresses in their places |
| `EventFanout.EveryDiscoveryComesOut` | lib/ex_libp2p/node.ex:239-248 | The node passes on as many events as were discovered, and discovery i of batch b is the one behind all discoveries of the batches before it, with its peer id and addresses |
| `EventFanout.SubscriberSeesEveryDiscovery` | lib/ex_libp2p/node.ex:239-258 | Through the registry, with anything happening in between, a process subscribed throughout receives exactly one event per discovered pair, in order |

## Left out

- libp2p itself (swarm, Kademlia, gossipsub, transports) and the builder chain of `start_node_inner`: foreign code; `add_address`, `send_response` and the parsers are parameters or logged calls.
- Tokio's channel internals: `try_send`, `recv` and dropping the receiver are single steps, so a send racing with the receiver's drop is either accepted before it or refused after it.
- The contents of commands and replies on the command channel: a command is a query, a fire-and-forget command or Shutdown, and a reply is an arbitrary value.
- Wrap-around of the 64-bit channel counter: a run accepts fewer than 2^64 requests.
- Allocation hints of `decode` (`count.min(1024)`, `addr_count.min(64)`): they do not affect results.
- Persistence.SnapshotKeepsTableIff: speaks of tables whose lengths fit 16 bits; what a longer field turns into is covered by the round-trip condition of the codec.
- Persistence.Restart: assumes that peer ids and addresses parse back to themselves, and a DHT that is enabled when the node starts.
- FileStorage.ReadersSeeWholeFiles: one writer; two concurrent writers share one temporary path and are not covered.
- HandlerRegistryTheorems.EveryProcessReceivesWhatIsDue: counts messages sent, also to a process that has died but whose `:DOWN` is not yet handled; the runtime discards those.
- The registry does not monitor nodes: subscriptions of a node that is killed without `terminate` stay, and no claim is made about them.
- Order between a `:DOWN` and calls in the registry's mailbox: the model lets a queued `:DOWN` be handled later than it would be, which covers the real order.
- EventFanout.SubscriberSeesEveryDiscovery: for a process that hears of peer discovery from one node only, because messages do not name the node.
- Terminal task states are not final: `complete` and `fail` overwrite any status, and only the pending state is proved never to return.
- Tracker subscribers are not unique, and one that subscribed twice is notified twice.
- `OTP.Distribution`, `Health`, `Metrics`, `Config`, `PeerId`, `Multiaddr`, telemetry, logging and NIF term encoding: thin layers or foreign encodings with only easy members.
