# SkyTree: a verified model of the broker's hard parts

SkyTree is an MQTT 5 broker written in Go. This project models, in Dafny, the parts of it where a
mistake would lose, repeat or reorder messages, and proves what those parts promise. Run
`dafny verify dfyconfig.toml` in this directory to check everything.

| files | what they model |
|---|---|
| `Options`, `Sequences`, `HeapOrder`, `ContainerHeap`, `IndexedQueue`, `PassiveScheduler` | the two indexed binary heaps, updated in place, against a map and a set of tasks |
| `OutgoingInflight`, `PacketIDs`, `Downlink`, `DownlinkClient` | the downlink: in-flight store, packet identifiers, token bucket, delivery, retransmission and acknowledgement, as a class whose methods are steps of a state machine |
| `DownlinkSafety`, `DownlinkTrace`, `DownlinkOrder`, `DownlinkLaws` | what every run of that machine keeps: tokens, packets on the wire, cursors; and what each step means for client and store |
| `Recovery` | what a disconnect saves and a reconnect finds again |
| `ProgressCommit`, `CrashReplay` | the background commit of delivery progress, interleaved with sends and acknowledgements, and what is sent again or lost after a crash |
| `InboundQoS2`, `InboundLaws`, `InboundReceiver` | exactly-once reception across connections, as a state machine and as the class that carries it out |
| `ConnectionPhase`, `ConnectionLaws`, `ConnectionHandler` | CONNECT, enhanced authentication and CONNACK, likewise |
| `LifecycleRunner`, `ListenerQueue` | two pieces of channel code under every interleaving |
| `TopicFilters`, `AclPolicy` | filter containment, rule evaluation, the rule cache |
| `RateLimiter`, `WillTiming`, `Acknowledgements` | the fixed-window limiter, the will message at close, SUBACK and UNSUBACK |

Where the Go code changes an object in place, the model is a class with `modifies` clauses and loops
with invariants, proved against a specification function or a step relation. Where goroutines
interleave, the model is a state machine whose steps are single lock sections and atomic or channel
operations. Calls into other components (session store, router, plugins, delay center, the socket)
are parameters; a call that reports an error may or may not have taken effect.

## What turned out not to hold as stated

- Filter containment is not exact for every pair of well-formed filters: `/+/#` and `+/+/#` match all
  that `/#` matches, because topics are never empty, yet `FilterSuperset` says no.
  `TopicFilters.SupersetExact` shows these are the only two exceptions.
- A replay cursor does not always cover every unacknowledged QoS 1 task: it is ignored when it is at
  microsecond zero, when the stored cursor is of another generation, or when reading the stored cursor
  fails at that moment. `Recovery.ReplayCoverageExact` gives the exact condition,
  `Recovery.ReadFailureLosesTask` an input.
- The runner does not always start after the restored messages: `Recovery.AlignmentExact` gives the
  exact condition, `Recovery.RetainedBlocksAlignment` an input.
- A saved QoS 2 message can be neither restored nor read again: `Recovery.QoS2LostExact` gives the
  exact condition, `Recovery.LargeWindowLosesTask` an input, which needs more than 200 messages in flight.
- The replay after a crash is not bounded by the pending acknowledgements alone: the cursor is
  truncated to microseconds and stepped back, an AdvanceCursor that failed is not repeated, and a
  cursor that cannot be read counts as none. `CrashReplay.ReplayIsBounded` gives the exact surplus,
  `CrashReplay.OnlyMissedOverlap` when there is none, `CrashReplay.SlackIsReal`,
  `CrashReplay.MissedAdvanceIsReal` and `CrashReplay.FailedReadIsReal` a run for each cause.
- An unacknowledged message can be lost in a crash. Without a replay cursor, a QoS 0 message behind it
  is enough: see `CrashReplay.UnackedIsLost`. With one, no QoS 1 message is
  (`CrashReplay.UnackedQoS1Reread`), but a QoS 2 message can be if it and the cursor's task were
  sent between the two copies of one commit: see `CrashReplay.UnackedQoS2Kept` and
  `CrashReplay.TornCommitLosesTask`.
- The rule cache can fall behind the store: exactly when a write is reported as failed, took effect and
  differs from what is cached. See `AclPolicy.SequenceCoherentExact` and `AclPolicy.StaleCache`. A
  reload does not repair a torn delete: see `AclPolicy.ReloadHealsExact`.
- A deny does not keep a wider or overlapping subscription from receiving the denied topic: see
  `AclPolicy.DeniedTopicReceivedExact` and `AclPolicy.WideSubscriptionPasses`.
- A QoS 2 message can be routed twice, exactly after a route whose record stays behind: the router
  fails after taking the message, the removal fails, or a connection whose session ends with it
  restored the record and never removes it. See `InboundQoS2.StepOnceExact` and
  `InboundQoS2.HazardDuplicates`. The restored message gets a new message identifier
  (`internal/broker/client/incoming_qos2_restore.go:51`), so nothing downstream can tell the copy.
- The rate limiter uses the zero time both as a time and as "no window yet", so calls at that instant
  are always admitted: see `RateLimiter.TwiceTheLimit`.
- A will can be published twice when the delay center stores the task and reports an error: see
  `WillTiming.CloseSession`.
- A connect admission that refuses with a code below 0x80 is written as a CONNACK that counts as
  accepted, although no CONNECT was completed; the connection is closed at once.
  `ConnectionPhase.AcceptedExact` shows this is the only way the two differ,
  `ConnectionPhase.OddRefusalHappens` an input.

## Model

| member | source | states |
|---|---|---|
| `HeapOrder.PushRestores` | pkg/indexedheap/queue.go:35-39 | pushing at the end and sifting up gives a heap whose ranks are the old ones and the new one |
| `HeapOrder.FixRestores` | pkg/indexedheap/queue.go:74-79 | after one rank changes, fixing that position restores heap order without losing or adding a rank |
| `HeapOrder.RemoveRestores` | pkg/indexedheap/queue.go:93-104 | removing a position leaves a heap of exactly the other ranks |
| `HeapOrder.RootIsLeast` | pkg/indexedheap/queue.go:118-126 | the root of a heap is at most every other element |
| `HeapOrder.DueFromExact` | pkg/indexedheap/queue.go:149-160 | the walk that stops at the first entry not due reaches exactly the due positions of a subtree |
| `HeapOrder.DueFromDistinct` | pkg/indexedheap/queue.go:149-160 | the walk reaches no position twice |
| `ContainerHeap.Swap` | pkg/indexedheap/queue.go:29-33 | swapping keeps every entry's recorded position in line with the slice |
| `ContainerHeap.SiftUp` | pkg/indexedheap/queue.go:35-39 | the sift-up loop computes Up on the ranks and keeps recorded positions right |
| `ContainerHeap.SiftDown` | pkg/indexedheap/queue.go:74-79 | the sift-down loop computes Down on the ranks, reports whether anything moved, and leaves the rest of the slice alone |
| `ContainerHeap.Pop` | pkg/indexedheap/queue.go:41-49 | popping cuts off the last entry and marks it as out of the heap |
| `ContainerHeap.Remove` | pkg/indexedheap/queue.go:93-104 | removal keeps recorded positions right and leaves exactly the other entries |
| `ContainerHeap.PriorityHeap.Replace` | pkg/indexedheap/queue.go:74-79 | changing one entry in place and fixing around it keeps heap order and membership |
| `ContainerHeap.PriorityHeap.DueEntries` | pkg/indexedheap/queue.go:149-160 | the recursive walk returns exactly the entries due by a time, each once |
| `ContainerHeap.SortByRank` | pkg/indexedheap/queue.go:128-147 | sorting gives an ascending permutation |
| `IndexedQueue.Queue.Upsert` | pkg/indexedheap/queue.go:74-91 | afterwards the key has the priority and value, with the insertion number it had or a new one, and every other key what it had; heap order, positions and the key index stay in step |
| `IndexedQueue.Queue.Remove` | pkg/indexedheap/queue.go:93-104 | removal takes exactly the key out of that map and says whether it was there |
| `IndexedQueue.Queue.Run` | pkg/indexedheap/queue.go:58-104 | any sequence of operations leaves the queue meaning what the same sequence does to the map |
| `IndexedQueue.LastOpDecides` | pkg/indexedheap/queue.go:58-104 | after any sequence of operations a key has what the last operation about it said |
| `IndexedQueue.UntouchedStays` | pkg/indexedheap/queue.go:58-104 | a key no operation is about keeps its entry |
| `IndexedQueue.Queue.Get` | pkg/indexedheap/queue.go:106-116 | get answers from the map |
| `IndexedQueue.Queue.Peek` | pkg/indexedheap/queue.go:118-126 | peek returns the map's least entry by priority and insertion number, and nothing exactly when the map is empty |
| `IndexedQueue.Queue.ValuesAtOrBefore` | pkg/indexedheap/queue.go:128-147 | returns the values of exactly the entries due, each once, strictly by priority and insertion number |
| `PassiveScheduler.WalkRound` | pkg/scheduler/scheduler.go:138-166 | one round of the explicit-stack loop keeps: every due position was seen or lies under exactly one stacked position; and the remaining work shrinks |
| `PassiveScheduler.CollectExpired` | pkg/scheduler/scheduler.go:138-166 | the stack loop ends having visited exactly the due positions |
| `PassiveScheduler.Scheduler.Add` | pkg/scheduler/scheduler.go:94-116 | adds or replaces a task by key; a task without a key is ignored; index and heap stay in step |
| `PassiveScheduler.Scheduler.Remove` | pkg/scheduler/scheduler.go:119-135 | removes exactly the key and says whether it was there |
| `PassiveScheduler.Scheduler.GetExpired` | pkg/scheduler/scheduler.go:138-166 | returns exactly the tasks with expiry at or before the time, each once |
| `TopicFilters.MatchLevels` | internal/broker/acl/match.go:42-59 | the index loop decides the declarative meaning of matching |
| `TopicFilters.MatchTopicExact` | internal/broker/acl/match.go:8-59 | matching is the level-by-level rule of the standard on non-empty topics without wildcards |
| `TopicFilters.SupersetLevels` | internal/broker/acl/match.go:61-95 | the two-index loop decides level-by-level covering |
| `TopicFilters.SupersetSound` | internal/broker/acl/match.go:20-40 | if FilterSuperset says yes, every topic the request matches is matched by the rule, for all strings |
| `TopicFilters.SupersetExact` | internal/broker/acl/match.go:20-95 | for well-formed filters FilterSuperset says yes exactly when the rule matches all the request matches, apart from the two rules that cover the request of an empty level and a hash |
| `TopicFilters.TopicCoverExact` | internal/broker/acl/match.go:20-95 | a filter covers a concrete topic exactly when it matches it, for all filters |
| `TopicFilters.GapIsContained` | internal/broker/acl/match.go:61-95 | the two exceptional rules do contain that request although FilterSuperset says no |
| `TopicFilters.OverlapExact` | internal/broker/acl/match.go:42-59 | two well-formed filters match a common topic exactly when their levels overlap, the plus filter and the request of an empty level and a hash excepted |
| `TopicFilters.SplitJoin` | pkg/mqtt5/topic/topic.go:15-20 | splitting a joined list of levels gives the list back |
| `TopicFilters.JoinSplit` | pkg/mqtt5/topic/topic.go:15-20 | joining the levels of a string gives the string back |
| `AclPolicy.Eval` | internal/broker/acl/policy.go:37-70 | the two early-exit passes decide: no deny filter of a rule about the client hits, and some allow filter of one does or the default allows; publish by matching, subscribe by containment |
| `AclPolicy.ForeignRuleIsIgnored` | internal/broker/acl/policy.go:72-80 | a rule that names another user, another client or nobody can be removed without changing any decision |
| `AclPolicy.NamedRuleTakesPart` | internal/broker/acl/policy.go:37-80 | a rule whose names agree with the client decides: its deny against, its allow in favour unless some rule denies |
| `AclPolicy.OrderDoesNotMatter` | internal/broker/acl/policy.go:37-70 | rulesets with the same rules in any order or multiplicity decide alike |
| `AclPolicy.DenyWins` | internal/broker/acl/policy.go:37-52 | a matching deny of any applicable rule decides, whatever the other rules say |
| `AclPolicy.GrantCoversSubscription` | internal/broker/acl/policy.go:54-67 | under default deny a granted subscription is contained in one allow filter of an applicable rule |
| `AclPolicy.DeniedTopicReceivedExact` | internal/broker/acl/policy.go:37-52 | a subscription receives a topic to which the same client may not subscribe by name exactly when a deny filter of an applicable rule overlaps it |
| `AclPolicy.WideSubscriptionPasses` | internal/broker/acl/policy.go:47-51 | denying one topic below a level leaves a subscription to the whole level granted, for every level and name |
| `AclPolicy.FindUpserted` | internal/broker/acl/manager.go:154-217 | after an upsert the identity finds the new rule and every other identity finds what it did before |
| `AclPolicy.FindWithout` | internal/broker/acl/manager.go:219-261 | after a delete the identity finds nothing, repeats included, and the others are unaffected |
| `AclPolicy.WithoutUpserted` | internal/broker/acl/manager.go:177-261 | deleting a freshly upserted identity gives back the original rules |
| `AclPolicy.CoherentExact` | internal/broker/acl/manager.go:113-261 | an operation keeps the cached rules equal to what a reload would give exactly when it is not a write reported as failed that took effect and differs from the cache |
| `AclPolicy.SequenceCoherentExact` | internal/broker/acl/manager.go:85-261 | over any sequence of operations the cache is coherent throughout exactly when none of them tears it |
| `AclPolicy.StaleCache` | internal/broker/acl/manager.go:267-279 | a torn write leaves an evaluator in force that permits what the stored rules refuse |
| `AclPolicy.ReloadHealsExact` | internal/broker/acl/manager.go:85-96 | a reload restores coherence exactly when there are rules to load or nothing is cached; after a torn delete it does not |
| `AclPolicy.Manager.Reload` | internal/broker/acl/manager.go:85-96 | installs the rules of the file, else of the store, with the configured default, or changes nothing |
| `AclPolicy.Manager.PutRuleset` | internal/broker/acl/manager.go:113-132 | refuses in file mode and for nameless identities, else stores and caches the same effective rules; coherence is kept exactly when the write does not tear |
| `AclPolicy.Manager.DeleteRuleset` | internal/broker/acl/manager.go:134-152 | empties store and cache together; coherence is kept exactly unless the write failed, took effect and something was cached |
| `AclPolicy.Manager.UpsertRule` | internal/broker/acl/manager.go:177-217 | afterwards the identity finds the rule and every other identity what it found before; coherence is kept exactly when the write does not tear |
| `AclPolicy.Manager.DeleteRule` | internal/broker/acl/manager.go:219-261 | afterwards the identity finds nothing and the others are unaffected; writes only if there was a rule; coherence is kept exactly when the write does not tear |
| `AclPolicy.Manager.Run` | internal/broker/acl/manager.go:85-261 | any sequence of operations on the object has the effect of the same sequence on the pair of store and cache, and from a coherent cache ends coherent if none tears |
| `AclPolicy.Manager.EnsureLoaded` | internal/broker/acl/manager.go:74-82 | keeps a cached ruleset, torn or not, and loads into an empty cache; coherent afterwards exactly if before, and then the cached rules are those of the source |
| `AclPolicy.Manager.GetRule` | internal/broker/acl/manager.go:154-175 | returns the first rule with the identity |
| `OutgoingInflight.Store.Put` | internal/broker/client/outgoing_inflight.go:69-78 | stores under the packet identifier, ignores identifier 0, reports a replaced entry |
| `OutgoingInflight.Store.MarkAcked` | internal/broker/client/outgoing_inflight.go:101-114 | marks exactly an unacknowledged entry of the given QoS; the stage is not looked at |
| `OutgoingInflight.Store.MarkTokenHeld` | internal/broker/client/outgoing_inflight.go:116-129 | marks exactly an entry that held no token |
| `OutgoingInflight.Store.MarkSent` | internal/broker/client/outgoing_inflight.go:155-168 | counts the retry and stamps the time of exactly one entry |
| `OutgoingInflight.Store.PopAckedInOrder` | internal/broker/client/outgoing_inflight.go:170-200 | removes and returns, in task order, the acknowledged entries before the first open one, and nothing else |
| `OutgoingInflight.PoppedIsAckedPrefix` | internal/broker/client/outgoing_inflight.go:170-200 | with distinct tasks an entry leaves exactly when it and everything before it is acknowledged |
| `OutgoingInflight.Store.FirstUnacked` | internal/broker/client/outgoing_inflight.go:251-271 | returns the earliest open entry, and nothing exactly when there is none |
| `OutgoingInflight.Store.LastTask` | internal/broker/client/outgoing_inflight.go:273-293 | returns the latest entry by task |
| `OutgoingInflight.Store.All` | internal/broker/client/outgoing_inflight.go:213-232 | lists every entry once |
| `PacketIDs.Factory.Next` | internal/broker/client/internal/packetid/packet_id.go:36-52 | the counter moves one step around 1 to 65535 and never yields 0 |
| `PacketIDs.Factory.NextPacketID` | internal/broker/client/client_identity.go:99-116 | returns an identifier no entry in flight uses, and 0 exactly when all 65535 are in use |
| `DownlinkClient.Bucket.PutToken` | internal/broker/client/rate/bucket.go:70-79 | returns a token unless the bucket is full |
| `DownlinkClient.Client.DeliverTask` | internal/broker/client/delivery_runner.go:652-702 | a sent task is in flight under a free identifier with its QoS, position and message, waiting for the acknowledgement its QoS calls for, and one PUBLISH is on the wire; the cursor moves exactly when the task was dropped, sent or too large |
| `DownlinkClient.Client.DeliverTasks` | internal/broker/client/delivery_runner.go:622-649 | the loop is a run of the engine over the tasks in order, and stops early only when closed, out of tokens, or after a delivery that failed or whose cursor could not be stored |
| `DownlinkClient.Client.DeliverTracked` | internal/broker/client/delivery_runner.go:825-977 | token, identifier, entry, write and rollback of a QoS 1 or 2 send amount to one delivery step |
| `DownlinkClient.Client.MaybeRetransmit` | internal/broker/client/delivery_runner.go:342-456 | carries out the retransmission step of the first open entry: give up, wait, wait for a token, resend, discard or roll back |
| `DownlinkClient.Client.Resend` | internal/broker/client/delivery_runner.go:399-456 | token, write and rollback of a retransmission amount to one step; without a token nothing happens |
| `DownlinkClient.Client.CompleteTerminal` | internal/broker/client/client_handler_qos_flow.go:36-53 | an acknowledgement stores one cursor for each queue task it lets go, and writes nothing |
| `DownlinkClient.Client.HandlePubAck` | internal/broker/client/client_handler_qos_flow.go:17-31 | PUBACK of either outcome completes a QoS 1 entry |
| `DownlinkClient.Client.HandlePubRec` | internal/broker/client/client_handler_qos_flow.go:128-149 | a positive PUBREC is answered with PUBREL exactly when it finds a QoS 2 entry waiting for it and the write gets out, and moves it to waiting for PUBCOMP; a negative one completes the entry |
| `DownlinkClient.Client.HandlePubComp` | internal/broker/client/client_handler_qos_flow.go:154-165 | PUBCOMP of either outcome completes a QoS 2 entry |
| `DownlinkClient.Client.WriteRetained` | internal/broker/client/retained_delivery.go:14-85 | a retained QoS 1 or 2 send is one step with rollback on a failed write; without a token it waits and nothing has happened; after the connection ended the store is unchanged, but a token that was not taken is returned |
| `DownlinkClient.Client.RestoreEntry` | internal/broker/client/outgoing_inflight_restore.go:137-287 | a restored entry takes a token if there is one and goes on with PUBLISH or PUBREL by its stage, or waits without one |
| `DownlinkSafety.StepBalances` | internal/broker/client/delivery_runner.go:399-456 | every step keeps tokens plus unacknowledged holders equal to the window |
| `DownlinkSafety.TokensConserved` | internal/broker/client/delivery_runner.go:825-952 | over every run: tokens left plus unacknowledged entries holding one equal the window, so the Receive Maximum is never exceeded and no returned token is dropped |
| `DownlinkTrace.TraceIsSound` | internal/broker/client/delivery_runner.go:342-439 | over every run: no PUBLISH after the PUBREL of its message, at most the configured number of retransmissions, and packets of a live entry carry its identifier |
| `DownlinkTrace.StagesMoveForward` | internal/broker/client/client_handler_qos_flow.go:128-149 | an entry seen at two times of a run keeps its identifier and never goes back a stage |
| `DownlinkOrder.CursorsAdvance` | internal/broker/client/client_handler_qos_flow.go:65-113 | over every run the cursors of the acknowledgement path strictly increase and stay before every task still in flight |
| `DownlinkOrder.StoredCursorTrails` | internal/broker/client/client_handler_qos_flow.go:65-113 | a cursor the acknowledgement path stored is before every task in flight |
| `DownlinkLaws.AckStoresEveryCursor` | internal/broker/client/client_handler_qos_flow.go:65-113 | an acknowledgement stores the position of every queue task that leaves, nothing else, as many as tasks |
| `DownlinkLaws.AckLetsGoExact` | internal/broker/client/client_handler_qos_flow.go:36-63 | an acknowledgement is ignored unless it fits an open entry; then an entry leaves exactly if everything up to it is acknowledged, and what stays is unchanged but for the mark |
| `DownlinkLaws.AcknowledgedIsStored` | internal/broker/client/client_handler_qos_flow.go:79-95 | over every run a queue task that left by acknowledgement had its cursor stored |
| `DownlinkLaws.StoredIsAcknowledged` | internal/broker/client/client_handler_qos_flow.go:79-95 | over every run every cursor the acknowledgement path stored is that of such a task |
| `DownlinkLaws.PubRecAnswered` | internal/broker/client/client_handler_qos_flow.go:128-149 | PUBREL goes out exactly for a QoS 2 entry waiting for PUBREC whose write gets out |
| `DownlinkLaws.DeliveryIsFaithful` | internal/broker/client/delivery_runner.go:825-893 | what is sent is the task's message with the task's QoS, waiting for PUBREC or PUBACK accordingly; nothing is left of a send that failed |
| `DownlinkLaws.RetainedIsFaithful` | internal/broker/client/retained_delivery.go:36-85 | the same for a retained message |
| `DownlinkLaws.RestoreIsFaithful` | internal/broker/client/outgoing_inflight_restore.go:137-287 | a restored entry goes on with PUBREL or PUBLISH by its stage, or waits unsent without a token |
| `DownlinkLaws.RetransmitExact` | internal/broker/client/delivery_runner.go:342-456 | the connection is given up exactly for age or retries; else the entry is resent exactly when the interval has passed and there is a token, with its own packet |
| `DownlinkLaws.RetransmissionsAreSpaced` | internal/broker/client/delivery_runner.go:342-398 | over every run two retransmissions of one message are at least the interval apart |
| `DownlinkLaws.ExchangeCompletes` | internal/broker/client/client_handler_qos_flow.go:17-165 | a task delivered and acknowledged in full puts PUBLISH and, for QoS 2, PUBREL on the wire, leaves, has its cursor stored and its token back |
| `Recovery.CollectUnfinished` | internal/broker/client/client_lifecycle.go:153-208 | saves exactly the QoS 2 and retained entries with identifier, stage and message |
| `Recovery.CollectReplay` | internal/broker/client/client_lifecycle.go:210-242 | saves the earliest unacknowledged QoS 1 task, and nothing exactly when there is none |
| `Recovery.NothingIsForgotten` | internal/broker/client/client_lifecycle.go:153-242 | every unacknowledged entry is saved alone or replayed by position, never both |
| `Recovery.ReplayPrecedes` | internal/broker/client/delivery_runner.go:519-544 | truncation to microseconds, the step back and the clamp never skip the task the cursor was made for |
| `Recovery.ReplayCoverageExact` | internal/broker/client/delivery_runner.go:519-544 | the reconnected runner rereads every unacknowledged QoS 1 task exactly under the stated condition on the earliest one |
| `Recovery.TrimmedCoverageExact` | pkg/storage/delivery/metadata/badgerstore/state_machine_update.go:64-107 | from a store that deletes tasks up to its cursor, every unacknowledged QoS 1 task is read again exactly if in addition the cursor has not passed the earliest |
| `Recovery.ReplayMissed` | internal/broker/client/outgoing_inflight_restore.go:60-81 | a task is lost whenever the stored cursor is past it and, at the restore, could not be read or was of another generation |
| `Recovery.ReadFailureLosesTask` | internal/broker/client/outgoing_inflight_restore.go:73-81 | one such input: a single failed read of the stored cursor |
| `Recovery.StoredCursorRereadsAll` | internal/broker/client/delivery_runner.go:519-544 | for every run whose stored cursor only acknowledgements moved, reading from it finds every unacknowledged task again |
| `Recovery.RestoreRoundTrip` | internal/broker/client/outgoing_inflight_restore.go:113-249 | a saved entry comes back with identifier, QoS, stage and message; a queue message exactly when its task is among the first 200 after the stored cursor |
| `Recovery.RestoredWithItsTask` | internal/broker/client/outgoing_inflight_restore.go:165-190 | a restored queue message has the position and generation of the task it was sent for |
| `Recovery.InLookupExact` | internal/broker/client/outgoing_inflight_restore.go:316-355 | the lookup finds the k-th task of the queue exactly if it is one of the 200 behind the cursor |
| `Recovery.QoS2LostExact` | internal/broker/client/outgoing_inflight_restore.go:113-249 | a saved QoS 2 queue message is neither restored nor read again exactly if its task is not one of those 200 and is up to the start position |
| `Recovery.LargeWindowLosesTask` | internal/broker/client/outgoing_inflight_restore.go:333-343 | an input with 202 messages in flight in which one is lost that way |
| `Recovery.AlignmentExact` | internal/broker/client/delivery_runner.go:239-265 | the runner starts at or after every restored queue task exactly when the loaded position already is, or no replay is due and the newest restored entry is not retained |
| `Recovery.RetainedBlocksAlignment` | internal/broker/client/delivery_runner.go:239-265 | an input where the newest restored entry is retained and the runner starts before a restored task |
| `ProgressCommit.StepInv` | internal/broker/client/outgoing_progress_commit.go:28-115 | every step of runner, acknowledgement handler and commit goroutines keeps: one commit at a time, the counter in line with what was counted, tasks in queue order, the persisted cursor past every completed task whose AdvanceCursor had effect, and what each copy lists and has passed |
| `ProgressCommit.CursorMovesExact` | internal/broker/client/client_handler_qos_flow.go:79-105 | the persisted cursor moves exactly when AdvanceCursor takes effect for a skipped, dropped or completed queue task and leads forward, never for a retained message |
| `ProgressCommit.CommitAccounting` | internal/broker/client/outgoing_progress_commit.go:62-115 | under every interleaving at most one commit runs, exactly while the flag is up, and the counter is never negative |
| `ProgressCommit.LateAcksStayPending` | internal/broker/client/outgoing_progress_commit.go:76-115 | a commit subtracts exactly the acknowledgements counted before its load; their entries had left the store by then and are not in what it wrote; later ones stay pending |
| `CrashReplay.ReplayIsBounded` | internal/broker/client/outgoing_progress_commit.go:12-36 | after a crash at any point of any run the completed messages sent again are pending ones and exactly the overlap; so they number at most the pending acknowledgements plus the overlap |
| `CrashReplay.KeptExact` | internal/broker/client/outgoing_inflight_restore.go:37-87 | the saved replay cursor is in force exactly when there is one, its task is at least a microsecond after the epoch and the persisted cursor could be read |
| `CrashReplay.RereadExact` | internal/broker/client/delivery_runner.go:519-544 | with a replay cursor, exactly these completed messages are sent again: listed ones that are found and tasks not before the cursor's, all pending, and tasks queued less than two microseconds before it |
| `CrashReplay.OnlyMissedOverlap` | internal/broker/client/client_handler_qos_flow.go:79-113 | if the store deletes tasks up to the cursor, or the runner starts from the cursor as stored, only tasks whose AdvanceCursor had no effect overlap; without such tasks the pending acknowledgements bound what is sent again |
| `CrashReplay.SlackIsReal` | internal/broker/client/client_lifecycle.go:210-242 | a run in which nothing is pending and no AdvanceCursor failed, and a completed QoS 2 task is read again because its microsecond is that of the cursor |
| `CrashReplay.MissedAdvanceIsReal` | internal/broker/client/client_handler_qos_flow.go:90-105 | a run in which nothing is in flight, listed or pending, and a completed task is sent again because its AdvanceCursor failed |
| `CrashReplay.FailedReadIsReal` | internal/broker/client/delivery_runner.go:526-529 | a run in which a completed, stored and committed task is read again because the persisted cursor could not be read |
| `CrashReplay.UnackedQoS1Reread` | internal/broker/client/outgoing_progress_commit.go:12-22 | with a replay cursor every unacknowledged QoS 1 task in flight at the crash, sent before or after the commit, is read again exactly if the store still has it |
| `CrashReplay.UnackedQoS2Kept` | internal/broker/client/outgoing_progress_commit.go:94-106 | a QoS 2 task in flight is listed or read again if the cursor's task was sent before the unfinished messages were copied; one sent after that copy exactly if it is behind the cursor's task |
| `CrashReplay.UnackedIsLost` | internal/broker/client/delivery_runner.go:957-978 | a run in which a QoS 0 message moves the persisted cursor past an unacknowledged task that no commit listed, and no reconnect finds it |
| `CrashReplay.TornCommitLosesTask` | internal/broker/client/outgoing_progress_commit.go:94-106 | a run in which a QoS 2 task and then a QoS 1 task are sent between the two copies of a commit, and after a crash no reconnect that reads the cursor restores or reads the QoS 2 task |
| `CrashReplay.CommitSucceeds` | internal/broker/client/outgoing_progress_commit.go:76-115 | a commit that nothing interrupts makes exactly what is in flight durable and leaves nothing counted |
| `InboundReceiver.Receiver.Store` | internal/broker/client/qos2receive/qos2_receiver.go:50-80 | parks a message under a free identifier and only refreshes the time stamp of a taken one |
| `InboundReceiver.Receiver.DropExpired` | internal/broker/client/qos2receive/qos2_receiver.go:28-48 | the pass over the time stamps drops exactly the messages untouched for longer than the lifetime |
| `InboundReceiver.Receiver.StorePublish` | internal/broker/client/client_handler_publish.go:261-303 | parks, records, and takes the message back when recording fails |
| `InboundReceiver.Receiver.HandlePublish` | internal/broker/client/client_handler_publish.go:25-60 | the answer of every branch: none, 0x99, the stored code, 0x87, or for a new admitted PUBLISH 0x00 or 0x10 once it is parked and recorded and none if recording failed; in a lasting session nothing is acknowledged that is not recorded |
| `InboundReceiver.Receiver.HandlePubRel` | internal/broker/client/client_handler_qos_flow.go:170-280 | PUBCOMP is sent exactly when nothing was parked or every call that was needed succeeded, and then message and record are gone; the message is routed exactly when it is to be delivered and the router took it |
| `InboundQoS2.AtMostOnce` | internal/broker/client/client_handler_qos_flow.go:255-280 | over every run of connections, restores and failures without a hazard no message is routed twice |
| `InboundQoS2.StepOnceExact` | internal/broker/client/client_handler_qos_flow.go:255-280 | a step keeps every message from being routed twice exactly when it is not a hazard, a condition on the outcomes of the route and removal calls and the kind of session |
| `InboundQoS2.HazardDuplicates` | internal/broker/client/incoming_qos2_restore.go:18-56 | after any hazard a lost connection, a reconnect and a repeated PUBREL route the same message again |
| `InboundQoS2.NothingIsLost` | internal/broker/client/incoming_qos2_restore.go:58-97 | a message acknowledged with PUBREC in a lasting session is routed, ended for a stated reason, or still recorded; a record is replaced only after it expired |
| `InboundQoS2.RepeatHasNoEffect` | internal/broker/client/client_handler_publish.go:181-202 | in every reachable state a repeated PUBLISH is acknowledged again and changes nothing else |
| `InboundLaws.CodeStays` | internal/broker/client/client_handler_publish.go:261-303 | over every run a message carries the code of its PUBLISH, 0x00 or 0x10, wherever it is kept |
| `InboundLaws.MatchedIsRouted` | internal/broker/client/client_handler_qos_flow.go:170-280 | over every run a message with subscribers is routed by a PUBREL whose calls succeed, whatever lies between, and is then gone |
| `InboundLaws.UnmatchedIsNotRouted` | internal/broker/client/client_handler_qos_flow.go:240-254 | over every run a message without subscribers is never routed |
| `InboundLaws.SessionsExact` | internal/broker/client/incoming_qos2_restore.go:18-97 | a connection starts with exactly the records of the session, or with none on a clean start, and its end keeps or discards them |
| `ConnectionPhase.HandlePacketKeeps` | internal/broker/client/client_handler.go:42-60 | whatever a handler does, the connection stays in one of its three phases and its conversation in order |
| `ConnectionPhase.WrittenOrderly` | internal/broker/client/client_io.go:52-82 | a write keeps the conversation in order if a CONNACK comes first and once and everything but AUTH waits for it |
| `ConnectionPhase.FailProtocolKeeps` | internal/broker/client/client_handler.go:165-174 | a protocol failure leaves an orderly, ended conversation in every phase: DISCONNECT only after an accepted CONNACK |
| `ConnectionPhase.FailConnectKeeps` | internal/broker/client/client_handler_auth_disconnect.go:115-129 | a failing CONNACK leaves an orderly, ended conversation |
| `ConnectionPhase.SendAuthKeeps` | internal/broker/client/client_handler_publish.go:592-603 | an AUTH keeps phase and order in every phase, delivered or lost |
| `ConnectionPhase.HandleConnectKeeps` | internal/broker/client/client_handler_connect.go:91-129 | a CONNECT takes a fresh connection to authenticating, connected or ended |
| `ConnectionPhase.InitialAuthKeeps` | internal/broker/client/client_handler_publish.go:466-519 | so does the first round of enhanced authentication, which leaves the CONNECT pending exactly while it goes on |
| `ConnectionPhase.CompleteKeeps` | internal/broker/client/client_handler_connect.go:135-176 | completion keeps the phase and the order of the conversation |
| `ConnectionPhase.HandleAuthKeeps` | internal/broker/client/client_handler_auth_disconnect.go:18-53 | an AUTH in any state of authentication keeps phase and order |
| `ConnectionPhase.AuthDuringKeeps` | internal/broker/client/client_handler_auth_disconnect.go:75-112 | a further round keeps the connection authenticating, connects it or ends it |
| `ConnectionPhase.AuthAfterKeeps` | internal/broker/client/client_handler_auth_disconnect.go:55-73 | re-authentication keeps a connection connected or ends it |
| `ConnectionPhase.ConversationIsOrderly` | internal/broker/client/client_io.go:52-82 | over every run the client sees at most one CONNACK, only AUTH before it, DISCONNECT and all else only after success, nothing after a failing CONNACK |
| `ConnectionPhase.ServedOnlyWhenConnected` | internal/broker/client/client_handler.go:86-106 | a PUBLISH, SUBSCRIBE or the like passes the phase check exactly when a successful CONNACK was written |
| `ConnectionPhase.PendingConnectIsThere` | internal/broker/client/client_handler_auth_disconnect.go:75-112 | while authenticating, the pending CONNECT is present and names the negotiated method, so the missing-CONNECT branch is dead |
| `ConnectionPhase.SuccessIsEarned` | internal/broker/client/client_handler_connect.go:135-176 | the completed CONNECT is the one taken up, and if it named a method a plugin had accepted it |
| `ConnectionPhase.AcceptedExact` | internal/broker/client/client_io.go:496-500 | over every run a CONNACK counts as accepted exactly when a CONNECT was completed, if and only if no admission refused with a code below 0x80 |
| `ConnectionPhase.StepAgreesExact` | internal/broker/client/client_handler_connect.go:467-492 | the same for one step: the exception is exactly a completing CONNECT or AUTH whose admission code lies between 0 and 0x80 and whose CONNACK got out |
| `ConnectionPhase.SuccessOnTheWire` | internal/broker/client/client_handler_connect.go:135-176 | apart from such refusals every CONNACK without error code on the wire has code 0, answers the one CONNECT the client sent and, if it named a method, follows a plugin's acceptance |
| `ConnectionPhase.OddRefusalHappens` | internal/broker/client/client_handler_connect.go:467-492 | a run in which a refusal with code 1 is written and counts as accepted although nothing was completed |
| `ConnectionLaws.AcceptanceExact` | internal/broker/client/client_handler_connect.go:91-176 | a step completes a CONNECT exactly when it is the first packet or its authentication ends with success, admission, plugin and session agree and CONNACK gets out |
| `ConnectionLaws.EarnedIsGreeted` | internal/broker/client/client_handler_connect.go:135-176 | then CONNACK 0 is the next packet, the delivery runner starts and the client is known by its identifier or the one it was given |
| `ConnectionLaws.GreetingExact` | internal/broker/client/client_handler_connect.go:135-176 | over every run CONNACK 0 is on the wire exactly if such a step happened |
| `ConnectionLaws.FirstConnectRefused` | internal/broker/client/client_handler_connect.go:91-176 | which check of a first CONNECT is answered with which code, in the order of the checks |
| `ConnectionLaws.AuthenticationRefused` | internal/broker/client/client_handler_auth_disconnect.go:75-129 | the same for a further round of authentication |
| `ConnectionLaws.UnwelcomeIsDropped` | internal/broker/client/client_handler.go:42-174 | a packet that may not come now ends the connection, with DISCONNECT exactly if CONNACK was accepted |
| `ConnectionLaws.ReauthenticationAnswered` | internal/broker/client/client_handler_auth_disconnect.go:55-73 | re-authentication answers AUTH with AUTH and ends the connection when it is refused |
| `ConnectionLaws.BusinessIsServed` | internal/broker/client/client_handler.go:108-158 | a served packet's replies go out, and the connection ends exactly on an error |
| `ConnectionLaws.EndingsAnswered` | internal/broker/client/client_lifecycle.go:24-129 | undecodable packets and broker-side closes: CONNACK with the reason before acceptance, DISCONNECT after it |
| `ConnectionHandler.Client.OnPacket` | internal/broker/client/client_handler.go:42-158 | the object accepts a CONNECT exactly when every check passes and CONNACK gets out, then CONNACK 0 is the next packet; a packet that may not come now ends the connection; business packets lead to a packet on the wire only after a successful CONNACK |
| `ConnectionHandler.Client.Live` | internal/broker/client/client_lifecycle.go:24-129 | whatever packets, read errors, server closes and runner writes an object meets, what it put on the wire is an orderly conversation and its history a run of the state machine |
| `LifecycleRunner.ChannelsAreSafe` | internal/app/lifecycle/runner.go:219-300 | under every interleaving no send hits a closed channel, the error channel is closed at most once and is never full |
| `LifecycleRunner.ReadyNeverBlocks` | internal/app/lifecycle/runner.go:93-116 | a critical component sends its readiness once and finds room in the channel |
| `LifecycleRunner.EveryoneReports` | internal/app/lifecycle/runner.go:93-170 | when all goroutines are gone exactly the critical components have reported readiness |
| `LifecycleRunner.LateSpawnsStayQuiet` | internal/app/lifecycle/runner.go:55-58 | goroutines spawned after Close has waited see the cancelled context and never report |
| `LifecycleRunner.UnexpectedExitIsReported` | internal/app/lifecycle/runner.go:219-247 | an unexpected exit while the context lives and the runner is started puts exactly one report into the channel |
| `ListenerQueue.HandledInOrder` | pkg/eventbus/event.go:58-76 | under every interleaving the handler sees an in-order selection of the accepted payloads, each at most once |
| `ListenerQueue.NothingVanishes` | pkg/eventbus/event.go:58-155 | accepted payloads are handled, dropped or queued; the queue holds the newest and never exceeds its capacity |
| `ListenerQueue.NewestIsKept` | pkg/eventbus/event.go:108-155 | the branches that would lose the newest payload are never taken |
| `ListenerQueue.StopIsFinal` | pkg/eventbus/event.go:78-106 | after stop the queue stays empty and nothing more is accepted |
| `ListenerQueue.EnqueuedIsAccepted` | pkg/eventbus/event.go:108-155 | when enqueue gives the lock back its payload was accepted, however full the queue was, unless the listener was stopped |
| `ListenerQueue.DroppedOnlyIfFull` | pkg/eventbus/event.go:108-155 | payloads are dropped oldest first, only to make room in a queue found full or after stop |
| `RateLimiter.Limiter.Allow` | internal/broker/client/incoming_rate_limiter.go:29-45 | answers as the counter over the whole history of calls prescribes |
| `RateLimiter.TwiceTheLimit` | internal/broker/client/incoming_rate_limiter.go:29-45 | for nondecreasing call times an interval of window length admits at most twice the limit, exactly when it does not contain the zero instant |
| `RateLimiter.WindowAdmitsLimit` | internal/broker/client/incoming_rate_limiter.go:36-44 | the calls admitted since the window opened number at most the limit and lie within its length |
| `RateLimiter.RefusedOnlyWhenFull` | internal/broker/client/incoming_rate_limiter.go:29-45 | a call is refused only when the limit was reached within one window length |
| `WillTiming.HandleWill` | internal/broker/client/client_lifecycle.go:479-515 | every combination of delay, expiry and delay center starts publications due only at the earlier of delay and expiry |
| `WillTiming.ScheduleCleanup` | internal/broker/client/client_lifecycle.go:428-477 | local cleanup runs at session expiry, later by the grace period when the center publishes then, and never for a session without expiry |
| `WillTiming.CloseSession` | internal/broker/client/client_lifecycle.go:428-688 | an owed will gets exactly one publication at the due time, two exactly when the center stored its task and reported an error; cleanup never precedes it |
| `Acknowledgements.KeepAccepted` | internal/broker/client/client_handler_subscribe.go:175-197 | item i of the request becomes the item of rank i in what the backend is asked |
| `Acknowledgements.RankIncreases` | internal/broker/client/client_handler_subscribe.go:272-302 | no two accepted items share an answer, and answers keep the order of the items |
| `Acknowledgements.BuildSubAck` | internal/broker/client/client_handler_subscribe.go:272-314 | one reason per item in order: the rejection, the capped answer at the item's rank, or an unspecified error when the backend said too little; the subscriptions that succeeded with their QoS |
| `Acknowledgements.Subscribe` | internal/broker/client/client_handler_subscribe.go:25-58 | from checks to SUBACK every item is answered in its place: 0x8F if malformed, 0x80 if refused or not answered, else the QoS granted to that very item, capped |
| `Acknowledgements.BuildUnsubAck` | internal/broker/client/client_handler_subscribe.go:757-786 | one reason per topic in order, and the set of topics reported as gone is exactly those with reason success |
| `Acknowledgements.Unsubscribe` | internal/broker/client/client_handler_subscribe.go:678-704 | from checks to UNSUBACK every topic is answered in its place: 0x8F if malformed, 0x80 on an error or without answer, else the backend's code |
| `ContainerHeap.PriorityHeap.Add` | pkg/indexedheap/queue.go:74-91 | adds exactly one entry and keeps heap order |
| `ContainerHeap.PriorityHeap.Delete` | pkg/indexedheap/queue.go:93-104 | deletes exactly one entry and keeps heap order |
| `OutgoingInflight.Store.Get` | internal/broker/client/outgoing_inflight.go:80-88 | looks up one identifier |
| `OutgoingInflight.Store.UpdateStage` | internal/broker/client/outgoing_inflight.go:90-99 | changes the stage of exactly one entry |
| `OutgoingInflight.Store.ClearTokenHeld` | internal/broker/client/outgoing_inflight.go:131-140 | clears the token mark of exactly one entry |
| `OutgoingInflight.Store.Delete` | internal/broker/client/outgoing_inflight.go:142-153 | removes exactly one entry and says whether it was there |
| `DownlinkClient.Bucket.TryGetToken` | internal/broker/client/rate/bucket.go:54-68 | takes a token exactly when one is left |
| `DownlinkClient.Client.AdvanceCursors` | internal/broker/client/client_handler_qos_flow.go:79-113 | every popped queue task gets into the log, as many cursors as tasks, none for retained ones |

## Left out

- The wire codec, topic aliases, shared subscriptions, retained-message selection, cluster state, HTTP and gRPC services: they would mostly add easy members or are separate components.
- The active scheduler and retry strategies: the periodic callback around the modelled heap.
- Owner takeover while an old connection still handles a packet: writes of a stale owner are ignored by the session store, and the models assume the current owner.
- DownlinkClient.Client: each runner action and each handler is one atomic step; interleavings inside a step of the runner, which does not hold the client lock, are not modelled.
- DownlinkClient.Client.WriteRetained: the wait for a token, during which the chosen identifier is not yet in the store, is not a step of its own. That tokens are conserved is proved for the time the connection is open: afterwards a token that was never taken can be returned.
- DownlinkOrder.CursorsAdvance: covers runs after the restore of old messages, from any aligned state; the state the restore leaves is the subject of Recovery.AlignmentExact.
- Recovery.StoredCursorRereadsAll: assumes only acknowledgements moved the stored cursor; QoS 0 and dropped tasks move it too, and then the claim does not hold.
- Recovery.RestoreRoundTrip: the encoding of the saved publish packet is taken to decode to what was saved.
- IndexedQueue.Queue.Upsert: the insertion counter is unbounded; wrap-around of the 64-bit counter is not modelled.
- PassiveScheduler.Scheduler.Add: a task's key and expiry are fixed while it is scheduled.
- CrashReplay.ReplayIsBounded: that the counter stays near its configured threshold depends on scheduling and is not claimed; the save at a graceful close and messages restored from an earlier connection are not among the steps; a write that reports an error is taken not to be acknowledged.
- CrashReplay.UnackedQoS2Kept: for a task sent before the first copy it is an implication only; whether a listed message is found again is the subject of Recovery.QoS2LostExact.
- Recovery.ReplayCoverageExact: is about positions and takes the tasks to be still in the queue. The Badger store deletes every task up to the cursor it stores, unacknowledged ones included (`pkg/storage/delivery/metadata/badgerstore/state_machine_update.go:94`), the Scylla store keeps them; Recovery.TrimmedCoverageExact and CrashReplay cover both.
- InboundReceiver.Receiver.HandlePublish: the wait for plugins, the subscriber lookup and the socket are parameters; time stamps of first receipt, which only serve monitoring, are not kept.
- LifecycleRunner.ChannelsAreSafe: the run-time check of the wait group against adding while waiting is not modelled.
- ListenerQueue.NothingVanishes: the aggregate queue depth gauge is not modelled.
- AclPolicy.Manager.Reload: operations run one after another; a reload that overlaps a write, or a write by another node, can leave the cache behind the store.
- AclPolicy.Manager.PutRuleset: the YAML text of the ruleset is taken to decode to the ruleset.
- WillTiming.CloseSession: a scheduled publication is taken to happen when due; that it is skipped when the client came back is not modelled.
- RateLimiter.Limiter.Allow: a limiter without a positive limit, which admits everything, is not modelled.
