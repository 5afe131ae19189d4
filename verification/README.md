# Rifts, verified

Rifts is a publish/subscribe broker. This project models the parts of it that
carry its guarantees and proves what they promise over every run, every
interleaving and every input.

- A **publish** is validated, deduplicated within a time window, given the next
  offset of its topic, appended to the topic's log under a retention policy, and
  fanned out to the topic's subscribers. `Broker.dfy` is the broker,
  `BrokerRuns.dfy`, `BrokerAnswers.dfy` and `Refusals.dfy` are about its runs.
- **Subscriptions** live in three redundant indexes (`Fanout.dfy`). A
  compare-and-swap counter per topic limits them (`Slots.dfy`).
- The **stores** for offsets, logs and dedupe records come in a memory and a sled
  version (`OffsetStore.dfy`, `LogStore.dfy`, `DedupeStore.dfy`,
  `DedupeRace.dfy`). Sled is an ordered map over byte keys (`SledTree.dfy`,
  `Keys.dfy`). `SledBroker.dfy` puts the three together: the broker on sled is
  the broker on memory, through any number of restarts.
- **Retention** evicts on every append (`Retention.dfy`).
- A **resuming** client is classified by its offsets and gets what it missed
  replayed from the log (`Resume.dfy`).
- Each connection has a bounded **outbound queue**, drained by a writer task
  (`OutboundQueue.dfy`); `Backpressure.dfy` is the standalone controller.
- `FrameCodec.dfy` is the binary wire format, `AckLedger.dfy` the tracking of
  outstanding acknowledgements. `Sequences.dfy`, `Bytes.dfy` and `Tally.dfy` are
  shared helpers.

Objects that the source updates in place are classes whose methods are proved
against pure step functions. The theorems about runs are stated over those
functions. Code that races (compare-and-swap loops, channels, the writer task) is
a state machine whose steps are the atomic accesses, and the theorems hold for
every interleaving of any number of participants.

Clocks are parameters: every operation takes the readings that it would have made.
Topic names and message ids are their UTF-8 bytes. Offsets, slot counters and the
in-flight byte counter wrap, as in a release build; clock differences and expiries
are taken not to overflow 64 bits.

Where the code and its own comments disagree, the model follows the code:

- `LogEntry::appended_at` is said to be stamped by the log store; no store stamps it
  (rifts-broker/src/broker/memory_broker.rs:330-332).
- `dec_subscriber` and `dec_publisher` are documented as saturating; they wrap
  (rifts-core/src/topic/store.rs:219-232).
- The writer task says that nobody can touch the byte counter when it zeroes it;
  a sink that has reserved still can (rifts-broker/src/connection/writer.rs:67-71),
  see `OutboundQueue.RollbackAfterExitUnderflows`.
- `decide` documents that a missing topic goes before a client that is ahead; the
  loop answers for whichever comes up first
  (rifts-session/src/session/offset_tracker.rs:154-161), see
  `Resume.OrderMattersExactlyWhen`.
- The backpressure controller records a pause only on a refusal, not when the queue
  rises to the high-water mark (rifts-core/src/flow/backpressure.rs:109-110).

## Model

| member | source | states |
|---|---|---|
| `BrokerRuns.OffsetsCountPublishes` | rifts-broker/src/broker/memory_broker.rs:285-358 | over every run, the publishes accepted on a topic, duplicates included, have offsets 1, 2, 3, ... and the head offset is their number |
| `BrokerRuns.LogFollowsHistory` | rifts-broker/src/broker/memory_broker.rs:313-340 | over every run, a topic's log is its publish history put through append-by-append eviction; calls on other topics do not touch it |
| `BrokerRuns.LogMeetsPolicy` | rifts-broker/src/broker/memory_broker.rs:336-340 | over every run, a topic's log is what its retention policy keeps of everything ever accepted on it |
| `BrokerRuns.LogAscends` | rifts-broker/src/broker/memory_broker.rs:310-340 | over every run, offsets strictly increase along a log and do not exceed the head |
| `BrokerRuns.FanoutsAreSpaced` | rifts-broker/src/broker/memory_broker.rs:303-311 | two fan-outs of one message id on one topic are at least the dedupe window apart, as long as no sweep reads a clock later than the publishes after it |
| `BrokerRuns.DuplicateExactlyWhen` | rifts-broker/src/broker/memory_broker.rs:303-311 | an accepted publish is flagged a duplicate if and only if the same message was fanned out on the same topic less than the window before |
| `BrokerRuns.LiveStreamIsHistory` | rifts-broker/src/broker/memory_broker.rs:351-355 | a sink with one subscription decodes from its frames exactly the offsets and payloads accepted on its topic since then, duplicates left out, in order |
| `BrokerRuns.LiveOffsetsIncrease` | rifts-broker/src/broker/memory_broker.rs:310-355 | the offsets that such a sink sees strictly increase |
| `BrokerRuns.LiveStreamAgreesWithLog` | rifts-broker/src/broker/memory_broker.rs:285-358 | under Durable the log grew since the subscription by exactly the records that the stream is drawn from |
| `BrokerRuns.SubscribingListens` | rifts-broker/src/broker/memory_broker.rs:360-379 | a first accepted subscription of a sink establishes the hypothesis of the stream theorems |
| `Refusals.RefusedPublishIsInvisible` | rifts-broker/src/broker/memory_broker.rs:285-301 | taking a refused publish out of a run changes no later outcome, and no offset, log, dedupe record or subscription at the end |
| `Refusals.AcceptedExactlyWhen` | rifts-broker/src/broker/memory_broker.rs:246-301 | what a publish answers: the reason of the first check it fails, in the source's order, or acceptance |
| `BrokerAnswers.PublishAcceptedExactlyWhen` | rifts-broker/src/broker/memory_broker.rs:246-301 | over every run, a publish is accepted if and only if it has topic and message id, fits, has not outlived its ttl, has a valid name, and accepted publishes less returned slots are below the limit |
| `BrokerAnswers.HistoryTellsCalls` | rifts-broker/src/broker/memory_broker.rs:313-340 | over every run, a topic's history has one record per accepted publish, in order, with that frame's session, id, event, payload and timestamp and the append's clock |
| `BrokerAnswers.PublishersCounted` | rifts-core/src/topic/store.rs:230-278 | over every run, a topic has an entry if and only if a call reached it since the last restart, and its publisher count is accepted publishes less returned slots, modulo 2^64 |
| `BrokerAnswers.SubscribersCounted` | rifts-core/src/topic/store.rs:220-257 | over every run of the broker, a topic's subscriber count is the number of its live subscriptions and within the limit |
| `BrokerAnswers.SubscribeRefusedExactlyWhen` | rifts-broker/src/broker/memory_broker.rs:360-379 | over every run, a subscribe with a valid name is refused if and only if the limit of live subscriptions is reached; otherwise it adds itself alone under a new id |
| `BrokerAnswers.UnsubscribeAnswers` | rifts-broker/src/broker/memory_broker.rs:381-398 | reports whether the id was live and takes exactly that subscription away |
| `BrokerAnswers.DropAnswers` | rifts-broker/src/broker/memory_broker.rs:400-409 | reports how many subscriptions the sink had and takes exactly those away |
| `BrokerAnswers.MaintainAnswers` | rifts-broker/src/broker/memory_broker.rs:442-444 | reports how many dedupe records it removed: exactly those whose time had come |
| `BrokerAnswers.IdsStayUnique` | rifts-broker/src/broker/fanout.rs:243-243 | over every run, live subscriptions have unique ids in increasing order |
| `Broker.InMemoryBroker.Publish` | rifts-broker/src/broker/memory_broker.rs:285-358 | the object's new state, outcome and deliveries are those of the publish step |
| `Broker.InMemoryBroker.Record` | rifts-broker/src/broker/memory_broker.rs:303-357 | dedupe, allocation, append and fan-out compose to one step over the three stores and the fanout engine |
| `Broker.InMemoryBroker.Subscribe` | rifts-broker/src/broker/memory_broker.rs:360-379 | slot check and registration are the subscribe step, refusals included |
| `Broker.InMemoryBroker.Unsubscribe` | rifts-broker/src/broker/memory_broker.rs:381-398 | removes the subscription and releases one slot of its topic, or reports that there was none |
| `Broker.InMemoryBroker.DropSink` | rifts-broker/src/broker/memory_broker.rs:400-409 | removes exactly the sink's subscriptions and releases one slot per removal |
| `Broker.InMemoryBroker.DecPublisher` | rifts-broker/src/broker/memory_broker.rs:436-440 | lowers the publisher count of an existing topic, wrapping below zero |
| `Broker.InMemoryBroker.Maintain` | rifts-broker/src/broker/memory_broker.rs:442-444 | sweeps the dedupe store and changes nothing else |
| `Broker.InMemoryBroker.Replay` | rifts-broker/src/broker/memory_broker.rs:411-422 | the payloads of the log entries between two offsets, inclusive, in log order |
| `Broker.InMemoryBroker.HeadOffset` | rifts-broker/src/broker/memory_broker.rs:432-434 | the head of the topic's counter |
| `SledBroker.SledBrokerIsDefaultBroker` | rifts-broker/src/broker/memory_broker.rs:131-136 | over every run, restarts included and for every retention, the broker on sled stores returns exactly the outcomes of the broker on memory stores, and its stores hold the same, but for byte budgets |
| `SledBroker.SledQueriesMatch` | rifts-broker/src/broker/memory_broker.rs:411-434 | heads and logs that are queried in between are those of memory under the policy that sled enforces |
| `SledBroker.SledLogAgreesExactlyWhen` | rifts-storage/src/log.rs:147-200 | a topic's log on sled is its log on memory if and only if no byte budget was exceeded by all that was ever accepted on it |
| `SledBroker.RetentionIsInvisible` | rifts-broker/src/broker/memory_broker.rs:285-358 | brokers that differ in retention alone differ in their logs alone, never in an outcome |
| `SledBroker.LogsStayTidy` | rifts-broker/src/broker/memory_broker.rs:313-340 | the broker always meets what the sled log store needs of its caller: increasing offsets, no append stamps |
| `Fanout.FanoutEngine.constructor` | rifts-broker/src/broker/fanout.rs:210-217 | the three indexes start as the indexes of no subscription |
| `Fanout.FanoutEngine.Subscribe` | rifts-broker/src/broker/fanout.rs:237-253 | adds one subscription with a new, larger id; the three indexes still describe one list |
| `Fanout.FanoutEngine.Unsubscribe` | rifts-broker/src/broker/fanout.rs:263-289 | removes exactly that subscription from all three indexes, drops empty lists and returns its topic |
| `Fanout.FanoutEngine.DropSink` | rifts-broker/src/broker/fanout.rs:303-320 | removes exactly the sink's subscriptions and returns their topics with multiplicity, in order |
| `Fanout.FanoutEngine.Deliver` | rifts-broker/src/broker/fanout.rs:328-343 | reaches exactly the topic's subscriptions, in subscription order, and counts the accepted deliveries |
| `Fanout.FanoutEngine.SubscriptionCount` | rifts-broker/src/broker/fanout.rs:352-354 | the number of live subscriptions |
| `Fanout.FanoutEngine.TopicSubscriberCount` | rifts-broker/src/broker/fanout.rs:361-363 | the number of live subscriptions of one topic |
| `Fanout.IdsIncrease` | rifts-broker/src/broker/fanout.rs:243-243 | ids are unique and increase in subscription order |
| `Fanout.TopicIndexIs` | rifts-broker/src/broker/fanout.rs:245-248 | the topic index lists exactly the topics with subscriptions, each with its subscriptions in order and never an empty list |
| `Fanout.SinkIndexIs` | rifts-broker/src/broker/fanout.rs:250-250 | the same for the sink index |
| `Slots.SlotsAreConserved` | rifts-core/src/topic/store.rs:220-257 | in every interleaving of broker calls a topic's subscriber count is its registered subscriptions plus slots reserved or not yet released, and is within the limit |
| `Slots.ReleaseNeverUnderflows` | rifts-broker/src/broker/memory_broker.rs:381-409 | no decrement of a subscriber count meets zero or a missing topic |
| `Slots.QuietCountIsExact` | rifts-broker/src/broker/memory_broker.rs:360-409 | when no call is in progress the count is the number of live subscriptions |
| `Slots.RefusedOnlyWhenFull` | rifts-core/src/topic/store.rs:240-257 | in every interleaving, a subscribe is refused only if live subscriptions and calls in progress held every slot when it last read the count |
| `Slots.UndisturbedSubscribe` | rifts-broker/src/broker/memory_broker.rs:360-379 | undisturbed, a subscribe is refused if and only if no slot is left; else it takes one and registers itself |
| `Slots.UndisturbedUnsubscribe` | rifts-broker/src/broker/memory_broker.rs:381-398 | undisturbed, an unsubscribe removes its subscription and gives its slot back |
| `Slots.UndisturbedDrop` | rifts-broker/src/broker/fanout.rs:303-320 | undisturbed, a drop removes exactly the sink's subscriptions and owes one release for each |
| `OutboundQueue.ConservedUntilExit` | rifts-broker/src/broker/fanout/conn_sink.rs:50-101 | until the writer's final store, in every interleaving of sinks and writer, the in-flight counter equals queued plus reserved plus being-written bytes if and only if no reply with a payload went into the channel past the sinks |
| `OutboundQueue.ConservedWhileZeroed` | rifts-broker/src/connection/writer.rs:67-72 | between the final store and the drop of the channel it does if and only if nothing was queued or reserved at the store and no reply with a payload came in since |
| `OutboundQueue.ConservedAfterDrop` | rifts-broker/src/connection/writer.rs:67-72 | after the drop it does if and only if the bytes reserved and unsent at the store equal the bytes that sinks sent between store and drop |
| `OutboundQueue.RefusedOnlyWhenFull` | rifts-broker/src/broker/fanout/conn_sink.rs:55-63 | until exit, and with every payload through the sinks, a delivery is refused only if its bytes and those pending when it last read the counter exceed the limit |
| `OutboundQueue.UndisturbedDelivery` | rifts-broker/src/broker/fanout/conn_sink.rs:50-101 | undisturbed, a delivery is refused if and only if it does not fit, and then changes nothing; else it puts exactly its bytes last into an open channel with room, or rolls everything back |
| `OutboundQueue.UndisturbedWrite` | rifts-broker/src/connection/writer.rs:28-66 | undisturbed, the writer takes the oldest frame and gives back its bytes, whether the write succeeds or fails, but not on a timeout |
| `OutboundQueue.WriterTakesInOrder` | rifts-broker/src/connection/writer.rs:28-29 | in every interleaving, what the writer took followed by what is queued is what entered the channel, in order |
| `OutboundQueue.BoundedWithoutUnderflow` | rifts-broker/src/connection/writer.rs:28-66 | while the counter is exact it is within the limit and the next rollback or release does not underflow |
| `OutboundQueue.LedgerHolds` | rifts-broker/src/connection/control.rs:179-221 | in every case the counter is the pending bytes less the drift, modulo 2^64, and the true total never exceeds the limit |
| `OutboundQueue.UnreservedReplyUnderflows` | rifts-broker/src/connection/control.rs:110-118 | witness: an unreserved reply alone takes the counter below zero |
| `OutboundQueue.RollbackAfterExitUnderflows` | rifts-broker/src/connection/writer.rs:67-71 | witness: a rollback after the writer's final store takes the counter below zero |
| `Backpressure.BytesAreConserved` | rifts-core/src/flow/backpressure.rs:204-276 | in every interleaving the queue is within capacity, and equals accepted less released bytes if and only if at no time releases had asked for more than had been accepted |
| `Backpressure.OverReleaseDrifts` | rifts-core/src/flow/backpressure.rs:256-276 | witness: a release ahead of its enqueue leaves the queue at 5 bytes with 5 accepted and 5 released |
| `Backpressure.RefusedOnlyWhenFull` | rifts-core/src/flow/backpressure.rs:205-220 | an enqueue is refused only if its bytes did not fit on top of the queue that it last saw |
| `Backpressure.UndisturbedEnqueue` | rifts-core/src/flow/backpressure.rs:204-220 | undisturbed, an enqueue is accepted if and only if it fits, and then the queue has grown by its bytes |
| `Backpressure.UndisturbedRelease` | rifts-core/src/flow/backpressure.rs:256-276 | undisturbed, a release takes its bytes off, down to zero, and counts a resume if and only if the queue fell below 90 percent |
| `Backpressure.ResumesMatchRises` | rifts-core/src/flow/backpressure.rs:181-282 | at quiescence, rises to the high-water mark less resume events is 1 if overloaded and 0 otherwise |
| `Backpressure.RefusalsAreCounted` | rifts-core/src/flow/backpressure.rs:221-246 | at quiescence the applied counter is the number of refusals, and each strategy's counter is the number of refusals that found that strategy in force |
| `Retention.OnlineIsOffline` | rifts-storage/src/log.rs:63-95 | evicting on every append equals the policy applied once to the full history: last n, longest suffix in budget, unexpired entries (monotone clock), trailing entries of the last offset, everything, nothing |
| `Retention.LatestKeepsOne` | rifts-storage/src/log.rs:90-92 | under Latest the log is the newest entry alone if and only if it did not reuse the offset before it |
| `Retention.TtlKeepsExactly` | rifts-storage/src/log.rs:86-89 | under Ttl an entry is in the log if and only if the last append found it no older than the ttl |
| `Retention.TopicLogMeetsPolicy` | rifts-core/src/topic/store.rs:298-357 | a topic entry's log is what its policy keeps of the stamped history, the last 10 000 for Durable |
| `Retention.WithinBudget` | rifts-storage/src/log.rs:75-85 | a suffix within the budget, and no longer suffix fits |
| `Retention.OverBudget` | rifts-core/src/topic/store.rs:320-330 | the loop drops exactly the entries that the budget evicts |
| `Retention.Enforce` | rifts-storage/src/log.rs:67-94 | the in-place eviction is the eviction function, for each policy |
| `Retention.TopicEntry.Append` | rifts-core/src/topic/store.rs:298-357 | stamps, appends, evicts and takes the snapshot; the log stays the evicted history of all appends, with a window of 10 000 for Durable |
| `Retention.TopicTtlIsRecent` | rifts-core/src/topic/store.rs:331-338 | a topic entry under Ttl keeps exactly the suffix it was handed within the ttl, whatever timestamps the publishers wrote |
| `LogStore.SledRefinesMemory` | rifts-storage/src/log.rs:147-229 | over every disciplined run of append, range, latest and remove, with any mix of topics and policies, both log stores give the same answers |
| `LogStore.AppendAgreesExactlyWhen` | rifts-storage/src/log.rs:147-199 | after one append the stores agree if and only if Size was within budget, or the two clocks date every entry alike for Ttl |
| `LogStore.SizeStoresDiffer` | rifts-storage/src/log.rs:198-198 | witness: under Size(0) the sled store keeps a one-byte message that the memory store drops |
| `LogStore.TtlStoresDiffer` | rifts-storage/src/log.rs:169-183 | witness: under Ttl an old message with a fresh broker stamp is kept by the sled store alone |
| `LogStore.WriteAppends` | rifts-storage/src/log.rs:148-157 | writing a topic's next offset appends to its scan and leaves the scans of other topics alone |
| `LogStore.MemoryLogStore.Append` | rifts-storage/src/log.rs:63-95 | appends to one topic's log and evicts from it |
| `LogStore.MemoryLogStore.Range` | rifts-storage/src/log.rs:97-108 | the entries with offsets between the bounds, inclusive, in log order |
| `LogStore.MemoryLogStore.Newest` | rifts-storage/src/log.rs:110-114 | the last entry |
| `LogStore.SledLogStore.Append` | rifts-storage/src/log.rs:147-200 | puts the entry under its key and deletes what the policy evicts from the topic's scan |
| `LogStore.SledLogStore.DeleteAll` | rifts-storage/src/log.rs:164-166 | deleting the keys of a scan one by one deletes exactly those |
| `LogStore.SledLogStore.Range` | rifts-storage/src/log.rs:202-209 | the scanned entries with offsets between the bounds, inclusive, in key order |
| `LogStore.SledLogStore.Newest` | rifts-storage/src/log.rs:211-222 | an entry with the greatest offset, the last of equals, or none if there is none |
| `LogStore.SledLogStore.Remove` | rifts-storage/src/log.rs:224-229 | deletes every key of the topic's scan |
| `LogStore.RemovedTopicIsEmpty` | rifts-storage/src/log.rs:116-118 | over every disciplined run, removing a topic empties its log in both stores and leaves the others alone |
| `Keys.RangeSelectsTopicAndOffsets` | rifts-storage/src/encode.rs:129-150 | a log key lies between the range bounds if and only if it is the topic's and its offset is between from and to, inclusive |
| `Keys.LogKeyOrder` | rifts-storage/src/encode.rs:95-101 | within a topic, byte order of keys is offset order |
| `Keys.PaddedOffsetOrder` | rifts-storage/src/encode.rs:99-99 | byte order of padded offsets is numeric order, except that negative offsets sort in reverse |
| `Keys.LogKeyInjective` | rifts-storage/src/encode.rs:95-101 | different topics or offsets have different log keys |
| `Keys.LogPrefixIsolates` | rifts-storage/src/encode.rs:95-117 | a topic's scan prefix matches a log key if and only if the key is that topic's |
| `Keys.DedupeKeyInjective` | rifts-storage/src/encode.rs:164-171 | different topics or message ids, of any bytes, have different dedupe keys |
| `Keys.DedupePrefixIsolates` | rifts-storage/src/encode.rs:164-189 | the same isolation for dedupe keys |
| `Keys.OffsetKeyInjective` | rifts-storage/src/encode.rs:53-59 | offset keys are injective for every topic |
| `Keys.ValidateName` | rifts-core/src/topic/store.rs:55-84 | an accepted topic name has 1 to 256 bytes and no NUL, which the key encoding relies on |
| `Keys.NameOkExactlyWhen` | rifts-core/src/topic/store.rs:55-84 | a name is accepted if and only if it has 1 to 256 bytes, no leading dollar and no control character; otherwise the first broken rule is named |
| `DedupeStore.SweepsAreInvisible` | rifts-storage/src/dedupe.rs:51-86 | as long as no sweep reads a clock later than a check after it, taking every sweep out of a run changes no answer |
| `DedupeStore.SledRefinesMemory` | rifts-storage/src/dedupe.rs:115-174 | over every run of checks and sweeps both dedupe stores give the same answers and counts |
| `DedupeStore.MemoryDedupeStore.CheckAndRecord` | rifts-storage/src/dedupe.rs:51-69 | fresh if unrecorded or expired, and then recorded for the window; otherwise unchanged |
| `DedupeStore.MemoryDedupeStore.Sweep` | rifts-storage/src/dedupe.rs:71-86 | removes and counts exactly the expired records |
| `DedupeStore.SledDedupeStore.CheckAndRecord` | rifts-storage/src/dedupe.rs:115-142 | one undisturbed pass of the compare-and-swap loop |
| `DedupeStore.SledDedupeStore.Sweep` | rifts-storage/src/dedupe.rs:144-174 | topic by topic, in any order, removes and counts each expired entry once |
| `DedupeStore.RecordedSweep` | rifts-storage/src/dedupe.rs:144-174 | the sled sweep forgets and counts the messages that the memory sweep does |
| `DedupeRace.FreshCallsAreSpaced` | rifts-storage/src/dedupe.rs:115-142 | for any number of racing calls on one key, two that return fresh read clocks at least the earlier one's window apart |
| `DedupeRace.LoopIsAtomic` | rifts-storage/src/dedupe.rs:121-141 | each returned call took effect once, and replaying the effects atomically gives every answer and the cell |
| `DedupeRace.UndisturbedCall` | rifts-storage/src/dedupe.rs:115-142 | undisturbed, a call returns after one read and at most one exchange, with the atomic step's answer |
| `OffsetStore.SledRefinesMemory` | rifts-storage/src/offset.rs:89-155 | restarted any number of times, the sled offset store answers as the memory one does |
| `OffsetStore.CacheMatchesTree` | rifts-storage/src/offset.rs:89-134 | at every point the cache is what a restart would load |
| `OffsetStore.RestartRestores` | rifts-storage/src/offset.rs:89-106 | a restart rebuilds exactly the lost cache |
| `OffsetStore.OffsetsAreConsecutive` | rifts-storage/src/offset.rs:49-66 | unless a topic is removed its offsets are 1, 2, 3, ...: none is skipped or issued again |
| `OffsetStore.RemovedTopicStartsOver` | rifts-storage/src/offset.rs:63-65 | a removed topic starts over at 1 and no other topic notices |
| `OffsetStore.SledOffsetStore.constructor` | rifts-storage/src/offset.rs:89-106 | the preload loop reads every head of the tree |
| `OffsetStore.SledOffsetStore.Alloc` | rifts-storage/src/offset.rs:111-134 | the next offset, written through to cache and tree |
| `OffsetStore.MemoryOffsetStore.Alloc` | rifts-storage/src/offset.rs:49-54 | the counter's value, which then grows by one |
| `Resume.OrderMattersExactlyWhen` | rifts-session/src/session/offset_tracker.rs:162-198 | two iteration orders disagree if and only if the client names a missing topic and is ahead on another |
| `Resume.DecidesSixCases` | rifts-session/src/session/offset_tracker.rs:154-198 | otherwise every order gives the quantified six-case decision |
| `Resume.HandshakeDecides` | rifts-broker/src/connection/mod.rs:482-491 | with the heads that the handshake collects, the decision is the six-case one and never a snapshot |
| `Resume.Decide` | rifts-session/src/session/offset_tracker.rs:162-198 | the loop over the hash map answers as some iteration order does, and as the six cases do unless a topic is missing and another ahead |
| `Resume.CollectHeads` | rifts-broker/src/connection/mod.rs:483-486 | a head for every topic that the client names |
| `Resume.Replay` | rifts-broker/src/connection/mod.rs:545-580 | per topic, the frames written are bare data frames with the replay flag, the topic and its replayed payloads in log order |
| `Resume.ReplayIsCompleteExactlyWhen` | rifts-broker/src/connection/mod.rs:551-554 | for every last offset up to the head, negative ones included, the replay of last+1..head is exactly what was accepted after it, no gap and no repeat, if and only if the policy still covers that |
| `Resume.ResumeLosesNothing` | rifts-broker/src/connection/mod.rs:482-580 | short of a rejection every covered topic gets exactly what it missed: at most one message under Replaying, none under FullResume |
| `Resume.Handshake` | rifts-broker/src/connection/mod.rs:482-580 | from the client's offsets to the wire: short of a rejection every covered topic gets data frames with exactly the missed payloads, in order, marked as replayed |
| `Resume.FramesLoseNothing` | rifts-broker/src/connection/mod.rs:545-580 | the same of any frames that carry what is replayed |
| `Resume.ReplaysWhatIsLeft` | rifts-broker/src/connection/mod.rs:545-580 | covered or not, a replayed topic gets everything after its last offset that the log still holds |
| `FrameCodec.DecodeInvertsEncode` | rifts-core/src/frame_codec.rs:65-144 | decoding an encoded frame gives back what the format carries, if and only if the payload is within the limits |
| `FrameCodec.EncodeInvertsDecode` | rifts-core/src/frame_codec.rs:65-144 | re-encoding an accepted buffer reproduces its header and payload bytes |
| `FrameCodec.AcceptsExactlyFrames` | rifts-core/src/frame_codec.rs:92-144 | the decoder accepts exactly the buffers that begin with an encoded frame within the limits |
| `FrameCodec.RejectedExactlyWhen` | rifts-core/src/frame_codec.rs:92-144 | which reason the decoder gives for which buffer |
| `FrameCodec.FanoutRoundTrip` | rifts-broker/src/broker/broker.rs:201-209 | a subscriber reads back the offset and payload of a fanned-out frame |
| `AckLedger.CapsHold` | rifts-core/src/ack/mod.rs:246-260 | over every run, sessions and entries per session stay within their caps |
| `AckLedger.EntryFollowsEvents` | rifts-core/src/ack/mod.rs:246-336 | over every run, an entry is outstanding with the deadline of its latest accepted tracking, exactly until a call reports it gone |
| `AckLedger.EveryTrackingEndsOnce` | rifts-core/src/ack/mod.rs:246-336 | accepted trackings of a message are its overwrites, completions, reaps and forgets, plus one if it is outstanding |
| `AckLedger.ReapedExactlyWhenDue` | rifts-core/src/ack/mod.rs:280-336 | a reap takes an entry if and only if it is outstanding and its latest deadline has passed |
| `AckLedger.CompletedExactlyWhenOutstanding` | rifts-core/src/ack/mod.rs:267-273 | over every run, a completion succeeds if and only if the entry is outstanding; then it is gone and no other entry has changed |
| `AckLedger.TrackedExactlyWhenRoom` | rifts-core/src/ack/mod.rs:246-260 | over every run, a tracking is accepted if and only if there is room for the session and for the entry; then it is outstanding with its deadline and no other entry has changed |
| `AckLedger.ForgottenExactlyWhenOutstanding` | rifts-core/src/ack/mod.rs:302-304 | over every run, forgetting ends every outstanding entry of the session and none of another |
| `AckLedger.KnownSessions` | rifts-core/src/ack/mod.rs:246-336 | which sessions every call leaves known |
| `AckLedger.ReapAllIsUnionOfReaps` | rifts-core/src/ack/mod.rs:312-336 | reaping everything removes and counts exactly what reaping every session does, in any order, and drops empty sessions |
| `AckLedger.AckManager.Track` | rifts-core/src/ack/mod.rs:246-260 | refuses at either cap, else records or overwrites with the saturated deadline |
| `AckLedger.AckManager.Complete` | rifts-core/src/ack/mod.rs:267-273 | removes the entry and says whether it was there |
| `AckLedger.AckManager.ReapTimeouts` | rifts-core/src/ack/mod.rs:280-296 | removes and returns exactly the session's due messages |
| `AckLedger.AckManager.ReapAllTimeouts` | rifts-core/src/ack/mod.rs:312-336 | removes and counts the due messages of all sessions, then the empty sessions |
| `AckLedger.AckManager.Forget` | rifts-core/src/ack/mod.rs:302-304 | drops the session and nothing else |

## Left out

- Redis stores and fanout: their behaviour lives in Redis.
- Transports, framework adapters, the server's accept loop and the client SDK: socket and timer plumbing.
- JSON, CBOR and text-envelope codecs: thin wrappers; log entries are stored as values, so their serialisation is taken to be lossless.
- Session lifecycle and epoch admission in the handshake, and its limit of 1024 offsets per hello: checks before the part modelled here.
- Snapshots: a capture reads the topic entry, which a publish never appends to.
- `OffsetTracker` and its eviction, metrics, authentication, configuration, error tables: bookkeeping with easy members only.
- Publisher slots: a publish takes one per message and a disconnect returns one per topic, so there is no conservation to prove; the limit itself is in the model.
- Failing sled writes and reads: every engine call succeeds. Topic names in the tree are valid UTF-8.
- Shard locks of the fanout engine: each engine operation is one step.
- A publish is one step for the ordering claims; concurrent publishes between allocation and append are not interleaved.
- The handshake's second look at a head, when it replays, sees the head that the decision used.
- Removal of a topic entry, and per-topic changes of the profile, while the broker runs.
- Byte limits, payload lengths and the total of reply payloads on one connection's outbound queue are below 2^63; sums in the backpressure controller do not overflow.
- A restart over the in-memory stores, which lose everything: a `Restart` step keeps their contents, as the reference that the sled broker is measured by.
- Broker.InMemoryBroker.Publish: does not model the snapshot capture between append and fan-out, which changes nothing that a publish reads.
- Broker.InMemoryBroker.Record: the same.
- SledBroker.SledBrokerIsDefaultBroker: dedupe expiries fit the 64 bits that the sled store keeps them in.
- SledBroker.SledQueriesMatch: the same.
- Retention.OnlineIsOffline: `now - timestamp` does not overflow, which a publisher's timestamp near the smallest 64-bit integer could make it do.
- BrokerRuns.OffsetsCountPublishes: counts up to 2^63 - 1 calls, where the 64-bit counter would wrap.
- DedupeStore.SledDedupeStore.CheckAndRecord: one pass without interference, with an expiry that fits 64 bits and no stored value shorter than 8 bytes, on which the loop does not end; the loop under interference is `DedupeRace`.
