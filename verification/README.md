# Market-data router: verified model

This project models the stateful core of an asyncio market-data router and proves what that core is relied on for.
The router keeps one upstream WebSocket per hub and fans its messages out to bounded queues, rebuilds order books from
snapshots and sequenced deltas, walks time-ordered histories backwards page by page, and throttles its requests to the
exchanges. Its coroutines are cooperative: between two suspensions nothing else runs, and no lock body suspends, so the
models take one lock body, together with the code up to the next suspension, as one atomic step.

`dafny verify dfyconfig.toml` checks everything.

| file | component | main result |
|---|---|---|
| `BoundedQueue.dfy` | the drop-oldest subscriber queue, as a history (`Feed`) and as a class | `QueueInvariant` |
| `DeltaBook.dfy` | order books from snapshots and deltas | `ApplyAllUpdates`, `ShownBookIsTrue`, `EveryYieldIsTrue` |
| `PlainBook.dfy` | the same, told from the received frames | `ShownInPlainWords`, `BookInPlainWords`, `YieldsInOrder` |
| `LossyBook.dfy` | the same behind the lossy queue | `TrustedIffNoUnarmedLoss` |
| `BybitMessages.dfy`, `BybitBook.dfy` | Bybit's messages, and its two generators | `StreamOrderbook` (`AsReceived`), `EveryBookThroughTheHubIsTrue`, `TickerIsFirstLevelOfTheBook` |
| `OkxMessages.dfy`, `OkxBook.dfy` | OKX's messages, with quantities in contracts, and its generator | `StreamOrderbook` (`AsReceived`), `EveryBookThroughTheHubIsTrue` |
| `HubProtocol.dfy` | the stream hub as interleaved steps | `StarvedIffLate`, `UpstreamIsTopicsAndLeaks`, `ListedUntilItLeaves` |
| `HubTable.dfy`, `StreamHub.dfy` | its queue table, and the object that takes the steps | the methods of `StreamHub`, each one step |
| `FanOut.dfy` | what every queue of a hub was given, over every sequence of hub calls | `FanIsOneQueuePerSubscriber`, `EveryQueueIsFed` |
| `ManagerProtocol.dfy`, `StreamManager.dfy` | the service's stream manager: steps, and the object | `OneLiveHandlerPerStream`, `ServedExactly`, `LeaversAreNotServed` |
| `AllocatorProtocol.dfy`, `TopicAllocator.dfy` | Hyperliquid's topic-to-hub allocator: steps, and the object | `HubsStayWithinTheCaps`, `CapacityErrorOnlyWhenFull` |
| `TopicBudget.dfy`, `CapOverrun.dfy` | the allocator together with one of its hubs | `ConnectionsStayWithinTwiceTheCap`, `HandshakeDropOverrunsTheCap` |
| `Histories.dfy`, `Pagination.dfy` | what an upstream serves of a history; backward pagination | `PaginateBackwards` |
| `OkxCandles.dfy` | the stitch of recent and history rows | `GetCandles` |
| `BinanceFunding.dfy`, `BinanceCall.dfy` | the windowed funding walk: its laws, and the loop | `GapFreeIffWindowsFit`, `LastIffReachesBack`, `GetFundingRate` |
| `RateBucket.dfy` | OKX's sliding window | `GrantedIffWindowHasRoom`, `NoWindowHoldsMoreThanMax` |
| `KrakenGate.dfy` | Kraken's spacing and backoff gate | `PlayIsLegal`, `BackoffsAreHonoured` |
| `SyncStream.dfy`, `LoopBuffer.dfy` | the buffer between the event-loop thread and a synchronous reader | `LostIffDrained`, `EverythingOfferedIsPlaced`, `EveryItemIsAccountedFor` |
| `RefreshCache.dfy` | the stale-on-error caches | `FetchesWhenDueAndServesTheLatest` |
| `FundingAccrual.dfy` | the funding integral | `PaidIsSettledAndAccrued`, `AccruesWhileHeld`, `HoldingSplits` |
| `DecimalSteps.dfy` | the decimal-step arithmetic | `CountIsLeast`, `StepNeedsNoMorePlaces` |
| `Basics.dfy`, `Wrappers.dfy` | minima, maxima, lists without repeats; the optional value | |

The protocol modules hold the state machines and the proofs over every run; the class modules beside them hold the
objects with the router's own fields, each method proved to take exactly one step of its machine (the ghost field
`view`). Loops of the router are loops here, proved against specification functions whose properties are the lemmas.

## What turned out not to hold

Each of these has a lemma with a concrete run or input, or an exact condition, next to what does hold.

- A connected hub can leave a topic with queues unsubscribed: when an opener's 30 s wait ends between the snapshot and
  the connected event (`TimedOutSubscriberStarves`). Whoever joins that topic later returns at once, without any time
  limit, and starves with it (`JoinedSubscriberStarves`). `StarvedIffLate` is the exact condition: the topic was opened
  since the snapshot, its opener has not taken its send step, and its subscription did not leak. That opener is about
  to send, or timed out on this connection (`StarvedOnlyByTimeout`); the next connection heals it
  (`ReconnectServesEveryone`).
- A topic dropped between the snapshot and the connected event goes on being sent (`HandshakeDropLeaks`);
  `LeaksExactlyHandshakeDrops` shows that nothing else leaks.
- Hyperliquid's cap of nine hundred subscriptions per connection does not hold of the connection: a topic that leaks
  in this way gives its place in the slot away while it stays subscribed (`HandshakeDropOverrunsTheCap`: a run that
  ends with 901). A healthy connection carries exactly the topics with queues that are not late and those that leaked
  (`UpstreamIsTopicsAndLeaks`), and never more than 1800 (`ConnectionsStayWithinTwiceTheCap`).
- A missing number disarms the gap check, and a wrong book is shown: the delta's own link
  (`UnnumberedDeltaDefeatsTheGapCheck`) as well as the number of the frame read before it, for example the snapshot's
  (`UnnumberedSnapshotDefeatsTheGapCheck`). `TrustedIffNoUnarmedLoss` says exactly which books can be trusted: a book
  that is shown is the exchange's, whatever the frames carry, if and only if since the last snapshot that was read
  nothing that matters was dropped in front of a delta that names no predecessor or follows a frame without a number.
  The next snapshot read heals it. Whether the stream goes on past such a delta is `DropBeforeDeltaEndsTheStream`.
- The synchronous buffer can lose the generator's error at any capacity, not only at capacity one: between the full
  queue that `offer` meets and its eviction the reader may drain everything in front of the error, which is then what
  gets evicted, and the reader sees an ordinary end of stream (`SomeRunLosesTheError`). `LostIffDrained` gives the exact
  schedule: the offer of the sentinel meets a full queue with the error last on it, and before its eviction the reader
  takes exactly the `capacity - 1` items in front of the error. `UndisturbedOffersKeepTheError` shows that with room
  for two nothing else loses it.
- Splitting a funding period at a settlement charges that settlement twice: both endpoints count (`HoldingSplits` says
  by exactly how much).
- Binance's funding walk raises on an empty first page (`GetFundingRate`: exactly when there is no settlement), and
  its rows can have a gap (`BunchedHistoryLeavesAGap`). They are a contiguous end of the history if and only if every
  window the walk requested held at most a thousand settlements (`GapFreeIffWindowsFit`), and exactly the last `limit`
  if and only if, besides, none of them was empty and the ten pages were enough (`LastIffReachesBack`): after an outage
  longer than a thousand times the cadence older settlements are not looked for.
- Pagination with a page of `l` reaches only `100 * l - 99` records back even when no request fails (`NoFailureReachesTheCap`).

## Model

Source paths are relative to the repository's root.

| member | source | states |
|---|---|---|
| BoundedQueue.OfferKeepsSound | exchange_router/exchanges/base.py:427-438 | an offered message is the newest in the buffer, the buffer stays a contiguous suffix of what was routed and within `queue_size`, and the oldest message is dropped for it exactly when `queue_size` messages wait |
| BoundedQueue.TakeKeepsSound | exchange_router/exchanges/hyperliquid/adapter.py:508-510 | a consumer reads the oldest buffered message, after everything it read before |
| BoundedQueue.QueueInvariant | exchange_router/exchanges/base.py:426-438 | over every interleaving of pushes and reads the buffer is a contiguous suffix of the routed messages, within the bound, and reads are an in-order selection of the rest, each message at most once; besides the reads exactly one message left for every one that met `queue_size` waiting, none on an unbounded queue |
| BoundedQueue.DropOldestQueue.Push | exchange_router/exchanges/base.py:427-438 | put, and on a full queue get the oldest and put again, is exactly one `Offer`, and the new message is last |
| BoundedQueue.DropOldestQueue.Pop | exchange_router/exchanges/hyperliquid/adapter.py:508-510 | a read extends what was read by the message it returns |
| DeltaBook.RankedIsTop | exchange_router/exchanges/bybit/adapter.py:1165-1166 | the ranking lists every level of a side once, best price first, with its quantity |
| DeltaBook.TopIsTop | exchange_router/exchanges/bybit/adapter.py:1165-1166 | sort and truncate gives the `depth` best levels: strictly ordered prices, right quantities, everything left out is worse |
| DeltaBook.TopIsUnique | exchange_router/exchanges/bybit/adapter.py:1165-1166 | that description fits no other list |
| DeltaBook.AfterIsFaithful | exchange_router/exchanges/bybit/adapter.py:1138-1163 | after any genuine frames, in any order, with losses and repeats, a bootstrapped book is the exchange's book at the last accepted number, holds no zero level, and a snapshot was received |
| DeltaBook.ShownBookIsTrue | exchange_router/exchanges/bybit/adapter.py:1138-1179 | whenever a book is shown it is the top `depth` of the exchange's book at that frame's number, and a snapshot came first |
| DeltaBook.EveryYieldIsTrue | exchange_router/exchanges/bybit/adapter.py:1138-1179 | every element of the yielded list comes from a received frame and is true at its number |
| DeltaBook.DeadYieldsNothing | exchange_router/exchanges/bybit/adapter.py:1146-1148 | once a gap or a parse error ended the generator nothing more is yielded |
| DeltaBook.LosslessStreamShowsEveryFrame | exchange_router/exchanges/bybit/adapter.py:1138-1179 | lossless delivery from a snapshot on shows a book at every frame: the gap check never misfires |
| DeltaBook.ApplyAllUpdates | exchange_router/exchanges/bybit/adapter.py:1153-1163 | applying entries, level by level: a price nobody names keeps its quantity or absence, any other is there exactly if the last entry naming it gives a non-zero quantity, and then with it |
| DeltaBook.UpdatesIsUnique | exchange_router/exchanges/bybit/adapter.py:1153-1163 | that description fits no other side |
| PlainBook.ShownInPlainWords | exchange_router/exchanges/bybit/adapter.py:1138-1179 | a frame is shown exactly if a snapshot came, no delta up to it names another predecessor than the number before it, and everything since the first snapshot parses |
| PlainBook.BookInPlainWords | exchange_router/exchanges/bybit/adapter.py:1142-1163 | a shown book is what all entries since the last snapshot come to when applied to nothing |
| PlainBook.YieldsInOrder | exchange_router/exchanges/bybit/adapter.py:1138-1179 | from the first snapshot on every shown frame yields one quote, in order, and no other frame does |
| DeltaBook.ApplyEntries | exchange_router/exchanges/bybit/adapter.py:1152-1163 | the loop over one side stops at a malformed entry, or leaves every price nobody names as it was and gives any other the quantity of the last entry that names it, none if that is zero |
| LossyBook.DropBeforeDeltaEndsTheStream | exchange_router/exchanges/bybit/adapter.py:1146-1148 | of two frames read one after the other through the lossy queue, a delta is survived exactly when nothing but idle frames was dropped between them, or the delta names no predecessor, or the frame before it has no number |
| LossyBook.WrongBookNeedsUnarmedLoss | exchange_router/exchanges/bybit/adapter.py:1142-1163 | with or without numbers, a book that was shown is the exchange's book at its frame's place, unless since the last snapshot read a frame that matters was dropped in front of a delta the check could not test |
| LossyBook.TrustedIffNoUnarmedLoss | exchange_router/exchanges/bybit/adapter.py:1138-1163 | a book shown behind the lossy queue is the exchange's for every content of the frames, read or dropped, exactly when that did not happen since the last snapshot read |
| LossyBook.UnnumberedDeltaDefeatsTheGapCheck | exchange_router/exchanges/bybit/adapter.py:1146-1149 | a concrete run through a queue of one in which an unnumbered delta after a loss is accepted and the book shown is wrong |
| LossyBook.UnnumberedSnapshotDefeatsTheGapCheck | exchange_router/exchanges/bybit/adapter.py:1146-1149 | the same with a numbered delta, when the snapshot read before it has no number |
| BybitBook.Absorb | exchange_router/exchanges/bybit/adapter.py:1140-1163 | one turn of the loop, up to the updated book, is one step of the book machine |
| BybitBook.StreamOrderbook | exchange_router/exchanges/bybit/adapter.py:1117-1179 | told from the messages alone: from the first snapshot on the generator yields one quote for every message, in order, up to the first delta whose `u` is not the one after its predecessor's or message that does not parse; each has the message's time and shows the best levels, bids falling and asks rising, of what was said since the last snapshot |
| BybitBook.YieldsAsReceived | exchange_router/exchanges/bybit/adapter.py:1138-1179 | what the book machine yields is what the messages say in that sense |
| BybitBook.EveryBookThroughTheHubIsTrue | exchange_router/exchanges/bybit/adapter.py:1138-1179 | composed with the hub's bounded queue: whatever is dropped, every yielded book is the top `depth` of Bybit's book at the number of a message that was read |
| BybitBook.Extreme | exchange_router/exchanges/bybit/adapter.py:1090-1091 | max or min over the maintained map is the best price |
| BybitBook.ExtremeIsHighestOrLowest | exchange_router/exchanges/bybit/adapter.py:1090-1091 | which is the highest bid or the lowest ask |
| BybitBook.StreamBookTicker | exchange_router/exchanges/bybit/adapter.py:1045-1114 | the ticker generator yields exactly the tickers of the machine |
| BybitBook.TickerIsFirstLevelOfTheBook | exchange_router/exchanges/bybit/adapter.py:1061-1111 | folded from the same frames, whatever they are, the tickers begin with the first level of each side of the order book at any depth, and are exactly those while the book lives and whenever timestamps are readable |
| OkxBook.ScalingCommutes | exchange_router/exchanges/okx/adapter.py:1481-1492 | applying entries in base units is applying them in contracts and converting the book |
| OkxBook.ApplyScaled | exchange_router/exchanges/okx/adapter.py:1481-1492 | the loop over one side of a block leaves every price nobody names as it was and gives any other the quantity, times the multiplier, of the last entry that names it, none if that is zero |
| OkxBook.Absorb | exchange_router/exchanges/okx/adapter.py:1468-1504 | one block is one step of the book machine |
| OkxBook.AbsorbMessage | exchange_router/exchanges/okx/adapter.py:1467-1505 | one message is the steps of its blocks and yields what they show |
| OkxBook.StreamOrderbook | exchange_router/exchanges/okx/adapter.py:1438-1508 | told from the blocks of all messages alone: from the first one that replaces the book on one quote for every block, in order, up to the first update whose `prevSeqId` is not its predecessor's `seqId` or block that does not parse; each shows the best levels of what was said since the book was last replaced, with quantities times the multiplier |
| OkxBook.YieldsAsReceived | exchange_router/exchanges/okx/adapter.py:1464-1508 | what the book machine yields is what the blocks say in that sense |
| OkxBook.GenuineBlockScales | exchange_router/exchanges/okx/adapter.py:1449-1457 | a genuine block in contracts is a genuine frame of OKX's book in base units |
| OkxBook.EveryBookThroughTheHubIsTrue | exchange_router/exchanges/okx/adapter.py:1464-1508 | composed with the hub's bounded queue: every yielded book is the top `depth` of OKX's book, in base units, at the sequence id of a received block |
| HubProtocol.StepKeepsInv | exchange_router/exchanges/base.py:286-457 | every step of subscribe, unsubscribe, connect, handshake, disconnect keeps: queue lists are never empty, subscribed topics have queues, and a topic with queues is subscribed upstream, on its way, or late with a waiting or timed-out opener |
| HubProtocol.RunKeepsInv | exchange_router/exchanges/base.py:286-457 | the same in every reachable state of every interleaving |
| HubProtocol.ListedUntilItLeaves | exchange_router/exchanges/base.py:286-330 | a queue is in the list of the topic it subscribed to from then on exactly until it unsubscribes from it, whatever else happens |
| HubProtocol.StarvedIffLate | exchange_router/exchanges/base.py:298-313 | while connected with no failed send, a topic with queues is unsubscribed exactly when it was opened since the snapshot, its opener has not taken its send step, and its subscription did not leak |
| HubProtocol.OpenedSubscribersAreServed | exchange_router/exchanges/base.py:298-313 | subscribed topics are a subset of the topics with queues; while connected with no failed send every subscriber, opener or not, is served exactly when its topic is not late or leaked; that of an opener that returned without timing out is always served |
| HubProtocol.StarvedOnlyByTimeout | exchange_router/exchanges/base.py:299-311 | while connected, a topic with queues that is not subscribed has an opener about to send, or one that timed out on this connection |
| HubProtocol.ReconnectServesEveryone | exchange_router/exchanges/base.py:404-410 | a queue present at the snapshot and still there later on that connection is subscribed once connected, timed out or not |
| HubProtocol.LeaksExactlyHandshakeDrops | exchange_router/exchanges/base.py:329-330 | upstream sends for nobody exactly the topics dropped between the snapshot and the connected event |
| HubProtocol.UpstreamIsTopicsAndLeaks | exchange_router/exchanges/base.py:286-457 | an unbroken connection never carries more than the topics with queues and those that leaked, and once connected carries exactly the topics that are not late together with those that leaked |
| HubProtocol.TimedOutSubscriberStarves | exchange_router/exchanges/base.py:299-303 | a concrete run that leaves a topic with a queue unsubscribed on a healthy connection, with nobody waiting |
| HubProtocol.JoinedSubscriberStarves | exchange_router/exchanges/base.py:290-298 | a concrete run in which a subscriber that never waited returns and is not served |
| HubProtocol.HandshakeDropLeaks | exchange_router/exchanges/base.py:329-330 | a concrete run after which a healthy connection sends a topic nobody has a queue for |
| StreamHub.StreamHub.constructor | exchange_router/exchanges/base.py:276-282 | a new hub has no topics, no socket and is not connected |
| StreamHub.StreamHub.Subscribe | exchange_router/exchanges/base.py:286-296 | a fresh empty queue joins the end of the topic's list, the task runs, everything else is kept, and the step is the protocol's |
| StreamHub.StreamHub.Wake | exchange_router/exchanges/base.py:305-313 | the second lock body marks the topic subscribed, and a payload follows exactly if it was not yet |
| StreamHub.StreamHub.TimeOut | exchange_router/exchanges/base.py:299-303 | a wait that runs into its limit sends nothing, keeps every queue where it is, and returns |
| StreamHub.StreamHub.Unsubscribe | exchange_router/exchanges/base.py:316-330 | the queue leaves the list, the others keep their places and every other topic its list; an empty list leaves the table together with its subscription, and a payload follows exactly then and while connected |
| StreamHub.StreamHub.Connect | exchange_router/exchanges/base.py:401-406 | the socket is published and the snapshot is exactly the topics with queues |
| StreamHub.StreamHub.SendNext | exchange_router/exchanges/base.py:407-408 | one payload of the handshake: upstream sends its topic, or the send failed and the rest of the handshake is abandoned |
| StreamHub.StreamHub.SetConnected | exchange_router/exchanges/base.py:410 | the event is set once the handshake is out, and wakes every waiting opener |
| StreamHub.StreamHub.Disconnect | exchange_router/exchanges/base.py:444-446 | the connection and its subscriptions are gone, the queues stay |
| StreamHub.StreamHub.Deliver | exchange_router/exchanges/base.py:426-438 | every queue of the topic gets the message exactly once and nothing else changes |
| FanOut.EveryQueueIsFed | exchange_router/exchanges/base.py:286-330 | over every interleaving of joins, leaves, deliveries and reads every queue was given exactly the messages routed to its topic since it joined, in order; its buffer is a contiguous suffix of them within `queue_size`, and what was read is an in-order selection of the rest |
| FanOut.FanIsOneQueuePerSubscriber | exchange_router/exchanges/base.py:286-330 | over every interleaving a queue is in the table exactly from its joining until it leaves, and holds what a queue of its own would hold after the deliveries to its topic and its own reads since |
| FanOut.DeliveryIsNewest | exchange_router/exchanges/base.py:426-438 | a delivered message is the newest in every queue of its topic, and no other queue changes |
| ManagerProtocol.StepKeepsInv | exchange_router/service/stream_manager.py:17-125 | every step keeps the two tables in agreement, buckets non-empty, one uncancelled handler per key, clients only in their own handler's bucket, and nobody orphaned |
| ManagerProtocol.OneLiveHandlerPerStream | exchange_router/service/stream_manager.py:17-42 | in every reachable state both tables have the same keys, no bucket is empty, and the registered handler is the only one that can still send for its key |
| ManagerProtocol.NobodyIsOrphaned | exchange_router/service/stream_manager.py:81-125 | a client that was handed an id and has not unsubscribed is in the bucket of the live handler it was admitted under, or a close was issued for it |
| ManagerProtocol.ServedExactly | exchange_router/service/stream_manager.py:17-125 | in every reachable state the clients in a live handler's bucket are exactly those that were handed an id, have not unsubscribed and had no close issued, each in one bucket, that of its own key |
| ManagerProtocol.LeaversAreNotServed | exchange_router/service/stream_manager.py:29-42 | after its `unsubscribe` a client is in no bucket and no item is sent to it, and no stream is left whose clients have all unsubscribed |
| ManagerProtocol.HandlersMindTheirOwnBucket | exchange_router/service/stream_manager.py:112-120 | a step of a handler leaves every stream it is not registered for untouched, and it only ever sends to clients admitted under it |
| ManagerProtocol.BucketIsThereForEveryItem | exchange_router/service/stream_manager.py:83-85 | a handler that was not cancelled always finds its bucket, and somebody in it |
| ManagerProtocol.EmptyingIsFinalising | exchange_router/service/stream_manager.py:97-107 | when all clients of a bucket are dead the two unguarded pops remove the handler's own entries and do what its `finally` would have done |
| StreamManager.StreamManager.Subscribe | exchange_router/service/stream_manager.py:17-26 | a handler is created and registered exactly when the key has no stream, the client is added to the bucket, and nothing else changes |
| StreamManager.StreamManager.Unsubscribe | exchange_router/service/stream_manager.py:29-42 | the client leaves its bucket and nobody else does; exactly for the last client the stream is taken down and its handler cancelled, which can no longer send |
| StreamManager.StreamManager.TakeItem | exchange_router/service/stream_manager.py:81-87 | an item goes to the clients then in the bucket, of which there are some |
| StreamManager.StreamManager.DropDead | exchange_router/service/stream_manager.py:92-107 | exactly the dead leave; the stream is taken down exactly when nobody is left, and what is popped is the handler's own registration |
| StreamManager.StreamManager.Finally | exchange_router/service/stream_manager.py:112-125 | the registered handler closes its bucket; any other changes nothing and closes nobody |
| AllocatorProtocol.FirstFree | exchange_router/exchanges/hyperliquid/adapter.py:476 | the first slot with room: it has room and none before it has |
| AllocatorProtocol.StepKeepsInv | exchange_router/exchanges/hyperliquid/adapter.py:472-512 | every acquire, enqueue, dequeue and release keeps the caps, the one-slot-per-topic assignment, the reference counts and the holders' hubs |
| AllocatorProtocol.HubsStayWithinTheCaps | exchange_router/exchanges/hyperliquid/adapter.py:472-501 | in every run at most ten hubs of at most nine hundred topics, disjoint, and the reference count of a topic is the number of its live holders |
| AllocatorProtocol.QueuedTopicsHavePayloads | exchange_router/exchanges/hyperliquid/adapter.py:416-431 | a topic queued in a hub has its payload argument and is in that slot, so no hub has more than nine hundred topics with queues |
| AllocatorProtocol.HeldTopicKeepsItsHub | exchange_router/exchanges/hyperliquid/adapter.py:504-512 | while a holder lives its topic stays in the hub it was given |
| AllocatorProtocol.CapacityErrorOnlyWhenFull | exchange_router/exchanges/hyperliquid/adapter.py:475-479 | the capacity error is raised exactly for an unheld topic while nine thousand distinct topics are held |
| TopicBudget.StepKeepsInv | exchange_router/exchanges/hyperliquid/adapter.py:472-512 | every step of the holders, the allocator and a hub's connection keeps the hub's queues those of the holders queued in its slot, and only topics of the handshake's snapshot are sent before the event or can leak |
| TopicBudget.ConnectionsStayWithinTwiceTheCap | exchange_router/exchanges/hyperliquid/adapter.py:490-512 | over every interleaving the topics with queues in a hub are those queued in its slot, at most nine hundred; its unbroken connection carries at most as many more as leaked, and at most eighteen hundred |
| CapOverrun.HandshakeDropOverrunsTheCap | exchange_router/exchanges/hyperliquid/adapter.py:476-501 | a concrete run in which a topic leaves a full hub during the handshake, another takes its place, and the connection carries nine hundred and one subscriptions |
| TopicAllocator.TopicAllocator.Place | exchange_router/exchanges/hyperliquid/adapter.py:476-483 | a new topic goes to the first slot with room, else to a new slot, else is refused with nothing changed |
| TopicAllocator.TopicAllocator.Acquire | exchange_router/exchanges/hyperliquid/adapter.py:472-487 | the holder gets the topic's hub, the argument is recorded and the count raised by one, or the capacity error changes nothing |
| TopicAllocator.TopicAllocator.Release | exchange_router/exchanges/hyperliquid/adapter.py:490-501 | the holder is gone and the count falls by one; the topic leaves all tables exactly with its last holder, else they stay |
| Histories.SortByTimeAscends | exchange_router/exchanges/base.py:517 | the stable sort orders by timestamp (and keeps the multiset) |
| Histories.NarrowedServesPart | exchange_router/exchanges/okx/adapter.py:892-896 | an endpoint whose first request carries a bound serves exactly the history up to that bound |
| Pagination.TakeNew | exchange_router/exchanges/base.py:518-523 | the loop keeps exactly the records not seen before, each once, and remembers all of them |
| Pagination.Flatten | exchange_router/exchanges/base.py:538-539 | reversing and flattening puts the oldest chunk first |
| Pagination.UnseenIsTheGap | exchange_router/exchanges/base.py:518-525 | of a page that overlaps what is covered, only the part in front of it is new |
| Pagination.Walk | exchange_router/exchanges/base.py:508-533 | the loop always covers a suffix of the history; its cursors strictly decrease over at most 100 pages; on distinct positive times it stops with enough, or with exactly as much as the requests reach that were answered before one failed |
| Pagination.PaginateBackwards | exchange_router/exchanges/base.py:500-541 | whatever fails and wherever it stops the result is a gap-free, duplicate-free, sorted suffix of at most `total_limit` records; on distinct positive times it is exactly the last `total_limit`, as far as the requests reach that were answered before the first failure or the page cap |
| Pagination.FirstFailureCounts | exchange_router/exchanges/base.py:508-513 | that number of requests is the place of the first one that fails, and nothing after it matters |
| Pagination.NoFailureReachesTheCap | exchange_router/exchanges/base.py:505-513 | without a failure it is the page cap, which reaches `100 * l - 99` records back |
| OkxCandles.RecentIsSuffixOfVisible | exchange_router/exchanges/okx/adapter.py:868-873 | what the recent endpoint keeps at or before the anchor is what the history at or before the anchor ends with |
| OkxCandles.InFrontOfSuffix | exchange_router/exchanges/okx/adapter.py:891-893 | the history before the oldest recent row is exactly what lies in front of the recent rows |
| OkxCandles.NoGapAtTheSeam | exchange_router/exchanges/okx/adapter.py:897 | history rows and recent rows join without gap or repeat |
| OkxCandles.StitchAnswers | exchange_router/exchanges/okx/adapter.py:891-898 | the stitched rows are the last `limit` candles at or before the anchor, as far as the recent rows and the answered history requests reach |
| OkxCandles.PaginateHistory | exchange_router/exchanges/okx/adapter.py:875-880 | pagination on the history endpoint gives the last candles at or before its bound, as far as its answered requests reach |
| OkxCandles.AddHistory | exchange_router/exchanges/okx/adapter.py:886-898 | the three ways to answer after the first request all give the last `limit` candles as far as the requests reach |
| OkxCandles.GetCandles | exchange_router/exchanges/okx/adapter.py:814-898 | exactly the last `limit` candles at or before the anchor, none later, as far as the recent rows and the history requests answered before the first failure reach; without an anchor, or with one of 0, all candles are visible; it raises exactly when the first request does |
| OkxCandles.BoundShowsTheVisible | exchange_router/exchanges/okx/adapter.py:868-880 | the bound that is sent shows the history up to the last candle at or before the anchor, and all of it without an anchor or with one of 0 |
| OkxCandles.NoFailureReachesFar | exchange_router/exchanges/okx/adapter.py:888-896 | without a failure the history requests reach 9901 candles back |
| OkxCandles.RecentAloneIsExact | exchange_router/exchanges/okx/adapter.py:882-883 | the short cut answers with the last `limit` candles of the history exactly when the recent endpoint keeps that many |
| BinanceFunding.CadenceIsTheMedian | exchange_router/exchanges/binance/adapter.py:836-838 | the cadence is the median interval of the recent page, no more than half of the intervals being shorter and more than half no longer, and at least a minute |
| BinanceFunding.SortedOrders | exchange_router/exchanges/binance/adapter.py:837-838 | the intervals are put in order and none is lost |
| BinanceFunding.PageTouchesIffWindowFits | exchange_router/exchanges/binance/adapter.py:845-851 | a page is what lies directly in front of what is collected exactly when its window holds at most a thousand settlements |
| BinanceFunding.SpacedWindowsFit | exchange_router/exchanges/binance/adapter.py:848-849 | settlements at least the cadence apart never overfill a window |
| BinanceFunding.UniformPagesAreFull | exchange_router/exchanges/binance/adapter.py:848-849 | on a regular schedule a page brings a thousand settlements or all that are left |
| BinanceCall.Oldest | exchange_router/exchanges/binance/adapter.py:844 | the least timestamp collected |
| BinanceCall.NotSeen | exchange_router/exchanges/binance/adapter.py:852 | exactly the records at timestamps not seen before, in order |
| BinanceFunding.PageMovesBack | exchange_router/exchanges/binance/adapter.py:851-857 | everything on a requested page is new and older than what is collected; an empty page is the only one that brings nothing |
| BinanceCall.WalkBack | exchange_router/exchanges/binance/adapter.py:842-858 | what the loop collects, put in order, is the recent page with page after page in front of it; at most ten pages are requested and the oldest timestamp falls on every one |
| BinanceFunding.FittingWalk | exchange_router/exchanges/binance/adapter.py:843-858 | while the windows fit a page the walk collects the history from some settlement on, which is enough or all exactly if it reaches back |
| BinanceFunding.UnfitWalk | exchange_router/exchanges/binance/adapter.py:843-858 | the first window that does not fit leaves a gap behind its page, which stays in what is collected |
| BinanceFunding.GapFreeIffWindowsFit | exchange_router/exchanges/binance/adapter.py:843-861 | the rows are a contiguous end of the history exactly when every window the walk requested held at most a thousand settlements |
| BinanceFunding.LastIffReachesBack | exchange_router/exchanges/binance/adapter.py:843-861 | for any history the rows are exactly the last `limit` settlements, or all of them, exactly when the walk reaches back: until it has enough or stands at the beginning each window it needs comes within the ten pages and holds at least one settlement and at most a thousand |
| BinanceFunding.NoneOverfullFits | exchange_router/exchanges/binance/adapter.py:848-849 | if no window in front of the recent page is overfull every window the walk requests fits |
| BinanceFunding.RegularRows | exchange_router/exchanges/binance/adapter.py:843-861 | on a regular schedule the rows are exactly the last `limit` settlements the ten pages reach |
| BinanceFunding.BunchedHistoryLeavesAGap | exchange_router/exchanges/binance/adapter.py:845-861 | a concrete history, with old settlements closer together than the recent median, whose rows have a gap |
| BinanceCall.GetFundingRate | exchange_router/exchanges/binance/adapter.py:829-861 | raises exactly when there is no settlement; else at most `limit` rows in strict order of time, contiguous exactly when the requested windows fit, which settlements at least the cadence apart see to, and the last `limit` exactly when the walk reaches back, on a regular schedule as far as ten pages go |
| BinanceFunding.RegularScheduleIsTheCadence | exchange_router/exchanges/binance/adapter.py:836-838 | on a regular schedule the median interval of the recent page is the schedule |
| RateBucket.Bucket.Attempt | exchange_router/exchanges/okx/adapter.py:38-48 | one pass through the lock body prunes, and grants or refuses; a refused caller is told the time up to which an undisturbed attempt is refused again, and after which it is granted |
| RateBucket.FullReopens | exchange_router/exchanges/okx/adapter.py:42-47 | a full bucket refuses until its oldest grant is more than `window` ago: at exactly that time it still refuses |
| RateBucket.PrunedDropsAPrefix | exchange_router/exchanges/okx/adapter.py:42-43 | popping from the left drops only grants before the cutoff and stops at one that is not |
| RateBucket.PlayKeepsInv | exchange_router/exchanges/okx/adapter.py:38-48 | over every run the grants are the expired ones followed by the deque, in order, and `max` apart in number means more than `window` apart in time |
| RateBucket.GrantedIffWindowHasRoom | exchange_router/exchanges/okx/adapter.py:42-46 | an attempt is granted exactly when fewer than `max` grants of the whole run lie in the window ending now, and the deque is then exactly the sorted list of grants in that window |
| RateBucket.NoWindowHoldsMoreThanMax | exchange_router/exchanges/okx/adapter.py:38-48 | the grant `max` after another comes strictly more than `window` later, and every closed interval of length `window` holds at most `max` grants |
| KrakenGate.OpenIffAllowed | exchange_router/exchanges/kraken/adapter.py:516-547 | the five remembered fields decide exactly what the whole history of grants and backoffs decides |
| KrakenGate.SlowdownFaithful | exchange_router/exchanges/kraken/adapter.py:563-565 | the slowdown is in force exactly within 60 s of some strong backoff, and then adds 1000 ms |
| KrakenGate.WaitIsExact | exchange_router/exchanges/kraken/adapter.py:519-552 | the longest delay is enough, and nothing shorter is while the slowdown stays what it is |
| KrakenGate.Gate.LongestDelay | exchange_router/exchanges/kraken/adapter.py:519-544 | the delays the code collects have that maximum |
| KrakenGate.PlayIsLegal | exchange_router/exchanges/kraken/adapter.py:516-567 | over every interleaving of requests and backoffs the gate, deciding on its five fields, gives only grants that the whole history allows, and the fields stay what the history makes them |
| KrakenGate.Gate.Attempt | exchange_router/exchanges/kraken/adapter.py:516-552 | one pass is one call of such a run: granted exactly when the history allows it, only a grant is recorded, and after the wait a refused one is told the gate is open if nobody came between |
| KrakenGate.Gate.SetBackoff | exchange_router/exchanges/kraken/adapter.py:555-567 | the backoff lasts until the announced time if that lies ahead, else for the jittered exponential wait, and is recorded with its strength |
| KrakenGate.WaitIsBounded | exchange_router/exchanges/kraken/adapter.py:561 | every jittered wait lies between 0.5 and 90 s, and from the sixth attempt on is at least 30 s |
| KrakenGate.WaitDoublesUpToTheCap | exchange_router/exchanges/kraken/adapter.py:561 | under the same jitter the wait starts at a second, doubles with every attempt, and stops at a minute |
| KrakenGate.GrantsAreSpread | exchange_router/exchanges/kraken/adapter.py:526-541 | over every run n + 1 consecutive grants span at least n * 200 ms, and on one (endpoint, pair) at least n * 1100 ms |
| KrakenGate.BackoffsAreHonoured | exchange_router/exchanges/kraken/adapter.py:562-565 | over every run no grant comes inside any backoff announced before it, and for 60 s after a strong one each comes at least 1200 ms after every earlier grant |
| SyncStream.RunKeepsInv | exchange_router/router.py:67-118 | over every interleaving of the two threads the buffer is bounded and first-in first-out, an offer needs at most two rounds, the stream has the shape messages, error, sentinel, and the sentinel is never evicted |
| SyncStream.EveryItemIsAccountedFor | exchange_router/router.py:72-111 | yielded, dropped, buffered, the item that stopped the reader and what the pump still holds add up to what the generator gave, and each yielded message is one that it gave |
| SyncStream.EverythingOfferedIsPlaced | exchange_router/router.py:74-98 | every message, the error and the sentinel are put on the queue in the order given, except what the pump still holds: an offer that meets a full queue makes room and tries again |
| SyncStream.PositionsIncrease | exchange_router/router.py:102-108 | messages are yielded in the order in which they were offered |
| SyncStream.HeadOfEviction | exchange_router/router.py:82-84 | the item an eviction takes is never the sentinel, and is the error only when that is alone |
| SyncStream.EvictionTakesTheErrorWhenAlone | exchange_router/router.py:75-87 | an eviction takes the error exactly when it is alone on the queue, and never takes the sentinel |
| SyncStream.LostIffRaced | exchange_router/router.py:75-98 | a run loses the error exactly when the pump evicts at a moment when the error is alone on the queue |
| SyncStream.LostIffDrained | exchange_router/router.py:75-98 | a run loses the error exactly when the offer of the sentinel meets a full queue with the error last on it and exactly `capacity - 1` reads fall before the eviction that follows |
| SyncStream.NormalEndHidesOnlyLostErrors | exchange_router/router.py:102-108 | when the reader's loop ends normally the generator had failed exactly if its error was lost |
| SyncStream.UndisturbedOffersKeepTheError | exchange_router/router.py:75-98 | with capacity two or more and no read between a full queue and the eviction after it, the error is never evicted |
| SyncStream.SomeRunLosesTheError | exchange_router/router.py:75-108 | at every capacity some run evicts the error and ends like an exhausted stream |
| LoopBuffer.StreamBuffer.PutNowait | exchange_router/router.py:78-80 | a put adds the item at the end or finds the queue full and changes nothing |
| LoopBuffer.StreamBuffer.GetNowait | exchange_router/router.py:82-87 | an eviction removes the oldest item and counts it, and ignores an empty queue |
| LoopBuffer.StreamBuffer.Read | exchange_router/router.py:102-108 | the reader takes the oldest item: it yields a message, raises an error, stops at the sentinel |
| RefreshCache.FetchesWhenDueAndServesTheLatest | exchange_router/exchanges/base.py:622-643 | a call fetches exactly when nothing was ever fetched, a day after a success or an hour after a failure, and returns what the latest successful fetch brought |
| RefreshCache.FetchesAreSpaced | exchange_router/exchanges/base.py:628-637 | over every run fetches for one key are at least 24 h apart after a success and 1 h after a failure with data cached |
| RefreshCache.NeverRaisesAgain | exchange_router/exchanges/base.py:632-638 | once a fetch has succeeded no later call raises |
| RefreshCache.InfoCache.Ensure | exchange_router/exchanges/base.py:622-643 | the info cache serves its key as described and leaves every other key alone |
| RefreshCache.MarginCache.Ensure | exchange_router/exchanges/base.py:651-673 | so does the margin cache, whose `read_at` always comes from the same fetch as its rows |
| FundingAccrual.FundingPaid | exchange_router/funding.py:68-80 | the payment is the notional times the rates of exactly the discrete rows within the holding, both ends included, and what the accruing rows charge |
| FundingAccrual.PaidIsSettledAndAccrued | exchange_router/funding.py:68-80 | the sum of the rows' charges is the notional times the rates of exactly the discrete rows within the holding, plus what the accruing rows charge |
| FundingAccrual.AccruesWhileHeld | exchange_router/funding.py:74-78 | an accruing row charges its rate in the proportion of its cycle during which the position is held |
| FundingAccrual.WholeCycleOrNothing | exchange_router/funding.py:74-78 | a cycle held whole charges the whole rate, and one that is not held at all charges nothing |
| FundingAccrual.HoldingSplits | exchange_router/funding.py:68-80 | closing and reopening costs the same, except that discrete charges exactly at the split are paid twice |
| FundingAccrual.PaidIsLinear | exchange_router/funding.py:73-78 | the payment is linear in the notional |
| FundingAccrual.PaidIgnoresOrder | exchange_router/funding.py:71 | the order of the rows does not matter |
| FundingAccrual.EvenRateChargesByTheHour | exchange_router/funding.py:56-80 | accruing rows that tile a span at one hourly rate charge notional times that rate times the hours held within it |
| DecimalSteps.NormalizeKeepsValue | exchange_router/exchanges/base.py:149 | normalising keeps the value and leaves no trailing zero |
| DecimalSteps.TimesMultiplies | exchange_router/exchanges/base.py:122-124 | the product of decimals multiplies their values |
| DecimalSteps.CountIsLeast | exchange_router/exchanges/base.py:147-156 | `count_decimals` is the least number of places at which the value is a whole number of units |
| DecimalSteps.BuildStep | exchange_router/exchanges/base.py:120-132 | the value of the step is the product of the values of the parts, and there is none exactly when a part is no number or that product is not positive |
| DecimalSteps.NumbersAreTheParts | exchange_router/exchanges/base.py:122-124 | when every part is a number they are all factors, in order |
| DecimalSteps.ProductMultiplies | exchange_router/exchanges/base.py:122-124 | the product of the parts has the product of their values |
| DecimalSteps.StepNeedsNoMorePlaces | exchange_router/exchanges/base.py:120-132 | a step never needs more places than its parts together |
| DecimalSteps.DecimalsRoundTrip | exchange_router/exchanges/base.py:135-144 | counting the places of the step built for `n` decimals gives `max(n, 0)`, and `10^n` such steps make one |
| DecimalSteps.BuildStepFromDecimals | exchange_router/exchanges/base.py:135-144 | for any number of decimals the call to `build_step` gives a step, with as many places as asked for, or none for a step above one |

## Left out

- HTTP clients, WebSocket transport, JSON, pydantic models and routes: upstreams are ghost histories, message sequences or functions.
- Shutdown and a `subscribe` cancelled half-way: the first drops clients on purpose, the second leaks its queue.
- Task creation, keep-alive and the reconnect delay of the hub: a task is the flag `running`, and connecting may happen at any time.
- A handshake or subscribe payload of several messages is several send steps; delivery upstream is first-in first-out, and a failed send is remembered as `broken` until the next connection.
- The order of queues within a topic in the hub protocol: the class keeps it, no property depends on it.
- The manager's 5 s send limit and 2 s wait for a cancelled handler: a send fails or not, and the wait observes nothing.
- A WebSocket is identified with the client id it was given.
- Floats are reals or exact decimals: rounding, infinities and the 28-digit decimal context are not modelled.
- `depth` is a natural number; a negative one would slice from the other end.
- Quantity conversions of the book ticker (`build_qty_value`) and symbol names: they do not feed back into the book.
- Kraken's own order book: it has no sequence check, so losses are not detected and there is nothing to prove of it.
- OkxBook.StreamOrderbook: the contract multiplier is assumed not to be zero.
- LossyBook.DropBeforeDeltaEndsTheStream: assumes that a delta's link, where there is one, names the frame before it and an earlier one only across idle frames, which repeat their number and change nothing, as OKX's keep-alive updates do.
- DeltaBook.EveryYieldIsTrue: the exchange's book is a function of its sequence number, so a number is assumed never to come back with another book, for example after a restart of the exchange's service; frames without a number are the matter of `TrustedIffNoUnarmedLoss` instead.
- ManagerProtocol.StepKeepsInv: a cancelled handler is assumed to resume only with the cancellation; in Python before 3.12 `asyncio.wait_for`, in the hub's `subscribe`, can swallow a cancellation that meets a wait just completed, and the handler then runs on.
- StreamHub.StreamHub.Deliver: the queues' own soundness is a precondition here; that it holds of every queue in the table over every sequence of calls is `FanOut.EveryQueueIsFed`.
- Pagination.PaginateBackwards: the history holds no two identical records; timestamps may repeat for the suffix result, and must be distinct and positive for the exact one.
- OkxCandles.GetCandles: candle times are distinct and, after the adapter's conversion to milliseconds, at least 1000; rows the adapter skips as malformed count as absent.
- BinanceCall.GetFundingRate: the branch with a start time is one request and not modelled, a failing request propagates to the caller, and rows of the recent page are the latest settlements.
- RateBucket.Bucket.Attempt: at least one request per window is allowed, as every bucket of the adapter does; the random extra sleep only delays the next attempt.
- KrakenGate.Gate.Attempt: which URLs count as pair calls is decided by the caller through `key`; clock readings are positive and do not go back.
- SyncStream.RunKeepsInv: closing the asynchronous generator is assumed not to raise; were it to, no sentinel would be offered.
- RefreshCache.InfoCache.Ensure: one call at a time per key, which is what the locks ensure; the table by symbol is one value.
- FundingAccrual.FundingPaid: rows are already normalised, times are reals that include the milliseconds, and an accruing row has a positive cycle.
- DecimalSteps.BuildStep: parts are already parsed; a part that is no decimal number is `None`.
- DecimalSteps.BuildStepFromDecimals: exact like the rest; as a double a step below about `1e-324` is zero and one above `1e308` infinite, and then there is none.
- TopicBudget.ConnectionsStayWithinTwiceTheCap: nothing is promised of a connection on which a send failed.
- The auditor, capability tables, symbol normalisation, batch results, the fallback latch and the open-interest join: they would only add easy members.
- Venue request loops (`_make_request`): mostly I/O, without a measure that always falls.
