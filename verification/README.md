# Verification of the Podping gossip network

A Dafny model of the logic under the asynchronous plumbing of the Podping
gossip network, and proofs of what that logic is for. `dafny verify
dfyconfig.toml` checks the whole project. Seven pieces are modelled:

1. **Topology analysis** (`Sums`, `Graph`, `Dependency`, `ForwardPass`,
   `Betweenness`, `Conservation`, `Components`, `Ranking`, `Topology`). Walks,
   distances, sets of shortest paths and betweenness are defined from first
   principles; the queue, stack and back-propagation loops of Brandes' algorithm
   are then proved to compute exactly that, on every graph. Betweenness totals
   obey a conservation law, the breadth-first sweep yields the connected
   components, and following the suggestions connects the swarm.
2. **Trust propagation** (`Trust`). Any number of nodes, any delay, repetition
   or loss of messages, and a forger who can send anything but a good signature.
   Trusted sets stay inside the closure of the initial trust, every effective
   delivery brings the network closer to it, every fair schedule reaches it, and
   all quiet networks agree.
3. **Batching and broadcasting** (`Notification`, `NotificationReader`,
   `Splitter`, `FlushBatch`, `SequenceGaps`, `RetryQueue`). Payloads that read
   back as written, their sizes down to the byte, greedy splitting shown to be
   optimal, flushes that lose and repeat nothing, gap reports that count exactly
   what was lost, and a retry queue that accounts for every payload and whose
   counters are read off the events.
4. **The front end's queue** (`PingQueue`, `QueueProtocol`, `QueueProgress`,
   `QueueHistory`, `SplitAdds`, `QueueChecker`). The table behind its statements,
   the interleaving of web requests with the sender loop as a step relation, the
   progress it makes, what its histories keep and exactly when they do not, adds
   as the two statements they are, and the loop itself, each of whose rounds is
   shown to be a run of that relation.
5. **The receiver actor** (`ReceiverActor`). Events meet waiting callers in
   order; the hash window and what the callers are told at the end are read off
   the actions.
6. **Byte formats** (`Bytes`, `RecordCodec`, `Catchup`). Codecs proved to be
   bijections, verification tied to signing, and catch-up from one archive to
   another, stream included.
7. **The bootstrap loop** (`Bootstrap`). Exactly which minutes records are
   published for, in which order questions, requests and records come, and when
   completion is signalled.

Classes and methods with loops stand for code that updates variables in place;
each is specified by a function, a predicate or a step relation over values,
about which the properties are then proved over all inputs and all runs.

## What the proofs found

Where a comment or a name in the repository promises more than the code does,
the model follows the code.

- `RetryQueue.HealthyNetworkNeverReplays`: queued payloads are replayed only by
  the reconnect that the fifth failure in a row triggers. Once broadcasts
  succeed again, nothing sends them, neither later successes nor a reconnect
  asked for by the watchdog (`ReplayIff` gives the exact condition, and
  `OneFailureStrands` a run for every payload).
- `ReceiverActor.HashRecordedIff`: the documented "recently received messages"
  are only those queued on arrival; a message that meets a waiting caller leaves
  no hash, and an eager caller keeps the window empty
  (`EagerCallerLeavesNoHashes`).
- `QueueProtocol.ReaddSafeIff`: the new data of a Live or LiveEnd re-add goes out
  before the row is in flight if and only if, at the re-add, the batch being sent
  does not hold the url with other data and the url is not between its send and
  its mark. Otherwise the re-add can be swallowed: `QueueHistory.LiveReaddSwallowed`
  and `QueueHistory.LiveReaddSwallowedByMark` are such runs from the empty queue.
- `QueueHistory.ResendIff`: with a clock that does not go back, every second send
  of a url is preceded, after the first, by a re-add, a reset, or a removal and a
  new add, if and only if the url was queued when it was first sent. A url
  acknowledged between its fetch and its send needs no further removal
  (`QueueHistory.RemovalBeforeBothSends`).
- `SplitAdds.AcceptedIsQueuedIff`: a Live or LiveEnd add of a queued url is
  accepted even if the url is removed between its failed insert and its update;
  it is queued afterwards if and only if every such removal was made good by a
  new row (`SplitAdds.LiveAddLost` is a run in which it is lost).
- `QueueHistory.ResetRightAfterMark`: the 180 seconds before a reset count from
  the last add, re-add or reset of the row, not from its send, so a row that
  waited long in the queue is reset, and sent again, right after it was marked.
- `Catchup.ResumedIff`: the next catch-up asks from the newest local entry on,
  which an interrupted catch-up has just moved to the present; a message is
  offered again only if nothing newer than it was stored, so, the second in which
  the catch-up began apart, only if nothing delivered so far was new
  (`Catchup.ResumedIffNothingNew`). The same holds of what lies past the cap of
  50,000 (`Catchup.CappedRestIsNotOffered`).
- `Catchup.StreamDelivers`: an empty or oversized payload in the server's
  archive ends the stream for the client, and later payloads are not read.
- `RecordCodec.EnvelopeRoundTripIff`: the envelope's length is cut to 32 bits,
  so the round trip holds exactly below 4 GiB. Both decoders panic, rather than
  fail, on byte strings that are too short.
- `Splitter.ChunksFitIff`: the promise that every chunk stays within the limit
  holds if and only if every IRI does alone; `Splitter.OversizedIri` gives the
  inputs for which it fails. An empty list gives one empty chunk.
- `FlushBatch.RepliesBackedIff`: what is acknowledged was queued if and only if
  the channel took every notification or refused every one as closed; with a
  full channel everything is dropped and acknowledged all the same
  (`FlushBatch.FullChannelAcknowledges`).
- `Topology.LargestIndex`: among several largest components the last one found is taken.

## Model

| member | source | states |
|---|---|---|
| `Graph.ShortestPathsExact` | gossip-monitor/src/topology.rs:82-86 | The set of shortest paths the counts refer to holds exactly the walks between its ends that no such walk undercuts |
| `Graph.SigmaByLastStep` | gossip-monitor/src/topology.rs:83-86 | The number of shortest paths to a node is the sum of those to the nodes one step before it: what adding `sigma` along edges relies on |
| `Graph.ViaByLastStep` | gossip-monitor/src/topology.rs:82-89 | The same for shortest paths through a given node |
| `Dependency.ViaByFirstStep` | gossip-monitor/src/topology.rs:97-101 | Shortest paths through v that go on are shared among its successors in the ratio sigma(v)/sigma(w) |
| `Dependency.DependencyRecurrence` | gossip-monitor/src/topology.rs:97-105 | The sum over all targets of the share of shortest paths through v satisfies the recurrence that back-propagation evaluates |
| `ForwardPass.Relax` | gossip-monitor/src/topology.rs:74-88 | Scanning the edges of one node, in any order, keeps the queue sorted by level and the counts and predecessor lists exact for the edges scanned so far |
| `ForwardPass.Sweep` | gossip-monitor/src/topology.rs:55-89 | The queue loop settles every node: levels, counts, predecessor lists and visiting order are final |
| `Betweenness.Explore` | gossip-monitor/src/topology.rs:54-89 | After the forward pass `dist` is the shortest-path length, -1 exactly when unreachable, `sigma` the number of shortest paths, and the stack lists the reachable nodes once, nearest first; no lookup misses |
| `Betweenness.PassBack` | gossip-monitor/src/topology.rs:98-101 | A node passes to each predecessor its share of one plus its own dependency, and to nothing else |
| `Betweenness.BackPropagate` | gossip-monitor/src/topology.rs:91-105 | Popping the stack adds to every node other than the source its dependency, defined over paths |
| `Betweenness.Halved` | gossip-monitor/src/topology.rs:108-111 | Every value is halved, no entry gained or lost |
| `Betweenness.ComputeBetweenness` | gossip-monitor/src/topology.rs:45-114 | For every graph closed over distinct nodes, each value is half the sum over ordered pairs of (shortest paths through v)/(shortest paths) |
| `Conservation.ViaTotal` | gossip-monitor/src/topology.rs:91-101 | Summed over all nodes, the shortest s-t paths through them number (distance + 1) times the shortest s-t paths |
| `Conservation.BetweennessConserved` | gossip-monitor/src/topology.rs:91-111 | All betweenness values together are half the sum over ordered connected pairs of (distance - 1) |
| `Conservation.UndirectedCentrality` | gossip-monitor/src/topology.rs:108-111 | On a symmetric graph, halving the ordered sum counts every unordered pair of ends exactly once |
| `Components.BfsComponent` | gossip-monitor/src/topology.rs:21-42 | Returns once each, and marks, exactly the nodes reachable without entering a node visited before |
| `Components.FindComponents` | gossip-monitor/src/topology.rs:178-186 | The sweep partitions the nodes: components are disjoint, duplicate-free, cover all nodes and are closed under paths |
| `Components.ShareComponentIffJoined` | gossip-monitor/src/topology.rs:178-186 | Two nodes share a component if and only if a path joins them |
| `Ranking.SortIsDescending` | gossip-monitor/src/topology.rs:201-206 | The sort orders by descending score |
| `Ranking.SortIsStable` | gossip-monitor/src/topology.rs:304-309 | Entries of equal score keep their order |
| `Ranking.Ranked` | gossip-monitor/src/topology.rs:201-206 | The ranking holds each node once with its score, best first |
| `Ranking.TopBetweenness` | gossip-monitor/src/topology.rs:117-132 | The best few nodes outside the excluded ones, distinct and in order, and none left out scores higher |
| `Topology.LinkBack` | gossip-monitor/src/topology.rs:156-161 | Adds exactly the edges back from the neighbours |
| `Topology.BuildGraph` | gossip-monitor/src/topology.rs:140-165 | Two active nodes are joined if and only if an active announcement of one names the other |
| `Topology.LargestIndex` | gossip-monitor/src/topology.rs:188-194 | A component of maximal size, and of several the last |
| `Topology.CountJoinedPairs` | gossip-monitor/src/topology.rs:253-265 | The double loop counts the unordered joined pairs among the neighbours, whatever the order in which they are listed |
| `Topology.CollectTwoHops` | gossip-monitor/src/topology.rs:272-282 | Exactly the nodes at distance two, distance being the length of a shortest path |
| `Topology.TwoHopsIsDistanceTwo` | gossip-monitor/src/topology.rs:272-282 | In every graph the neighbours of neighbours that are neither the node nor its neighbours are the nodes at distance two |
| `Topology.Measure` | gossip-monitor/src/topology.rs:253-289 | Density and reach are the stated ratios and lie in [0, 1] |
| `Topology.BestOfMain` | gossip-monitor/src/topology.rs:216-223 | The three best-ranked nodes of the largest component |
| `Topology.AdviseComponent` | gossip-monitor/src/topology.rs:211-232 | Every node of a smaller component gets its suggestion, exactly one |
| `Topology.AdviseMember` | gossip-monitor/src/topology.rs:234-301 | A node of the largest component gets a suggestion if and only if it has fewer than two neighbours or sits in an inward-looking clique |
| `Topology.Advise` | gossip-monitor/src/topology.rs:208-301 | Exactly the needy nodes are advised, each once and properly |
| `Topology.MapSwarm` | gossip-monitor/src/topology.rs:134-200 | Graph, components, largest component and betweenness of any list of announcements are what their definitions say |
| `Topology.AnalyzeTopology` | gossip-monitor/src/topology.rs:134-316 | The whole analysis of any list of announcements, suggestions sorted by descending score |
| `Topology.SuggestionShape` | gossip-monitor/src/topology.rs:208-309 | A suggestion names at most three distinct active nodes, never the target or a neighbour, with a score in [0, 1] |
| `Topology.MemberAdvice` | gossip-monitor/src/topology.rs:234-301 | In whole numbers: a node of the largest component is advised exactly if it has fewer than two neighbours, or more than 8/10 of its neighbour pairs are joined while fewer than 3/10 of the other nodes are at distance two; with reason and score |
| `Topology.SuggestsTheBest` | gossip-monitor/src/topology.rs:117-132 | Every suggestion names the candidates of highest betweenness, best first, three or all of them; from outside the largest component with score 1 |
| `Topology.OutsidersGetPeers` | gossip-monitor/src/topology.rs:211-232 | A node outside the largest component is always given a non-empty list, all of it inside that component |
| `Topology.SuggestionsConnect` | gossip-monitor/src/topology.rs:188-232 | If in each smaller component some node links to any one of its suggested peers, all active nodes become connected |
| `Trust.InsertAll` | gossip-listener/src/main.rs:1602-1610 | Inserting keys one by one gives the union and counts the new ones |
| `Trust.TrustNode.HandleEndorse` | gossip-listener/src/main.rs:1548-1618 | Keys are merged only from a well-signed endorsement by a sender already trusted; the count is that of the new keys |
| `Trust.TrustNode.Snapshot` | gossip-listener/src/main.rs:960-974 | An empty set is never broadcast; otherwise one signed message lists exactly the trusted set |
| `Trust.TrustSafety` | gossip-writer/src/main.rs:1953-2013 | In every run, with messages delayed, repeated or forged: what a node trusts was reachable from it along initial trust, its initial keys stay, and an empty set stays empty |
| `Trust.QuietMeansClosed` | gossip-listener/src/main.rs:1600-1617 | When no current broadcast would change anything, a node that acts on endorsements trusts exactly the closure |
| `Trust.StepProgress` | gossip-listener/src/main.rs:1600-1617 | Every step that changes a set strictly decreases the number of missing closure keys |
| `Trust.BoundedChanges` | gossip-writer/src/main.rs:1995-2012 | In every run the effective deliveries number at most the closure keys missing at its start |
| `Trust.Converges` | gossip-listener/src/main.rs:957-1002 | From every reachable state some broadcasts and deliveries lead to a quiet network |
| `Trust.FairSchedulesConverge` | gossip-listener/src/main.rs:957-1002 | Every schedule of rounds in which each listener is reached once by each broadcaster it trusts, among any other traffic, makes the network quiet after as many rounds as closure keys were missing |
| `Trust.QuietIsFinal` | gossip-listener/src/main.rs:1600-1617 | No further steps change a quiet network, stale messages included |
| `Trust.SameOutcome` | gossip-writer/src/main.rs:1059-1103 | Any two runs that become quiet end with the same trusted sets |
| `Notification.PayloadLength` | gossip-writer/src/notification.rs:13-83 | The exact length of the signed JSON payload, field by field, escapes included |
| `NotificationReader.SerializeRoundTrip` | gossip-writer/src/notification.rs:13-25 | Every notification, with or without number and signature, comes back from its JSON text field by field |
| `NotificationReader.PayloadBack` | gossip-writer/src/notification.rs:43-83 | A receiver reads from a payload exactly the version, sender, time, medium, reason, IRIs and number it was built from, and its signature |
| `NotificationReader.StringBack` | gossip-writer/src/notification.rs:43-83 | A quoted and escaped string reads back as itself, whatever follows it |
| `Notification.LoneIriFits` | gossip-writer/src/main.rs:1505-1513 | A single IRI fits if and only if its escaped text leaves room for the envelope |
| `Notification.FitsHereditary` | gossip-writer/src/main.rs:1501-1513 | Any stretch of a list that fits also fits |
| `Notification.FinalPayloadBound` | gossip-writer/src/main.rs:1561-1569 | A chunk that fitted when it was measured stays below 65536 bytes with any sequence number, which adds at most 27 bytes, and any later timestamp |
| `Splitter.GreedyLeast` | gossip-writer/src/main.rs:1497-1527 | A partition in which no chunk could have taken the next IRI has no more chunks than any acceptable one |
| `Splitter.SaturatedIsFewest` | gossip-writer/src/main.rs:1497-1527 | So it has the fewest chunks |
| `Splitter.ChunksFitIff` | gossip-writer/src/main.rs:1472-1528 | Every chunk of a partition fits if and only if every IRI fits alone |
| `Splitter.OversizedIri` | gossip-writer/src/main.rs:1513-1520 | An IRI of 60000 bytes or more ends up in a chunk of its own, over the limit |
| `Splitter.SplitIrisToFit` | gossip-writer/src/main.rs:1474-1528 | Chunks concatenate to the input, each fits or is a lone IRI, there are as few as possible, and all of them fit if and only if each IRI fits alone |
| `FlushBatch.GroupByKind` | gossip-writer/src/main.rs:1541-1548 | Each group holds the pending IRIs of its medium and reason, in order |
| `FlushBatch.SendGroup` | gossip-writer/src/main.rs:1553-1569 | One group goes out complete and in order, consecutively numbered, and no other group is touched |
| `FlushBatch.SendAll` | gossip-writer/src/main.rs:1541-1569 | All groups go out, in any order of the groups |
| `FlushBatch.BatchWriter.Flush` | gossip-writer/src/main.rs:1532-1648 | A flush sends every pending IRI once under its own kind, continues the numbering, queues what the channel takes, replies unless the channel refused everything as closed, and exactly when everything acknowledged was queued |
| `FlushBatch.BatchWriter.Enqueue` | gossip-writer/src/main.rs:1586-1612 | What the channel takes, in order, and whether the flush counts as broadcast |
| `FlushBatch.RepliesBackedIff` | gossip-writer/src/main.rs:1586-1645 | Whatever is acknowledged was queued if and only if the channel took all notifications or refused all as closed |
| `FlushBatch.FullChannelAcknowledges` | gossip-writer/src/main.rs:1601-1604 | A full channel: nothing queued, everything acknowledged, for every non-empty flush |
| `FlushBatch.PayloadBelowIff` | gossip-writer/src/main.rs:1561-1569 | The payload of a notification, with its own number and time, stays below 65536 bytes if and only if it has several IRIs or the escaped text of its only one leaves room |
| `FlushBatch.FlushBelowLimitIff` | gossip-writer/src/main.rs:1553-1569 | The same for everything a flush puts on the wire; it holds whenever every IRI fits alone |
| `FlushBatch.NumberedAt` | gossip-writer/src/main.rs:1561-1568 | Below 2^64 the i-th number is start + i: contiguous and never reused |
| `FlushBatch.NumberedAcross` | gossip-writer/src/main.rs:676-676 | Successive flushes number their notifications like one |
| `FlushBatch.FaithfulBag` | gossip-writer/src/main.rs:1541-1569 | The (medium, reason, iri) multiset sent equals the one pending |
| `FlushBatch.EveryPingAnnounced` | gossip-writer/src/main.rs:1541-1569 | Every pending ping is in a notification of its own medium and reason, signed by this writer |
| `SequenceGaps.GapDetector.Note` | gossip-listener/src/main.rs:1628-1644 | Reports the gap to the last number of that sender and remembers the new one |
| `SequenceGaps.ReportedIsGaps` | gossip-listener/src/main.rs:1628-1644 | Over any interleaving, reports about a sender are exactly the gaps between its own numbers |
| `SequenceGaps.ReportsAreExact` | gossip-listener/src/main.rs:1628-1644 | Misses plus receipts equal last - first + 1 if and only if the numbers arrived in increasing order; otherwise they exceed it |
| `SequenceGaps.LossIsReported` | gossip-listener/src/main.rs:1631-1641 | For one writer run delivered in order with losses, the reports count exactly the notifications lost between the first and the last received |
| `RetryQueue.BroadcastTask.OnPayload` | gossip-writer/src/main.rs:838-1001 | One payload: what goes out, in order, and what happens to the queue and the counters |
| `RetryQueue.BroadcastTask.ReplayQueue` | gossip-writer/src/main.rs:965-985 | The longest prefix that succeeds goes out in order; the rest stays in place, the failed one in front |
| `RetryQueue.BroadcastTask.OnNotify` | gossip-writer/src/main.rs:745-836 | A reconnect asked for by another task resets the counters and leaves the queue alone |
| `RetryQueue.PayloadsConserved` | gossip-writer/src/main.rs:743-1004 | In every run: taken = broadcast + replayed + queued + dropped, as multisets; at most 500 queued; replayed payloads followed by the queue are the queued failures in order |
| `RetryQueue.DropsOnlyWhenFull` | gossip-writer/src/main.rs:864-887 | A payload is dropped if and only if its broadcast fails with 500 waiting |
| `RetryQueue.ReplayIff` | gossip-writer/src/main.rs:890-985 | Exactly when a step replays something |
| `RetryQueue.CountersFromEvents` | gossip-writer/src/main.rs:743-1004 | In every run the counters are read off the events: failures in a row since the last success or carried-out reconnect, counted in fives; reconnect attempts since the last success; what was taken and what was sent at once, in order |
| `RetryQueue.ReplayNeedsFive` | gossip-writer/src/main.rs:890-985 | In every run something is replayed exactly when a failed broadcast completes five, or a multiple of five, in a row, outside the cooldown, with a working reconnect and first replay; the last five broadcasts have then all failed |
| `RetryQueue.HealthyNetworkNeverReplays` | gossip-writer/src/main.rs:743-1004 | While broadcasts succeed, the queue is never touched, whatever reconnects happen |
| `RetryQueue.OneFailureStrands` | gossip-writer/src/main.rs:864-887 | A first payload that fails once in an otherwise healthy network stays queued for ever |
| `PingQueue.Queue.Add` | podping/dbif/src/lib.rs:216-268 | Inserts a new row, rewrites an existing one for Live and LiveEnd and takes it out of flight, refuses otherwise |
| `PingQueue.Queue.Insert` | podping/dbif/src/lib.rs:219-230 | The insert alone: a new row with a fresh row id, or no change when the url is queued |
| `PingQueue.Queue.UpdatePing` | podping/dbif/src/lib.rs:243-268 | The update alone: the row, if there still is one, takes the new data and leaves the flight; none is created and no other changes |
| `PingQueue.Queue.SetInflight` | podping/dbif/src/lib.rs:271-289 | The row of that url, if any, is in flight and otherwise as it was; every other row is unchanged and none is added |
| `PingQueue.Queue.ResetInflight` | podping/dbif/src/lib.rs:292-311 | Some 25 of the rows in flight whose time is more than 180 seconds old, or all, return to the queue with a new time |
| `PingQueue.Queue.Delete` | podping/dbif/src/lib.rs:314-324 | The url is gone; every other row stays as it was |
| `PingQueue.Queue.Get` | podping/dbif/src/lib.rs:169-213 | The first 1000 eligible rows by reason and row id: none left out comes before one taken |
| `PingQueue.ListInOrder` | podping/dbif/src/lib.rs:179-188 | Each chosen row once, in fetch order |
| `PingQueue.FetchIsPrefix` | podping/dbif/src/lib.rs:179-188 | The first rows of that listing are what the query returns |
| `PingQueue.EarlierIsTextOrder` | podping/dbif/src/lib.rs:179-188 | Fetch order is the order of the stored reason texts, compared character by character, and then of the row ids |
| `PingQueue.FetchMeaning` | podping/dbif/src/lib.rs:169-213 | What a fetch returns, row by row: age, flight, order, and that a qualifying row is left out only if 1000 rows before it were taken |
| `PingQueue.LiveFirst` | podping/dbif/src/lib.rs:179-188 | No Update stands before a Live or LiveEnd and no LiveEnd before a Live; a qualifying Live row is left out only by a batch that is Live throughout |
| `PingQueue.FetchExists` | podping/dbif/src/lib.rs:179-188 | Every table has an answer to the query |
| `QueueProtocol.RemovalCause` | podping/src/main.rs:446-503 | Only a writer error or a transaction with a block number, naming the url, removes it |
| `QueueProtocol.RemovalHappens` | podping/src/main.rs:446-503 | And such a message always removes it |
| `QueueProtocol.StaysQueued` | podping/src/main.rs:446-503 | In every run a queued url stays queued until such a message is processed |
| `QueueProtocol.NoSpuriousResend` | podping/src/main.rs:189-368 | In every run, between two successful hive sends of a url there is a new row, a Live or LiveEnd re-add, or a reset of its row more than 180 seconds after it was last added, re-added or reset |
| `QueueProtocol.ReaddReachesWriter` | podping/dbif/src/lib.rs:231-268 | In every run after a Live or LiveEnd re-add: if the batch does not hold the url with other data, every send carries the new data; if moreover the url is not waiting for its mark, the row is in flight only after such a send |
| `QueueProtocol.ReaddMissed` | podping/src/main.rs:217-300 | If the batch does hold it with other data, some run sends the old data after the re-add |
| `QueueProtocol.ReaddSwallowed` | podping/src/main.rs:217-300 | If the batch holds the url with other data, or the url is waiting for its mark, some run puts the row in flight without sending the new data |
| `QueueProtocol.ReaddSafeIff` | podping/src/main.rs:217-300 | In every reachable state: the new data goes out before the row is in flight, in every later run, if and only if neither is the case |
| `QueueProtocol.BatchGoesOut` | podping/src/main.rs:217-300 | Left alone, the sender sends the batch in order as fetched and marks the rows as they are by then |
| `QueueProgress.RoundEffect` | podping/src/main.rs:210-300 | A round with sends that succeed sends the fetched batch in order and puts exactly its rows in flight |
| `QueueProgress.EveryRowGoesOut` | podping/src/main.rs:189-368 | With sends that succeed and nothing added, removed or reset, every eligible row goes out within as many rounds as there are batches of 1000 in the rows not in flight, whatever the queue answers and whatever is ahead of it |
| `QueueProgress.Reach` | podping/src/main.rs:210-300 | From every idle state with unique row ids, any eligible row can be brought to the head of the batch, all at one time |
| `QueueProgress.RowidsUnique` | podping/dbif/src/lib.rs:216-324 | In every run row ids are unique, so that the fetch order is total |
| `QueueHistory.RenewedBetween` | podping/src/main.rs:189-368 | Between two sends there is an action that adds, re-adds or resets the url |
| `QueueHistory.ResendCause` | podping/src/main.rs:189-368 | In every run, if the url is queued when it is first sent, a second send has a re-add, a reset, or a removal on a writer's word and then a new add in between |
| `QueueHistory.ResendWithoutRemoval` | podping/src/main.rs:446-503 | If it is not queued, some continuation, with a clock that does not go back, sends it again with none of these in between, whatever is ahead of it in the queue |
| `QueueHistory.ResendIff` | podping/src/main.rs:189-368 | The two together, over all continuations with a clock that does not go back: an exact condition on the state of the first send |
| `QueueHistory.RemovalBeforeBothSends` | podping/src/main.rs:446-503 | Runs from the empty queue with two sends, a new row between them and the removal before both |
| `QueueHistory.LiveReaddSwallowed` | podping/src/main.rs:271-300 | Runs from the empty queue in which a Live re-add of a fetched url ends in flight with only the update sent |
| `QueueHistory.LiveReaddSwallowedByMark` | podping/src/main.rs:278-290 | The same with the re-add between the send and the mark: nothing is sent after it |
| `QueueHistory.ResetRightAfterMark` | podping/dbif/src/lib.rs:292-311 | A row added more than 180 seconds ago is reset as soon as it is marked and goes out again sixteen seconds later |
| `SplitAdds.SplitRunsAreRuns` | podping/dbif/src/lib.rs:216-268 | Every run in which inserts and updates are separate steps ends like a run with whole adds, so all results about runs carry over |
| `SplitAdds.QueuedLaterIff` | podping/src/main.rs:446-503 | A queued url is queued later in a run if and only if every removal of it in between was made good by a new row |
| `SplitAdds.AcceptedIsQueuedIff` | podping/dbif/src/lib.rs:231-268 | An accepted Live or LiveEnd add of a queued url is queued with its data after its update under exactly that condition |
| `SplitAdds.LiveAddLost` | podping/dbif/src/lib.rs:231-268 | A Live add that is accepted and not queued |
| `QueueChecker.Checker.CheckQueue` | podping/src/main.rs:189-368 | One round of the loop, with any web requests before each of its database calls and sends, is a run of the protocol; what was fetched goes out in order up to the first failed send, and a quiet round ends with a reset |
| `QueueChecker.Checker.SendBatch` | podping/src/main.rs:217-334 | Sends exactly the longest prefix of the batch whose sends succeed, marking each |
| `QueueChecker.Checker.SendNext` | podping/src/main.rs:217-334 | One ping: sent, marked and followed by a look at the sockets, or the batch given up |
| `QueueChecker.Checker.ReceiveMessage` | podping/src/main.rs:428-512 | Deletes exactly the urls the message names, with repetitions, and says whether to read on |
| `QueueChecker.Checker.ReceiveAll` | podping/src/main.rs:202-207 | One hive message, and the gossip messages up to the first that ends the reading, are acted on |
| `ReceiverActor.GossipReceiverActor.RegisterNext` | dtt-fork/src/gossip/receiver.rs:190-204 | Hands the oldest unread event to the caller, or lets it wait |
| `ReceiverActor.GossipReceiverActor.OnStream` | dtt-fork/src/gossip/receiver.rs:114-184 | What the actor does with an event, an error or the end of the stream, replies included |
| `ReceiverActor.GossipReceiverActor.OnEvent` | dtt-fork/src/gossip/receiver.rs:138-183 | An event is queued, handed to the longest waiting caller, or refused with 1001 unread |
| `ReceiverActor.GossipReceiverActor.DismissAll` | dtt-fork/src/gossip/receiver.rs:118-120 | All waiters are told of the end, longest waiting first |
| `ReceiverActor.Rendezvous` | dtt-fork/src/gossip/receiver.rs:106-205 | In every run the k-th handover gives the k-th accepted event to the k-th caller; waiters and unread events never coexist; at most 1001 unread; a stopped actor leaves nobody waiting |
| `ReceiverActor.FarewellsFromActions` | dtt-fork/src/gossip/receiver.rs:116-131 | In every run the farewells are those the actions call for: an error for the longest waiting caller, the end for the others, in order, and nothing otherwise |
| `ReceiverActor.ErrorReachesOldestWaiter` | dtt-fork/src/gossip/receiver.rs:123-131 | A stream that fails with callers waiting hands its error to the longest waiting one and tells the others of the end, whatever happens afterwards |
| `ReceiverActor.ErrorsComeFromTheStream` | dtt-fork/src/gossip/receiver.rs:123-131 | A caller is told of an error only if the stream failed with it |
| `ReceiverActor.HandedAliveIff` | dtt-fork/src/gossip/receiver.rs:150-157 | A handover finds its caller alive exactly if it was not cancelled before |
| `ReceiverActor.WindowIsRecent` | dtt-fork/src/gossip/receiver.rs:106-172 | In every run the window holds the last five hashes of the messages that arrived with nobody waiting, read off the actions; and the actor runs, with callers waiting and events unread, as the balance of calls and events says |
| `ReceiverActor.HashRecordedIff` | dtt-fork/src/gossip/receiver.rs:150-172 | A received message leaves its hash if and only if nobody was waiting and it was queued |
| `ReceiverActor.EagerCallerLeavesNoHashes` | dtt-fork/src/gossip/receiver.rs:150-172 | A caller that asks before each message keeps the window empty for any messages |
| `Bytes.LittleRoundTrip` | dtt-fork/src/crypto/record.rs:362-362 | A number that fits its width survives; a larger one reads back as one that fits |
| `Bytes.LittleRestores` | dtt-fork/src/crypto/record.rs:389-389 | Reading and writing back restores the bytes |
| `Bytes.LittleByte` | dtt-fork/src/crypto/record.rs:400-400 | The byte at each position of a little-endian number |
| `Bytes.BigByte` | gossip-listener/src/main.rs:461-461 | The byte at each position of a big-endian number |
| `RecordCodec.ToBytes` | dtt-fork/src/crypto/record.rs:397-405 | Topic, minute, key, content and signature, in that order |
| `RecordCodec.RecordLayout` | dtt-fork/src/crypto/record.rs:397-405 | Where each field lies in the bytes, the minute with its least significant byte first |
| `RecordCodec.RecordRoundTrip` | dtt-fork/src/crypto/record.rs:375-405 | Every record comes back from its bytes |
| `RecordCodec.RecordBijection` | dtt-fork/src/crypto/record.rs:375-394 | Exactly the byte strings of at least 136 bytes decode, and each is the encoding of its result; the others panic |
| `RecordCodec.SealedToBytes` | dtt-fork/src/crypto/record.rs:325-332 | Length cut to 32 bits, record, key |
| `RecordCodec.EnvelopeLayout` | dtt-fork/src/crypto/record.rs:325-332 | Where length, record and key lie, the length with its least significant byte first |
| `RecordCodec.EnvelopeRoundTripIff` | dtt-fork/src/crypto/record.rs:325-345 | The envelope round-trips if and only if its first part is shorter than 2^32 bytes |
| `RecordCodec.EnvelopeRestores` | dtt-fork/src/crypto/record.rs:335-345 | Which byte strings decode, and each of them is the encoding of its result |
| `RecordCodec.Sign` | dtt-fork/src/crypto/record.rs:350-372 | The signature covers topic, minute, node id and content |
| `RecordCodec.Verify` | dtt-fork/src/crypto/record.rs:408-424 | The bytes checked are the encoding without its last 64 bytes: the bytes that were signed; the order of the refusals |
| `RecordCodec.SignedDataInjective` | dtt-fork/src/crypto/record.rs:358-363 | The signed bytes determine every field |
| `RecordCodec.VerifiesIffSigned` | dtt-fork/src/crypto/record.rs:350-424 | With an ideal signature, a record verifies for a topic and minute if and only if it was signed for them with the key it names |
| `RecordCodec.TransportKeepsVerdict` | dtt-fork/src/crypto/record.rs:375-424 | A record signed with its own key, encoded and decoded, verifies for exactly its topic and minute |
| `Catchup.Serve` | gossip-listener/src/main.rs:452-466 | At most 50,000 payloads, each behind its length |
| `Catchup.FrameLayout` | gossip-listener/src/main.rs:461-465 | The length with its most significant byte first, then the payload |
| `Catchup.StreamDelivers` | gossip-listener/src/main.rs:570-588 | The client takes exactly the payloads before the first empty or oversized one |
| `Catchup.StreamRoundTripIff` | gossip-listener/src/main.rs:460-588 | The payload list comes back if and only if every length is in 1..10,000,000 |
| `Catchup.TruncationGivesPrefix` | gossip-listener/src/main.rs:571-588 | Any byte stream cut anywhere gives a prefix of what the whole gives |
| `Catchup.Archive.Store` | gossip-listener/src/archive.rs:38-87 | Both tables ignore what they hold already and keep the rest; a new message is filed under its hash with its time, and described in the manifest under the hour of its timestamp |
| `Catchup.Archive.MessagesSince` | gossip-listener/src/archive.rs:91-101 | Each row from that time on once, oldest first |
| `Catchup.Archive.LatestTimestamp` | gossip-listener/src/archive.rs:104-110 | The newest entry's time, none exactly for an empty archive |
| `Catchup.Archive.RunCatchup` | gossip-listener/src/main.rs:569-614 | The loop files exactly the acceptable payloads of the stream, in order, and counts them |
| `Catchup.AcceptedMembers` | gossip-listener/src/main.rs:589-592 | A payload is accepted exactly if it parses and its sender is trusted, or nothing is |
| `Catchup.StoringAgainChangesNothing` | gossip-listener/src/archive.rs:55-84 | Filing again any items already filed, in any order and at any time, changes neither table |
| `Catchup.PutAllBodies` | gossip-listener/src/archive.rs:38-87 | Without hash collisions the archive then holds what it held and what was filed, nothing else |
| `Catchup.InterruptedThenComplete` | gossip-listener/src/main.rs:569-614 | A catch-up cut anywhere and then a complete one archive the same messages as the complete one alone |
| `Catchup.CatchupDelivers` | gossip-listener/src/main.rs:424-614 | From server archive to client archive, for any server: the client ends with exactly its own messages and the acceptable ones among the first 50,000, up to the first empty or oversized one |
| `Catchup.CatchupComplete` | gossip-listener/src/main.rs:424-614 | With at most 50,000 matching messages, each of a length the client takes, it ends with all acceptable messages the server archived since then |
| `Catchup.CappedRestIsNotOffered` | gossip-listener/src/main.rs:452-458 | After a capped catch-up that stored anything new, what lay past the cap, which is no older than what was sent, is not offered again |
| `Catchup.InterruptedCatchupIsNotResumed` | gossip-listener/src/main.rs:1411-1421 | If anything new was stored, nothing the server held before is offered the next time |
| `Catchup.ResumedIff` | gossip-listener/src/main.rs:1411-1421 | Whatever the clocks say: a message offered once is offered again if and only if no row stored in between is newer than it and, for a client that is still empty, it is less than a day old |
| `Catchup.ResumedIffNothingNew` | gossip-listener/src/main.rs:1411-1421 | With every store in a later second than the one in which the catch-up began, and a message archived by then: it is offered again if and only if nothing delivered in between was new (and, for an empty archive, it is less than a day old) |
| `Bootstrap.TryPeers` | dtt-fork/src/gossip/topic/bootstrap.rs:201-222 | Peers are tried in turn until a join is seen |
| `Bootstrap.BootstrapRound` | dtt-fork/src/gossip/topic/bootstrap.rs:113-265 | One round of the loop: every question, look, request, wait and record in order, and when it ends |
| `Bootstrap.FinalCheck` | dtt-fork/src/gossip/topic/bootstrap.rs:225-264 | The question after the last request, the wait if the answer is no, and the final question |
| `Bootstrap.PublishOnce` | dtt-fork/src/gossip/topic/bootstrap.rs:140-162 | A record only for a minute not dealt with before |
| `Bootstrap.StartBootstrap` | dtt-fork/src/gossip/topic/bootstrap.rs:104-273 | The loop over any number of rounds |
| `Bootstrap.CompletionIff` | dtt-fork/src/gossip/topic/bootstrap.rs:113-268 | Completion is signalled if and only if the latest answer about the join state was yes |
| `Bootstrap.EventsInOrder` | dtt-fork/src/gossip/topic/bootstrap.rs:113-265 | In every run each join request directly follows a no, apart from refused requests in between, so the question is asked again after each look at the records and each accepted request; each record is published on a fresh no; the answers are those given |
| `Bootstrap.PublishedIncreasing` | dtt-fork/src/gossip/topic/bootstrap.rs:121-246 | Under a clock that never goes back, from minute 2 on, the minutes published for strictly increase, at most one per minute passed and one before |
| `Bootstrap.PublishedExactly` | dtt-fork/src/gossip/topic/bootstrap.rs:121-246 | Exactly the minutes published for, told by the clock alone: the one before in the first round, later that of every round with a new one, as far as records can be signed |
| `Bootstrap.EveryMinuteCovered` | dtt-fork/src/gossip/topic/bootstrap.rs:139-262 | If records can be signed, every round that does not end the loop leaves a record published for the minute it looked at |

## Left out

- Floating-point rounding: betweenness and scores are reals.
- Iteration order of hash maps and sets is arbitrary; SQLite's choice among rows of equal time or among stuck rows is arbitrary too.
- SplitIrisToFit: the clock is read once for all measurements of one call; the source reads it for each, which can change a length only when the number of decimal digits of the time changes.
- Flush: reads the clock once; `FinalPayloadBound` covers any later timestamp. The archive write of a flushed notification is left out.
- Note: does not model that `last + 1` overflows after a sender used the largest 64-bit number. It is given the notifications from accepted senders that carry a number.
- HandleEndorse: an endorsement without sender or without key list does nothing in the source and is not a message of the model; friendly names and the trust file are left out.
- Add: is the failed insert and the update that follows in one step; `SplitAdds` takes them apart.
- EveryRowGoesOut: is about rounds without web requests and writer messages in between.
- CheckQueue: database calls succeed and the mode is not ephemeral; sockets, their replacement after a failed send and the gossip socket's own sends are only seen through their outcomes. A transaction without podpings counts as one that names no url.
- ResetInflight: the row limit on an update needs an SQLite build option; the model takes the statement at its word.
- OnPayload: timeouts and errors of a broadcast are both failures; endpoint and router replacement and the counters shared with other tasks are left out, as is the shutdown flag.
- CatchupDelivers: takes payloads shorter than 2^32 bytes, which is all that the archive's database can hold; `StreamRoundTripIff` covers every length.
- RunCatchup: the trusted set does not change during one catch-up, the archive is present and its writes succeed; finding a peer, the live stream and the notification time are left out.
- ResumedIff: the subtraction of a day from the clock is one of integers; it would fail in the source before 2 January 1970.
- StartBootstrap: the record lookup, the join requests and the publishing itself are outcomes given from outside; the source's loop has no bound, and every finite number of its rounds is covered.
- Ed25519, HPKE, SHA-512 and BLAKE3: signatures are ideal, hashes are arbitrary functions with collisions excluded where stated; encryption of records, key derivation, `get_records` and the serialisation of record contents are not modelled.
- JSON parsing in the catch-up client is an arbitrary function from payloads to notifications; the reader in `NotificationReader` takes the writer's own layout only, not JSON at large.
- Transport, routers, ZMQ and Cap'n Proto framing, the DHT client: foreign calls, seen through success, failure and messages.
- Neighbour counters, reconnect, watchdog and health tasks; `gossip-monitor/src/swarm.rs`, whose snapshot is an input; the bubble and overlap merge actors; web server, router, authorisation, event streaming, metrics, key files and printing: wiring or easy members.
- That an acknowledged ping was broadcast is not claimed: it is false, as noted above for the full channel.
