# EdgeZ mesh bridge: tables, protocols and buffers

A Dafny model of the firmware's mesh bridge and of the three smaller cores
around it. The firmware keeps its state in fixed-size tables that are scanned by
loops and updated in place under short locks. Each such table is a class here,
with the array, the loops and the same order of decisions; each of its methods
is proved equal to a step function on sequences, and what the table is *for* is
then proved about that step function: over one call, over whole runs, or over
every interleaving of the tasks that share it.

| file | what it models |
|---|---|
| Words, Scan | machine words, the wrapping millisecond clock, index scans |
| Dedupe | the time-windowed delivery dedupe, against an unbounded map |
| PullEngine, PullChunks, PullProtocol | the global-buffer pull: critical sections, what is sent, all interleavings of starters and worker |
| SeenFilter, SeenHistory, Mesh | the seen-message ring, its history, and forwarding in a mesh of such nodes |
| Reliable, ReliableRuns | the pending/ACK/retry table and its interleavings |
| BleFrames | BLE frame encoder, reassembly and frame check |
| RoutePins, RoutePinRuns | sticky waypoints of speed-test transfers: the pin table, and calls from several tasks |
| VoiceQueue, VoiceRace | the realtime transmit queue, alone and with racing producers |
| ScriptUpload | the chunked script upload |
| Topology, TopologyRuns, TopologyLive | the peer table and its report, over runs |
| Ota | the firmware update session |
| ScriptText, ScriptJoin, ScriptIndex, ScriptStore | the script store: trimming, joining, sorted index, flash |
| ScriptRuns, ScriptReadable | the store over runs with flash errors and power cycles: what is lost, and what can be read back |
| Mmpkt | packet buffer layout and the byte deque inside |

How the modelling is done:

- One critical section is one atomic step. Calls into other code (route lookup,
  radio send, flash, allocation) answer arbitrarily, through a parameter or an
  event. The binary semaphore over the snapshot that pulls are served from is
  part of the model, with its publisher.
- True time is a natural number. The code only ever sees it modulo 2^32, through
  `Ticks` and `Elapsed`; a reading older than a wrap, or older than the stamp it
  meets, is *misread* (`Words.Misread`).
- Several functions read the clock before they take the lock. The steps take the
  reading as a parameter that may be older than the step; what then goes wrong, and
  exactly when it does not, is listed first among the findings below.

Findings about the code, each with the lemma that shows it and the one that gives
the exact condition:

- a clock reading taken before the lock can make a duplicate look new and drop a
  live entry from a table with room (`Dedupe.StaleReadingEvictsLive`;
  `Dedupe.AnswerIsRightIff`, `Dedupe.LiveIsOverwrittenIff`), make a fresh retry
  entry due (`ReliableRuns.StaleReadingIsDueAtOnce`; `ReliableRuns.DueIsRightIff`),
  leave a connected peer out of the report (`TopologyRuns.StaleReadingOmitsPeer`;
  `TopologyRuns.ConnectedListIsRightIff`), move a transfer off its waypoint
  (`RoutePins.StaleReadingMovesTransfer`; `RoutePins.PinAnswersIff`) and evict the pin
  used last (`RoutePins.StaleReadingEvictsNewest`; `RoutePins.PutEvictsOldestIff`);
- after a clock wrap a full table gives up the newest entry instead of the oldest
  (`Topology.WrapEvictsNewest`; `Topology.EvictionTakesLeastRecentIff`,
  `Dedupe.LiveVictimIsOldestIff`, `ReliableRuns.StoreEvictsOldestIff`);
- overlapping calls for one transfer can pin it twice
  (`RoutePinRuns.OverlapIsReachable`; `RoutePinRuns.RunKeepsUniqueIff`);
- a framing error makes the frames delivered depend on how writes were cut
  (`BleFrames.GarbageDependsOnSplit`; `BleFrames.SplitDoesNotMatterIff`);
- two overlapping producers can lose two realtime frames and count one
  (`VoiceRace.OverlapIsReachable`; `VoiceRace.CounterIsCompleteIff`);
- an upsert or delete that flash fails halfway leaves an index entry that no aggregate
  can read: at once when a shorter script is not written, from the next power-up on when
  a longer script is written or a script erased and the index is not
  (`ScriptReadable.FailedShrinkBlocksAggregates`,
  `ScriptReadable.UnindexedGrowthBlocksAggregates`,
  `ScriptReadable.UnindexedEraseBlocksAggregates`; `ScriptReadable.StaysHealthyIff`);
- an index that the first call after boot cannot read is overwritten by the next upsert
  (`ScriptRuns.BlindUpsertLosesIndex`; `ScriptRuns.SavedEntryIsLostIff`);
- a seventh peer within five minutes costs one of them its slot and its place in the
  report (`TopologyLive.CrowdedReportOmits`; `TopologyLive.RunForgetsIff`);
- a packet request whose sizes wrap is accepted (`Mmpkt.WrappedRequestIsAccepted`;
  `Mmpkt.SaneIsGoodIff`);
- the second blank-trimming loop of the trailer check never drops anything
  (`ScriptText.LastLineHasNoBlanksLeft`).

## Model

| member | source | states |
|---|---|---|
| `Words.ElapsedIsModular` | main/src/mesh/halow_sync_bridge.c:892-908 | an unsigned difference of two 32-bit stamps is the true difference modulo 2^32 |
| `Words.ElapsedIsTrueAge` | main/src/mesh/halow_sync_bridge.c:892-908 | within one wrap of the clock that difference is the real age of the stamp |
| `Words.ElapsedOfStaleReading` | main/src/mesh/halow_sync_bridge.c:892-908 | a clock reading taken before the stamp makes the stamp look almost 2^32 ms old |
| `Words.TicksKeepOrder` | main/src/mesh/halow_sync_bridge.c:918-921 | comparing raw stamps orders the times only between two wraps of the clock |
| `Words.WindowIsRightIff` | main/src/mesh/halow_sync_bridge.c:892-915 | for every reading and stamp: a window test on the unsigned difference is right exactly when the stamp is not misread, that is, neither older than a wrap and looking young nor newer than the reading and looking old |
| `Scan.SmallestStampIsEarliestIff` | main/src/mesh/halow_sync_bridge.c:918-921 | of stamps at most one wrap old the smallest belongs to the earliest time if and only if no clock wrap lies between them |
| `Dedupe.DedupeTable.CheckAndAdd` | main/src/mesh/halow_sync_bridge.c:886-937 | the scan and the write leave the 32 slots, and give the answer, that the one-call specification `Present` prescribes (first live match, else first expired slot, else first free slot, else smallest stamp) |
| `Dedupe.AnswerIsTheMaps` | main/src/mesh/halow_sync_bridge.c:886-937 | for a reading not older than any stamp and less than a wrap later: "duplicate" is never answered wrongly, and while nothing live has been forgotten it is answered exactly when the checksum was last presented at most 5000 ms ago |
| `Dedupe.PresentWritesOneSlot` | main/src/mesh/halow_sync_bridge.c:900-931 | one call writes exactly one slot and leaves no second live slot with the same checksum |
| `Dedupe.PresentStaysSound` | main/src/mesh/halow_sync_bridge.c:886-937 | no slot ever contradicts the map from checksum to last presentation time |
| `Dedupe.LiveVictimMeansFull` | main/src/mesh/halow_sync_bridge.c:918-931 | when no stamp is newer than the reading, a live entry is overwritten only when all 32 slots are live with other checksums |
| `Dedupe.LiveVictimIsOldest` | main/src/mesh/halow_sync_bridge.c:918-931 | and it is then the one presented least recently, unless a clock wrap lies between the stamps |
| `Dedupe.LiveVictimIsOldestIff` | main/src/mesh/halow_sync_bridge.c:918-931 | it is the one presented least recently if and only if no clock wrap lies between the 32 stamps |
| `Dedupe.PresentStaysCompleteIff` | main/src/mesh/halow_sync_bridge.c:886-937 | a call forgets nothing live if and only if at most 32 distinct checksums are live after it |
| `Dedupe.RunRefinesMap` | main/src/mesh/halow_sync_bridge.c:886-937 | every answer of a whole run (calls in clock order, at most 32 live checksums, no stamp older than a wrap) is the answer of the unbounded map |
| `Dedupe.FreshTableRefinesMap` | main/src/mesh/halow_sync_bridge.c:886-937 | the same from the empty table of boot |
| `Dedupe.OverflowForgets` | main/src/mesh/halow_sync_bridge.c:918-931 | one live checksum too many always loses one, which is then delivered a second time within its window |
| `Dedupe.StaleReadingMissesDuplicate` | main/src/mesh/halow_sync_bridge.c:892-908 | the clock is read before the lock: a reading older than the stored stamp misses the duplicate |
| `Dedupe.WrapRevivesStamp` | main/src/mesh/halow_sync_bridge.c:892-915 | a stamp left alone for exactly one wrap of the clock answers "duplicate" again |
| `Dedupe.AnswerIsRightIff` | main/src/mesh/halow_sync_bridge.c:892-915 | for every reading, early or late: the answer about a remembered checksum is right, in true time, exactly when the reading does not misread its stamp |
| `Dedupe.RecentIsDuplicateIff` | main/src/mesh/halow_sync_bridge.c:892-915 | after a recent presentation the answer is "duplicate" exactly when the clock was not read before the stamp was written |
| `Dedupe.LiveIsOverwrittenIff` | main/src/mesh/halow_sync_bridge.c:900-931 | a new entry overwrites a live one exactly when all slots are live, or a slot newer than the reading comes before every expired one |
| `Dedupe.StaleReadingEvictsLive` | main/src/mesh/halow_sync_bridge.c:892-931 | with 31 slots free a reading of 9 still overwrites the entry stamped 10, whose message is then delivered twice |
| `PullEngine.Transfer.ResetState` | main/src/mesh/halow_sync_bridge.c:2375-2396 | everything is cleared and the caller is told whether it now owns the pin to give back |
| `PullEngine.Transfer.SkipFinished` | main/src/mesh/halow_sync_bridge.c:2435-2441 | the loop leaves the targets and the index that `Skip` defines: at the first target with bytes left |
| `PullEngine.ResetClears` | main/src/mesh/halow_sync_bridge.c:2375-2396 | cleared means no data, no counts, no flags and blank targets |
| `PullEngine.PrepareServesFirstUnfinished` | main/src/mesh/halow_sync_bridge.c:2435-2478 | with any number of targets the first one with bytes left is served, those before it are given up and no other is touched |
| `PullEngine.CommitMovesOn` | main/src/mesh/halow_sync_bridge.c:2555-2572 | a successful send moves its target on; the last byte ends it and brings the next one, after the last of which the transfer is complete |
| `PullChunks.PlanIsInside` | main/src/mesh/halow_sync_bridge.c:2742-2760 | a planned pull is a non-empty part of the snapshot |
| `PullChunks.InstallServes` | main/src/mesh/halow_sync_bridge.c:2742-2779 | after installation the engine owes exactly the planned bodies |
| `PullChunks.PrepareSendsFirstOwed` | main/src/mesh/halow_sync_bridge.c:2426-2513 | the worker's copy is the first body owed, read inside the pinned snapshot |
| `PullChunks.PrepareLabelsChunk` | main/src/mesh/halow_sync_bridge.c:2446-2510 | it goes to the target through its next hop, under the message id of the transfer, with the next sequence number, in the group asked for, or, when none was, in one named by the low half of that id |
| `PullChunks.CommitPaysFirstOwed` | main/src/mesh/halow_sync_bridge.c:2555-2572 | a successful send pays exactly one body; the transfer completes exactly with the last one |
| `PullChunks.RestConcatenates` | main/src/mesh/halow_sync_bridge.c:2461-2478 | the bodies between two offsets concatenate to that part of the snapshot |
| `PullChunks.FullPullRebuilds` | main/src/mesh/halow_sync_bridge.c:2448-2513 | a full pull numbers its bodies 0, 1, 2, ... and placing body k at 220*k gives the snapshot back |
| `PullChunks.FullPullRebuildsIff` | main/src/mesh/halow_sync_bridge.c:2456-2478 | for any length below 2^32 behind the interface, count, numbering and rebuilding are right if and only if the snapshot has at most 65535*220 bytes |
| `PullChunks.FirmwarePullRebuilds` | main/src/sampling/sampling.c:131-132 | the serving buffer holds at most 16 KiB, so every full pull of this firmware rebuilds, in at most 75 chunks |
| `PullChunks.SingleChunkPullMatchesFull` | main/src/mesh/halow_sync_bridge.c:2742-2760 | a request for chunk k is served body k of the full pull, and refused exactly when there is none or no group is named |
| `PullProtocol.StepKeepsGood` | main/src/mesh/halow_sync_bridge.c:2375-2790 | every step of any starter or of the worker keeps one owner of the slot, the pin count and the remaining plan |
| `PullProtocol.PinsBalance` | main/src/mesh/halow_sync_bridge.c:2375-2790 | in every interleaving releases never exceed acquires, at most one pin is out, and when all have finished acquires equal releases and the semaphore is free |
| `PullProtocol.PendingMeansPinned` | main/src/mesh/halow_sync_bridge.c:1723-1735 | a pending send means active, pinned, non-NULL data, and no starter inside its reservation |
| `PullProtocol.CopyReadsPinnedSnapshot` | main/src/mesh/halow_sync_bridge.c:2426-2513 | whenever the worker copies, it copies in bounds from the published snapshot, whose semaphore is still taken |
| `PullProtocol.ThreadsNeverBlock` | main/src/mesh/halow_sync_bridge.c:1811-2790 | no reachable starter or worker is stuck on a side condition of the model |
| `PullProtocol.SentIsPrefixOfPlan` | main/src/mesh/halow_sync_bridge.c:2426-2603 | what has gone out while a transfer runs is a proper prefix of what its request is served out of the pinned snapshot, under one group id |
| `PullProtocol.CompletionSendsPlan` | main/src/mesh/halow_sync_bridge.c:2555-2590 | a successful send completes the transfer exactly when it is the last of the plan of the request over the pinned snapshot; the receiver of a full pull then holds that snapshot, of a single chunk that body |
| `PullProtocol.ChunksAreAddressed` | main/src/mesh/halow_sync_bridge.c:2446-2603 | in every interleaving each chunk that went out for a request went to its requester, through the next hop looked up for it, under the one message id drawn, in the group the request names or else in one named by the low half of that id |
| `PullProtocol.VerdictIs` | main/src/mesh/halow_sync_bridge.c:2686-2715 | a request is let in exactly when the slot is free, and is called a duplicate exactly when the slot is held for the same requester and message id |
| `PullProtocol.ArrivalHoldsIff` | main/src/mesh/halow_sync_bridge.c:2681-2699 | an arriving request reserves the slot exactly when its 48-bit requester is neither zero nor broadcast and the slot is free |
| `PullProtocol.AcquirePinsIff` | main/src/sampling/sampling.c:1184-1208 | a starter pins the published snapshot exactly when there is one and nobody has it pinned |
| `PullProtocol.JudgeServesIff` | main/src/mesh/halow_sync_bridge.c:2731-2779 | a granted snapshot is served exactly when it has the expected length and the chunk asked for; otherwise it is given back and the transfer left alone |
| `PullProtocol.FreeSlotServes` | main/src/mesh/halow_sync_bridge.c:2672-2790 | a request that finds slot and snapshot free, and that the snapshot can serve, becomes the transfer the worker is told to send |
| `PullProtocol.FailureFrees` | main/src/mesh/halow_sync_bridge.c:2418-2603 | a failed send, or an unknown own address, ends the transfer; after its clean-up slot and snapshot are free |
| `PullProtocol.OnlyPublishReplaces` | main/src/sampling/sampling.c:1152-1181 | nothing but a publication changes what is served, and none happens while it is pinned |
| `PullProtocol.PublishKeepsGood` | main/src/sampling/sampling.c:1152-1181 | a publication, which waits while a pull has the serving buffer pinned, keeps every invariant |
| `PullProtocol.TransferGoesOn` | main/src/mesh/halow_sync_bridge.c:2555-2590 | in any interleaving in which the worker's copies and sends succeed a transfer goes on, one body a send, until its plan is used up |
| `PullProtocol.TransferTakesPlanSends` | main/src/mesh/halow_sync_bridge.c:2555-2590 | and completes with exactly as many sends as the plan has bodies |
| `SeenFilter.SeenTable.DropHigherHop` | main/src/mesh/halow_sync_bridge.c:1421-1471 | ring slots and replace index behave as a 32-entry FIFO of best hops: state, drop answer and reported best hop |
| `SeenFilter.InsertIsFifoPush` | main/src/mesh/halow_sync_bridge.c:1459-1468 | overwriting the replace slot is pushing on the FIFO and losing its oldest entry when full |
| `SeenFilter.HitIsArrival` | main/src/mesh/halow_sync_bridge.c:1433-1457 | updating the matching slot is the arrival of a held key at the FIFO |
| `SeenFilter.MissIsArrival` | main/src/mesh/halow_sync_bridge.c:1459-1470 | overwriting the replace slot is the arrival of a new key at the FIFO |
| `SeenHistory.ArriveFollowsTrail` | main/src/mesh/halow_sync_bridge.c:1433-1470 | the answer is the fold of all hops since insertion, dropping exactly when 0 < best < hop |
| `SeenHistory.TrackedArrival` | main/src/mesh/halow_sync_bridge.c:1421-1471 | any message whose id is not 0-0 is held after its arrival, with its hop folded in, and dropped exactly when a smaller hop other than 0 was held |
| `SeenHistory.ZeroIdIsNeverHeld` | main/src/mesh/halow_sync_bridge.c:1427-1429 | a message with id 0-0 is never held and never dropped, whatever its sequence |
| `SeenHistory.BestIsFoldSinceInsertion` | main/src/mesh/halow_sync_bridge.c:1421-1471 | over any run each held key's best hop is that fold |
| `SeenHistory.FoldIsMinimumSinceZero` | main/src/mesh/halow_sync_bridge.c:1441-1453 | the fold is the least hop since the last hop-0 arrival, 0 when none followed |
| `SeenHistory.HoldsLastInserted` | main/src/mesh/halow_sync_bridge.c:1459-1468 | the table holds exactly the last 32 inserted keys, oldest first |
| `SeenHistory.KeysStayDistinct` | main/src/mesh/halow_sync_bridge.c:1433-1468 | held keys are pairwise distinct in every run |
| `SeenHistory.PassedHopsNeverIncrease` | main/src/mesh/halow_sync_bridge.c:1441-1453 | for one key by itself, the hops that pass never increase without a hop-0 copy |
| `SeenHistory.UndroppedHopsNeverIncrease` | main/src/mesh/halow_sync_bridge.c:1421-1471 | over any run of arrivals of any keys in which a key stays held and no hop-0 copy of it comes, the hops of its undropped copies never increase |
| `SeenHistory.ZeroReopensFilter` | main/src/mesh/halow_sync_bridge.c:1441-1447 | after a hop-0 copy the next copy passes whatever its hop |
| `Mesh.FilterKeepsInv` | main/src/mesh/halow_sync_bridge.c:1421-1471 | one filter call at one node keeps what every earlier relay of every copy relies on |
| `Mesh.PassedCopyIsNew` | main/src/mesh/halow_sync_bridge.c:4966-4984 | a copy that passes a node leaves a best hop no larger than its own and had not passed there in that epoch |
| `Mesh.DeliverKeepsInv` | main/src/mesh/halow_sync_bridge.c:4944-5033 | receiving, filtering and relaying with hop + 1 keeps the invariant of the mesh |
| `Mesh.DeliveryFollowsRule` | main/src/mesh/halow_sync_bridge.c:4966-5033 | a copy with any id but 0-0 is dropped exactly when its node holds a smaller hop other than 0; otherwise a copy with hop + 1 goes to each destination; the node then holds the key |
| `Mesh.ZeroIdIsForwarded` | main/src/mesh/halow_sync_bridge.c:1427-1429 | a message with id 0-0 goes on every time and leaves no trace in the table |
| `Mesh.EpochEndsIff` | main/src/mesh/halow_sync_bridge.c:1433-1470 | an epoch ends only where a copy arrives with hop 0 or is not held |
| `Mesh.NoForwardingLoop` | main/src/mesh/halow_sync_bridge.c:4944-5033 | no forwarding chain passes a node twice with hop at least 1 between two hop-0 arrivals while the key stays in that node's table |
| `Mesh.ChainIsShort` | main/src/mesh/halow_sync_bridge.c:4944-5033 | so within one such span a chain is at most one longer than the number of nodes |
| `Mesh.NodeHopsNeverIncrease` | main/src/mesh/halow_sync_bridge.c:4966-4984 | the same at each node of the mesh in every run, over the filter calls made there |
| `Mesh.TableFollowsRun` | main/src/mesh/halow_sync_bridge.c:4966-4984 | those filter calls are what the node's table went through |
| `Reliable.PendingTable.Store` | main/src/mesh/halow_sync_bridge.c:1606-1662 | a store writes one slot (same key, else first free, else smallest stamp) with attempt 1 and a 250..1200 ms timeout; empty and oversized packets change nothing |
| `Reliable.PendingTable.Acknowledge` | main/src/mesh/halow_sync_bridge.c:1676-1693 | an ACK clears every entry of the message with its sequence, or all of them for sequence 0, and reports whether there was one |
| `Reliable.PendingTable.IsActive` | main/src/mesh/halow_sync_bridge.c:1704-1721 | the liveness check finds the entry exactly when it is valid |
| `Reliable.PendingTable.RetryScan` | main/src/mesh/halow_sync_bridge.c:1834-1878 | one scan selects the first entry that is due and leaves what `ScanOnce` defines |
| `ReliableRuns.PassIsScan` | main/src/mesh/halow_sync_bridge.c:1834-1878 | the retry step of the interleaved machine is that scan, and hands its packet to the sender |
| `Reliable.TimeoutPerHop` | main/src/mesh/halow_sync_bridge.c:1618-1627 | 250 ms without or with a direct route, 180 ms more for each further hop, 1200 ms from six hops on |
| `Reliable.AckEndsOnlyItsOwn` | main/src/mesh/halow_sync_bridge.c:1676-1693 | an ACK ends what is pending under its message and sequence, every sequence for sequence 0, and nothing else |
| `Reliable.StoreEvictsIff` | main/src/mesh/halow_sync_bridge.c:1624-1654 | a store leaves its own message pending with one attempt and costs another its entry exactly when all 24 are valid and none is its own |
| `ReliableRuns.RetryGoesOutIff` | main/src/mesh/halow_sync_bridge.c:1896-1924 | a copied retry goes out, once and with the stored packet, exactly when its message is still pending; otherwise it is cancelled |
| `ReliableRuns.StoreStartsTrack` | main/src/mesh/halow_sync_bridge.c:1641-1654 | a store makes its message pending, with one transmission in its history |
| `ReliableRuns.GivenUpAfterThree` | main/src/mesh/halow_sync_bridge.c:1848-1856 | whatever else happened, an entry that the scan gives up has been sent exactly three times |
| `ReliableRuns.KeptUntilSentThrice` | main/src/mesh/halow_sync_bridge.c:1606-1924 | in every interleaving a message that is neither acknowledged nor stored over is pending or has been sent exactly three times |
| `ReliableRuns.StepKeepsInv` | main/src/mesh/halow_sync_bridge.c:1606-1924 | every step keeps one entry per key, attempts equal to the logged times, and sends within attempts |
| `ReliableRuns.OneEntryThreeTransmissions` | main/src/mesh/halow_sync_bridge.c:1606-1924 | in every interleaving there is at most one valid entry per (message, sequence) and at most three transmissions per store, counting the first |
| `ReliableRuns.StoreEvictsOldest` | main/src/mesh/halow_sync_bridge.c:1629-1650 | a store into a full table replaces the entry sent least recently, unless a clock wrap lies between the stamps |
| `ReliableRuns.StoreEvictsOldestIff` | main/src/mesh/halow_sync_bridge.c:1629-1650 | it replaces that entry if and only if no clock wrap lies between the 24 stamps |
| `ReliableRuns.SpacingKeptIff` | main/src/mesh/halow_sync_bridge.c:1834-1850 | a retry keeps its distance of one timeout if and only if the clock reading is not older than the stamp of the entry it selects |
| `ReliableRuns.TimelyRunIsSpaced` | main/src/mesh/halow_sync_bridge.c:1834-1924 | with reading and scan as one step all attempts are spaced by at least the stored timeout |
| `ReliableRuns.StaleReadingIsDueAtOnce` | main/src/mesh/halow_sync_bridge.c:1834-1850 | a reading taken before a store makes the new entry due immediately |
| `ReliableRuns.DueIsRightIff` | main/src/mesh/halow_sync_bridge.c:1834-1850 | for every reading: whether an entry counts as due is right exactly when the reading does not misread its stamp |
| `ReliableRuns.AckClearsKey` | main/src/mesh/halow_sync_bridge.c:1676-1693 | after a matching ACK the key is not pending |
| `ReliableRuns.KeyStaysCleared` | main/src/mesh/halow_sync_bridge.c:1676-1721 | no step but a store brings it back or passes it through the liveness check |
| `ReliableRuns.AtMostOneSendAfterAck` | main/src/mesh/halow_sync_bridge.c:1676-1924 | after an ACK with no new store there is at most one more transmission, one whose liveness check had already passed |
| `ReliableRuns.StepWeighsLess` | main/src/mesh/halow_sync_bridge.c:1836-1878 | each selecting pass lowers the sum of (4 - attempts); nothing but a store raises it |
| `ReliableRuns.TableEmpties` | main/src/mesh/halow_sync_bridge.c:1836-1878 | without further stores there are at most 72 selecting passes, after which the table is empty, whatever ACKs come in between |
| `ReliableRuns.OldEntryIsSelected` | main/src/mesh/halow_sync_bridge.c:1836-1850 | an entry 1200 ms old makes the next pass a selecting one |
| `BleFrames.CheckUndoesEncode` | main/src/protocol/edgez_frame_protocol.c:21-39 | the frame check accepts every encoded frame and returns its payload |
| `BleFrames.AcceptedIff` | main/src/protocol/edgez_frame_protocol.c:21-39 | exactly the encoded payloads of at most 512 bytes are accepted: the two magic bytes, the length low byte first, the payload |
| `BleFrames.WriteIsTakenIff` | main/src/platform/esp32/ble_control.c:771-794 | a write is taken exactly when it fits behind what is buffered, a full buffer being emptied first; a refused one leaves the rest as it is |
| `BleFrames.Receiver.DropFront` | main/src/platform/esp32/ble_control.c:695-698 | the memmove leaves exactly the bytes behind the frame |
| `BleFrames.Receiver.ProcessRx` | main/src/platform/esp32/ble_control.c:652-699 | the loop hands on the frames and keeps the bytes that the parser specification `Parse` defines |
| `BleFrames.Receiver.Write` | main/src/platform/esp32/ble_control.c:771-794 | one attribute write: what is refused, what is handed on, what stays buffered |
| `BleFrames.RestIsShort` | main/src/platform/esp32/ble_control.c:652-699 | at most 515 bytes stay behind, whatever came in |
| `BleFrames.BufferNeverFills` | main/src/platform/esp32/ble_control.c:771-794 | for any writes of at most 517 bytes none of them is refused and the overflow branch never fires |
| `BleFrames.EmittedFramesAreAccepted` | main/src/protocol/edgez_frame_protocol.c:21-39 | every frame handed on passes the magic and length checks |
| `BleFrames.ParseInTwoParts` | main/src/platform/esp32/ble_control.c:652-699 | a first part without framing error can be parsed on its own: the rest continues from what it left |
| `BleFrames.SplitDoesNotMatter` | main/src/platform/esp32/ble_control.c:652-699 | on a stream without framing errors any split into writes gives the same frames and the same rest |
| `BleFrames.ParseOfStream` | main/src/platform/esp32/ble_control.c:484-496 | a cut-off stream of encoded frames parses into its complete frames and the incomplete rest |
| `BleFrames.StreamIsReassembled` | main/src/platform/esp32/ble_control.c:652-699 | for any prefix of encoded frames and any split, exactly the complete frames are handed on, in order, and the buffer holds exactly the rest |
| `BleFrames.GarbageDependsOnSplit` | main/src/platform/esp32/ble_control.c:655-672 | after a framing error the split matters: one write loses a frame that two writes deliver |
| `BleFrames.ErrorRestartsAtNextWrite` | main/src/platform/esp32/ble_control.c:655-672 | a write that runs into a framing error delivers the frames before it, and reception starts afresh with the next write |
| `BleFrames.SplitDoesNotMatterIff` | main/src/platform/esp32/ble_control.c:652-699 | for every stream and split: the result is that of one parse of the whole stream if and only if there is no framing error, or the writes after the one that hits it yield no frame and leave nothing |
| `RoutePins.PinTable.Get` | main/src/mesh/halow_sync_bridge.c:1288-1314 | the lookup expires the pins it passes, refreshes the hit, and answers as `GetResult` defines |
| `RoutePins.PinTable.PutPin` | main/src/mesh/halow_sync_bridge.c:1316-1352 | the first free or own slot, else the last one of greatest age |
| `RoutePins.ChooseWaypoint` | main/src/mesh/halow_sync_bridge.c:1385-1419 | a call that nobody interrupts: get, and only on a miss select and put, each with its own clock reading |
| `RoutePins.MissTakesRoute` | main/src/mesh/halow_sync_bridge.c:1396-1419 | when nothing answers, a target two links away is reached through its next hop and one a link away through a direct peer, if there is one, and that is pinned; otherwise nothing is chosen or pinned |
| `RoutePins.HitKeepsWaypoint` | main/src/mesh/halow_sync_bridge.c:1391-1394 | when a pin answers, its waypoint is returned and kept whatever the route now is |
| `RoutePins.KeysDiffer` | main/src/mesh/halow_sync_bridge.c:1391-1418 | different sources, targets or transfers never share a pin |
| `RoutePins.WaypointKeepsUnique` | main/src/mesh/halow_sync_bridge.c:1385-1419 | an uninterrupted call leaves at most one valid pin per (source, target, transfer) |
| `RoutePins.PutAloneDuplicates` | main/src/mesh/halow_sync_bridge.c:1316-1352 | put alone does not: it stops at an earlier free slot |
| `RoutePins.PutKeepsUniqueIff` | main/src/mesh/halow_sync_bridge.c:1316-1352 | a put keeps the pins unique exactly when none of its key lies behind a free slot |
| `RoutePins.HandedOutIsPinned` | main/src/mesh/halow_sync_bridge.c:1385-1419 | every waypoint handed out is pinned at that moment |
| `RoutePins.PinAnswers` | main/src/mesh/halow_sync_bridge.c:1288-1314 | a call under 90 s after the last use returns the pinned waypoint whatever the route now is |
| `RoutePins.PinAnswersIff` | main/src/mesh/halow_sync_bridge.c:1293-1312 | for every reading: a get answers with the pin as it should exactly when the reading does not misread the pin's stamp |
| `RoutePins.StaleReadingMovesTransfer` | main/src/mesh/halow_sync_bridge.c:1293-1312 | a reading of 9 over a pin stamped 10 drops it, and the transfer moves to another waypoint |
| `RoutePins.GetKeepsOtherIff` | main/src/mesh/halow_sync_bridge.c:1296-1300 | a get for another transfer drops a pin exactly when it passes it and the reading makes it look stale |
| `RoutePins.PinSurvivesUnlessEvicted` | main/src/mesh/halow_sync_bridge.c:1316-1352 | a put for another transfer keeps a pin unless it evicts it |
| `RoutePins.EvictionTakesOldestOfFull` | main/src/mesh/halow_sync_bridge.c:1322-1351 | eviction needs every slot taken, and when the reading is not older than any stamp and within a wrap of each, no pin is older than the one evicted |
| `RoutePins.PutEvictsOldestIff` | main/src/mesh/halow_sync_bridge.c:1320-1348 | a put without a free or own slot replaces the pin used least recently if and only if no stamp is newer than its reading, or all are (stamps within a wrap of the reading and of each other) |
| `RoutePins.StaleReadingEvictsNewest` | main/src/mesh/halow_sync_bridge.c:1320-1348 | with 24 pins stamped 5, one of them refreshed at 10, a put whose reading is 9 evicts the one refreshed last |
| `RoutePins.EvictionFollowsExpiry` | main/src/mesh/halow_sync_bridge.c:1385-1419 | within one call every pin that survived its get was also in use |
| `RoutePinRuns.UninterruptedCall` | main/src/mesh/halow_sync_bridge.c:1385-1419 | the two steps of a call, taken together, are the call of the specification |
| `RoutePinRuns.RunKeepsUniqueIff` | main/src/mesh/halow_sync_bridge.c:1288-1419 | an interleaving of gets and puts has at most one valid pin per transfer at all times if and only if no put finds a pin of its key behind a free slot |
| `RoutePinRuns.TurnsKeepUnique` | main/src/mesh/halow_sync_bridge.c:1288-1419 | tasks whose calls for one transfer never overlap never pin it twice |
| `RoutePinRuns.OverlapPinsTwice` | main/src/mesh/halow_sync_bridge.c:1385-1419 | two calls for one transfer that overlap can pin it twice: the first put takes slot 1, slot 0 expires, the second put takes that |
| `RoutePinRuns.OverlapIsReachable` | main/src/mesh/halow_sync_bridge.c:1385-1419 | that state is three calls away from the empty table |
| `RoutePinRuns.GetKeepsPinIff` | main/src/mesh/halow_sync_bridge.c:1293-1312 | for any reading within a wrap a pin survives a get exactly when the scan does not come by it or the reading is neither older than its stamp nor 90 s later |
| `RoutePinRuns.PinStaysIff` | main/src/mesh/halow_sync_bridge.c:1288-1419 | among calls that take turns a pin stays for a whole run if and only if no reading that meets it is older than its stamp or 90 s later, and no put evicts it |
| `RoutePinRuns.TransferStaysOnWaypoint` | main/src/mesh/halow_sync_bridge.c:1288-1419 | in any interleaving that spares its pin a transfer gets the same waypoint every time |
| `VoiceQueue.LimitFollowsPath` | main/src/mesh/halow_sync_bridge.c:1988-2012 | the limit is 4, 8, 12 or 32, each exactly for paths of the stated quality, hops and age |
| `VoiceQueue.LimitIsMonotone` | main/src/mesh/halow_sync_bridge.c:1988-2012 | a path that is no better in quality, hops or age never gets more room, and no path the least |
| `VoiceQueue.PathCache.Recall` | main/src/mesh/halow_sync_bridge.c:1966-1983 | the first critical section: the first slot that holds a sample for the target less than 250 ms old by the unsigned difference answers |
| `VoiceQueue.PathCache.Keep` | main/src/mesh/halow_sync_bridge.c:2013-2030 | the second: the sample goes over the slot next to be replaced |
| `VoiceQueue.PathCache.LimitFor` | main/src/mesh/halow_sync_bridge.c:1954-2035 | a call that nobody interrupts: a recalled limit is returned and nothing changes, otherwise the path is sampled and the sample kept |
| `VoiceQueue.HoldsLastSamples` | main/src/mesh/halow_sync_bridge.c:2013-2030 | in any interleaving of calls the cache holds the last four samples kept |
| `VoiceQueue.RecalledIff` | main/src/mesh/halow_sync_bridge.c:1966-2030 | so a call reuses a limit exactly when one of the last four samples is for its target and looks fresh, and then the limit of such a sample |
| `VoiceQueue.FreshIsRightIff` | main/src/mesh/halow_sync_bridge.c:1968-1972 | a sample looks fresh exactly when it is, unless the reading misreads its stamp |
| `VoiceQueue.RealtimeQueue.Enqueue` | main/src/mesh/halow_sync_bridge.c:2068-2127 | taken as one step, a voice frame always ends at the tail, sheds at most the head and respects max(old length, limit); a speed frame sheds none and is refused only at 32 |
| `VoiceQueue.SpeedFramesBegin` | main/src/mesh/halow_sync_bridge.c:2064-2066 | a speed frame is one that begins with EZST |
| `VoiceRace.AloneIsEnqueue` | main/src/mesh/halow_sync_bridge.c:2068-2127 | the steps of a producer that nobody interrupts give the queue, the drop count and the answer of one whole enqueue |
| `VoiceRace.ShedsFirstIff` | main/src/mesh/halow_sync_bridge.c:2094-2098 | in any interleaving a voice frame sheds before it is offered exactly when at least `limit` frames waited as it measured |
| `VoiceRace.EffectBalances` | main/src/mesh/halow_sync_bridge.c:2068-2127 | each queue operation settles exactly what it changes in the tallies of its producer |
| `VoiceRace.FramesAreConserved` | main/src/mesh/halow_sync_bridge.c:2068-2127 | in every interleaving of queue operations frames leave in acceptance order and as many were accepted as producers were told so; at rest offered = dequeued + waiting + shed + refused, and the drop counter is what was shed plus the speed frames refused |
| `VoiceRace.TurnsNeverRefuseVoice` | main/src/mesh/halow_sync_bridge.c:2092-2106 | while producers take turns no voice frame is refused, whatever the consumer does in between |
| `VoiceRace.OverlapRefusesVoice` | main/src/mesh/halow_sync_bridge.c:2092-2127 | over a full queue an overlap of a voice and a speed producer loses two frames and counts one |
| `VoiceRace.OverlapIsReachable` | main/src/mesh/halow_sync_bridge.c:2068-2127 | that state is reached from boot: 32 speed frames, then a voice and a speed producer |
| `VoiceRace.CounterIsCompleteIff` | main/src/mesh/halow_sync_bridge.c:2104-2127 | at rest the drop counter tells every loss if and only if no voice frame found the queue filled again after its shed, or emptied before its second |
| `VoiceRace.ShedFrameIsRefusedIff` | main/src/mesh/halow_sync_bridge.c:2094-2103 | a voice frame that has shed is refused exactly when the others' net insertions fill the queue again before it is offered |
| `VoiceRace.UnshedFrameIsRefusedIff` | main/src/mesh/halow_sync_bridge.c:2098-2106 | one that met a full queue without having shed is refused unoffered exactly when the others empty the queue before its shed |
| `ScriptUpload.Handler.Handle` | main/src/mesh/halow_sync_bridge.c:3306-3396 | the handler leaves the upload and gives the reply that the one-message specification `Step` prescribes, for every action |
| `ScriptUpload.Handler.BeginUpload` | main/src/mesh/halow_sync_bridge.c:3318-3342 | BEGIN drops the old upload before it can fail, and opens the new one with its first chunk |
| `ScriptUpload.Handler.CommitUpload` | main/src/mesh/halow_sync_bridge.c:3357-3385 | COMMIT appends a fitting chunk even when it is then found short; without an upload it passes its own chunk |
| `ScriptUpload.RunKeepsTold` | main/src/mesh/halow_sync_bridge.c:3170-3396 | in every run the received bytes are the concatenation of the chunks kept since the last accepted BEGIN |
| `ScriptUpload.CommitPassesStream` | main/src/mesh/halow_sync_bridge.c:3357-3379 | COMMIT of the open upload passes on exactly that stream, with the announced size and script id, and closes it |
| `ScriptUpload.CommitPassesIff` | main/src/mesh/halow_sync_bridge.c:3357-3379 | when it does: its own chunk continues the stream and completes it |
| `ScriptUpload.DirectCommitPassesChunk` | main/src/mesh/halow_sync_bridge.c:3380-3386 | a COMMIT without an upload of its id passes on its own chunk, if any, with the status of the store, and leaves the open upload alone |
| `ScriptUpload.BeginOpensIff` | main/src/mesh/halow_sync_bridge.c:3318-3342 | when a BEGIN opens an upload; an announced size costs the old upload even when it does not |
| `ScriptUpload.OthersLeaveUpload` | main/src/mesh/halow_sync_bridge.c:3306-3392 | a DELETE answers with the status of the store; it and anything refused outright leave the upload alone |
| `ScriptUpload.ChunkIsKeptIff` | main/src/mesh/halow_sync_bridge.c:3344-3355 | a CHUNK is kept exactly when it continues the open upload and fits; otherwise nothing changes |
| `ScriptUpload.UploadCommits` | main/src/mesh/halow_sync_bridge.c:3317-3379 | however a script is cut into chunks, and whatever went on before, COMMIT passes on exactly that script |
| `Topology.TopologyTable.ChooseSlot` | main/src/mesh/halow_sync_bridge.c:738-754 | own slot, else first free, else smallest stamp |
| `Topology.TopologyTable.NotePeer` | main/src/mesh/halow_sync_bridge.c:723-774 | one note changes one slot as `Record` defines, and nothing for zero and broadcast ids |
| `Topology.TopologyTable.FillReport` | main/src/mesh/halow_sync_bridge.c:813-856 | the two loops give all connected-fresh entries, then all beacon-fresh ones; the limit of six cuts nothing off |
| `Topology.RoomForBeacon` | main/src/mesh/halow_sync_bridge.c:836-855 | there is room in the report for every entry when its slot comes up |
| `Topology.RecordKeepsSound` | main/src/mesh/halow_sync_bridge.c:728-774 | valid slots keep distinct 48-bit ids, never zero or broadcast, and an encoded signal strength in 1..1000 |
| `Topology.EvictionTakesLeastRecent` | main/src/mesh/halow_sync_bridge.c:738-754 | a full table gives up the peer seen least recently, unless a clock wrap lies between the stamps |
| `Topology.EvictionTakesLeastRecentIff` | main/src/mesh/halow_sync_bridge.c:738-754 | a full table gives up the peer seen least recently if and only if no clock wrap lies between the six stamps |
| `Topology.WrapEvictsNewest` | main/src/mesh/halow_sync_bridge.c:738-754 | right after a wrap it gives up the peer seen last |
| `Topology.ReportListsFreshOnce` | main/src/mesh/halow_sync_bridge.c:813-856 | the report lists exactly the fresh peers, each once, those connected first |
| `Topology.ReportLists` | main/src/mesh/halow_sync_bridge.c:813-856 | a peer is in the report exactly when its connection or its beacon looks fresh |
| `Topology.ConnectedComeFirst` | main/src/mesh/halow_sync_bridge.c:813-856 | peers connected come before those only heard |
| `Topology.CountsIs` | main/src/mesh/halow_sync_bridge.c:728-731 | notes count for any 48-bit id but zero and broadcast |
| `TopologyRuns.RunIsSound` | main/src/mesh/halow_sync_bridge.c:723-774 | in every run a slot's stamps are the last connection and the last beacon noted for its peer |
| `TopologyRuns.ReportIsSound` | main/src/mesh/halow_sync_bridge.c:813-856 | after any run a peer is listed only if, in true time, it was last noted within the 90 s or 5 min window, or that stamp is misread |
| `TopologyRuns.RunIsExact` | main/src/mesh/halow_sync_bridge.c:723-774 | while at most six peers have been noted the table forgets nothing: flags, stamps and last measurement of each |
| `TopologyRuns.ReportIsExact` | main/src/mesh/halow_sync_bridge.c:813-856 | while at most six peers have been noted and no stamp is misread, the report is in true time exactly what the history of notes says |
| `TopologyRuns.ReportCarriesRssi` | main/src/mesh/halow_sync_bridge.c:762-766 | and every entry carries the last strength between -999 and 0 dBm measured for its peer, offset by 1000, 999 for 0 dBm and 1000 when there was none |
| `TopologyRuns.ConnectedListIsRightIff` | main/src/mesh/halow_sync_bridge.c:813-832 | for every reading: the connected list is right about a peer, in true time, exactly when its last connection is not misread |
| `TopologyRuns.BeaconListIsRightIff` | main/src/mesh/halow_sync_bridge.c:836-855 | the same for the list of beacons, with the last beacon and a connection that hides it |
| `TopologyRuns.WrapListsOldPeer` | main/src/mesh/halow_sync_bridge.c:813-832 | a whole clock wrap after its only note a peer is listed as connected again |
| `TopologyRuns.StaleReadingOmitsPeer` | main/src/mesh/halow_sync_bridge.c:813-832 | a peer noted between the clock reading and the lock is left out |
| `TopologyLive.RunCoversLive` | main/src/mesh/halow_sync_bridge.c:723-774 | however many peers come and go, when notes come in clock order, at most six peers are noted within five minutes and nothing is evicted across a clock wrap, the table keeps all that still counts about them |
| `TopologyLive.NoteForgetsIff` | main/src/mesh/halow_sync_bridge.c:738-774 | in such a state a note costs a peer of the last five minutes its slot if and only if there are more than six of them after it |
| `TopologyLive.RunForgetsIff` | main/src/mesh/halow_sync_bridge.c:723-774 | over a run of notes in clock order, without an eviction across a clock wrap, no such peer ever loses its slot if and only if there are never more than six |
| `TopologyLive.ForgottenIsOmitted` | main/src/mesh/halow_sync_bridge.c:813-856 | a peer without a slot is in no report |
| `TopologyLive.CrowdedReportOmits` | main/src/mesh/halow_sync_bridge.c:813-856 | when more than six peers should be listed the report leaves one out |
| `TopologyLive.LiveReportIsExact` | main/src/mesh/halow_sync_bridge.c:813-856 | as long as there are never more than six, notes come in clock order and nothing is evicted across a wrap, a report made after the last note, with no stamp misread, is exactly the history |
| `Ota.Updater.ProcessWrite` | main/src/platform/esp32/ble_control.c:380-463 | one command leaves the session and the status that the one-command specification `Step` prescribes |
| `Ota.HowSessionsLive` | main/src/platform/esp32/ble_control.c:392-432 | a session survives a command in three ways only: an unreadable packet, a BEGIN that starts it, or DATA at the received offset within the announced size |
| `Ota.RunKeepsInv` | main/src/platform/esp32/ble_control.c:380-463 | in every run an open session has received exactly the bodies logged since its BEGIN, each at its stated offset |
| `Ota.CountersStayConsistent` | main/src/platform/esp32/ble_control.c:362-371 | received never passes expected, and without a handle both are zero |
| `Ota.CompleteMeansWholeImage` | main/src/platform/esp32/ble_control.c:433-450 | COMPLETE is notified only when, since the BEGIN that announced that size for a partition with room, there were only DATA commands written at their offsets (and unreadable packets) totalling exactly that size, and the image check and the boot switch went well |
| `Ota.CompletesIff` | main/src/platform/esp32/ble_control.c:433-450 | and on END exactly then |
| `Ota.RefusedIff` | main/src/platform/esp32/ble_control.c:384-463 | when a BEGIN, DATA or END is accepted, and which refusals name which cause |
| `Ota.RefusalDiscards` | main/src/platform/esp32/ble_control.c:384-463 | a refused command discards the session, except that an unreadable packet leaves it as it was |
| `Ota.UploadArrives` | main/src/platform/esp32/ble_control.c:392-432 | a client that announces and sends an image in any split is accepted chunk by chunk from any state |
| `Ota.UploadCompletes` | main/src/platform/esp32/ble_control.c:433-450 | and the device then has exactly that image and completes with its size |
| `ScriptText.StripReturnResult` | main/src/scripting/local_script_store.c:149-159 | the three trimming loops compute the length without a `return result` line at the end |
| `ScriptText.LastLineHasNoBlanksLeft` | main/src/scripting/local_script_store.c:152-157 | the second trimming loop of the trailer check never drops anything |
| `ScriptText.SkipLocalResult` | main/src/scripting/local_script_store.c:161-174 | the loops compute where the text after a `local result = {}` first line starts |
| `ScriptText.StripsIff` | main/src/scripting/local_script_store.c:149-159 | for any text: exactly a last line `return result`, indented or not, is cut off with the white space behind it, and any other text is left whole |
| `ScriptText.SkipsIff` | main/src/scripting/local_script_store.c:161-174 | for any text: exactly a first line `local result = {}`, after white space and with blanks behind it, is skipped with its line break (CR, LF or CR LF), and nothing of any other text |
| `ScriptText.SpaceIs` | main/src/scripting/local_script_store.c:143-147 | white space is space, tab, LF, VT, FF and CR |
| `ScriptText.TrailerIsStripped` | main/src/scripting/local_script_store.c:149-159 | a trailer line with any white space behind it is cut off exactly |
| `ScriptText.HeaderIsSkipped` | main/src/scripting/local_script_store.c:161-174 | a header line is skipped exactly |
| `ScriptJoin.Append` | main/src/scripting/local_script_store.c:201-204 | newline, capacity check and copy leave the buffer equal to the join cut to its capacity, or refuse the segment |
| `ScriptJoin.AppendScript` | main/src/scripting/local_script_store.c:191-206 | one selected script succeeds exactly when it can be allocated, read and fitted, and extends the join |
| `ScriptJoin.Aggregate` | main/src/scripting/local_script_store.c:176-212 | success exactly when every selected script goes in; used bytes never pass the capacity; below capacity the output is exactly the join of the selected scripts in index order |
| `ScriptJoin.SelectionStep` | main/src/scripting/local_script_store.c:186-190 | what one turn of the loop adds to the selection |
| `ScriptJoin.SelectionIs` | main/src/scripting/local_script_store.c:136-141 | exactly the stored scripts asked for are selected, all of them when none is named, and never an empty one |
| `ScriptJoin.BuildableIff` | main/src/scripting/local_script_store.c:189-207 | all chosen scripts go in exactly when each can be allocated and read and the join is within the capacity whenever a script adds to it |
| `ScriptJoin.AggregateOfWellFormed` | main/src/scripting/local_script_store.c:176-212 | well-formed scripts give one header, all bodies in order, and one trailer |
| `ScriptStore.OpenGap` | main/src/scripting/local_script_store.c:93-102 | the shifting insertion is the insertion into the sorted sequence |
| `ScriptStore.CloseGap` | main/src/scripting/local_script_store.c:128-129 | the shifting deletion removes one entry and keeps the order of the rest |
| `ScriptStore.Store.LoadIndex` | main/src/scripting/local_script_store.c:43-62 | only the first call reads flash; when that fails the index stays empty |
| `ScriptStore.Store.FindIndex` | main/src/scripting/local_script_store.c:64-69 | the lookup loads first, ignores a load error, and finds the first entry with the id |
| `ScriptStore.Store.UpsertScript` | main/src/scripting/local_script_store.c:84-117 | the call leaves memory and flash, and gives the status, that `OnUpsert` prescribes: the index in memory follows the upsert wherever flash then fails, and flash only ever receives the index in memory |
| `ScriptStore.Store.DeleteScript` | main/src/scripting/local_script_store.c:119-134 | the same for delete and `OnDelete`; nothing changes when the store cannot be opened |
| `ScriptStore.Store.BuildAggregate` | main/src/scripting/local_script_store.c:176-212 | the aggregate of the stored scripts, with its load and open errors, and the index it leaves: read if nobody had read it, empty if that failed, untouched for a buffer of length 0 |
| `ScriptStore.UpsertAnswers` | main/src/scripting/local_script_store.c:84-117 | the status of an upsert: Ok exactly when script, index and commit go through, and flash then holds both; which refusals leave flash alone |
| `ScriptStore.DeleteAnswers` | main/src/scripting/local_script_store.c:119-134 | the status of a delete likewise |
| `ScriptRuns.RunKeepsSound` | main/src/scripting/local_script_store.c:43-212 | over any run of upserts, deletes, aggregates, flash errors and power cycles, the index in memory and the one in flash stay strictly ascending with at most 16 entries |
| `ScriptRuns.MemoryRefinesMap` | main/src/scripting/local_script_store.c:84-212 | whatever flash errors occur, the index in memory is the run of the finite map over the calls, leaving out bad arguments and deletes that could not open flash |
| `ScriptRuns.FirstCallReads` | main/src/scripting/local_script_store.c:43-62 | after power-up the first upsert, delete or aggregate works on the saved index, or, when that cannot be read, on an empty one |
| `ScriptRuns.SavedEntryIsLostIff` | main/src/scripting/local_script_store.c:43-212 | over any run from power-up, power cycles included, a saved entry that no call is about is lost if and only if some call writes an index that, since the power-up before it, could not be read |
| `ScriptRuns.PoweredRunWritesBlindIff` | main/src/scripting/local_script_store.c:43-212 | while the power stays on that is: the first call that reads the index, an aggregate perhaps, cannot, and some call writes it |
| `ScriptRuns.BlindUpsertLosesIndex` | main/src/scripting/local_script_store.c:45-62 | one index that the first call after boot cannot read, whatever that call is, and one good upsert replace the saved index |
| `ScriptRuns.QuietRunIsDurable` | main/src/scripting/local_script_store.c:43-134 | without flash errors nothing is lost over power cycles: what flash holds is the run of the finite map over all accepted calls |
| `ScriptReadable.AggregateGoesIff` | main/src/scripting/local_script_store.c:186-207 | with memory and room enough an aggregate succeeds if and only if every selected script can be read in the length the index announces |
| `ScriptReadable.UpsertKeepsReadableIff` | main/src/scripting/local_script_store.c:84-117 | an upsert leaves every script readable by the index in memory if and only if it is refused, writes the script, or finds one no longer under its id |
| `ScriptReadable.UpsertKeepsSavedReadableIff` | main/src/scripting/local_script_store.c:104-117 | and by the index in flash, which counts after a power cycle, if and only if it does not write just the script, or the saved entry announces enough, or there is none |
| `ScriptReadable.DeleteKeepsReadable` | main/src/scripting/local_script_store.c:119-134 | a delete leaves every script readable by the index in memory |
| `ScriptReadable.DeleteKeepsSavedReadableIff` | main/src/scripting/local_script_store.c:119-134 | and by the index in flash if and only if it does not erase the script of a saved entry and then fail to write the index |
| `ScriptReadable.CallHarmsIff` | main/src/scripting/local_script_store.c:43-212 | for every call in every state, the index read or not: it leaves both indexes readable if and only if it is neither such an upsert nor such a delete |
| `ScriptReadable.StaysHealthyIff` | main/src/scripting/local_script_store.c:43-212 | over any run, power cycles included, every indexed script stays readable in memory and in flash if and only if no call does that |
| `ScriptReadable.HealthyAggregatesGo` | main/src/scripting/local_script_store.c:176-212 | readable means: every aggregate with memory and room enough succeeds, and so after a power cycle |
| `ScriptReadable.StuckScriptBlocks` | main/src/scripting/local_script_store.c:189-207 | one script that cannot be read fails every aggregate that selects it, until a call is about it or the power goes |
| `ScriptReadable.FailedShrinkBlocksAggregates` | main/src/scripting/local_script_store.c:102-108 | so does a shorter script that cannot be written, because flash cannot be opened or the write fails, from then on |
| `ScriptReadable.UnindexedGrowthBlocksAggregates` | main/src/scripting/local_script_store.c:107-113 | a longer script that is written while its index entry is not does so from the next power-up on |
| `ScriptReadable.UnindexedEraseBlocksAggregates` | main/src/scripting/local_script_store.c:126-131 | and so does a delete that erases the script and cannot write the index |
| `ScriptIndex.UpsertKeepsAscending` | main/src/scripting/local_script_store.c:90-102 | upsert keeps the index strictly ascending and within 16 entries |
| `ScriptIndex.DeleteKeepsAscending` | main/src/scripting/local_script_store.c:128-129 | delete keeps it ascending |
| `ScriptIndex.UpsertRefinesMap` | main/src/scripting/local_script_store.c:90-102 | upsert sets its own id and no other; it refuses exactly a new id in a full map |
| `ScriptIndex.DeleteRefinesMap` | main/src/scripting/local_script_store.c:119-129 | delete removes its own id and no other |
| `ScriptIndex.RunRefinesMap` | main/src/scripting/local_script_store.c:84-134 | every run of upserts and deletes is the run of a finite map from id to size |
| `Mmpkt.RoundUpIs` | components/morse_halow/include/mmpkt.h:33-35 | the rounding macro on 32-bit words: next multiple of four, or 0 past the last one |
| `Mmpkt.InitIsGood` | components/morse_halow/include/mmpkt.h:167-212 | for lengths below 2^31 and sizes below 2^30 a packet is made exactly when everything fits, and then header, data and metadata are disjoint, aligned, inside the buffer and roomy enough; the marker uses the whole buffer |
| `Mmpkt.AcceptedIsGoodIff` | components/morse_halow/include/mmpkt.h:173-200 | without the marker and for any 32-bit sizes an accepted layout is good if and only if none of its sums wraps |
| `Mmpkt.MarkedAcceptedIsGoodIff` | components/morse_halow/include/mmpkt.h:183-200 | with the marker and for any 32-bit sizes: if and only if header and metadata fit and the signed comparison was not fooled |
| `Mmpkt.SaneIsGoodIff` | components/morse_halow/include/mmpkt.h:167-212 | both together: a condition on the request alone |
| `Mmpkt.WrappedRequestIsAccepted` | components/morse_halow/include/mmpkt.h:173-200 | a request that wraps is accepted with less room than it asked for |
| `Mmpkt.InitBuf` | components/morse_halow/include/mmpkt.h:167-212 | for any sizes, except those accepted though they wrap: a made packet is empty at the requested offset and its metadata is cleared; a refused one leaves the buffer alone |
| `Mmpkt.Packet.PrependData` | components/morse_halow/include/mmpkt.h:399-426 | prepending changes only the data area and the view as a deque push in front |
| `Mmpkt.Packet.AppendData` | components/morse_halow/include/mmpkt.h:441-466 | appending changes only the data area and the view as a deque push behind |
| `Mmpkt.Packet.Shift` | components/morse_halow/include/mmpkt.h:503-522 | removal from the start returns the removed bytes, or nothing and no change when there are too few |
| `Mmpkt.Packet.Pop` | components/morse_halow/include/mmpkt.h:532-549 | removal from the end likewise |
| `Mmpkt.Packet.TruncateTo` | components/morse_halow/include/mmpkt.h:558-562 | truncation keeps the first bytes and gives the rest of the room back |
| `Mmpkt.RunRefinesDeque` | components/morse_halow/include/mmpkt.h:361-562 | any sequence of operations within capacity is the sequence on a byte deque and loses no room |
| `Mmpkt.HeadersComeOff` | components/morse_halow/include/mmpkt.h:399-522 | headers that fit the reserved room go on and come off again without a trace |

## Left out

- BATMAN routing, the radio adapter and its own hop handling: their code is not part of the repository; lookups and sends are arbitrary answers.
- The checksum in front of the dedupe (`main/src/mesh/halow_sync_bridge.c:859-884`): collisions of the hash are outside the model, which starts from checksums.
- The byte layout of the chunk header (`main/src/mesh/halow_sync_bridge.c:2480-2500`): the model keeps group, count, index and data as fields.
- The constant fields of a chunk packet (operation, interface, MIME type, hop limit) and the status reply after a failed send (`main/src/mesh/halow_sync_bridge.c:2519-2603`) are not modelled.
- PullEngine.Transfer.PrepareChunk: the zero-length branch is left out because after the skip loop the chosen target always has bytes left.
- PullProtocol.PinsBalance: the branch of the starter for a granted but empty or oversized snapshot is not modelled, since the serving buffer grants neither (`main/src/sampling/sampling.c:1198-1206`).
- Mesh.NoForwardingLoop: assumes that the radio carries the hop byte unchanged and that a hop which no longer fits the byte is not delivered; packets without the route prefix are not modelled.
- ReliableRuns.OneEntryThreeTransmissions: counts transmissions handed to the radio; what the radio itself repeats is not visible.
- VoiceQueue.RealtimeQueue.Enqueue: the FreeRTOS queue is a sequence field of depth 32, not a ring of bytes; VoiceRace models the race between its operations.
- BleFrames.Receiver.Write: assumes that flattening an attribute write that does not fit the free space reports an error; the branch that empties the forward channel while forwarding is disabled is left out.
- Ota.Updater.ProcessWrite: a failing flash start is taken to leave no handle; the restart task and the notification transport are left out.
- RoutePinRuns.PinStaysIff: a put of an overlapping call for the same transfer is excluded, since it replaces the waypoint; RoutePinRuns.TransferStaysOnWaypoint allows the overlap and excludes only such a put.
- Mmpkt.InitBuf: a request that is accepted though its sizes wrap would write outside the buffer, which an array does not allow; Mmpkt.SaneIsGoodIff says which those are.
- ScriptUpload.Handler.Handle: assumes no allocation succeeds within 220 bytes of 2^32; the name, MIME type and sensor selection copied along are left out.
- ScriptStore.Store.UpsertScript: the optional name, MIME, version and buffer-size keys are not stored in the model; their writes can fail like the first.
- ScriptJoin.AppendScript: assumes, as the flash library documents, that reading a blob into a shorter buffer fails.
- ScriptRuns.RunKeepsSound: `main/src/scripting/local_script_store.c` and the upload handler (`main/src/mesh/halow_sync_bridge.c:3306-3396`) hold no lock, though the BLE host task and the USB task both reach them; the runs of ScriptRuns, ScriptReadable and ScriptUpload assume calls that do not overlap.
- ScriptRuns.SavedEntryIsLostIff: a write that reports success is taken to persist without the commit (`main/src/scripting/local_script_store.c:113-114`); power lost between two writes is that many writes and then a power cycle.
- ScriptStore.Store.constructor: starts from an index this code saved; a foreign index blob is cut or rejected by the code and not modelled.
- VoiceQueue.PathCache.LimitFor: joins two critical sections and the route call between them (`main/src/mesh/halow_sync_bridge.c:1954-2035`); VoiceQueue.RecalledIff covers the sections in any order.
- RoutePins.PutEvictsOldestIff: stamps more than a wrap from the reading or from each other are left out.
- Topology.TopologyTable.NotePeer: sensor readings cached per peer are left out.
- Mmpkt packet header: the packet structure itself is not written into the header bytes, and the buffer's own address is taken as aligned.
- mmpkt_adjust_start_offset and the linked-list helpers: single assignments.
- Protobuf, cryptography, NVS partitions, GATT setup, power and sleep handling, GPS, settings, logging: plumbing around the modelled state.
