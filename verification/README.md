# Verified model of the trading system's stateful core

This project models the parts of the repository whose correctness is a property of whole runs, and proves
those properties for every input and every run. Module by module:

- **Write-ahead log** (`Bytes`, `Seqs`, `WalCodec`, `WalLog`, `WalBackends`, `WalRuns`, `WalAppends`,
  `WalSplits`, `WalTails`, `WalCrashes`, `WalStore`): the binary record format, the framed file with its recovery scan, the
  in-memory index, compaction, and the two backends. The reference is one abstract list of records.
- **Entity graph** (`Bfs`, `GraphState`, `GraphLaws`, `GraphRuns`, `GraphTransfers`, `GraphOverflow`,
  `GraphSnapshots`, `GraphEngine`): transfers, labels, the
  bounded searches, label propagation and eviction. The reference for a search is walks and shortest distances.
- **Positions** (`Sums`, `Position`, `PositionManager`): position accounting per strategy and netted.
- **Orders and execution** (`OrderMachine`, `OrderMaps`, `EngineSteps`, `EngineFills`, `EngineOwners`,
  `EngineConservation`, `EngineRace`, `EngineCalls`, `ExecutionEngine`): the order state machine, and the
  engine as a machine of interleaved atomic steps of any number of calls, split where the code takes or
  releases a lock or calls out. The risk engine, adapter routing and the exchange answer arbitrarily. The
  class shows the calls as code.
- **Paper broker** (`PaperDesk`, `PaperLaws`, `PaperBroker`): submission with its unlocked delay, simulated fills, cancels.
- **Backtest** (`Backtest`, `BacktestEquity`, `BacktestCosts`, `BacktestExecutor`, `Metrics`): the record of round trips
  beside the position book, equity, what slippage and fees cost, and the performance loops.
- **Rolling windows** (`RollingWindow`, `Vwap`, `Imbalance`): circular buffers with incremental sums.
- **Rate limiter and identifiers** (`RateLimiter`, `Uuid7`): the token bucket, and time-ordered identifiers in
  the layout of section 5.7 of RFC 9562.

Code that changes state is a class or a method with loops, proved against a function of the old state; what
the repository promises is then proved about that function, over runs. `dafny verify dfyconfig.toml` checks
the whole project.

## Where the code and its documentation part

The model follows the code. Each of these is proved, with a concrete input or run, and with the exact condition
under which the code does as it says:

- Recovery truncates a torn record, but not a tear inside the 4-byte length prefix. Nothing is lost by that alone,
  and a compaction that drops a record clears the bytes; but an append behind them, or a crash that makes them a
  whole record, is not found by the next opening, which for small records raises and leaves no backend at all
  (`WalCrashes.SoundExactly`, `WalCrashes.TornPrefixThenAppend`).
- A record is on disk before its call returns: after a crash in between, the log has a record that no caller was
  told of (`WalCrashes.LateCrash`, `WalCrashes.UnreturnedRecord`). A crash while the file is created leaves one that
  is never opened again (`WalCrashes.TornMagic`).
- Key-value compaction deletes the index entry of a dropped record's id even when a kept record carries the
  same id, and never lowers the latest sequence number, while the file backend recomputes both
  (`WalRuns.BackendsAgree`, `WalSplits.LostNewest`, `WalSplits.LostId`).
- "2+ paths confirm" counts parallel direct edges, not paths (`GraphState.PropagationReaches`). It matters only on a
  graph that was loaded with a CLEAN node (`GraphSnapshots.TwoPathsDoNotConfirm`): no run of a new engine ever has
  one (`GraphSnapshots.GuardNeverFires`).
- The transaction counter has 32 bits, and eviction trusts it (`GraphRuns.StructureExactly`,
  `GraphOverflow.WrappedCounterDangles`).
- An order can be FILLED without being full through the state machine alone (`OrderMachine.FilledRun`,
  `OrderMachine.FilledByHalf`), and full without being FILLED when two fills race in the engine
  (`EngineFills.FullExactly`, `EngineRace.RaceFromStart`).
- The race of a fill with a pending cancellation is provided for when the fill covers all that is open; a smaller one
  is refused and reaches neither order nor position (`EngineCalls.FillTakenExactly`,
  `EngineConservation.RefusedFill`).
- The backtest drops remainders up to 1e-12 that the position manager keeps (`Backtest.LockstepExactly`,
  `Backtest.DustLeft`), and counts an entry's fees again at each partial close (`BacktestEquity.FeesCountedOnce`,
  `BacktestEquity.FeeCountedTwice`).
- `acquire` grants more than the burst if asked to, and `try_acquire` does not refuse negative requests
  (`RateLimiter.TokensLevel`, `RateLimiter.RateBoundExactly`, `RateLimiter.OversizedGoesIntoDebt`,
  `RateLimiter.NegativeOverfills`, `RateLimiter.GivenAgain`).
- A trade's profit is already after its fees and its prices after slippage, and the figures take both off again, so
  what they call gross profit is not, and their net profit is too low (`BacktestCosts.CostsTakenTwice`,
  `BacktestCosts.HalfReported`).
- The greatest percentage lost is of the running peak; below zero a fall from a lower peak can be a larger
  fraction (`Metrics.FractionOfAnyPoint`, `Metrics.BelowZero`).

## Model

| member | source | states |
|---|---|---|
| `WalCodec.PackUnpack` | src/wal/raw_wal.py:96-147 | unpacking a packed record gives back every field, for every record whose fields fit their length fields |
| `WalCodec.BodyLayout` | src/wal/raw_wal.py:96-118 | what stands where in a packed record: number, checksum and time in 8, 4 and 8 bytes, then id, kind, chain and data, each behind its own length in 2, 2, 2 and 4 bytes |
| `Bytes.BigEndianDigit` | src/wal/raw_wal.py:96-118 | numbers are packed most significant byte first |
| `WalCodec.PackPeek` | src/wal/raw_wal.py:235-241 | the partial parse of the recovery scan finds the sequence number and the event id that the full parse finds |
| `WalLog.FramableExactly` | src/wal/raw_wal.py:96-118 | which records can be written: numbers of at most 8, 4 and 8 bytes, texts of fewer than 2^16 bytes each in valid UTF-8, and a body of fewer than 2^32 bytes |
| `WalLog.LatestIsGreatest` | src/wal/raw_wal.py:243-249 | whatever the order of the records in a file, a rebuild takes the greatest of their numbers for the latest and counts them all |
| `WalLog.FramePrefix` | src/wal/raw_wal.py:215-222 | the length prefix of a frame, read from any file, is the length of that record's body |
| `WalLog.ScanFrame` | src/wal/raw_wal.py:213-247 | frames are self-delimiting: over a whole frame, whatever stands before and behind it, the scan takes one step and indexes that record at that offset |
| `WalLog.RebuildClean` | src/wal/raw_wal.py:201-249 | a file of complete records is rebuilt to the index of exactly those records and keeps its whole length |
| `WalLog.CrashRecovery` | src/wal/raw_wal.py:201-249 | for every log and every proper prefix of one more frame: the scan indexes exactly the complete records, and the file left is the magic and their frames, except that a tear inside the 4-byte prefix is left in place |
| `WalLog.RecoverAppendRecover` | src/wal/raw_wal.py:201-306 | after a crash, a recovery and an append, the next recovery finds what the process had in memory if and only if the crash tore nothing or tore behind the length prefix |
| `WalLog.AppendIsIndexed` | src/wal/raw_wal.py:281-306 | the in-memory update of an append gives the index that a full rescan of the longer log computes, and sequence numbers stay strictly increasing |
| `WalLog.ReadLogged` | src/wal/raw_wal.py:339-349 | reading at the offset of the k-th record gives the k-th record |
| `WalLog.IndexById` | src/wal/raw_wal.py:243-247 | the id map holds, for each id, the offset of the last record that carries it, and no other id |
| `WalLog.IndexBySequence` | src/wal/raw_wal.py:243-247 | the sequence map holds the offset of every record of an increasing log |
| `WalLog.IndexedKey` | src/wal/raw_wal.py:243-247 | and no sequence number that no record carries |
| `WalBackends.CollectIsFilter` | src/wal/raw_wal.py:308-331 | collecting records by sequence number over a range is the log filtered by that range, in order |
| `WalBackends.RangesAgree` | src/wal/raw_wal.py:308-331 | both backends, when they represent the same log, answer every range read with the same records: those of the range, in sequence order |
| `WalBackends.LookupsAgree` | src/wal/raw_wal.py:499-507 | both answer every id lookup with the last record of that id |
| `WalBackends.DroppedIds` | src/wal/raw_wal.py:522-535 | a key-value compaction deletes the index entry of an id exactly when some dropped record carries it |
| `WalBackends.ClashBreaks` | src/wal/raw_wal.py:527-535 | hence a kept record that shares its id with a dropped one can no longer be found by id |
| `WalBackends.KvRewriteHolds` | src/wal/raw_wal.py:522-540 | a key-value compaction leaves the store representing the kept records if and only if no dropped record shares an id with a kept one and the newest record is kept |
| `WalRuns.FileRefines` | src/wal/raw_wal.py:593-749 | over every run of appends and compactions the file is exactly the frames of the abstract log, and a rebuild of it comes to the index in memory |
| `WalRuns.KvStepHolds` | src/wal/raw_wal.py:462-540 | one call keeps the key-value store on the abstract log if and only if it is safe: a compaction is respectful, and an append that packs fits a frame and has a number that fits a signed integer |
| `WalRuns.KvRefines` | src/wal/raw_wal.py:462-540 | over every run of safe calls the key-value store represents the abstract log |
| `WalRuns.BackendsAgree` | src/wal/raw_wal.py:593-749 | over every run of appends and compactions: at no moment does a range read, id lookup, latest sequence or total tell the two backends apart, if and only if every call of the run is safe |
| `WalRuns.CompactionSplitsBackends` | src/wal/raw_wal.py:730-749 | a compaction keeps the backends indistinguishable if and only if it is respectful |
| `WalRuns.AppendSplitsBackends` | src/wal/raw_wal.py:462-480 | an append keeps them so if and only if a record that packs also fits a frame and its number fits a signed integer |
| `WalAppends.AppendWrites` | src/wal/raw_wal.py:605-626 | an append that fits puts one record behind all others, numbered one after the last (the first is 0), with the id, kind, chain, time and data of the caller and the checksum of that data |
| `WalAppends.SurvivorsAre` | src/wal/raw_wal.py:738-741 | a compaction keeps exactly the records whose time is not before the cutoff, in order |
| `WalAppends.RangeIs` | src/wal/raw_wal.py:308-331 | a range holds exactly the records numbered from its first to its last number, both included, in order |
| `WalAppends.AppendIsFound` | src/wal/raw_wal.py:281-349 | over the file, after an append that fits: the lookup of the id finds exactly the caller's record, and reading its one number gives that record and no other |
| `WalAppends.KvAppendIsFound` | src/wal/raw_wal.py:462-507 | the same over the key-value backend |
| `WalAppends.LogExactly` | src/wal/raw_wal.py:593-749 | over every run the log holds a record if and only if an append that fitted gave it, with just these fields and the number it was given, and no later compaction had a cutoff past its time |
| `WalAppends.FileDurable` | src/wal/raw_wal.py:593-749 | over every run: a record that was accepted is read back under its number as it was given, after any later calls of which no compaction's cutoff is past its time |
| `WalAppends.KvDurable` | src/wal/raw_wal.py:462-540 | the same over the key-value backend, after a run of safe calls |
| `WalSplits.LostNewest` | src/wal/raw_wal.py:522-540 | a concrete run: dropping the only record makes the file backend start over with sequence number 0 and the key-value backend go on with 1 |
| `WalSplits.LostId` | src/wal/raw_wal.py:527-535 | a concrete run: two records of one id, the older dropped, and only the file backend still finds the kept one |
| `WalTails.TailDecides` | src/wal/raw_wal.py:213-247 | opening a file of complete records and a tail finds the index of the records if and only if the tail is shorter than a length prefix or announces more bytes than it has; the first kind is kept, the second cut off |
| `WalTails.HoldingServes` | src/wal/raw_wal.py:308-349 | bytes of a torn length prefix at the end of the file disturb no lookup, range read or counter |
| `WalTails.AppendBehindTail` | src/wal/raw_wal.py:281-306 | a record appended behind such bytes is never found by the next opening where the running process has it |
| `WalTails.SmallRecordsRaise` | src/wal/raw_wal.py:219-241 | behind a torn length prefix an appended record, both of bodies under 256 bytes, makes the next opening raise: the log cannot be opened any more |
| `WalCrashes.EventExactly` | src/wal/raw_wal.py:201-306 | a call, or a crash at any byte of one and a restart, leaves a backend that answers from the records that count and would do so after being opened again, if and only if it is in order: an append finds the file ending with a record, and a crash leaves a harmless tail, or all of an append that was in order |
| `WalCrashes.LateCrash` | src/wal/raw_wal.py:294-303 | a crash after the last byte of a record and before the call returns leaves what the returned call would have left: the next opening finds the record |
| `WalCrashes.SoundExactly` | src/wal/raw_wal.py:166-385 | over every run of appends, compactions, crashes at any byte and restarts, the creation of the file included: at every moment the backend answers from exactly the records of the calls that returned and of the appends that crashed late at a clean end of the file, and opening it again would find the same index and reads, if and only if the file was created whole and every event is in order |
| `WalCrashes.TornMagic` | src/wal/raw_wal.py:186-199 | a file created with only a part of its magic is never opened again, whatever follows |
| `WalCrashes.UnreturnedRecord` | src/wal/raw_wal.py:294-303 | a concrete run: one append that crashes late, nothing returned, and the log has its record |
| `WalCrashes.CompactionClears` | src/wal/raw_wal.py:364-385 | a compaction that drops something writes a clean file and so clears any torn bytes |
| `WalCrashes.CleanCrashesLoseNothing` | src/wal/raw_wal.py:166-385 | where no crash tears a length prefix every event is in order, and the file ends with its last record |
| `WalCrashes.TornPrefixThenAppend` | src/wal/raw_wal.py:213-241 | a concrete run: a crash inside the length prefix, a restart, an append that returns, a restart, and no backend |
| `WalStore.FileBackend.Open` | src/wal/raw_wal.py:166-199 | opening a file backend on given file contents: a missing file gets the magic, a wrong magic is refused, anything else is what the rebuild comes to |
| `WalStore.FileBackend.RebuildIndex` | src/wal/raw_wal.py:201-249 | the scan loop computes the specified rebuild, truncates the file where it says, and raises on a record it cannot parse |
| `WalStore.FileBackend.Append` | src/wal/raw_wal.py:281-306 | the new file and index are those of the specified append; a record that does not fit changes nothing |
| `WalStore.FileBackend.ReadRange` | src/wal/raw_wal.py:308-331 | the loop over the sorted sequence numbers returns the specified collection |
| `WalStore.FileBackend.ReadById` | src/wal/raw_wal.py:333-337 | the lookup through the id map and the read at the offset |
| `WalStore.FileBackend.Rewrite` | src/wal/raw_wal.py:364-385 | the new file holds exactly the given records, and the index is rebuilt from it |
| `WalStore.KvBackend.Append` | src/wal/raw_wal.py:462-480 | the store after the five writes of an append; a sequence number that does not fit a signed 64-bit integer raises after the first two, which stay |
| `WalStore.KvBackend.ReadRange` | src/wal/raw_wal.py:482-497 | the loop over the sorted known sequence numbers returns the specified collection |
| `WalStore.KvBackend.ReadById` | src/wal/raw_wal.py:499-507 | the lookup through the index entry and the event entry |
| `WalStore.KvBackend.Rewrite` | src/wal/raw_wal.py:522-540 | the deletion loop leaves the specified store, in whatever order the dropped records come; if a dropped event does not parse, it raises and leaves some of the deletions done and nothing else changed |
| `WalStore.RawWal.Append` | src/wal/raw_wal.py:593-634 | the sequence number returned is the latest plus one, and whoever is given one finds under the id, and reads under that number, exactly the id, kind, chain, time and data it gave, with the checksum of that data; a record that does not fit is a failed write |
| `WalStore.RawWal.Compact` | src/wal/raw_wal.py:730-749 | the backend takes the specified step, and the number returned is the number of records older than the cutoff; when it raises, a file is as it was and a key-value store has at most some of the deletions done |
| `WalStore.RawWal.Read` | src/wal/raw_wal.py:638-652 | the payloads of the range if every checksum is right, otherwise the first mismatch and no payload |
| `WalStore.RunIsChecked` | src/wal/raw_wal.py:605-626 | every record of every run carries the checksum of its data |
| `WalStore.ReadsReportPayloads` | src/wal/raw_wal.py:638-652 | so a read after any run over a file reports the payloads of its range, and never a mismatch |
| `WalStore.KvReadsReportPayloads` | src/wal/raw_wal.py:638-652 | the same over the key-value backend, after a run of safe calls |
| `Bfs.WithinIsWalk` | nexus/internal/graph/engine.go:256-286 | being within n hops means that a walk of at most n edges leads there |
| `Bfs.Expand` | nexus/internal/graph/engine.go:269-285 | one pass over the edges of a node gives each unvisited end the next depth and queues it once |
| `Bfs.Explore` | nexus/internal/graph/engine.go:256-286 | the queue loop terminates and visits exactly the addresses within the depth limit, each with its shortest distance |
| `GraphState.PropagationReaches` | nexus/internal/graph/engine.go:445-502 | a node carries SERIAL_RUGGER after propagation if and only if it did before, or the source carries it and the node is another non-CEX node at the end of a walk of outgoing edges within the limit that is not CLEAN or has at least two direct edges from the source |
| `GraphState.PropagationOnlyLabels` | nexus/internal/graph/engine.go:445-502 | propagation changes labels only, and never CLEAN |
| `GraphState.PropagationIdempotent` | nexus/internal/graph/engine.go:445-502 | propagating twice is propagating once |
| `GraphState.CleanNeedsDirectEdges` | nexus/internal/graph/engine.go:487-493 | a CLEAN node without a direct edge from the source is never marked, over however many separate paths it is reached |
| `GraphSnapshots.RunKeepsNoneClean` | nexus/internal/graph/engine.go:112-224 | a graph without a CLEAN node stays so over every run: no operation of the engine gives the label |
| `GraphSnapshots.GuardNeverFires` | nexus/internal/graph/engine.go:487-493 | hence in every run of a new engine the guard for CLEAN nodes holds nothing back, and propagation marks exactly the other non-CEX nodes in range |
| `GraphSnapshots.DiamondIsGood` | nexus/internal/graph/persistence.go:108-124 | a graph loaded from a snapshot, with a CLEAN node, is one as the engine keeps them |
| `GraphSnapshots.TwoPathsDoNotConfirm` | nexus/internal/graph/engine.go:487-493 | from that graph: two paths over different wallets do not confirm, although the comment says that they should |
| `GraphState.AddLabelMembers` | nexus/internal/graph/engine.go:523-540 | adding a label adds just that label and drops UNKNOWN exactly when the new label is a real one |
| `GraphLaws.TransferIs` | nexus/internal/graph/engine.go:139-186 | a transfer is ignored if and only if it is dust, touches an exchange or goes to a wallet above the threshold, and otherwise recorded if and only if there is room for its ends; below the cap of its source its edge is appended to the source's outgoing and the target's incoming list and no other list changes, at the cap none does; both ends are in the graph and have counted it |
| `GraphLaws.StoredLinks` | nexus/internal/graph/engine.go:181-185 | a stored transfer links its ends both ways |
| `GraphLaws.LinksAre` | nexus/internal/graph/engine.go:269-285 | propagation follows exactly the stored outgoing edges, and a query the incoming ones too |
| `GraphLaws.PathsAreEdges` | nexus/internal/graph/engine.go:487-493 | what is counted before a CLEAN node is marked are the stored edges from the source to it |
| `GraphLaws.RugIs` | nexus/internal/graph/engine.go:197-208 | a rug adds one to the count, and the wallet has SERIAL_RUGGER afterwards if and only if it had it, or another rug, before; nothing else changes |
| `GraphLaws.InsiderIs` | nexus/internal/graph/engine.go:215-224 | an insider mark adds its label, drops UNKNOWN with it, and changes nothing else |
| `GraphLaws.DeployIs` | nexus/internal/graph/engine.go:189-194 | a deploy adds one to the count and changes nothing else |
| `GraphLaws.EvictIs` | nexus/internal/graph/engine.go:660-680 | an eviction removes exactly the wallets that are no exchange, were first seen before the cutoff and have no transaction, with their own lists, and leaves the others as they were |
| `GraphRuns.RecordStructure` | nexus/internal/graph/engine.go:139-224 | every operation but an eviction keeps the structure, transfers that are refused, capped or panic included |
| `GraphRuns.EvictExactly` | nexus/internal/graph/engine.go:660-680 | an eviction keeps the structure if and only if no stored edge has exactly one evictable end |
| `GraphRuns.CountedIsWhole` | nexus/internal/graph/engine.go:671-674 | where transaction counters cover incident edges there is no such edge |
| `GraphRuns.StructureExactly` | nexus/internal/graph/engine.go:112-224 | over every run of any operations from any well-structured graph, panics and the lock that a panicking mark keeps included: at every moment outgoing and incoming lists hold the same edges, no edge touches an absent node or an exchange, lists stay within the cap and the node statistic is right, if and only if no eviction meets an edge with exactly one evictable end |
| `GraphRuns.GraphInvariant` | nexus/internal/graph/engine.go:112-224 | so it is over every run of a new engine of fewer than 2^31 - 1 transfers, where no counter can wrap |
| `GraphTransfers.TransfersKept` | nexus/internal/graph/engine.go:139-186 | over every run from a new engine in which nothing is evicted or no counter can have wrapped: the outgoing list of a wallet is its recorded transfers, the first ones up to the cap, in order, and its incoming list the transfers to it that were kept |
| `GraphTransfers.MarksCounted` | nexus/internal/graph/engine.go:189-208 | over every run without evictions from a new engine: a wallet's counts are those of its deploys and rugs, a second rug has labelled it, and where labels are not propagated nothing else has |
| `GraphOverflow.WrappedCounterDangles` | nexus/internal/graph/engine.go:671-674 | a reachable run whose 32-bit counter wraps to zero: the eviction removes a node that a stored edge still names |
| `GraphEngine.LeastIsNearest` | nexus/internal/graph/engine.go:288-309 | over exact depths, the least depth among marked nodes is the distance to the nearest of them |
| `GraphEngine.Engine.AddTransfer` | nexus/internal/graph/engine.go:139-186 | the new graph is that of the specified transfer: which are ignored, recorded or panic at capacity, and that a recorded one below the cap of its source is appended to exactly the source's outgoing and the target's incoming list |
| `GraphEngine.Engine.AddDeploy` | nexus/internal/graph/engine.go:189-194 | the new graph, or the panic, is that of the specified deploy |
| `GraphEngine.Engine.MarkRug` | nexus/internal/graph/engine.go:197-208 | the new graph, or the panic, is that of the specified mark; the second rug brings the label |
| `GraphEngine.Engine.MarkInsider` | nexus/internal/graph/engine.go:215-224 | the new graph, or the panic, is that of the specified mark |
| `GraphEngine.Engine.PropagateLabels` | nexus/internal/graph/engine.go:445-475 | the search and the loop over its result compute the specified propagation |
| `GraphEngine.Engine.ApplyLabels` | nexus/internal/graph/engine.go:477-501 | in whatever order the visited nodes are taken, the same nodes are marked |
| `GraphEngine.Engine.Evict` | nexus/internal/graph/engine.go:660-680 | in whatever order the nodes are taken, exactly the inactive ones are removed and counted |
| `GraphEngine.Engine.QueryDeployer` | nexus/internal/graph/engine.go:231-309 | hops to a rugger and to an insider are the least distance to a so-labelled known node within the limit, or -1 if and only if there is none; confidence follows the number of addresses in range |
| `GraphEngine.Engine.NearestMarks` | nexus/internal/graph/engine.go:288-309 | the loop over the visited map gives the least depths in whatever order it runs |
| `Position.CashStep` | nexus/internal/execution/position.go:136-202 | every case of a fill, opening, adding, reducing, closing or flipping, moves RealizedPnL - Qty * AvgEntry by exactly the fill's notional |
| `Position.ApplyIs` | nexus/internal/execution/position.go:136-202 | an opening fill sets the entry price, an adding one moves it to the weighted average, and neither realizes; one against the position realizes the difference to the entry price on what it closes, and what is left keeps its entry price, what is flipped has the fill's, and nothing has none |
| `Position.AccountingIdentity` | nexus/internal/execution/position.go:136-202 | after any fills Qty is their signed sum, RealizedPnL is net cash plus Qty * AvgEntry, and the side is the sign of Qty |
| `Position.OrderDoesNotMatter` | nexus/internal/execution/position.go:136-202 | the same fills in any order end with the same Qty and the same RealizedPnL - Qty * AvgEntry |
| `Position.NettingConserves` | nexus/internal/execution/position.go:81-129 | each global position's quantity, fees, trade count and cash are the sums over the strategies of its market |
| `Position.BookIsOwnFills` | nexus/internal/execution/position.go:81-129 | each strategy's position is that of its own fills as if there were no others, and each netted one that of all the fills of its market in order |
| `PositionManager.PositionRecord.ApplyFill` | nexus/internal/execution/position.go:136-202 | the record after an in-place update is the specified position |
| `PositionManager.FillRecord` | nexus/internal/execution/position.go:92-108 | finding or making a record and updating it moves that key and no other |
| `PositionManager.Manager.ApplyFill` | nexus/internal/execution/position.go:81-129 | a fill moves the strategy's position and the netted one as specified; records stay unshared |
| `OrderMachine.TransitionKeeps` | nexus/internal/execution/order_sm.go:143-212 | every event, accepted or refused, keeps the invariant of the order machine and the intent |
| `OrderMachine.OrderInvariant` | nexus/internal/execution/order_sm.go:143-234 | in every reachable state FilledQty is the sum of the fills and at most Qty, ACKED has no fill, PARTIAL has one, also after a rejected cancel, and CANCEL_REJECTED is never reached |
| `OrderMachine.TerminalAbsorbs` | nexus/internal/execution/order_sm.go:246-253 | over any further events a terminal order does not change at all |
| `OrderMachine.TakenExactly` | nexus/internal/execution/order_sm.go:87-105 | which events are taken: submit in CREATED, ack and reject in SUBMITTED, partial fills in ACKED and PARTIAL, fills also in CANCEL_PENDING, both only when positive and within what is open, cancel requests in ACKED and PARTIAL, their answers in CANCEL_PENDING; and no others |
| `OrderMachine.TakenLeaves` | nexus/internal/execution/order_sm.go:143-234 | the whole order after each event that is taken: its new state, and for a fill the fill appended, its quantity added and the average of both costs |
| `OrderMachine.RestIsTaken` | nexus/internal/execution/order_sm.go:91-105 | a positive fill of exactly what is open makes an ACKED, PARTIAL or CANCEL_PENDING order FILLED and full |
| `OrderMachine.CancelRejectRestores` | nexus/internal/execution/order_sm.go:179-190 | a rejected cancel puts the order back exactly where it was when the cancel was requested |
| `OrderMachine.FilledInFull` | nexus/internal/execution/order_sm.go:170-177 | a FILL event makes the order FILLED, and full if and only if the fill is all that was open |
| `OrderMachine.SomeFill` | nexus/internal/execution/order_sm.go:91-105 | over every run an order that is FILLED was made so by an accepted FILL, and has not changed since |
| `OrderMachine.FilledRun` | nexus/internal/execution/order_sm.go:170-177 | over every run a FILLED order is full if and only if that FILL carried all that was open |
| `OrderMachine.FilledByHalf` | nexus/internal/execution/order_sm.go:170-177 | a run that ends FILLED with half the quantity filled: the machine alone does not promise a full fill |
| `OrderMachine.AverageDrift` | nexus/internal/execution/order_sm.go:227-230 | if each division is within eps of exact, after n fills the average price times the filled quantity is within n * eps * Qty of what the fills cost |
| `OrderMachine.ExactAverage` | nexus/internal/execution/order_sm.go:227-230 | with exact division the average is exact and between the least and greatest fill price |
| `OrderMachine.OrderObject.Record` | nexus/internal/execution/order_sm.go:216-234 | the object after a fill is the specified one; a refused fill changes nothing |
| `OrderMachine.OrderObject.Advance` | nexus/internal/execution/order_sm.go:143-212 | an event is taken exactly in the states the lifecycle names for it, and a fill only if it is positive and fits what is open; the object is then the specified one, and a refused event changes nothing |
| `EngineSteps.SubmissionsSafe` | nexus/internal/execution/engine.go:202-330 | in every interleaving each order has one owner, who was allowed by risk and is past sending if it was sent |
| `EngineSteps.AtMostOnce` | nexus/internal/execution/engine.go:202-330 | in every interleaving each intent reaches the exchange at most once, after a risk allow by the same caller, and in dry-run mode never |
| `EngineFills.OrdersSafe` | nexus/internal/execution/engine.go:338-452 | in every interleaving of executions, fills and cancels all orders keep the order invariant, and fills in progress know what they need |
| `EngineFills.FilledIsFull` | nexus/internal/execution/engine.go:370-378 | in every interleaving an order that is FILLED has its whole quantity filled |
| `EngineFills.StepFull` | nexus/internal/execution/engine.go:370-378 | one step of any call keeps full orders FILLED if and only if it does not record as partial a fill of all that is open |
| `EngineFills.FullExactly` | nexus/internal/execution/engine.go:370-378 | in every interleaving: orders of positive quantity that are full are FILLED at every moment, if and only if no step of the run does that |
| `EngineFills.FilledExactly` | nexus/internal/execution/engine.go:370-378 | then FILLED and full are the same, for each order of positive quantity |
| `EngineFills.SerialNeverOverlooks` | nexus/internal/execution/engine.go:370-378 | handling the fills of each order one at a time is enough |
| `EngineRace.RacedFills` | nexus/internal/execution/engine.go:370-378 | two fills that complete an order, both read before either is applied, leave it PARTIAL with nothing left to fill |
| `EngineRace.RaceFromStart` | nexus/internal/execution/engine.go:202-378 | such a run of sixteen steps, from the empty engine |
| `EngineOwners.OrdersWereAllowed` | nexus/internal/execution/engine.go:202-264 | in every interleaving each order in the engine is the order of an intent that the risk engine allowed to the very execution that inserted it |
| `EngineConservation.StepConserves` | nexus/internal/execution/engine.go:338-392 | of all steps of all calls, only recording a fill at an order of another strategy, market or side changes what the book (and fills on their way to it) holds against what orders were filled; an if and only if |
| `EngineConservation.LevelExactly` | nexus/internal/execution/engine.go:338-392 | in every interleaving: book plus fills on their way equals orders, for every key and at every moment, if and only if no step records a fill at an order of another strategy, market or side |
| `EngineConservation.FillConservation` | nexus/internal/execution/engine.go:202-392 | whenever no fill is half way, each strategy position is the signed total of its orders' filled quantities; each of these orders was allowed by risk to the execution that inserted it; and the position exceeds neither what the orders were made for nor the total quantity of the intents that risk allowed |
| `EngineConservation.RefusedFill` | nexus/internal/execution/engine.go:376-379 | a fill is taken if and only if it is positive, fits what is open, and its order is ACKED or PARTIAL, or CANCEL_PENDING when the fill was seen to cover all the rest; otherwise neither order nor position changes |
| `EngineCalls.ExecAlone` | nexus/internal/execution/engine.go:202-330 | an execution run alone through its steps: what becomes of the order under each answer, and that the exchange is asked exactly for new, allowed, routable intents outside dry-run |
| `EngineCalls.FillAlone` | nexus/internal/execution/engine.go:338-392 | a fill handled alone through its steps: taken exactly when positive, within what is open, and at an ACKED or PARTIAL order or of all the rest of a CANCEL_PENDING one; then the order holds it, is FILLED exactly when nothing is left open and PARTIAL otherwise, and the book gets it; if not, nothing changes |
| `EngineCalls.FillTakenExactly` | nexus/internal/execution/engine.go:370-379 | the event that a fill is turned into is taken exactly in those cases |
| `EngineCalls.FillsComplete` | nexus/internal/execution/engine.go:338-392 | an ACKED or PARTIAL order takes every positive fill up to what is open, one after the other, and the book with it: it holds all of them and is FILLED exactly when they come to all that was open |
| `EngineCalls.CancelAlone` | nexus/internal/execution/engine.go:406-452 | a cancel handled alone through its steps: refused in any state but ACKED and PARTIAL, left CANCEL_PENDING when the exchange fails, or CANCELLED |
| `ExecutionEngine.Engine.ExecuteIntent` | nexus/internal/execution/engine.go:202-330 | the orders after the call are those its steps leave, and the exchange is asked when they ask it |
| `ExecutionEngine.Engine.HandleFill` | nexus/internal/execution/engine.go:338-392 | orders and positions after the call are those its steps leave; it succeeds if and only if the fill is positive, fits what is open, and the order is ACKED or PARTIAL, or CANCEL_PENDING and filled to the full |
| `ExecutionEngine.Engine.CancelOrder` | nexus/internal/execution/engine.go:406-452 | the orders after the call are those its steps leave; it succeeds if and only if the order is ACKED or PARTIAL and, outside dry-run, a registered exchange does not fail |
| `PaperDesk.PaperIdsDiffer` | nexus/internal/execution/paper_broker.go:107 | exchange ids of different numbers differ as text |
| `PaperDesk.SlippageCosts` | nexus/internal/execution/paper_broker.go:226-243 | slippage works against the trader exactly when it does not have the opposite sign of the reference price, and trades are at the reference price exactly when there is none; sides other than buy and sell have none |
| `PaperDesk.WholeFill` | nexus/internal/execution/paper_broker.go:165-195 | a fill of an open order's whole quantity is refused exactly when that quantity is not positive, and otherwise makes it FILLED in full |
| `PaperDesk.UnderIsOnly` | nexus/internal/execution/paper_broker.go:307-324 | an exchange id names at most one pending order, so a cancel does not depend on map order |
| `PaperDesk.BrokerConsistent` | nexus/internal/execution/paper_broker.go:82-327 | in every interleaving, the unlocked delay included: pending orders are exactly the non-market orders still ACKED, exchange ids are pairwise distinct, and there is exactly one fill per FILLED order, of its whole quantity, and no other fill |
| `PaperLaws.MarketPriceIs` | nexus/internal/execution/paper_broker.go:165-243 | the price of a market fill: the limit price, or 1 without one, plus the slippage for buyers and less it for sellers |
| `PaperLaws.DigitsAreDecimal` | nexus/internal/execution/paper_broker.go:107 | exchange ids carry their numbers in decimal |
| `PaperLaws.SubmitIs` | nexus/internal/execution/paper_broker.go:82-163 | a new intent becomes one order under the next exchange id: a market order of positive quantity is filled whole at its market price, or waits when fills are delayed; any other type is pending; a duplicate changes nothing |
| `PaperLaws.WakeIs` | nexus/internal/execution/paper_broker.go:136-145 | a submission that wakes fills its order whole at the market price, unless its caller gave up |
| `PaperLaws.SimulateIs` | nexus/internal/execution/paper_broker.go:247-300 | a simulated fill fills a pending order of positive quantity whole at the given price and ends its being pending, and does nothing to any other |
| `PaperLaws.CancelIs` | nexus/internal/execution/paper_broker.go:303-327 | a cancel of the exchange id of a pending order cancels that order and no other; any other does nothing |
| `PaperLaws.FillsPriced` | nexus/internal/execution/paper_broker.go:82-300 | in every interleaving each fill of a market order is at the reference price with the slippage, and each other fill at a price that somebody simulated for its order |
| `PaperBroker.Broker.SubmitOrder` | nexus/internal/execution/paper_broker.go:82-163 | the desk after a submission, up to its delay, is the specified one, and the broker stays consistent |
| `PaperBroker.Broker.Wake` | nexus/internal/execution/paper_broker.go:136-145 | the desk after the delay, or after the caller gave up, is the specified one, and the broker stays consistent |
| `PaperBroker.Broker.SimulateFill` | nexus/internal/execution/paper_broker.go:247-300 | the desk after a simulated fill is the specified one, and the broker stays consistent |
| `PaperBroker.Broker.FindPending` | nexus/internal/execution/paper_broker.go:307-309 | the search in any order finds the one pending order under the id, or that there is none |
| `PaperBroker.Broker.CancelOrder` | nexus/internal/execution/paper_broker.go:303-327 | the desk after a cancel is the specified one, and the broker stays consistent |
| `Backtest.StepAgrees` | nexus/internal/backtest/runner.go:325-401 | one fill keeps open entry and position in agreement on side, size and entry price if and only if it does not leave the position open by at most 1e-12 |
| `Backtest.LockstepExactly` | nexus/internal/backtest/runner.go:325-401 | over every run the two ledgers agree for every key after every deal if and only if no deal leaves such dust |
| `Backtest.DustLeft` | nexus/internal/backtest/runner.go:372-375 | a concrete run: after buying 1 and selling 0.9999999999995 the entry is gone and the position is open |
| `Backtest.Lockstep` | nexus/internal/backtest/runner.go:372-393 | where quantities are whole lots larger than 1e-12 they always agree |
| `Backtest.ProfitsAgree` | nexus/internal/backtest/runner.go:345-370 | as long as they agree, the trades' profits with their fees added back are exactly what the positions realized, and the running profit is the sum of the trades' profits |
| `BacktestEquity.EquityIsWorth` | nexus/internal/backtest/runner.go:566-574 | at any time, for any set of known prices: equity with closed trades' fees added back is initial capital plus the worth of all positions, a symbol without a price counting only its realized profit |
| `BacktestEquity.EquityIsCashAndHoldings` | nexus/internal/backtest/runner.go:604-618 | with a price for every traded symbol: equity with closed trades' fees added back is initial capital, net cash from fills, and quantity times last price |
| `BacktestEquity.CashOfBook` | nexus/internal/execution/position.go:81-108 | the cash of all strategy positions is the cash that all fills moved |
| `BacktestEquity.FeesCounted` | nexus/internal/backtest/runner.go:354-399 | fees of trades and open entries exceed the fees paid by the fees of each entry closed in part, once for each time |
| `BacktestEquity.FeesCountedOnce` | nexus/internal/backtest/runner.go:354-393 | they equal the fees paid if and only if no entry that carries fees is ever closed in part |
| `BacktestEquity.FeeCountedTwice` | nexus/internal/backtest/runner.go:354-393 | a concrete run: a fee of 1 is paid and 2 are counted |
| `BacktestCosts.SlippageTakes` | nexus/internal/backtest/runner.go:281-290 | the cash that the fills of a run move is what they would have moved at their reference prices, less the slippage on every quantity |
| `BacktestCosts.EquityAfterSlippage` | nexus/internal/backtest/runner.go:604-618 | so equity, with closed trades' fees added back, is initial capital, cash at reference prices less that slippage, and holdings at last prices |
| `BacktestCosts.ClosedIs` | nexus/internal/backtest/runner.go:345-370 | a round trip: of the smaller quantity, from the entry's price to the reference price and slippage, with the fees of both taken off its profit |
| `BacktestCosts.FeesArePaid` | nexus/internal/backtest/runner.go:292-298 | the fees of a run are those of its filled deals |
| `BacktestCosts.CostsTakenTwice` | nexus/internal/backtest/metrics.go:67-92 | over every backtest without negative fees: the net profit of the figures is the realized profit if and only if no deal completes a round trip that has fees, or with slippage; otherwise it is less by both |
| `BacktestCosts.HalfReported` | nexus/internal/backtest/metrics.go:67-92 | a concrete run: a profit of a half after fees, of which the figures report nothing |
| `BacktestExecutor.Executor.Reduce` | nexus/internal/backtest/runner.go:372-393 | the open entry after a fill on the other side: reduced in place, removed, or flipped |
| `BacktestExecutor.Executor.RecordTradeEntry` | nexus/internal/backtest/runner.go:325-401 | entries, trades and running profit after a fill are the specified ones |
| `BacktestExecutor.Executor.SimulateFill` | nexus/internal/backtest/runner.go:273-323 | both ledgers after a deal are the specified ones; without a reference price nothing happens |
| `BacktestExecutor.ComputeUnrealizedPnL` | nexus/internal/backtest/runner.go:604-618 | the loop over the entries gives their sum, in whatever order it runs |
| `Metrics.MaxDrawdownFromEquity` | nexus/internal/backtest/metrics.go:192-218 | one pass finds the greatest fall between any two points in time, and the greatest fraction lost of a positive running peak; both are attained |
| `Metrics.FractionOfAnyPoint` | nexus/internal/backtest/metrics.go:209-214 | a fall from a positive point is at most as large a fraction of it as the fall from the running peak is of the peak, if and only if it does not end below zero or the point is as high as the peak |
| `Metrics.FractionsFound` | nexus/internal/backtest/metrics.go:209-214 | so on a curve that never goes below zero no fall from any positive point is a larger fraction than the percentage found |
| `Metrics.BelowZero` | nexus/internal/backtest/metrics.go:209-214 | a concrete curve below zero on which one is: the fraction is of the running peak |
| `Metrics.BuildEquityCurve` | nexus/internal/backtest/metrics.go:252-262 | each point is the initial capital plus the net profit of the trades so far, as separate totals give it |
| `Metrics.TradeReturns` | nexus/internal/backtest/metrics.go:265-282 | each return is the trade's net profit over the running capital, or zero when that is not positive |
| `Metrics.ReturnsAre` | nexus/internal/backtest/metrics.go:265-282 | a return times the capital it was made on is what its trade made after fees and slippage; on no capital it is 0 |
| `Metrics.CurveReturnsAndTotals` | nexus/internal/backtest/metrics.go:92-136 | the curve ends at initial capital plus NetPnL of the totals loop; with positive capital throughout, the compounded returns are final equity over initial capital |
| `Metrics.SumTrades` | nexus/internal/backtest/metrics.go:67-92 | the totals loop: gross profit is what the winning trades come to after fees and slippage, gross loss what the losing ones do, they differ by the net profit of its totals, wins are counted, and the largest win and loss are attained extremes |
| `RollingWindow.LiveIsWindow` | nexus/internal/features/vwap.go:54-90 | with times in order, the live entries are exactly those among the last capacity entries that are not older than the window, in order |
| `RollingWindow.WriteAppends` | nexus/internal/features/vwap.go:73-77 | writing at the head of a circular array appends while there is room, across the wrap |
| `RollingWindow.WriteOverwrites` | nexus/internal/features/vwap.go:78-84 | writing at the head of a full one replaces the oldest entry |
| `RollingWindow.CountDrops` | nexus/internal/features/vwap.go:139-144 | counting one entry less drops the oldest |
| `Vwap.EvictHonest` | nexus/internal/features/vwap.go:135-157 | in exact arithmetic the guards against negative sums never change anything |
| `Vwap.BufferIsWindow` | nexus/internal/features/vwap.go:54-90 | after any trades in time order with nonnegative prices and quantities, the buffer is the window of the history and the running sums are the sums over it |
| `Vwap.ValueBetweenPrices` | nexus/internal/features/vwap.go:96-105 | the average lies between the least and the greatest live price |
| `Vwap.ValueIsVwap` | nexus/internal/features/vwap.go:96-105 | over every run in time order: the value times the total quantity of the window's trades is the sum of their prices times quantities, and it is 0 when that quantity is 0 |
| `Vwap.VwapState.EvictExpired` | nexus/internal/features/vwap.go:135-157 | the loop over the tail computes the specified eviction |
| `Vwap.VwapState.OnTrade` | nexus/internal/features/vwap.go:54-90 | the state after a trade is the specified one, for any input |
| `Vwap.VwapState.Average` | nexus/internal/features/vwap.go:96-105 | the value read is that of the state, which ValueIsVwap ties to the trades of the window |
| `Imbalance.EvictHonest` | nexus/internal/features/imbalance.go:152-176 | in exact arithmetic the guards against negative volumes never change anything |
| `Imbalance.BufferIsWindow` | nexus/internal/features/imbalance.go:57-101 | after any trades in time order with nonnegative quantities, the buffer is the window of the sided trades and the running volumes are the volumes over it |
| `Imbalance.ImbalanceInRange` | nexus/internal/features/imbalance.go:109-124 | the value is in [-1, 1]; it is 1 exactly when volume was bought and none sold, and -1 exactly when volume was sold and none bought |
| `Imbalance.ValueIsImbalance` | nexus/internal/features/imbalance.go:109-124 | over every run in time order: the value times what the sided trades of the window come to is what was bought less what was sold, and it is 0 when they come to nothing |
| `Imbalance.ImbalanceState.EvictExpired` | nexus/internal/features/imbalance.go:152-176 | the loop over the tail computes the specified eviction |
| `Imbalance.ImbalanceState.OnTrade` | nexus/internal/features/imbalance.go:57-101 | the state after a trade is the specified one, for any input; a trade on neither side changes nothing |
| `Imbalance.ImbalanceState.Value` | nexus/internal/features/imbalance.go:109-124 | the value read is that of the state, which ValueIsImbalance ties to the trades of the window |
| `RateLimiter.GrantedWithin` | src/utils/rate_limiter.py:86-131 | a call is given more than the burst if and only if it waits and asks for more |
| `RateLimiter.StepLevel` | src/utils/rate_limiter.py:75-131 | one call keeps the tokens in [0, burst] if and only if it does not wait for more than the burst and gives back no more than there is room for |
| `RateLimiter.StepGrants` | src/utils/rate_limiter.py:75-131 | what a call is given comes out of a bucket that is at most full, and was before at most what has accrued since |
| `RateLimiter.RefilledIs` | src/utils/rate_limiter.py:75-80 | a refill adds the rate times the time gone by, up to the burst |
| `RateLimiter.EnoughIs` | src/utils/rate_limiter.py:75-80 | a call finds enough if and only if it asks for no more than the burst, and the tokens and the rate times the time since the last refill come to what it asks for |
| `RateLimiter.WaitIsEnough` | src/utils/rate_limiter.py:104-118 | a sleep lets as much accrue as was missing if and only if it lasts the deficit over the rate, which is positive |
| `RateLimiter.PunctualIs` | src/utils/rate_limiter.py:104-118 | the assumption on clocks: they do not run backwards, and a call that waits looks again no earlier than that |
| `RateLimiter.TokensAccounted` | src/utils/rate_limiter.py:86-131 | a call leaves exactly the tokens it found less those it was given; a refused request changes nothing |
| `RateLimiter.CountersCount` | src/utils/rate_limiter.py:86-131 | over every run the counters count the calls that were served and those that had to wait |
| `RateLimiter.TokensLevel` | src/utils/rate_limiter.py:75-131 | over every run with a true clock, tokens are in [0, burst] at every moment if and only if every call fits in that sense |
| `RateLimiter.RateBound` | src/utils/rate_limiter.py:75-131 | in every span of time of length T the tokens given are at most burst + rate * T and those given back in it, when no call waits for more than the burst |
| `RateLimiter.RateBoundExactly` | src/utils/rate_limiter.py:86-131 | whatever is asked for or given back: every stretch of calls, of length T, is given, net, at most burst + rate * T, if and only if no call waits for more than the burst |
| `RateLimiter.SpanBoundExactly` | src/utils/rate_limiter.py:86-131 | where nothing is given back: every span of length T is given at most burst + rate * T, if and only if no call waits for more than the burst |
| `RateLimiter.OversizedGoesIntoDebt` | src/utils/rate_limiter.py:104-121 | a request for more than the burst is granted all the same and leaves the bucket below zero |
| `RateLimiter.NegativeOverfills` | src/utils/rate_limiter.py:123-131 | a negative request is not refused by the call that does not wait, and overfills a full bucket |
| `RateLimiter.GivenAgain` | src/utils/rate_limiter.py:123-131 | a concrete run: tokens given back are given again, so two are given at one moment with room for one |
| `RateLimiter.AsyncRateLimiter.Acquire` | src/utils/rate_limiter.py:86-121 | the bucket after the call is the specified one, for the fast path, the sleep, a cancelled sleep and a refused request; a call that waits asks to sleep for the deficit over the rate |
| `RateLimiter.AsyncRateLimiter.TryAcquire` | src/utils/rate_limiter.py:123-131 | it succeeds if and only if it asks for no more than the burst, and the tokens and the rate times the time since the last refill come to it; the bucket is then the specified one |
| `RateLimiter.Make` | src/utils/rate_limiter.py:50-69 | a rate that is not positive is refused; otherwise the bucket starts full, by default with room for at least one token |
| `Uuid7.SortsByTime` | src/events/base.py:48-71 | of two identifiers for times below 2^48 ms, whatever the random bytes, the earlier comes first as text |
| `Uuid7.IntentsSortByTime` | src/utils/idempotency.py:62-76 | so do intent identifiers, for any digest |
| `Uuid7.SameIntentId` | src/utils/idempotency.py:60-76 | two intents get the same identifier if and only if their times are the same and so are the 74 bits that are kept of their digests |
| `Uuid7.StartsOver` | src/events/base.py:51-52 | beyond 2^48 ms the identifiers start over |
| `Uuid7.VersionBits` | src/events/base.py:60-64 | the version is 7 and the variant binary 10, and no other bit changes |
| `Uuid7.BytesHold` | src/events/base.py:51-64 | the first six bytes are the time, most significant first, and behind it stand the ten other bytes but for version and variant |
| `Uuid7.TextRead` | src/events/base.py:67-71 | the text gives the sixteen bytes back: hyphens after 8, 12, 16 and 20 digits, two hexadecimal digits a byte |
| `Uuid7.Stamp` | src/events/base.py:58-64 | the in-place edit of the byte array sets exactly those bits |

## Left out

- Index and metadata files of the file backend: they are written and never read back. Checkpoints, disk errors and fsync are not modelled; neither is a crash between the key-value backend's separate writes.
- Checksums and digests are arbitrary functions (concrete runs of the log use that the checksum of no data is 0); record timestamps are their 64-bit patterns, compared as numbers, which orders nonnegative times.
- `WalStore.RawWal`: the asynchronous lock and worker threads are not modelled; each operation is one step. `verify_integrity` and `read_entries` are left out: they go over the same range reads as `read`.
- `GraphEngine.Engine`: nodes and edges are values in the engine's maps, so that two references to one node are not captured; the lock-free pre-check of a transfer and its locked part are one step, and the propagation that a rug mark sets off is a step of its own in a run.
- Graph snapshots: loading is a start of a run, its encoding and saving are left out. Loading counts all nodes, exchanges included, so with exchanges the node statistic of a loaded graph is not the one that `GraphRuns.Structure` asks for.
- Risk score, cluster size, seed funder (it depends on map order), Sybil and funding-tree detection, time decay (an edge's weight is an input) and query timing of the graph.
- Decimal rounding, except in the order's average price; positions, backtest and windows compute in exact reals, so floating-point drift is not modelled.
- Dotted string keys of positions and open entries are tuples here: the strings identify the parts only when these have no dots.
- Position exposure, per-strategy profit, opening times and snapshots of positions are left out: they only read what is modelled.
- Event publishing, logging, tracing, wall-clock stamps and observability counters that decide nothing.
- `Execute` and the two ways from a signal to intents, in the engine and in the backtest: intents are arbitrary.
- The engine's `EngineSteps.RunSys` leaves out what happens when the process stops in the middle of a call: orders live in memory only.
- CANCEL_REJECT never arises in the engine, which only acknowledges cancels; the state machine covers it.
- `PaperBroker.Broker`: exchange ids count in unbounded integers, not in 64 bits; fill ids are inputs. The queries that copy pending orders and fills are left out: they only read what is modelled.
- `Backtest.Run`: quantities are positive and sides are buy or sell where agreement is claimed; a fill of zero or negative quantity, or of another side, is outside it. An order whose intent id has fewer than eight characters, on which the fill panics, is not modelled, nor are entry and exit times.
- The event loop of the backtest (loading, sorting, timers) and the strategy it drives: deals, prices and times are inputs.
- Sharpe, Sortino, Calmar, profit factor, holding periods and turnover.
- Per-symbol maps of the rolling windows and their `Ready` and `Reset`: each symbol has a state of its own. The unused `full` flag.
- `RateLimiter.RateBoundExactly`: assumes a monotonic clock, sleeps that do not end early and a burst that is not negative, which the source does not check; the approximate unlocked snapshot of tokens and the registry are left out.
- Formatting of the intent's payload: the digest's input is an arbitrary byte sequence.
- Network, storage and wallet plumbing, the bus, the control plane and the other strategies of the repository.
