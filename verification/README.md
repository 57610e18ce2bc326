# A verified model of the block index

This project models the parts of the indexer that decide whether its output is
right, and proves what they keep. Running `dafny verify dfyconfig.toml` checks
all of it.

The source works by changing things step by step, so the model does too:
methods with loops and classes with fields, each proved against a function that
says what it computes; the properties themselves are then lemmas about those
functions, over every input, every run or every reachable state.

| module | what it models |
|---|---|
| `UtxoSpec`, `ReferenceLedger`, `UtxoRefinement`, `UtxoReorg`, `Conservation` | what applying and disconnecting a block means: the three-phase apply against one transaction at a time, the inverse law, conservation of value |
| `UtxoStore`, `RecentCache`, `UndoCodec` | the store as it runs: pending map, recent-output cache, write batch, undo log, tip; the byte codecs |
| `SpendRows` | the spend rows column by column: which input spends, which output is spent, over any number of blocks |
| `FeeLog`, `LogRows` | the log a run leaves: its fee columns, its spend rows, conservation of value over the whole run |
| `Pipeline`, `PipelineBounds`, `PipelineRuns` | the parallel parse stage as a state machine over the steps of all threads: workers, channel, reordering consumer, skipped heights; its invariant, its bounds, its whole runs |
| `PipelineJam`, `PipelineStall`, `PipelineSolo`, `PipelineWitness` | the runs that never finish and exactly when there are any; the runs that fill the reorder buffer |
| `PipelineConsumer` | that machine's consumer against the ordered consumer |
| `FileCache` | the shared file cache as a state machine over the steps of all threads |
| `OrderedConsumer`, `IndexRun` | the consumer that reorders blocks by height, on its own and with store, sink and counters |
| `Tracker`, `TrackerEvents`, `TrackerLimits`, `ForkExample`, `LiveTracker` | catching up with a node: as functions, what a call reports, where it goes wrong, on which chains, and as the loop over the store |
| `Wire`, `TxSyntax`, `TxLaws`, `TxRows`, `TxParser`, `Script` | the cursor, the transaction and block parser (BIP 144, section "Serialization"; BIP 141, sections "Transaction ID" and "Transaction size calculations"), the rows it produces, script classification |
| `RowColumns`, `ScriptForms` | every column of a parsed block from the transactions it was written from; the code and address stored for each standard script |
| `Truncation`, `Layouts` | what cut or padded bytes parse to; the byte layouts, field by field at their offsets |
| `ChainIndex` | choosing the main chain by cumulative work |
| `BlkFile`, `Xor` | record framing and obfuscation of block files |
| `EndToEnd` | the components put together: from the bytes of a file to the effect on the ledger |
| `Bytes`, `Rows`, `Runs`, `Sets`, `Wrappers` | integers and encodings, row types, runs of steps, sizes of sets, results |

## Conventions

- Integers have the widths of the source. Additions that wrap in the release
  profile are written with an explicit modulus, saturating ones with an
  explicit cap, truncating casts with a remainder.
- SHA-256 based hashes are parameters of the functions that use them. No
  theorem needs more of them than what its hypotheses say (distinct txids,
  hashes that identify a chain, an acyclic parent relation).
- The database is a map, the undo log maps heights to raw bytes, a write batch
  is one atomic ordered update, and the Parquet sink is an append-only log that
  records the part each block was pushed into.
- Hash maps are visited in any order: the loops pick elements arbitrarily.

## Where the code and its documentation differ

- README.md:173-177 says that blocks are disconnected until a common ancestor
  is found. The loop takes the previous hash from the node
  (crates/bidx-live/src/tracker.rs:170-175), so the next comparison always
  succeeds and at most one block is disconnected (`ReconcileStopsAfterOne`).
  A call that finds the stored tip replaced leaves the store in sync exactly when
  the fork is one block deep (`InSyncIff`). At any greater depth it reports
  success all the same, and an output of the abandoned branch below its tip stays
  in the set unless a block of the node names it (`AbandonedOutputStays`).
  `ThreeBlockFork` gives two chains on which this happens.
- A call that finds the stored tip gone succeeds exactly when the node is at most
  one block behind (`SucceedsIff`). Otherwise it fails after the undo record is
  consumed and before the stored tip is moved
  (crates/bidx-live/src/tracker.rs:152-176). From then on every call against a
  node without that tip fails (`NodeFarBehindStrands`); one against a node that
  has the tip again succeeds in silence, and builds on a set that lacks the
  tip's block (`SilentSuccess`). No sequence of calls, whatever the nodes serve,
  brings the store back in sync (`NeverInSyncAgain`), and the lost block's new
  outputs stay missing from the set (`LostOutputsStayLost`).
- crates/bidx-cli/src/pipeline.rs:291-293 speaks of a buffer of about
  `REORDER_HIGH` blocks. The bound that holds is
  `REORDER_HIGH + CHANNEL_DEPTH + workers + 1`, or 545 plus the workers, one less while the consumer waits
  in `recv` (`BufferBounded`); for two workers or more both are reached
  (`FullBuffer`, `FullWhileReceiving`). The one comes from the item the consumer
  has taken off the channel and not counted yet
  (crates/bidx-cli/src/pipeline.rs:491-495): its slot is free and the counter
  still low.
- crates/bidx-cli/src/pipeline.rs:295-299 says that letting the worker with the
  next height through rules out a deadlock. The consumer looks at skipped heights
  only before it drains blocks (crates/bidx-cli/src/pipeline.rs:505-517). When a
  block arrives whose successor is a skip received earlier, the consumer goes back
  to receiving and nobody holds the height it waits for. If more than 33 blocks
  follow, a run exists in which the channel is empty and a worker spins above the
  watermark for good; otherwise one exists that ends there, spinning or with all
  workers done and the channel closed early (`StallingRun`). The
  pipeline always finishes exactly when there is one worker or no skipped height
  directly follows an indexed one (`FinishesIff`); for the consumer alone see
  `CompletesIff`. That it can fail otherwise is shown over all the ways heights may
  be dealt out to workers; a given splitter of `par_iter` need not produce the
  failing one, as when one worker keeps both heights of every such pair.
- Undo restores the previous set exactly when no surviving output replaced an
  entry (`DisconnectRestoresIff`), a condition the code does not check.
- crates/bidx-parser/src/blkfile.rs:162-167 calls the record walk exact also for
  obfuscated files. The zero padding of such a file decodes to the key, and
  the walk is exact unless that passes for a record
  (`WalkStopsAfterLastRecord`), which some keys bring about (`PhantomRecord`).
- crates/bidx-parser/src/blkfile.rs:202-208 hands a malformed file over whole so
  that the iterator reports it. With fewer than eight bytes, or fewer than eight
  after decoded zeros, it reports nothing (`OpenedFileIterates`,
  `ShortFileIsSilent`).
- Stripping the witness is exact unless the input count is the single byte zero
  (`StrippedReparsesIff`).
- The key counter of the multisig recogniser is one byte wide
  (crates/bidx-core/src/script.rs:162); from 8741 bytes on it can wrap
  (`CounterWraps`).

## Model

| member | source | states |
|---|---|---|
| UtxoRefinement.ApplyRefinesLedger | crates/bidx-store/src/utxo.rs:529-687 | for orderly blocks, seeding, resolving and flushing gives the set, spend rows, fees and missing count of applying transactions one at a time |
| UtxoRefinement.LedgerFees | crates/bidx-store/src/utxo.rs:655-658 | the fee the block-wide passes compute for a transaction is that of the transaction on its own |
| UtxoStore.RecordSpend | crates/bidx-store/src/utxo.rs:880-902 | appends the spend row and keeps every fee at the capped sum of what its transaction has taken in |
| UtxoStore.DebitOutputs | crates/bidx-store/src/utxo.rs:655-658 | saturating subtractions after saturating additions leave inputs capped at 64 bits less outputs, floored at zero |
| UtxoStore.DrainInto | crates/bidx-store/src/utxo.rs:660-662 | whatever order the pending map is drained in, the batch adds exactly the pending outputs |
| UtxoStore.SpendPending | crates/bidx-store/src/utxo.rs:578-591 | a same-block spend moves the loop state along the input scan |
| UtxoStore.SpendStored | crates/bidx-store/src/utxo.rs:596-615 | a spend answered by cache or database moves it along the same scan |
| UtxoStore.Store.SeedPending | crates/bidx-store/src/utxo.rs:549-563 | pending holds every output of the block, a later row replacing an earlier one |
| UtxoStore.Store.ResolveStored | crates/bidx-store/src/utxo.rs:592-625 | cache, else database, else missing: the same effect with any coherent cache and with none, and one counter raised |
| UtxoStore.Store.ResolveInput | crates/bidx-store/src/utxo.rs:573-625 | an input is resolved alike with any coherent cache and with none, and counted once; a pending hit is one pending output fewer |
| UtxoStore.Store.Flush | crates/bidx-store/src/utxo.rs:627-687 | publishing, the second fee pass and one write batch finish what the scan began, undo record included |
| UtxoStore.Store.ResolveInputs | crates/bidx-store/src/utxo.rs:573-625 | the whole loop follows the input scan; hits and lookups add up to the non-coinbase inputs, pending hits are the outputs that left pending |
| UtxoStore.Store.PublishToCache | crates/bidx-store/src/utxo.rs:640-645 | publishing survivors leaves every cached entry equal to the entry about to be written, and caches all of them when the budget has room |
| UtxoStore.Store.CreatedKeys | crates/bidx-store/src/utxo.rs:651-653 | the undo record lists the created keys without those spent in the block |
| UtxoStore.Store.ApplyBlock | crates/bidx-store/src/utxo.rs:529-687 | set, undo log, spends, fees and missing count are those of the specification for every cache state and budget; coherence is kept; pending hits, cache hits and lookups are exact, and a cache with room holds every surviving output afterwards |
| UtxoStore.Store.DisconnectBlock | crates/bidx-store/src/utxo.rs:691-715 | plays the record back and consumes it, or fails and changes nothing |
| UtxoStore.TipRoundTrip | crates/bidx-store/src/utxo.rs:718-743 | a stored tip reads back |
| SpendRows.SpendNamesItsOutput | crates/bidx-store/src/utxo.rs:549-687 | an output created at one height and named, not before, by an input of the same block or of one any number of blocks later: the later block has a spend row with the spending txid, indices and height of that input and the txid, index, value, script type, address and height of that output |
| SpendRows.OwnSpendRow | crates/bidx-store/src/utxo.rs:578-591 | the same within one block, on any set |
| SpendRows.StoredSpendRow | crates/bidx-store/src/utxo.rs:592-625 | an input that names nothing of its block spends the stored entry, column by column |
| SpendRows.RowsComeFromInputs | crates/bidx-store/src/utxo.rs:573-625 | spend rows are those of non-coinbase inputs in input order, at most one each; the other non-coinbase inputs are counted missing |
| UtxoReorg.SameBlockIsNamed | crates/bidx-store/src/utxo.rs:578-590 | an output is marked spent-in-block exactly when a non-coinbase input of the block names it |
| UtxoReorg.DisconnectAfterApply | crates/bidx-store/src/utxo.rs:529-715 | for every block and set, disconnecting after applying gives the prior set without the keys that survived the block |
| UtxoReorg.DisconnectRestoresIff | crates/bidx-store/src/utxo.rs:529-715 | the prior set comes back if and only if no surviving output was already a key |
| UtxoReorg.UnwindRestores | crates/bidx-store/src/utxo.rs:689-715 | unwinding any number of blocks of a run, highest first, returns the database before them, undo log included |
| Conservation.BlockConserves | crates/bidx-store/src/utxo.rs:573-662 | unspent value plus counted fees after a block equals unspent value before plus coinbase outputs |
| FeeLog.RunConserves | crates/bidx-cli/src/pipeline.rs:547-569 | for the items a run handles, skips included: unspent value at the end plus the total_fee column of all block rows written equals unspent value before plus value issued |
| LogRows.LogTellsBlocks | crates/bidx-cli/src/pipeline.rs:528-577 | the log has one entry for each block handled, in order: under part height / blocks-per-part the parsed rows unchanged but for the fees, each fee what the spend rows say the transaction takes in less what its output rows pay out, total_fee the capped sum of the fee column without coinbases, and the block's spend rows |
| LogRows.LoggedFeesBalance | crates/bidx-cli/src/pipeline.rs:547-563 | over a run of valid blocks: in every entry fee plus outputs of a transaction is what its spend rows take in, and a coinbase's fee is zero |
| LogRows.MissingIsUnresolved | crates/bidx-cli/src/pipeline.rs:535-577 | the missing count of a run is the number of non-coinbase input rows in the log without a spend row |
| RecentCache.EvictionMeetsBudget | crates/bidx-store/src/utxo.rs:179-191 | eviction meets the budget, drops a prefix of the queue, and no shorter prefix would do |
| RecentCache.RecentUtxoCache.EvictToBudget | crates/bidx-store/src/utxo.rs:179-191 | the loop performs that eviction |
| RecentCache.RecentUtxoCache.Insert | crates/bidx-store/src/utxo.rs:149-154 | refreshes a present key in place, queues a new one, and never exceeds the budget |
| RecentCache.RecentUtxoCache.Remove | crates/bidx-store/src/utxo.rs:161-173 | answers and forgets a key, counting hit or miss |
| UndoCodec.MakeKeyInjective | crates/bidx-store/src/utxo.rs:86-91 | different outpoints have different keys |
| UndoCodec.UndoKeyOrder | crates/bidx-store/src/utxo.rs:203-205 | undo keys sort byte by byte as heights sort |
| UndoCodec.ValueRoundTrip | crates/bidx-store/src/utxo.rs:54-83 | decoding an encoded value returns it |
| UndoCodec.VarintRoundTrip | crates/bidx-store/src/utxo.rs:260-303 | reading back a written CompactSize returns the number and leaves what follows |
| UndoCodec.UndoRoundTrip | crates/bidx-store/src/utxo.rs:216-257 | decoding an encoded undo record followed by any bytes returns the record |
| UndoCodec.PutVarint | crates/bidx-store/src/utxo.rs:260-276 | appends the encoding the reader inverts |
| UndoCodec.EncodeUndo | crates/bidx-store/src/utxo.rs:217-229 | the writing loop produces the record the round trip is about |
| UndoCodec.DecodeUndo | crates/bidx-store/src/utxo.rs:231-256 | the reading loop accepts and returns exactly what the record denotes, for every byte string |
| Layouts.ValueLayout | crates/bidx-store/src/utxo.rs:54-83 | a value is amount, script type, height and address at offsets 0, 8, 9 and 13 |
| Layouts.VarintLayout | crates/bidx-store/src/utxo.rs:260-276 | a CompactSize has one byte below 253, else a marker and 2, 4 or 8 little-endian bytes |
| Layouts.UndoLayout | crates/bidx-store/src/utxo.rs:216-229 | an undo record is a count, spent entry i 81 times i bytes after it, a count, created key i 36 times i bytes after that, and nothing else |
| Truncation.CutRecord | crates/bidx-store/src/utxo.rs:231-256 | an undo record cut anywhere short of its end is refused |
| OrderedConsumer.ConsumeInOrder | crates/bidx-cli/src/pipeline.rs:483-588 | for every item stream heights are handled consecutively from the start, each as delivered, none twice |
| OrderedConsumer.EveryOrderCompletes | crates/bidx-cli/src/pipeline.rs:483-596 | without a skip right after a block every delivery order of the range finishes |
| OrderedConsumer.LastBlockStalls | crates/bidx-cli/src/pipeline.rs:505-517 | a block that arrives last before a skipped height leaves the consumer short of the end |
| OrderedConsumer.CompletesIff | crates/bidx-cli/src/pipeline.rs:483-596 | all delivery orders finish if and only if no skipped height directly follows an indexed one |
| OrderedConsumer.ArrivalOrderIrrelevant | crates/bidx-cli/src/pipeline.rs:483-588 | two deliveries of the same items are handled item for item alike |
| IndexRun.CoinbaseFlags | crates/bidx-cli/src/pipeline.rs:547-555 | a flag is set exactly for transactions with a coinbase input |
| IndexRun.EnrichBlock | crates/bidx-cli/src/pipeline.rs:556-563 | fills in the fees and the capped total of non-coinbase fees |
| IndexRun.Rotate | crates/bidx-cli/src/pipeline.rs:528-534 | opens the wanted part exactly if it is not the open one, never an earlier one |
| IndexRun.HandleBlock | crates/bidx-cli/src/pipeline.rs:528-577 | one block adds exactly its ledger step and its rows under its part id |
| IndexRun.AdvancePastSkips | crates/bidx-cli/src/pipeline.rs:505-515 | the skip loop moves past contiguous skipped heights and touches neither store nor rows |
| IndexRun.DrainBuffer | crates/bidx-cli/src/pipeline.rs:517-587 | the drain loop applies buffered blocks while the next height is there, lowering the shared depth once per block |
| IndexRun.ReceiveAll | crates/bidx-cli/src/pipeline.rs:491-595 | the receive loop as a whole mirrors the consumer's handled heights |
| IndexRun.ConsumeOrdered | crates/bidx-cli/src/pipeline.rs:465-596 | returns Ok exactly when the consumer finishes; set, rows and missing count are those of the handled heights in ascending order, with or without cache; the parts opened are the first one and one more wherever the part of the log changes, none twice |
| IndexRun.OutputIgnoresArrivalOrder | crates/bidx-cli/src/pipeline.rs:465-596 | two delivery orders leave the same set, rows and missing count |
| Pipeline.StepKeepsInv | crates/bidx-cli/src/pipeline.rs:279-588 | every step of any worker or the consumer, skipped heights included, keeps each height in exactly one place, blocks apart from skips, and the counter equal to the buffer but for a block just inserted or just removed |
| Pipeline.SomeStepEnabled | crates/bidx-cli/src/pipeline.rs:295-307 | until the consumer is done some step other than stealing is possible, unless the consumer is waiting for a height it has been told to skip |
| Pipeline.StepLowersRank | crates/bidx-cli/src/pipeline.rs:279-588 | every step lowers a rank bounded by heights and workers |
| PipelineRuns.RunsTerminate | crates/bidx-cli/src/pipeline.rs:279-345 | no run, with or without skips, is longer than a limit given by the heights and the workers |
| PipelineRuns.StuckMeansDone | crates/bidx-cli/src/pipeline.rs:279-363 | without a skip right after a block, a run that can go no further has handled every height once in ascending order |
| PipelineRuns.BufferBounded | crates/bidx-cli/src/pipeline.rs:491-522 | at every moment of every run the reorder buffer holds no skips and at most 545 plus the number of workers (watermark, channel, workers and one); one less while the consumer receives, unless it waits for a height it was told to skip |
| PipelineRuns.HandledInOrder | crates/bidx-cli/src/pipeline.rs:505-587 | at every moment what has been skipped or applied is an ascending run from the start |
| PipelineWitness.FullWhileReceiving | crates/bidx-cli/src/pipeline.rs:291-495 | for every number of workers from two on a run reaches the receiving bound while the consumer waits, a worker having passed the check on a counter not yet raised |
| PipelineWitness.FullBuffer | crates/bidx-cli/src/pipeline.rs:291-495 | and a run reaches the overall bound exactly |
| PipelineJam.JamHolds | crates/bidx-cli/src/pipeline.rs:295-307 | once the consumer waits for a skip it holds, nothing is in transit and workers are held back or idle, every further step keeps it so |
| PipelineJam.JamStays | crates/bidx-cli/src/pipeline.rs:295-517 | however a run goes on from there, at every later moment the consumer still waits for that height and spinning workers still spin |
| PipelineJam.JamToTheEnd | crates/bidx-cli/src/pipeline.rs:295-517 | any run into such a state extends to one that can go no further, with the consumer still waiting |
| PipelineStall.StallingRun | crates/bidx-cli/src/pipeline.rs:295-517 | for any range with a block followed by a skip and any two or more workers, a run that ends stuck at the skip, workers spinning if more than 33 blocks follow |
| PipelineSolo.SoloFinishes | crates/bidx-cli/src/pipeline.rs:279-588 | with one worker every run that can go no further has handled all heights, wherever the skips are |
| PipelineStall.FinishesIff | crates/bidx-cli/src/pipeline.rs:279-588 | every maximal run handles every height if and only if there is one worker or no skip directly follows a block |
| PipelineConsumer.StepFollows | crates/bidx-cli/src/pipeline.rs:491-588 | at every step, inside the loops too, the consumer is on its way to the result of the ordered consumer on the items received |
| PipelineConsumer.ReceivesAsConsume | crates/bidx-cli/src/pipeline.rs:491-588 | whenever it receives or has returned, next height, buffer, skips and handled heights are those the ordered consumer computes |
| PipelineConsumer.SchedulesAgree | crates/bidx-cli/src/pipeline.rs:279-588 | without a skip right after a block every schedule of any number of workers makes the ordered consumer finish with the same handled items |
| FileCache.MoveToBackFacts | crates/bidx-cli/src/pipeline.rs:421-426 | moving an id to the back keeps the list free of duplicates and loses none |
| FileCache.EvictOldestKeepsRecent | crates/bidx-cli/src/pipeline.rs:427-434 | eviction keeps the sixteen most recent ids and unmaps only what it popped |
| FileCache.Cache.Forget | crates/bidx-cli/src/pipeline.rs:422-425 | takes the id out of the list wherever it is |
| FileCache.Cache.Touch | crates/bidx-cli/src/pipeline.rs:420-435 | list and map after a touch are those of the eviction function |
| FileCache.StepKeepsInv | crates/bidx-cli/src/pipeline.rs:420-459 | under every interleaving each mapped id is listed or pending with one thread, and the list is bounded outside the lock |
| FileCache.CacheBounded | crates/bidx-cli/src/pipeline.rs:365-459 | over every run of any number of threads at most 16 + threads files are resident, 16 at rest |
| Tracker.HoldsRetracts | crates/bidx-live/src/tracker.rs:152-176 | disconnecting the tip of a held chain leaves its predecessor's set and records |
| Tracker.ForwardHolds | crates/bidx-live/src/tracker.rs:179-219 | applying forward puts the node's remaining blocks on top of what is held |
| Tracker.ReconcileStopsAfterOne | crates/bidx-live/src/tracker.rs:122-177 | against a node that does not change the reconcile loop disconnects exactly one block |
| Tracker.CatchUpExtends | crates/bidx-live/src/tracker.rs:97-223 | a tip the node still has: nothing is disconnected and the call ends in sync |
| Tracker.CatchUpPatches | crates/bidx-live/src/tracker.rs:97-223 | a tip the node lost, however deep the fork: one block goes and the node's blocks from that height follow |
| Tracker.CatchUpFollows | crates/bidx-live/src/tracker.rs:97-223 | for forks at most one deep the call succeeds, with at most one disconnect, in sync with the node |
| Tracker.CatchUpIdempotent | crates/bidx-live/src/tracker.rs:241-248 | a repeated call changes nothing and reports only that it has caught up |
| Tracker.CallsStayInSync | crates/bidx-live/src/tracker.rs:225-262 | over any sequence of calls between which the node extends or replaces its tip, each ends in sync |
| TrackerEvents.ForwardReports | crates/bidx-live/src/tracker.rs:179-219 | the forward loop reports one applied block per height, ascending from the first missing one to the node's tip, each with that height, the node's hash and the block's spend rows on the set below it, which for an orderly block are those of its transactions one at a time |
| TrackerEvents.ExtendingCallReports | crates/bidx-live/src/tracker.rs:97-223 | a tip the node still has: exactly those events for the blocks above it, then the height reached |
| TrackerEvents.PatchingCallReports | crates/bidx-live/src/tracker.rs:97-223 | a tip the node lost, at any fork depth: the reorg and the dropped block, the node's blocks from its height as applied to what is left, the height reached |
| TrackerEvents.FollowingCallReports | crates/bidx-live/src/tracker.rs:97-223 | forks at most one deep: the applied events are of the node's blocks on the node's own sets |
| TrackerEvents.FailedCallReports | crates/bidx-live/src/tracker.rs:122-176 | a call that fails on a node far behind has reported the dropped block and no other |
| TrackerEvents.FirstCallAdoptsTip | crates/bidx-live/src/tracker.rs:99-117 | without a stored tip nothing is applied or undone and the node's tip is stored, so the store is in sync if and only if its set and records already were the node's; a second call changes nothing |
| TrackerLimits.InSyncIff | crates/bidx-live/src/tracker.rs:97-223 | a replaced tip: the call succeeds, and set and undo records are the node's if and only if everything below that tip is still in the node's chain |
| TrackerLimits.AbandonedOutputStays | crates/bidx-live/src/tracker.rs:162-219 | at any fork depth an output below the tip that is not in the node's set and that none of the node's applied blocks names is still in the set after a successful call |
| TrackerLimits.SucceedsIff | crates/bidx-live/src/tracker.rs:119-177 | a call that finds the stored tip gone succeeds if and only if reorgs are allowed and the node is at most one block behind |
| TrackerLimits.NodeFarBehindStrands | crates/bidx-live/src/tracker.rs:124-176 | a node further behind makes the call fail with the tip's block undone, and every later call against a chain without the stored tip fail and change nothing |
| TrackerLimits.SilentSuccess | crates/bidx-live/src/tracker.rs:97-223 | against a chain that has the stored tip the later call succeeds and applies what follows to the set that lacks the tip's block |
| TrackerLimits.NeverInSyncAgain | crates/bidx-live/src/tracker.rs:97-262 | after such a failure no sequence of calls against any chains has the store in sync with any chain down to the lost block |
| TrackerLimits.LostOutputsStayLost | crates/bidx-live/src/tracker.rs:97-262 | outputs new in the lost block, and created by no block above it on any chain served, are in the set after no sequence of calls, so it is never the set of a chain that has one of them |
| ForkExample.ThreeBlockFork | crates/bidx-live/src/tracker.rs:162-219 | two concrete three-block chains with a common first block: the call succeeds, is out of sync, and keeps an abandoned output |
| LiveTracker.LiveTracker.StepBack | crates/bidx-live/src/tracker.rs:138-176 | one round of the loop: store, stored tip and events as in the reconcile function |
| LiveTracker.LiveTracker.ReconcileWith | crates/bidx-live/src/tracker.rs:119-177 | the reconcile loop equals the reconcile function, failures included |
| LiveTracker.LiveTracker.ApplyForward | crates/bidx-live/src/tracker.rs:179-219 | the forward loop applies the missing blocks and advances the stored tip with each |
| LiveTracker.LiveTracker.Run | crates/bidx-live/src/tracker.rs:97-223 | a call leaves exactly the store, tip, failure and events of the catch-up function |
| Wire.VarintReadersAgree | crates/bidx-core/src/cursor.rs:135-145 | the cursor's CompactSize reader and the undo log's accept the same strings with the same value and length |
| Wire.VarintBack | crates/bidx-core/src/cursor.rs:135-145 | a written CompactSize reads back at any position |
| Wire.CountMoved | crates/bidx-core/src/cursor.rs:147-156 | a count depends only on the bytes it consumes |
| TxLaws.TxRoundTrip | crates/bidx-parser/src/tx.rs:103-259 | parsing a written transaction, whatever surrounds it, returns every field, the stripped preimage and the length |
| TxLaws.BlockRoundTrip | crates/bidx-parser/src/tx.rs:41-73 | parsing a written block returns its transactions in order and consumes every byte |
| TxLaws.StrippedReparsesIff | crates/bidx-parser/src/tx.rs:203-225 | the bytes hashed for a witness txid parse as the same transaction without witness if and only if the count's first byte is not zero |
| Layouts.TxLayout | crates/bidx-parser/src/tx.rs:103-225 | a written transaction: signed version, marker and flag, inputs, outputs, witnesses, lock time; the bytes hashed are those without marker, flag and witnesses |
| Layouts.CountLimit | crates/bidx-core/src/cursor.rs:147-156 | a written count is read up to four million and refused above |
| Layouts.ValueLimit | crates/bidx-parser/src/tx.rs:166-169 | an output is refused for its value exactly above 2.1 quadrillion |
| Truncation.TxMoved | crates/bidx-parser/src/tx.rs:103-259 | parsing a transaction depends on nothing but the bytes it consumes, wherever they stand |
| Truncation.CutPayload | crates/bidx-parser/src/tx.rs:41-73 | any payload that parses: cut before the end of its last transaction it fails, cut after it parses the same |
| Truncation.TrailingBytes | crates/bidx-parser/src/tx.rs:41-73 | bytes after the last transaction change nothing |
| Truncation.MissingTransactions | crates/bidx-parser/src/tx.rs:49-73 | a count above the number of transactions present is an end-of-data error |
| Truncation.MarkerAndFlag | crates/bidx-parser/src/tx.rs:112-121 | a zero count byte is a marker: the next byte is the flag reported, and if it is zero too the transaction is refused |
| RowColumns.WrittenInputRow | crates/bidx-parser/src/tx.rs:137-198 | the row of input i of transaction t of a written block, column by column from the transaction; it is a coinbase if and only if it is the only input, names the zero txid and index 0xFFFFFFFF |
| RowColumns.WrittenOutputRow | crates/bidx-parser/src/tx.rs:163-183 | the same for outputs, with the code and address their script's content calls for |
| RowColumns.WrittenTxRow | crates/bidx-parser/src/tx.rs:203-257 | the same for transactions: sizes, weight, counts, version, lock time |
| RowColumns.WrittenBlockRow | crates/bidx-parser/src/tx.rs:68-91 | the block row: header fields, count, size, and the coinbase value as the sum of the first transaction's outputs |
| TxRows.InputsDense | crates/bidx-parser/src/tx.rs:57-66 | input i of transaction t is exactly row start(t) + i, under its own txid and indices |
| TxRows.OutputsDense | crates/bidx-parser/src/tx.rs:57-66 | the same for outputs |
| TxRows.ParsedBlocksAreWellFormed | crates/bidx-parser/src/tx.rs:41-99 | rows of any parsed block name only its own transactions, which the store relies on |
| TxRows.WrittenBlockParses | crates/bidx-parser/src/tx.rs:41-99 | a written block parses to exactly the expected rows |
| TxRows.StrippedRowsAgree | crates/bidx-parser/src/tx.rs:203-257 | the stripped form gives the same txid, inputs without witness fields, outputs, version and locktime, weight four times its size |
| TxRows.BlockWeight | crates/bidx-parser/src/tx.rs:75-75 | the stored weight is the BIP 141 weight less four times the length of the count, capped at 32 bits |
| TxParser.Cursor.ReadUint | crates/bidx-core/src/cursor.rs:51-109 | bounds-checked little-endian reads; a failed one does not move |
| TxParser.Cursor.ReadSlice | crates/bidx-core/src/cursor.rs:111-126 | returns the next bytes and moves past them, or fails in place |
| TxParser.Cursor.Skip | crates/bidx-core/src/cursor.rs:128-133 | fails exactly when reading would |
| TxParser.Cursor.ReadCompact | crates/bidx-core/src/cursor.rs:135-145 | the byte-by-byte reader agrees with the positional one, errors included |
| TxParser.Cursor.ReadItems | crates/bidx-core/src/cursor.rs:147-156 | rejects counts above four million |
| TxParser.ReadHeadAt | crates/bidx-parser/src/tx.rs:112-135 | marker, flag and input count, with the unchecked short forms of the legacy path |
| TxParser.ReadInputs | crates/bidx-parser/src/tx.rs:137-161 | the input loop yields one row per parsed input, or the first error |
| TxParser.ReadOutputs | crates/bidx-parser/src/tx.rs:163-183 | the output loop yields one classified row per parsed output, or the first error |
| TxParser.ReadStack | crates/bidx-parser/src/tx.rs:190-196 | item count and byte total, modulo 32 bits, of one witness stack |
| TxParser.ReadStacks | crates/bidx-parser/src/tx.rs:188-198 | fills in the witness fields of each input row in place |
| TxParser.HashedBytes | crates/bidx-parser/src/tx.rs:203-225 | the three slices fed to the hash concatenate to the bytes without marker, flag and witness |
| TxParser.ParseTransaction | crates/bidx-parser/src/tx.rs:103-259 | the whole parser returns exactly the rows of the parsed transaction, or its error |
| TxParser.ParseBlock | crates/bidx-parser/src/tx.rs:41-99 | the block parser returns exactly the block of the parsed transactions, or the first error |
| Script.IsBareMultisig | crates/bidx-core/src/script.rs:145-175 | the loop decides the push structure with its count modulo 256 |
| Script.MultisigAcceptsExactly | crates/bidx-core/src/script.rs:145-175 | at every length: accepted if and only if OP_m, key pushes, OP_n, OP_CHECKMULTISIG with 1 <= m <= n <= 16 and n keys modulo 256 |
| Script.MultisigIsExactWhenShort | crates/bidx-core/src/script.rs:145-175 | below 8741 bytes: exactly n keys |
| Script.CounterWraps | crates/bidx-core/src/script.rs:161-174 | 257 compressed keys pass for a 1-of-1 script |
| Script.MultisigIsNoProgram | crates/bidx-core/src/script.rs:92-115 | no witness program is a multisig script |
| Script.TemplateIsUnique | crates/bidx-core/src/script.rs:69-143 | the template a script fits is determined |
| Script.TemplatesDisjoint | crates/bidx-core/src/script.rs:69-143 | no script fits two templates, so the order of the tests is immaterial |
| Script.ClassifyScript | crates/bidx-core/src/script.rs:69-143 | the tests in their order return that template and its address field |
| ScriptForms.BuiltScriptStored | crates/bidx-core/src/script.rs:69-143 | a script built from its content gets the code of that content (2 for P2PKH, 3 P2SH, 4 P2WPKH, 5 P2WSH, 6 P2TR, 1 P2PK, 7 OP_RETURN, 8 multisig, 9 other witness programs) and an address field that starts with the payee's hash, program (cut to 32 bytes) or key hash and is zero after it |
| ScriptForms.ContentOf | crates/bidx-core/src/script.rs:69-143 | a script with a code other than 0 was built from some content |
| ScriptForms.EveryScriptLabelled | crates/bidx-core/src/script.rs:69-143 | every script: the label of its content, or code 0 and zeros if it has none |
| ScriptForms.OneCode | crates/bidx-core/src/script.rs:69-143 | contents that give the same script have the same code |
| ChainIndex.FirstSeenIsEarliest | crates/bidx-parser/src/chain.rs:65-72 | a hash keeps the fields of its earliest record |
| ChainIndex.CollectHeaders | crates/bidx-parser/src/chain.rs:58-74 | the scan collects the first copy of each hash |
| ChainIndex.VisitCandidate | crates/bidx-parser/src/chain.rs:89-120 | the stack walk adds only exact memo entries |
| ChainIndex.ResolveCum | crates/bidx-parser/src/chain.rs:134-179 | the memoised walk returns the exact work of the path, or nothing for a header not connected |
| ChainIndex.Sweep | crates/bidx-parser/src/chain.rs:129-132 | after it the memo holds exactly the connected headers with their exact work, whatever the order |
| ChainIndex.SelectTip | crates/bidx-parser/src/chain.rs:185-194 | picks an entry of maximal work, or nothing from an empty memo |
| ChainIndex.WalkBack | crates/bidx-parser/src/chain.rs:196-210 | yields the parent-linked chain from a zero-parent block to the tip; the missing-parent exit is dead |
| ChainIndex.PathWorkSumsChain | crates/bidx-parser/src/chain.rs:85-86 | the recursive work of a header is the sum along the chain that ends in it |
| ChainIndex.ChainAscends | crates/bidx-parser/src/chain.rs:196-210 | a chain never revisits a header |
| ChainIndex.AssignHeights | crates/bidx-parser/src/chain.rs:212-217 | locations by height, and heights by hash as their inverse |
| ChainIndex.HeaviestChain | crates/bidx-parser/src/chain.rs:77-210 | no chain from a zero-parent block carries more work than the one found |
| ChainIndex.BuildChainIndex | crates/bidx-parser/src/chain.rs:51-235 | fails exactly when nothing connects; otherwise indexes a heaviest chain and counts the rest as orphans |
| Xor.XorLittleEndian | crates/bidx-parser/src/blkfile.rs:241-246 | exclusive or of two little-endian words is exclusive or byte by byte |
| Xor.MaskTwice | crates/bidx-parser/src/blkfile.rs:234-253 | decoding twice gives the file back |
| Xor.XorDecode | crates/bidx-parser/src/blkfile.rs:237-253 | whole words then remaining bytes equals masking byte i with key byte i modulo 8 |
| BlkFile.Word | crates/bidx-parser/src/blkfile.rs:172-184 | a word read through the key is the word of the decoded file |
| BlkFile.DeclaredLen | crates/bidx-parser/src/blkfile.rs:187-197 | the keyed tests on raw bytes decide whether a record starts here in the decoded file |
| BlkFile.RecordWalkEnd | crates/bidx-parser/src/blkfile.rs:171-213 | the keyed walk ends where the walk of the decoded file ends, or reports a malformed file whole |
| BlkFile.Open | crates/bidx-parser/src/blkfile.rs:89-115 | the data served is the decoded file cut there |
| BlkFile.BlkRecordIter.Next | crates/bidx-parser/src/blkfile.rs:264-314 | the next record, error or end, and the position after it |
| BlkFile.ReadRecords | crates/bidx-parser/src/chain.rs:61-62 | draining the iterator gives all records up to the first error |
| BlkFile.MagicBytes | crates/bidx-core/src/types.rs:9-32 | the four bytes a record may start with, for each of the five networks |
| BlkFile.CollectedFoundIn | crates/bidx-parser/src/blkfile.rs:264-314 | every record yielded from a file names that file, the offset where its magic stands, the declared length plus eight, and the 80 bytes there; offsets ascend |
| BlkFile.IteratorFollowsWalk | crates/bidx-parser/src/blkfile.rs:171-314 | over the walked prefix of any file the iterator yields exactly the walked records and no error |
| BlkFile.OpenedFileIterates | crates/bidx-parser/src/blkfile.rs:202-314 | a file cut at the walk's end yields exactly the walked records; for one handed over whole, with p the first non-zero decoded byte: nothing if fewer than eight bytes are left there, else an error at p, else the record at p and what the iterator finds after it |
| BlkFile.ShortFileIsSilent | crates/bidx-parser/src/blkfile.rs:202-314 | a file of one to seven bytes, the first not zero, is handed over whole and yields no record and no error |
| BlkFile.LocationsReadBack | crates/bidx-parser/src/blkfile.rs:137-150 | a yielded location names its file and reading it returns the record's payload, if the 32-bit record length fits |
| BlkFile.WalkStopsAfterLastRecord | crates/bidx-parser/src/blkfile.rs:153-213 | on a written file the walk ends after the last record if and only if the decoded padding does not pass for a record |
| BlkFile.PhantomRecord | crates/bidx-parser/src/blkfile.rs:153-200 | a key under which the padding after any records that fill a multiple of eight bytes is taken for a further record |
| BlkFile.FramingRoundTrip | crates/bidx-parser/src/blkfile.rs:137-314 | written records come back in order, each readable at its location |
| EndToEnd.FilesParseBack | crates/bidx-parser/src/blkfile.rs:137-314 | blocks written to a file, obfuscated or not, are found, read and parsed to their own rows |
| EndToEnd.KeysDistinct | crates/bidx-parser/src/tx.rs:163-233 | distinct txids make all output keys of a parsed block distinct |
| EndToEnd.OrderlyRefinesLedger | crates/bidx-parser/src/tx.rs:57-73 | for parsed transactions with distinct txids and single spends, the flat rows handed to the store have the effect of the transactions one at a time |
| EndToEnd.ParsedBlockRefinesLedger | crates/bidx-store/src/utxo.rs:529-687 | any payload that parses to an orderly block, applied in three phases, has the effect of its transactions taken one at a time |

## Left out

- RocksDB internals, column-family options, statistics, WAL and sync: a batch is one atomic update of maps.
- Stored values that fail to decode (crates/bidx-store/src/utxo.rs:610-618): the database holds values, since only encoded values are ever written; the undo log is raw bytes and its decoding failures are modelled.
- I/O, RPC, ZMQ, memory mapping, file discovery, Parquet and ClickHouse: outside calls. A node is a fixed chain during a call; a failed hash lookup is one for a height the node does not have.
- The memory watchdog, storage and sink errors, relaxed memory ordering: no trip, no error, sequentially consistent counters.
- Floating-point work (crates/bidx-parser/src/chain.rs:34-45): work is an exact natural number.
- Strength of the hashes: they are parameters; disk-guard, benchmark and checkpoint code is reporting.
- Fee totals in live events (crates/bidx-live/src/tracker.rs:192-200): events carry the spend rows; the enriched block handed to the callback is not modelled.
- Hash and parsed fields of a record's header: they are functions of the 80 raw bytes the model keeps.
- Offsets and counts inside parse errors, and the transaction index of a bad flag: errors carry their kind and the offending value.
- Memory exhaustion on absurd declared counts: vectors grow as needed.
- Pipeline.StepKeepsInv: sequentially consistent counters, no failing step; every read or write of a shared counter and every channel operation is a step of its own, and what a thread does with its own data is part of the step next to it; an idle worker with nothing queued may steal the upper part of another's heights, which stands for the splitting of rayon; each worker takes its own heights in ascending order.
- Tracker.CatchUpFollows: asks for an undo record and fresh outputs for the tip that is replaced, and that equal hashes mean equal chains up to there.
- UtxoReorg.UnwindRestores: asks that no record at or above the first height was left over from before the run.
- Conservation.BlockConserves: asks that the unspent value plus what the block issues fits 64 bits, so that no addition saturates.
- ChainIndex.BuildChainIndex: takes a rank that makes the parent relation acyclic, which hashing makes so; without it the walk would not end.
- TrackerLimits.InSyncIff: asks that equal undo records at a height mean equal blocks, since the store keeps no other trace of a block, that the tip's surviving outputs were fresh, and that undo records go back to genesis.
- TrackerLimits.NeverInSyncAgain: in sync means the set together with the undo records down to the lost block; the set alone can coincide when that block changed nothing.
- LogRows.LoggedFeesBalance: asks for the same; without it each fee is still the capped one of `LogTellsBlocks`.
- RowColumns.WrittenBlockRow: leaves out the weight, which `BlockWeight` states.
- SpendRows.SpendNamesItsOutput: asks that no row between the two replaces or spends the output; the output row is the last of its block for its outpoint.
- TrackerEvents.PatchingCallReports: asks that the replaced tip has an undo record and that its surviving outputs were fresh.
- FeeLog.RunConserves: asks, as block conservation does, for valid blocks and a supply that fits 64 bits.
- PipelineStall.FinishesIff: quantifies over every partition of the heights among the workers, of which rayon's splitter produces some.
- PipelineStall.StallingRun: a stuck state without spinning workers is where the channel closes and the consumer returns its error.
- TxParser.Cursor.ReadCompact: where a failed composite read leaves the cursor is not stated; the parser drops the cursor then.
- TxRows.BlockWeight: asks that no single transaction's weight exceeds 32 bits, where the stored field would wrap.
- RecentCache.RecentUtxoCache.Insert: bounds the entries only; the queue keeps keys already spent.
