# PipeFabric: verified models of its transactional tables and stream operators

PipeFabric is a stream-processing engine. Its operators exchange events `(tuple, outdated)`: a new tuple, or the
withdrawal of an earlier one. This project models the logic where the engine is easiest to get wrong and proves, for
all inputs and all runs, what that logic guarantees:

| files | part of PipeFabric |
|---|---|
| BoccCore, BoccProtocol, BoccInvariant, BoccTheorems, BoccRuns, BoccReaders, BoccWriters | backward-validating optimistic transactions over two tables, as interleaved atomic steps: what all runs keep, and what readers and writers achieve by themselves |
| BoccTables, FromTxTables, BoccRefinement, RwLock | the same code as classes and methods: table, state context, read loop; that uninterrupted runs of the steps do what these promise; the readers-writer lock as a state machine |
| Streams, JoinSpec, HashJoin, ScaleJoin, ScaleJoinResults, PartitionBy, PartitionDrain, ConcurrentQueue | incremental joins: one join, n round-robin instances, partitions behind queues |
| SlidingWindow (with the shared module Windows), TumblingWindow, GroupedAggregation, Pipeline | windows and grouped aggregates, and compositions of windows with joins and aggregates |
| DenseMatrix, MatrixSlice, MatrixMerge, MatrixRoundTrip | dense matrices that grow on write, slicing, merging, and both in a row |
| Codec, CodecBuffers | the binary format |
| LineReader, LineReaderTheorems | chunked reading of lines |
| Tuplifier | grouping ordered triples into tuples |
| Wrappers | the option type |

Verify everything with `dafny verify dfyconfig.toml`. Every lemma carries `{:induction false}`: no proof rests on an
automatically generated induction hypothesis.

## How to read the models

**Transactions.** `BoccProtocol.Step` is one atomic step of one thread. A writer begins (`newTx`), buffers, votes per
table and then runs `saveWriteSet` and `transactionCommit` for both tables one small step at a time: draw a
timestamp, put the key set in front of the list, insert one tuple, draw and store the end timestamp, ask for the
oldest active transaction, erase the tail (src/table/BOCCTable.hpp:226-288). A reader draws an id and becomes
visible in a second step (src/table/StateContext.hpp:242-249), reads every key from both tables, and validates per
table with two fresh timestamps (src/qop/FromTxTables.hpp:71-120, src/table/BOCCTable.hpp:299-316). The state also
carries history that no step reads: the writes and timestamps of all commits, and how far each commit has come.
There is one writer at a time, and the next one begins after the previous one has left; there may be any number of
readers. What no run breaks is in `BoccInvariant` and `BoccTheorems`; that readers and writers get somewhere, and
where, is in `BoccReaders` and `BoccWriters`: the next step of a thread is always possible, and running alone it ends
with the effect it should have. Table insert overwrites. The timestamp counter stays below the value that means "not
finished". The classes run the same code without interruption; `CommitIsRun`, `RunIsPreCommit` and
`ReadsAreReadTables` connect the two.

**Joins.** A join is specified by signed counts per pair: `NetOf` is what the operator publishes as new minus what it
publishes as outdated, `JoinCount` is how often the pair is in the join of two multisets, `Live` the elements
inserted and not withdrawn. The classes `SHJoin` and `ScaleJoin` keep real tables and outputs and are tied to these
functions by their `Valid` predicates. The key type is abstract, as the operators intend.

**Windows, groups, matrices, triples.** Each operator is a class with the fields of the source; its `Valid` predicate
(or the contract of its methods) ties the fields and the output to functions of the whole input, about which the
lemmas speak. Freshly grown matrix cells have arbitrary values: the contract of `ConservativeResize` leaves them open.

**Results about the code that its documentation does not mention**

- A reader whose id was drawn before a commit, but which became visible only after that commit asked for the oldest
  transaction, may pass where the unpruned list would have aborted it (`PruningIsVisibleToOvertakenReader`);
  `PruningChangesVerdictExactly` says when, in timestamps and keys, and the abort would have been needless
  (`PruningOnlyDropsNeedlessAborts`). For all other readers pruning is invisible.
- The end timestamp of a commit is drawn before it is stored, and until then the write set counts as unfinished. A
  reader that starts and validates in between fails, although in the end every listed write set has ended before the
  reader started (`LateStampFailsReader`). A reader whose validation is still ahead of it publishes exactly if
  nothing clashes (`ReadingReaderPublishes`).
- The readers-writer lock is a lock exactly for at most one writer thread.
- An outdated join element removes all equal ones from the table: this is right exactly for elements that are live
  once, or not live and without partners (`OutdatedLeftExact`, `OutdatedRightExact`). The instances of ScaleJoin are
  more tolerant: equal elements may be live as long as different instances hold them (`OutdateExact`,
  `InstancesExact`), for example in windows of at most as many tuples as there are instances (`WindowedScaleJoin`).
- `stop` of the queue takes no mutex, so its wake-up can be missed (`StopCanBeMissed`): it can leave the consumer
  asleep exactly if it falls between the consumer's test and its falling asleep (`StopWakes`).
- A tumbling row window without a window function outdates the tuple that completes a block before it publishes it
  (`TumblingFifoExact`); a sliding window of size 0 outdates every tuple first. A window function that changes a tuple
  breaks the output when this tuple leaves: it is outdated as it was, not as it was published (`SlidingFifoExact`).
- `readRawFile` does not reset `remaining` per chunk: a chunk without a newline, other than the first one, loses
  text (`ChunkIsLost`). `ReadExact` says exactly when the lines are right; full reads always are.
- In the Tuplifier a run with an empty subject is forgotten when the next subject arrives (`EmptySubjectIsLost`,
  `OrderedExact`).
- A group with 2^32 - 1 live elements vanishes when one more arrives (`FullGroupIsPurged`, `FullGroupVanishes`), and
  outdating a tuple that is not live removes a live one's group (`StrayOutdateRemovesGroup`, `StrayOutdateExact`).

## Model

| member | source | states |
|---|---|---|
| BoccTheorems.PublishedReadsAreOneSnapshot | src/qop/FromTxTables.hpp:71-120 | In every interleaving, whatever a reader publishes after validating both tables is, for all its keys in both tables, the state after one common prefix of the commits: those finished when it registered and at most the one under way. |
| BoccReaders.ReadingReaderPublishes | src/qop/FromTxTables.hpp:91-158 | From every reachable state, wherever the writer is, a reader that is still reading and whose keys are in both tables leaves by its own steps alone, with two timestamps drawn per table. If no listed write set that ended after it drew its id holds one of its keys, it publishes exactly one batch: its keys with the values now in both tables. Otherwise it publishes nothing. |
| BoccReaders.ReaderFinishes | src/qop/FromTxTables.hpp:91-158 | The same for a visible reader anywhere on its way: it publishes one batch if and only if the verdicts it has got are good and those ahead of it will be, and without a clash the batch shows the tables. |
| BoccReaders.NewReaderPublishes | src/qop/FromTxTables.hpp:71-158 | Whenever no writer is committing, a new reader of keys that are in both tables comes through alone and publishes exactly the values in the tables. |
| BoccReaders.FailedReaderPublishesNothing | src/qop/FromTxTables.hpp:111-120 | After a failed validation no own steps whatever publish anything. |
| BoccReaders.OwnRun | src/qop/FromTxTables.hpp:91-158 | In every run of own steps of a reader, as long as it is there nothing is published and tables, writer and other readers stay; when it has left, it has published once if its verdicts allowed it and not at all otherwise. |
| BoccReaders.ReaderNeverWaits | src/qop/FromTxTables.hpp:91-120 | In every reachable state the next step of a visible reader is possible, and brings it nearer to its end unless a key is missing. |
| BoccReaders.ScanVerdict | src/table/BOCCTable.hpp:299-316 | The verdict on a table: it passes if and only if each listed write set ended by the time of its id, or was listed after its validation timestamp, or holds none of its keys. |
| BoccTheorems.CommitIsAllOrNothing | src/table/BOCCTable.hpp:226-272 | No tuple of a commit is in either table before both its key sets are listed; once the writer has left, both tables hold all of them. |
| BoccRuns.OneCommitPerWriter | src/table/BOCCTable.hpp:221-244 | In every run each writer starts no commit while a vote for one of its tables is missing, and exactly one once both are there, of everything it buffered for both tables. |
| BoccWriters.WriterCommitsAlone | src/table/BOCCTable.hpp:221-288 | From every reachable state without a writer, a new one can begin, buffer any writes, vote in any order and commit by itself; then both tables hold all of them. |
| BoccWriters.CommittedIsRead | src/qop/FromTxTables.hpp:71-158 | A reader that starts then publishes, for keys written in both tables, the values written last. |
| BoccWriters.WriterNeverWaits | src/table/BOCCTable.hpp:234-288 | In every reachable state the next step of a committing writer is possible. |
| BoccTheorems.SecondVoteCommits | src/table/BOCCTable.hpp:226-244 | One vote, in either order of the tables: it starts the commit exactly if the other table has voted. |
| BoccTheorems.LastWriteWins | src/table/BOCCTable.hpp:266-268 | After a commit each written key has its last buffered value, all other keys are unchanged. |
| BoccTheorems.ListsAreNewestFirst | src/table/BOCCTable.hpp:246-271 | In every reachable state both lists are strictly newest-first in validation and end timestamp. |
| BoccTheorems.PrunedIsPrefix | src/table/BOCCTable.hpp:274-285 | Whatever was erased is the oldest part of the list that would exist without erasing. |
| BoccWriters.ErasedExactly | src/table/BOCCTable.hpp:275-285 | A writer asks for the oldest active transaction, readers do anything, the writer erases: its list is cut so that exactly the write sets stay that ended later than the answer, or than its own validation timestamp if it is the oldest; the other list stays. |
| BoccWriters.CommitErasesExactly | src/table/BOCCTable.hpp:226-288 | The same for both lists after an uninterrupted commit, in terms of the slots of the context. |
| BoccWriters.ActiveIsExact | src/table/StateContext.hpp:229-260 | In every reachable state the active transactions are exactly the writer that has not left and the visible readers. |
| BoccTheorems.PruningIsInvisible | src/table/BOCCTable.hpp:270-316 | For every active reader that no commit overtook between drawing its id and becoming visible, validation gives the verdict of the unpruned list, whatever validation timestamp it draws. |
| BoccTheorems.PruningIsInvisibleLater | src/table/BOCCTable.hpp:270-316 | The same for every reader that starts later. |
| BoccTheorems.PruningOnlyDropsNeedlessAborts | src/table/BOCCTable.hpp:276-285 | For a visible reader that was overtaken, the verdicts differ exactly when an erased write set alone would have blocked it; all erased write sets were completely in the table before it became visible. |
| BoccTheorems.PruningChangesVerdictExactly | src/table/BOCCTable.hpp:270-316 | For any id and any keys, with a validation timestamp drawn from now on: the verdicts differ if and only if an erased write set with one of the keys ended after the id was drawn and no listed one did. |
| BoccTheorems.PruningIsVisibleToOvertakenReader | src/table/StateContext.hpp:242-249 | A reachable state in which the two verdicts of an overtaken reader differ. |
| BoccWriters.LateExactly | src/table/StateContext.hpp:242-249 | What "overtaken" means: some writer asked for the oldest transaction after the reader drew its id and before it became visible, if and only if; and the commits finished when it became visible are counted then. |
| BoccWriters.LateStampFailsReader | src/table/BOCCTable.hpp:270-271 | From every reachable state without a writer there is a run after which no writer is there, every listed write set ended before a reader drew its id, its key is in both tables, and still it leaves without publishing: it validated between the drawing and the storing of an end timestamp. |
| BoccInvariant.StepInv | src/table/BOCCTable.hpp:226-316 | Every step of a writer or reader keeps the invariant of timestamps, ids, lists, table contents, readers and published results. |
| BoccInvariant.ExecInv | src/table/BOCCTable.hpp:226-316 | Every interleaving from two empty lists keeps it. |
| BoccCore.ApplyAllLastWins | src/table/BOCCTable.hpp:266-268 | Inserting the buffered writes one by one leaves the last value per key and touches exactly the keys that were written. |
| BoccCore.LastWriteIs | src/table/BOCCTable.hpp:266-268 | The value that survives is that of the last write of the key. |
| BoccCore.FirstOld | src/table/BOCCTable.hpp:278-279 | The first write set of the list that ended no later than the bound. |
| BoccTables.StateContext.NewTx | src/table/StateContext.hpp:242-249 | A fresh id, in the first free slot with both votes open; if no slot is free, no slot is changed and the position is the one behind the array. |
| BoccTables.StateContext.GetNewTS | src/table/StateContext.hpp:251-253 | The next value of the counter shared with newTx. |
| BoccTables.StateContext.GetOldestActiveTx | src/table/StateContext.hpp:229-239 | The least id among the used slots, or the infinite timestamp. |
| BoccTables.StateContext.GetPosFromTxnID | src/table/StateContext.hpp:351-355 | The first slot with the given id. |
| BoccTables.BoccTable.Insert | src/table/BOCCTable.hpp:333-336 | Insert only appends to the write set. |
| BoccTables.BoccTable.GetByKey | src/table/BOCCTable.hpp:436-451 | A reader sees the committed table, the writing transaction its first buffered write of the key. |
| BoccTables.BoccTable.SaveWriteSet | src/table/BOCCTable.hpp:246-253 | The keys of the write set go to the front of the list with a fresh validation timestamp and an open end. |
| BoccTables.BoccTable.TransactionCommit | src/table/BOCCTable.hpp:256-288 | All buffered writes are applied, the front write set is stamped, and the list is cut in front of the first one that ended by the oldest active transaction, with the fallback for the writer itself: nothing before the cut had ended by then, and everything behind it is gone. |
| BoccTables.ListedExactly | src/table/BOCCTable.hpp:270-285 | In a newest-first list that means: exactly the write sets that ended later than the bound stay. |
| BoccTables.BoccTable.ReadCommit | src/table/BOCCTable.hpp:299-316 | Success exactly when no listed write set that overlaps in time contains one of the keys read. |
| BoccTables.ListBoth | src/table/BOCCTable.hpp:234-253 | Both write sets are listed, with consecutive validation timestamps and open ends, and no tuple is inserted by that. |
| BoccTables.CommitBoth | src/table/BOCCTable.hpp:234-239 | Both tables get all their writes, and both lists their entry, with two validation and then two end timestamps in this order. |
| BoccTables.TransactionPreCommit | src/table/BOCCTable.hpp:226-244 | The first vote changes only the slot; the second commits both tables completely and releases the transaction. |
| BoccRefinement.CommitIsRun | src/table/BOCCTable.hpp:226-288 | The steps from the second vote until the writer leaves, run without interruption, have the effect TransactionPreCommit promises: tables, lists, clock and freed slot. |
| BoccRefinement.RunIsPreCommit | src/table/BOCCTable.hpp:226-288 | Tables, lists and slots that meet the contract of TransactionPreCommit for the second vote are exactly those the uninterrupted run ends with: the contract has one outcome. |
| BoccRefinement.ReadsAreReadTables | src/qop/FromTxTables.hpp:91-108 | A run of read steps over changing tables ends with the tuples ReadTables returns for the tables at these moments. |
| FromTxTables.ReadTables | src/qop/FromTxTables.hpp:91-108 | The tuples returned were all read in one pass, key by key and table by table, the first pass in which no key was missing. |
| FromTxTables.LoopEnds | src/qop/FromTxTables.hpp:91-108 | Once no key is missing any more, the loop ends with the pass under way or the next one. |
| RwLock.ExclusiveIffOneWriter | src/table/BOCCTable.hpp:157-195 | In all runs a writer and a reader are never inside together, if and only if there is at most one writer thread. |
| RwLock.NobodyForgottenIffOneWriter | src/table/BOCCTable.hpp:157-195 | In all runs nobody sleeps although it could enter and no notification is pending, if and only if there is at most one writer thread. |
| RwLock.ReaderEntersExactly | src/table/BOCCTable.hpp:160-166 | With at most one writer thread, in every reachable state a reader outside that asks gets in at once if and only if no writer is inside, and otherwise falls asleep. |
| RwLock.WriterEntersExactly | src/table/BOCCTable.hpp:168-174 | A writer outside that asks gets in at once if and only if no reader is inside, and otherwise falls asleep. |
| RwLock.WhoIsInsideLeaves | src/table/BOCCTable.hpp:176-188 | Whoever is inside can leave; a leaving writer wakes all sleeping readers, a leaving reader has a notification to send. |
| RwLock.SleepingReaderEnters | src/table/BOCCTable.hpp:160-188 | With at most one writer thread, a sleeping reader gets in once the writer has left, without a spurious wake-up. |
| RwLock.SleepingWriterEnters | src/table/BOCCTable.hpp:168-181 | With at most one writer thread, a sleeping writer gets in once the readers inside have left and notified, without a spurious wake-up. |
| RwLock.StepInv | src/table/BOCCTable.hpp:160-188 | With one writer thread every step keeps the flags, the counter, exclusion and the absence of lost wake-ups. |
| Streams.FifoLive | src/qop/ScaleJoin.hpp:121-143 | With FIFO expiry the live elements are the inserted ones from the number of expired ones on. |
| Streams.LiveOfPart | src/qop/PartitionBy.hpp:104-113 | The live elements of one partition's events are the live elements that belong to the partition. |
| JoinSpec.NetIsJoinOfLive | src/qop/SHJoin.hpp:138-260 | For every interleaving of both sides, published-new minus published-outdated results are, pair by pair, the predicate-filtered equi-join of the live elements; so no count is negative. |
| JoinSpec.StoredIsLive | src/qop/SHJoin.hpp:214-239 | The tables hold exactly the live elements as long as outdated elements are live once. |
| JoinSpec.OutdatedLeftExact | src/qop/SHJoin.hpp:222-237 | An outdated left element keeps tables and results right if and only if it is live once, or not live and without a live partner. |
| JoinSpec.OutdatedRightExact | src/qop/SHJoin.hpp:222-237 | The same for an outdated right element. |
| JoinSpec.EqualElementsLoseResults | src/qop/SHJoin.hpp:227-233 | After two equal inserts and one outdate, a matching right element misses the result it should have. |
| HashJoin.EraseEqual | src/qop/SHJoin.hpp:222-237 | Erasing while iterating removes all equal elements and keeps the others with their multiplicity. |
| HashJoin.UpdateHashTable | src/qop/SHJoin.hpp:214-239 | The table holds the new content, every element in the bucket of its key. |
| HashJoin.LeftContribution | src/qop/SHJoin.hpp:145-150 | Probing one bucket publishes exactly the results the join specification asks for. |
| HashJoin.RightContribution | src/qop/SHJoin.hpp:171-176 | The same for the right side. |
| HashJoin.JoinWithRight | src/qop/SHJoin.hpp:145-150 | All partners in the bucket are joined under the predicate, with the flag of the incoming element. |
| HashJoin.JoinWithLeft | src/qop/SHJoin.hpp:171-176 | The same for a right element. |
| HashJoin.SHJoin.ProcessLeft | src/qop/SHJoin.hpp:138-151 | Tables and published results are those of the specification for the input extended by the element; new results carry its flag. |
| HashJoin.SHJoin.ProcessRight | src/qop/SHJoin.hpp:164-177 | The same for the right side. |
| ScaleJoin.InstancesRefineJoin | src/qop/ScaleJoin.hpp:116-202 | For the next event n instances together publish, pair by pair and with the same sign, exactly what one symmetric hash join publishes. |
| ScaleJoin.TablesPartition | src/qop/ScaleJoin.hpp:121-143 | The tables of the n instances partition the table of one symmetric hash join. |
| ScaleJoin.KeptIsShare | src/qop/ScaleJoin.hpp:121-143 | With FIFO expiry, as long as each outdate meets its element once at the instance whose turn it is, each table holds the unexpired elements whose position belongs to the instance: the j-th outdate meets the j-th insert. |
| ScaleJoin.RoundRobin | src/qop/ScaleJoin.hpp:121-143 | The turns are round-robin: tuple number k is the turn of instance k modulo n. |
| ScaleJoin.FewOwners | src/qop/ScaleJoin.hpp:121-143 | With FIFO expiry each outdate does so if at most n elements, equal or not, are ever live. |
| ScaleJoin.SingleOwners | src/qop/ScaleJoin.hpp:121-143 | ... or if no equal elements are live when one of them expires. |
| ScaleJoin.OutdateExact | src/qop/ScaleJoin.hpp:121-131 | Whatever is live how often: an outdate keeps the tables a partition of the live elements if and only if its element is not live or the instance whose turn it is holds it exactly once. |
| ScaleJoinResults.ResultsExactLeft | src/qop/ScaleJoin.hpp:116-152 | From a state in which the n tables partition the live elements and the total net results are their join: an outdated left element keeps both if and only if it is live and the instance whose turn it is holds it once, or it is not live and has no live partner. |
| ScaleJoinResults.ResultsExactRight | src/qop/ScaleJoin.hpp:166-202 | The same for an outdated right element. |
| ScaleJoinResults.InstancesExact | src/qop/ScaleJoin.hpp:116-202 | Over a whole input, in any interleaving of the sides: at every moment n instances together hold the join of the live elements if and only if this condition holds at each outdate. |
| ScaleJoinResults.InstancesHoldJoin | src/qop/ScaleJoin.hpp:116-202 | They do if each outdate meets its element once at the instance whose turn it is. |
| ScaleJoin.ScaleJoin.ProcessLeft | src/qop/ScaleJoin.hpp:116-152 | One instance: counters, tables and published results are those of the round-robin specification after the event. |
| ScaleJoin.ScaleJoin.ProcessRight | src/qop/ScaleJoin.hpp:166-202 | The same for the right side. |
| ScaleJoin.ScaleJoin.UpdateLeft | src/qop/ScaleJoin.hpp:121-143 | An element is stored or removed only on this instance's turn, and the 16-bit counters stay round-robin. |
| PartitionBy.PartitionedJoin | src/qop/PartitionBy.hpp:104-139 | Once all queues are drained, for every interleaving, the partitioned joins hold the join count of each pair that meets in a registered partition, and nothing else. |
| PartitionDrain.PartitionsDrain | src/qop/PartitionBy.hpp:104-139 | From every reachable state in which no queue is stopped, notifications under way and the consumers alone lead to a state in which all queues are drained; there the partitioned joins hold, for all pairs, that join. |
| PartitionDrain.DrainedSeesPart | src/qop/PartitionBy.hpp:104-139 | The join of a drained partition has seen exactly its part of both inputs, in order. |
| PartitionDrain.LeftCanBeFed | src/qop/PartitionBy.hpp:104-113 | In every reachable state an element can be fed on the left, at the latest when the consumer of its partition has fallen asleep. |
| PartitionDrain.RightCanBeFed | src/qop/PartitionBy.hpp:104-113 | The same on the right. |
| PartitionBy.PartitioningIsInvisible | src/qop/PartitionBy.hpp:104-139 | If the partition functions depend on the join key and all partitions are registered, the net output is that of one unpartitioned join. |
| PartitionBy.PartitioningExact | src/qop/PartitionBy.hpp:104-113 | A pair is joined right if and only if it is not in the join or meets in a registered partition. |
| PartitionBy.ExecInv | src/qop/PartitionBy.hpp:104-139 | In every interleaving each queue was handed its part of the input and each join has seen a prefix of it, in order. |
| PartitionBy.PartitionBy.ConnectChannelsForPartition | src/qop/PartitionBy.hpp:126-139 | Registering adds an empty queue, and keeps the first one for an id registered twice. |
| PartitionBy.PartitionBy.ProcessDataElement | src/qop/PartitionBy.hpp:104-113 | The event goes to its partition only; every registered partition has its events since registration, in order. |
| ConcurrentQueue.OrderKept | src/qop/Queue.hpp:60-79 | In every run the published items, then a popped one, then the queue are the pushed sequence, and a consumer asleep on a non-empty queue has a notification coming. |
| ConcurrentQueue.QueueDrains | src/qop/Queue.hpp:60-79 | From every reachable state that is not stopped, notifications under way and the consumer alone lead to a state in which everything pushed has been published, in order, and the queue is empty. |
| ConcurrentQueue.NextItem | src/qop/Queue.hpp:214-224 | A consumer that is up takes the first item of a queue that is not empty, and publishes just that. |
| ConcurrentQueue.NothingToTake | src/qop/Queue.hpp:60-64 | On an empty queue it falls asleep without taking anything. |
| ConcurrentQueue.PushArrives | src/qop/Queue.hpp:60-79 | In every reachable state that is not stopped an element can be pushed, at the latest when the consumer has fallen asleep, and is then published right behind everything pushed before. |
| ConcurrentQueue.StopEnds | src/qop/Queue.hpp:60-84 | A stopped consumer that is up, or that the notification of stop still reaches, ends, after publishing at most the item it holds. |
| ConcurrentQueue.StopTruncates | src/qop/Queue.hpp:60-84 | After stop at most the popped item is still published; the published sequence is a prefix of the pushed one. |
| ConcurrentQueue.StopWakes | src/qop/Queue.hpp:81-84 | In no continuation of the run is the consumer ever asleep again after the notification of stop, if and only if the notification did not fall between its test and its falling asleep. |
| ConcurrentQueue.StopCanBeMissed | src/qop/Queue.hpp:81-84 | A run in which it falls there and the consumer sleeps. |
| ConcurrentQueue.StepInv | src/qop/Queue.hpp:60-84 | Every step keeps the order of items and the wake-up conditions. |
| SlidingWindow.RowWindowExact | src/qop/SlidingWindow.hpp:218-229 | A row window is the last winSize inputs, or all of them. |
| SlidingWindow.RangeWindowParts | src/qop/SlidingWindow.hpp:236-264 | A range window is the suffix younger than the newest timestamp minus the size, and the whole input while the newest timestamp is below the size. |
| SlidingWindow.RangeWindowExact | src/qop/SlidingWindow.hpp:241-246 | With the early-time guard the window is that suffix if and only if the newest timestamp has reached the size or the oldest input is still young. |
| SlidingWindow.RangeWindowIsRecent | src/qop/SlidingWindow.hpp:236-264 | With timestamps from 0 on it always is. |
| SlidingWindow.RangeWindowStep | src/qop/SlidingWindow.hpp:236-264 | One more tuple, whatever the order of the timestamps: before its timestamp has reached the size it only joins the window; later the tuples in front of the first one young enough go, and no others. |
| SlidingWindow.FunctionApplied | src/qop/SlidingWindow.hpp:157-192 | The i-th tuple published is the result of the window function for the window after the eviction and the i-th input; without a function it is the i-th input. |
| SlidingWindow.FunctionOfRow | src/qop/SlidingWindow.hpp:157-192 | For a row window the function gets the last winSize inputs. |
| SlidingWindow.OutdatedPassesThrough | src/qop/SlidingWindow.hpp:153-156 | For any input before it, outdated input is published unchanged behind it, and the window stays. |
| SlidingWindow.SlidingConserves | src/qop/SlidingWindow.hpp:152-229 | Outdated outputs followed by the window are the input. |
| SlidingWindow.SlidingLive | src/qop/SlidingWindow.hpp:152-264 | Under this condition the live elements of the output are what was published for the tuples in the window. |
| SlidingWindow.SlidingInTime | src/qop/SlidingWindow.hpp:185-229 | No more tuples are outdated than were published before, if and only if the size is positive or nothing expires, whatever the function does. |
| SlidingWindow.PassedOn | src/qop/SlidingWindow.hpp:185-191 | Without a function, or with one that returns its tuple unchanged, what is published for the tuples in the window is the window. |
| SlidingWindow.SlidingFifoExact | src/qop/SlidingWindow.hpp:152-264 | For any input of new tuples and any window function: the output expires in FIFO order if and only if the size is positive (or, for a range window of size 0, all timestamps are negative) and every tuple that has left the window was published unchanged. |
| SlidingWindow.SlidingWindow.ProcessDataElement | src/qop/SlidingWindow.hpp:152-194 | Buffer, size field and output are those of the specification for the extended input. Outdated input passes through; for a new tuple the tuples that leave are published first and then what the function makes of the new window and the tuple. |
| SlidingWindow.SlidingWindow.EvictByCount | src/qop/SlidingWindow.hpp:218-229 | Tuples beyond the size leave from the front and are published as outdated, in order. |
| SlidingWindow.SlidingWindow.EvictByTime | src/qop/SlidingWindow.hpp:236-264 | Tuples too old compared with the newest one leave from the front. |
| TumblingWindow.TumblingConserves | src/qop/TumblingWindow.hpp:129-241 | Outdated outputs followed by the window are the input. |
| TumblingWindow.TakesTuple | src/qop/TumblingWindow.hpp:129-241 | One more tuple, after any input: the new window and everything sent, in its order. The tuple, or the result of the function for the whole window and it; and, if a row window has got its size or the oldest tuple of a range window is too old for a newest timestamp that has reached the size, the tuples that leave, outdated, and one WindowExpired. |
| TumblingWindow.FunctionApplied | src/qop/TumblingWindow.hpp:139-174 | The i-th tuple published is the result of the window function for the window with the i-th input, before anything expires; without a function it is the i-th input. |
| TumblingWindow.OutdatedPassesThrough | src/qop/TumblingWindow.hpp:132-136 | For any input before it, outdated input is published unchanged behind it, and the window stays. |
| TumblingWindow.OutputStep | src/qop/TumblingWindow.hpp:129-241 | For one new tuple: what the data channel gets and in which order, and exactly one WindowExpired if the window expires and none otherwise. |
| TumblingWindow.RowBlocks | src/qop/TumblingWindow.hpp:194-207 | Row windows expire in blocks of exactly the window size with one WindowExpired each. |
| TumblingWindow.RowOfSizeZero | src/qop/TumblingWindow.hpp:197-206 | A row window of size 0 never expires. |
| TumblingWindow.RangeExact | src/qop/TumblingWindow.hpp:214-241 | With timestamps in order: if the newest timestamp has reached the size and some tuple held is at least the size older, all earlier tuples are outdated, there is one WindowExpired and the window is the new tuple; otherwise the window only grows, nothing is outdated and there is no punctuation. |
| TumblingWindow.RangeGrows | src/qop/TumblingWindow.hpp:214-241 | In any order: the window only grows as long as the newest timestamp is below the size or all tuples held are younger than it minus the size. |
| TumblingWindow.RangeStep | src/qop/TumblingWindow.hpp:214-241 | In any order: it starts over if and only if the newest timestamp has reached the size and the first tuple held is at least the size older. |
| TumblingWindow.RangeSpan | src/qop/TumblingWindow.hpp:214-241 | With timestamps in order from 0 on, all tuples of a range window are younger than the newest one minus the size. |
| TumblingWindow.TumblingFifoExact | src/qop/TumblingWindow.hpp:138-174 | For any input of new tuples and any window function: the output is FIFO if and only if there is a window function, or the window is a range window, or no row block was completed, and every tuple that has left the window was published unchanged. |
| TumblingWindow.TumblingLive | src/qop/TumblingWindow.hpp:129-241 | Under this condition the live elements of the output are what was published for the tuples in the window. |
| TumblingWindow.TumblingWindow.ProcessDataElement | src/qop/TumblingWindow.hpp:129-176 | Buffer, size field, tuples and punctuations are those of the specification for the extended input. |
| TumblingWindow.TumblingWindow.EvictByCount | src/qop/TumblingWindow.hpp:194-207 | A full row window is outdated completely, then one WindowExpired. |
| TumblingWindow.TumblingWindow.EvictByTime | src/qop/TumblingWindow.hpp:214-241 | A range window that expires, as RangeStep says when, is outdated except for the newest tuple, then one WindowExpired; any other stays. |
| GroupedAggregation.GroupFitsLive | src/qop/GroupedAggregation.hpp:250-391 | After every valid stream the table has a group exactly when it has live elements; its counter is their number and its state the aggregate recomputed from them in any order. |
| GroupedAggregation.ResultIsAggregateOfLive | src/qop/GroupedAggregation.hpp:325-391 | Every tuple publishes one result: the aggregate of the elements of its group live after it, with its flag. |
| GroupedAggregation.StrayOutdateExact | src/qop/GroupedAggregation.hpp:256-266 | A tuple outdated although not live keeps its group right if and only if the group is empty. |
| GroupedAggregation.StrayOutdateOutput | src/qop/GroupedAggregation.hpp:256-266 | For an empty group such a tuple publishes nothing and changes no group; otherwise it publishes one outdated result. |
| GroupedAggregation.FullGroupVanishes | src/qop/AggregateStateBase.hpp:59-66 | Adding to a group purges it if and only if it has 2^32 - 1 live elements. |
| GroupedAggregation.StrayOutdateRemovesGroup | src/qop/GroupedAggregation.hpp:256-266 | After one tuple, outdating another one of the same group removes the group although the tuple is live. |
| GroupedAggregation.FullGroupIsPurged | src/qop/AggregateStateBase.hpp:59-66 | After 2^32 - 1 equal tuples the group is there, after one more it is gone with 2^32 live tuples. |
| GroupedAggregation.GroupedAggregation.ProcessDataElement | src/qop/GroupedAggregation.hpp:250-266 | Table and output are those of the specification for the extended input. |
| GroupedAggregation.GroupedAggregation.ProcessNewAggregationGroup | src/qop/GroupedAggregation.hpp:325-343 | A new group starts with counter 1 and the state of one tuple, and is published. |
| GroupedAggregation.GroupedAggregation.UpdateAggregationGroup | src/qop/GroupedAggregation.hpp:363-392 | State and wrapping counter are updated, the result is published with the flag, and a group with counter 0 is purged. |
| GroupedAggregation.AggregateState.UpdateCounter | src/qop/AggregateStateBase.hpp:59 | Unsigned 32-bit addition. |
| Pipeline.WindowedJoin | src/qop/SHJoin.hpp:138-260 | Two sliding windows of positive size over new tuples whose functions, if any, publish leaving tuples unchanged, and which never show equal tuples, feeding a join in any interleaving: the net results are the join of what the two current windows show. |
| Pipeline.WindowFeedsJoin | src/qop/SlidingWindow.hpp:152-264 | The output of such a window is what SHJoin and ScaleJoin require: FIFO, outdated elements live once, live elements equal to what the window shows. |
| Pipeline.PassedOnFeeds | src/qop/SlidingWindow.hpp:185-191 | Without a function, or with one that returns its tuple unchanged, every input of new tuples is such an input, and the window shows its content. |
| Pipeline.OutputUpTo | src/qop/SlidingWindow.hpp:152-264 | At no moment, also while tuples leave, more elements of the output are live than the largest window holds. |
| Pipeline.RowWindowsUpTo | src/qop/SlidingWindow.hpp:218-229 | A row window never holds more tuples than its size, so a size below 2^32, or of at most n, suffices below. |
| Pipeline.InstancesTotal | src/qop/ScaleJoin.hpp:116-202 | Over a whole input with FIFO expiry and no equal live elements n instances publish together what one join publishes. |
| Pipeline.WindowedScaleJoin | src/qop/ScaleJoin.hpp:116-202 | Two sliding windows of positive size over new tuples whose functions, if any, publish leaving tuples unchanged, feeding n instances: together they hold the join of what the two current windows show, if each window never shows equal tuples or never holds more than n. |
| Pipeline.WindowedAggregation | src/qop/GroupedAggregation.hpp:250-391 | A sliding window of positive size over new tuples whose function, if any, publishes leaving tuples unchanged, and which never holds 2^32 tuples, feeding a grouped aggregation: the table holds exactly the groups of what the window shows, with the aggregate of their tuples. |
| Pipeline.PartitionedAggregation | src/qop/PartitionBy.hpp:104-113 | An aggregation that sees one partition of a valid stream keeps, for every group, the count and aggregate of exactly the live elements of the group in this partition. |
| Pipeline.PartitionByGroup | src/qop/PartitionBy.hpp:104-113 | If the partition depends on the group only, the aggregation behind the partition has for each of its groups the entry that one aggregation of all events has. |
| DenseMatrix.DenseMatrix.Set | src/matrix/DenseMatrix.hpp:227-248 | The matrix grows just as far as needed, the cell has the value, all other old cells stay. |
| DenseMatrix.DenseMatrix.Add2End | src/matrix/DenseMatrix.hpp:366-377 | The value goes below the last column. |
| DenseMatrix.DenseMatrix.AddIncident | src/matrix/DenseMatrix.hpp:390-394 | A part stays one column with its index list, extended by one incident. |
| DenseMatrix.GetIncident | src/matrix/DenseMatrix.hpp:407-420 | Returns the incident stored under the index. |
| DenseMatrix.ConservativeResize | src/matrix/DenseMatrix.hpp:222-225 | Cells in both ranges keep their value. |
| DenseMatrix.NextPasses | src/matrix/DenseMatrix.hpp:115-121 | A step of the iterator passes exactly its own cell in column-major order and ends at the end iterator. |
| DenseMatrix.IterationExact | src/matrix/DenseMatrix.hpp:115-121 | Iterating from begin to end stays in range and terminates if and only if the matrix has no row exactly when it has no column. |
| DenseMatrix.DenseIterator.IncIters | src/matrix/DenseMatrix.hpp:115-121 | One step of the two indexes. |
| MatrixSlice.MatrixSlice.Slice | src/qop/MatrixSlice.hpp:154-165 | Part p holds exactly the cells the function assigns to it, each once, with place and value. |
| MatrixSlice.MatrixSlice.ProcessDataElement | src/qop/MatrixSlice.hpp:116-131 | The parts of the matrix, empty ones too, are appended to the output in order under one id; the whole output is the parts of all matrices so far. |
| MatrixMerge.MergeRestores | src/qop/MatrixMerge.hpp:116-156 | For any slicing function, arrival order and interleaving of matrices, a published matrix is its source: same dimensions and every cell. |
| MatrixMerge.PublishedOnce | src/qop/MatrixMerge.hpp:116-128 | Each matrix is published exactly once, when its last part has arrived, and nothing of it stays behind. |
| MatrixMerge.LastPartPublishes | src/qop/MatrixMerge.hpp:116-128 | A matrix leaves with the arrival that completes its parts, under its id and with the flag of that arrival; no other arrival publishes anything. |
| MatrixMerge.PublishesSources | src/qop/MatrixMerge.hpp:116-156 | The operator's published matrices are the sources. |
| MatrixRoundTrip.SliceThenMerge | src/qop/MatrixMerge.hpp:116-156 | Slicing a sequence of matrices, each under its own id, and merging the pieces in any order publishes the matrices themselves, each exactly once, as new, and nothing else. |
| MatrixMerge.MergeTo | src/qop/MatrixMerge.hpp:148-156 | Merging any matrix whose index list fits its cells extends the target by the listed incidents, the last write at a cell winning. |
| MatrixMerge.MatrixMerge.ProcessDataElement | src/qop/MatrixMerge.hpp:116-128 | Table and published matrices are those of the specification for the extended sequence of arrivals; a matrix without an index list counts as a part too. |
| Codec.DecodeEncode | src/core/serialize.hpp:105-301 | Every value of every nested type is read back from its encoding with any bytes behind it, consuming exactly its own bytes. |
| Codec.EncodeDecode | src/core/serialize.hpp:195-301 | A successful decode consumed the encoding of a value of the type. |
| Codec.EncodingIsPrefixFree | src/core/serialize.hpp:105-191 | Different values of a type have encodings none of which is a prefix of the other. |
| Codec.BackToBack | src/core/serialize.hpp:182-294 | Values serialized back to back are read back in order. |
| Codec.SizeExact | src/core/serialize.hpp:47-101 | get_size is the length of the encoding. |
| Codec.LayoutOfText | src/core/serialize.hpp:139-170 | A scalar is its bytes; a string is its length in 8 bytes, the least significant first, and its characters. |
| Codec.LayoutOfList | src/core/serialize.hpp:150-159 | A vector is its length in 8 such bytes and the encodings of its elements, in order, each where the ones before it end. |
| Codec.LayoutOfTuple | src/core/serialize.hpp:111-137 | A tuple is the encodings of its fields, the first one first. |
| CodecBuffers.Serialize | src/core/serialize.hpp:182-191 | The encoding is appended; the iterator ends exactly at the end of the grown vector. |
| CodecBuffers.Serializer | src/core/serialize.hpp:130-177 | Exactly the bytes of the encoding are written at the iterator, everything else stays. |
| CodecBuffers.Deserialize | src/core/serialize.hpp:198-294 | The cursor version returns what decoding the remaining bytes returns and stops behind it. |
| LineReaderTheorems.ReadExact | src/qop/TextFileSource.cpp:71-102 | When all lines fit, the lines produced are those of the file, in order and cut at a positive limit, if and only if no chunk but the first without a newline precedes a line that is still read. |
| LineReaderTheorems.ChunkIsLost | src/qop/TextFileSource.cpp:80-98 | Three chunks, the second without a newline, whose lines fit and come out wrong. |
| LineReaderTheorems.LineInEveryChunk | src/qop/TextFileSource.cpp:71-102 | They are if every chunk but the last has a newline. |
| LineReaderTheorems.FullReadsAreCorrect | src/qop/TextFileSource.cpp:57-102 | They are if all reads but the last fill the buffer. |
| LineReaderTheorems.TooLongExactly | src/qop/TextFileSource.cpp:80-98 | If every chunk has a newline: the reader fails if and only if some line with its newline reaches the maximum or the rest of the file exceeds it; otherwise it produces all lines. |
| LineReaderTheorems.LinesExact | src/qop/TextFileSource.cpp:80-86 | The lines and the rest of a text are the only ones without a newline inside that make up the text when each line is closed by a newline. |
| LineReader.ReadRawFile | src/qop/TextFileSource.cpp:71-102 | The loop over buffer and store computes the specification function, with every write inside the store. |
| LineReader.ReadChunk | src/qop/TextFileSource.cpp:80-98 | The same for one chunk, with the kept part of the line in the store. |
| Tuplifier.OrderedTuples | src/qop/Tuplifier.hpp:142-186 | With non-empty subjects the output is one tuple per maximal equal-subject run with a relevant predicate, in order, the last object per predicate winning. |
| Tuplifier.RunsExact | src/qop/Tuplifier.hpp:142-157 | These runs are the only way to cut the input into non-empty runs of one subject each whose neighbours differ. |
| Tuplifier.RelevantRunsAreFilter | src/qop/Tuplifier.hpp:224-245 | Relevant are exactly the runs in which some triple has a wanted predicate, in order. |
| Tuplifier.RelevantIsFilter | src/qop/Tuplifier.hpp:224-245 | Of the triples exactly those with a wanted predicate count, in order and as often as they come. |
| Tuplifier.TupleExact | src/qop/Tuplifier.hpp:251-265 | A tuple is the subject and one field per predicate, in the order of the list: the object given last, or an empty field if the predicate was never given. |
| Tuplifier.OrderedExact | src/qop/Tuplifier.hpp:144-156 | For any input it is that if and only if every relevant run with an empty subject is the last relevant one and the input ends with an empty subject. |
| Tuplifier.EmptySubjectIsLost | src/qop/Tuplifier.hpp:144-156 | Two triples, the first with an empty subject, of which only the second one's tuple comes out. |
| Tuplifier.OrderedOutput | src/qop/Tuplifier.hpp:142-217 | The output for any input in closed form. |
| Tuplifier.Tuplifier.ProcessDataElement | src/qop/Tuplifier.hpp:142-157 | One step of the buffer, the current subject and the output. |
| Tuplifier.Tuplifier.ProduceTuple | src/qop/Tuplifier.hpp:251-265 | The fields of the tuple hold the subject and the last object per predicate. |
| Tuplifier.Tuplifier.AddToBuffer | src/qop/Tuplifier.hpp:224-245 | Triples with a wanted predicate are appended to the list of their subject. |

## Left out

- transaction aborts and deletes, which are stubs or pass-throughs (src/table/BOCCTable.hpp:290-296, 352-425)
- BoccTables.BoccTable.GetByKey: in the interleaving model readers never have buffered writes, so the own-read path is stated only here, where it returns the first buffered write while commit lets the last one win
- BoccProtocol: the buffered keys and the votes of the writer are steps, but both pre-commit calls of one writer are not interleaved with each other; the scan of the 64 slots for the oldest transaction is one step, and so are one table read or insert and one scan of the list under its lock
- BoccTables.StateContext.NewTx: what a transaction without a free slot writes behind the slot array is not modelled, and neither is the wrap-around of the timestamp counter
- BoccProtocol.DoRegister: the code sets the bit of a slot before it writes the id, so the oldest transaction can be an older id still stored there; this only erases less, and is not modelled
- FromTxTables.ReadTables: the tables at the moments of the reads are a parameter, and the method gives up when the moments end; random keys, waiting times and statistics are not modelled
- RwLock and ConcurrentQueue: sequentially consistent atomics; the memory order of single accesses is not modelled
- joinElements: a joined result is the pair of its elements
- ScaleJoin: the critical sections are whole events, and all instances see the same interleaving of both sides
- PartitionBy: punctuations, which are sent to all partitions; registration while events arrive is covered by the class, not by the interleaving model
- the queue carries any item type: that a punctuation loses everything but its type, and that one of type None would come out as a data element, is not modelled
- windows: eviction threads, and the wrap-around of the 32-bit size field
- GroupedAggregation: only the mode that publishes for every tuple; timestamps in states, triggers by count and time, and factories are left out; aggregates are abstract with an inverse, so rounding is not considered
- DenseMatrix: fixed dimensions, row-major storage, removal and insertion of rows and columns, and sparse matrices
- MatrixMerge: ids are fresh per matrix by assumption; the published matrix carries no id
- Codec: a length has 8 bytes, least significant first; element counts that exceed the memory are a failed decode
- LineReader: memory mapping, compressed files and the error of a file that cannot be opened; a read error ends the chunks; the string handed on is a copy, although the code hands on a view of the store that the next line overwrites
- Tuplifier: the modes COMPLETED and WINDOW; predicates in the list are distinct
