# MudopDB in Dafny

A model of the storage, recovery and query machinery of MudopDB, a small relational database engine, with proofs of what
each part promises. `dafny verify dfyconfig.toml` checks the whole project.

## What is modelled

**Log, buffers, recovery.** The engine is a state machine (`Engine`): starting transactions, logged writes, evictions and
flushes in any order, commit, rollback one record at a time, crashes, restarts, and recovery one record at a time. Its state
has a part that survives a crash, the data blocks and the prefix of the log that is on disk, and a part that does not.
`History` says independently of any log what the committed transactions have left; `LogMeaning` says what the two backward
scans mean; `Preservation` shows that every step keeps an invariant; `CrashSafety` draws the conclusions for whole runs. The
classes of the source are modelled on top and tied to the machine: `Pages`, `Logs` and `LogCodec` down to the bytes of log
pages and records, `PinLists`, `Buffers` and `Transactions` with typed values in the buffers. Every method that changes
logical state states which step of the machine it is, and the object that carries the run (`Buffers.Ledger`) lets every
theorem about runs speak about the objects. `Server` closes the loop: a new database, a crash in any state of the objects, and
the next start.

**Sorting, joining, grouping.** `Ordering`, `Sorting` and `Grouping` hold the order of constants and the sequence-level
meaning; `Materialize`, `SortScans`, `MergeJoin` and `GroupBy` are the classes, with cursors, runs in vectors of tables, saved
positions and group rewinds. `ScanRests` says what a scan of two runs delivers from any state of its fields. `Joins` is the
join by definition; `JoinStates` and `JoinSteps` say when the merge join delivers it, which depends on how its right scan goes
back to a group. `SortTies` tells the order of rows that sort alike. `SortPlans`, `JoinPlans` and `GroupPlans` put the pieces
together, from an unsorted input to the end.

**Planning.** `Queries` gives plans a meaning as bags of rows; `Planners` has the basic and the greedy planner and shows that
their plans mean the same, whatever the cost numbers. `ProductScans` is the scan behind products.

**SQL text.** `Lexing` and `Parsers` are the lexer and the recursive-descent parser of queries, at the level of characters;
`Printing` has the printed form and says exactly when a query survives printing and parsing. `LexMeaning` says byte by byte
what the lexer makes of a text, and that capital letters count like small ones; `Grammar` says exactly which token lists are
which queries.

**Records and catalog.** `Layouts` and `Records` are slots and fields down to bytes, `TableScans` the table file as a map
from record identifiers to records, `Updates` DELETE and UPDATE, `Catalog` the catalog tables and the layouts read back.
`TypedPages` connects the bytes with the typed values that the engine and its log speak of, up to recovery.

## What is assumed

- Taking a transaction number and writing START is one step; the source reads the shared counter twice.
- No two unfinished transactions write the same block. The lock table has no exclusive mode
  (src/tx/concurrency/concurrencymgr.cpp:33-38), so this is a condition on runs (`Engine.MayWrite`), not a result.
- A log record is at least eight bytes shorter than a block; appending a formatted log block is atomic.
- Every restart runs recovery before anything else. Transaction numbers begin anew at 1 with each process, so this, and the
  CHECKPOINT record that recovery ends with, are what keeps the records of old transactions with the same number from harm.
- Locations of data blocks do not overlap and keep their type; only existing blocks are read.
- Pinning is a single attempt. An unlogged write is an undo or writes the value that is there already, as formatting does.
- Signed overflow while the lexer computes a number has no meaning in C++; the model gives such a number a token that nothing
  accepts. Letters are lower-cased as in the "C" locale.

Where the source and its documentation differ, the model follows the source: the README of the repository speaks of LRU
replacement, the code takes the first unpinned buffer (src/buffer/buffermgr.cpp:111-118). A rollback puts back the values that
the transaction found when it first wrote each location, which under write exclusion are the committed ones.

Six properties that one would expect fail in general, and the model says exactly when they hold:

- what a restored sort scan delivers (`SortScan.RestorePosition`, with `RestoreReadsOtherRow` as a failing input; after
  `before_first` there is no current row, and a restore fails with one run, too);
- what a merge join delivers (`MergeJoinScan.ReadAll`, `MergeJoinPlan.OpenAndRead`, with `TwoRunJoinGoesWrong` as a failing
  input): its right scan goes back to the places of a group, but not to the current run and flags of that time, so the join is
  complete if and only if, behind each group that is read again, the current run and the flags suit the beginning of the group;
- what a merge join delivers when it is read a second time (`MergeJoinScan.ReadAgain`, with `SecondPassGoesWrong`): it begins
  with the join value that the first pass has left;
- the first answer of a product scan (`FirstNext`);
- reading back a printed query (`RoundTripIff`, `ViewRoundTrip`);
- reading back a log record (`LogCodec.RoundTrip`).

## Model

| member | source | states |
|---|---|---|
| LogMeaning.RecoveryScanMeaning | src/tx/transaction.cpp:165-188 | The list that the backward scan of `do_recover` collects, undone newest first, brings every location to the oldest value that a transaction not finished in the log has recorded there, and leaves a location without such a transaction alone; for every log in which no two unfinished transactions share a location. |
| LogMeaning.RollbackScanMeaning | src/tx/transaction.cpp:145-163 | Undoing what the scan of `do_rollback` collects, for every log, equals writing the values that the transaction found since its own START, and nothing else. |
| LogMeaning.UndoFrame | src/tx/transaction.cpp:145-188 | An undo list changes no location that none of its records names. |
| LogMeaning.UndoListCovered | src/tx/transaction.cpp:165-188 | Every update on the recovery list belongs to a transaction that the log up to there shows unfinished. |
| LogMeaning.RollbackListOwn | src/tx/transaction.cpp:145-163 | Every record on a rollback list was logged by that transaction since its START. |
| History.GoodPrefix | src/log/logmgr.cpp:25-43 | A history that corresponds to its log does so after every prefix, so that a crash may cut both anywhere. |
| History.GoodAppend | src/tx/transaction.cpp:87-119 | One more record keeps log and history in correspondence; an update has to carry the committed value that it overwrites, unless its own transaction has already saved it. |
| History.QuietSuffix | src/tx/transaction.cpp:165-188 | While no update of a location is logged behind a point at which no unfinished transaction holds it, its committed value stays what it was at that point. |
| Preservation.BeginKeeps | src/tx/recovery/recoverymgr.cpp:16-21 | Logging START, with or without a spill of the log page, keeps the invariant of the engine: disk and memory are faithful to the committed store, updates missing on disk are held back in dirty buffers, blocks have one unfinished writer. |
| Preservation.WriteKeeps | src/tx/transaction.cpp:87-119 | A logged write, by the only unfinished writer of its block, keeps the invariant. |
| Preservation.TouchKeeps | src/buffer/buffer.cpp:30-35 | An unlogged write that changes no value keeps the invariant; it marks the buffer and keeps its log sequence number. |
| Preservation.FlushBlockKeeps | src/buffer/buffer.cpp:55-71 | Writing a dirty block, after the log as far as its sequence number, keeps the invariant at any moment and in any order of blocks. |
| Preservation.FlushedFarEnough | src/buffer/buffer.cpp:55-71 | When the log has been flushed as far as a dirty buffer asks, no update of its block is missing on disk. |
| Preservation.AppendCommitKeeps | src/tx/recovery/recoverymgr.cpp:23-27 | The COMMIT record may be written once the transaction has no dirty buffer; its values become the committed ones, and the invariant holds. |
| Preservation.StartRollbackKeeps | src/tx/transaction.cpp:145-163 | Reading the log back at the start of a rollback gives a list that restores every location the transaction holds. |
| Preservation.UndoRollbackKeeps | src/tx/transaction.cpp:145-163 | Undoing one record of a rollback, unlogged, keeps the invariant while other transactions go on. |
| Preservation.AppendRollbackKeeps | src/tx/transaction.cpp:41-49 | The ROLLBACK record may be written when everything is undone and flushed. |
| Preservation.CrashKeeps | src/log/logmgr.cpp:25-43 | Losing all memory at any moment keeps the part of the invariant that speaks of the disk. |
| Preservation.RestartKeeps | src/server/simpledb.cpp:28-41 | The START record of the first transaction after a crash keeps the invariant, although transaction numbers begin anew at 1. |
| Preservation.UndoRecoveryKeeps | src/tx/transaction.cpp:165-188 | One undo step of recovery keeps the invariant. |
| Preservation.AppendCheckpointKeeps | src/tx/transaction.cpp:51-57 | The CHECKPOINT record may be written when everything is undone and flushed; from then on no older record concerns any transaction. |
| Preservation.StepKeeps | src/tx/transaction.cpp:34-57 | Every step of the engine that may be taken keeps the invariant. |
| CrashSafety.Reachable | src/tx/transaction.cpp:23-57 | The invariant holds in every state of every run from a fresh database: any interleaving of transactions, evictions and flushes, also of the steps inside a commit or rollback, any number of crashes, restarts and partial recoveries. |
| CrashSafety.CommitDurable | src/tx/recovery/recoverymgr.cpp:23-27 | Durability: once a commit has returned, its COMMIT record is on disk, whether its own flush or a later append has sent it there, and it is in the durable history of every later state, whatever crashes come. |
| CrashSafety.CrashSafe | src/tx/transaction.cpp:165-188 | Crash safety over whole runs: cut any run anywhere, and recovery of what is then on disk gives exactly the store left by the transactions whose COMMIT record is on disk, with no trace of any other. |
| CrashSafety.RecoveryIsIdempotent | src/tx/transaction.cpp:51-57 | Recovery cut short any number of times, at any undo or flush, and then completed, leaves in memory and on disk what one undisturbed recovery of the first crash would have left; stopping at the newest CHECKPOINT loses nothing. |
| CrashSafety.WriteAheadOrder | src/buffer/buffer.cpp:55-71 | In every run, whenever a step changes what the disk holds at a location, every update logged for its block has its record on disk by then. |
| CrashSafety.ForcedToDisk | src/tx/recovery/recoverymgr.cpp:23-27 | In every run, once a COMMIT record of a transaction is on disk, so is the last value it wrote to each location; once its ROLLBACK record is, so is the value from before it; until somebody durably logs a later write there. |
| CrashSafety.ReadersSee | src/tx/transaction.cpp:67-85 | In every running state a location holds what its unfinished writer wrote last, or the committed value if it has none. |
| CrashSafety.RollbackRestores | src/tx/transaction.cpp:41-49 | Rollback interleaved with any steps of others: when the ROLLBACK record is due, every location the transaction logged holds, in memory and on disk, the value it found there, which is the committed one; every location that nobody else wrote is otherwise unchanged. |
| CrashSafety.RollbackFrame | src/tx/transaction.cpp:145-163 | No step that others take, and no undo step, changes a location outside what the transaction logged, unless another transaction writes it. |
| Pages.IntRoundTrip | src/file/page.cpp:23-44 | Every 32-bit int is read back from its four big-endian bytes. |
| Pages.BytesRoundTrip | src/file/page.cpp:23-44 | Any four bytes are the bytes of the int that they are read as, so different ints have different bytes. |
| Pages.BigEndian | src/file/page.cpp:23-44 | The four bytes of an int are its digits to base 256, most significant first, and two's complement below zero. |
| Pages.BlobReadsBack | src/file/page.cpp:46-92 | A length-prefixed byte string that fits is read back where it was written. |
| Pages.WritesNothingElse | src/file/page.cpp:36-81 | A write leaves every range of bytes that it does not meet as it was. |
| Pages.Page.ReadInt | src/file/page.cpp:17-34 | Reads an int, or fails exactly when its four bytes are not inside the page. |
| Pages.Page.ReadBytes | src/file/page.cpp:46-67 | Reads a byte string, or fails on a negative length or one that leaves the page. |
| Pages.Page.SetInt | src/file/page.cpp:36-44 | Writes exactly the four bytes, or nothing when they do not fit. |
| Pages.Page.SetBytes | src/file/page.cpp:69-81 | Writes exactly length and bytes, or nothing when they do not fit. |
| Logs.PackedRecord | src/log/logmgr.cpp:45-74 | A record written in front of the others is the newest record of the page, and the page stays well formed. |
| Logs.PageBytes | src/log/logmgr.cpp:45-74 | In a well-formed page the records, with four bytes more for each, take exactly the bytes from the boundary to the end of the page. |
| Logs.AppendRoom | src/log/logmgr.cpp:45-74 | What an append does to the file, the page and the saved number, decided by the sum of the record lengths alone: a new block only when the new record and its length do not fit beside the others and the four bytes of the boundary. |
| Logs.AppendOk | src/log/logmgr.cpp:45-74 | Appending to the log in bytes appends one record to its sequence of records, over any number of blocks; a full page goes to disk and a new block begins. |
| Logs.SavedPrefix | src/log/logmgr.cpp:94-97 | What the log file holds is always a prefix of what was appended, and the two sequence numbers differ by the records that are missing. |
| Logs.RestartOk | src/log/logmgr.cpp:25-43 | A log manager opened on an existing file continues with exactly the records of the file. |
| Logs.OpRefines | src/log/logmgr.cpp:45-97 | Each operation on bytes, a crash included, is the operation on a sequence of records of which a prefix is on disk. |
| Logs.RunsRefine | src/log/logmgr.cpp:25-97 | For every sequence of appends, flushes and restarts, the log in bytes behaves like the sequence of records, and every block but the last stays non-empty and well formed. |
| Logs.LogMgr.constructor | src/log/logmgr.cpp:25-43 | Opens a new log with one empty block, or an existing one at its last block. |
| Logs.LogMgr.AppendNewBlock | src/log/logmgr.cpp:13-23 | Adds a formatted, empty block to the file and makes it current. |
| Logs.LogMgr.FlushImpl | src/log/logmgr.cpp:94-97 | Writes the log page to its block; all records are then on disk. |
| Logs.LogMgr.Append | src/log/logmgr.cpp:45-74 | The log has one more record, with the next sequence number. If the lengths plus four of the records in the page, four more for the boundary and the length plus four of the new record are at most the block size, the file and the last saved number stay and the page has the record in front of the others; otherwise the page goes to disk, exactly one block is added, and the new page has the record alone. |
| Logs.LogMgr.Flush | src/log/logmgr.cpp:76-81 | When the asked number is not below the last saved one, the page goes to its block and the last saved number becomes the latest; otherwise nothing changes. No other block is touched. |
| Logs.LogMgr.Iterator | src/log/logmgr.cpp:83-88 | Flushes, then gives an iterator whose remaining records are all records of the log. |
| Logs.LogIterator.MoveToBlock | src/log/logiterator.cpp:17-21 | Reads a block and stands at its newest record. |
| Logs.LogIterator.HasNext | src/log/logiterator.cpp:23-31 | True exactly when a record remains, in this block or an older one. |
| Logs.LogIterator.Next | src/log/logiterator.cpp:33-56 | Gives the newest of the remaining records and removes it from them: reverse order of appending across all blocks, and then the end. |
| LogCodec.DecodeEncode | src/tx/recovery/logrecord.cpp:19-38 | The factory reads every written record back, up to the casts of its numbers. |
| LogCodec.RoundTrip | src/tx/recovery/logrecord.cpp:19-38 | A record is read back as it was written if and only if its transaction number and offset survive the casts to int32 and back. |
| LogCodec.RecordBytes | src/tx/recovery/setintrecord.cpp:40-58 | The bytes of the six records: the tag from 0 for CHECKPOINT to 5 for a string update, the transaction number, and for updates the file name with its length in front, the block number, the offset and the value. |
| LogCodec.SetIntBytes | src/tx/recovery/setintrecord.cpp:40-58 | The bytes filled in place for an int update are the encoding of that record. |
| LogCodec.SetStringBytes | src/tx/recovery/setstringrecord.cpp:40-59 | The same for a string update, with its two parts of variable length. |
| LogCodec.StatusBytes | src/tx/recovery/commitrecord.cpp:27-34 | The bytes of START, COMMIT and ROLLBACK records are their encodings. |
| LogCodec.CheckpointBytes | src/tx/recovery/checkpointrecord.cpp:23-29 | The bytes of a CHECKPOINT record are its encoding. |
| PinLists.EraseCount | src/tx/bufferlist.cpp:30-44 | Giving back one pin lowers the count of its block by one and no other. |
| PinLists.EraseList | src/tx/bufferlist.cpp:30-44 | Giving back one pin takes the block once out of the list of its transaction and leaves the lists of all others. |
| PinLists.AddPin | src/tx/bufferlist.cpp:24-28 | One more pin is one more entry of its transaction, and one more of its block. |
| Buffers.AppendShows | src/log/logmgr.cpp:45-74 | Appending the bytes of a record makes the log files show one more record of the engine. |
| Buffers.AvailableByPins | src/buffer/buffermgr.cpp:23-25 | The number of unpinned buffers is determined by the outstanding pins alone. |
| Buffers.PinnedCount | src/buffer/buffermgr.cpp:23-25 | Pinned blocks and unpinned buffers together are as many as there are buffers. |
| Buffers.PinnedByCount | src/tx/bufferlist.cpp:24-55 | A block is held by a pinned buffer exactly if some transaction has a pin on it. |
| Buffers.BufferMgr.constructor | src/buffer/buffermgr.cpp:11-21 | A pool of empty, unpinned buffers, all of them available. |
| Buffers.BufferMgr.FlushBuffer | src/buffer/buffer.cpp:55-71 | A dirty buffer goes to disk behind its log records, its block alone, and is clean; no logical value changes, no other buffer, no pin. A clean one changes nothing. |
| Buffers.BufferMgr.FlushAll | src/buffer/buffermgr.cpp:27-34 | The buffers that the transaction modified last are clean, and their blocks on disk hold the logical values; every other buffer is exactly what it was, dirty or not, and so is every other block of the data file. Pins and logical values are unchanged. |
| Buffers.BufferMgr.FindExistingBuffer | src/buffer/buffermgr.cpp:101-109 | Finds the buffer of a block exactly if the block is in the pool. |
| Buffers.BufferMgr.ChooseUnpinnedBuffer | src/buffer/buffermgr.cpp:111-118 | Gives the first unpinned buffer, or nothing exactly if all are pinned. |
| Buffers.BufferMgr.AssignToBlock | src/buffer/buffer.cpp:45-53 | Evicts an unpinned buffer: its old block alone is written back, and only if dirty; the buffer then holds the new block as the file has it, and every other buffer is what it was. No logical value changes and no block comes to be in two buffers. |
| Buffers.BufferMgr.TryToPin | src/buffer/buffermgr.cpp:76-99 | Fails exactly when the block is not in the pool and no buffer is available, and then changes nothing; otherwise the block is in the returned buffer with one more pin, and no other buffer changes. A cached block writes nothing; for another one the first unpinned buffer is evicted, and nothing but its block goes to disk. |
| Buffers.BufferMgr.Unpin | src/buffer/buffermgr.cpp:54-62 | Returns one pin of one transaction; the buffer becomes available exactly when its count reaches zero. |
| Buffers.BufferMgr.SetModified | src/buffer/buffer.cpp:30-35 | Marks the buffer with the transaction, and replaces its log sequence number only by a given one. |
| Transactions.BufferList.GetIndex | src/tx/bufferlist.cpp:16-22 | The index of a pinned block, which still holds that block; nothing exactly if the transaction has no pin on it. |
| Transactions.BufferList.Pin | src/tx/bufferlist.cpp:24-28 | Adds one pin of this transaction to the block, or changes nothing when the pool has no room. |
| Transactions.BufferList.Unpin | src/tx/bufferlist.cpp:30-44 | Gives back one pin of this transaction, if it has one, and forgets the index with the last. |
| Transactions.BufferList.UnpinAll | src/tx/bufferlist.cpp:46-55 | Gives back exactly the pins of this transaction; the lists of all others stay. |
| Transactions.PinUnpin | src/tx/recovery/setintrecord.cpp:34-38 | Pinning and unpinning around an undo leaves every count and every other list as it was. |
| Transactions.Transaction.constructor | src/tx/transaction.cpp:23-32 | Takes the next number and logs its START; in a running database it is active, after a crash it still has to recover; phases and blocks of other transactions stay. |
| Transactions.Transaction.OtherStays | src/tx/bufferlist.cpp:16-55 | While another transaction works, pins, evicts, commits or rolls back, an active transaction stays active and its recorded indices still hold its blocks. |
| Transactions.OthersNotFlushed | src/buffer/buffermgr.cpp:27-34 | When only blocks that one transaction modified last go to disk, the disk holds what it held at every location of a block with another unfinished writer. |
| Transactions.Transaction.FlushMine | src/tx/transaction.cpp:41-57 | The flush of a commit, a rollback or a recovery writes the blocks that the transaction modified last, and no other block of the data file changes. |
| Transactions.Transaction.Pin | src/tx/transaction.cpp:59-61 | One more pin of this transaction; nothing else changes but what eviction writes to disk. |
| Transactions.Transaction.Unpin | src/tx/transaction.cpp:63-65 | One pin of this transaction less. |
| Transactions.Transaction.GetValue | src/tx/transaction.cpp:67-85 | The logical value of a location in a pinned block; nothing where the source throws. |
| Transactions.Transaction.LogOldValue | src/tx/recovery/recoverymgr.cpp:29-46 | Logs the value that the location has now, before it is overwritten. |
| Transactions.Transaction.SetPinned | src/tx/transaction.cpp:87-119 | Sets a value in a pinned buffer as one step of the engine: a logged write, an undo, or a write of the same value. |
| Transactions.Transaction.SetInt | src/tx/transaction.cpp:87-102 | Writes an int, logged if asked to, and owns the block from then on; fails exactly when the block is not pinned; other transactions keep phases, blocks and buffers. |
| Transactions.Transaction.SetString | src/tx/transaction.cpp:104-119 | The same for a string. |
| Transactions.Transaction.Commit | src/tx/transaction.cpp:34-39 | Blocks, then COMMIT, then pins: the transaction is committed, its record and all its values are on disk, its pins and its blocks are free. Only blocks that it modified last have gone to disk, no block of another unfinished transaction among them, and all other transactions keep phases, blocks and buffers. |
| Transactions.Transaction.UndoRecord | src/tx/recovery/setintrecord.cpp:34-38 | Restores the old value of one record without logging; fails only when the pool has no room. |
| Transactions.Transaction.ScanOwn | src/tx/transaction.cpp:145-163 | The loop over the log iterator collects exactly the rollback list. |
| Transactions.Transaction.DoRollback | src/tx/transaction.cpp:145-163 | Undoes the list newest first: memory then has the values that the transaction found, everything else as before. Fails only when every buffer is pinned. |
| Transactions.Transaction.FinishRollback | src/tx/transaction.cpp:41-49 | Once everything is undone: the flush writes no block of another unfinished transaction, ROLLBACK is on disk behind it, what the transaction logged is on disk as it is in memory, and its pins are given back. |
| Transactions.Transaction.Rollback | src/tx/transaction.cpp:41-49 | Every location that the transaction logged is back, in memory and on disk, at the value it found; ROLLBACK is on disk, its pins and its blocks are free. Fails, in the middle, only when every buffer is pinned. Either way all other transactions keep phases, blocks and buffers. |
| Transactions.Transaction.ScanUnfinished | src/tx/transaction.cpp:165-188 | The loop over the log iterator collects exactly the recovery list, up to the newest CHECKPOINT. |
| Transactions.Transaction.DoRecover | src/tx/transaction.cpp:165-188 | Memory becomes what undoing that list makes of it. Fails only when every buffer is pinned. |
| Transactions.Transaction.Recover | src/tx/transaction.cpp:51-57 | Memory, disk and the data file hold the store that the committed transactions have left; CHECKPOINT is on disk and the transaction is active. Fails, with the log as it was, only when every buffer is pinned. |
| Server.OpenManagers | src/server/simpledb.cpp:14-26 | New managers on the files of a crashed process show the durable records and an empty pool. |
| Server.Create | src/server/simpledb.cpp:28-41 | A new process without a log, with its first transaction, which has nothing to recover: the run of the engine begins with the store that the data blocks hold. |
| Server.Open | src/server/simpledb.cpp:28-41 | A new process on these files, with its first transaction and recovery: the data file shows the committed store. |
| Server.CrashAndOpen | src/server/simpledb.cpp:28-41 | From any valid state of all classes, a crash at any moment followed by the next start brings back exactly what the durable COMMIT records stand for. |
| Server.CommitAndCrash | src/tx/transaction.cpp:34-39 | A commit, a crash right behind it, and the next start: the data file has the last value that the transaction wrote to each location. |
| Ordering.TotalOrder | src/query/constant.cpp:38-65 | On constants exactly one of less, equal and greater holds; an int is less than every string, and ints compare by value. |
| Ordering.BytesMeaning | src/query/constant.cpp:46-53 | One string is less than another exactly if it is a proper prefix of it or has the smaller byte at the first place where they differ. |
| Ordering.OrderMeaning | src/query/constant.cpp:38-65 | Less is: ints by value, an int before a string, strings byte by byte; greater is the same the other way round. |
| Ordering.TransitiveOrder | src/query/constant.cpp:38-65 | The order on constants is transitive. |
| Ordering.CompareSwaps | src/materialize/recordcomparator.cpp:14-22 | The comparison of two records changes its sign with their order, and is zero exactly if they agree on all fields. |
| Ordering.CompareMeaning | src/materialize/recordcomparator.cpp:14-22 | The comparison of two records is decided by the first of the fields in which they differ, and below zero exactly if the first record has the smaller value there. |
| Ordering.SortedMeaning | src/materialize/recordcomparator.cpp:14-22 | A list is sorted if and only if of any two rows in order either all fields agree or the earlier has the smaller value at the first field where they differ. |
| Ordering.BeforeTransitive | src/materialize/recordcomparator.cpp:14-22 | The order of records is transitive, also where it is strict. |
| Sorting.SplitGood | src/materialize/sortplan.cpp:49-68 | Cutting at descents gives non-empty sorted runs that together have the rows of the input. |
| Sorting.SplitJoined | src/materialize/sortplan.cpp:49-68 | The runs one behind the other are the input, row by row. |
| Sorting.SplitCuts | src/materialize/sortplan.cpp:49-68 | A new run begins only where a row has the smaller value, at the first sort field where it differs from the row in front of it. |
| Sorting.MergePassAt | src/materialize/sortplan.cpp:70-83 | After an iteration, run k is the merge of runs 2k and 2k+1, or the last run when there is no run 2k+1. |
| Sorting.MergeSorted | src/materialize/sortplan.cpp:85-110 | Merging two sorted runs, ties from the second, gives a sorted run. |
| Sorting.MergeMultiset | src/materialize/sortplan.cpp:85-110 | Merging loses and invents no row. |
| Sorting.MergePassGood | src/materialize/sortplan.cpp:70-83 | One merge iteration keeps the rows, and the sortedness of the runs. |
| Sorting.MergeDownGood | src/materialize/sortplan.cpp:22-30 | Merge iterations end with at most two sorted runs, and none only for an empty input. |
| Sorting.SortCorrect | src/materialize/sortplan.cpp:22-30 | For every non-empty input, what the sort delivers is a permutation of the input, and of any two rows in it either all sort fields agree or, at the first field where they differ, the earlier row has the smaller value. |
| SortTies.MergeTies | src/materialize/sortplan.cpp:93-99 | Of the rows of two sorted runs that have the same sort fields, the merge has those of the second run first, and those of each run in their order. |
| SortTies.PassTies | src/materialize/sortplan.cpp:70-83 | A merge iteration does not change the order of rows with the same sort fields, if the runs are read from the last to the first. |
| SortTies.SortTies | src/materialize/sortplan.cpp:22-30 | The sort is not stable: for every input and any number of iterations, rows with the same sort fields come out by runs, the last run of the input first, and in their order within a run. |
| Materialize.CompareScans | src/materialize/recordcomparator.cpp:14-22 | The loop over the fields of two cursors answers below zero exactly if, at the first field where their rows differ, the first row has the smaller value, above zero exactly in the opposite case, and zero exactly if all fields agree. |
| Materialize.SortPlan.Copy | src/materialize/sortplan.cpp:112-118 | Copies the current record field by field behind the last one, and advances the source. |
| Materialize.SortPlan.SplitIntoRuns | src/materialize/sortplan.cpp:49-68 | The tables written hold exactly the runs of the input; a run ends where the next row is smaller. |
| Materialize.SortPlan.MergeTwoRuns | src/materialize/sortplan.cpp:85-110 | The new table holds the merge of the two runs. |
| Materialize.SortPlan.DoAMergeIteration | src/materialize/sortplan.cpp:70-83 | Neighbouring runs are merged in pairs, an odd last one is kept. |
| Materialize.SortPlan.Open | src/materialize/sortplan.cpp:22-30 | The loop ends with at most two tables, which hold the merged-down runs of the input. |
| SortScans.SortScan.constructor | src/materialize/sortscan.cpp:11-24 | In front of the first row of one or two runs. |
| SortScans.SortScan.BeforeFirst | src/materialize/sortscan.cpp:26-34 | Back in front of the first row, also after the end. |
| SortScans.SortScan.Next | src/materialize/sortscan.cpp:36-60 | The rows come one by one in the order of the merge of the two runs, and the end comes exactly after the last. In any state from which nothing is read behind the end of a run, also one that a restore has left, the places, the current run and the flags become those of `NextCursor`, no later call reads behind the end of a run, and the rows come that `Rest` predicts from the fields. |
| SortScans.SortScan.CurrentRow | src/materialize/sortscan.cpp:69-76 | The row under the current cursor is the last one delivered. |
| SortScans.SortScan.SavePosition | src/materialize/sortscan.cpp:94-99 | Saves the places of the two runs, and nothing for a run that is exhausted. |
| SortScans.SortScan.RestorePosition | src/materialize/sortscan.cpp:101-108 | Moves each run back to its saved place, and does not move a run for which nothing was saved. If such a run is exhausted still, the scan is where it was saved if and only if the current run and the flag of the other run are those of that time; with one run, if and only if there is a current row. The rows to come are the saved one and those behind it, up to the order of rows that sort alike, if and only if the current run has at its saved place a row that sorts like the saved one and the flag of the other run is right for its saved place. |
| ScanRests.RestIff | src/materialize/sortscan.cpp:36-60 | From any places in two sorted runs, with any current run and flag, a scan delivers what the merge of the rests delivers, up to the order of rows that sort alike, if and only if the current run has a smallest head and the flag says whether the other run has rows left. |
| ScanRests.RestOfNext | src/materialize/sortscan.cpp:36-60 | From every state with a current row and no flag up at the end of its run, a call takes exactly the current row off the rows to come, and answers whether any are left. |
| ScanRests.EitherHead | src/materialize/sortscan.cpp:44-58 | When the two heads sort alike, it makes no difference to the values of the sort fields which of them is taken first. |
| SortScans.RestoreReadsOtherRow | src/materialize/sortscan.cpp:94-108 | With two runs of one row each, a restored scan shows the larger row where the smaller one had been saved. |
| SortPlans.OneRunIff | src/materialize/sortplan.cpp:22-30 | A sort ends with one run if and only if its non-empty input is sorted already. |
| SortPlans.LastRunsGood | src/materialize/sortplan.cpp:22-30 | The one or two runs that a non-empty input is merged down to are sorted, have together exactly its rows, and their merge is what the sort delivers. |
| SortPlans.OpenSorted | src/materialize/sortplan.cpp:22-30 | From a non-empty input to the scan that delivers it: a permutation of the input in which, of any two rows, either all sort fields agree or the earlier one has the smaller value at the first field where they differ. |
| Joins.JoinCount | src/materialize/mergejoinscan.cpp:20-50 | A pair with equal join values occurs once for every occurrence of its left row and every occurrence of its right row; no other pair occurs. |
| Joins.JoinIgnoresOrder | src/materialize/mergejoinplan.cpp:30-38 | Sorting the inputs does not change which pairs the join has, or how often. |
| Joins.KeyOrder | src/materialize/mergejoinscan.cpp:20-50 | The pairs come in the order of the join value. |
| JoinStates.RereadableJudged | src/materialize/mergejoinscan.cpp:28-34 | When every value that two left rows and some right row have can be read again, so can the value of every left row that repeats the one in front of it, which is where the scan goes back. |
| JoinStates.JudgedRereadable | src/materialize/mergejoinscan.cpp:28-34 | The other way round: when the value of every left row that repeats the one in front of it can be read again, so can every value that two left rows and some right row have. |
| JoinSteps.GoodBack | src/materialize/sortscan.cpp:101-108 | Out of the group of a value that can be read again, the current run has the value at its saved place, and the flag of the other run tells whether that one has rows from its saved place on. |
| JoinSteps.BadBack | src/materialize/sortscan.cpp:101-108 | Out of the group of any other value, the row at the saved place has another value, or more of the group is left out than the flags can reach. |
| JoinSteps.CleanRestores | src/materialize/mergejoinscan.cpp:28-34 | Going back for the next left row keeps the join right if the value can be read again; otherwise a wrong pair is delivered or pairs are lost, and the condition of the whole join fails. |
| JoinSteps.RestoreStep | src/materialize/mergejoinscan.cpp:28-34 | Going back keeps the invariant of the join: right so far, or beyond repair with the condition failing. |
| JoinSteps.MoveStep | src/materialize/mergejoinscan.cpp:21 | A call of `next` on the right keeps it, from the pair delivered last. |
| JoinSteps.TakeStep | src/materialize/mergejoinscan.cpp:22-26 | A right row of the group is the next pair. |
| JoinSteps.LeaveStep | src/materialize/mergejoinscan.cpp:28-35 | When the next left row has another value, the group is complete and the right rows so far are too small for the left rows to come. |
| JoinSteps.SkipLeftStep | src/materialize/mergejoinscan.cpp:39-40 | A left row that is smaller than the current right row matches nothing. |
| JoinSteps.SkipRightStep | src/materialize/mergejoinscan.cpp:41-42 | A right row that is smaller than the current left row matches nothing to come. |
| JoinSteps.EnterStep | src/materialize/mergejoinscan.cpp:43-47 | Equal values begin a group at the current places of both runs. |
| JoinSteps.EndStep | src/materialize/mergejoinscan.cpp:36-49 | At the end of one side the pairs delivered are the join if and only if every value of two left rows can be read again; with one run they are the join in its order. |
| JoinSteps.DeliveredPrefix | src/materialize/mergejoinscan.cpp:20-50 | With the right side in one run, the pairs delivered are at every moment a prefix of the join by definition. |
| JoinSteps.LastIsLargest | src/materialize/mergejoinscan.cpp:43-47 | The last pair of a complete join has the largest common join value. |
| MergeJoin.MergeJoinScan.BackToGroup | src/materialize/mergejoinscan.cpp:28-34 | The current left row and the right row at the restored place are the next pair. |
| MergeJoin.MergeJoinScan.FindGroup | src/materialize/mergejoinscan.cpp:36-49 | Goes on to the next pair of equal values, or to the end of the join. |
| MergeJoin.MergeJoinScan.Next | src/materialize/mergejoinscan.cpp:20-50 | For a right side in one or two runs: delivers one more pair, the two current rows, or ends, and reads nothing behind the end of a run. What has been delivered is right so far, or beyond repair and the condition of `ReadAll` fails. The first call of a second pass answers without a left row if the first right row has the old join value. |
| MergeJoin.MergeJoinScan.ReadAll | src/materialize/mergejoinscan.cpp:20-50 | Calling `next` until it returns false terminates. The pairs are those of nested loops over the two sides, each as often, if and only if every value of at least two left rows and a right row can be read again: in both runs, with larger rows behind it in both; in one run, with no larger row in either, or with the smaller one of the larger rows in that run. They come in key order always, and exactly as nested loops give them when the right side is in one run. |
| MergeJoin.MergeJoinScan.BeforeFirst | src/materialize/mergejoinscan.cpp:15-18 | Both scans are in front of their first rows; the join value and the saved places stay. |
| MergeJoin.MergeJoinScan.ReadAgain | src/materialize/mergejoinscan.cpp:15-50 | After a complete pass over a right side in one run, another pass delivers the join again if and only if the smallest right value is not the largest common one; otherwise its first call answers that there is a pair while there is no left row. |
| MergeJoin.SecondPassGoesWrong | src/materialize/mergejoinscan.cpp:15-26 | One row with the same value on either side: the second pass goes wrong. |
| JoinPlans.KeyCountBag | src/materialize/mergejoinplan.cpp:30-38 | How often a join value occurs does not depend on the order of the rows, so the condition can be read off the inputs. |
| JoinPlans.SameCondition | src/materialize/mergejoinplan.cpp:30-38 | The condition on the sorted scans is the condition on the unsorted left rows and the merged-down runs of the right rows. |
| JoinPlans.SortedIsEasy | src/materialize/mergejoinplan.cpp:30-38 | A right input that is sorted already meets the condition. |
| JoinPlans.DistinctIsEasy | src/materialize/mergejoinplan.cpp:30-38 | So does a left input without repeated join values, with any right input. |
| JoinPlans.MergeJoinPlan.Open | src/materialize/mergejoinplan.cpp:14-38 | Sorts both inputs and joins the scans, for any non-empty inputs. |
| JoinPlans.MergeJoinPlan.OpenAndRead | src/materialize/mergejoinplan.cpp:30-38 | From opening to the end, for any non-empty inputs: the pairs are, each as often, those of the join of the unsorted inputs if and only if the merged-down runs of the right input can be reread for every value that two left rows and some right row have; they come in key order always. |
| JoinPlans.TwoRunJoinGoesWrong | src/materialize/mergejoinplan.cpp:30-38 | Two equal left rows, and on the right a larger row before the matching one: the plan delivers other pairs than the join has. |
| Grouping.GroupByMeaning | src/materialize/groupbyscan.cpp:20-45 | Grouping sorted rows gives every key exactly one group, which has exactly the rows with that key, and the sizes add up to the number of rows. |
| Grouping.SameKey | src/materialize/aggregates.cpp:36-54 | Two rows have equal group values exactly if they compare as equal on the group fields. |
| Grouping.MaxMeaning | src/materialize/aggregates.cpp:25-31 | The largest value of a field is one that some row has and that every other value is smaller than, ints by value and strings byte by byte. |
| GroupBy.NextMax | src/materialize/aggregates.cpp:25-31 | The larger of the maximum so far and the new value is the maximum of all rows seen. |
| GroupBy.FunctionNames | src/materialize/aggregates.cpp:17-32 | The names under which the aggregates are read, letter by letter: countof or maxof and the field. |
| GroupBy.Aggregate.ProcessFirst | src/materialize/aggregates.cpp:15-25 | Count or maximum of the first row of a group, whatever was there before. |
| GroupBy.Aggregate.ProcessNext | src/materialize/aggregates.cpp:16-31 | Count or maximum with one more row. |
| GroupBy.Aggregate.GetValue | src/materialize/aggregates.cpp:18-33 | For the rows seen: their number, which the cast to 32 bits leaves as it is below two to the 31st, or a value of the field that one of them has and that no other is larger than, ints by value and strings byte by byte. |
| GroupBy.GroupByScan.CurrentKey | src/materialize/aggregates.cpp:36-40 | The values of the group fields in the current row. |
| GroupBy.GroupByScan.constructor | src/materialize/groupbyscan.cpp:12-23 | Stands in front of the first group of a non-empty sorted input. |
| GroupBy.GroupByScan.Next | src/materialize/groupbyscan.cpp:25-45 | Delivers the next group with its key and with every aggregate right for its rows; when it has returned false the groups delivered are all groups of the input. |
| GroupBy.GroupByScan.GetVal | src/materialize/groupbyscan.cpp:51-67 | For the rows of the current group: a group field has the value that they all have, another name the number or the largest value that the first aggregate so named stands for; nothing where the source throws. |
| GroupPlans.RowsOfBag | src/materialize/groupbyplan.cpp:30-37 | Sorting the input does not change which rows have a key, or how often. |
| GroupPlans.GroupByPlan.Open | src/materialize/groupbyplan.cpp:30-37 | Sorts the input on the group fields, makes an object for every aggregation function, and stands in front of the first group. |
| GroupPlans.GroupByPlan.OpenAndRead | src/materialize/groupbyplan.cpp:30-37 | From opening to the end, for the unsorted input: every key has one group, with exactly the rows of that key, the sizes add up, and every answer is the one for the rows of its group. |
| Queries.IsSatisfied | src/query/predicate.cpp:21-28 | True exactly if in every term both sides stand for the same value in the row; otherwise the first term of which this is not so decides: false if its sides stand for different values, and nothing, where the source throws, if one stands for none. |
| Queries.EvaluateMeaning | src/query/expression.cpp:23-31 | An expression evaluates to what it stands for: a constant to itself, a field to the value that the row has in it, and to nothing without such a field. |
| Queries.TermMeaning | src/query/term.cpp:15-19 | A term holds exactly if its sides stand for the same value in the row. |
| Queries.SatisfiedMeaning | src/query/predicate.cpp:21-28 | A row satisfies a predicate exactly if in every term both sides stand for the same value. |
| Queries.SelectedRows | src/query/selectscan.cpp:16-23 | A selection has a row as often as its input if in every term both sides stand for the same value, and not at all otherwise. |
| Queries.ProjectedRows | src/query/projectscan.cpp:17-46 | A projection has exactly the parts of the rows of its input, with the values that they have there. |
| Queries.SelectSubPred | src/query/predicate.cpp:38-49 | The terms that apply to a schema, or nothing if there is none. |
| Queries.JoinSubPred | src/query/predicate.cpp:51-66 | The terms that apply to both schemas together and to neither alone, or nothing if there is none. |
| Queries.ApplicableMembers | src/query/predicate.cpp:38-49 | A term is in the selected part exactly if it is in the predicate and applies to the schema. |
| Queries.JoiningMembers | src/query/predicate.cpp:51-66 | A term is in the joining part exactly if it is in the predicate and needs both schemas. |
| Queries.CrossCount | src/query/productscan.cpp:19-46 | A joined row occurs once for every occurrence of its left part and of its right part. |
| Queries.FilterCount | src/query/selectscan.cpp:16-23 | A selection keeps every occurrence of a row that satisfies the predicate, and no other. |
| Queries.ProjectBag | src/query/projectscan.cpp:17-46 | The projection of a bag of rows does not depend on their order. |
| ProductScans.ProductScan.Next | src/query/productscan.cpp:19-25 | With a left row, the rows come in nested-loop order and all of them come; without one, the calls return true all the same as long as there are right rows, then false once, and then begin anew. |
| ProductScans.CrossAt | src/query/productscan.cpp:19-46 | Row number i times the right rows plus j has the values of left row i, and those of right row j in the other fields. |
| ProductScans.FirstNext | src/query/productscan.cpp:8-25 | The first answer of a product scan is right if and only if the left side is not empty or the right side is. |
| Planners.SelectTable | src/opt/tableplanner.cpp:24-27 | The plan of one table gives its rows that satisfy all terms it can evaluate. |
| Planners.JoinMeans | src/opt/tableplanner.cpp:29-62 | Adding a table with its own terms, and then the joining terms, keeps the meaning: the product of the tables so far, restricted by all terms that can be evaluated on it. |
| Planners.SatisfiesUnion | src/query/predicate.cpp:38-66 | A row satisfies the terms that apply to two schemas together exactly if it satisfies those of each and the joining ones. |
| Planners.WeightOrder | src/opt/heuristicqueryplanner.cpp:19-46 | How often a row occurs in a product of tables does not depend on the order of the tables. |
| Planners.BasicMeans | src/plan/basicqueryplanner.cpp:20-44 | The basic plan selects each row of the product that satisfies the predicate as often as the product has it, and no evaluation fails. |
| Planners.PlanAnswers | src/plan/basicqueryplanner.cpp:20-44 | A row is in the result of a query if and only if it is the part, for the fields of the query, of a combination of one row of each table in which both sides of every term stand for the same value. |
| Planners.BasicQueryPlanner.CreatePlan | src/plan/basicqueryplanner.cpp:20-44 | Product of the tables in the order of the query, then selection, then projection. |
| Planners.HeuristicQueryPlanner.GetLowestSelectPlan | src/opt/heuristicqueryplanner.cpp:48-62 | Takes the first planner with the cheapest select plan out of the list; nothing exactly if there is none. |
| Planners.HeuristicQueryPlanner.GetLowestJoinPlan | src/opt/heuristicqueryplanner.cpp:64-81 | Takes a planner with the cheapest join out of the list; nothing, and no change, exactly if no planner has a join. |
| Planners.HeuristicQueryPlanner.GetLowestProductPlan | src/opt/heuristicqueryplanner.cpp:83-98 | Takes a planner with the cheapest product out of the list. |
| Planners.HeuristicQueryPlanner.CreatePlan | src/opt/heuristicqueryplanner.cpp:19-46 | Whatever the cost numbers, the plan gives the same rows as the basic plan, each as often, and no evaluation fails: a row comes if and only if it is the part, for the fields of the query, of a combination of rows of all tables in which both sides of every term stand for the same value. Without tables there is no plan. |
| Planners.JoinedAll | src/opt/heuristicqueryplanner.cpp:19-46 | When all tables are joined, in whatever order, the projected rows are those of the basic plan. |
| Lexing.Lexer.constructor | src/parse/lexer.cpp:12-21 | The first token of the text is current. |
| Lexing.Lexer.NextToken | src/parse/lexer.cpp:97-200 | The loops over the characters find exactly the next token and what follows it. |
| LexMeaning.CaseBlind | src/parse/lexer.cpp:167-187 | Two texts that are the same up to the case of ASCII letters outside quotes have the same next token, and the same holds of what follows it. |
| LexMeaning.QueryCaseBlind | src/parse/parser.cpp:47-58 | Such texts are the same query, or no query both. |
| LexMeaning.QuotedText | src/parse/lexer.cpp:114-138 | Text between two quotes of one kind, without that quote in it, is read as exactly the string constant between them, whatever follows. |
| LexMeaning.WordBytes | src/parse/lexer.cpp:167-187 | The bytes that a word may have: small letters, underscore, bytes from 160 on, and digits behind the first. |
| LexMeaning.WordRead | src/parse/lexer.cpp:167-187 | A word in any mixture of capital and small letters is read as the keyword or name in small letters. |
| LexMeaning.SpaceSkipped | src/parse/lexer.cpp:97-108 | Every byte up to 32 in front of a token is skipped. |
| LexMeaning.DelimiterRead | src/parse/lexer.cpp:189-197 | Every other byte below 160 is a delimiter by itself; only a minus sign in front of a digit is not. |
| LexMeaning.NumberRead | src/parse/lexer.cpp:140-162 | A row of digits, with or without a minus sign, is read as its number up to two to the 31st less one; a larger one has no meaning. |
| LexMeaning.FirstDigit | src/parse/lexer.cpp:140-162 | Digits are decimal: the first one counts ten to the number of places behind it. |
| LexMeaning.KeywordSpelling | src/parse/lexer.cpp:12-16 | The keywords, letter by letter. |
| Printing.LexWord | src/parse/lexer.cpp:167-187 | A lower-case word is read as a keyword or a name, up to the first character that cannot belong to it. |
| Printing.LexInt | src/parse/lexer.cpp:140-162 | Every printed int but the smallest is read back. |
| Printing.SmallestInt | src/parse/lexer.cpp:140-162 | Reading the printed smallest int overflows. |
| Printing.NotQuoted | src/query/constant.cpp:75-83 | A printed string constant is not read as that string, whatever it contains and whatever follows in a query. |
| Printing.QueryText | src/parse/parsedata.cpp:26-42 | Field and table lists of a printed query are read back as they were. |
| Printing.RoundTripIff | src/parse/parsedata.cpp:26-42 | A query with well-formed names is read back from its text, terms in their order and nothing left over, if and only if it has no string constant and not the smallest int. |
| Printing.ViewRoundTrip | src/parse/parsedata.cpp:81-86 | Any text that parses to a query, printed and parsed again, gives the same query if and only if it has no string constant. |
| Printing.QuerySound | src/parse/parser.cpp:47-58 | Every parsed query has well-formed names and never the smallest int. |
| Grammar.QueryIff | src/parse/parser.cpp:47-80 | A text is parsed as a query if and only if the lexer delivers, in this order, select, the fields with commas between, from, the tables with commas between, and, if there are terms, where and the terms with equals signs in them and and between them, and what follows does not continue that. |
| Grammar.PredicateIff | src/parse/parser.cpp:31-45 | The same for the predicate, with its sides as names, ints or strings. |
| Grammar.NamesIff | src/parse/parser.cpp:60-80 | The same for field and table lists: as long as commas follow, and not longer. |
| Grammar.QuerySpelling | src/parse/parsedata.cpp:26-42 | The printed text, letter by letter: words in small letters, one space around them, a comma and a space between names, no space around equals signs, and nothing for a missing predicate. |
| Parsers.Parser.TakeId | src/parse/lexer.cpp:88-95 | Takes a name and moves on, or fails. |
| Parsers.Parser.TakeDelim | src/parse/lexer.cpp:56-61 | Takes the delimiter and moves on, or fails. |
| Parsers.Parser.TakeKeyword | src/parse/lexer.cpp:81-86 | Takes the keyword and moves on, or fails. |
| Parsers.Parser.Constant | src/parse/parser.cpp:17-22 | Follows the grammar of constants on the shared lexer. |
| Parsers.Parser.ParseExpr | src/parse/parser.cpp:24-29 | Follows the grammar of expressions. |
| Parsers.Parser.OneTerm | src/parse/parser.cpp:31-36 | Follows the grammar of terms. |
| Parsers.Parser.Predicate | src/parse/parser.cpp:38-45 | Follows the grammar of predicates, by recursion, and terminates. |
| Parsers.Parser.NameList | src/parse/parser.cpp:60-80 | Follows the grammar of field and table lists. |
| Parsers.Parser.Query | src/parse/parser.cpp:47-58 | Follows the grammar of queries; the result and the state of the lexer are those of the grammar. |
| Parsers.PredicateToString | src/query/predicate.cpp:88-95 | The loop writes the printed predicate. |
| Parsers.QueryToString | src/parse/parsedata.cpp:26-42 | The loops write the printed query. |
| Parsers.StoreAndReadView | src/parse/parsedata.cpp:81-86 | A view that is stored as text and read again is the same query exactly if it has no string constant. |
| Layouts.Schema.AddField | src/record/schema.cpp:12-15 | One more field at the end, and its info. |
| Layouts.MakeLayout | src/record/layout.cpp:11-18 | The loop computes the offsets and the slot size. |
| Layouts.LayoutGood | src/record/layout.cpp:11-49 | For every schema the fields have disjoint places inside the slot, behind the flag. |
| Layouts.LayoutPlaces | src/record/layout.cpp:11-49 | For every schema the first field is at 4, each next one begins where the one in front of it ends, 4 bytes further for an int and 4 plus the declared length for a string, the slot ends with the last, and a name has the place of its last mention. |
| Layouts.SlotsFill | src/record/recordpage.cpp:94-96 | A block has as many slots as fit into it. |
| Layouts.SlotsMeaning | src/record/recordpage.cpp:76-78 | Slot number k begins at k times the slot size, with the four bytes of its flag, and has the fields of the schema. |
| Layouts.FieldsMeaning | src/record/recordpage.cpp:19-37 | The bytes of a field stand at k times the slot size plus its offset: four for an int, the length and the bytes of a string. |
| Layouts.FieldIndependence | src/record/recordpage.cpp:19-37 | Writing a fitting value to one field of one slot: it is read back, and the bytes of every other field of every slot and of every flag stay. |
| Layouts.FlagIndependence | src/record/recordpage.cpp:76-78 | Writing a flag: it is read back, and the bytes of every field and of every other flag stay. |
| Layouts.WriteField | src/record/recordpage.cpp:29-37 | On the slots of a block, setting a field changes that field of that slot only, and the block stays readable. |
| Layouts.WriteFlag | src/record/recordpage.cpp:76-78 | On the slots of a block, setting a flag changes that flag only. |
| TypedPages.FieldWrite | src/file/page.cpp:36-44 | On a page of records, the bytes that setting an int or a string at the place of a field writes show the typed values with that one changed, at every field and flag of every slot. |
| TypedPages.FlagWrite | src/record/recordpage.cpp:76-78 | The same for a flag. |
| TypedPages.SameSlots | src/record/recordpage.cpp:19-37 | Pages that show the same values have the same slots, whatever their other bytes are. |
| TypedPages.UndoRestores | src/tx/recovery/setstringrecord.cpp:34-38 | Writing a value and then the old one again brings back all values and all records. |
| TypedPages.UndoBytesIff | src/tx/recovery/setstringrecord.cpp:34-38 | It brings back the bytes of the page if and only if the value written was not longer than the old one or ended in the bytes that stood behind the old one. |
| TypedPages.UndoShown | src/tx/transaction.cpp:145-188 | Undoing a list of log records on the bytes of a block is undoing it on its values. |
| TypedPages.RecordsRecovered | src/tx/transaction.cpp:165-188 | Whenever a run stops, undoing the recovery list on the bytes of a block that is on disk leaves exactly the records that the durably committed transactions have left in it. |
| Records.BlankNext | src/record/recordpage.cpp:43-58 | Formatting one more field keeps what has been formatted, down to the bytes. |
| Records.AllBlank | src/record/recordpage.cpp:43-58 | When flag and fields of all slots have been written, the block shows empty slots with zeros and empty strings, whatever it held before. |
| Records.RecordPage.GetInt | src/record/recordpage.cpp:19-22 | Reads the int field of a slot. |
| Records.RecordPage.GetString | src/record/recordpage.cpp:24-27 | Reads the string field of a slot. |
| Records.RecordPage.SetInt | src/record/recordpage.cpp:29-32 | Changes that field of that slot; all other slots and blocks stay. |
| Records.RecordPage.SetString | src/record/recordpage.cpp:34-37 | The same for a string that is not longer than declared. |
| Records.RecordPage.DeleteRecord | src/record/recordpage.cpp:39-41 | The slot is empty; its fields and all other slots stay. |
| Records.RecordPage.SearchAfter | src/record/recordpage.cpp:80-92 | The first slot behind the given one with the flag, or nothing exactly if there is none in the block. |
| Records.RecordPage.InsertAfter | src/record/recordpage.cpp:64-70 | Marks the first empty slot behind the given one as used, flag 0 becoming 1, or changes nothing if there is none. |
| Records.RecordPage.Format | src/record/recordpage.cpp:43-58 | Formats any block and terminates; every slot then has flag 0, zeros and empty strings, and other blocks stay. |
| TableScans.UsedMembers | src/record/tablescan.cpp:29-40 | The list that a pass delivers has every used slot once, in the order of blocks and slots. |
| TableScans.TableScan.constructor | src/record/tablescan.cpp:12-23 | Stands in front of the first record; an empty file gets a formatted block. |
| TableScans.TableScan.BeforeFirst | src/record/tablescan.cpp:25-27 | All records are in front of the cursor. |
| TableScans.TableScan.Next | src/record/tablescan.cpp:29-40 | Goes to the first record behind the cursor over any number of blocks, or to the end exactly if there is none; after the end the records of the last block are in front of the cursor again. |
| TableScans.TableScan.GetVal | src/record/tablescan.cpp:50-56 | The field of the current record, by its type. |
| TableScans.TableScan.SetVal | src/record/tablescan.cpp:68-74 | Changes that field of the current record; every other record and the rest of the pass stay. |
| TableScans.TableScan.DeleteRecord | src/record/tablescan.cpp:97-99 | The current record is gone; every other record and the rest of the pass stay. |
| TableScans.TableScan.Insert | src/record/tablescan.cpp:84-95 | Takes the first slot from the cursor on that was empty, in a new block if there is none, disturbs no other record and terminates when a slot fits into a block. |
| TableScans.TableScan.MoveToRid | src/record/tablescan.cpp:108-113 | The cursor is on that slot. |
| TableScans.PutHolds | src/record/tablescan.cpp:68-99 | A change of one slot is a change of the map from record identifiers to records at that identifier only. |
| Updates.AllMatchesMeaning | src/query/selectscan.cpp:16-23 | The matching records are exactly those that satisfy the predicate, each once. |
| Updates.DeletedMeaning | src/plan/basicupdateplanner.cpp:23-39 | A deletion leaves exactly the records in which the sides of some term stand for different values. |
| Updates.UpdatedMeaning | src/plan/basicupdateplanner.cpp:41-58 | An update sets the field, where the sides of every term stand for the same value, to what the expression stands for in the old record. |
| Updates.SelectScan.Next | src/query/selectscan.cpp:16-23 | Goes to the next matching record, or to the end exactly if none is left. |
| Updates.ExecuteDelete | src/plan/basicupdateplanner.cpp:23-39 | Exactly the records are left in which the two sides of some term stand for different values, unchanged, and the result is the number of the others. |
| Updates.ExecuteModify | src/plan/basicupdateplanner.cpp:41-58 | Every record in which both sides of every term stand for the same value has, in the field, the value that the expression stands for in its old values, every other record and field is unchanged, and the result is the number of the changed ones. |
| Catalog.Appended | src/record/tablescan.cpp:84-95 | In a table that was only appended to, insertion puts one record behind all others. |
| Catalog.AppendRow | src/metadata/tablemgr.cpp:44-58 | Insertion and the setting of all fields append exactly one record, in any number of blocks. |
| Catalog.CatalogRoundTrip | src/metadata/tablemgr.cpp:38-107 | From the records of any number of tables with distinct names, the layout of each comes back as its schema gives it: fields in order, types, lengths, offsets and slot size; for any other name there is none. |
| Catalog.CatalogSpelling | src/metadata/tablemgr.cpp:13-36 | The names of the two catalog tables and of their fields, letter by letter, in their order, with 16 bytes for names, and the numbers 4 and 12 for the two types. |
| Catalog.TableMgr.constructor | src/metadata/tablemgr.cpp:30-36 | In a new database the two catalog tables are registered in themselves. |
| Catalog.TableMgr.CreateTable | src/metadata/tablemgr.cpp:38-61 | Both catalog files hold one more table, behind those they had. |
| Catalog.TableMgr.GetLayout | src/metadata/tablemgr.cpp:63-107 | Reading the two catalog files gives the layout computed from the schema of the table; nothing where the source throws because there is no such table. |
| Catalog.ReadSize | src/metadata/tablemgr.cpp:67-75 | The slot size in the first record of the table. |
| Catalog.ReadFields | src/metadata/tablemgr.cpp:79-101 | The schema and the offsets that the records of the table give; nothing for an unknown type. |

## Left out

- Lock table and concurrency manager: there is no exclusive lock to model; write exclusion is assumed instead.
- `FileMgr` streams and directories: a file is a sequence of blocks, a write of a block is atomic.
- Waiting for a buffer or a lock with a time limit: a single attempt is modelled.
- Buffers are values in the sequence `BufferMgr.pool`, not objects of their own; aliasing of a buffer by two holders is not captured.
- The buffers hold typed values and the record pages bytes; they meet in the lemmas of `TypedPages`, not in one object. Unlogged
  writes of the bytes, such as formatting a new block, are on the byte level only.
- Reading the log while other transactions append to it: the iterator is modelled on the log as it was flushed.
- Transactions.Transaction.SetInt: unlogged writes of a changed value by a running transaction are not modelled, because recovery cannot undo them.
- Transactions.Transaction.SetString: the same.
- Logs.LogMgr.Append: records longer than the block size less eight bytes, which the source writes beyond the page or throws on, are excluded.
- Buffers.BufferMgr.TryToPin: blocks that the data file does not have yet; reading one leaves in the buffer what an earlier block has left there.
- Transactions.BufferList.Pin: the same.
- Transactions.Transaction.Pin: the same.
- MergeJoin.MergeJoinScan.BeforeFirst: with a right side in two runs, only a scan that has not delivered a pair is read again.
- MergeJoin.MergeJoinScan.ReadAgain: the same; the second pass over two runs is not modelled, nor what follows the first answer of a pass without a left row.
- JoinPlans.MergeJoinPlan.Open: needs non-empty inputs, because a sort of zero runs has no first run.
- JoinPlans.MergeJoinPlan.OpenAndRead: the same.
- SortPlans.OpenSorted: needs a non-empty input; the source reads the first of zero runs.
- SortScans.SortScan.constructor: zero runs are excluded, for the same reason.
- GroupBy.GroupByScan.constructor: needs a non-empty input, for the same reason.
- GroupPlans.GroupByPlan.Open: the same.
- GroupPlans.GroupByPlan.OpenAndRead: the same.
- Planners.BasicQueryPlanner.CreatePlan: tables that are views are not expanded.
- Planners.HeuristicQueryPlanner.CreatePlan: base tables only, none twice, with disjoint field names; views, self joins and shared field names are not modelled.
- Cost estimates and statistics: arbitrary numbers that steer the greedy planner.
- The scans of a plan tree other than those above, and the physical order of the rows of a plan: planner equality is about bags of rows.
- Printing.RoundTripIff: needs names as the lexer reads them, and at least one field and one table, which is all the grammar can express.
- INSERT, UPDATE, DELETE and CREATE statements in the parser: they have no printed form to compare with.
- Layouts.WriteField: needs strings that fit their declared length, which nothing in the source checks.
- Records.RecordPage.SetString: the same.
- TypedPages.FieldWrite: the same.
- TypedPages.UndoShown: needs log records about fields and flags, with values that fit, as the record pages write them.
- TypedPages.RecordsRecovered: the same.
- TableScans.TableScan.SetVal: the same.
- TableScans.TableScan.Insert: needs a slot size of at most the block size; otherwise the source appends blocks for ever.
- Updates.ExecuteModify: needs new values of the type and length of the field, and a predicate over fields of the table; otherwise the source throws or overwrites neighbours.
- Catalog.TableMgr.CreateTable: needs names of at most 16 bytes, distinct names and sizes below two to the 31st; nothing in the source checks them.
- Pins taken by record pages, indexes, the view catalog, `execute_insert`, network, user interface and demonstration code.
