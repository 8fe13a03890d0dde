# Verification of substreams-sink-sql

A Dafny model of the parts of the sink in which data could get lost, doubled or mixed up, with proofs.
`dafny verify dfyconfig.toml` checks all of it.

## What is modelled

**The reorg-safe batching loader** (`db_changes/db`, `db_changes/sinker`, Postgres path). The loader coalesces row
changes into at most one pending operation per row; a flush runs them in ordinal order, saves an undo record before
each reversible statement, prunes what has become final, moves the cursor and commits; a revert replays undo records,
newest block first.

- `Database.dfy` gives statements, undo records and transactions their meaning on tables (a map from table and key to
  row). `RowEffects.dfy` reduces all of them to effects on single rows; effects on distinct rows commute.
- `RowUniqueId.dfy` is the string id of a row. `Coalescing.dfy` holds the merge rules as a function on states.
  `Loader.dfy` is the mutable loader with its insertion-ordered maps and operation objects, proved to follow these rules
  (`OrderedMaps.dfy` is the map it uses).
- `ChangeMeaning.dfy` tells what a single change does, at once and to what is pending, without the rules that the other
  files share. `FlushRefinement.dfy`: when flushing a batch is applying its changes one at a time. `UpsertMerging.dfy` has the one
  transition that can spoil it.
- `RetriedFlush.dfy` is the retry loop around a flush, whose commits may be applied without being acknowledged.
  `RepeatedFlush.dfy`: what a batch that was applied several times leaves in the tables and in the history.
- `UndoLog.dfy` is about the records of one flush, taken back row by row, `UndoHistory.dfy` about the history that they
  form and the tables halfway back through a batch, `Blocks.dfy` about batches as sequences of blocks, and
  `PendingMarks.dfy` about the block marks that pending operations bear. `ReorgRuns.dfy` puts them together: in every
  run of flushes with any attempts, prunings and reverts to whatever block, the history tells how to get back, as long
  as no batch that is applied again writes anything new to stored rows. `ReorgExactness.dfy` says when a revert is then
  exact: always if no batch straddles its block, and otherwise exactly under a condition on the rows of the batch that
  does. `ReorgLimits.dfy` has the rows that come out wrong, `PendingUndo.dfy` the changes that are pending during an
  undo.
- `ExactlyOnce.dfy`: the protocol over failed flushes, retries, lost acknowledgements, crashes and restarts.
  `Sinker.dfy`: the block handlers over the loader. `SinkerRuns.dfy`: exactly-once for these objects, over any number
  of processes. `RisingWave.dfy`: the flush in insertion order.

**The CSV bundler and its writer** (`db_changes/bundler`). `Boundaries.dfy` is the arithmetic of ranges,
`Bundling.dfy` the state machine of a table's files, `Bundler.dfy` the object, `BufferedWriter.dfy` the writer that
keeps bytes in memory until they spill to a file.

**Row shaping** (`db_proto`, `cmd/substreams-sink-sql/from_proto_generate_csv.go`). `TableSchema.dfy`: which fields
become columns, and the column orders of the writers. `MessageWalk.dfy`: the two recursive walks over a message tree as
functions. `WalkAlignment.dfy`: when value lists line up with columns. `WalkAgreement.dfy`: when the two walks give the
same rows. `RowInsertion.dfy` and `RowBuffers.dfy`: the walks as they run, with an inserter and with a pool of row
buffers. `RowContents.dfy`: which messages give rows, in what order, and what stands in each column, told from the
messages. `CsvText.dfy`: the printer of values and rows against a reader for section 2 of RFC 4180. `TableLayout.dfy`:
the printer of CREATE TABLE statements.

**Smaller parts.** `ProtoFiles.dfy`: dependency order of proto files. `RangeFiles.dfy`: padded range names and the
choice of the files to load. `HeldBlocks.dfy`: the from-proto sinker's batches of held blocks, as a protocol with
crashes and as an object.

## Premises, and what the code does without them

- A pending operation has one block mark for all the changes that went into it, and its undo record one row: that from
  before the batch. A revert to a block inside a batch is therefore exact exactly when each row with a record above the
  block is the same before the batch and at the block, and each other row the same at the block and after the batch
  (`ReorgExactness.StraddledRevertIsExactIff`, or by the marks of the pending operations
  `ReorgExactness.FlushedThenRevertedIff`). It is so if no row is named on both sides of the block
  (`ReorgExactness.OneSidedRevertIsExact`). Both ways of going wrong occur: two updates keep the mark of the first, and
  the revert leaves the later one in place (`ReorgLimits.StraddledRowKeepsLaterChange`); an update and then a delete
  have the mark of the delete, and the revert takes the update back too
  (`ReorgLimits.StraddledDeleteLosesEarlierChange`).
- A flush whose commit is applied but not acknowledged is tried again over its own result. The tables do not change, but
  the history gets the batch's records once more, now with the rows that the batch left. A revert then restores the
  rows for every order in which the query may answer exactly when the batch wrote nothing new to stored rows
  (`RepeatedFlush.RetriedRevertIff`); an update that did can stay (`RepeatedFlush.UnacknowledgedUpdateStays`). Batches
  with an insert are applied once at most (`RepeatedFlush.InsertIsAppliedOnce`). The runs of `ReorgRuns.dfy` have such
  retries, and `ReorgRuns.CleanRun` is the condition on them.
- An update followed by an upsert of the same row returns before the key columns are added. The flush of a batch is right
  exactly when each upsert that is pending at the end has all columns of its key, and its row was stored before or has
  all columns of its data (`FlushRefinement.FlushEqualsOneAtATime`). While loading it is enough to look at each upsert
  that meets a pending update (`UpsertMerging.MergedRightlyEndsWhole`).
- The id of a row joins its key values with "/". A key shares its id with another one over the same columns exactly
  when it has two or more columns and a "/" in a value (`RowUniqueId.CollidesIff`). Changes are taken to have no such
  keys.
- Changes do not rewrite the columns of their key.
- An undo does not clear what is pending and does not lower the last applied block
  (`Sinking.SQLSinker.HandleBlockUndoSignal`). The flush after it leaves what the surviving pending blocks leave exactly
  when each pending operation takes its own row there (`PendingUndo.FlushAfterUndoIff`); if none survives, that is to
  leave the row as it is (`PendingUndo.PendingIsHarmlessIff`), and an update of an undone block does not
  (`PendingUndo.UpdateOfUndoneBlockIsWritten`).
- An undo writes the cursor of the last valid block even if blocks up to there are still pending. If the process dies
  before the next flush, their changes are lost, unless they would have left the tables as they are
  (`PendingUndo.UndoSkipsPendingIff`).
- A value in a column named "block_number", "_block_number_" or "_version_" is printed without quotes whatever its type.
  The printed rows are read back exactly when no such column holds a text that needs quotes
  (`CsvText.ValuesComeBackIff`); "1,2" is one that is read as two fields (`CsvText.BlockNumberTextSplits`).
- Under RisingWave an upsert of a stored row leaves only the columns it writes, so the two dialects agree exactly when
  every such upsert writes all columns that the row has (`RisingWave.OverwritingFlushAgreesIff`).
- The blocks that the from-proto sinker holds outlive a sinker that failed. A second sinker in the same process is right
  exactly when they leave nothing in the database (`HeldBlocks.HeldOfFailedSinkerIff`); the runs are over processes.
- Value lists line up with their columns exactly when no field is misplaced (`WalkAlignment.AlignedIff`): a timestamp
  set as a member of a oneof or repeated and not empty gives a value without a column, and an empty list of scalars a
  column without a value. The comment in `processColumns` that repeated scalars are handled does not cover the empty one.
- Rows are written before a boundary is rolled, so the first block past a boundary is in the earlier file
  (`Bundling.LateBlockLandsInEarlierFile`).
- Range names are read back exactly up to ten digits (`RangeFiles.RangeIsReadIff`); the folder's own name must not
  hold a range.

## Model

| member | source | states |
|---|---|---|
| RowEffects.ExecuteIsStep | db_changes/db/dialect_postgres.go:363-445 | every statement is one effect on the row with the operation's key, and keeps rows filed under their own key |
| RowEffects.RunStepsSettles | db_changes/db/dialect_postgres.go:104-131 | steps over distinct rows succeed exactly when each applies to the row as it was at the start, and change no other row |
| RowEffects.SettledIsUnique | db_changes/db/dialect_postgres.go:104-131 | two outcomes that settle the same rows in the same way are the same tables |
| RowEffects.OrderIrrelevant | db_changes/db/dialect_postgres.go:104-131 | statements over distinct rows give the same tables in any order |
| RowEffects.ExecuteAllLeadsIff | db_changes/db/dialect_postgres.go:104-131 | a batch over distinct rows leads from one state of the tables to another exactly when each operation is complete and leads its own row there |
| RowUniqueId.UniqueIdIsInjective | db_changes/db/ops.go:67-83 | over the same columns, keys have different ids if one of them has one column or no "/" |
| RowUniqueId.CollidesIff | db_changes/db/ops.go:67-83 | a key shares its id with another one over the same columns exactly when it has two or more columns and a "/" in a value |
| RowUniqueId.SlashCollides | db_changes/db/ops.go:82 | two keys with one id |
| RowUniqueId.JoinIsInjective | db_changes/db/ops.go:82 | a list of values without "/" is told apart by its join from every other list of its length |
| RowUniqueId.JoinOfNeighbours | db_changes/db/ops.go:82 | a "/" can move from one value to its neighbour without a change of the join |
| RowUniqueId.CreateRowUniqueID | db_changes/db/ops.go:67-83 | the loop, whatever order the map yields its keys in, gives the values by sorted column name |
| RowUniqueId.SortStrings | db_changes/db/ops.go:68-76 | the sort gives the one increasing listing of the keys |
| RowUniqueId.LessIsAlphabetical | db_changes/db/ops.go:67-83 | the sort's order is that of a dictionary: prefixes first, and else the first difference decides |
| Coalescing.AcceptAllKeepsConsistent | db_changes/db/ops.go:14-279 | in every reachable loader state pending operations are filed under their own row and ordinals are distinct and below the next one |
| ChangeMeaning.InsertApplies | db_changes/db/dialect_postgres.go:363-391 | an insert executed at once stores its data and its key as a new row, or which error |
| ChangeMeaning.UpsertApplies | db_changes/db/dialect_postgres.go:393-410 | an upsert writes its data and its key over the stored row, or stores them as a new one |
| ChangeMeaning.UpdateApplies | db_changes/db/dialect_postgres.go:412-429 | an update writes its data over the stored row if there is one and touches nothing else |
| ChangeMeaning.UpdateMoves | db_changes/db/dialect_postgres.go:412-429 | an update that rewrites the key moves its row, and is refused where another row has the new key |
| ChangeMeaning.StatementRefused | db_changes/db/dialect_postgres.go:363-378 | exactly which statements fail for an unknown column, for a key without a name or for having no columns |
| ChangeMeaning.KeyRefused | db_changes/db/dialect_postgres.go:363-445 | exactly which statements fail because the key has other columns than the table's, because a key column has no value or because the row is there already |
| ChangeMeaning.DeleteApplies | db_changes/db/dialect_postgres.go:431-440 | a delete takes its row away and touches nothing else |
| ChangeMeaning.FreshIsFiled | db_changes/db/ops.go:14-227 | an accepted change of a row with nothing pending leaves its data, with its key for an insert or upsert, pending under the next ordinal with its block mark |
| ChangeMeaning.DeleteIsFiled | db_changes/db/ops.go:231-279 | a delete is what is pending for its row afterwards, whatever was before |
| ChangeMeaning.PendingIsMerged | db_changes/db/ops.go:14-227 | for each pair of a pending and an arriving operation: which are refused, which kind of operation stays pending and with what data |
| ChangeMeaning.UnknownTableIsRefused | db_changes/db/ops.go:14-279 | a change of a table that the database does not have is refused, by the buffer and at once, and no other change for that reason |
| Loading.PendingOperation.MergeOperation | db_changes/db/operations.go:83-101 | a merge changes the data only; the block mark, the key and the ordinal stay |
| Loading.Loader.NextBatchOrdinal | db_changes/db/db.go:457-461 | each ordinal is handed out once |
| Loading.Loader.Insert | db_changes/db/ops.go:14-65 | the object follows the merge rules for inserts, refusals included |
| Loading.Loader.Upsert | db_changes/db/ops.go:104-170 | the object follows the merge rules for upserts, refusals included |
| Loading.Loader.Update | db_changes/db/ops.go:173-227 | the object follows the merge rules for updates, refusals included |
| Loading.Loader.Delete | db_changes/db/ops.go:231-279 | a delete replaces whatever is pending for its row |
| Loading.Loader.FlushNeeded | db_changes/db/db.go:218-225 | true exactly when more rows are pending than the interval |
| Loading.Loader.Reset | db_changes/db/flush.go:81-86 | nothing stays pending and ordinals start again |
| Loading.SortByOrdinal | db_changes/db/dialect_postgres.go:104-114 | the sort gives a permutation of the operations in strictly increasing ordinal |
| Loading.Loader.PendingInOrder | db_changes/db/dialect_postgres.go:104-114 | every pending operation is listed once, in strictly increasing ordinal |
| Loading.OrdinalListingIsUnique | db_changes/db/dialect_postgres.go:104-114 | the ordinal order of what is pending is one sequence |
| Loading.Loader.RunStatements | db_changes/db/dialect_postgres.go:116-131 | the loop runs all statements and saves their records, or fails with the first error |
| Loading.Loader.RunTransaction | db_changes/db/flush.go:13-50 | statements, records, pruning and cursor form one new database, or an error |
| Loading.Loader.Flush | db_changes/db/flush.go:13-50 | a flush runs what is pending in ordinal order and either commits it and empties the buffer or keeps the buffer |
| Loading.Loader.Revert | db_changes/db/flush.go:52-79 | a revert is one transaction and leaves what is pending alone |
| FlushRefinement.CombineDescribes | db_changes/db/operations.go:83-101 | after a merge the pending operation describes how the row of before the batch became the row of now, whatever was merged |
| UpsertMerging.CombineComposes | db_changes/db/operations.go:83-101 | the merged operation does to its row what the two operations do one after the other, unless an upsert meets a pending update and lacks a key column or, over a new row, a column that the update wrote |
| FlushRefinement.AcceptKeepsAgreement | db_changes/db/ops.go:14-279 | each accepted change keeps the pending operations a description of how the tables at the start of the batch became those of now |
| FlushRefinement.FlushEqualsOneAtATime | db_changes/db/dialect_postgres.go:93-138 | for every batch that is accepted and can be applied: flushing it succeeds and equals applying its changes one at a time exactly when each upsert pending at the end has its key columns, and its row was stored before or has all columns of its data |
| FlushRefinement.ExecutionOrderIrrelevant | db_changes/db/dialect_postgres.go:93-138 | every execution order of a batch succeeds or fails together and leaves the same tables |
| UpsertMerging.MergedRightlyEndsWhole | db_changes/db/ops.go:139-166 | that holds if each upsert that meets a pending update names the key, and finds its row stored before the batch or rewrites all that the update wrote |
| UpsertMerging.UpdateThenUpsert | db_changes/db/ops.go:139-166 | for an update and then an upsert of one row it holds only then |
| UndoLog.RevertRecordIsStep | db_changes/db/dialect_postgres.go:140-186 | undoing one record is one effect on the record's row |
| UndoLog.RevertByRow | db_changes/db/dialect_postgres.go:36-91 | taking back a list of records is taking back, row by row, the records of the row in their order |
| UndoLog.OperationReverts | db_changes/db/dialect_postgres.go:310-361 | an operation's record leads from its row after it to its row before it; without a record a reversible operation changed nothing |
| UndoLog.SavedStepReverts | db_changes/db/dialect_postgres.go:310-361 | the record of one statement takes that statement back |
| UndoLog.SavedBatchRestores | db_changes/db/dialect_postgres.go:310-361 | the records of a batch lead from the tables after it back to those before it |
| UndoLog.SavedBatchUndoes | db_changes/db/dialect_postgres.go:310-361 | the records of any batch, irreversible operations in it or not, take back each row that has one |
| UndoLog.RevertAnyOrder | db_changes/db/dialect_postgres.go:36-91 | the records of one batch restore the tables in any order |
| RepeatedFlush.ReplayIsHarmless | db_changes/sinker/sinker.go:119-153 | a batch that was applied can only be applied again without effect on the tables |
| RepeatedFlush.AppliedTimes | db_changes/sinker/sinker.go:119-153 | after any attempts the tables have the batch once, and the history has its records and a copy of those over its own result for each further time it was applied |
| RepeatedFlush.RetriedRevertIff | db_changes/sinker/sinker.go:119-153 | after any attempts, every answer of the query reverts to the tables before the batch exactly when it was applied at most once or wrote nothing new to stored rows |
| RepeatedFlush.UnacknowledgedUpdateStays | db_changes/sinker/sinker.go:119-153 | an update that is applied, not acknowledged and applied again stays through a revert whose query answers in the order of writing |
| RepeatedFlush.InsertIsAppliedOnce | db_changes/sinker/sinker.go:119-153 | a batch with an insert is applied at most once |
| UndoHistory.HalfwayRows | db_changes/db/dialect_postgres.go:72-91 | taking back only the records above a block leaves each row with such a record as before the batch and each other row as after it |
| PendingMarks.LoadedIsMarked | db_changes/db/ops.go:14-279 | every pending operation bears the mark of a block of the batch that names its row, and every row named has one |
| ReorgRuns.RevertSucceeds | db_changes/db/dialect_postgres.go:36-91 | every revert to a block not below the final height succeeds, whatever order the query answers in within a block: batches above it are taken back whole, one that straddles it by the records above it |
| ReorgRuns.FlushTellsStory | db_changes/db/dialect_postgres.go:93-138 | the records of a flushed batch, applied once or again with nothing new, take their rows back in any order and bear blocks that name them |
| ReorgRuns.FlushLeaves | db_changes/db/dialect_postgres.go:93-138 | a flush leaves the tables of one execution, however often it was applied, and the records of all |
| ReorgRuns.FlushKeepsRecorded | db_changes/db/dialect_postgres.go:93-138 | after a flush with pruning the history still holds exactly what it takes to undo each batch above the final height |
| ReorgRuns.RevertKeepsRecorded | db_changes/db/dialect_postgres.go:72-91 | after a revert the same holds of the batches that are left |
| ReorgRuns.RunIsRecorded | db_changes/db/dialect_postgres.go:204-210 | it holds in every world of every run in which no batch that is applied again writes anything new to stored rows |
| ReorgRuns.RepeatableIff | db_changes/sinker/sinker.go:119-153 | for a single batch the condition on runs is exact: every answer of the query restores the tables if and only if it holds |
| ReorgRuns.FlushIsEvent | db_changes/db/flush.go:13-50 | every flush of which an attempt is applied is an event of the runs, and a clean one if it is applied once |
| ReorgRuns.RevertIsEvent | db_changes/db/flush.go:52-79 | every revert not below the final height is one too |
| ReorgExactness.RevertIsExactInEveryRun | db_changes/db/dialect_postgres.go:36-91 | over every such run a revert that no batch straddles leaves the tables after the last flush at or below its block |
| ReorgExactness.StraddledRevertIsExactIff | db_changes/db/dialect_postgres.go:36-91 | over every such run a revert into a batch leaves what the blocks up to there leave exactly when each row with a record above the block is the same before the batch and at the block, and each other row at the block and after the batch |
| ReorgExactness.OneSidedRevertIsExact | db_changes/db/dialect_postgres.go:36-91 | it does so if no row is named on both sides of the block |
| ReorgExactness.FlushedThenRevertedIff | db_changes/db/operations.go:83-101 | the same condition read off the marks of the flushed operations |
| ReorgExactness.RunIsFaithful | db_changes/db/flush.go:13-79 | after every batch of every such run the tables are what the changes so far leave |
| ReorgExactness.TablesAreSurvivingChanges | db_changes/db/flush.go:52-79 | after any such run, if its straddled reverts are exact, the tables are what the changes not taken back leave, one at a time |
| ReorgExactness.OneSidedRunKeepsSurvivingChanges | db_changes/db/flush.go:52-79 | it is so if no batch names a row on both sides of a block that is reverted to |
| ReorgLimits.StraddledRowKeepsLaterChange | db_changes/db/operations.go:83-101 | a row updated at or below the target block and above it in one batch keeps the later change through the revert |
| ReorgLimits.StraddledDeleteLosesEarlierChange | db_changes/db/ops.go:231-279 | a row updated and then deleted in one batch loses the update too when the delete is reverted |
| ReorgLimits.StraddledRowIsExactIff | db_changes/db/operations.go:83-101 | for two updates of a row in one batch, a revert between them is exact exactly when the later one writes nothing new |
| PendingUndo.FlushLeavesTablesIff | db_changes/db/dialect_postgres.go:93-138 | a flush changes nothing exactly when each of its operations leaves its own row as it is |
| PendingUndo.PendingIsHarmlessIff | db_changes/db/flush.go:52-79 | the flush after an undo leaves the reverted tables exactly when each pending operation leaves its row as the undo left it |
| PendingUndo.FlushAfterUndoIff | db_changes/db/flush.go:52-79 | the flush after an undo leaves what the pending blocks at or below its block leave, on the reverted tables, exactly when each pending operation takes its own row there |
| PendingUndo.PendingUpdatesAfterUndoIff | db_changes/db/flush.go:52-79 | two pending updates of a stored row, the second undone, go where the first alone would exactly when the second writes nothing new after it |
| PendingUndo.UpdateOfUndoneBlockIsWritten | db_changes/db/flush.go:52-79 | an update of an undone block, pending when the undo arrives, is written by the next flush |
| PendingUndo.PendingSurvivesUndo | db_changes/db/flush.go:52-79 | what is pending when an undo arrives is applied by the next flush |
| PendingUndo.ReachableIsCovered | db_changes/sinker/sinker.go:68-229 | in every reachable state without an undo all records bear blocks at or below the committed cursor |
| PendingUndo.UndoSkipsPendingIff | db_changes/sinker/sinker.go:311-313 | an undo to a pending block takes nothing back and moves the cursor over the pending blocks up to there; a process that starts then goes on behind them, and the tables are right exactly when those blocks leave them as they are |
| ExactlyOnce.TryFlushOnce | db_changes/sinker/sinker.go:119-153 | retries leave the database as before or with tables and cursor of one flush, and success means the latter |
| ExactlyOnce.FlushIsExact | db_changes/db/flush.go:13-50 | a flush with retries keeps tables and cursor in step |
| ExactlyOnce.MoveKeepsExact | db_changes/sinker/sinker.go:68-229 | starting, receiving, completing and crashing keep tables and cursor in step |
| ExactlyOnce.CommittedTablesAreExact | db_changes/sinker/sinker.go:68-229 | in every reachable state the committed tables are what exactly the blocks up to the committed cursor leave |
| ExactlyOnce.SegmentFlushes | db_changes/sinker/sinker.go:155-229 | what a process has loaded since its last flush goes to the tables as those blocks one change at a time |
| Sinking.LoadIsAcceptAll | db_changes/sinker/sinker.go:231-292 | loading a block is accepting its decoded changes |
| Sinking.FieldsByName | db_changes/sinker/sinker.go:256-259 | the data of a change are exactly the names of its fields, each with the value of the last field of that name |
| Sinking.DecodedChange | db_changes/sinker/sinker.go:231-292 | what each kind of change decodes to: a single key value goes under the one primary column, a composite key is taken as it comes, a delete has no data, an unknown operation is nothing, and which changes are refused |
| Blocks.StampedChange | db_changes/sinker/sinker.go:261-264 | a change is loaded unchanged, and bears its block's number exactly while the block is above the final one |
| Sinking.UndecodableFails | db_changes/sinker/sinker.go:231-292 | a change that cannot be decoded makes the block fail |
| Sinking.HandledIsReceived | db_changes/sinker/sinker.go:155-229 | what the handler does is the protocol's step of receiving a block |
| Sinking.StartedIsStart | db_changes/sinker/sinker.go:68-117 | what the start does is the protocol's step of starting |
| Sinking.CompletedIsComplete | db_changes/sinker/sinker.go:294-309 | what the end of the range does is the protocol's step of completing |
| RetriedFlush.TryFlushAppend | db_changes/sinker/sinker.go:119-153 | failed attempts can be counted one after the other |
| Loading.CursorAtHighestBlock | db_changes/db/cursor.go:93-102 | one of the cursors is returned, with none at a higher block |
| Loading.Loader.GetCursor | db_changes/db/cursor.go:49-91 | the module's own cursor, or none, or one of another module's or a refusal as the mode says; reading may fail |
| Sinking.SQLSinker.Start | db_changes/sinker/sinker.go:68-117 | exactly when the start succeeds, where it begins, and that a cursor which is not the module's own is written first; reading and writing may fail |
| Sinking.SQLSinker.FlushWithRetry | db_changes/sinker/sinker.go:119-153 | the loop tries the flush until an attempt commits, at most once more than the retries and only once without a delay; the database is what that many attempts leave |
| Sinking.SQLSinker.FlushAgain | db_changes/sinker/sinker.go:119-153 | one more attempt continues those that failed, with the same operations |
| Sinking.SQLSinker.BlockFlushNeeded | db_changes/sinker/sinker.go:182-187 | in live mode the live interval decides unless the flush lags behind, otherwise the batch interval if there is one; the blocks since the last flush are counted with wrap-around |
| Sinking.SQLSinker.ApplyDatabaseChanges | db_changes/sinker/sinker.go:231-292 | the loop loads the changes of a block in order, or fails with the first error |
| Sinking.SQLSinker.HandleBlockScopedData | db_changes/sinker/sinker.go:155-229 | exactly when a flush happens, what it leaves, and that pending rows never exceed the row interval afterwards |
| Sinking.SQLSinker.HandleBlockRangeCompletion | db_changes/sinker/sinker.go:294-309 | the rest is flushed with the final block as final height |
| Sinking.SQLSinker.HandleBlockUndoSignal | db_changes/sinker/sinker.go:311-313 | the database is reverted; what is pending and the last applied block stay |
| SinkerRuns.RunProcess | db_changes/sinker/sinker.go:68-309 | one process keeps tables and cursor in step wherever it is stopped; if nothing fails it handles all of its calls, and the end of the range leaves no block behind |
| SinkerRuns.RunProcesses | db_changes/sinker/sinker.go:68-309 | after any number of processes over one database, whatever failed in them, the committed tables are what exactly the blocks up to the committed cursor leave |
| RisingWave.OverwritingFlushAgrees | db_changes/db/dialect_risingwave.go:93-126 | without upserts the flush in insertion order leaves the tables of the ordinal-sorted one |
| RisingWave.OverwritingFlushAgreesIff | db_changes/db/dialect_risingwave.go:93-126 | where the Postgres flush succeeds the flush in insertion order leaves the same tables exactly when each upsert of a stored row writes all its columns |
| RisingWave.UpsertAgrees | db_changes/db/dialect_risingwave.go:411-420 | an overwriting upsert agrees with a merging one exactly when the row is new or all its columns are written |
| RisingWave.RefusedAlike | db_changes/db/dialect_risingwave.go:382-397 | an unknown column, a key without a name, no columns or a key column without a value are refused as by Postgres |
| BufferedWriting.IntelligentWriter.Write | db_changes/bundler/writer/buffered.go:185-218 | file and buffer together are what was written, and the file is used exactly when all of it does not fit the buffer |
| BufferedWriting.IntelligentWriter.MemoryData | db_changes/bundler/writer/buffered.go:231-262 | what never spilled is handed out as a view that holds all bytes |
| BufferedWriting.BufferedIO.StartBoundary | db_changes/bundler/writer/buffered.go:50-67 | a boundary starts empty, and not while one is open |
| BufferedWriting.BufferedIO.Write | db_changes/bundler/writer/buffered.go:102-112 | bytes are appended to the boundary, if one is open |
| BufferedWriting.BufferedIO.CloseBoundary | db_changes/bundler/writer/buffered.go:69-100 | what will be uploaded is exactly the bytes since the start, whatever is written later, and comes from memory exactly when it fits the buffer |
| Boundaries.EndBlockIsNextMultiple | db_changes/bundler/bundler.go:212-214 | a boundary ends at the first multiple of the size beyond its start |
| Boundaries.NewBoundaryIsAligned | db_changes/bundler/bundler.go:192-199 | a boundary starts at a multiple of the size, holds its block and is clipped only by the stop block |
| Boundaries.SkippedAreChained | db_changes/bundler/bundler.go:201-210 | skipped boundaries are whole and follow one another up to the block's own |
| Boundaries.CollectBoundariesToSkip | db_changes/bundler/bundler.go:201-210 | the loop ends and collects them |
| Bundling.RollKeepsTiles | db_changes/bundler/bundler.go:104-140 | rolling keeps the opened boundaries a tiling |
| Bundling.BoundariesTile | db_changes/bundler/bundler.go:104-162 | over any nondecreasing blocks the boundaries tile the range without gap or overlap, only the last clipped |
| Bundling.RollKeepsHeld | db_changes/bundler/bundler.go:104-190 | rolling loses and repeats no byte |
| Bundling.WritingAddsRows | cmd/substreams-sink-sql/from_proto_generate_csv.go:1100-1115 | writing adds one header per boundary and the rows in order |
| Bundling.FilesHoldAllRows | cmd/substreams-sink-sql/from_proto_generate_csv.go:1545-1577 | after completion the files, each minus its header, are exactly the rows produced, in order |
| Bundling.LateBlockLandsInEarlierFile | cmd/substreams-sink-sql/from_proto_generate_csv.go:1086-1131 | the first block past a boundary has its rows in the earlier file |
| BundlerObject.Bundler.Start | db_changes/bundler/bundler.go:150-162 | the object starts a boundary as the state machine does |
| BundlerObject.Bundler.Stop | db_changes/bundler/bundler.go:164-190 | a boundary with data goes to the upload queue, one without does not |
| BundlerObject.Bundler.Roll | db_changes/bundler/bundler.go:104-140 | the object rolls as the state machine does, or reports the stop block |
| BundlerObject.WriteTableRows | cmd/substreams-sink-sql/from_proto_generate_csv.go:1100-1115 | the loop writes the header once and then the rows |
| BundlerObject.HandleBlockScopedData | cmd/substreams-sink-sql/from_proto_generate_csv.go:1042-1132 | one block is one step of the state machine |
| BundlerObject.HandleBlockRangeCompletion | cmd/substreams-sink-sql/from_proto_generate_csv.go:1545-1577 | completion rolls past the last block |
| BundlerObject.Export | cmd/substreams-sink-sql/from_proto_generate_csv.go:1042-1132 | what the queue of a whole export uploads is the rows of all blocks, in order |
| TableSchema.ColumnFields | db_proto/sql/schema/table.go:78-120 | the columns are those of exactly the fields that are columns, under the annotated name or else the field's, with the field's marks |
| TableSchema.ReferenceIsRead | db_proto/sql/schema/table.go:23-33 | a reference "table on field" of two words is read as those, and one without " on " is refused |
| TableSchema.ProblemIff | db_proto/sql/schema/table.go:78-120 | something is wrong with the fields exactly when a column's foreign key is malformed or two are primary keys |
| TableSchema.ProcessColumns | db_proto/sql/schema/table.go:78-120 | the loop finds the columns and the one key, or fails with the first thing that is wrong |
| TableSchema.NewTable | db_proto/sql/schema/table.go:44-76 | when a type gets a table, none, or which error |
| TableSchema.ComputeColumns | cmd/substreams-sink-sql/from_proto_generate_csv.go:886-927 | the CSV order is system columns, key, parent, then the other columns |
| TableSchema.CreateInsertColumns | db_proto/sql/postgres/row_inserter.go:70-128 | the Postgres column list is that order without extensions and repeated messages, so that order itself if there are none |
| TableSchema.LeadingAccumulatorColumns | db_proto/sql/click_house/accumulator_inserter.go:73-120 | the first indices are the system columns, the key and the parent's field, which must exist |
| TableSchema.CreateAccumulatorColumns | db_proto/sql/click_house/accumulator_inserter.go:73-137 | the keys of the ClickHouse index map are exactly 0 to n-1, and it is that order |
| MessageWalk.InsertWeight | db_proto/sql/database.go:140-198 | the messages collected from a message are smaller than it, so the walk ends |
| RowInsertion.CollectValues | db_proto/sql/database.go:140-198 | the loop collects the values and the child messages, or fails with the first error |
| RowInsertion.InsertOwnRow | db_proto/sql/database.go:84-227 | a row is inserted before the key for the children is looked for |
| RowInsertion.WalkAndInsert | db_proto/sql/database.go:79-238 | the inserter gets exactly the rows of the walk, in order, also those before an error |
| WalkAlignment.AlignedIff | db_proto/sql/database.go:140-198 | the values are those of the columns, in order, exactly when no field is misplaced |
| WalkAlignment.ColumnsBesideKey | db_proto/sql/schema/table.go:78-120 | the fields that should give values are the columns beside the key, in column order |
| WalkAlignment.EveryRowAligned | db_proto/sql/database.go:79-238 | every value list of the walk has the length and the order of its table's columns |
| WalkAgreement.FillInOrder | cmd/substreams-sink-sql/from_proto_generate_csv.go:1004-1013 | assignments by name that hit the columns in order fill the row |
| WalkAgreement.FieldAgrees | cmd/substreams-sink-sql/from_proto_generate_csv.go:1214-1262 | both walks take the same value and the same messages from a field |
| WalkAgreement.RowsAgree | cmd/substreams-sink-sql/from_proto_generate_csv.go:1173-1262 | the named row and the positional row of a message are the same |
| WalkAgreement.WalksAgree | cmd/substreams-sink-sql/from_proto_generate_csv.go:1135-1303 | on whole trees the CSV walk gives the insert walk's rows in the same order, or fails for the same reason |
| RowContents.TableLookup | db_proto/sql/database.go:99-113 | the table is that of the annotation, or of the type's name where annotations are not used |
| RowContents.KeyIsOfItsField | db_proto/sql/database.go:118-128 | the key value of a message is that of the one field that is its table's key |
| RowContents.RowsTellMessages | db_proto/sql/database.go:79-238 | the rows of the insert walk are, in order, those of the messages with a table, outer before inner: in each column stands the system value, the message's key, the key of the nearest keyed message around it or the converted value of the column's own field; an error ends them |
| RowContents.CsvRowsTellMessages | cmd/substreams-sink-sql/from_proto_generate_csv.go:1135-1303 | so are the rows of the CSV walk where the walks agree |
| RowBuffers.AssignRowValue | cmd/substreams-sink-sql/from_proto_generate_csv.go:1004-1013 | a value goes to the index of its column, or nowhere |
| RowBuffers.Pool.constructor | cmd/substreams-sink-sql/from_proto_generate_csv.go:812-816 | there is an empty pool for exactly the given tables |
| RowBuffers.Pool.AcquireRowBuffer | cmd/substreams-sink-sql/from_proto_generate_csv.go:975-993 | a cleared buffer that nobody else holds, from the pool or new |
| RowBuffers.Pool.ReleaseRowBuffer | cmd/substreams-sink-sql/from_proto_generate_csv.go:995-1002 | only a buffer that is out can be given back |
| RowBuffers.Pool.ReleaseAccumulated | cmd/substreams-sink-sql/from_proto_generate_csv.go:1152-1158 | all rows collected so far go back, each once and to the pool of its table |
| RowBuffers.Pool.CollectFields | cmd/substreams-sink-sql/from_proto_generate_csv.go:1214-1262 | the loop fills the row and collects the messages, or fails with the first error |
| RowBuffers.Pool.CollectOwnRow | cmd/substreams-sink-sql/from_proto_generate_csv.go:1173-1275 | one buffer is owed after a row, none after an error |
| RowBuffers.Pool.CollectRows | cmd/substreams-sink-sql/from_proto_generate_csv.go:1135-1303 | on success the buffers out are exactly those of the returned rows, which hold the walk's rows; on any error, at any depth, none is |
| RowBuffers.Pool.CollectAll | cmd/substreams-sink-sql/from_proto_generate_csv.go:1293-1300 | the same for the children of a message |
| CsvText.FormatRow | cmd/substreams-sink-sql/from_proto_generate_csv.go:1319-1342 | the loop prints one value per column, raw or escaped as column and value decide; a missing cell prints as nothing |
| CsvText.BrokenIff | cmd/substreams-sink-sql/from_proto_generate_csv.go:1345-1454 | a printed cell lacks quotes it needs exactly in a column of block numbers or versions, for a value that is no number and whose text needs them |
| CsvText.CellIsRead | cmd/substreams-sink-sql/from_proto_generate_csv.go:1515-1523 | a cell that is not broken is read as its text, whatever characters that has |
| CsvText.RoundTripIff | cmd/substreams-sink-sql/from_proto_generate_csv.go:1319-1342 | a printed stream of rows is read as the same texts exactly when each row has cells and none of them is broken |
| CsvText.ValuesComeBackIff | cmd/substreams-sink-sql/from_proto_generate_csv.go:1319-1454 | the rows of a table come back exactly when no column of block numbers or versions holds a text that needs quotes |
| CsvText.ValuesAreRead | cmd/substreams-sink-sql/from_proto_generate_csv.go:1319-1454 | then what is read at a row and column is the text of the value that was there: the string, the decimal digits, true or false, or the formatter's text as column and value decide |
| CsvText.BlockNumberTextSplits | cmd/substreams-sink-sql/from_proto_generate_csv.go:1350-1355 | the text "1,2" in a column "block_number" is read as two fields |
| TableLayout.PiecesRejoin | cmd/substreams-sink-sql/from_proto_generate_csv.go:455-486 | the pieces with commas between them are the column list |
| TableLayout.OnlyPieces | cmd/substreams-sink-sql/from_proto_generate_csv.go:455-486 | no piece has a comma outside of parentheses and quotes |
| TableLayout.FindClose | cmd/substreams-sink-sql/from_proto_generate_csv.go:424-447 | the loop finds the closing parenthesis of the column list |
| TableLayout.SplitColumns | cmd/substreams-sink-sql/from_proto_generate_csv.go:455-486 | the loop splits at the commas and drops blank parts |
| TableLayout.PrettyFormatCreateTable | cmd/substreams-sink-sql/from_proto_generate_csv.go:416-505 | the method prints prefix, one part per line, and suffix |
| TableLayout.LayoutKept | cmd/substreams-sink-sql/from_proto_generate_csv.go:416-505 | splitting the output gives the same prefix, parts and suffix |
| TableLayout.PrettyIsIdempotent | cmd/substreams-sink-sql/from_proto_generate_csv.go:416-505 | printing twice is printing once, on every input |
| ProtoFiles.Builder.Resolve | db_proto/proto/utils.go:53-77 | after a file all it depends on is built, or something is missing |
| ProtoFiles.ResolveDependencies | db_proto/proto/utils.go:41-51 | on an acyclic set, in any map order: an error exactly if a dependency is missing, else every file once, after its dependencies |
| RangeFiles.PaddedOrder | db_changes/bundler/writer/common.go:30-32 | padded numbers are ordered as numbers |
| RangeFiles.NameOrder | db_changes/bundler/writer/common.go:30-32 | names are ordered by first and then by last block |
| RangeFiles.RangeIsRead | cmd/substreams-sink-sql/inject_csv.go:262-273 | a printed range is read back from a path |
| RangeFiles.RangeIsFirstMatch | cmd/substreams-sink-sql/inject_csv.go:262-273 | the range of a name is that of its first match, and a name without one is refused |
| RangeFiles.RangeIsReadIff | cmd/substreams-sink-sql/inject_csv.go:262-273 | it is so exactly below ten digits |
| RangeFiles.FindFilesToLoad | cmd/substreams-sink-sql/inject_csv.go:241-260 | the walk skips, stops and fails where the code does |
| RangeFiles.EarlyStopIsExact | cmd/substreams-sink-sql/inject_csv.go:241-260 | over a sorted folder it selects exactly the files that meet the requested range |
| HeldBlocks.WrittenAppend | db_proto/sinker.go:272-291 | what batches leave adds up in order |
| HeldBlocks.MoveKeepsExact | db_proto/sinker.go:47-270 | starting, receiving, completing and crashing keep rows and cursor in step |
| HeldBlocks.CrashAndStart | db_proto/sinker.go:47-70 | wherever a process dies, the next one starts from what is committed, after the clean-up |
| HeldBlocks.ReceivedIsMove | db_proto/sinker.go:85-195 | what the handler of a block does is the protocol's move of receiving |
| HeldBlocks.CompletedIsMove | db_proto/sinker.go:199-270 | what the handler of the end does is the protocol's move of completing |
| HeldBlocks.CommittedBlocksAreExact | db_proto/sinker.go:47-270 | in every state reachable through batches, failed transactions, lost acknowledgements, crashes and restarts the database holds exactly the blocks up to the committed cursor, in order |
| HeldBlocks.CleanUpFindsNothing | db_proto/sinker.go:57-63 | the undo at the start has nothing to remove |
| HeldBlocks.RowsUpToStay | db_proto/sinker.go:57-63 | the undo keeps exactly the rows up to the cursor |
| HeldBlocks.HeldOfFailedSinkerIff | db_proto/sinker.go:83 | a sinker that starts with blocks held by a failed one writes what it should exactly when they leave nothing |
| HeldBlocks.Sinker.Start | db_proto/sinker.go:47-70 | the start goes on after the committed cursor, and rows above it are gone |
| HeldBlocks.Sinker.ProcessHolding | db_proto/sinker.go:156-165 | all held blocks enter the open transaction in order, at once or when the inserter is flushed, or a call of the database failed |
| HeldBlocks.Sinker.WriteHeld | db_proto/sinker.go:120-191 | the held blocks and the cursor are committed together or not at all, at whichever call it fails |
| HeldBlocks.Sinker.HandleBlockScopedData | db_proto/sinker.go:85-195 | the call is the protocol's step of receiving a block, and says when the held blocks are written |
| HeldBlocks.Sinker.HandleBlockRangeCompletion | db_proto/sinker.go:199-270 | before the end nothing happens, at the end the call is the protocol's step of completing |

## Left out

- Loading.Loader.Update: an update or delete whose key names other columns than the table's key is an error here
  (`NotThePrimaryKey`), while the code would send a statement over other rows.
- Loading.Loader.Insert: the data map stays the loader's own; the code shares it with its caller.
- Loading.Loader.Revert: the mismatch of module hashes is not modelled.
- SinkerRuns.RunProcess: a process is stopped between calls or by a failed call; `ExactlyOnce.Moves` has the crash. The
  database has no cursors of other modules.
- Sinking.SQLSinker.HandleBlockScopedData: of 64-bit wrap-around only that of the blocks since the last flush and of
  negative intervals is modelled.
- BufferedWriting.BufferedIO.CloseBoundary: errors of flushing and closing the file, and the reuse of file paths.
- BundlerObject.HandleBlockScopedData: one table; rows of tables without a bundler are dropped before it.
- BundlerObject.HandleBlockRangeCompletion: one table, and no file with the last cursor.
- Bundling.BoundariesTile: block numbers do not overflow.
- RowBuffers.Pool.CollectRows: the cache of column indices, and the block handler's own release of each row after writing it.
- RowInsertion.WalkAndInsert: an inserter that fails.
- CsvText.ValuesComeBackIff: the texts of times, floating-point numbers and binary data are parameters; they are taken
  to hold none of the characters that need quotes.
- ProtoFiles.ResolveDependencies: cycles, on which the code does not end, and files that do not link.
- HeldBlocks.Sinker.HandleBlockScopedData: the parallel mode and the mode without transactions; also undo, which
  deletes block rows and relies on the database's cascades, and which does not clear the held blocks.
- Foreign keys, unique and check constraints, and column types: a statement fails only for its key.
- Conversion of values to SQL types, JSON encoding of undo records, calendar formatting: identities or arbitrary functions.
- The ClickHouse dialect's flush and RisingWave's commits: neither is one transaction, so nothing is claimed of failures there.
- Network, streams, object stores, goroutines, metrics, DSN parsing, CLI commands, setup scripts.
- `CSVEncode` of the older bundler: it does not quote its fields, so there is no round trip.
