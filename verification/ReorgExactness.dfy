/**
 When a revert is exact: always if no batch straddles its block, and otherwise under a condition on the rows of the
 batch that does.
 */
module ReorgExactness {
  import opened Prelude
  import opened Database
  import opened Coalescing
  import opened RowEffects
  import opened RetriedFlush
  import opened RepeatedFlush
  import opened FlushRefinement
  import opened UndoLog
  import opened UndoHistory
  import opened Blocks
  import opened PendingMarks
  import opened ReorgRuns

  // ----- no batch straddles the block -----

  ghost predicate NoneStraddles(epochs: seq<Epoch>, block: nat) {
    forall e :: e in epochs ==> !e.Straddles(block)
  }

  /** How many of the batches are at or below the block. */
  function Kept(epochs: seq<Epoch>, block: nat): (k: nat)
    ensures k <= |epochs|
    decreases |epochs|
  {
    if epochs == [] then 0
    else if Top(epochs).batch != [] && Top(epochs).Last() > block then Kept(Under(epochs), block)
    else |epochs|
  }

  lemma {:induction false} LandingBetween(
    schema: Schema, epochs: seq<Epoch>, tables: Tables, finalBlock: nat, block: nat)
    requires Chain(schema, epochs, tables, finalBlock) && NoneStraddles(epochs, block)
    ensures KeptEpochs(epochs, block) == epochs[..Kept(epochs, block)]
    ensures LandingTables(epochs, tables, block) == After(epochs, tables, Kept(epochs, block))
    decreases |epochs|
  {
    if epochs == [] {
    } else {
      assert Top(epochs) in epochs;
      var top := Top(epochs);
      assert top.First() <= top.Last();
      if block < top.First() {
        assert forall e :: e in Under(epochs) ==> e in epochs;
        LandingBetween(schema, Under(epochs), top.before, finalBlock, block);
        assert Under(epochs)[..Kept(epochs, block)] == epochs[..Kept(epochs, block)];
      } else {
        assert epochs[..|epochs|] == epochs;
      }
    }
  }

  /**
   Over every run of flushes, prunes and reverts: a revert to a block not below the pruned height, which no batch
   straddles, succeeds whatever the order of the query's answer and leaves every table as it was after the last
   flush at or below that block.
   */
  lemma RevertIsExactInEveryRun(
    schema: Schema, worlds: seq<World>, events: seq<Event>, i: nat, order: seq<Record>, lastValid: nat, cursor: Cursor)
    requires ValidSchema(schema) && Run(schema, worlds, events) && CleanRun(worlds, events) && i < |worlds|
    requires worlds[i].finalBlock <= lastValid && NoneStraddles(worlds[i].epochs, lastValid)
    requires QueryAnswer(worlds[i].db.history, lastValid, order)
    ensures RevertTransaction(worlds[i].db, order, lastValid, cursor).Ok?
    ensures RevertTransaction(worlds[i].db, order, lastValid, cursor).value.tables ==
            TablesAfter(worlds[i], Kept(worlds[i].epochs, lastValid))
  {
    var w := worlds[i];
    RunIsRecorded(schema, worlds, events, i);
    RevertSucceeds(schema, w, order, lastValid, cursor);
    LandingBetween(schema, w.epochs, w.db.tables, w.finalBlock, lastValid);
  }

  // ----- a batch straddles the block -----

  lemma {:induction false} LastBelow(schema: Schema, epochs: seq<Epoch>, tables: Tables, finalBlock: nat, k: nat)
    requires Chain(schema, epochs, tables, finalBlock) && k + 1 < |epochs|
    ensures epochs[k].batch != [] && epochs[k].Last() < Top(epochs).First()
    decreases |epochs|
  {
    if k + 2 < |epochs| {
      LastBelow(schema, Under(epochs), Top(epochs).before, finalBlock, k);
      assert Top(Under(epochs)).First() <= Top(Under(epochs)).Last();
    }
  }

  /** Only the batch that straddles the block is cut. */
  lemma {:induction false} LandingInside(
    schema: Schema, epochs: seq<Epoch>, tables: Tables, finalBlock: nat, k: nat, block: nat)
    requires Chain(schema, epochs, tables, finalBlock) && k < |epochs| && epochs[k].Straddles(block)
    ensures LandingTables(epochs, tables, block) == Halfway(After(epochs, tables, k + 1), epochs[k].records, block)
    ensures WellKeyed(After(epochs, tables, k + 1)) && Ascending(epochs[k].batch) && AllKeepKey(schema, epochs[k].batch)
    ensures Story(schema, epochs[k], After(epochs, tables, k + 1), finalBlock)
    ensures WellKeyed(epochs[k].before)
    decreases |epochs|
  {
    if k + 1 < |epochs| {
      LastBelow(schema, epochs, tables, finalBlock, k);
      LandingInside(schema, Under(epochs), Top(epochs).before, finalBlock, k, block);
    }
  }

  /** The tables after the blocks of the batch at or below the block, one change at a time. */
  function MidTables(schema: Schema, e: Epoch, block: nat): Result<Tables> {
    ApplyChanges(schema, e.before, ChangesOf(LowBlocks(e.batch, block)))
  }

  /** A row that the revert brings back must not have changed below the block, any other not above it. */
  ghost predicate RowRight(e: Epoch, after: Tables, mid: Tables, block: nat, id: RowId) {
    if HasRecord(Above(e.records, block), id) then Lookup(e.before, id) == Lookup(mid, id)
    else Lookup(after, id) == Lookup(mid, id)
  }

  ghost predicate AllRowsRight(e: Epoch, after: Tables, mid: Tables, block: nat) {
    forall id :: RowRight(e, after, mid, block, id)
  }

  lemma HalfwayIsExactIff(e: Epoch, after: Tables, mid: Tables, block: nat)
    requires Undoes(e.before, e.records, after) && WellKeyed(after)
    ensures Halfway(after, e.records, block) == mid <==> AllRowsRight(e, after, mid, block)
  {
    var half := Halfway(after, e.records, block);
    forall id ensures RowRight(e, after, mid, block, id) <==> Lookup(half, id) == Lookup(mid, id) {
      HalfwayRows(e.before, e.records, after, block, id);
    }
    if forall id :: RowRight(e, after, mid, block, id) {
      forall id ensures Lookup(half, id) == Lookup(mid, id) {
        assert RowRight(e, after, mid, block, id);
      }
      SameLookups(half, mid);
    }
  }

  /**
   Over every run: a revert to a block that a batch straddles succeeds too. It leaves what the blocks up to there leave,
   one change at a time, exactly when each row with an undo record above the block is the same before the batch and at
   the block, and each other row the same at the block and after the batch.
   */
  lemma StraddledRevertIsExactIff(
    schema: Schema, worlds: seq<World>, events: seq<Event>, i: nat, k: nat, order: seq<Record>, lastValid: nat,
    cursor: Cursor)
    requires ValidSchema(schema) && Run(schema, worlds, events) && CleanRun(worlds, events) && i < |worlds|
    requires worlds[i].finalBlock <= lastValid && QueryAnswer(worlds[i].db.history, lastValid, order)
    requires k < |worlds[i].epochs| && worlds[i].epochs[k].Straddles(lastValid)
    requires MidTables(schema, worlds[i].epochs[k], lastValid).Ok?
    ensures RevertTransaction(worlds[i].db, order, lastValid, cursor).Ok?
    ensures var mid := MidTables(schema, worlds[i].epochs[k], lastValid).value;
            RevertTransaction(worlds[i].db, order, lastValid, cursor).value.tables == mid <==>
            AllRowsRight(worlds[i].epochs[k], TablesAfter(worlds[i], k + 1), mid, lastValid)
  {
    var w := worlds[i];
    RunIsRecorded(schema, worlds, events, i);
    RevertSucceeds(schema, w, order, lastValid, cursor);
    LandingInside(schema, w.epochs, w.db.tables, w.finalBlock, k, lastValid);
    HalfwayIsExactIff(w.epochs[k], TablesAfter(w, k + 1), MidTables(schema, w.epochs[k], lastValid).value, lastValid);
  }

  // ----- a condition to look up in the blocks -----

  /** No row is named by blocks on both sides. */
  ghost predicate OneSided(schema: Schema, batch: seq<Block>, block: nat) {
    forall b, c, id :: b in batch && c in batch && b.number <= block < c.number && Names(schema, b, id) ==>
      !Names(schema, c, id)
  }

  lemma OneSidedRow(schema: Schema, e: Epoch, after: Tables, finalBlock: nat, block: nat, id: RowId)
    requires ValidSchema(schema) && Story(schema, e, after, finalBlock) && Ascending(e.batch)
    requires AllKeepKey(schema, e.batch) && WellKeyed(e.before) && finalBlock <= block
    requires ApplyChanges(schema, e.before, ChangesOf(e.batch)) == Ok(after)
    requires OneSided(schema, e.batch, block) && MidTables(schema, e, block).Ok?
    ensures RowRight(e, after, MidTables(schema, e, block).value, block, id)
  {
    var low, high := LowBlocks(e.batch, block), HighBlocks(e.batch, block);
    BatchSplits(e.batch, block);
    SplitApplies(schema, e.before, e.batch, block);
    LowKeepsKey(schema, e.batch, block);
    AppliedStaysKeyed(schema, e.before, ChangesOf(low));
    var mid := MidTables(schema, e, block).value;
    if c :| c in high && Names(schema, c, id) {
      forall b | b in low ensures !Names(schema, b, id) {
        assert b in e.batch && c in e.batch;
      }
      UnnamedBlocksStay(schema, e.before, low, id);
      if !HasRecord(Above(e.records, block), id) {
        HighRowUnchanged(schema, e, after, finalBlock, block, id);
      }
    } else {
      UnnamedBlocksStay(schema, mid, high, id);
      HighRecordIsNamed(schema, e, block, id);
    }
  }

  lemma HighRecordIsNamed(schema: Schema, e: Epoch, block: nat, id: RowId)
    requires forall r :: r in e.records ==> HasSource(schema, e.batch, r)
    requires Ascending(e.batch) && forall c :: c in HighBlocks(e.batch, block) ==> !Names(schema, c, id)
    ensures !HasRecord(Above(e.records, block), id)
  {
    BatchSplits(e.batch, block);
    forall r | r in Above(e.records, block) ensures r.id != id {
      SidesOf(e.records, block, r);
      assert HasSource(schema, e.batch, r);
    }
  }

  lemma HighRowUnchanged(schema: Schema, e: Epoch, after: Tables, finalBlock: nat, block: nat, id: RowId)
    requires Story(schema, e, after, finalBlock) && Ascending(e.batch) && finalBlock <= block
    requires forall b :: b in LowBlocks(e.batch, block) ==> !Names(schema, b, id)
    requires !HasRecord(Above(e.records, block), id)
    ensures Lookup(e.before, id) == Lookup(after, id)
  {
    BatchSplits(e.batch, block);
    forall r | r in UpTo(e.records, block) ensures r.id != id {
      SidesOf(e.records, block, r);
      assert HasSource(schema, e.batch, r);
    }
    NoRecordBelow(e.records, block, id);
    assert NamedOnlyAbove(schema, e.batch, id, finalBlock);
    assert Unchanged(e.before, after, id);
  }

  /** Over every run: a revert is exact if no row is named on both sides of its block by the batch that straddles it. */
  lemma OneSidedRevertIsExact(
    schema: Schema, worlds: seq<World>, events: seq<Event>, i: nat, k: nat, order: seq<Record>, lastValid: nat,
    cursor: Cursor)
    requires ValidSchema(schema) && Run(schema, worlds, events) && CleanRun(worlds, events) && i < |worlds|
    requires worlds[i].finalBlock <= lastValid && QueryAnswer(worlds[i].db.history, lastValid, order)
    requires k < |worlds[i].epochs| && worlds[i].epochs[k].Straddles(lastValid)
    requires ApplyChanges(schema, worlds[i].epochs[k].before, ChangesOf(worlds[i].epochs[k].batch)) ==
             Ok(TablesAfter(worlds[i], k + 1))
    requires OneSided(schema, worlds[i].epochs[k].batch, lastValid)
    ensures RevertTransaction(worlds[i].db, order, lastValid, cursor).Ok?
    ensures Ok(RevertTransaction(worlds[i].db, order, lastValid, cursor).value.tables) ==
            MidTables(schema, worlds[i].epochs[k], lastValid)
  {
    var w, e := worlds[i], worlds[i].epochs[k];
    RunIsRecorded(schema, worlds, events, i);
    LandingInside(schema, w.epochs, w.db.tables, w.finalBlock, k, lastValid);
    SplitApplies(schema, e.before, e.batch, lastValid);
    var after, mid := TablesAfter(w, k + 1), MidTables(schema, e, lastValid).value;
    forall id ensures RowRight(e, after, mid, lastValid, id) {
      OneSidedRow(schema, e, after, w.finalBlock, lastValid, id);
    }
    StraddledRevertIsExactIff(schema, worlds, events, i, k, order, lastValid, cursor);
  }

  // ----- the condition on the pending operations -----

  /** With the row before the batch, at the block, and after the batch. */
  predicate OperationRight(op: Operation, before: Tables, mid: Tables, after: Tables, block: nat) {
    if op.reversible.Some? && op.reversible.value > block then Lookup(before, op.Id()) == Lookup(mid, op.Id())
    else Lookup(after, op.Id()) == Lookup(mid, op.Id())
  }

  lemma PendingRow(e: Epoch, ops: seq<Operation>, n: nat, after: Tables, mid: Tables, block: nat, op: Operation)
    requires WellKeyed(e.before) && DistinctRows(StepsOf(ops)) && (forall o :: o in ops ==> Keyed(o)) && op in ops
    requires ExecuteAll(e.before, ops) == Ok(after) && n > 0 && (n > 1 ==> ExecuteAll(after, ops).Ok?)
    requires e.records == SaveRepeated(e.before, ops, n)
    ensures RowRight(e, after, mid, block, op.Id()) <==> OperationRight(op, e.before, mid, after, block)
  {
    var id := op.Id();
    OperationSettles(e.before, ops, op);
    OperationReverts(e.before, op, after);
    OneBlockOnRow(e.before, ops, n, op);
    RepeatedOnRow(e.before, ops, n, op, after);
    OnRow(e.records, id);
    if r :| r in Above(e.records, block) && r.id == id {
      SidesOf(e.records, block, r);
    }
    if Save(e.before, op) != [] {
      var r := Save(e.before, op)[0];
      assert r in RecordsOn(e.records, id);
      SidesOf(e.records, block, r);
    }
  }

  lemma FlushedThenReverted(
    schema: Schema, w: World, batch: seq<Block>, ops: seq<Operation>, prune: nat, attempts: seq<Attempt>, next: World,
    order: seq<Record>, lastValid: nat, cursor: Cursor)
    requires ValidSchema(schema) && Recorded(schema, w) && Flushes(schema, w, batch, ops, prune, attempts, next)
    requires Repeatable(w, batch, ops, prune, attempts)
    requires prune <= lastValid && batch[0].number <= lastValid < batch[|batch| - 1].number
    requires QueryAnswer(next.db.history, lastValid, order)
    ensures var e := Top(next.epochs);
            && RevertTransaction(next.db, order, lastValid, cursor).Ok?
            && RevertTransaction(next.db, order, lastValid, cursor).value.tables ==
               Halfway(next.db.tables, e.records, lastValid)
            && e.batch == batch && e.before == w.db.tables && Story(schema, e, next.db.tables, prune)
            && WellKeyed(w.db.tables) && WellKeyed(next.db.tables)
  {
    FlushKeepsRecorded(schema, w, batch, ops, prune, attempts, next);
    RevertSucceeds(schema, next, order, lastValid, cursor);
    LandingInside(schema, next.epochs, next.db.tables, prune, |w.epochs|, lastValid);
  }

  /**
   A batch is flushed and a block inside it is reverted to. The revert leaves what the blocks up to there leave, one
   change at a time, exactly when each operation marked above the block found its row as it was at the block, and each
   other operation left its row as it was at the block.
   */
  lemma FlushedThenRevertedIff(
    schema: Schema, w: World, batch: seq<Block>, ops: seq<Operation>, prune: nat, attempts: seq<Attempt>, next: World,
    order: seq<Record>, lastValid: nat, cursor: Cursor)
    requires ValidSchema(schema) && Recorded(schema, w) && Flushes(schema, w, batch, ops, prune, attempts, next)
    requires Repeatable(w, batch, ops, prune, attempts)
    requires prune <= lastValid && batch[0].number <= lastValid < batch[|batch| - 1].number
    requires QueryAnswer(next.db.history, lastValid, order)
    requires ApplyChanges(schema, w.db.tables, ChangesOf(batch)) == Ok(next.db.tables)
    ensures RevertTransaction(next.db, order, lastValid, cursor).Ok?
    ensures var mid := ApplyChanges(schema, w.db.tables, ChangesOf(LowBlocks(batch, lastValid)));
            && mid.Ok?
            && (RevertTransaction(next.db, order, lastValid, cursor).value.tables == mid.value <==>
                forall op :: op in ops ==> OperationRight(op, w.db.tables, mid.value, next.db.tables, lastValid))
  {
    var e, after := Top(next.epochs), next.db.tables;
    FlushedThenReverted(schema, w, batch, ops, prune, attempts, next, order, lastValid, cursor);
    FlushLeaves(schema, w, batch, ops, prune, attempts, next);
    SplitApplies(schema, w.db.tables, batch, lastValid);
    var mid := MidTables(schema, e, lastValid).value;
    HalfwayIsExactIff(e, after, mid, lastValid);
    PendingRowsDecide(schema, e, after, mid, lastValid, ops, Times(w, batch, ops, prune, attempts));
  }

  lemma PendingRowsDecide(
    schema: Schema, e: Epoch, after: Tables, mid: Tables, block: nat, ops: seq<Operation>, n: nat)
    requires ValidSchema(schema) && WellKeyed(e.before) && Ascending(e.batch) && LoadedAs(schema, e.batch, ops)
    requires ExecuteAll(e.before, ops) == Ok(after) && n > 0 && (n > 1 ==> ExecuteAll(after, ops).Ok?)
    requires e.records == SaveRepeated(e.before, ops, n) && MidTables(schema, e, block) == Ok(mid)
    ensures AllRowsRight(e, after, mid, block) <==>
            forall op :: op in ops ==> OperationRight(op, e.before, mid, after, block)
  {
    LoadedIsKeyed(schema, e.batch, ops, e.before);
    forall op | op in ops
      ensures RowRight(e, after, mid, block, op.Id()) <==> OperationRight(op, e.before, mid, after, block)
    {
      PendingRow(e, ops, n, after, mid, block, op);
    }
    forall id ensures RowRight(e, after, mid, block, id) || Mentions(ops, id) {
      if !Mentions(ops, id) {
        OtherRowRight(schema, e, after, mid, block, ops, n, id);
      }
    }
  }

  lemma OtherRowRight(
    schema: Schema, e: Epoch, after: Tables, mid: Tables, block: nat, ops: seq<Operation>, n: nat, id: RowId)
    requires ValidSchema(schema) && WellKeyed(e.before) && Ascending(e.batch) && AllKeepKey(schema, e.batch)
    requires Marked(schema, e.batch, ops) && DistinctRows(StepsOf(ops)) && forall op :: op in ops ==> Keyed(op)
    requires ExecuteAll(e.before, ops) == Ok(after) && e.records == SaveRepeated(e.before, ops, n)
    requires MidTables(schema, e, block) == Ok(mid) && !Mentions(ops, id)
    ensures RowRight(e, after, mid, block, id)
  {
    forall r | r in e.records ensures r.id != id {
      RepeatedFromOps(e.before, ops, n, r);
    }
    NoRecordBelow(e.records, block, id);
    UnmentionedHasNone(e.before, ops, id);
    NoRecordNoChange(e.before, ops, id);
    BatchSplits(e.batch, block);
    LowKeepsKey(schema, e.batch, block);
    forall b | b in LowBlocks(e.batch, block) ensures !Names(schema, b, id) {
      assert b in e.batch;
    }
    UnnamedBlocksStay(schema, e.before, LowBlocks(e.batch, block), id);
  }

  // ----- what survives -----

  function ChangesThrough(epochs: seq<Epoch>): seq<Change>
    decreases |epochs|
  {
    if epochs == [] then [] else ChangesThrough(Under(epochs)) + ChangesOf(Top(epochs).batch)
  }

  /** Each batch took the tables where its changes, one at a time, take them. */
  ghost predicate Faithful(schema: Schema, start: Tables, epochs: seq<Epoch>, tables: Tables)
    decreases |epochs|
  {
    if epochs == [] then tables == start
    else
      && ApplyChanges(schema, Top(epochs).before, ChangesOf(Top(epochs).batch)) == Ok(tables)
      && Faithful(schema, start, Under(epochs), Top(epochs).before)
  }

  lemma {:induction false} FaithfulIsFold(schema: Schema, start: Tables, epochs: seq<Epoch>, tables: Tables)
    requires Faithful(schema, start, epochs, tables)
    ensures ApplyChanges(schema, start, ChangesThrough(epochs)) == Ok(tables)
    decreases |epochs|
  {
    if epochs != [] {
      FaithfulIsFold(schema, start, Under(epochs), Top(epochs).before);
      ApplyChangesAppend(schema, start, ChangesThrough(Under(epochs)), ChangesOf(Top(epochs).batch));
    }
  }

  /** If a batch straddles the block, the revert is exact for each of its rows. */
  ghost predicate CutsRight(schema: Schema, epochs: seq<Epoch>, tables: Tables, block: nat)
    decreases |epochs|
  {
    epochs != [] && Top(epochs).batch != [] ==>
      if block < Top(epochs).First() then CutsRight(schema, Under(epochs), Top(epochs).before, block)
      else Top(epochs).Straddles(block) ==>
        var mid := MidTables(schema, Top(epochs), block);
        mid.Ok? ==> AllRowsRight(Top(epochs), tables, mid.value, block)
  }

  /** That is so if no batch names a row on both sides of the block. */
  lemma {:induction false} OneSidedCutsRight(
    schema: Schema, start: Tables, epochs: seq<Epoch>, tables: Tables, finalBlock: nat, block: nat)
    requires ValidSchema(schema) && Chain(schema, epochs, tables, finalBlock) && finalBlock <= block
    requires Faithful(schema, start, epochs, tables)
    requires forall e :: e in epochs && e.Straddles(block) ==> OneSided(schema, e.batch, block)
    ensures CutsRight(schema, epochs, tables, block)
    decreases |epochs|
  {
    if epochs != [] {
      var top := Top(epochs);
      assert top in epochs && forall e :: e in Under(epochs) ==> e in epochs;
      if block < top.First() {
        OneSidedCutsRight(schema, start, Under(epochs), top.before, finalBlock, block);
      } else if top.Straddles(block) {
        SplitApplies(schema, top.before, top.batch, block);
        var mid := MidTables(schema, top, block).value;
        forall id ensures RowRight(top, tables, mid, block, id) {
          OneSidedRow(schema, top, tables, finalBlock, block, id);
        }
      }
    }
  }

  lemma {:induction false} LandingIsFaithful(
    schema: Schema, start: Tables, epochs: seq<Epoch>, tables: Tables, finalBlock: nat, block: nat)
    requires Chain(schema, epochs, tables, finalBlock) && Faithful(schema, start, epochs, tables)
    requires CutsRight(schema, epochs, tables, block)
    ensures Faithful(schema, start, KeptEpochs(epochs, block), LandingTables(epochs, tables, block))
    decreases |epochs|
  {
    if epochs != [] && block < Top(epochs).First() {
      LandingIsFaithful(schema, start, Under(epochs), Top(epochs).before, finalBlock, block);
    } else if epochs != [] && block < Top(epochs).Last() {
      var top, low := Top(epochs), LowPart(Top(epochs), block);
      SplitApplies(schema, top.before, top.batch, block);
      HalfwayIsExactIff(top, tables, MidTables(schema, top, block).value, block);
      assert Under(Under(epochs) + [low]) == Under(epochs) && Top(Under(epochs) + [low]) == low;
    }
  }

  /** The premises under which an event keeps the tables what single changes leave. */
  ghost predicate Regular(schema: Schema, w: World, e: Event) {
    match e
    case Flushed(batch, _, _, _) =>
      && ApplyChanges(schema, w.db.tables, ChangesOf(batch)).Ok?
      && UpsertsEndWhole(schema, w.db.tables, ChangesOf(batch))
    case Reverted(_, lastValid, _) => CutsRight(schema, w.epochs, w.db.tables, lastValid)
  }

  lemma StepIsFaithful(schema: Schema, start: Tables, w: World, e: Event, next: World)
    requires ValidSchema(schema) && Recorded(schema, w) && Follows(schema, w, e, next) && Regular(schema, w, e)
    requires Faithful(schema, start, w.epochs, w.db.tables)
    ensures Faithful(schema, start, next.epochs, next.db.tables)
  {
    match e
    case Flushed(batch, ops, prune, attempts) =>
      FlushLeaves(schema, w, batch, ops, prune, attempts, next);
      FlushEqualsOneAtATime(schema, w.db.tables, ChangesOf(batch), ops);
      assert Under(next.epochs) == w.epochs;
    case Reverted(order, lastValid, cursor) =>
      RevertSucceeds(schema, w, order, lastValid, cursor);
      LandingIsFaithful(schema, start, w.epochs, w.db.tables, w.finalBlock, lastValid);
  }

  lemma {:induction false} RunIsFaithful(schema: Schema, worlds: seq<World>, events: seq<Event>, i: nat)
    requires ValidSchema(schema) && Run(schema, worlds, events) && CleanRun(worlds, events) && i < |worlds|
    requires forall j :: 0 <= j < |events| ==> Regular(schema, worlds[j], events[j])
    ensures Faithful(schema, worlds[0].db.tables, worlds[i].epochs, worlds[i].db.tables)
  {
    if i > 0 {
      RunIsFaithful(schema, worlds, events, i - 1);
      RunIsRecorded(schema, worlds, events, i - 1);
      assert Follows(schema, worlds[i - 1], events[i - 1], worlds[i]);
      StepIsFaithful(schema, worlds[0].db.tables, worlds[i - 1], events[i - 1], worlds[i]);
    }
  }

  /**
   After any run of flushes and reverts the tables are those that the changes of the blocks not taken back leave when
   they are applied one at a time.
   */
  lemma TablesAreSurvivingChanges(schema: Schema, worlds: seq<World>, events: seq<Event>, i: nat)
    requires ValidSchema(schema) && Run(schema, worlds, events) && CleanRun(worlds, events) && i < |worlds|
    requires forall j :: 0 <= j < |events| ==> Regular(schema, worlds[j], events[j])
    ensures ApplyChanges(schema, worlds[0].db.tables, ChangesThrough(worlds[i].epochs)) == Ok(worlds[i].db.tables)
  {
    RunIsFaithful(schema, worlds, events, i);
    FaithfulIsFold(schema, worlds[0].db.tables, worlds[i].epochs, worlds[i].db.tables);
  }

  // ----- premises to look up in the blocks -----

  /** The changes of a flushed batch can be applied, and no batch names a row on both sides of a block reverted to. */
  ghost predicate Plain(schema: Schema, w: World, e: Event) {
    match e
    case Flushed(_, _, _, _) => Regular(schema, w, e)
    case Reverted(_, lastValid, _) =>
      forall q :: q in w.epochs && q.Straddles(lastValid) ==> OneSided(schema, q.batch, lastValid)
  }

  lemma PlainIsRegular(schema: Schema, start: Tables, w: World, e: Event, next: World)
    requires ValidSchema(schema) && Recorded(schema, w) && Follows(schema, w, e, next) && Plain(schema, w, e)
    requires Faithful(schema, start, w.epochs, w.db.tables)
    ensures Regular(schema, w, e)
  {
    match e
    case Flushed(_, _, _, _) =>
    case Reverted(_, lastValid, _) =>
      OneSidedCutsRight(schema, start, w.epochs, w.db.tables, w.finalBlock, lastValid);
  }

  lemma {:induction false} PlainRunIsRegular(schema: Schema, worlds: seq<World>, events: seq<Event>, i: nat)
    requires ValidSchema(schema) && Run(schema, worlds, events) && CleanRun(worlds, events) && i < |worlds|
    requires forall j :: 0 <= j < |events| ==> Plain(schema, worlds[j], events[j])
    ensures Faithful(schema, worlds[0].db.tables, worlds[i].epochs, worlds[i].db.tables)
    ensures forall j :: 0 <= j < i ==> Regular(schema, worlds[j], events[j])
  {
    if i > 0 {
      var w, next := worlds[i - 1], worlds[i];
      PlainRunIsRegular(schema, worlds, events, i - 1);
      RunIsRecorded(schema, worlds, events, i - 1);
      assert Follows(schema, w, events[i - 1], next);
      PlainIsRegular(schema, worlds[0].db.tables, w, events[i - 1], next);
      StepIsFaithful(schema, worlds[0].db.tables, w, events[i - 1], next);
    }
  }

  /** If no batch names a row on both sides of a block that is reverted to, the surviving changes are what is left. */
  lemma OneSidedRunKeepsSurvivingChanges(schema: Schema, worlds: seq<World>, events: seq<Event>, i: nat)
    requires ValidSchema(schema) && Run(schema, worlds, events) && CleanRun(worlds, events) && i < |worlds|
    requires forall j :: 0 <= j < |events| ==> Plain(schema, worlds[j], events[j])
    ensures ApplyChanges(schema, worlds[0].db.tables, ChangesThrough(worlds[i].epochs)) == Ok(worlds[i].db.tables)
  {
    PlainRunIsRegular(schema, worlds, events, |events|);
    TablesAreSurvivingChanges(schema, worlds, events, i);
  }
}
