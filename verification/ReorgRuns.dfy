/**
 Runs of flushes and reverts. A world keeps, beside the database, what each flushed batch found and wrote,
 so that "the state after the last flush at or below a block" can be spoken of.
 */
module ReorgRuns {
  import opened Prelude
  import opened Database
  import opened Coalescing
  import opened RowEffects
  import opened RetriedFlush
  import opened RepeatedFlush
  import opened UndoLog
  import opened UndoHistory
  import opened Blocks
  import opened PendingMarks

  /** One flushed batch: its blocks, the tables it found, the undo records it wrote. */
  datatype Epoch = Epoch(batch: seq<Block>, before: Tables, records: seq<Record>) {
    function First(): nat
      requires batch != []
    {
      batch[0].number
    }

    function Last(): nat
      requires batch != []
    {
      batch[|batch| - 1].number
    }

    /** Whether the batch has blocks on both sides: at or below the block, and above it. */
    predicate Straddles(block: nat) {
      batch != [] && First() <= block < Last()
    }
  }

  datatype World = World(db: Db, epochs: seq<Epoch>, finalBlock: nat)

  /** The tables after the first `k` batches, when those after all of them are `tables`. */
  function After(epochs: seq<Epoch>, tables: Tables, k: nat): Tables
    requires k <= |epochs|
  {
    if k == |epochs| then tables else epochs[k].before
  }

  function TablesAfter(w: World, k: nat): Tables
    requires k <= |w.epochs|
  {
    After(w.epochs, w.db.tables, k)
  }

  function Top(epochs: seq<Epoch>): Epoch
    requires epochs != []
  {
    epochs[|epochs| - 1]
  }

  function Under(epochs: seq<Epoch>): seq<Epoch>
    requires epochs != []
  {
    epochs[..|epochs| - 1]
  }

  function RecordsOf(epochs: seq<Epoch>): seq<Record>
    decreases |epochs|
  {
    if epochs == [] then [] else RecordsOf(Under(epochs)) + Top(epochs).records
  }

  // ----- invariant -----

  ghost predicate HasSource(schema: Schema, batch: seq<Block>, r: Record) {
    exists b :: b in batch && b.number == r.block && Names(schema, b, r.id)
  }

  ghost predicate NamedOnlyAbove(schema: Schema, batch: seq<Block>, id: RowId, block: nat) {
    forall b :: b in batch && Names(schema, b, id) ==> b.number > block
  }

  ghost predicate Unchanged(before: Tables, after: Tables, id: RowId) {
    Lookup(before, id) == Lookup(after, id)
  }

  /**
   What a batch wrote into the history: the records of a row take it back and bear the number of a block that names it.
   A row that only blocks above the final height name is as before if it has no record.
   */
  ghost predicate Story(schema: Schema, e: Epoch, after: Tables, finalBlock: nat) {
    && Undoes(e.before, e.records, after)
    && (forall r :: r in e.records ==> HasSource(schema, e.batch, r))
    && forall id :: !HasRecord(e.records, id) && NamedOnlyAbove(schema, e.batch, id, finalBlock) ==>
                      Unchanged(e.before, after, id)
  }

  ghost predicate AllBelow(epochs: seq<Epoch>, block: nat) {
    epochs != [] ==> Top(epochs).batch != [] && Top(epochs).Last() < block
  }

  /** The batches one after the other, in ascending blocks, each with its story. */
  ghost predicate Chain(schema: Schema, epochs: seq<Epoch>, tables: Tables, finalBlock: nat)
    decreases |epochs|
  {
    && WellKeyed(tables)
    && (epochs != [] ==>
          && Ascending(Top(epochs).batch) && AllKeepKey(schema, Top(epochs).batch)
          && Story(schema, Top(epochs), tables, finalBlock)
          && AllBelow(Under(epochs), Top(epochs).First())
          && Chain(schema, Under(epochs), Top(epochs).before, finalBlock))
  }

  /** The history holds exactly the records of the batches that are above the final height. */
  ghost predicate Recorded(schema: Schema, w: World) {
    && Chain(schema, w.epochs, w.db.tables, w.finalBlock)
    && w.db.history == Above(RecordsOf(w.epochs), w.finalBlock)
    && w.db.cursor.Some?
  }

  // ----- steps -----

  /** How often the attempts apply a batch. */
  function Times(w: World, batch: seq<Block>, ops: seq<Operation>, prune: nat, attempts: seq<Attempt>): nat
    requires batch != []
  {
    TimesApplied(w.db, ops, At(batch[|batch| - 1].number), prune, attempts)
  }

  /**
   A batch is loaded into an empty buffer and its flush is tried until it commits or the sink gives up; one of the
   attempts at least is applied, acknowledged or not. Records at or below `prune` are dropped.
   */
  ghost predicate Flushes(schema: Schema, w: World, batch: seq<Block>, ops: seq<Operation>, prune: nat,
                          attempts: seq<Attempt>, next: World)
  {
    && Ascending(batch) && AllBelow(w.epochs, batch[0].number)
    && (forall b :: b in batch ==> b.finalBlock <= prune)
    && w.finalBlock <= prune
    && LoadedAs(schema, batch, ops)
    && 0 < Times(w, batch, ops, prune, attempts)
    && next.db == TryFlush(w.db, ops, At(batch[|batch| - 1].number), prune, attempts).db
    && next.epochs ==
       w.epochs + [Epoch(batch, w.db.tables, SaveRepeated(w.db.tables, ops, Times(w, batch, ops, prune, attempts)))]
    && next.finalBlock == prune
  }

  /** The batch is applied once, or writes nothing new to stored rows. */
  predicate Repeatable(w: World, batch: seq<Block>, ops: seq<Operation>, prune: nat, attempts: seq<Attempt>)
    requires batch != []
  {
    Times(w, batch, ops, prune, attempts) <= 1 || forall op :: op in ops ==> WritesNothingNew(op, w.db.tables)
  }

  /** For a single batch above the block that is reverted to, the condition is exact. */
  lemma RepeatableIff(
    w: World, batch: seq<Block>, ops: seq<Operation>, prune: nat, attempts: seq<Attempt>, lastValid: nat, undo: Cursor)
    requires WellKeyed(w.db.tables) && DistinctRows(StepsOf(ops)) && w.db.cursor.Some? && batch != []
    requires forall op :: op in ops ==> Keyed(op) && op.reversible.Some? && op.reversible.value > lastValid
    requires prune <= lastValid && forall r :: r in w.db.history ==> r.block <= lastValid
    requires ExecuteAll(w.db.tables, ops).Ok?
    ensures var flushed := TryFlush(w.db, ops, At(batch[|batch| - 1].number), prune, attempts).db;
            EveryAnswerRevertsTo(flushed, lastValid, undo, w.db.tables) <==> Repeatable(w, batch, ops, prune, attempts)
  {
    RetriedRevertIff(w.db, ops, At(batch[|batch| - 1].number), prune, attempts, lastValid, undo);
  }

  /** The part of a batch at or below a block, as a revert to that block leaves it. */
  function LowPart(e: Epoch, block: nat): Epoch {
    Epoch(LowBlocks(e.batch, block), e.before, UpTo(e.records, block))
  }

  /** The batches that a revert to a block leaves; one that lies on both sides of it is cut there. */
  function KeptEpochs(epochs: seq<Epoch>, block: nat): seq<Epoch>
    decreases |epochs|
  {
    if epochs == [] || Top(epochs).batch == [] then epochs
    else if block < Top(epochs).First() then KeptEpochs(Under(epochs), block)
    else if Top(epochs).Last() <= block then epochs
    else Under(epochs) + [LowPart(Top(epochs), block)]
  }

  /** The tables that a revert to a block leaves. */
  function LandingTables(epochs: seq<Epoch>, tables: Tables, block: nat): Tables
    decreases |epochs|
  {
    if epochs == [] || Top(epochs).batch == [] then tables
    else if block < Top(epochs).First() then LandingTables(Under(epochs), Top(epochs).before, block)
    else if Top(epochs).Last() <= block then tables
    else Halfway(tables, Top(epochs).records, block)
  }

  /** Any revert to a block that is not below the pruned height, whether or not a batch straddles the block. */
  ghost predicate Reverts(w: World, order: seq<Record>, lastValid: nat, cursor: Cursor, next: World) {
    && w.finalBlock <= lastValid
    && QueryAnswer(w.db.history, lastValid, order)
    && RevertTransaction(w.db, order, lastValid, cursor) == Ok(next.db)
    && next.epochs == KeptEpochs(w.epochs, lastValid)
    && next.finalBlock == w.finalBlock
  }

  // ----- records and blocks -----

  lemma RecordsInBatch(schema: Schema, e: Epoch, after: Tables, finalBlock: nat)
    requires Story(schema, e, after, finalBlock) && Ascending(e.batch)
    ensures forall r :: r in e.records ==> e.First() <= r.block <= e.Last()
  {
    forall r | r in e.records ensures e.First() <= r.block <= e.Last() {
      assert HasSource(schema, e.batch, r);
      var b :| b in e.batch && b.number == r.block && Names(schema, b, r.id);
      var i :| 0 <= i < |e.batch| && e.batch[i] == b;
    }
  }

  lemma {:induction false} RecordsLow(schema: Schema, epochs: seq<Epoch>, tables: Tables, finalBlock: nat, block: nat)
    requires Chain(schema, epochs, tables, finalBlock) && (epochs != [] ==> Top(epochs).Last() <= block)
    ensures forall r :: r in RecordsOf(epochs) ==> r.block <= block
    decreases |epochs|
  {
    if epochs != [] {
      RecordsInBatch(schema, Top(epochs), tables, finalBlock);
      RecordsLow(schema, Under(epochs), Top(epochs).before, finalBlock, block);
    }
  }

  /** The records of the batches below the top one are below its first block. */
  lemma UnderIsLow(schema: Schema, epochs: seq<Epoch>, tables: Tables, finalBlock: nat)
    requires Chain(schema, epochs, tables, finalBlock) && epochs != []
    ensures forall r :: r in RecordsOf(Under(epochs)) ==> r.block < Top(epochs).First()
  {
    if Under(epochs) != [] {
      RecordsLow(schema, Under(epochs), Top(epochs).before, finalBlock, Top(Under(epochs)).Last());
    }
  }

  lemma {:induction false} ChainRises(schema: Schema, epochs: seq<Epoch>, tables: Tables, low: nat, high: nat)
    requires Chain(schema, epochs, tables, low) && low <= high
    ensures Chain(schema, epochs, tables, high)
    decreases |epochs|
  {
    if epochs != [] {
      ChainRises(schema, Under(epochs), Top(epochs).before, low, high);
      StoryRises(schema, Top(epochs), tables, low, high);
    }
  }

  lemma StoryRises(schema: Schema, e: Epoch, after: Tables, low: nat, high: nat)
    requires Story(schema, e, after, low) && low <= high
    ensures Story(schema, e, after, high)
  {
    forall id | !HasRecord(e.records, id) && NamedOnlyAbove(schema, e.batch, id, high)
      ensures Unchanged(e.before, after, id)
    {
      assert NamedOnlyAbove(schema, e.batch, id, low);
    }
  }

  // ----- reverting -----

  /** Taking back the records of the top batch first leaves the rest of the answer for the tables before it. */
  lemma RevertTop(top: Epoch, tables: Tables, order: seq<Record>, n: nat)
    requires n <= |order| && Restores(top.before, top.records, tables) && WellKeyed(tables)
    requires multiset(order[..n]) == multiset(top.records)
    ensures RevertRecords(tables, order) == RevertRecords(top.before, order[n..])
  {
    RevertAnyOrder(top.before, top.records, tables, order[..n]);
    RevertRecordsAppend(tables, order[..n], top.before, order[n..]);
    assert order == order[..n] + order[n..];
  }

  /** A batch above the final height can be taken back whole. */
  lemma HighStoryRestores(schema: Schema, e: Epoch, after: Tables, finalBlock: nat)
    requires Story(schema, e, after, finalBlock) && Ascending(e.batch) && e.First() > finalBlock
    ensures Restores(e.before, e.records, after)
  {
    forall id | !HasRecord(e.records, id) ensures Lookup(e.before, id) == Lookup(after, id) {
      forall b | b in e.batch ensures b.number > finalBlock {
        var i :| 0 <= i < |e.batch| && e.batch[i] == b;
      }
      assert NamedOnlyAbove(schema, e.batch, id, finalBlock) && Unchanged(e.before, after, id);
    }
  }

  lemma TopAbove(schema: Schema, epochs: seq<Epoch>, tables: Tables, finalBlock: nat, block: nat)
    requires Chain(schema, epochs, tables, finalBlock) && epochs != [] && block < Top(epochs).First()
    ensures Above(RecordsOf(epochs), block) == Above(RecordsOf(Under(epochs)), block) + Top(epochs).records
    ensures UpTo(RecordsOf(epochs), block) == UpTo(RecordsOf(Under(epochs)), block)
  {
    RecordsInBatch(schema, Top(epochs), tables, finalBlock);
    AboveAppend(RecordsOf(Under(epochs)), Top(epochs).records, block);
    AboveAll(Top(epochs).records, block);
    assert UpTo(RecordsOf(Under(epochs)), block) + [] == UpTo(RecordsOf(Under(epochs)), block);
  }

  lemma TopStraddles(schema: Schema, epochs: seq<Epoch>, tables: Tables, finalBlock: nat, block: nat)
    requires Chain(schema, epochs, tables, finalBlock) && epochs != [] && Top(epochs).First() <= block
    ensures Above(RecordsOf(epochs), block) == Above(Top(epochs).records, block)
    ensures UpTo(RecordsOf(epochs), block) == RecordsOf(Under(epochs)) + UpTo(Top(epochs).records, block)
  {
    UnderIsLow(schema, epochs, tables, finalBlock);
    AboveAppend(RecordsOf(Under(epochs)), Top(epochs).records, block);
    AboveAll(RecordsOf(Under(epochs)), block);
    assert [] + Above(Top(epochs).records, block) == Above(Top(epochs).records, block);
  }

  /** The top batch's records come first in the query's answer and are exactly its leading part. */
  lemma TopLeads(schema: Schema, epochs: seq<Epoch>, tables: Tables, finalBlock: nat, order: seq<Record>, block: nat)
    requires Chain(schema, epochs, tables, finalBlock) && epochs != [] && block < Top(epochs).First()
    requires Descending(order) && multiset(order) == multiset(Above(RecordsOf(epochs), block))
    ensures var n := Leading(order, Top(epochs).First());
            && multiset(order[..n]) == multiset(Top(epochs).records)
            && multiset(order[n..]) == multiset(Above(RecordsOf(Under(epochs)), block))
            && Descending(order[n..])
  {
    var first := Top(epochs).First();
    var rest := Above(RecordsOf(Under(epochs)), block);
    TopAbove(schema, epochs, tables, finalBlock, block);
    RecordsInBatch(schema, Top(epochs), tables, finalBlock);
    UnderIsLow(schema, epochs, tables, finalBlock);
    forall r | r in rest ensures r.block < first {
      SidesOf(RecordsOf(Under(epochs)), block, r);
    }
    TailIsLow(order, first);
    SplitPiles(order, Leading(order, first), [], Top(epochs).records, rest, first);
  }

  lemma NothingToDo(order: seq<Record>)
    requires multiset(order) == multiset([])
    ensures order == []
  {
    assert |multiset(order)| == |order|;
  }

  /** Batch by batch from the top, whatever answer the query gives, the revert lands. */
  lemma {:induction false} RevertLands(
    schema: Schema, epochs: seq<Epoch>, tables: Tables, finalBlock: nat, order: seq<Record>, block: nat)
    requires Chain(schema, epochs, tables, finalBlock) && finalBlock <= block
    requires Descending(order) && multiset(order) == multiset(Above(RecordsOf(epochs), block))
    ensures RevertRecords(tables, order) == Ok(LandingTables(epochs, tables, block))
    decreases |epochs|
  {
    if epochs == [] {
      NothingToDo(order);
    } else if block < Top(epochs).First() {
      var n := Leading(order, Top(epochs).First());
      TopLeads(schema, epochs, tables, finalBlock, order, block);
      HighStoryRestores(schema, Top(epochs), tables, finalBlock);
      RevertTop(Top(epochs), tables, order, n);
      RevertLands(schema, Under(epochs), Top(epochs).before, finalBlock, order[n..], block);
    } else if Top(epochs).Last() <= block {
      RecordsLow(schema, epochs, tables, finalBlock, block);
      AboveAll(RecordsOf(epochs), block);
      NothingToDo(order);
    } else {
      var top := Top(epochs);
      TopStraddles(schema, epochs, tables, finalBlock, block);
      HalfwayRestores(top.before, top.records, tables, block);
      RevertAnyOrder(Halfway(tables, top.records, block), Above(top.records, block), tables, order);
    }
  }

  lemma {:induction false} KeptHistory(schema: Schema, epochs: seq<Epoch>, tables: Tables, finalBlock: nat, block: nat)
    requires Chain(schema, epochs, tables, finalBlock)
    ensures UpTo(RecordsOf(epochs), block) == RecordsOf(KeptEpochs(epochs, block))
    decreases |epochs|
  {
    if epochs != [] {
      if block < Top(epochs).First() {
        TopAbove(schema, epochs, tables, finalBlock, block);
        KeptHistory(schema, Under(epochs), Top(epochs).before, finalBlock, block);
      } else if Top(epochs).Last() <= block {
        RecordsLow(schema, epochs, tables, finalBlock, block);
        AboveAll(RecordsOf(epochs), block);
      } else {
        TopStraddles(schema, epochs, tables, finalBlock, block);
        assert Under(Under(epochs) + [LowPart(Top(epochs), block)]) == Under(epochs);
      }
    }
  }

  /** The part of a batch below a block has its own story, which leads to halfway. */
  lemma LowStory(schema: Schema, e: Epoch, after: Tables, finalBlock: nat, block: nat)
    requires Story(schema, e, after, finalBlock) && Ascending(e.batch) && WellKeyed(after) && finalBlock <= block
    ensures Story(schema, LowPart(e, block), Halfway(after, e.records, block), finalBlock)
  {
    var low, half := LowPart(e, block), Halfway(after, e.records, block);
    BatchSplits(e.batch, block);
    HalfwayUndoes(e.before, e.records, after, block);
    forall r | r in low.records ensures HasSource(schema, low.batch, r) {
      SidesOf(e.records, block, r);
      assert HasSource(schema, e.batch, r);
    }
    forall id | !HasRecord(low.records, id) && NamedOnlyAbove(schema, low.batch, id, finalBlock)
      ensures Unchanged(e.before, half, id)
    {
      HalfwayRows(e.before, e.records, after, block, id);
      NoRecordBelow(e.records, block, id);
      if !HasRecord(e.records, id) {
        assert NamedOnlyAbove(schema, e.batch, id, finalBlock);
        assert Unchanged(e.before, after, id);
      }
    }
  }

  lemma NoRecordBelow(records: seq<Record>, block: nat, id: RowId)
    ensures HasRecord(records, id) <==> HasRecord(Above(records, block), id) || HasRecord(UpTo(records, block), id)
  {
    forall r ensures r in records <==> r in Above(records, block) || r in UpTo(records, block) {
      SidesOf(records, block, r);
    }
  }

  lemma LowKeepsKey(schema: Schema, batch: seq<Block>, block: nat)
    requires Ascending(batch) && AllKeepKey(schema, batch)
    ensures AllKeepKey(schema, LowBlocks(batch, block)) && AllKeepKey(schema, HighBlocks(batch, block))
  {
    BatchSplits(batch, block);
  }

  /** What a revert leaves is a chain again. */
  lemma {:induction false} LandingIsChain(
    schema: Schema, epochs: seq<Epoch>, tables: Tables, finalBlock: nat, block: nat)
    requires Chain(schema, epochs, tables, finalBlock) && finalBlock <= block
    ensures Chain(schema, KeptEpochs(epochs, block), LandingTables(epochs, tables, block), finalBlock)
    decreases |epochs|
  {
    if epochs != [] && block < Top(epochs).First() {
      LandingIsChain(schema, Under(epochs), Top(epochs).before, finalBlock, block);
    } else if epochs != [] && block < Top(epochs).Last() {
      var top, low := Top(epochs), LowPart(Top(epochs), block);
      HalfwayIsReached(top.before, top.records, tables, block);
      LowStory(schema, top, tables, finalBlock, block);
      LowKeepsKey(schema, top.batch, block);
      var kept := Under(epochs) + [low];
      assert Under(kept) == Under(epochs) && Top(kept) == low;
      assert low.batch[0] == top.batch[0];
    }
  }

  lemma AnswerMatches(epochs: seq<Epoch>, finalBlock: nat, history: seq<Record>, order: seq<Record>, block: nat)
    requires history == Above(RecordsOf(epochs), finalBlock) && finalBlock <= block
    requires QueryAnswer(history, block, order)
    ensures Descending(order) && multiset(order) == multiset(Above(RecordsOf(epochs), block))
  {
    AboveAbove(RecordsOf(epochs), finalBlock, block);
  }

  /** Every revert of a recorded world lands. */
  lemma RevertSucceeds(schema: Schema, w: World, order: seq<Record>, lastValid: nat, cursor: Cursor)
    requires Recorded(schema, w) && w.finalBlock <= lastValid && QueryAnswer(w.db.history, lastValid, order)
    ensures RevertTransaction(w.db, order, lastValid, cursor).Ok?
    ensures RevertTransaction(w.db, order, lastValid, cursor).value.tables ==
            LandingTables(w.epochs, w.db.tables, lastValid)
  {
    AnswerMatches(w.epochs, w.finalBlock, w.db.history, order, lastValid);
    RevertLands(schema, w.epochs, w.db.tables, w.finalBlock, order, lastValid);
  }

  lemma RevertKeepsRecorded(
    schema: Schema, w: World, order: seq<Record>, lastValid: nat, cursor: Cursor, next: World)
    requires Recorded(schema, w) && Reverts(w, order, lastValid, cursor, next)
    ensures Recorded(schema, next)
  {
    RevertSucceeds(schema, w, order, lastValid, cursor);
    AboveAbove(RecordsOf(w.epochs), w.finalBlock, lastValid);
    KeptHistory(schema, w.epochs, w.db.tables, w.finalBlock, lastValid);
    LandingIsChain(schema, w.epochs, w.db.tables, w.finalBlock, lastValid);
  }

  // ----- flushing -----

  /** What a flushed batch writes is its story. */
  lemma FlushTellsStory(schema: Schema, tables: Tables, batch: seq<Block>, ops: seq<Operation>, prune: nat, n: nat)
    requires ValidSchema(schema) && WellKeyed(tables) && LoadedAs(schema, batch, ops)
    requires ExecuteAll(tables, ops).Ok? && forall b :: b in batch ==> b.finalBlock <= prune
    requires n > 0 && (n > 1 ==> ExecuteAll(ExecuteAll(tables, ops).value, ops).Ok?)
    requires n == 1 || forall op :: op in ops ==> WritesNothingNew(op, tables)
    ensures Story(schema, Epoch(batch, tables, SaveRepeated(tables, ops, n)), ExecuteAll(tables, ops).value, prune)
    ensures WellKeyed(ExecuteAll(tables, ops).value)
  {
    var records, after := SaveRepeated(tables, ops, n), ExecuteAll(tables, ops).value;
    LoadedIsKeyed(schema, batch, ops, tables);
    ExecuteAllIsSteps(tables, ops);
    RepeatedUndoes(tables, ops, n, after);
    forall r | r in records ensures HasSource(schema, batch, r) {
      RecordHasSource(schema, tables, batch, ops, n, r);
    }
    forall id | !HasRecord(records, id) && NamedOnlyAbove(schema, batch, id, prune)
      ensures Unchanged(tables, after, id)
    {
      NamedAboveIsReversible(schema, batch, ops, prune, id);
      NoRepeatedRecord(tables, ops, n, id);
      NoRecordNoChange(tables, ops, id);
    }
  }

  lemma RecordHasSource(
    schema: Schema, tables: Tables, batch: seq<Block>, ops: seq<Operation>, n: nat, r: Record)
    requires Marked(schema, batch, ops) && r in SaveRepeated(tables, ops, n)
    ensures HasSource(schema, batch, r)
  {
    RepeatedFromOps(tables, ops, n, r);
    var op :| op in ops && op.Id() == r.id && op.reversible == Some(r.block);
    var b :| b in batch && Names(schema, b, op.Id()) && op.reversible == Mark(b);
  }

  lemma NamedAboveIsReversible(schema: Schema, batch: seq<Block>, ops: seq<Operation>, prune: nat, id: RowId)
    requires Marked(schema, batch, ops) && NamedOnlyAbove(schema, batch, id, prune)
    requires forall b :: b in batch ==> b.finalBlock <= prune
    ensures forall op :: op in ops && op.Id() == id ==> op.reversible.Some?
  {
    forall op | op in ops && op.Id() == id ensures op.reversible.Some? {
      var b :| b in batch && Names(schema, b, op.Id()) && op.reversible == Mark(b);
    }
  }

  lemma HistoryGrows(epochs: seq<Epoch>, e: Epoch, low: nat, high: nat)
    requires low <= high
    ensures Above(Above(RecordsOf(epochs), low) + e.records, high) == Above(RecordsOf(epochs + [e]), high)
  {
    assert Under(epochs + [e]) == epochs;
    AboveAppend(Above(RecordsOf(epochs), low), e.records, high);
    AboveAppend(RecordsOf(epochs), e.records, high);
    AboveAbove(RecordsOf(epochs), low, high);
  }

  /** What the attempts leave of the tables and of the history. */
  lemma FlushLeaves(schema: Schema, w: World, batch: seq<Block>, ops: seq<Operation>, prune: nat,
                    attempts: seq<Attempt>, next: World)
    requires ValidSchema(schema) && WellKeyed(w.db.tables)
    requires Flushes(schema, w, batch, ops, prune, attempts, next)
    ensures var n := Times(w, batch, ops, prune, attempts);
            && ExecuteAll(w.db.tables, ops) == Ok(next.db.tables)
            && (n > 1 ==> ExecuteAll(next.db.tables, ops).Ok?)
            && next.db.history == Above(w.db.history + SaveRepeated(w.db.tables, ops, n), prune)
            && next.db.cursor.Some?
  {
    var cursor := At(batch[|batch| - 1].number);
    AppliedExecutes(w.db, ops, cursor, prune, attempts);
    LoadedIsKeyed(schema, batch, ops, w.db.tables);
    var after := ExecuteAll(w.db.tables, ops).value;
    ReplayIsHarmless(w.db.tables, ops, after);
    AppliedTimes(w.db, ops, cursor, prune, attempts, after);
  }

  /** A flush with its pruning leaves a recorded world. */
  lemma FlushKeepsRecorded(schema: Schema, w: World, batch: seq<Block>, ops: seq<Operation>, prune: nat,
                           attempts: seq<Attempt>, next: World)
    requires ValidSchema(schema) && Recorded(schema, w) && Flushes(schema, w, batch, ops, prune, attempts, next)
    requires Repeatable(w, batch, ops, prune, attempts)
    ensures Recorded(schema, next)
  {
    var n := Times(w, batch, ops, prune, attempts);
    FlushLeaves(schema, w, batch, ops, prune, attempts, next);
    FlushTellsStory(schema, w.db.tables, batch, ops, prune, n);
    ChainGrows(schema, w, Epoch(batch, w.db.tables, SaveRepeated(w.db.tables, ops, n)), prune, next);
  }

  lemma ChainGrows(schema: Schema, w: World, e: Epoch, prune: nat, next: World)
    requires Recorded(schema, w) && e.before == w.db.tables && Story(schema, e, next.db.tables, prune)
    requires Ascending(e.batch) && AllKeepKey(schema, e.batch) && AllBelow(w.epochs, e.batch[0].number)
    requires w.finalBlock <= prune == next.finalBlock && next.epochs == w.epochs + [e] && next.db.cursor.Some?
    requires WellKeyed(next.db.tables) && next.db.history == Above(w.db.history + e.records, prune)
    ensures Recorded(schema, next)
  {
    ChainRises(schema, w.epochs, w.db.tables, w.finalBlock, prune);
    HistoryGrows(w.epochs, e, w.finalBlock, prune);
    assert Under(next.epochs) == w.epochs && Top(next.epochs) == e;
  }

  // ----- whole runs -----

  datatype Event =
    | Flushed(batch: seq<Block>, ops: seq<Operation>, prune: nat, attempts: seq<Attempt>)
    | Reverted(order: seq<Record>, lastValid: nat, cursor: Cursor)

  ghost predicate Follows(schema: Schema, w: World, e: Event, next: World) {
    match e
    case Flushed(batch, ops, prune, attempts) => Flushes(schema, w, batch, ops, prune, attempts, next)
    case Reverted(order, lastValid, cursor) => Reverts(w, order, lastValid, cursor, next)
  }

  /** A run starts from any tables with an empty history and an inserted cursor. */
  ghost predicate Run(schema: Schema, worlds: seq<World>, events: seq<Event>) {
    && |worlds| == |events| + 1
    && WellKeyed(worlds[0].db.tables) && worlds[0].db.history == [] && worlds[0].db.cursor.Some?
    && worlds[0].epochs == []
    && forall i :: 0 <= i < |events| ==> Follows(schema, worlds[i], events[i], worlds[i + 1])
  }

  /** No flush of the event is applied again with something new for a stored row. */
  ghost predicate Clean(w: World, e: Event) {
    match e
    case Flushed(batch, ops, prune, attempts) => batch != [] ==> Repeatable(w, batch, ops, prune, attempts)
    case Reverted(_, _, _) => true
  }

  /** No flush of the run is. */
  ghost predicate CleanRun(worlds: seq<World>, events: seq<Event>) {
    |worlds| == |events| + 1 && forall i :: 0 <= i < |events| ==> Clean(worlds[i], events[i])
  }

  /** A flush of which an attempt is applied is an event of a run. */
  lemma FlushIsEvent(
    schema: Schema, w: World, batch: seq<Block>, ops: seq<Operation>, prune: nat, attempts: seq<Attempt>)
    requires Ascending(batch) && AllBelow(w.epochs, batch[0].number) && LoadedAs(schema, batch, ops)
    requires w.finalBlock <= prune && forall b :: b in batch ==> b.finalBlock <= prune
    requires TimesApplied(w.db, ops, At(batch[|batch| - 1].number), prune, attempts) > 0
    ensures var cursor := At(batch[|batch| - 1].number);
            var n := TimesApplied(w.db, ops, cursor, prune, attempts);
            var e := Epoch(batch, w.db.tables, SaveRepeated(w.db.tables, ops, n));
            && Follows(schema, w, Flushed(batch, ops, prune, attempts),
                       World(TryFlush(w.db, ops, cursor, prune, attempts).db, w.epochs + [e], prune))
            && (n == 1 ==> Clean(w, Flushed(batch, ops, prune, attempts)))
  {
  }

  /** A revert that is not below the final height is an event of a run, and always a clean one. */
  lemma RevertIsEvent(schema: Schema, w: World, order: seq<Record>, lastValid: nat, cursor: Cursor, db: Db)
    requires w.finalBlock <= lastValid && QueryAnswer(w.db.history, lastValid, order)
    requires RevertTransaction(w.db, order, lastValid, cursor) == Ok(db)
    ensures Follows(schema, w, Reverted(order, lastValid, cursor),
                    World(db, KeptEpochs(w.epochs, lastValid), w.finalBlock))
    ensures Clean(w, Reverted(order, lastValid, cursor))
  {
  }

  lemma StepKeepsRecorded(schema: Schema, w: World, e: Event, next: World)
    requires ValidSchema(schema) && Recorded(schema, w) && Follows(schema, w, e, next) && Clean(w, e)
    ensures Recorded(schema, next)
  {
    match e
    case Flushed(batch, ops, prune, attempts) => FlushKeepsRecorded(schema, w, batch, ops, prune, attempts, next);
    case Reverted(order, lastValid, cursor) => RevertKeepsRecorded(schema, w, order, lastValid, cursor, next);
  }

  lemma StartIsRecorded(schema: Schema, w: World)
    requires WellKeyed(w.db.tables) && w.db.history == [] && w.db.cursor.Some? && w.epochs == []
    ensures Recorded(schema, w)
  {
  }

  /** Every world of every such run is recorded. */
  lemma {:induction false} RunIsRecorded(schema: Schema, worlds: seq<World>, events: seq<Event>, i: nat)
    requires ValidSchema(schema) && Run(schema, worlds, events) && CleanRun(worlds, events) && i < |worlds|
    ensures Recorded(schema, worlds[i])
  {
    if i == 0 {
      StartIsRecorded(schema, worlds[0]);
    } else {
      RunIsRecorded(schema, worlds, events, i - 1);
      StepKeepsRecorded(schema, worlds[i - 1], events[i - 1], worlds[i]);
    }
  }
}
