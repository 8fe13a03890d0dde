/**
 An undo signal that arrives while changes are pending: the loader keeps them, and the sink writes the cursor of the
 last valid block although blocks at or below it may be among the pending ones.
 */
module PendingUndo {
  import opened Prelude
  import opened Database
  import opened Coalescing
  import opened RowEffects
  import opened FlushRefinement
  import opened UpsertMerging
  import opened RetriedFlush
  import opened RepeatedFlush
  import opened UndoLog
  import opened UndoHistory
  import opened Blocks
  import opened PendingMarks
  import opened ReorgRuns
  import opened ReorgLimits
  import opened ExactlyOnce

  // ----- the flush after the undo -----

  /** The operation leaves the row as it is stored. */
  predicate LeavesRow(op: Operation, tables: Tables) {
    match op.opType
    case Insert => false
    case Upsert => op.Id() in tables && Written(tables[op.Id()], op.data)
    case Update => op.Id() in tables ==> Written(tables[op.Id()], op.data)
    case Delete => op.Id() !in tables
  }

  lemma LeavesRowIff(op: Operation, tables: Tables)
    requires Keyed(op)
    ensures Leads(op, tables, tables) <==> LeavesRow(op, tables)
  {
    if op.Id() in tables {
      WrittenIff(tables[op.Id()], op.data);
    }
  }

  /** A flush changes nothing exactly when each of its operations leaves its row. */
  lemma FlushLeavesTablesIff(tables: Tables, ops: seq<Operation>, pending: map<Slot, Operation>)
    requires WellKeyed(tables) && Lists(ops, pending) && forall s :: s in pending ==> Keyed(pending[s])
    ensures ExecuteAll(tables, ops) == Ok(tables) <==> forall op :: op in ops ==> LeavesRow(op, tables)
  {
    ListingIsDistinct(ops, pending);
    forall op | op in ops ensures Keyed(op) && (Leads(op, tables, tables) <==> LeavesRow(op, tables)) {
      LeavesRowIff(op, tables);
    }
    ExecuteAllLeadsIff(tables, ops, tables);
  }

  /** The flush commits and leaves these tables. */
  predicate FlushReaches(db: Db, ops: seq<Operation>, cursor: Cursor, finalBlock: nat, target: Tables) {
    match FlushTransaction(db, ops, cursor, finalBlock)
    case Ok(next) => next.tables == target
    case Err(_) => false
  }

  lemma FlushReachesIff(db: Db, ops: seq<Operation>, cursor: Cursor, finalBlock: nat, target: Tables)
    requires db.cursor.Some?
    ensures FlushReaches(db, ops, cursor, finalBlock, target) <==> ExecuteAll(db.tables, ops) == Ok(target)
  {
  }

  /**
   What is pending when an undo arrives is not cleared. The next flush succeeds and leaves what the undo left exactly
   when each pending operation leaves its row as the undo left it.
   */
  lemma PendingIsHarmlessIff(
    schema: Schema, w: World, pending: map<Slot, Operation>, ops: seq<Operation>, order: seq<Record>, lastValid: nat,
    cursor: Cursor, later: Cursor, finalBlock: nat)
    requires Recorded(schema, w) && w.finalBlock <= lastValid && QueryAnswer(w.db.history, lastValid, order)
    requires Lists(ops, pending) && forall s :: s in pending ==> Keyed(pending[s])
    ensures RevertTransaction(w.db, order, lastValid, cursor).Ok?
    ensures var reverted := RevertTransaction(w.db, order, lastValid, cursor).value;
            FlushReaches(reverted, ops, later, finalBlock, reverted.tables) <==>
            forall op :: op in ops ==> LeavesRow(op, reverted.tables)
  {
    RevertStaysKeyed(schema, w, order, lastValid, cursor);
    FlushReachesSameIff(RevertTransaction(w.db, order, lastValid, cursor).value, pending, ops, later, finalBlock);
  }

  lemma FlushReachesSameIff(
    db: Db, pending: map<Slot, Operation>, ops: seq<Operation>, cursor: Cursor, finalBlock: nat)
    requires WellKeyed(db.tables) && db.cursor.Some?
    requires Lists(ops, pending) && forall s :: s in pending ==> Keyed(pending[s])
    ensures FlushReaches(db, ops, cursor, finalBlock, db.tables) <==>
            forall op :: op in ops ==> LeavesRow(op, db.tables)
  {
    FlushLeavesTablesIff(db.tables, ops, pending);
    FlushReachesIff(db, ops, cursor, finalBlock, db.tables);
  }

  /** What is left of a pending batch by an undo to a block: on the given tables, its blocks at or below that block. */
  function Survivors(schema: Schema, tables: Tables, batch: seq<Block>, lastValid: nat): Result<Tables> {
    ApplyChanges(schema, tables, ChangesOf(LowBlocks(batch, lastValid)))
  }

  /** A flush of a loaded batch leaves what its survivors leave exactly when each operation does so of its row. */
  lemma FlushReachesSurvivorsIff(
    schema: Schema, tables: Tables, batch: seq<Block>, ops: seq<Operation>, lastValid: nat, mid: Tables)
    requires ValidSchema(schema) && WellKeyed(tables) && LoadedAs(schema, batch, ops) && Ascending(batch)
    requires Survivors(schema, tables, batch, lastValid) == Ok(mid)
    ensures ExecuteAll(tables, ops) == Ok(mid) <==> forall op :: op in ops ==> Leads(op, tables, mid)
  {
    LoadedIsMarked(schema, batch, ops);
    LowKeepsKey(schema, batch, lastValid);
    BatchSplits(batch, lastValid);
    forall id | !Mentions(ops, id) ensures Lookup(tables, id) == Lookup(mid, id) {
      forall b | b in LowBlocks(batch, lastValid) ensures !Names(schema, b, id) {
        assert b in batch;
      }
      UnnamedBlocksStay(schema, tables, LowBlocks(batch, lastValid), id);
    }
    ExecuteAllLeadsIff(tables, ops, mid);
  }

  /**
   A batch is pending, some of its blocks at or below the block that an undo goes back to. The flush after the undo
   leaves what those blocks leave, on the tables that the undo left, exactly when each pending operation takes its own
   row from where the undo left it to where those blocks take it.
   */
  lemma FlushAfterUndoIff(
    schema: Schema, w: World, batch: seq<Block>, ops: seq<Operation>, order: seq<Record>, lastValid: nat,
    cursor: Cursor, reverted: Db, mid: Tables, later: Cursor, finalBlock: nat)
    requires ValidSchema(schema) && Recorded(schema, w) && w.finalBlock <= lastValid
    requires QueryAnswer(w.db.history, lastValid, order)
    requires RevertTransaction(w.db, order, lastValid, cursor) == Ok(reverted)
    requires LoadedAs(schema, batch, ops) && Ascending(batch)
    requires Survivors(schema, reverted.tables, batch, lastValid) == Ok(mid)
    ensures FlushReaches(reverted, ops, later, finalBlock, mid) <==>
            forall op :: op in ops ==> Leads(op, reverted.tables, mid)
  {
    RevertStaysKeyed(schema, w, order, lastValid, cursor);
    PendingReachesSurvivorsIff(schema, reverted, batch, ops, lastValid, mid, later, finalBlock);
  }

  lemma PendingReachesSurvivorsIff(
    schema: Schema, db: Db, batch: seq<Block>, ops: seq<Operation>, lastValid: nat, mid: Tables, cursor: Cursor,
    finalBlock: nat)
    requires ValidSchema(schema) && WellKeyed(db.tables) && db.cursor.Some?
    requires LoadedAs(schema, batch, ops) && Ascending(batch)
    requires Survivors(schema, db.tables, batch, lastValid) == Ok(mid)
    ensures FlushReaches(db, ops, cursor, finalBlock, mid) <==> forall op :: op in ops ==> Leads(op, db.tables, mid)
  {
    FlushReachesSurvivorsIff(schema, db.tables, batch, ops, lastValid, mid);
    FlushReachesIff(db, ops, cursor, finalBlock, mid);
  }

  lemma RevertStaysKeyed(schema: Schema, w: World, order: seq<Record>, lastValid: nat, cursor: Cursor)
    requires Recorded(schema, w) && w.finalBlock <= lastValid && QueryAnswer(w.db.history, lastValid, order)
    ensures var reverted := RevertTransaction(w.db, order, lastValid, cursor);
            reverted.Ok? && reverted.value.cursor.Some? && WellKeyed(reverted.value.tables)
  {
    RevertSucceeds(schema, w, order, lastValid, cursor);
    LandingIsChain(schema, w.epochs, w.db.tables, w.finalBlock, lastValid);
  }

  /**
   Two updates of one stored row are pending and an undo takes back the block of the second: the merged operation goes
   where the first alone would exactly when the second writes nothing that is not there after the first.
   */
  lemma PendingUpdatesAfterUndoIff(
    schema: Schema, tables: Tables, first: Change, second: Change, low: nat, high: nat)
    requires TwoUpdates(schema, first, second, low, high) && WellKeyed(tables)
    requires RowId(schema[first.table], first.key) in tables
    ensures var id := RowId(schema[first.table], first.key);
            var op, row := MergedUpdate(schema, first, second), tables[id] + first.data;
            && AcceptAll(schema, EmptyState, [first, second]) == Ok(LoaderState(map[SlotOf(id) := op], 1))
            && ApplyChange(schema, tables, first) == Ok(tables[id := row])
            && (Leads(op, tables, tables[id := row]) <==> Written(row, second.data))
  {
    var id := RowId(schema[first.table], first.key);
    UpdatesMerge(schema, first, second, low, high);
    MergedUpdateKeyed(schema, first, second, low, high);
    FreshAgrees(schema[first.table], first, 0);
    KeyedExecutes(tables, FreshOperation(schema[first.table], first, 0), Some(tables[id] + first.data));
    MergeIsAssociative(tables[id], first.data, second.data);
    WrittenIff(tables[id] + first.data, second.data);
  }

  /** The next flush applies the pending changes, those of the undone blocks among them. */
  lemma PendingSurvivesUndo(
    schema: Schema, db: Db, changes: seq<Change>, ops: seq<Operation>, order: seq<Record>, lastValid: nat,
    cursor: Cursor, later: Cursor, finalBlock: nat)
    requires ValidSchema(schema) && forall c :: c in changes ==> KeepsKey(schema, c)
    requires AcceptAll(schema, EmptyState, changes).Ok?
    requires Lists(ops, AcceptAll(schema, EmptyState, changes).value.pending)
    requires RevertTransaction(db, order, lastValid, cursor).Ok?
    requires var reverted := RevertTransaction(db, order, lastValid, cursor).value;
             && WellKeyed(reverted.tables) && ApplyChanges(schema, reverted.tables, changes).Ok?
             && UpsertsEndWhole(schema, reverted.tables, changes)
    ensures var reverted := RevertTransaction(db, order, lastValid, cursor).value;
            var flushed := FlushTransaction(reverted, ops, later, finalBlock);
            flushed.Ok? && Ok(flushed.value.tables) == ApplyChanges(schema, reverted.tables, changes)
  {
    FlushEqualsOneAtATime(schema, RevertTransaction(db, order, lastValid, cursor).value.tables, changes, ops);
  }

  // ----- an update of block 11, pending when block 10 is reverted to -----

  function WitnessTable(): TableInfo {
    TableInfo("t", ["id"], {"id", "v"})
  }

  function WitnessId(): RowId {
    RowId(WitnessTable(), map["id" := "1"])
  }

  function WitnessUpdate(): Operation {
    Operation(WitnessTable(), Update, map["id" := "1"], map["v" := "b"], 0, Some(11))
  }

  lemma WitnessIsFiled()
    ensures AcceptAll(map["t" := WitnessTable()], EmptyState,
                      [Change("t", Update, map["id" := "1"], map["v" := "b"], Some(11))]) ==
            Ok(LoaderState(map[SlotOf(WitnessId()) := WitnessUpdate()], 1))
  {
    var c := Change("t", Update, map["id" := "1"], map["v" := "b"], Some(11));
    UpdateIsFiled(map["t" := WitnessTable()], c);
    assert [c][1..] == [];
  }

  lemma WitnessExecutes()
    ensures var tables: Tables := map[WitnessId() := map["id" := "1", "v" := "a"]];
            && Execute(tables, WitnessUpdate()).Ok?
            && Lookup(Execute(tables, WitnessUpdate()).value, WitnessId()) == Some(map["id" := "1", "v" := "b"])
  {
    var t, id, op := WitnessTable(), WitnessId(), WitnessUpdate();
    var row: Row := map["id" := "1", "v" := "a"];
    assert t.PrimarySet() == {"id"};
    assert KeyOf(t, row + op.data) == id.key;
    assert row + op.data == map["id" := "1", "v" := "b"];
    assert op.primaryKey.Keys == {"id"} && "" !in op.primaryKey;
    assert op.data.Keys == {"v"} && "v" in op.data;
    var tables: Tables := map[id := row];
    assert Execute(tables, op) == UpdateRow(tables, t, op.primaryKey, op.data);
    assert UpdateRow(tables, t, op.primaryKey, op.data) == MoveRow(tables, id, row + op.data);
  }

  /** An update of block 11 is pending when block 10 is reverted to: the next flush writes it all the same. */
  lemma UpdateOfUndoneBlockIsWritten()
    ensures var db := Db(map[WitnessId() := map["id" := "1", "v" := "a"]], [], Some(At(10)));
            && AcceptAll(map["t" := WitnessTable()], EmptyState,
                         [Change("t", Update, map["id" := "1"], map["v" := "b"], Some(11))]) ==
               Ok(LoaderState(map[SlotOf(WitnessId()) := WitnessUpdate()], 1))
            && QueryAnswer(db.history, 10, [])
            && RevertTransaction(db, [], 10, At(10)) == Ok(db)
            && FlushTransaction(db, [WitnessUpdate()], At(12), 10).Ok?
            && Lookup(FlushTransaction(db, [WitnessUpdate()], At(12), 10).value.tables, WitnessId()) ==
               Some(map["id" := "1", "v" := "b"])
  {
    WitnessIsFiled();
    WitnessExecutes();
    OneStatement(map[WitnessId() := map["id" := "1", "v" := "a"]], WitnessUpdate());
  }

  // ----- the cursor that the undo writes -----

  /** The records in the history bear blocks that the cursor covers. */
  ghost predicate HistoryCovered(chain: seq<Block>, db: Db) {
    var n := Covered(chain, db.cursor);
    forall r :: r in db.history ==> n > 0 && r.block <= chain[n - 1].number
  }

  ghost predicate UpToBlock(records: seq<Record>, number: nat) {
    forall r :: r in records ==> r.block <= number
  }

  lemma FlushKeepsCovered(schema: Schema, chain: seq<Block>, start: Tables, db: Db, to: nat, loaded: LoaderState,
                          ops: seq<Operation>, finalBlock: nat, attempts: seq<Attempt>)
    requires GoodChain(schema, chain, start) && HistoryCovered(chain, db)
    requires Loaded(schema, chain, start, db, to, loaded) && Lists(ops, loaded.pending)
    ensures HistoryCovered(chain, TryFlush(db, ops, At(chain[to - 1].number), finalBlock, attempts).db)
  {
    var from, cursor := Covered(chain, db.cursor), At(chain[to - 1].number);
    var n := TimesApplied(db, ops, cursor, finalBlock, attempts);
    SegmentFlushes(schema, chain, start, from, to, db.tables, loaded, ops);
    var after := ExecuteAll(db.tables, ops).value;
    AppliedTimes(db, ops, cursor, finalBlock, attempts, after);
    SegmentRecords(schema, chain, start, db, to, loaded, ops, n);
    AppliedStaysCovered(chain, db, to, ops, finalBlock, after, n);
  }

  lemma AppliedStaysCovered(chain: seq<Block>, db: Db, to: nat, ops: seq<Operation>, finalBlock: nat, after: Tables,
                            n: nat)
    requires Numbered(chain) && HistoryCovered(chain, db) && Covered(chain, db.cursor) <= to <= |chain| && 0 < to
    requires UpToBlock(SaveRepeated(db.tables, ops, n), chain[to - 1].number)
    ensures HistoryCovered(chain, Applied(db, ops, At(chain[to - 1].number), finalBlock, after, n))
  {
    StaysCovered(chain, db, to, SaveRepeated(db.tables, ops, n), finalBlock);
    CountAscending(chain, to - 1);
  }

  lemma StaysCovered(chain: seq<Block>, db: Db, to: nat, records: seq<Record>, finalBlock: nat)
    requires Numbered(chain) && HistoryCovered(chain, db) && Covered(chain, db.cursor) <= to <= |chain| && 0 < to
    requires UpToBlock(records, chain[to - 1].number)
    ensures UpToBlock(Above(db.history + records, finalBlock), chain[to - 1].number)
  {
    var from := Covered(chain, db.cursor);
    forall r | r in Above(db.history + records, finalBlock) ensures r.block <= chain[to - 1].number {
      SidesOf(db.history + records, finalBlock, r);
      if r !in records {
        assert from < to ==> chain[from - 1].number < chain[to - 1].number;
      }
    }
  }

  ghost predicate Numbered(chain: seq<Block>) {
    forall i, j :: 0 <= i < j < |chain| ==> chain[i].number < chain[j].number
  }

  lemma SegmentRecords(schema: Schema, chain: seq<Block>, start: Tables, db: Db, to: nat, loaded: LoaderState,
                       ops: seq<Operation>, n: nat)
    requires GoodChain(schema, chain, start) && Loaded(schema, chain, start, db, to, loaded)
    requires Lists(ops, loaded.pending)
    ensures UpToBlock(SaveRepeated(db.tables, ops, n), chain[to - 1].number)
  {
    var from, records := Covered(chain, db.cursor), SaveRepeated(db.tables, ops, n);
    SegmentApplies(schema, chain, start, from, to, db.tables);
    LoadedIsMarked(schema, chain[from..to], ops);
    forall r | r in records ensures r.block <= chain[to - 1].number {
      RecordHasSource(schema, db.tables, chain[from..to], ops, n, r);
      var b :| b in chain[from..to] && b.number == r.block && Names(schema, b, r.id);
      LastIsHighest(chain, from, to, b);
    }
  }

  lemma LastIsHighest(chain: seq<Block>, from: nat, to: nat, b: Block)
    requires Numbered(chain) && from <= to <= |chain| && b in chain[from..to]
    ensures from < to && b.number <= chain[to - 1].number
  {
    var i :| from <= i < to && chain[i] == b;
    assert i < to - 1 ==> chain[i].number < chain[to - 1].number;
  }

  lemma MoveKeepsCovered(schema: Schema, chain: seq<Block>, start: Tables, s: System, m: Move, next: System)
    requires GoodChain(schema, chain, start) && Exact(schema, chain, start, s) && HistoryCovered(chain, s.db)
    requires Moves(schema, chain, s, m, next)
    ensures HistoryCovered(chain, next.db)
  {
    if m.Complete? {
      var to := s.process.next;
      FlushKeepsCovered(schema, chain, start, s.db, to, s.process.loaded, m.ops, chain[to - 1].number, m.attempts);
    } else if m.Receive? {
      ReceiveKeepsCovered(schema, chain, start, s, m, next);
    }
  }

  lemma ReceiveKeepsCovered(schema: Schema, chain: seq<Block>, start: Tables, s: System, m: Move, next: System)
    requires GoodChain(schema, chain, start) && Exact(schema, chain, start, s) && HistoryCovered(chain, s.db)
    requires m.Receive? && Moves(schema, chain, s, m, next)
    ensures HistoryCovered(chain, next.db)
  {
    var p := s.process;
    GrowLoaded(schema, chain, p.flushed, p.next, p.loaded);
    var accepted := AcceptAll(schema, p.loaded, ChangesOfBlock(chain[p.next]));
    if accepted.Ok? && m.flush {
      FlushKeepsCovered(schema, chain, start, s.db, p.next + 1, accepted.value, m.ops, chain[p.next].finalBlock,
                        m.attempts);
    }
  }

  /** In every reachable state, if the history was empty at first. */
  lemma {:induction false} ReachableIsCovered(
    schema: Schema, chain: seq<Block>, start: Tables, systems: seq<System>, moves: seq<Move>, i: nat)
    requires GoodChain(schema, chain, start) && History(schema, chain, start, systems, moves) && i < |systems|
    requires systems[0].db.history == []
    ensures HistoryCovered(chain, systems[i].db)
  {
    if i > 0 {
      ReachableIsCovered(schema, chain, start, systems, moves, i - 1);
      ReachableIsExact(schema, chain, start, systems, moves, i - 1);
      assert Moves(schema, chain, systems[i - 1], moves[i - 1], systems[i]);
      MoveKeepsCovered(schema, chain, start, systems[i - 1], moves[i - 1], systems[i]);
    }
  }

  lemma {:induction false} CountReaches(chain: seq<Block>, k: nat, number: nat)
    requires Numbered(chain) && 0 < k <= CountUpTo(chain, number)
    ensures chain[k - 1].number <= number
  {
    if chain[0].number > number {
      forall b | b in chain ensures b.number > number {
        var i :| 0 <= i < |chain| && chain[i] == b;
        assert i > 0 ==> chain[0].number < chain[i].number;
      }
      CountNone(chain, number);
    } else if k > 1 {
      CountReaches(chain[1..], k - 1, number);
    }
  }

  /**
   In any reachable state, an undo to a block not below the last flush commits. It takes no change back but moves the
   cursor over the pending blocks up to there. If the process then dies, the next one starts behind them; the tables
   are what the blocks up to the cursor leave exactly when those pending blocks leave the tables as they are.
   */
  lemma UndoSkipsPendingIff(
    schema: Schema, chain: seq<Block>, start: Tables, systems: seq<System>, moves: seq<Move>, i: nat,
    order: seq<Record>, lastValid: nat, undone: System)
    requires GoodChain(schema, chain, start) && History(schema, chain, start, systems, moves) && i < |systems|
    requires systems[0].db.history == [] && systems[i].process.Up?
    requires systems[i].process.flushed <= CountUpTo(chain, lastValid) <= systems[i].process.next
    requires QueryAnswer(systems[i].db.history, lastValid, order) && undone.process == systems[i].process
    requires RevertTransaction(systems[i].db, order, lastValid, At(lastValid)) == Ok(undone.db)
    ensures var from, k := systems[i].process.flushed, CountUpTo(chain, lastValid);
            && undone.db.tables == systems[i].db.tables
            && Moves(schema, chain, undone, Crash, System(undone.db, Down))
            && Moves(schema, chain, System(undone.db, Down), Start, System(undone.db, Up(EmptyState, k, k)))
            && (HoldsBlocks(schema, chain, start, k, undone.db.tables) <==>
                ApplyChanges(schema, undone.db.tables, ChangesOf(chain[from..k])) == Ok(undone.db.tables))
  {
    var s := systems[i];
    var from, k := s.process.flushed, CountUpTo(chain, lastValid);
    ReachableIsExact(schema, chain, start, systems, moves, i);
    ReachableIsCovered(schema, chain, start, systems, moves, i);
    forall r | r in s.db.history ensures r.block <= lastValid {
      CountReaches(chain, from, lastValid);
    }
    AboveAll(s.db.history, lastValid);
    SameMembers(order, []);
    SegmentOf(chain, from, k);
    ApplyChangesAppend(schema, start, ChangesOf(chain[..from]), ChangesOf(chain[from..k]));
  }
}
