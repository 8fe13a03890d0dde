/** The rows that come out wrong when a flushed batch straddles the block of a revert. */
module ReorgLimits {
  import opened Prelude
  import opened Database
  import opened Coalescing
  import opened RowEffects
  import opened FlushRefinement
  import opened UpsertMerging

  /** Two updates of one row, in two blocks of one batch. */
  ghost predicate TwoUpdates(schema: Schema, first: Change, second: Change, low: nat, high: nat) {
    && ValidSchema(schema) && KeepsKey(schema, first) && KeepsKey(schema, second)
    && first.table == second.table && first.key == second.key
    && first.opType.Update? && second.opType.Update?
    && first.reversible == Some(low) && second.reversible == Some(high) && low < high
    && first.data != map[] && second.data != map[]
    && first.data.Keys + second.data.Keys <= schema[first.table].columns
  }

  /** The merged operation: it keeps the mark of the first block. */
  function MergedUpdate(schema: Schema, first: Change, second: Change): Operation
    requires first.table in schema
  {
    Operation(schema[first.table], Update, first.key, first.data + second.data, 0, first.reversible)
  }

  lemma UpdatesMerge(schema: Schema, first: Change, second: Change, low: nat, high: nat)
    requires TwoUpdates(schema, first, second, low, high)
    ensures var slot := SlotOf(RowId(schema[first.table], first.key));
            AcceptAll(schema, EmptyState, [first, second]) ==
            Ok(LoaderState(map[slot := MergedUpdate(schema, first, second)], 1))
  {
    var slot := SlotOf(RowId(schema[first.table], first.key));
    var state := LoaderState(map[slot := FreshOperation(schema[first.table], first, 0)], 1);
    UpdateIsFiled(schema, first);
    Overwrite(slot, FreshOperation(schema[first.table], first, 0), MergedUpdate(schema, first, second));
    assert Accept(schema, state, second) ==
           Ok(LoaderState(state.pending[slot := MergedUpdate(schema, first, second)], 1));
    assert [first, second][1..] == [second] && [second][1..] == [];
    assert AcceptAll(schema, state, [second]) == Accept(schema, state, second);
  }

  lemma MergedUpdateKeyed(schema: Schema, first: Change, second: Change, low: nat, high: nat)
    requires TwoUpdates(schema, first, second, low, high)
    ensures Keyed(MergedUpdate(schema, first, second)) && MergedUpdate(schema, first, second).data != map[]
  {
    var c :| c in first.data;
    assert c in MergedUpdate(schema, first, second).data;
  }

  lemma MergedUpdateExecutes(schema: Schema, tables: Tables, first: Change, second: Change, low: nat, high: nat)
    requires TwoUpdates(schema, first, second, low, high) && WellKeyed(tables)
    requires RowId(schema[first.table], first.key) in tables
    ensures var id := RowId(schema[first.table], first.key);
            var after := Execute(tables, MergedUpdate(schema, first, second));
            after.Ok? && Lookup(after.value, id) == Some(tables[id] + (first.data + second.data))
  {
    var op := MergedUpdate(schema, first, second);
    MergedUpdateKeyed(schema, first, second, low, high);
    KeyedExecutes(tables, op, Some(tables[op.Id()] + op.data));
  }

  lemma MergedUpdateFlushes(schema: Schema, db: Db, first: Change, second: Change, low: nat, high: nat, finalBlock: nat)
    requires TwoUpdates(schema, first, second, low, high) && WellKeyed(db.tables)
    requires RowId(schema[first.table], first.key) in db.tables
    requires db.history == [] && db.cursor.Some? && finalBlock < low
    ensures var id := RowId(schema[first.table], first.key);
            var flushed := FlushTransaction(db, [MergedUpdate(schema, first, second)], At(high), finalBlock);
            && flushed.Ok? && flushed.value.cursor.Some?
            && Lookup(flushed.value.tables, id) == Some(db.tables[id] + (first.data + second.data))
            && flushed.value.history == [Record(UpdatedRow, id, Some(db.tables[id]), low)]
  {
    var op := MergedUpdate(schema, first, second);
    MergedUpdateExecutes(schema, db.tables, first, second, low, high);
    OneStatement(db.tables, op);
    KeptAbove(Record(UpdatedRow, op.Id(), Some(db.tables[op.Id()]), low), finalBlock);
  }

  lemma KeptAbove(r: Record, block: nat)
    ensures Above([] + [r], block) == if r.block > block then [r] else []
  {
    assert [] + [r] == [r] && [r][1..] == [];
  }

  lemma OneStatement(tables: Tables, op: Operation)
    requires Execute(tables, op).Ok?
    ensures ExecuteAll(tables, [op]) == Execute(tables, op)
    ensures SaveAll(tables, [op]) == Save(tables, op)
  {
    assert [op][1..] == [];
  }

  /**
   A row first touched at block `low` and again at block `high` of the same batch: the undo record bears `low`, so a
   revert to `low` finds nothing to take back and leaves the change of block `high` in place.
   */
  lemma StraddledRowKeepsLaterChange(
    schema: Schema, db: Db, first: Change, second: Change, low: nat, high: nat, finalBlock: nat)
    requires TwoUpdates(schema, first, second, low, high) && WellKeyed(db.tables)
    requires RowId(schema[first.table], first.key) in db.tables
    requires db.history == [] && db.cursor.Some? && finalBlock < low
    ensures var id := RowId(schema[first.table], first.key);
            var op := MergedUpdate(schema, first, second);
            var flushed := FlushTransaction(db, [op], At(high), finalBlock);
            && AcceptAll(schema, EmptyState, [first, second]) == Ok(LoaderState(map[SlotOf(id) := op], 1))
            && flushed.Ok?
            && QueryAnswer(flushed.value.history, low, [])
            && RevertTransaction(flushed.value, [], low, At(low)).Ok?
            && Lookup(RevertTransaction(flushed.value, [], low, At(low)).value.tables, id) ==
               Some(db.tables[id] + (first.data + second.data))
  {
    UpdatesMerge(schema, first, second, low, high);
    MergedUpdateFlushes(schema, db, first, second, low, high, finalBlock);
    var id := RowId(schema[first.table], first.key);
    var r := Record(UpdatedRow, id, Some(db.tables[id]), low);
    KeptAbove(r, low);
    assert [] + [r] == [r];
  }

  /** The revert is exact for a straddled row exactly when the later change writes nothing that is not there already. */
  lemma StraddledRowIsExactIff(
    schema: Schema, db: Db, first: Change, second: Change, low: nat, high: nat, finalBlock: nat)
    requires TwoUpdates(schema, first, second, low, high) && WellKeyed(db.tables)
    requires RowId(schema[first.table], first.key) in db.tables
    requires db.history == [] && db.cursor.Some? && finalBlock < low
    ensures var id := RowId(schema[first.table], first.key);
            var row := db.tables[id] + first.data;
            var flushed := FlushTransaction(db, [MergedUpdate(schema, first, second)], At(high), finalBlock);
            && flushed.Ok? && RevertTransaction(flushed.value, [], low, At(low)).Ok?
            && (Lookup(RevertTransaction(flushed.value, [], low, At(low)).value.tables, id) == Some(row) <==>
                Written(row, second.data))
  {
    StraddledRowKeepsLaterChange(schema, db, first, second, low, high, finalBlock);
    var base := db.tables[RowId(schema[first.table], first.key)];
    MergeIsAssociative(base, first.data, second.data);
    WrittenIff(base + first.data, second.data);
  }

  // ----- an update and a delete of one row, in two blocks of one batch -----

  ghost predicate UpdateAndDelete(schema: Schema, first: Change, second: Change, low: nat, high: nat) {
    && ValidSchema(schema) && KeepsKey(schema, first) && KeepsKey(schema, second)
    && first.table == second.table && first.key == second.key
    && first.opType.Update? && second.opType.Delete?
    && first.reversible == Some(low) && second.reversible == Some(high) && low < high
    && first.data != map[] && first.data.Keys <= schema[first.table].columns
  }

  /** The delete takes the update's place, with its own mark. */
  function PendingDelete(schema: Schema, second: Change): Operation
    requires second.table in schema
  {
    Operation(schema[second.table], Delete, second.key, map[], 1, second.reversible)
  }

  lemma DeleteReplacesUpdate(schema: Schema, first: Change, second: Change, low: nat, high: nat)
    requires UpdateAndDelete(schema, first, second, low, high)
    ensures var slot := SlotOf(RowId(schema[first.table], first.key));
            AcceptAll(schema, EmptyState, [first, second]) ==
            Ok(LoaderState(map[slot := PendingDelete(schema, second)], 2))
  {
    var slot := SlotOf(RowId(schema[first.table], first.key));
    var state := LoaderState(map[slot := FreshOperation(schema[first.table], first, 0)], 1);
    UpdateIsFiled(schema, first);
    Overwrite(slot, FreshOperation(schema[first.table], first, 0), PendingDelete(schema, second));
    assert FreshOperation(schema[first.table], second, 1) == PendingDelete(schema, second);
    assert Accept(schema, state, second) == Ok(LoaderState(state.pending[slot := PendingDelete(schema, second)], 2));
    assert [first, second][1..] == [second] && [second][1..] == [];
    assert AcceptAll(schema, state, [second]) == Accept(schema, state, second);
  }

  lemma DeleteFlushes(schema: Schema, db: Db, second: Change, high: nat, finalBlock: nat)
    requires second.table in schema && KeepsKey(schema, second) && second.reversible == Some(high)
    requires schema[second.table].Valid() && WellKeyed(db.tables)
    requires RowId(schema[second.table], second.key) in db.tables
    requires db.history == [] && db.cursor.Some? && finalBlock < high
    ensures var id := RowId(schema[second.table], second.key);
            FlushTransaction(db, [PendingDelete(schema, second)], At(high), finalBlock) ==
            Ok(Db(db.tables - {id}, [Record(DeletedRow, id, Some(db.tables[id]), high)], Some(At(high))))
  {
    var op := PendingDelete(schema, second);
    var id := RowId(schema[second.table], second.key);
    assert op.Id() == id && "" !in op.primaryKey;
    assert Execute(db.tables, op) == Ok(db.tables - {id});
    OneStatement(db.tables, op);
    KeptAbove(Record(DeletedRow, id, Some(db.tables[id]), high), finalBlock);
  }

  /**
   A row updated at block `low` and deleted at block `high` of the same batch: the record bears `high` and holds the row
   from before the batch, so a revert to `low` brings that row back and loses the change of block `low`.
   */
  lemma StraddledDeleteLosesEarlierChange(
    schema: Schema, db: Db, first: Change, second: Change, low: nat, high: nat, finalBlock: nat)
    requires UpdateAndDelete(schema, first, second, low, high) && WellKeyed(db.tables)
    requires RowId(schema[first.table], first.key) in db.tables
    requires db.history == [] && db.cursor.Some? && finalBlock <= low
    ensures var id := RowId(schema[first.table], first.key);
            var slot, op := SlotOf(id), PendingDelete(schema, second);
            var flushed := FlushTransaction(db, [op], At(high), finalBlock);
            var order := [Record(DeletedRow, id, Some(db.tables[id]), high)];
            && AcceptAll(schema, EmptyState, [first, second]) == Ok(LoaderState(map[slot := op], 2))
            && flushed.Ok? && QueryAnswer(flushed.value.history, low, order)
            && RevertTransaction(flushed.value, order, low, At(low)).Ok?
            && Lookup(RevertTransaction(flushed.value, order, low, At(low)).value.tables, id) == Some(db.tables[id])
            && (db.tables[id] == db.tables[id] + first.data <==>
                forall c :: c in first.data ==> c in db.tables[id] && db.tables[id][c] == first.data[c])
  {
    DeleteReplacesUpdate(schema, first, second, low, high);
    DeleteFlushes(schema, db, second, high, finalBlock);
    var id := RowId(schema[first.table], first.key);
    var r := Record(DeletedRow, id, Some(db.tables[id]), high);
    assert [r][1..] == [];
    DeletedComesBack(db.tables, id, high);
    WrittenIff(db.tables[id], first.data);
  }

  lemma DeletedComesBack(tables: Tables, id: RowId, block: nat)
    requires WellKeyed(tables) && id in tables && id.table.Valid() && id.key.Keys == id.table.PrimarySet()
    ensures RevertRecords(tables - {id}, [Record(DeletedRow, id, Some(tables[id]), block)]) == Ok(tables)
  {
    var r := Record(DeletedRow, id, Some(tables[id]), block);
    assert [r][1..] == [];
    assert KeyOf(id.table, tables[id]) == id.key;
    forall c | c in id.table.PrimarySet() ensures c in tables[id] {
      assert c in KeyOf(id.table, tables[id]);
    }
    var c := id.table.primaryColumns[0];
    assert c in id.table.PrimarySet();
    assert (tables - {id})[id := tables[id]] == tables;
  }
}
