/**
 What one change means, told from the change itself: what it does to stored rows when it is executed at once, and what
 it leaves pending.
 */
module ChangeMeaning {
  import opened Prelude
  import opened Database
  import opened Coalescing
  import opened FlushRefinement

  // ----- executed at once -----

  lemma WrittenRow(table: TableInfo, key: Key, data: Row)
    requires key.Keys == table.PrimarySet()
    ensures WithKey(table, key, data) == data + key
  {
  }

  lemma RowHasKey(table: TableInfo, key: Key, row: Row)
    requires key.Keys == table.PrimarySet() && forall col :: col in key ==> col in row && row[col] == key[col]
    ensures KeyOf(table, row) == key
  {
  }

  /** An insert stores the data and the key as a new row. */
  lemma InsertApplies(schema: Schema, tables: Tables, c: Change)
    requires ValidSchema(schema) && KeepsKey(schema, c) && c.opType.Insert?
    ensures ApplyChange(schema, tables, c) ==
            if !(c.data.Keys <= schema[c.table].columns) then Err(UnknownColumn)
            else if RowId(schema[c.table], c.key) in tables then Err(DuplicateKey)
            else Ok(tables[RowId(schema[c.table], c.key) := c.data + c.key])
  {
    var t := schema[c.table];
    WrittenRow(t, c.key, c.data);
    RowHasKey(t, c.key, c.data + c.key);
    KeyIsThere(t, c.key, c.data);
  }

  lemma KeyIsThere(table: TableInfo, key: Key, data: Row)
    requires table.Valid() && key.Keys == table.PrimarySet()
    ensures data + key != map[] && table.PrimarySet() <= (data + key).Keys
    ensures (data + key).Keys <= table.columns <==> data.Keys <= table.columns
  {
    assert table.primaryColumns[0] in table.PrimarySet();
    assert table.primaryColumns[0] in data + key;
    assert (data + key).Keys == data.Keys + key.Keys;
  }

  /** An upsert writes the data and the key over the stored row, or stores them as a new one. */
  lemma UpsertApplies(schema: Schema, tables: Tables, c: Change)
    requires ValidSchema(schema) && KeepsKey(schema, c) && c.opType.Upsert?
    ensures var id := RowId(schema[c.table], c.key);
            ApplyChange(schema, tables, c) ==
            if !(c.data.Keys <= schema[c.table].columns) then Err(UnknownColumn)
            else if id in tables then Ok(tables[id := tables[id] + c.data + c.key])
            else Ok(tables[id := c.data + c.key])
  {
    var t, id := schema[c.table], RowId(schema[c.table], c.key);
    WrittenRow(t, c.key, c.data);
    RowHasKey(t, c.key, c.data + c.key);
    KeyIsThere(t, c.key, c.data);
    assert "" !in c.key;
    if c.data.Keys <= t.columns {
      UpsertOfWholeRow(tables, id, c.data + c.key);
      WrittenOver(if id in tables then tables[id] else map[], c.data, c.key);
    }
  }

  lemma UpsertOfWholeRow(tables: Tables, id: RowId, row: Row)
    requires row != map[] && KeyOf(id.table, row) == id.key
    requires id.key.Keys == id.table.PrimarySet() && id.table.PrimarySet() <= row.Keys
    ensures UpsertRow(tables, id.table, id.key, row) ==
            Ok(tables[id := (if id in tables then tables[id] else map[]) + row])
  {
  }

  lemma WrittenOver(stored: Row, data: Row, key: Key)
    ensures stored + (data + key) == stored + data + key && map[] + (data + key) == data + key
  {
  }

  /** An update writes the data over the stored row, and does nothing without one. */
  lemma UpdateApplies(schema: Schema, tables: Tables, c: Change)
    requires ValidSchema(schema) && KeepsKey(schema, c) && c.opType.Update? && WellKeyed(tables)
    ensures var id := RowId(schema[c.table], c.key);
            ApplyChange(schema, tables, c) ==
            if !(c.data.Keys <= schema[c.table].columns) then Err(UnknownColumn)
            else if c.data == map[] then Err(NoColumns)
            else if id in tables then Ok(tables[id := tables[id] + c.data])
            else Ok(tables)
  {
    var t, id := schema[c.table], RowId(schema[c.table], c.key);
    assert "" !in c.key;
    if id in tables {
      forall col | col in c.key ensures col in tables[id] + c.data && (tables[id] + c.data)[col] == c.key[col] {
        assert col in KeyOf(t, tables[id]);
      }
      RowHasKey(t, c.key, tables[id] + c.data);
      assert (tables - {id})[id := tables[id] + c.data] == tables[id := tables[id] + c.data];
    }
  }

  /** An update that rewrites the key moves the row, and is refused where another row has the new key. */
  lemma UpdateMoves(tables: Tables, op: Operation, newKey: Key)
    requires op.table.Valid() && op.primaryKey.Keys == newKey.Keys == op.table.PrimarySet()
    requires op.opType.Update? && op.data.Keys <= op.table.columns && op.data != map[]
    requires op.Id() in tables && op.table.PrimarySet() <= tables[op.Id()].Keys
    requires forall col :: col in newKey ==> newKey[col] == (tables[op.Id()] + op.data)[col]
    ensures var row, newId := tables[op.Id()] + op.data, RowId(op.table, newKey);
            Execute(tables, op) ==
            if newKey == op.primaryKey then Ok(tables[newId := row])
            else if newId in tables then Err(DuplicateKey)
            else Ok((tables - {op.Id()})[newId := row])
  {
    var row := tables[op.Id()] + op.data;
    assert "" !in op.primaryKey;
    RowHasKey(op.table, newKey, row);
    assert (tables - {op.Id()})[op.Id() := row] == tables[op.Id() := row];
  }

  /** A delete removes the row, if there is one. */
  lemma DeleteApplies(schema: Schema, tables: Tables, c: Change)
    requires ValidSchema(schema) && KeepsKey(schema, c) && c.opType.Delete?
    ensures ApplyChange(schema, tables, c) == Ok(tables - {RowId(schema[c.table], c.key)})
  {
    assert "" !in c.key;
  }

  /** Which statements fail before they look at a row, and how. */
  lemma StatementRefused(tables: Tables, op: Operation)
    requires op.table.Valid()
    ensures (exists col :: col in op.data && col !in op.table.columns) && !op.opType.Delete? <==>
            Execute(tables, op) == Err(UnknownColumn)
    ensures (op.opType.Delete? || forall col :: col in op.data ==> col in op.table.columns) ==>
              && ("" in op.primaryKey && !op.opType.Insert? <==> Execute(tables, op) == Err(NoPrimaryKey))
              && ("" !in op.primaryKey || op.opType.Insert? ==>
                    (op.data == map[] && !op.opType.Delete? <==> Execute(tables, op) == Err(NoColumns)))
  {
  }

  /** Which statements fail for their key, and how. */
  lemma KeyRefused(tables: Tables, op: Operation)
    requires "" !in op.primaryKey && (!op.opType.Delete? ==> op.data != map[] && op.data.Keys <= op.table.columns)
    ensures !op.opType.Insert? && op.primaryKey.Keys != op.table.PrimarySet() <==>
            Execute(tables, op) == Err(NotThePrimaryKey)
    ensures op.opType.Insert? || op.primaryKey.Keys == op.table.PrimarySet() ==>
              ((op.opType.Insert? || op.opType.Upsert?) && !(op.table.PrimarySet() <= op.data.Keys) <==>
               Execute(tables, op) == Err(NullKeyColumn))
    ensures op.opType.Insert? && op.table.PrimarySet() <= op.data.Keys ==>
              (RowId(op.table, KeyOf(op.table, op.data)) in tables <==> Execute(tables, op) == Err(DuplicateKey))
  {
  }

  // ----- filed -----

  /** What is filed for a row with nothing pending: inserts and upserts with their key, under the next ordinal. */
  lemma FreshIsFiled(schema: Schema, state: LoaderState, c: Change)
    requires ValidSchema(schema) && KeepsKey(schema, c)
    requires SlotOf(RowId(schema[c.table], c.key)) !in state.pending
    ensures var data := if c.opType.Delete? then map[] else if c.opType.Update? then c.data else c.data + c.key;
            var op := Operation(schema[c.table], c.opType, c.key, data, state.nextOrdinal, c.reversible);
            Accept(schema, state, c) ==
            Ok(LoaderState(state.pending[SlotOf(RowId(schema[c.table], c.key)) := op], state.nextOrdinal + 1))
  {
    WrittenRow(schema[c.table], c.key, c.data);
  }

  /** A delete takes the place of what is pending, with an ordinal and a mark of its own. */
  lemma DeleteIsFiled(schema: Schema, state: LoaderState, c: Change)
    requires ValidSchema(schema) && KeepsKey(schema, c) && c.opType.Delete?
    ensures var op := Operation(schema[c.table], Delete, c.key, map[], state.nextOrdinal, c.reversible);
            Accept(schema, state, c) ==
            Ok(LoaderState(state.pending[SlotOf(RowId(schema[c.table], c.key)) := op], state.nextOrdinal + 1))
  {
  }

  /**
   What becomes of a pending operation: inserts are refused over anything, upserts over inserts and deletes, updates
   over deletes. Otherwise the columns are merged, the later ones win, and an upsert makes the operation an upsert.
   */
  lemma PendingIsMerged(schema: Schema, state: LoaderState, c: Change)
    requires ValidSchema(schema) && KeepsKey(schema, c) && !c.opType.Delete?
    requires SlotOf(RowId(schema[c.table], c.key)) in state.pending
    ensures var slot := SlotOf(RowId(schema[c.table], c.key));
            var held := state.pending[slot];
            Accept(schema, state, c) ==
            if held.opType.Delete? then Err(PendingDelete)
            else if held.opType.Insert? && !c.opType.Update? then Err(PendingInsert)
            else if held.opType.Update? && c.opType.Insert? then Err(PendingUpdate)
            else if held.opType.Upsert? && c.opType.Insert? then Err(PendingUpsert)
            else
              var opType := if c.opType.Upsert? then OperationType.Upsert else held.opType;
              var op := held.(opType := opType, data := held.data + c.data);
              Ok(LoaderState(state.pending[slot := op], state.nextOrdinal))
  {
  }

  /** A change of a table that the database does not have is refused. */
  lemma UnknownTableIsRefused(schema: Schema, state: LoaderState, tables: Tables, c: Change)
    ensures c.table !in schema <==> Accept(schema, state, c) == Err(UnknownTable)
    ensures c.table !in schema ==> ApplyChange(schema, tables, c) == Err(UnknownTable)
  {
  }
}
