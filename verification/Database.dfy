/**
 The part of a Postgres database that the sink relies on: tables as maps from primary key to row, the undo
 history, the cursor, and what each statement built by `prepareStatement` and `revertOp` does to them.
 A column that a row does not list is NULL.
 */
module Database {
  import opened Prelude

  type Row = map<string, string>
  type Key = map<string, string>

  datatype TableInfo = TableInfo(name: string, primaryColumns: seq<string>, columns: set<string>) {
    function PrimarySet(): set<string> {
      set c | c in primaryColumns
    }

    /** What `NewTableInfo` checks; no database has a column without a name. */
    predicate Valid() {
      primaryColumns != [] && PrimarySet() <= columns && "" !in columns
    }
  }

  function KeyOf(table: TableInfo, row: Row): Key {
    map c | c in table.PrimarySet() && c in row :: row[c]
  }

  datatype RowId = RowId(table: TableInfo, key: Key)

  type Tables = map<RowId, Row>

  /** Every row carries the primary key under which it is found. */
  ghost predicate WellKeyed(tables: Tables) {
    forall id :: id in tables ==> KeyOf(id.table, tables[id]) == id.key
  }

  datatype OperationType = Insert | Upsert | Update | Delete

  datatype Operation = Operation(
    table: TableInfo,
    opType: OperationType,
    primaryKey: Key,
    data: Row,
    ordinal: nat,
    reversible: Option<nat>)
  {
    function Id(): RowId {
      RowId(table, primaryKey)
    }
  }

  // ----- statements -----

  function InsertRow(tables: Tables, table: TableInfo, data: Row): Result<Tables> {
    var id := RowId(table, KeyOf(table, data));
    if data == map[] then Err(NoColumns)
    else if !(table.PrimarySet() <= data.Keys) then Err(NullKeyColumn)
    else if id in tables then Err(DuplicateKey)
    else Ok(tables[id := data])
  }

  function UpsertRow(tables: Tables, table: TableInfo, key: Key, data: Row): Result<Tables> {
    var id := RowId(table, KeyOf(table, data));
    if data == map[] then Err(NoColumns)
    else if key.Keys != table.PrimarySet() then Err(NotThePrimaryKey)
    else if !(table.PrimarySet() <= data.Keys) then Err(NullKeyColumn)
    else Ok(tables[id := (if id in tables then tables[id] else map[]) + data])
  }

  /** `UPDATE ... SET ... WHERE key`; the row moves when the new values change its key. */
  function UpdateRow(tables: Tables, table: TableInfo, key: Key, data: Row): Result<Tables> {
    var id := RowId(table, key);
    if data == map[] then Err(NoColumns)
    else if key.Keys != table.PrimarySet() then Err(NotThePrimaryKey)
    else if id !in tables then Ok(tables)
    else MoveRow(tables, id, tables[id] + data)
  }

  function MoveRow(tables: Tables, id: RowId, row: Row): Result<Tables>
    requires id in tables
  {
    var newId := RowId(id.table, KeyOf(id.table, row));
    if newId != id && newId in tables then Err(DuplicateKey)
    else Ok((tables - {id})[newId := row])
  }

  function DeleteRow(tables: Tables, table: TableInfo, key: Key): Result<Tables> {
    if key.Keys != table.PrimarySet() then Err(NotThePrimaryKey)
    else Ok(tables - {RowId(table, key)})
  }

  /** The statement of one operation, without its undo record. */
  function Execute(tables: Tables, op: Operation): Result<Tables> {
    if !op.opType.Delete? && !(op.data.Keys <= op.table.columns) then Err(UnknownColumn)
    else if !op.opType.Insert? && "" in op.primaryKey then Err(NoPrimaryKey)
    else match op.opType
      case Insert => InsertRow(tables, op.table, op.data)
      case Upsert => UpsertRow(tables, op.table, op.primaryKey, op.data)
      case Update => UpdateRow(tables, op.table, op.primaryKey, op.data)
      case Delete => DeleteRow(tables, op.table, op.primaryKey)
  }

  function ExecuteAll(tables: Tables, ops: seq<Operation>): Result<Tables>
    decreases |ops|
  {
    if ops == [] then Ok(tables)
    else match Execute(tables, ops[0])
      case Err(e) => Err(e)
      case Ok(next) => ExecuteAll(next, ops[1..])
  }

  // ----- undo history -----

  datatype RecordKind = InsertedRow | UpdatedRow | DeletedRow

  datatype Record = Record(kind: RecordKind, id: RowId, prev: Option<Row>, block: nat)

  /** The undo records that precede the statement of a reversible operation. */
  function Save(tables: Tables, op: Operation): seq<Record> {
    match op.reversible
    case None => []
    case Some(block) =>
      var id := op.Id();
      match op.opType
      case Insert => [Record(InsertedRow, id, None, block)]
      case Upsert =>
        if id in tables then [Record(UpdatedRow, id, Some(tables[id]), block)]
        else [Record(InsertedRow, id, None, block)]
      case Update => if id in tables then [Record(UpdatedRow, id, Some(tables[id]), block)] else []
      case Delete => if id in tables then [Record(DeletedRow, id, Some(tables[id]), block)] else []
  }

  /** The undo records of a whole batch, in the order in which they are written. */
  function SaveAll(tables: Tables, ops: seq<Operation>): seq<Record>
    decreases |ops|
  {
    if ops == [] then []
    else match Execute(tables, ops[0])
      case Err(_) => []
      case Ok(next) => Save(tables, ops[0]) + SaveAll(next, ops[1..])
  }

  /** The statement by which `revertOp` takes one record back. */
  function RevertRecord(tables: Tables, record: Record): Result<Tables> {
    match record.kind
    case InsertedRow => Ok(tables - {record.id})
    case UpdatedRow =>
      if record.id !in tables then Ok(tables)
      else MoveRow(tables, record.id, if record.prev.Some? then record.prev.value else map[])
    case DeletedRow => InsertRow(tables, record.id.table, if record.prev.Some? then record.prev.value else map[])
  }

  function RevertRecords(tables: Tables, records: seq<Record>): Result<Tables>
    decreases |records|
  {
    if records == [] then Ok(tables)
    else match RevertRecord(tables, records[0])
      case Err(e) => Err(e)
      case Ok(next) => RevertRecords(next, records[1..])
  }

  /** The records above a block, in table order. */
  function Above(history: seq<Record>, block: nat): seq<Record> {
    if history == [] then []
    else (if history[0].block > block then [history[0]] else []) + Above(history[1..], block)
  }

  /** The records at or below a block, in table order. */
  function UpTo(history: seq<Record>, block: nat): seq<Record> {
    if history == [] then []
    else (if history[0].block <= block then [history[0]] else []) + UpTo(history[1..], block)
  }

  // ----- transactions -----

  /** The cursor written for a module: blank until the first flush. */
  datatype Cursor = Blank | At(block: nat)

  datatype Db = Db(tables: Tables, history: seq<Record>, cursor: Option<Cursor>)

  /** What a flush transaction leaves when it commits. */
  function FlushTransaction(db: Db, ops: seq<Operation>, cursor: Cursor, finalBlock: nat): Result<Db> {
    match ExecuteAll(db.tables, ops)
    case Err(e) => Err(e)
    case Ok(tables) =>
      if db.cursor.None? then Err(CursorNotFound)
      else Ok(Db(tables, Above(db.history + SaveAll(db.tables, ops), finalBlock), Some(cursor)))
  }

  /** `order` answers the query for the records above `lastValid`: each of them once, higher blocks first. */
  ghost predicate QueryAnswer(history: seq<Record>, lastValid: nat, order: seq<Record>) {
    && multiset(order) == multiset(Above(history, lastValid))
    && forall i, j :: 0 <= i < j < |order| ==> order[i].block >= order[j].block
  }

  /** What a revert transaction leaves when it commits, for one answer of its query. */
  function RevertTransaction(db: Db, order: seq<Record>, lastValid: nat, cursor: Cursor): Result<Db> {
    match RevertRecords(db.tables, order)
    case Err(e) => Err(e)
    case Ok(tables) =>
      if db.cursor.None? then Err(CursorNotFound)
      else Ok(Db(tables, UpTo(db.history, lastValid), Some(cursor)))
  }
}
