/** The loader of `db_changes/db`: pending operations filed by table and row, and the transaction that flushes them. */
module Loading {
  import opened Prelude
  import opened Database
  import opened RowUniqueId
  import opened Coalescing
  import opened OrderedMaps
  import opened RetriedFlush

  /** A pending operation, merged in place. */
  class PendingOperation {
    const table: TableInfo
    const primaryKey: Key
    const ordinal: nat
    const reversible: Option<nat>
    var opType: OperationType
    var data: Row

    constructor (op: Operation)
      ensures Value() == op
    {
      table, primaryKey, ordinal, reversible := op.table, op.primaryKey, op.ordinal, op.reversible;
      opType, data := op.opType, op.data;
    }

    function Value(): Operation
      reads this
    {
      Operation(table, opType, primaryKey, data, ordinal, reversible)
    }

    /** `mergeData`: every new column is written over the pending ones, in any order; a delete takes none. */
    method MergeOperation(newData: Row)
      modifies this`data
      ensures data == if opType.Delete? then old(data) else old(data) + newData
    {
      if opType.Delete? {
        return;
      }
      ghost var before := data;
      var todo := newData.Keys;
      while todo != {}
        invariant todo <= newData.Keys
        invariant data.Keys == before.Keys + (newData.Keys - todo)
        invariant forall k :: k in data ==>
                    data[k] == if k in newData && k !in todo then newData[k] else before[k]
        decreases todo
      {
        var k :| k in todo;
        data := data[k := newData[k]];
        todo := todo - {k};
      }
      assert data == before + newData;
    }
  }

  // ----- the outcomes of a change, for the methods below -----

  lemma FiledFresh(schema: Schema, before: LoaderState, c: Change)
    requires c.table in schema && (c.opType.Insert? || schema[c.table].primaryColumns != [])
    requires Slot(c.table, UniqueId(c.key)) !in before.pending || c.opType.Delete?
    ensures Accept(schema, before, c) == Ok(LoaderState(
              before.pending[Slot(c.table, UniqueId(c.key)) := FreshOperation(schema[c.table], c, before.nextOrdinal)],
              before.nextOrdinal + 1))
  {
  }

  lemma Refused(schema: Schema, before: LoaderState, c: Change, e: Failure)
    requires c.table in schema && (c.opType.Insert? || schema[c.table].primaryColumns != [])
    requires Slot(c.table, UniqueId(c.key)) in before.pending && !c.opType.Delete?
    requires var held := before.pending[Slot(c.table, UniqueId(c.key))].opType;
             && e == AlreadyPending(held)
             && (c.opType.Insert? || held.Delete? || (held.Insert? && c.opType.Upsert?))
    ensures Accept(schema, before, c) == Err(e)
  {
  }

  lemma MergedInto(schema: Schema, before: LoaderState, c: Change)
    requires c.table in schema && schema[c.table].primaryColumns != []
    requires Slot(c.table, UniqueId(c.key)) in before.pending
    requires var held := before.pending[Slot(c.table, UniqueId(c.key))].opType;
             (c.opType.Upsert? && !held.Insert? && !held.Delete?) || (c.opType.Update? && !held.Delete?)
    ensures var slot := Slot(c.table, UniqueId(c.key));
            var held := before.pending[slot];
            Accept(schema, before, c) == Ok(LoaderState(
              before.pending[slot := held.(opType := if c.opType.Upsert? then Upsert else held.opType,
                                           data := held.data + c.data)],
              before.nextOrdinal))
  {
  }

  type Entries = OrderedMap<string, OrderedMap<string, PendingOperation>>

  /** The object filed under a table and a unique id. */
  function FiledAt(entries: Entries, s: Slot): Option<PendingOperation> {
    if s.table in entries.values then entries.values[s.table].Get(s.uniqueId) else None
  }

  lemma AtAfterSet(entries: Entries, t: string, u: string, op: PendingOperation)
    requires t in entries.values
    ensures forall s :: FiledAt(entries.Set(t, entries.values[t].Set(u, op)), s) ==
                        if s == Slot(t, u) then Some(op) else FiledAt(entries, s)
  {
  }

  lemma ResetOne(entries: Entries, i: nat)
    requires WellOrdered(entries) && i < |entries.keys|
    requires forall s: Slot :: s.table in entries.keys[..i] ==> FiledAt(entries, s) == None
    ensures var next := entries.Set(entries.keys[i], EmptyMap());
            && WellOrdered(next) && next.keys == entries.keys
            && forall s: Slot :: s.table in next.keys[..i + 1] ==> FiledAt(next, s) == None
  {
    assert entries.keys[..i + 1] == entries.keys[..i] + [entries.keys[i]];
  }

  lemma AtAfterNewTable(entries: Entries, t: string)
    requires t !in entries.values
    ensures forall s :: FiledAt(entries.Set(t, EmptyMap()), s) == FiledAt(entries, s)
  {
  }

  ghost predicate WellOrdered(entries: Entries) {
    entries.Valid() && forall t :: t in entries.values ==> entries.values[t].Valid()
  }

  /** Each pending slot has an object of its own, whose fields are the pending operation. */
  ghost predicate HeldBy(entries: Entries, pending: map<Slot, Operation>, repr: set<object>)
    reads repr
  {
    && (forall s :: s in pending <==> FiledAt(entries, s).Some?)
    && (forall s :: s in pending ==>
          FiledAt(entries, s).value in repr && FiledAt(entries, s).value.Value() == pending[s])
    && (forall s, t :: s in pending && t in pending && s != t ==>
          FiledAt(entries, s).value != FiledAt(entries, t).value)
  }

  /** What is done about a database whose only cursors are those of other modules. */
  datatype MismatchMode = Ignore | Warn | Refuse

  function BlockNum(c: Cursor): nat {
    if c.At? then c.block else 0
  }

  /** One of the cursors, with none at a higher block; a blank cursor is at block 0. */
  predicate IsHighest(cursors: map<string, Cursor>, c: Cursor) {
    c in cursors.Values && forall h :: h in cursors && cursors[h].At? && cursors[h].block > 0 ==>
                                        c.At? && cursors[h].block <= c.block
  }

  /** `cursorAtHighestBlock`; of several at the same block, whichever the map yields first. */
  method CursorAtHighestBlock(cursors: map<string, Cursor>) returns (highest: Cursor)
    requires cursors != map[]
    ensures IsHighest(cursors, highest)
  {
    var hash :| hash in cursors;
    highest := cursors[hash];
    var rest := cursors.Keys - {hash};
    while rest != {}
      invariant rest <= cursors.Keys && highest in cursors.Values
      invariant forall h :: h in cursors && h !in rest ==> BlockNum(cursors[h]) <= BlockNum(highest)
      decreases |rest|
    {
      hash :| hash in rest;
      if BlockNum(cursors[hash]) > BlockNum(highest) {
        highest := cursors[hash];
      }
      rest := rest - {hash};
    }
  }

  class Loader {
    const tables: Schema
    const batchRowFlushInterval: int
    const moduleMismatchMode: MismatchMode
    var entries: Entries
    var batchOrdinal: nat
    ghost var pending: map<Slot, Operation>
    ghost var Repr: set<object>

    ghost predicate Valid()
      reads this, Repr
    {
      && WellOrdered(entries)
      && HeldBy(entries, pending, Repr)
      && this !in Repr
    }

    ghost function State(): LoaderState
      reads this`pending, this`batchOrdinal
    {
      LoaderState(pending, batchOrdinal)
    }

    constructor (tables: Schema, batchRowFlushInterval: int, moduleMismatchMode: MismatchMode)
      ensures Valid() && fresh(Repr) && State() == EmptyState
      ensures this.tables == tables && this.batchRowFlushInterval == batchRowFlushInterval
      ensures this.moduleMismatchMode == moduleMismatchMode
    {
      this.tables, this.batchRowFlushInterval := tables, batchRowFlushInterval;
      this.moduleMismatchMode := moduleMismatchMode;
      entries, batchOrdinal := EmptyMap(), 0;
      pending, Repr := map[], {};
    }

    method NextBatchOrdinal() returns (ordinal: nat)
      modifies this`batchOrdinal
      ensures ordinal == old(batchOrdinal) && batchOrdinal == old(batchOrdinal) + 1
    {
      ordinal := batchOrdinal;
      batchOrdinal := batchOrdinal + 1;
    }

    /** The entry map of a table, created when the table is seen for the first time. */
    method EntryOf(tableName: string) returns (entry: OrderedMap<string, PendingOperation>)
      requires Valid()
      modifies this`entries
      ensures Valid() && tableName in entries.values && entry == entries.values[tableName]
    {
      if tableName in entries.values {
        entry := entries.values[tableName];
      } else {
        AtAfterNewTable(entries, tableName);
        entry := EmptyMap();
        entries := entries.Set(tableName, entry);
      }
    }

    /** What is pending for a row of a table, whose entry map exists afterwards. */
    method PendingFor(tableName: string, uniqueId: string) returns (op: Option<PendingOperation>)
      requires Valid()
      modifies this`entries
      ensures Valid() && tableName in entries.values && op == FiledAt(entries, Slot(tableName, uniqueId))
      ensures op.Some? ==> op.value in Repr
      ensures op.Some? <==> Slot(tableName, uniqueId) in pending
      ensures op.Some? ==> op.value.Value() == pending[Slot(tableName, uniqueId)]
    {
      var entry := EntryOf(tableName);
      op := if uniqueId in entry.values then Some(entry.values[uniqueId]) else None;
      assert FiledAt(entries, Slot(tableName, uniqueId)) == op;
    }

    /** Files an operation object under its table and unique id. */
    method File(tableName: string, uniqueId: string, op: PendingOperation)
      requires Valid() && tableName in entries.values && op !in Repr && this as object != op
      modifies this`entries, this`pending, this`Repr
      ensures Valid() && Repr == old(Repr) + {op}
      ensures pending == old(pending)[Slot(tableName, uniqueId) := op.Value()]
    {
      AtAfterSet(entries, tableName, uniqueId, op);
      var entry := entries.values[tableName].Set(uniqueId, op);
      entries := entries.Set(tableName, entry);
      pending := pending[Slot(tableName, uniqueId) := op.Value()];
      Repr := Repr + {op};
    }

    /** Files the operation of a change whose row has nothing pending, or replaces what is pending. */
    method FileFresh(c: Change, uniqueId: string)
      requires Valid() && c.table in tables && c.table in entries.values
      requires uniqueId == UniqueId(c.key) && (c.opType.Delete? || Slot(c.table, uniqueId) !in pending)
      requires c.opType.Insert? || tables[c.table].primaryColumns != []
      modifies this`entries, this`pending, this`Repr, this`batchOrdinal
      ensures Valid() && fresh(Repr - old(Repr))
      ensures Accept(tables, old(State()), c) == Ok(State())
    {
      FiledFresh(tables, State(), c);
      var ordinal := NextBatchOrdinal();
      var op := new PendingOperation(FreshOperation(tables[c.table], c, ordinal));
      File(c.table, uniqueId, op);
    }

    /** Merges data into the pending operation of a slot, which may become an upsert. */
    method MergeInto(ghost slot: Slot, op: PendingOperation, opType: OperationType, data: Row)
      requires Valid() && slot in pending && FiledAt(entries, slot) == Some(op) && !opType.Delete?
      modifies op, this`pending
      ensures Valid()
      ensures pending ==
              old(pending)[slot := old(pending)[slot].(opType := opType, data := old(pending)[slot].data + data)]
    {
      assert op.Value() == pending[slot];
      op.opType := opType;
      op.MergeOperation(data);
      assert op.Value() == pending[slot].(opType := opType, data := pending[slot].data + data);
      pending := pending[slot := op.Value()];
    }

    /** Merges an update or an upsert into what is pending, when their kinds agree. */
    method MergeChange(c: Change, uniqueId: string, op: PendingOperation) returns (r: Result<()>)
      requires Valid() && c.table in tables && tables[c.table].primaryColumns != []
      requires uniqueId == UniqueId(c.key) && (c.opType.Update? || c.opType.Upsert?)
      requires FiledAt(entries, Slot(c.table, uniqueId)) == Some(op)
      modifies op, this`pending
      ensures Valid()
      ensures Follows(old(State()), c, r)
    {
      assert Slot(c.table, uniqueId) in pending && op.Value() == pending[Slot(c.table, uniqueId)];
      if op.opType.Delete? || (op.opType.Insert? && c.opType.Upsert?) {
        r := Err(AlreadyPending(op.opType));
        Refused(tables, State(), c, r.error);
      } else {
        MergedInto(tables, State(), c);
        MergeInto(Slot(c.table, uniqueId), op, if c.opType.Upsert? then OperationType.Upsert else op.opType, c.data);
        r := Ok(());
      }
    }

    /** The outcome is the one that the rules give. */
    ghost predicate Follows(before: LoaderState, c: Change, r: Result<()>)
      reads this`pending, this`batchOrdinal
    {
      match Accept(tables, before, c)
      case Err(e) => r == Err(e) && State() == before
      case Ok(next) => r == Ok(()) && State() == next
    }

    method Insert(tableName: string, primaryKey: Key, data: Row, reversible: Option<nat>) returns (r: Result<()>)
      requires Valid()
      modifies this, Repr
      ensures Valid() && fresh(Repr - old(Repr))
      ensures Follows(old(State()), Change(tableName, OperationType.Insert, primaryKey, data, reversible), r)
    {
      var c := Change(tableName, OperationType.Insert, primaryKey, data, reversible);
      var uniqueId := CreateRowUniqueID(primaryKey);
      if tableName !in tables {
        return Err(UnknownTable);
      }
      var op := PendingFor(tableName, uniqueId);
      if op.Some? {
        Refused(tables, State(), c, AlreadyPending(op.value.opType));
        return Err(AlreadyPending(op.value.opType));
      }
      FileFresh(c, uniqueId);
      r := Ok(());
    }

    method Upsert(tableName: string, primaryKey: Key, data: Row, reversible: Option<nat>) returns (r: Result<()>)
      requires Valid()
      modifies this, Repr
      ensures Valid() && fresh(Repr - old(Repr))
      ensures Follows(old(State()), Change(tableName, OperationType.Upsert, primaryKey, data, reversible), r)
    {
      r := UpdateOrUpsert(Change(tableName, OperationType.Upsert, primaryKey, data, reversible));
    }

    method Update(tableName: string, primaryKey: Key, data: Row, reversible: Option<nat>) returns (r: Result<()>)
      requires Valid()
      modifies this, Repr
      ensures Valid() && fresh(Repr - old(Repr))
      ensures Follows(old(State()), Change(tableName, OperationType.Update, primaryKey, data, reversible), r)
    {
      r := UpdateOrUpsert(Change(tableName, OperationType.Update, primaryKey, data, reversible));
    }

    /** The common course of `Update` and `Upsert`. */
    method UpdateOrUpsert(c: Change) returns (r: Result<()>)
      requires Valid() && (c.opType.Update? || c.opType.Upsert?)
      modifies this, Repr
      ensures Valid() && fresh(Repr - old(Repr))
      ensures Follows(old(State()), c, r)
    {
      var uniqueId := CreateRowUniqueID(c.key);
      if c.table !in tables {
        return Err(UnknownTable);
      }
      if tables[c.table].primaryColumns == [] {
        return Err(NoPrimaryKey);
      }
      r := MergeOrFile(c, uniqueId);
    }

    /** Once table and key are checked: merges the change into what is pending, or files it. */
    method MergeOrFile(c: Change, uniqueId: string) returns (r: Result<()>)
      requires Valid() && (c.opType.Update? || c.opType.Upsert?) && uniqueId == UniqueId(c.key)
      requires c.table in tables && tables[c.table].primaryColumns != []
      modifies this, Repr
      ensures Valid() && fresh(Repr - old(Repr))
      ensures Follows(old(State()), c, r)
    {
      var op := PendingFor(c.table, uniqueId);
      if op.Some? {
        r := MergeChange(c, uniqueId, op.value);
        return;
      }
      FileFresh(c, uniqueId);
      r := Ok(());
    }

    method Delete(tableName: string, primaryKey: Key, reversible: Option<nat>) returns (r: Result<()>)
      requires Valid()
      modifies this, Repr
      ensures Valid() && fresh(Repr - old(Repr))
      ensures Follows(old(State()), Change(tableName, OperationType.Delete, primaryKey, map[], reversible), r)
    {
      var c := Change(tableName, OperationType.Delete, primaryKey, map[], reversible);
      var uniqueId := CreateRowUniqueID(primaryKey);
      if tableName !in tables {
        return Err(UnknownTable);
      }
      if tables[tableName].primaryColumns == [] {
        return Err(NoPrimaryKey);
      }
      var entry := EntryOf(tableName);
      FileFresh(c, uniqueId);
      r := Ok(());
    }

    /** The pending operations, table by table and row by row, each once. */
    method AllOperations() returns (ops: seq<PendingOperation>, ghost slots: seq<Slot>)
      requires Valid()
      ensures |ops| == |slots| && forall i :: 0 <= i < |ops| ==> FiledAt(entries, slots[i]) == Some(ops[i])
      ensures forall i, j :: 0 <= i < j < |slots| ==> slots[i] != slots[j]
      ensures forall s :: s in pending ==> s in slots
    {
      ops, slots := [], [];
      for i := 0 to |entries.keys|
        invariant Enumerates(entries, ops, slots)
        invariant forall s :: s in slots <==> s.table in entries.keys[..i] && FiledAt(entries, s).Some?
      {
        var table := entries.keys[i];
        var rows := entries.values[table];
        for j := 0 to |rows.keys|
          invariant Enumerates(entries, ops, slots)
          invariant forall s :: s in slots <==>
                      || (s.table in entries.keys[..i] && FiledAt(entries, s).Some?)
                      || (s.table == table && s.uniqueId in rows.keys[..j])
        {
          assert FiledAt(entries, Slot(table, rows.keys[j])) == Some(rows.values[rows.keys[j]]);
          ops, slots := ops + [rows.values[rows.keys[j]]], slots + [Slot(table, rows.keys[j])];
        }
        assert entries.keys[..i + 1] == entries.keys[..i] + [table];
        assert rows.keys[..|rows.keys|] == rows.keys;
      }
      assert entries.keys[..|entries.keys|] == entries.keys;
    }

    /** More rows are pending than a batch may hold. */
    method FlushNeeded() returns (needed: bool)
      requires Valid()
      ensures needed <==> |pending| > batchRowFlushInterval
    {
      var totalRows := 0;
      ghost var slots: seq<Slot> := [];
      for i := 0 to |entries.keys|
        invariant totalRows == |slots|
        invariant forall a, b :: 0 <= a < b < |slots| ==> slots[a] != slots[b]
        invariant forall s :: s in slots <==> s.table in entries.keys[..i] && FiledAt(entries, s).Some?
      {
        var table := entries.keys[i];
        var rows := entries.values[table];
        ghost var added := seq(|rows.keys|, j requires 0 <= j < |rows.keys| => Slot(table, rows.keys[j]));
        totalRows := totalRows + rows.Len();
        slots := RowsJoin(entries, slots, added, i);
      }
      assert entries.keys[..|entries.keys|] == entries.keys;
      DistinctSize(slots, pending.Keys);
      needed := totalRows > batchRowFlushInterval;
    }

    /** `reset`: every table keeps its place, with no rows. */
    method Reset()
      requires Valid()
      modifies this`entries, this`pending, this`batchOrdinal
      ensures Valid() && State() == EmptyState
    {
      for i := 0 to |entries.keys|
        invariant WellOrdered(entries) && entries.keys == old(entries.keys)
        invariant forall s: Slot :: s.table in entries.keys[..i] ==> FiledAt(entries, s) == None
      {
        ResetOne(entries, i);
        entries := entries.Set(entries.keys[i], EmptyMap());
      }
      assert entries.keys[..|entries.keys|] == entries.keys;
      pending := map[];
      batchOrdinal := 0;
    }

    /** The module's cursor, or one of another module's if that is let pass; the query may fail. */
    method GetCursor(server: Server, readable: bool) returns (r: Result<Cursor>, mismatch: bool)
      ensures mismatch <==> readable && server.db.cursor.None? && server.others != map[]
      ensures !readable ==> r == Err(Connection)
      ensures readable && server.db.cursor.Some? ==> r == Ok(server.db.cursor.value)
      ensures readable && server.db.cursor.None? && !mismatch ==> r == Err(CursorNotFound)
      ensures mismatch ==> if moduleMismatchMode.Refuse? then r == Err(ModuleMismatch)
                           else r.Ok? && IsHighest(server.others, r.value)
    {
      if !readable {
        return Err(Connection), false;
      }
      if server.db.cursor.Some? {
        return Ok(server.db.cursor.value), false;
      }
      if server.others == map[] {
        return Err(CursorNotFound), false;
      }
      if moduleMismatchMode.Refuse? {
        return Err(ModuleMismatch), true;
      }
      var highest := CursorAtHighestBlock(server.others);
      r, mismatch := Ok(highest), true;
    }

    /** The transaction of one flush, as it is attempted; the buffer is not touched. */
    method RunFlush(server: Server, cursor: Cursor, lastFinalBlock: nat, attempt: Attempt)
      returns (r: Result<nat>, ghost ops: seq<Operation>)
      requires Valid() && ValidSchema(tables) && Consistent(tables, State())
      requires server !in Repr
      modifies server
      ensures OrdinalListing(ops, pending)
      ensures Outcome(server.db, r.Ok?) == TryFlush(old(server.db), ops, cursor, lastFinalBlock, [attempt])
      ensures r.Err? ==> r.error == match FlushTransaction(old(server.db), ops, cursor, lastFinalBlock) {
                                      case Err(e) => e
                                      case Ok(_) => Connection
                                    }
      ensures r.Ok? ==> r.value == |ops| + 1
    {
      var sorted := PendingInOrder();
      ops := Values(sorted);
      TryOnce(server.db, ops, cursor, lastFinalBlock, attempt);
      var executed := RunTransaction(server.db, sorted, cursor, lastFinalBlock);
      if executed.Err? {
        return Err(executed.error), ops;
      }
      if !attempt.Fails? {
        server.db := executed.value;
      }
      r := if attempt.Commits? then Ok(|sorted| + 1) else Err(Connection);
    }

    /**
     One flush: the pending operations in ordinal order, each preceded by its undo record, then the pruning of the
     history and the cursor, all in one transaction. A failure leaves the buffer as it was.
     */
    method Flush(server: Server, cursor: Cursor, lastFinalBlock: nat, attempt: Attempt)
      returns (r: Result<nat>, ghost ops: seq<Operation>)
      requires Valid() && ValidSchema(tables) && Consistent(tables, State())
      requires server !in Repr
      modifies this, server
      ensures Valid() && Repr == old(Repr)
      ensures OrdinalListing(ops, old(pending))
      ensures Outcome(server.db, r.Ok?) == TryFlush(old(server.db), ops, cursor, lastFinalBlock, [attempt])
      ensures r.Err? ==> r.error == match FlushTransaction(old(server.db), ops, cursor, lastFinalBlock) {
                                      case Err(e) => e
                                      case Ok(_) => Connection
                                    }
      ensures r.Ok? ==> State() == EmptyState && r.value == |ops| + 1
      ensures r.Err? ==> State() == old(State())
    {
      r, ops := RunFlush(server, cursor, lastFinalBlock, attempt);
      if r.Ok? {
        Reset();
      }
    }

    /** What is pending, in the order in which a flush runs it. */
    method PendingInOrder() returns (sorted: seq<PendingOperation>)
      requires Valid() && ValidSchema(tables) && Consistent(tables, State())
      ensures OrdinalListing(Values(sorted), pending)
    {
      var all, slots := AllOperations();
      sorted := SortByOrdinal(all);
      SortedIsOrdinalListing(this, slots, all, sorted);
    }

    /** All that a flush does before it commits: the statements with their records, the pruning and the cursor. */
    method RunTransaction(db: Db, sorted: seq<PendingOperation>, cursor: Cursor, lastFinalBlock: nat)
      returns (r: Result<Db>)
      ensures r == FlushTransaction(db, Values(sorted), cursor, lastFinalBlock)
    {
      var executed := RunStatements(db.tables, sorted);
      if executed.Err? {
        return Err(executed.error);
      }
      var (tables', records) := executed.value;
      if db.cursor.None? {
        return Err(CursorNotFound);
      }
      r := Ok(Db(tables', Above(db.history + records, lastFinalBlock), Some(cursor)));
    }

    /** Takes back the records above a block, in the order in which the query `answered`, in one transaction. */
    method Revert(server: Server, cursor: Cursor, lastValidBlock: nat, answer: seq<Record>, attempt: Attempt)
      returns (r: Result<()>)
      requires QueryAnswer(server.db.history, lastValidBlock, answer)
      modifies server
      ensures match RevertTransaction(old(server.db), answer, lastValidBlock, cursor)
              case Err(e) => r == Err(e) && server.db == old(server.db)
              case Ok(next) =>
                && server.db == (if attempt.Fails? then old(server.db) else next)
                && r == if attempt.Commits? then Ok(()) else Err(Connection)
    {
      var tables := server.db.tables;
      for i := 0 to |answer|
        invariant RevertRecords(server.db.tables, answer) == RevertRecords(tables, answer[i..])
      {
        assert answer[i..][0] == answer[i] && answer[i..][1..] == answer[i + 1..];
        var next := RevertRecord(tables, answer[i]);
        if next.Err? {
          return Err(next.error);
        }
        tables := next.value;
      }
      assert answer[|answer|..] == [];
      if server.db.cursor.None? {
        return Err(CursorNotFound);
      }
      if !attempt.Fails? {
        server.db := Db(tables, UpTo(server.db.history, lastValidBlock), Some(cursor));
      }
      r := if attempt.Commits? then Ok(()) else Err(Connection);
    }

    /** The statements of a flush, run one after the other over the transaction's own view of the tables. */
    method RunStatements(start: Tables, ops: seq<PendingOperation>) returns (r: Result<(Tables, seq<Record>)>)
      ensures match ExecuteAll(start, Values(ops))
              case Err(e) => r == Err(e)
              case Ok(after) => r == Ok((after, SaveAll(start, Values(ops))))
    {
      var tables, records := start, [];
      ghost var values := Values(ops);
      for i := 0 to |ops|
        invariant ExecuteAll(start, values) == ExecuteAll(tables, values[i..])
        invariant SaveAll(start, values) == records + SaveAll(tables, values[i..])
      {
        var op := ops[i].Value();
        NextStatement(tables, values, i);
        var next := Execute(tables, op);
        if next.Err? {
          return Err(next.error);
        }
        assert records + (Save(tables, op) + SaveAll(next.value, values[i + 1..])) ==
               (records + Save(tables, op)) + SaveAll(next.value, values[i + 1..]);
        records := records + Save(tables, op);
        tables := next.value;
      }
      assert values[|ops|..] == [] && records + [] == records;
      r := Ok((tables, records));
    }
  }

  ghost predicate Enumerates(entries: Entries, ops: seq<PendingOperation>, slots: seq<Slot>) {
    && |ops| == |slots|
    && (forall i :: 0 <= i < |ops| ==> FiledAt(entries, slots[i]) == Some(ops[i]))
    && (forall i, j :: 0 <= i < j < |slots| ==> slots[i] != slots[j])
  }

  ghost function RowsJoin(entries: Entries, slots: seq<Slot>, added: seq<Slot>, i: nat): (all: seq<Slot>)
    requires WellOrdered(entries) && i < |entries.keys|
    requires |added| == |entries.values[entries.keys[i]].keys|
    requires forall j :: 0 <= j < |added| ==> added[j] == Slot(entries.keys[i], entries.values[entries.keys[i]].keys[j])
    requires forall a, b :: 0 <= a < b < |slots| ==> slots[a] != slots[b]
    requires forall s :: s in slots <==> s.table in entries.keys[..i] && FiledAt(entries, s).Some?
    ensures all == slots + added
    ensures forall a, b :: 0 <= a < b < |all| ==> all[a] != all[b]
    ensures forall s :: s in all <==> s.table in entries.keys[..i + 1] && FiledAt(entries, s).Some?
  {
    var table := entries.keys[i];
    assert entries.keys[..i + 1] == entries.keys[..i] + [table];
    assert forall s :: s in added <==> s.table == table && FiledAt(entries, s).Some? by {
      forall s: Slot | s.table == table && FiledAt(entries, s).Some? ensures s in added {
        var j :| 0 <= j < |added| && entries.values[table].keys[j] == s.uniqueId;
        assert added[j] == s;
      }
    }
    slots + added
  }

  lemma {:induction false} DistinctSize<T>(s: seq<T>, all: set<T>)
    requires forall i, j :: 0 <= i < j < |s| ==> s[i] != s[j]
    requires forall x :: x in s <==> x in all
    ensures |s| == |all|
  {
    if s == [] {
      assert all == {};
    } else {
      assert s[0] in all;
      DistinctSize(s[1..], all - {s[0]});
    }
  }

  ghost predicate DistinctAscending(ops: seq<PendingOperation>) {
    && (forall i, j :: 0 <= i < j < |ops| ==> ops[i] != ops[j])
    && forall i, j :: 0 <= i < j < |ops| ==> ops[i].ordinal <= ops[j].ordinal
  }

  lemma PlaceAscending(sorted: seq<PendingOperation>, op: PendingOperation, at: nat)
    requires DistinctAscending(sorted) && op !in sorted && at <= |sorted|
    requires forall a :: 0 <= a < at ==> sorted[a].ordinal <= op.ordinal
    requires at < |sorted| ==> op.ordinal < sorted[at].ordinal
    ensures DistinctAscending(sorted[..at] + [op] + sorted[at..])
    ensures forall o :: o in sorted[..at] + [op] + sorted[at..] <==> o in sorted || o == op
  {
    assert sorted == sorted[..at] + sorted[at..];
    forall a | at <= a < |sorted| ensures op.ordinal < sorted[a].ordinal {
      assert sorted[at].ordinal <= sorted[a].ordinal;
    }
  }

  /** `slices.SortFunc` on distinct operations by ordinal. */
  method SortByOrdinal(ops: seq<PendingOperation>) returns (sorted: seq<PendingOperation>)
    requires forall i, j :: 0 <= i < j < |ops| ==> ops[i] != ops[j]
    ensures DistinctAscending(sorted)
    ensures |sorted| == |ops| && forall op :: op in sorted <==> op in ops
  {
    sorted := [];
    for i := 0 to |ops|
      invariant |sorted| == i && DistinctAscending(sorted)
      invariant forall op :: op in sorted <==> op in ops[..i]
    {
      var at := 0;
      while at < |sorted| && sorted[at].ordinal <= ops[i].ordinal
        invariant 0 <= at <= |sorted|
        invariant forall a :: 0 <= a < at ==> sorted[a].ordinal <= ops[i].ordinal
      {
        at := at + 1;
      }
      PlaceAscending(sorted, ops[i], at);
      sorted := sorted[..at] + [ops[i]] + sorted[at..];
      assert ops[..i + 1] == ops[..i] + [ops[i]];
    }
    assert ops[..|ops|] == ops;
  }

  ghost function Values(ops: seq<PendingOperation>): (values: seq<Operation>)
    reads ops
    ensures |values| == |ops| && forall i :: 0 <= i < |ops| ==> values[i] == ops[i].Value()
  {
    seq(|ops|, i requires 0 <= i < |ops| reads ops => ops[i].Value())
  }

  lemma NextStatement(tables: Tables, ops: seq<Operation>, i: nat)
    requires i < |ops|
    ensures Execute(tables, ops[i]).Err? ==> ExecuteAll(tables, ops[i..]) == Err(Execute(tables, ops[i]).error)
    ensures Execute(tables, ops[i]).Ok? ==>
              var next := Execute(tables, ops[i]).value;
              && ExecuteAll(tables, ops[i..]) == ExecuteAll(next, ops[i + 1..])
              && SaveAll(tables, ops[i..]) == Save(tables, ops[i]) + SaveAll(next, ops[i + 1..])
  {
    assert ops[i..][0] == ops[i] && ops[i..][1..] == ops[i + 1..];
  }

  lemma TryOnce(db: Db, ops: seq<Operation>, cursor: Cursor, finalBlock: nat, attempt: Attempt)
    ensures TryFlush(db, ops, cursor, finalBlock, [attempt]) ==
            match FlushTransaction(db, ops, cursor, finalBlock)
            case Err(_) => Outcome(db, false)
            case Ok(next) => Outcome(if attempt.Fails? then db else next, attempt.Commits?)
  {
    assert [attempt][1..] == [];
  }

  /** The pending operations, each once, in strictly increasing ordinal. */
  ghost predicate OrdinalListing(ops: seq<Operation>, pending: map<Slot, Operation>) {
    && Lists(ops, pending)
    && forall i, j :: 0 <= i < j < |ops| ==> ops[i].ordinal < ops[j].ordinal
  }

  /** Where an object that is enumerated is filed. */
  lemma SlotOfObject(l: Loader, slots: seq<Slot>, ops: seq<PendingOperation>, op: PendingOperation) returns (s: Slot)
    requires l.Valid() && ValidSchema(l.tables) && Consistent(l.tables, l.State())
    requires Enumerates(l.entries, ops, slots) && op in ops
    ensures s in l.pending && FiledAt(l.entries, s) == Some(op)
    ensures op.Value() == l.pending[s] && SlotOf(op.Value().Id()) == s
  {
    var i :| 0 <= i < |ops| && ops[i] == op;
    s := slots[i];
    assert Filed(l.tables, s, l.pending[s], l.batchOrdinal);
  }

  lemma SortedIsOrdinalListing(l: Loader, slots: seq<Slot>, ops: seq<PendingOperation>, sorted: seq<PendingOperation>)
    requires l.Valid() && ValidSchema(l.tables) && Consistent(l.tables, l.State())
    requires Enumerates(l.entries, ops, slots) && forall s :: s in l.pending ==> s in slots
    requires DistinctAscending(sorted) && forall op :: op in sorted <==> op in ops
    ensures OrdinalListing(Values(sorted), l.pending)
  {
    var values := Values(sorted);
    forall i, j | 0 <= i < j < |values| ensures InOrdinalOrder(values[i], values[j]) {
      SortedPair(l, slots, ops, sorted, i, j);
    }
    forall v | v in values ensures PendingAs(l.pending, v) {
      SortedIsPending(l, slots, ops, sorted, v);
    }
    forall s | s in l.pending ensures l.pending[s] in values {
      SortedCovers(l, slots, ops, sorted, s);
    }
    ListingOfParts(values, l.pending);
  }

  lemma ListingOfParts(values: seq<Operation>, pending: map<Slot, Operation>)
    requires forall i, j :: 0 <= i < j < |values| ==> InOrdinalOrder(values[i], values[j])
    requires (forall v :: v in values ==> PendingAs(pending, v)) && forall s :: s in pending ==> pending[s] in values
    ensures OrdinalListing(values, pending)
  {
    forall i, j | 0 <= i < j < |values|
      ensures SlotOf(values[i].Id()) != SlotOf(values[j].Id()) && values[i].ordinal < values[j].ordinal
    {
      assert InOrdinalOrder(values[i], values[j]);
    }
  }

  ghost predicate InOrdinalOrder(a: Operation, b: Operation) {
    SlotOf(a.Id()) != SlotOf(b.Id()) && a.ordinal < b.ordinal
  }

  ghost predicate PendingAs(pending: map<Slot, Operation>, op: Operation) {
    SlotOf(op.Id()) in pending && pending[SlotOf(op.Id())] == op
  }

  lemma SortedIsPending(
    l: Loader, slots: seq<Slot>, ops: seq<PendingOperation>, sorted: seq<PendingOperation>, v: Operation)
    requires l.Valid() && ValidSchema(l.tables) && Consistent(l.tables, l.State())
    requires Enumerates(l.entries, ops, slots) && v in Values(sorted)
    requires forall op :: op in sorted <==> op in ops
    ensures PendingAs(l.pending, v)
  {
    var i :| 0 <= i < |sorted| && Values(sorted)[i] == v;
    assert sorted[i] in ops;
    var s := SlotOfObject(l, slots, ops, sorted[i]);
  }

  lemma SortedPair(
    l: Loader, slots: seq<Slot>, ops: seq<PendingOperation>, sorted: seq<PendingOperation>, i: nat, j: nat)
    requires l.Valid() && ValidSchema(l.tables) && Consistent(l.tables, l.State())
    requires Enumerates(l.entries, ops, slots) && i < j < |sorted|
    requires DistinctAscending(sorted) && forall op :: op in sorted <==> op in ops
    ensures InOrdinalOrder(Values(sorted)[i], Values(sorted)[j])
  {
    var s := SlotOfObject(l, slots, ops, sorted[i]);
    var t := SlotOfObject(l, slots, ops, sorted[j]);
    assert s != t;
  }

  lemma SortedCovers(l: Loader, slots: seq<Slot>, ops: seq<PendingOperation>, sorted: seq<PendingOperation>, s: Slot)
    requires l.Valid() && s in l.pending && s in slots
    requires Enumerates(l.entries, ops, slots)
    requires forall op :: op in sorted <==> op in ops
    ensures l.pending[s] in Values(sorted)
  {
    var i :| 0 <= i < |slots| && slots[i] == s;
    assert ops[i] in sorted;
    var j :| 0 <= j < |sorted| && sorted[j] == ops[i];
    assert Values(sorted)[j] == l.pending[s];
  }

  /** Two listings in ordinal order are the same sequence. */
  lemma OrdinalListingIsUnique(a: seq<Operation>, b: seq<Operation>, pending: map<Slot, Operation>)
    requires OrdinalListing(a, pending) && OrdinalListing(b, pending)
    ensures a == b
  {
    forall op ensures op in a <==> op in b {
      assert op in a ==> SlotOf(op.Id()) in pending && pending[SlotOf(op.Id())] == op;
      assert op in b ==> SlotOf(op.Id()) in pending && pending[SlotOf(op.Id())] == op;
    }
    AscendingIsUnique(a, b);
  }

  lemma {:induction false} AscendingIsUnique(a: seq<Operation>, b: seq<Operation>)
    requires forall i, j :: 0 <= i < j < |a| ==> a[i].ordinal < a[j].ordinal
    requires forall i, j :: 0 <= i < j < |b| ==> b[i].ordinal < b[j].ordinal
    requires forall op :: op in a <==> op in b
    ensures a == b
  {
    assert a != [] ==> a[0] in b;
    assert b != [] ==> b[0] in a;
    if a != [] {
      var i :| 0 <= i < |a| && a[i] == b[0];
      var j :| 0 <= j < |b| && b[j] == a[0];
      assert a[0] == b[0];
      forall op ensures op in a[1..] <==> op in b[1..] {
        assert op in a[1..] ==> op in b && op.ordinal > a[0].ordinal;
        assert op in b[1..] ==> op in a && op.ordinal > b[0].ordinal;
      }
      AscendingIsUnique(a[1..], b[1..]);
      assert a == [a[0]] + a[1..] && b == [b[0]] + b[1..];
    }
  }

  /** The database server: what is committed, and beside the module's own cursor those of other modules by hash. */
  class Server {
    var db: Db
    const others: map<string, Cursor>

    constructor (db: Db, others: map<string, Cursor>)
      ensures this.db == db && this.others == others
    {
      this.db, this.others := db, others;
    }
  }
}
