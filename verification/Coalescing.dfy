/**
 The rules by which the loader folds a stream of row changes into at most one pending operation per row, as a
 function on states. `Loader.dfy` is the mutable object that follows these rules.
 */
module Coalescing {
  import opened Prelude
  import opened Database
  import opened RowUniqueId

  datatype Slot = Slot(table: string, uniqueId: string)

  type Schema = map<string, TableInfo>

  ghost predicate ValidSchema(schema: Schema) {
    forall n :: n in schema ==> schema[n].name == n && schema[n].Valid()
  }

  /** One call of `Insert`, `Upsert`, `Update` or `Delete`. */
  datatype Change = Change(table: string, opType: OperationType, key: Key, data: Row, reversible: Option<nat>)

  datatype LoaderState = LoaderState(pending: map<Slot, Operation>, nextOrdinal: nat)

  const EmptyState := LoaderState(map[], 0)

  ghost function SlotOf(id: RowId): Slot {
    Slot(id.table.name, UniqueId(id.key))
  }

  function WithKey(table: TableInfo, key: Key, data: Row): Row {
    data + map c | c in table.PrimarySet() && c in key :: key[c]
  }

  /** The operation filed for a row that has none pending. */
  function FreshOperation(table: TableInfo, c: Change, ordinal: nat): Operation {
    var data := match c.opType
      case Insert => WithKey(table, c.key, c.data)
      case Upsert => WithKey(table, c.key, c.data)
      case Update => c.data
      case Delete => map[];
    Operation(table, c.opType, c.key, data, ordinal, c.reversible)
  }

  function AlreadyPending(opType: OperationType): Failure {
    match opType
    case Insert => PendingInsert
    case Upsert => PendingUpsert
    case Update => PendingUpdate
    case Delete => PendingDelete
  }

  /** What becomes of a pending operation when another change of its row arrives; `alone` is that change alone. */
  function Combine(pending: Operation, alone: Operation, data: Row): Result<Operation> {
    var merged := pending.(data := pending.data + data);
    match alone.opType
    case Insert => Err(AlreadyPending(pending.opType))
    case Upsert =>
      if pending.opType.Insert? || pending.opType.Delete? then Err(AlreadyPending(pending.opType))
      else Ok(merged.(opType := Upsert))
    case Update => if pending.opType.Delete? then Err(PendingDelete) else Ok(merged)
    case Delete => Ok(alone)
  }

  ghost function Accept(schema: Schema, state: LoaderState, c: Change): Result<LoaderState> {
    if c.table !in schema then Err(UnknownTable)
    else if !c.opType.Insert? && schema[c.table].primaryColumns == [] then Err(NoPrimaryKey)
    else
      var slot := Slot(c.table, UniqueId(c.key));
      var alone := FreshOperation(schema[c.table], c, state.nextOrdinal);
      if slot in state.pending then
        match Combine(state.pending[slot], alone, c.data)
        case Err(e) => Err(e)
        case Ok(op) =>
          Ok(LoaderState(state.pending[slot := op],
                         if c.opType.Delete? then state.nextOrdinal + 1 else state.nextOrdinal))
      else
        Ok(LoaderState(state.pending[slot := alone], state.nextOrdinal + 1))
  }

  ghost function AcceptAll(schema: Schema, state: LoaderState, changes: seq<Change>): Result<LoaderState>
    decreases |changes|
  {
    if changes == [] then Ok(state)
    else match Accept(schema, state, changes[0])
      case Err(e) => Err(e)
      case Ok(next) => AcceptAll(schema, next, changes[1..])
  }

  // ----- invariant of every reachable state -----

  ghost predicate Filed(schema: Schema, slot: Slot, op: Operation, nextOrdinal: nat) {
    && slot.table in schema && op.table == schema[slot.table]
    && slot.uniqueId == UniqueId(op.primaryKey)
    && op.ordinal < nextOrdinal
  }

  /** Each operation is filed under its own row; ordinals are distinct and were all handed out in this batch. */
  ghost predicate Consistent(schema: Schema, state: LoaderState) {
    && (forall s :: s in state.pending ==> Filed(schema, s, state.pending[s], state.nextOrdinal))
    && (forall s, t :: s in state.pending && t in state.pending && s != t ==>
          state.pending[s].ordinal != state.pending[t].ordinal)
  }

  /** Whatever sequence of changes has been accepted, the pending operations are consistent. */
  lemma {:induction false} AcceptAllKeepsConsistent(schema: Schema, state: LoaderState, changes: seq<Change>)
    requires ValidSchema(schema) && Consistent(schema, state)
    requires AcceptAll(schema, state, changes).Ok?
    ensures Consistent(schema, AcceptAll(schema, state, changes).value)
    decreases |changes|
  {
    if changes != [] {
      AcceptKeepsConsistent(schema, state, changes[0]);
      AcceptAllKeepsConsistent(schema, Accept(schema, state, changes[0]).value, changes[1..]);
    }
  }

  lemma AcceptKeepsConsistent(schema: Schema, state: LoaderState, c: Change)
    requires Consistent(schema, state) && Accept(schema, state, c).Ok?
    ensures Consistent(schema, Accept(schema, state, c).value)
  {
    var next := Accept(schema, state, c).value;
    var slot := Slot(c.table, UniqueId(c.key));
    var op := next.pending[slot];
    assert next.pending == state.pending[slot := op];
    if slot in state.pending {
      assert Filed(schema, slot, state.pending[slot], state.nextOrdinal);
    }
    assert Filed(schema, slot, op, next.nextOrdinal);
    assert op.ordinal == state.nextOrdinal || (slot in state.pending && op.ordinal == state.pending[slot].ordinal);
    forall s | s in next.pending && s != slot
      ensures Filed(schema, s, next.pending[s], next.nextOrdinal) && next.pending[s].ordinal != op.ordinal
    {
      assert Filed(schema, s, state.pending[s], state.nextOrdinal);
    }
  }

  /**
   A change that names its row by the table's whole primary key, through a key the loader can tell apart, and does
   not give another value to a key column.
   */
  ghost predicate KeepsKey(schema: Schema, c: Change) {
    && c.table in schema
    && c.key.Keys == schema[c.table].PrimarySet()
    && Separable(c.key)
    && forall col :: col in c.data && col in c.key ==> c.data[col] == c.key[col]
  }

  /** `ops` lists every pending operation exactly once. */
  ghost predicate Lists(ops: seq<Operation>, pending: map<Slot, Operation>) {
    && (forall op :: op in ops ==> SlotOf(op.Id()) in pending && pending[SlotOf(op.Id())] == op)
    && (forall s :: s in pending ==> pending[s] in ops)
    && (forall i, j :: 0 <= i < j < |ops| ==> SlotOf(ops[i].Id()) != SlotOf(ops[j].Id()))
  }
}
