/** What is known of the pending operations of a batch: their keys, their rows and the marks that they bear. */
module PendingMarks {
  import opened Prelude
  import opened Database
  import opened RowUniqueId
  import opened Coalescing
  import opened RowEffects
  import opened FlushRefinement
  import opened Blocks

  /** The operation's mark came with a change of its row. */
  ghost predicate MarkedBy(schema: Schema, op: Operation, seen: seq<Change>) {
    exists c :: c in seen && NamedBy(schema, c, op.Id()) && c.reversible == op.reversible
  }

  ghost predicate TracedOperation(schema: Schema, op: Operation, seen: seq<Change>) {
    KeyAgrees(op) && Separable(op.primaryKey) && MarkedBy(schema, op, seen)
  }

  /** Pending operations agree with their keys, bear marks of changes of their rows, and cover every row named. */
  ghost predicate Traced(schema: Schema, state: LoaderState, seen: seq<Change>) {
    && (forall s :: s in state.pending ==> TracedOperation(schema, state.pending[s], seen))
    && forall c :: c in seen ==> c.table in schema && PendingFor(state, RowId(schema[c.table], c.key))
  }

  lemma FreshAgrees(table: TableInfo, c: Change, ordinal: nat)
    requires table.Valid() && c.key.Keys == table.PrimarySet()
    requires forall col :: col in c.data && col in c.key ==> c.data[col] == c.key[col]
    ensures KeyAgrees(FreshOperation(table, c, ordinal))
  {
  }

  lemma CombineAgrees(held: Operation, alone: Operation, c: Change)
    requires KeyAgrees(held) && KeyAgrees(alone) && held.Id() == alone.Id()
    requires alone.reversible == c.reversible && alone.primaryKey == c.key
    requires forall col :: col in c.data && col in c.key ==> c.data[col] == c.key[col]
    requires Combine(held, alone, c.data).Ok?
    ensures KeyAgrees(Combine(held, alone, c.data).value)
    ensures Combine(held, alone, c.data).value.reversible in {held.reversible, c.reversible}
    ensures Combine(held, alone, c.data).value.Id() == held.Id()
  {
  }

  /** The operation that a change leaves pending, for the change's own row. */
  lemma AcceptMarks(schema: Schema, state: LoaderState, c: Change, seen: seq<Change>)
    requires ValidSchema(schema) && Consistent(schema, state) && Traced(schema, state, seen)
    requires KeepsKey(schema, c) && Accept(schema, state, c).Ok?
    ensures var id := RowId(schema[c.table], c.key);
            var op := Accept(schema, state, c).value.pending[SlotOf(id)];
            op.Id() == id && TracedOperation(schema, op, seen + [c])
  {
    var id := RowId(schema[c.table], c.key);
    var slot := SlotOf(id);
    var alone := FreshOperation(schema[c.table], c, state.nextOrdinal);
    FreshAgrees(schema[c.table], c, state.nextOrdinal);
    assert c in seen + [c] && NamedBy(schema, c, id);
    if slot in state.pending {
      var held := state.pending[slot];
      assert Filed(schema, slot, held, state.nextOrdinal) && TracedOperation(schema, held, seen);
      UniqueIdIsInjective(held.primaryKey, c.key);
      CombineAgrees(held, alone, c);
      var q :| q in seen && NamedBy(schema, q, held.Id()) && q.reversible == held.reversible;
      assert q in seen + [c];
    }
  }

  lemma AcceptKeepsTraced(schema: Schema, state: LoaderState, c: Change, seen: seq<Change>)
    requires ValidSchema(schema) && Consistent(schema, state) && Traced(schema, state, seen)
    requires KeepsKey(schema, c) && Accept(schema, state, c).Ok?
    ensures Traced(schema, Accept(schema, state, c).value, seen + [c])
  {
    var next := Accept(schema, state, c).value;
    AcceptMarks(schema, state, c, seen);
    AcceptTouchesOneSlot(schema, state, c);
    NextIsTraced(schema, state, next, c, seen);
    forall q | q in seen ensures PendingFor(next, RowId(schema[q.table], q.key)) {
      StaysPending(schema, state, c, seen, RowId(schema[q.table], q.key));
    }
  }

  lemma NextIsTraced(schema: Schema, state: LoaderState, next: LoaderState, c: Change, seen: seq<Change>)
    requires Traced(schema, state, seen) && c.table in schema
    requires var slot := SlotOf(RowId(schema[c.table], c.key));
             && slot in next.pending && TracedOperation(schema, next.pending[slot], seen + [c])
             && forall s :: s != slot && s in next.pending ==> s in state.pending && next.pending[s] == state.pending[s]
    ensures forall s :: s in next.pending ==> TracedOperation(schema, next.pending[s], seen + [c])
  {
    forall s | s in next.pending && s != SlotOf(RowId(schema[c.table], c.key))
      ensures TracedOperation(schema, next.pending[s], seen + [c])
    {
      var op := state.pending[s];
      assert TracedOperation(schema, op, seen);
      var q :| q in seen && NamedBy(schema, q, op.Id()) && q.reversible == op.reversible;
      assert q in seen + [c];
    }
  }

  lemma StaysPending(schema: Schema, state: LoaderState, c: Change, seen: seq<Change>, id: RowId)
    requires ValidSchema(schema) && Consistent(schema, state) && Traced(schema, state, seen)
    requires KeepsKey(schema, c) && Accept(schema, state, c).Ok? && PendingFor(state, id)
    ensures PendingFor(Accept(schema, state, c).value, id)
  {
    AcceptMarks(schema, state, c, seen);
    var slot := SlotOf(RowId(schema[c.table], c.key));
    if SlotOf(id) == slot {
      var held := state.pending[slot];
      assert Filed(schema, slot, held, state.nextOrdinal) && TracedOperation(schema, held, seen);
      UniqueIdIsInjective(held.primaryKey, c.key);
    }
  }

  lemma {:induction false} AcceptAllKeepsTraced(
    schema: Schema, state: LoaderState, changes: seq<Change>, seen: seq<Change>)
    requires ValidSchema(schema) && Consistent(schema, state) && Traced(schema, state, seen)
    requires forall c :: c in changes ==> KeepsKey(schema, c)
    requires AcceptAll(schema, state, changes).Ok?
    ensures Traced(schema, AcceptAll(schema, state, changes).value, seen + changes)
    decreases |changes|
  {
    if changes == [] {
      assert seen + changes == seen;
    } else {
      var c, rest := changes[0], changes[1..];
      assert c in changes && changes == [c] + rest;
      AcceptKeepsTraced(schema, state, c, seen);
      AcceptKeepsConsistent(schema, state, c);
      AcceptAllKeepsTraced(schema, Accept(schema, state, c).value, rest, seen + [c]);
      Associative(seen, [c], rest);
    }
  }

  /** The operations are what a batch, loaded into an empty buffer, leaves pending. */
  ghost predicate LoadedAs(schema: Schema, batch: seq<Block>, ops: seq<Operation>) {
    && AllKeepKey(schema, batch)
    && AcceptAll(schema, EmptyState, ChangesOf(batch)).Ok?
    && Lists(ops, AcceptAll(schema, EmptyState, ChangesOf(batch)).value.pending)
  }

  /** Each operation bears the mark of a block of the batch that names its row, and each row named has one. */
  ghost predicate Marked(schema: Schema, batch: seq<Block>, ops: seq<Operation>) {
    && (forall op :: op in ops ==> exists b :: b in batch && Names(schema, b, op.Id()) && op.reversible == Mark(b))
    && forall b, id :: b in batch && Names(schema, b, id) ==> exists op :: op in ops && op.Id() == id
  }

  lemma LoadedIsMarked(schema: Schema, batch: seq<Block>, ops: seq<Operation>)
    requires ValidSchema(schema) && LoadedAs(schema, batch, ops)
    ensures DistinctRows(StepsOf(ops)) && Marked(schema, batch, ops)
    ensures forall op :: op in ops ==> KeyAgrees(op)
  {
    var changes := ChangesOf(batch);
    var state := AcceptAll(schema, EmptyState, changes).value;
    AcceptAllKeepsTraced(schema, EmptyState, changes, []);
    assert [] + changes == changes;
    ListingIsDistinct(ops, state.pending);
    forall op | op in ops ensures exists b :: b in batch && Names(schema, b, op.Id()) && op.reversible == Mark(b) {
      assert TracedOperation(schema, op, changes);
      var c :| c in changes && NamedBy(schema, c, op.Id()) && c.reversible == op.reversible;
      ChangeHasBlock(batch, c);
      var b :| b in batch && c in ChangesOfBlock(b);
      assert Names(schema, b, op.Id()) && c.reversible == Mark(b);
    }
    forall b, id | b in batch && Names(schema, b, id) ensures exists op :: op in ops && op.Id() == id {
      var c :| c in ChangesOfBlock(b) && NamedBy(schema, c, id);
      ChangeHasBlock(batch, c);
      assert c in changes && PendingFor(state, id);
      assert state.pending[SlotOf(id)] in ops;
    }
  }

  lemma LoadedIsKeyed(schema: Schema, batch: seq<Block>, ops: seq<Operation>, tables: Tables)
    requires ValidSchema(schema) && LoadedAs(schema, batch, ops) && ExecuteAll(tables, ops).Ok?
    ensures forall op :: op in ops ==> Keyed(op)
    ensures DistinctRows(StepsOf(ops)) && Marked(schema, batch, ops)
  {
    LoadedIsMarked(schema, batch, ops);
    AllExecutedAreKeyed(tables, ops);
  }
}
