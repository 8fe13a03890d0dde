/**
 An upsert that is merged into a pending update does not get its key columns. When that is right, seen from the state of
 the loader as the upsert arrives.
 */
module UpsertMerging {
  import opened Prelude
  import opened Database
  import opened RowUniqueId
  import opened Coalescing
  import opened RowEffects
  import opened FlushRefinement

  // ----- a condition to look out for while loading -----

  /**
   Along the run, an upsert that arrives while an update of its row is pending is merged without its key columns. That
   is right if the data name them and the row is stored or the upsert rewrites all that the update wrote.
   */
  ghost predicate UpsertsMergeRightly(schema: Schema, before: Tables, state: LoaderState, changes: seq<Change>)
    decreases |changes|
  {
    changes != [] ==>
      && (UpsertsPendingUpdate(state, changes[0]) ==>
            MergesRightly(before, state.pending[Slot(changes[0].table, UniqueId(changes[0].key))], changes[0]))
      && (Accept(schema, state, changes[0]).Ok? ==>
            UpsertsMergeRightly(schema, before, Accept(schema, state, changes[0]).value, changes[1..]))
  }

  ghost predicate UpsertsPendingUpdate(state: LoaderState, c: Change) {
    var slot := Slot(c.table, UniqueId(c.key));
    c.opType.Upsert? && slot in state.pending && state.pending[slot].opType.Update?
  }

  predicate MergesRightly(before: Tables, held: Operation, c: Change) {
    && c.key.Keys <= held.data.Keys + c.data.Keys
    && (held.Id() in before || held.data.Keys <= c.data.Keys + c.key.Keys)
  }

  /** Then the merged effect is the two effects one after the other. */
  lemma CombineComposes(held: Operation, alone: Operation, c: Change, r0: Option<Row>, r1: Option<Row>, r2: Option<Row>)
    requires Meets(held, alone, c) && Keyed(held) && CarriesKey(r0, c.key)
    requires c.opType.Upsert? && held.opType.Update? ==>
               && c.key.Keys <= held.data.Keys + c.data.Keys
               && (r0.Some? || held.data.Keys <= c.data.Keys + c.key.Keys)
    requires Apply(StepOf(held).effect, r0) == Ok(r1)
    requires Apply(StepOf(alone).effect, r1) == Ok(r2)
    ensures Keyed(Combine(held, alone, c.data).value)
    ensures Apply(StepOf(Combine(held, alone, c.data).value).effect, r0) == Ok(r2)
  {
    DoneIsDescribed(held, r0, r1);
    CombineIsFormed(held, alone, c);
    CombineDescribes(held, alone, c, r0, r1, r2);
    MergedIsWhole(held, alone, c, r0, r1, r2);
    DescribedIsDoneIff(Combine(held, alone, c.data).value, r0, r2);
  }

  lemma MergedIsWhole(held: Operation, alone: Operation, c: Change, r0: Option<Row>, r1: Option<Row>, r2: Option<Row>)
    requires Meets(held, alone, c) && Keyed(held)
    requires c.opType.Upsert? && held.opType.Update? ==>
               && c.key.Keys <= held.data.Keys + c.data.Keys
               && (r0.Some? || held.data.Keys <= c.data.Keys + c.key.Keys)
    requires Apply(StepOf(held).effect, r0) == Ok(r1)
    requires Apply(StepOf(alone).effect, r1) == Ok(r2)
    ensures WholeUpsert(Combine(held, alone, c.data).value, r0, r2)
  {
    MergeCases(held, alone, c, r1, r2);
    if c.opType.Upsert? {
      UpsertIsWhole(held, c, r0, r1);
    } else if c.opType.Update? && held.opType.Upsert? && r0.None? {
      assert (held.data + c.data).Keys == held.data.Keys + c.data.Keys;
      assert r1 == Some(map[] + held.data);
    }
  }

  lemma UpsertIsWhole(held: Operation, c: Change, r0: Option<Row>, r1: Option<Row>)
    requires Keyed(held) && c.key == held.primaryKey && (held.opType.Update? || held.opType.Upsert?)
    requires held.opType.Update? ==>
               && c.key.Keys <= held.data.Keys + c.data.Keys
               && (r0.Some? || held.data.Keys <= c.data.Keys + c.key.Keys)
    requires Apply(StepOf(held).effect, r0) == Ok(r1)
    ensures WholeUpsert(held.(opType := Upsert, data := held.data + c.data), r0, Some(Upserted(held, c, r1)))
  {
    WrittenColumns(held.table, c.key, c.data);
    assert (held.data + c.data).Keys == held.data.Keys + c.data.Keys;
    if r0.None? {
      var row: Row := if r1.Some? then r1.value else map[];
      assert Upserted(held, c, r1).Keys == row.Keys + WithKey(held.table, c.key, c.data).Keys;
    }
  }

  lemma WrittenColumns(table: TableInfo, key: Key, data: Row)
    requires key.Keys == table.PrimarySet()
    ensures WithKey(table, key, data).Keys == data.Keys + key.Keys
  {
  }

  ghost predicate AllLead(before: Tables, state: LoaderState, now: Tables) {
    forall s :: s in state.pending ==> Leads(state.pending[s], before, now)
  }

  lemma AcceptKeepsLeading(schema: Schema, before: Tables, state: LoaderState, now: Tables, c: Change)
    requires ValidSchema(schema) && Consistent(schema, state) && KeepsKey(schema, c) && WellKeyed(now)
    requires Agrees(schema, before, state, now) && AllLead(before, state, now) && WellKeyed(before)
    requires UpsertsPendingUpdate(state, c) ==> MergesRightly(before, state.pending[Slot(c.table, UniqueId(c.key))], c)
    requires Accept(schema, state, c).Ok? && ApplyChange(schema, now, c).Ok?
    ensures AllLead(before, Accept(schema, state, c).value, ApplyChange(schema, now, c).value)
  {
    var next, after := Accept(schema, state, c).value, ApplyChange(schema, now, c).value;
    var id := RowId(schema[c.table], c.key);
    AcceptTouchesOneSlot(schema, state, c);
    ApplyIsStep(schema, now, c, state.nextOrdinal);
    if SlotOf(id) in state.pending {
      MergedLeads(schema, before, state, now, c);
    } else {
      assert !PendingFor(state, id);
    }
    forall s | s in next.pending && s != SlotOf(id) ensures Leads(next.pending[s], before, after) {
      OtherLeads(schema, before, state, now, c, after, s);
    }
  }

  lemma OtherLeads(schema: Schema, before: Tables, state: LoaderState, now: Tables, c: Change, after: Tables, s: Slot)
    requires Consistent(schema, state) && AllLead(before, state, now) && c.table in schema
    requires s in state.pending && s != SlotOf(RowId(schema[c.table], c.key)) && ValidSchema(schema)
    requires forall other :: other != RowId(schema[c.table], c.key) ==> Lookup(after, other) == Lookup(now, other)
    ensures Leads(state.pending[s], before, after)
  {
    assert Leads(state.pending[s], before, now) && Filed(schema, s, state.pending[s], state.nextOrdinal);
    assert s == SlotOf(state.pending[s].Id());
  }

  lemma MergedLeads(schema: Schema, before: Tables, state: LoaderState, now: Tables, c: Change)
    requires ValidSchema(schema) && Consistent(schema, state) && KeepsKey(schema, c) && WellKeyed(now)
    requires Agrees(schema, before, state, now) && AllLead(before, state, now) && WellKeyed(before)
    requires UpsertsPendingUpdate(state, c) ==> MergesRightly(before, state.pending[Slot(c.table, UniqueId(c.key))], c)
    requires Accept(schema, state, c).Ok? && ApplyChange(schema, now, c).Ok?
    requires SlotOf(RowId(schema[c.table], c.key)) in state.pending
    ensures Leads(Accept(schema, state, c).value.pending[SlotOf(RowId(schema[c.table], c.key))], before,
                  ApplyChange(schema, now, c).value)
  {
    var id, after := RowId(schema[c.table], c.key), ApplyChange(schema, now, c).value;
    var held, alone := state.pending[SlotOf(id)], FreshOperation(schema[c.table], c, state.nextOrdinal);
    ApplyIsStep(schema, now, c, state.nextOrdinal);
    HeldIsSameRow(schema, before, state, now, c);
    assert Explains(before, held, now) && Leads(held, before, now);
    StoredCarriesKey(before, id);
    CombineIsFormed(held, alone, c);
    CombineComposes(held, alone, c, Lookup(before, id), Lookup(now, id), Lookup(after, id));
  }

  lemma {:induction false} AcceptAllKeepsLeading(
    schema: Schema, before: Tables, state: LoaderState, now: Tables, changes: seq<Change>)
    requires ValidSchema(schema) && Consistent(schema, state) && WellKeyed(now)
    requires forall c :: c in changes ==> KeepsKey(schema, c)
    requires Agrees(schema, before, state, now) && AllLead(before, state, now) && WellKeyed(before)
    requires UpsertsMergeRightly(schema, before, state, changes)
    requires AcceptAll(schema, state, changes).Ok? && ApplyChanges(schema, now, changes).Ok?
    ensures AllLead(before, AcceptAll(schema, state, changes).value, ApplyChanges(schema, now, changes).value)
    decreases |changes|
  {
    if changes != [] {
      var c := changes[0];
      var next, after := Accept(schema, state, c).value, ApplyChange(schema, now, c).value;
      AcceptKeepsLeading(schema, before, state, now, c);
      AcceptKeepsAgreement(schema, before, state, now, c);
      AcceptKeepsConsistent(schema, state, c);
      ApplyIsStep(schema, now, c, 0);
      AcceptAllKeepsLeading(schema, before, next, after, changes[1..]);
    }
  }

  /** If every upsert merges rightly when it arrives, all are whole at the end. */
  lemma MergedRightlyEndsWhole(schema: Schema, tables: Tables, changes: seq<Change>)
    requires ValidSchema(schema) && WellKeyed(tables)
    requires forall c :: c in changes ==> KeepsKey(schema, c)
    requires UpsertsMergeRightly(schema, tables, EmptyState, changes)
    ensures UpsertsEndWhole(schema, tables, changes)
  {
    var state, now := AcceptAll(schema, EmptyState, changes), ApplyChanges(schema, tables, changes);
    if state.Ok? && now.Ok? {
      AcceptAllKeepsLeading(schema, tables, EmptyState, tables, changes);
      AcceptAllKeepsAgreement(schema, tables, EmptyState, tables, changes);
      forall s | s in state.value.pending
        ensures var op := state.value.pending[s];
                WholeUpsert(op, Lookup(tables, op.Id()), Lookup(now.value, op.Id()))
      {
        var op := state.value.pending[s];
        assert Explains(tables, op, now.value) && Leads(op, tables, now.value);
        DescribedIsDoneIff(op, Lookup(tables, op.Id()), Lookup(now.value, op.Id()));
      }
    }
  }

  // ----- an update and then an upsert -----

  function Merged(schema: Schema, first: Change, second: Change): Operation
    requires first.table in schema
  {
    Operation(schema[first.table], Upsert, first.key, first.data + second.data, 0, first.reversible)
  }

  /** Two changes of one row, an update and then an upsert, neither of which rewrites the key. */
  ghost predicate UpdateAndUpsert(schema: Schema, first: Change, second: Change) {
    && ValidSchema(schema) && KeepsKey(schema, first) && KeepsKey(schema, second)
    && first.table == second.table && first.key == second.key
    && first.opType.Update? && second.opType.Upsert?
  }

  /** What the loader holds after an update and then an upsert of one row. */
  lemma UpdateThenUpsertMerges(schema: Schema, first: Change, second: Change)
    requires UpdateAndUpsert(schema, first, second)
    ensures var slot := SlotOf(RowId(schema[first.table], first.key));
            AcceptAll(schema, EmptyState, [first, second]) ==
            Ok(LoaderState(map[slot := Merged(schema, first, second)], 1))
  {
    var slot := SlotOf(RowId(schema[first.table], first.key));
    var state := LoaderState(map[slot := FreshOperation(schema[first.table], first, 0)], 1);
    UpdateIsFiled(schema, first);
    UpsertIsMerged(schema, first, second);
    assert [first, second][1..] == [second] && [second][1..] == [];
    assert AcceptAll(schema, state, [second]) == Accept(schema, state, second);
  }

  lemma UpdateIsFiled(schema: Schema, first: Change)
    requires ValidSchema(schema) && first.table in schema && first.opType.Update?
    ensures var slot := SlotOf(RowId(schema[first.table], first.key));
            Accept(schema, EmptyState, first) ==
            Ok(LoaderState(map[slot := FreshOperation(schema[first.table], first, 0)], 1))
  {
  }

  lemma UpsertIsMerged(schema: Schema, first: Change, second: Change)
    requires UpdateAndUpsert(schema, first, second)
    ensures var slot := SlotOf(RowId(schema[first.table], first.key));
            var state := LoaderState(map[slot := FreshOperation(schema[first.table], first, 0)], 1);
            Accept(schema, state, second) == Ok(LoaderState(map[slot := Merged(schema, first, second)], 1))
  {
    var slot := SlotOf(RowId(schema[first.table], first.key));
    Overwrite(slot, FreshOperation(schema[first.table], first, 0), Merged(schema, first, second));
  }

  lemma Overwrite<K, V>(k: K, a: V, b: V)
    ensures map[k := a][k := b] == map[k := b]
  {
  }

  lemma ApplyTwo(schema: Schema, tables: Tables, first: Change, second: Change)
    ensures ApplyChanges(schema, tables, [first, second]) ==
            match ApplyChange(schema, tables, first)
            case Err(e) => Err(e)
            case Ok(mid) => ApplyChange(schema, mid, second)
  {
    assert [first, second][1..] == [second] && [second][1..] == [];
    match ApplyChange(schema, tables, first)
    case Err(e) =>
    case Ok(mid) => assert ApplyChanges(schema, mid, [second]) == ApplyChange(schema, mid, second);
  }

  /** What an update and then an upsert of one row leave when each is executed at once. */
  lemma UpdateThenUpsertApplied(schema: Schema, tables: Tables, first: Change, second: Change)
    requires UpdateAndUpsert(schema, first, second) && WellKeyed(tables)
    requires ApplyChanges(schema, tables, [first, second]).Ok?
    ensures ApplyChanges(schema, tables, [first, second]) ==
            Ok(Store(tables, RowId(schema[first.table], first.key), Some(AppliedRow(schema, tables, first, second))))
    ensures first.data != map[] && first.data.Keys + second.data.Keys <= schema[first.table].columns
  {
    ApplyTwo(schema, tables, first, second);
    var mid := ApplyChange(schema, tables, first).value;
    ApplyIsStep(schema, tables, first, 0);
    ApplyIsStep(schema, mid, second, 0);
    var id := RowId(schema[first.table], first.key);
    AppliedRowIsLast(schema, tables, first, second, Lookup(mid, id));
    StoreTwice(tables, id, Lookup(mid, id), Some(AppliedRow(schema, tables, first, second)));
    assert second.data.Keys <= FreshOperation(schema[second.table], second, 0).data.Keys;
  }

  function AppliedRow(schema: Schema, tables: Tables, first: Change, second: Change): Row
    requires first.table in schema
  {
    var id := RowId(schema[first.table], first.key);
    var written := WithKey(schema[first.table], second.key, second.data);
    if id in tables then (tables[id] + first.data) + written else written
  }

  lemma AppliedRowIsLast(schema: Schema, tables: Tables, first: Change, second: Change, mid: Option<Row>)
    requires first.table in schema && first.table == second.table && first.key == second.key
    requires first.opType.Update? && second.opType.Upsert?
    requires Apply(StepOf(FreshOperation(schema[first.table], first, 0)).effect,
                   Lookup(tables, RowId(schema[first.table], first.key))) == Ok(mid)
    ensures Apply(StepOf(FreshOperation(schema[first.table], second, 0)).effect, mid) ==
            Ok(Some(AppliedRow(schema, tables, first, second)))
  {
    var written := WithKey(schema[first.table], second.key, second.data);
    MergeIsAssociative(written, written, written);
  }

  /**
   An update followed by an upsert of the same row is merged without the key columns being added. The upsert is whole
   exactly when the data name every key column themselves and either the row is already stored or the upsert rewrites
   every column of the update.
   */
  lemma UpdateThenUpsert(schema: Schema, tables: Tables, first: Change, second: Change)
    requires UpdateAndUpsert(schema, first, second) && WellKeyed(tables)
    requires ApplyChanges(schema, tables, [first, second]).Ok?
    ensures AcceptAll(schema, EmptyState, [first, second]).Ok?
    ensures UpsertsEndWhole(schema, tables, [first, second]) <==>
            NamesAndRewrites(first, second, RowId(schema[first.table], first.key) in tables)
    ensures var held := Operation(schema[first.table], Update, first.key, first.data, 0, first.reversible);
            UpsertsEndWhole(schema, tables, [first, second]) <==> MergesRightly(tables, held, second)
  {
    UpdateThenUpsertMerges(schema, first, second);
    UpdateThenUpsertApplied(schema, tables, first, second);
    MergedIsWholeIff(schema, tables, first, second);
    OneEndsWhole(schema, tables, [first, second], Merged(schema, first, second),
                 AppliedRow(schema, tables, first, second));
  }

  predicate NamesAndRewrites(first: Change, second: Change, stored: bool) {
    && first.key.Keys <= first.data.Keys + second.data.Keys
    && (stored || first.data.Keys <= second.data.Keys + first.key.Keys)
  }

  lemma MergedIsWholeIff(schema: Schema, tables: Tables, first: Change, second: Change)
    requires UpdateAndUpsert(schema, first, second)
    ensures var id := RowId(schema[first.table], first.key);
            WholeUpsert(Merged(schema, first, second), Lookup(tables, id),
                        Some(AppliedRow(schema, tables, first, second))) <==>
            NamesAndRewrites(first, second, id in tables)
  {
    var id := RowId(schema[first.table], first.key);
    MergedColumns(first.data, second.data, first.key);
    if id !in tables {
      WrittenColumns(schema[first.table], second.key, second.data);
      assert AppliedRow(schema, tables, first, second).Keys == second.data.Keys + first.key.Keys;
    }
  }

  lemma MergedColumns(u: Row, v: Row, key: Key)
    ensures (u + v).Keys == u.Keys + v.Keys
    ensures (u + v).Keys <= v.Keys + key.Keys <==> u.Keys <= v.Keys + key.Keys
  {
  }

  lemma OneEndsWhole(schema: Schema, tables: Tables, changes: seq<Change>, op: Operation, row: Row)
    requires AcceptAll(schema, EmptyState, changes) == Ok(LoaderState(map[SlotOf(op.Id()) := op], 1))
    requires ApplyChanges(schema, tables, changes) == Ok(Store(tables, op.Id(), Some(row)))
    ensures UpsertsEndWhole(schema, tables, changes) <==> WholeUpsert(op, Lookup(tables, op.Id()), Some(row))
  {
    var pending := map[SlotOf(op.Id()) := op];
    assert SlotOf(op.Id()) in pending && pending[SlotOf(op.Id())] == op;
  }
}
