/**
 Flushing the coalesced operations leaves the tables that applying every change at once would have left, whatever
 the order in which the pending operations are executed.
 */
module FlushRefinement {
  import opened Prelude
  import opened Database
  import opened RowUniqueId
  import opened Coalescing
  import opened RowEffects

  // ----- the simple form: every change is executed at once -----

  function ApplyChange(schema: Schema, tables: Tables, c: Change): Result<Tables> {
    if c.table !in schema then Err(UnknownTable)
    else Execute(tables, FreshOperation(schema[c.table], c, 0))
  }

  function ApplyChanges(schema: Schema, tables: Tables, changes: seq<Change>): Result<Tables>
    decreases |changes|
  {
    if changes == [] then Ok(tables)
    else match ApplyChange(schema, tables, changes[0])
      case Err(e) => Err(e)
      case Ok(next) => ApplyChanges(schema, next, changes[1..])
  }

  // ----- what the pending operations mean -----

  ghost predicate PendingFor(state: LoaderState, id: RowId) {
    SlotOf(id) in state.pending && state.pending[SlotOf(id)].Id() == id
  }

  /** As complete as every pending operation is; only an upsert may lack columns of its key. */
  ghost predicate Formed(op: Operation) {
    && KeyAgrees(op) && Separable(op.primaryKey)
    && (!op.opType.Delete? ==> op.data != map[] && op.data.Keys <= op.table.columns)
  }

  /** A new row that was upserted after an update found no row: the key, and of the data what was written since. */
  predicate GrownFrom(op: Operation, row: Row) {
    && op.primaryKey.Keys <= row.Keys
    && forall c :: c in row ==>
         if c in op.data then row[c] == op.data[c] else c in op.primaryKey && row[c] == op.primaryKey[c]
  }

  /** How a pending operation describes its row, which was `r0` before the batch and is `r1` now. */
  predicate Describes(op: Operation, r0: Option<Row>, r1: Option<Row>) {
    match op.opType
    case Insert => op.primaryKey.Keys <= op.data.Keys && r0.None? && r1 == Some(op.data)
    case Update => r1 == if r0.Some? then Some(r0.value + op.data) else None
    case Delete => r1.None?
    case Upsert => r1.Some? && if r0.Some? then r1.value == r0.value + op.data else GrownFrom(op, r1.value)
  }

  ghost predicate Explains(before: Tables, op: Operation, now: Tables) {
    Formed(op) && Describes(op, Lookup(before, op.Id()), Lookup(now, op.Id()))
  }

  /** Each pending operation describes its row in `before` and in `now`; rows with none are the same. */
  ghost predicate Agrees(schema: Schema, before: Tables, state: LoaderState, now: Tables) {
    && (forall s :: s in state.pending ==> Explains(before, state.pending[s], now))
    && (forall id :: !PendingFor(state, id) ==> Lookup(before, id) == Lookup(now, id))
  }

  /** An upsert whose data have all key columns, and no column that a new row lacks. */
  predicate WholeUpsert(op: Operation, r0: Option<Row>, r1: Option<Row>) {
    op.opType.Upsert? ==>
      && op.primaryKey.Keys <= op.data.Keys
      && (r0.Some? || (r1.Some? && op.data.Keys <= r1.value.Keys))
  }

  lemma KeyedIff(op: Operation)
    requires Formed(op)
    ensures Keyed(op) <==> (op.opType.Insert? || op.opType.Upsert? ==> op.primaryKey.Keys <= op.data.Keys)
  {
  }

  lemma GrownIsDataIff(op: Operation, row: Row)
    requires GrownFrom(op, row) && op.primaryKey.Keys <= op.data.Keys
    ensures op.data == row <==> op.data.Keys <= row.Keys
  {
    assert row.Keys <= op.data.Keys;
    if op.data.Keys <= row.Keys {
      assert row.Keys == op.data.Keys;
    }
  }

  lemma DescribedEffectIff(op: Operation, r0: Option<Row>, r1: Option<Row>)
    requires Describes(op, r0, r1) && (op.opType.Upsert? ==> op.primaryKey.Keys <= op.data.Keys)
    ensures Apply(StepOf(op).effect, r0) == Ok(r1) <==> WholeUpsert(op, r0, r1)
  {
    if op.opType.Upsert? && r0.None? {
      GrownIsDataIff(op, r1.value);
      assert map[] + op.data == op.data;
    }
  }

  /** An operation does what it describes unless it is an upsert that is not whole. */
  lemma DescribedIsDoneIff(op: Operation, r0: Option<Row>, r1: Option<Row>)
    requires Formed(op) && Describes(op, r0, r1)
    ensures Keyed(op) && Apply(StepOf(op).effect, r0) == Ok(r1) <==> WholeUpsert(op, r0, r1)
  {
    KeyedIff(op);
    if op.opType.Upsert? ==> op.primaryKey.Keys <= op.data.Keys {
      DescribedEffectIff(op, r0, r1);
    }
  }

  lemma DoneIsDescribed(op: Operation, r0: Option<Row>, r1: Option<Row>)
    requires Keyed(op) && Apply(StepOf(op).effect, r0) == Ok(r1)
    ensures Describes(op, r0, r1)
  {
  }

  /** A change that the tables accept is an operation that names its row in full. */
  lemma AppliedIsKeyed(schema: Schema, tables: Tables, c: Change, ordinal: nat)
    requires ValidSchema(schema) && KeepsKey(schema, c) && ApplyChange(schema, tables, c).Ok?
    ensures Keyed(FreshOperation(schema[c.table], c, ordinal))
  {
    var t := schema[c.table];
    var op := FreshOperation(t, c, ordinal);
    assert FreshOperation(t, c, 0) == op.(ordinal := 0);
    if c.opType.Insert? || c.opType.Upsert? {
      forall col | col in c.key ensures col in op.data && op.data[col] == c.key[col] {
        assert col in t.PrimarySet();
      }
    }
  }

  lemma RunStepLookups(tables: Tables, step: Step, after: Tables)
    requires RunStep(tables, step) == Ok(after)
    ensures Apply(step.effect, Lookup(tables, step.id)) == Ok(Lookup(after, step.id))
    ensures after == Store(tables, step.id, Lookup(after, step.id))
    ensures forall other :: other != step.id ==> Lookup(after, other) == Lookup(tables, other)
  {
  }

  /** What a complete statement leaves, given what it makes of its row. */
  lemma KeyedExecutes(tables: Tables, op: Operation, row: Option<Row>)
    requires WellKeyed(tables) && Keyed(op) && Apply(StepOf(op).effect, Lookup(tables, op.Id())) == Ok(row)
    ensures Execute(tables, op) == Ok(Store(tables, op.Id(), row))
  {
    ExecuteIsStep(tables, op);
  }

  /** A change that the tables accept is the step of its own row. */
  lemma ApplyIsStep(schema: Schema, tables: Tables, c: Change, ordinal: nat)
    requires ValidSchema(schema) && KeepsKey(schema, c) && ApplyChange(schema, tables, c).Ok? && WellKeyed(tables)
    ensures var op := FreshOperation(schema[c.table], c, ordinal);
            var id := op.Id();
            var after := ApplyChange(schema, tables, c).value;
            && Keyed(op) && id == RowId(schema[c.table], c.key)
            && Apply(StepOf(op).effect, Lookup(tables, id)) == Ok(Lookup(after, id))
            && after == Store(tables, id, Lookup(after, id))
            && (forall other :: other != id ==> Lookup(after, other) == Lookup(tables, other))
    ensures WellKeyed(ApplyChange(schema, tables, c).value)
  {
    AppliedIsKeyed(schema, tables, c, 0);
    AppliedIsKeyed(schema, tables, c, ordinal);
    var op := FreshOperation(schema[c.table], c, 0);
    ExecuteIsStep(tables, op);
    RunStepLookups(tables, StepOf(op), ApplyChange(schema, tables, c).value);
    assert StepOf(FreshOperation(schema[c.table], c, ordinal)) == StepOf(op);
  }

  lemma MergeIsAssociative<K, V>(a: map<K, V>, b: map<K, V>, c: map<K, V>)
    ensures a + (b + c) == (a + b) + c
    ensures map[] + a == a
  {
  }

  /** `alone` is the operation that change `c` would be filed as, and `held` is pending for the same row. */
  ghost predicate Meets(held: Operation, alone: Operation, c: Change) {
    && Formed(held) && Keyed(alone) && held.Id() == alone.Id()
    && alone == FreshOperation(held.table, c, alone.ordinal)
    && (forall col :: col in c.data && col in c.key ==> c.data[col] == c.key[col])
    && Combine(held, alone, c.data).Ok?
  }

  /** A stored row carries the values of its key. */
  predicate CarriesKey(row: Option<Row>, key: Key) {
    row.Some? ==> forall col :: col in key ==> col in row.value && row.value[col] == key[col]
  }

  lemma StoredCarriesKey(tables: Tables, id: RowId)
    requires WellKeyed(tables) && id.key.Keys == id.table.PrimarySet()
    ensures CarriesKey(Lookup(tables, id), id.key)
  {
    if id in tables {
      forall col | col in id.key ensures col in tables[id] && tables[id][col] == id.key[col] {
        assert col in KeyOf(id.table, tables[id]);
      }
    }
  }

  lemma CombineIsFormed(held: Operation, alone: Operation, c: Change)
    requires Meets(held, alone, c)
    ensures Formed(Combine(held, alone, c.data).value)
    ensures Combine(held, alone, c.data).value.Id() == held.Id()
  {
    var op := Combine(held, alone, c.data).value;
    if !c.opType.Delete? {
      assert c.data.Keys <= alone.data.Keys;
      if !held.opType.Delete? {
        var col :| col in held.data;
        assert col in op.data;
      }
    }
  }

  /** What is pending after a change, and what the change alone does to the row. */
  lemma MergeCases(held: Operation, alone: Operation, c: Change, r1: Option<Row>, r2: Option<Row>)
    requires Meets(held, alone, c) && Apply(StepOf(alone).effect, r1) == Ok(r2)
    ensures var op := Combine(held, alone, c.data).value;
            match c.opType
            case Insert => false
            case Upsert =>
              && (held.opType.Update? || held.opType.Upsert?)
              && op == held.(opType := Upsert, data := held.data + c.data) && r2 == Some(Upserted(held, c, r1))
            case Update =>
              && !held.opType.Delete? && op == held.(data := held.data + c.data)
              && r2 == if r1.Some? then Some(r1.value + c.data) else None
            case Delete => op == alone && r2.None?
  {
  }

  function Upserted(held: Operation, c: Change, r1: Option<Row>): Row {
    (if r1.Some? then r1.value else map[]) + WithKey(held.table, c.key, c.data)
  }

  /** The heart of the merge rules, on one row: `held` describes `r0` and `r1`, and the change leads on to `r2`. */
  lemma CombineDescribes(
    held: Operation, alone: Operation, c: Change, r0: Option<Row>, r1: Option<Row>, r2: Option<Row>)
    requires Meets(held, alone, c) && CarriesKey(r0, c.key)
    requires Describes(held, r0, r1) && Apply(StepOf(alone).effect, r1) == Ok(r2)
    ensures Describes(Combine(held, alone, c.data).value, r0, r2)
  {
    MergeCases(held, alone, c, r1, r2);
    if c.opType.Update? {
      UpdateDescribes(held, c, r0, r1);
    } else if c.opType.Upsert? {
      UpsertDescribes(held, c, r0, r1);
    }
  }

  lemma UpdateDescribes(held: Operation, c: Change, r0: Option<Row>, r1: Option<Row>)
    requires Describes(held, r0, r1) && !held.opType.Delete?
    ensures Describes(held.(data := held.data + c.data), r0, if r1.Some? then Some(r1.value + c.data) else None)
  {
    MergeIsAssociative(if r0.Some? then r0.value else map[], held.data, c.data);
  }

  lemma UpsertDescribes(held: Operation, c: Change, r0: Option<Row>, r1: Option<Row>)
    requires Describes(held, r0, r1) && (held.opType.Update? || held.opType.Upsert?)
    requires Formed(held) && c.key == held.primaryKey && CarriesKey(r0, c.key)
    requires forall col :: col in c.data && col in c.key ==> c.data[col] == c.key[col]
    ensures var op := held.(opType := Upsert, data := held.data + c.data);
            Describes(op, r0, Some(Upserted(held, c, r1)))
  {
    if r0.Some? {
      UpsertOverStored(r0.value, held, c);
    } else {
      UpsertGrows(held, c, if r1.Some? then r1.value else map[]);
    }
  }

  lemma UpsertGrows(held: Operation, c: Change, row: Row)
    requires Formed(held) && c.key == held.primaryKey && (row == map[] || GrownFrom(held, row))
    requires forall col :: col in c.data && col in c.key ==> c.data[col] == c.key[col]
    ensures GrownFrom(held.(opType := Upsert, data := held.data + c.data), row + WithKey(held.table, c.key, c.data))
  {
    var written := WithKey(held.table, c.key, c.data);
    assert forall col :: col in c.key <==> col in held.table.PrimarySet();
    forall col | col in row + written
      ensures if col in held.data + c.data then (row + written)[col] == (held.data + c.data)[col]
              else col in c.key && (row + written)[col] == c.key[col]
    {
      GrownColumn(held, c, row, col);
    }
  }

  lemma GrownColumn(held: Operation, c: Change, row: Row, col: string)
    requires KeyAgrees(held) && c.key == held.primaryKey && (row == map[] || GrownFrom(held, row))
    requires col in c.data && col in c.key ==> c.data[col] == c.key[col]
    requires col in row + WithKey(held.table, c.key, c.data)
    ensures var now := (row + WithKey(held.table, c.key, c.data))[col];
            if col in held.data + c.data then now == (held.data + c.data)[col]
            else col in c.key && now == c.key[col]
  {
  }

  /** A row that already carries its key columns does not change when an upsert writes them again. */
  lemma UpsertOverStored(base: Row, held: Operation, c: Change)
    requires Formed(held) && c.key == held.primaryKey && CarriesKey(Some(base), c.key)
    requires forall col :: col in c.data && col in c.key ==> c.data[col] == c.key[col]
    ensures (base + held.data) + WithKey(held.table, c.key, c.data) == base + (held.data + c.data)
  {
    var more, now := WithKey(held.table, c.key, c.data), base + held.data;
    forall col | col in more ensures col in c.data || (col in now && now[col] == more[col]) {
    }
    OverwriteTwice(base, held.data, c.data, more);
  }

  /** Writing more columns than `c` makes no difference if the others are there already. */
  lemma OverwriteTwice<K, V>(a: map<K, V>, b: map<K, V>, c: map<K, V>, more: map<K, V>)
    requires c.Keys <= more.Keys && forall k :: k in c ==> more[k] == c[k]
    requires forall k :: k in more ==> k in c || (k in a + b && (a + b)[k] == more[k])
    ensures (a + b) + more == a + (b + c)
  {
  }

  lemma HeldIsSameRow(schema: Schema, before: Tables, state: LoaderState, now: Tables, c: Change)
    requires ValidSchema(schema) && Consistent(schema, state) && KeepsKey(schema, c)
    requires Agrees(schema, before, state, now)
    requires SlotOf(RowId(schema[c.table], c.key)) in state.pending
    ensures PendingFor(state, RowId(schema[c.table], c.key))
  {
    var slot := SlotOf(RowId(schema[c.table], c.key));
    var held := state.pending[slot];
    assert Filed(schema, slot, held, state.nextOrdinal);
    assert Explains(before, held, now);
    UniqueIdIsInjective(held.primaryKey, c.key);
  }

  /** The operation that a change leaves pending explains its row afterwards. */
  lemma AcceptExplains(schema: Schema, before: Tables, state: LoaderState, now: Tables, c: Change)
    requires ValidSchema(schema) && Consistent(schema, state) && KeepsKey(schema, c) && WellKeyed(now)
    requires Agrees(schema, before, state, now) && WellKeyed(before)
    requires Accept(schema, state, c).Ok? && ApplyChange(schema, now, c).Ok?
    ensures var id := RowId(schema[c.table], c.key);
            var op := Accept(schema, state, c).value.pending[SlotOf(id)];
            op.Id() == id && Explains(before, op, ApplyChange(schema, now, c).value)
  {
    var after := ApplyChange(schema, now, c).value;
    var alone := FreshOperation(schema[c.table], c, state.nextOrdinal);
    var id := RowId(schema[c.table], c.key);
    var slot := SlotOf(id);
    ApplyIsStep(schema, now, c, state.nextOrdinal);
    if slot in state.pending {
      HeldIsSameRow(schema, before, state, now, c);
      var held := state.pending[slot];
      assert Explains(before, held, now);
      assert Accept(schema, state, c).value.pending[slot] == Combine(held, alone, c.data).value;
      assert Meets(held, alone, c);
      CombineIsFormed(held, alone, c);
      StoredCarriesKey(before, id);
      CombineDescribes(held, alone, c, Lookup(before, id), Lookup(now, id), Lookup(after, id));
    } else {
      assert !PendingFor(state, id);
      DoneIsDescribed(alone, Lookup(before, id), Lookup(after, id));
    }
  }

  /** The operations of other rows stay explained. */
  lemma OthersStayExplained(schema: Schema, before: Tables, state: LoaderState, now: Tables, c: Change, after: Tables,
                            s: Slot)
    requires ValidSchema(schema) && Consistent(schema, state) && KeepsKey(schema, c)
    requires Agrees(schema, before, state, now)
    requires s in state.pending && s != SlotOf(RowId(schema[c.table], c.key))
    requires forall other :: other != RowId(schema[c.table], c.key) ==> Lookup(after, other) == Lookup(now, other)
    ensures Explains(before, state.pending[s], after)
  {
    assert Explains(before, state.pending[s], now);
    assert Filed(schema, s, state.pending[s], state.nextOrdinal);
    assert s == SlotOf(state.pending[s].Id());
  }

  lemma AcceptTouchesOneSlot(schema: Schema, state: LoaderState, c: Change)
    requires Accept(schema, state, c).Ok? && ValidSchema(schema)
    ensures var slot := SlotOf(RowId(schema[c.table], c.key));
            var next := Accept(schema, state, c).value;
            && slot in next.pending
            && forall s :: s != slot && s in next.pending ==> s in state.pending && next.pending[s] == state.pending[s]
  {
  }

  lemma AcceptKeepsAgreement(schema: Schema, before: Tables, state: LoaderState, now: Tables, c: Change)
    requires ValidSchema(schema) && Consistent(schema, state) && KeepsKey(schema, c) && WellKeyed(now)
    requires Agrees(schema, before, state, now) && WellKeyed(before)
    requires Accept(schema, state, c).Ok? && ApplyChange(schema, now, c).Ok?
    ensures Agrees(schema, before, Accept(schema, state, c).value, ApplyChange(schema, now, c).value)
  {
    var next, after := Accept(schema, state, c).value, ApplyChange(schema, now, c).value;
    AcceptExplains(schema, before, state, now, c);
    ApplyIsStep(schema, now, c, 0);
    AcceptTouchesOneSlot(schema, state, c);
    forall s | s in next.pending ensures Explains(before, next.pending[s], after) {
      if s != SlotOf(RowId(schema[c.table], c.key)) {
        OthersStayExplained(schema, before, state, now, c, after, s);
      }
    }
    forall other | !PendingFor(next, other) ensures Lookup(before, other) == Lookup(after, other) {
      StillNotPending(schema, before, state, now, c, other);
    }
  }

  /** Accepting a change withdraws no row from the pending ones. */
  lemma StillNotPending(schema: Schema, before: Tables, state: LoaderState, now: Tables, c: Change, other: RowId)
    requires ValidSchema(schema) && Consistent(schema, state) && KeepsKey(schema, c)
    requires Agrees(schema, before, state, now) && Accept(schema, state, c).Ok?
    requires PendingFor(Accept(schema, state, c).value, RowId(schema[c.table], c.key))
    requires !PendingFor(Accept(schema, state, c).value, other)
    ensures other != RowId(schema[c.table], c.key) && !PendingFor(state, other)
  {
    var id := RowId(schema[c.table], c.key);
    if SlotOf(other) == SlotOf(id) && SlotOf(id) in state.pending {
      HeldIsSameRow(schema, before, state, now, c);
    }
  }

  lemma {:induction false} AcceptAllKeepsAgreement(
    schema: Schema, before: Tables, state: LoaderState, now: Tables, changes: seq<Change>)
    requires ValidSchema(schema) && Consistent(schema, state) && WellKeyed(now)
    requires forall c :: c in changes ==> KeepsKey(schema, c)
    requires Agrees(schema, before, state, now) && WellKeyed(before)
    requires AcceptAll(schema, state, changes).Ok? && ApplyChanges(schema, now, changes).Ok?
    ensures Agrees(schema, before, AcceptAll(schema, state, changes).value, ApplyChanges(schema, now, changes).value)
    ensures Consistent(schema, AcceptAll(schema, state, changes).value)
    ensures WellKeyed(ApplyChanges(schema, now, changes).value)
    decreases |changes|
  {
    if changes != [] {
      var c := changes[0];
      AcceptKeepsAgreement(schema, before, state, now, c);
      AcceptKeepsConsistent(schema, state, c);
      ApplyIsStep(schema, now, c, 0);
      AcceptAllKeepsAgreement(schema, before, Accept(schema, state, c).value, ApplyChange(schema, now, c).value,
                              changes[1..]);
    }
  }

  // ----- main results -----

  lemma ListingIsDistinct(ops: seq<Operation>, pending: map<Slot, Operation>)
    requires Lists(ops, pending)
    ensures DistinctRows(StepsOf(ops))
  {
    var steps := StepsOf(ops);
    forall i, j | 0 <= i < j < |steps| ensures steps[i].id != steps[j].id {
      assert SlotOf(ops[i].Id()) != SlotOf(ops[j].Id());
    }
  }

  lemma PendingIsMentioned(state: LoaderState, ops: seq<Operation>, id: RowId)
    requires Lists(ops, state.pending)
    ensures PendingFor(state, id) ==> Mentions(ops, id)
  {
    if PendingFor(state, id) {
      assert state.pending[SlotOf(id)] in ops;
    }
  }

  /** Each upsert that is pending at the end of the batch is whole. */
  ghost predicate UpsertsEndWhole(schema: Schema, before: Tables, changes: seq<Change>) {
    var state, now := AcceptAll(schema, EmptyState, changes), ApplyChanges(schema, before, changes);
    state.Ok? && now.Ok? ==>
      forall s :: s in state.value.pending ==>
        var op := state.value.pending[s];
        WholeUpsert(op, Lookup(before, op.Id()), Lookup(now.value, op.Id()))
  }

  /**
   For every sequence of changes that the loader accepts and that can be applied one at a time: flushing the pending
   operations, in whatever order, succeeds and leaves the same tables exactly when each upsert that is pending at the
   end has all columns of its key, and its row was stored before or has all columns of its data.
   */
  lemma FlushEqualsOneAtATime(schema: Schema, tables: Tables, changes: seq<Change>, ops: seq<Operation>)
    requires ValidSchema(schema) && WellKeyed(tables)
    requires forall c :: c in changes ==> KeepsKey(schema, c)
    requires AcceptAll(schema, EmptyState, changes).Ok? && ApplyChanges(schema, tables, changes).Ok?
    requires Lists(ops, AcceptAll(schema, EmptyState, changes).value.pending)
    ensures ExecuteAll(tables, ops) == ApplyChanges(schema, tables, changes) <==>
            UpsertsEndWhole(schema, tables, changes)
    ensures UpsertsEndWhole(schema, tables, changes) ==> forall op :: op in ops ==> Keyed(op)
    ensures WellKeyed(ApplyChanges(schema, tables, changes).value)
  {
    var state, now := AcceptAll(schema, EmptyState, changes).value, ApplyChanges(schema, tables, changes).value;
    AcceptAllKeepsAgreement(schema, tables, EmptyState, tables, changes);
    ListingIsDistinct(ops, state.pending);
    forall op | op in ops
      ensures KeyAgrees(op)
      ensures Leads(op, tables, now) <==> WholeUpsert(op, Lookup(tables, op.Id()), Lookup(now, op.Id()))
    {
      assert Explains(tables, op, now);
      DescribedIsDoneIff(op, Lookup(tables, op.Id()), Lookup(now, op.Id()));
    }
    forall id | !Mentions(ops, id) ensures Lookup(tables, id) == Lookup(now, id) {
      PendingIsMentioned(state, ops, id);
    }
    ExecuteAllLeadsIff(tables, ops, now);
  }

  /** Two listings of the same pending operations succeed together and leave the same tables. */
  lemma ExecutionOrderIrrelevant(tables: Tables, pending: map<Slot, Operation>, a: seq<Operation>, b: seq<Operation>)
    requires WellKeyed(tables) && forall s :: s in pending ==> Keyed(pending[s])
    requires Lists(a, pending) && Lists(b, pending)
    ensures ExecuteAll(tables, a).Ok? == ExecuteAll(tables, b).Ok?
    ensures ExecuteAll(tables, a).Ok? ==> ExecuteAll(tables, a) == ExecuteAll(tables, b)
  {
    ListingIsDistinct(a, pending);
    ListingIsDistinct(b, pending);
    ExecuteAllIsSteps(tables, a);
    ExecuteAllIsSteps(tables, b);
    forall s ensures s in StepsOf(a) <==> s in StepsOf(b) {
      ListingHasStep(a, pending, s);
      ListingHasStep(b, pending, s);
    }
    OrderIrrelevant(tables, StepsOf(a), StepsOf(b));
  }

  lemma ListingHasStep(ops: seq<Operation>, pending: map<Slot, Operation>, s: Step)
    requires Lists(ops, pending)
    ensures s in StepsOf(ops) <==> exists slot :: slot in pending && StepOf(pending[slot]) == s
  {
    if s in StepsOf(ops) {
      var i :| 0 <= i < |ops| && StepsOf(ops)[i] == s;
      assert ops[i] in ops;
      assert StepOf(pending[SlotOf(ops[i].Id())]) == s;
    }
    if slot :| slot in pending && StepOf(pending[slot]) == s {
      var i :| 0 <= i < |ops| && ops[i] == pending[slot];
      assert StepsOf(ops)[i] == s;
    }
  }
}
