/**
 The RisingWave flush runs the pending operations in the order in which they were filed, and its inserts overwrite.
 On batches without upserts it leaves the tables that the ordinal-sorted Postgres flush leaves.
 */
module RisingWave {
  import opened Prelude
  import opened Database
  import opened Coalescing
  import opened RowEffects
  import opened FlushRefinement

  /** An insert into a table created with `ON CONFLICT OVERWRITE`. */
  function OverwriteRow(tables: Tables, table: TableInfo, data: Row): Result<Tables> {
    if data == map[] then Err(NoColumns)
    else if !(table.PrimarySet() <= data.Keys) then Err(NullKeyColumn)
    else Ok(tables[RowId(table, KeyOf(table, data)) := data])
  }

  function ExecuteOverwriting(tables: Tables, op: Operation): Result<Tables> {
    if !op.opType.Delete? && !(op.data.Keys <= op.table.columns) then Err(UnknownColumn)
    else if !op.opType.Insert? && "" in op.primaryKey then Err(NoPrimaryKey)
    else if op.opType.Insert? || op.opType.Upsert? then OverwriteRow(tables, op.table, op.data)
    else Execute(tables, op)
  }

  /** A statement is refused before it looks at a row when the other dialect refuses it so. */
  lemma RefusedAlike(tables: Tables, op: Operation)
    ensures ExecuteOverwriting(tables, op) == Err(UnknownColumn) <==> Execute(tables, op) == Err(UnknownColumn)
    ensures ExecuteOverwriting(tables, op) == Err(NoPrimaryKey) <==> Execute(tables, op) == Err(NoPrimaryKey)
    ensures ExecuteOverwriting(tables, op) == Err(NoColumns) <==> Execute(tables, op) == Err(NoColumns)
    ensures op.primaryKey.Keys == op.table.PrimarySet() ==>
              (ExecuteOverwriting(tables, op) == Err(NullKeyColumn) <==> Execute(tables, op) == Err(NullKeyColumn))
  {
  }

  function ExecuteAllOverwriting(tables: Tables, ops: seq<Operation>): Result<Tables>
    decreases |ops|
  {
    if ops == [] then Ok(tables)
    else match ExecuteOverwriting(tables, ops[0])
      case Err(e) => Err(e)
      case Ok(next) => ExecuteAllOverwriting(next, ops[1..])
  }

  function OverwritingStep(op: Operation): Step {
    if op.opType.Insert? || op.opType.Upsert? then Step(op.Id(), Put(op.data)) else StepOf(op)
  }

  function OverwritingSteps(ops: seq<Operation>): (steps: seq<Step>)
    ensures |steps| == |ops| && forall i :: 0 <= i < |ops| ==> steps[i] == OverwritingStep(ops[i])
  {
    seq(|ops|, i requires 0 <= i < |ops| => OverwritingStep(ops[i]))
  }

  lemma OverwritingIsStep(tables: Tables, op: Operation)
    requires WellKeyed(tables) && Keyed(op)
    ensures ExecuteOverwriting(tables, op) == RunStep(tables, OverwritingStep(op))
    ensures ExecuteOverwriting(tables, op).Ok? ==> WellKeyed(ExecuteOverwriting(tables, op).value)
  {
    if op.opType.Insert? || op.opType.Upsert? {
      assert KeyOf(op.table, op.data) == op.primaryKey;
    } else {
      ExecuteIsStep(tables, op);
    }
  }

  lemma {:induction false} AllOverwritingIsSteps(tables: Tables, ops: seq<Operation>)
    requires WellKeyed(tables) && forall op :: op in ops ==> Keyed(op)
    ensures ExecuteAllOverwriting(tables, ops) == RunSteps(tables, OverwritingSteps(ops))
    decreases |ops|
  {
    if ops != [] {
      assert OverwritingSteps(ops)[1..] == OverwritingSteps(ops[1..]);
      OverwritingIsStep(tables, ops[0]);
      if ExecuteOverwriting(tables, ops[0]).Ok? {
        AllOverwritingIsSteps(ExecuteOverwriting(tables, ops[0]).value, ops[1..]);
      }
    }
  }

  lemma OverwritingStepIn(ops: seq<Operation>, s: Step)
    ensures s in OverwritingSteps(ops) ==> exists op :: op in ops && OverwritingStep(op) == s
    ensures forall op :: op in ops ==> OverwritingStep(op) in OverwritingSteps(ops) && StepOf(op) in StepsOf(ops)
  {
    if s in OverwritingSteps(ops) {
      var i :| 0 <= i < |ops| && OverwritingSteps(ops)[i] == s;
      assert ops[i] in ops;
    }
    forall op | op in ops ensures OverwritingStep(op) in OverwritingSteps(ops) && StepOf(op) in StepsOf(ops) {
      var i :| 0 <= i < |ops| && ops[i] == op;
      assert OverwritingSteps(ops)[i] == OverwritingStep(op) && StepsOf(ops)[i] == StepOf(op);
    }
  }

  /** An upsert of a stored row writes all the columns that the row has. */
  predicate WritesWholeRow(tables: Tables, op: Operation) {
    op.opType.Upsert? && op.Id() in tables ==> tables[op.Id()].Keys <= op.data.Keys
  }

  /** On one row: overwriting succeeds where Postgres does, and agrees exactly when it writes the whole row. */
  lemma RowAgreesIff(tables: Tables, op: Operation)
    requires Keyed(op) && Apply(StepOf(op).effect, Lookup(tables, op.Id())).Ok?
    ensures OverwritingStep(op).id == op.Id() && Apply(OverwritingStep(op).effect, Lookup(tables, op.Id())).Ok?
    ensures WritesWholeRow(tables, op) <==>
            Apply(OverwritingStep(op).effect, Lookup(tables, op.Id()))
            == Apply(StepOf(op).effect, Lookup(tables, op.Id()))
  {
    if op.opType.Upsert? {
      MergedOver(if op.Id() in tables then tables[op.Id()] else map[], op.data);
    }
  }

  /** Where whole rows are written, what the Postgres steps settle the overwriting steps settle too. */
  lemma OverwritingSettles(tables: Tables, a: seq<Operation>, b: seq<Operation>, after: Tables)
    requires Settled(tables, StepsOf(a), after)
    requires forall op :: op in a ==> Keyed(op) && WritesWholeRow(tables, op)
    requires forall op :: op in a <==> op in b
    ensures Settled(tables, OverwritingSteps(b), after)
  {
    forall s | s in OverwritingSteps(b) ensures Apply(s.effect, Lookup(tables, s.id)) == Ok(Lookup(after, s.id)) {
      OverwritingStepIn(b, s);
      var op :| op in b && OverwritingStep(op) == s;
      OverwritingStepIn(a, s);
      assert StepOf(op) in StepsOf(a);
      RowAgreesIff(tables, op);
    }
    forall id | Untouched(OverwritingSteps(b), id) ensures Lookup(tables, id) == Lookup(after, id) {
      forall s | s in StepsOf(a) ensures s.id != id {
        var i :| 0 <= i < |a| && StepsOf(a)[i] == s;
        OverwritingStepIn(b, s);
        assert a[i] in b && OverwritingStep(a[i]) in OverwritingSteps(b);
      }
    }
  }

  lemma OverwritingIsDistinct(ops: seq<Operation>, pending: map<Slot, Operation>)
    requires Lists(ops, pending)
    ensures DistinctRows(OverwritingSteps(ops))
  {
    ListingIsDistinct(ops, pending);
    forall i, j | 0 <= i < j < |ops| ensures OverwritingSteps(ops)[i].id != OverwritingSteps(ops)[j].id {
      assert StepsOf(ops)[i].id != StepsOf(ops)[j].id;
    }
  }

  lemma SameOperations(a: seq<Operation>, b: seq<Operation>, pending: map<Slot, Operation>)
    requires Lists(a, pending) && Lists(b, pending)
    ensures forall op :: op in a <==> op in b
  {
    forall op ensures op in a <==> op in b {
      assert op in a ==> SlotOf(op.Id()) in pending && pending[SlotOf(op.Id())] == op;
      assert op in b ==> SlotOf(op.Id()) in pending && pending[SlotOf(op.Id())] == op;
    }
  }

  /**
   When the Postgres flush of a batch succeeds, the overwriting flush of the same batch leaves the same tables, in
   whatever order, exactly when each upsert of a stored row writes all the columns that the row has.
   */
  lemma OverwritingFlushAgreesIff(
    tables: Tables, pending: map<Slot, Operation>, sorted: seq<Operation>, filed: seq<Operation>)
    requires WellKeyed(tables) && forall s :: s in pending ==> Keyed(pending[s])
    requires Lists(sorted, pending) && Lists(filed, pending)
    requires ExecuteAll(tables, sorted).Ok?
    ensures ExecuteAllOverwriting(tables, filed) == ExecuteAll(tables, sorted) <==>
            forall op :: op in sorted ==> WritesWholeRow(tables, op)
  {
    var after, steps := ExecuteAll(tables, sorted).value, OverwritingSteps(filed);
    SameOperations(sorted, filed, pending);
    OverwritingRuns(tables, pending, sorted, filed);
    if forall op :: op in sorted ==> WritesWholeRow(tables, op) {
      OverwritingSettles(tables, sorted, filed, after);
      SettledIsUnique(tables, steps, steps, RunSteps(tables, steps).value, after);
    } else {
      var op :| op in sorted && !WritesWholeRow(tables, op);
      OverwritingStepIn(filed, OverwritingStep(op));
      OverwritingStepIn(sorted, OverwritingStep(op));
      RowAgreesIff(tables, op);
      assert StepOf(op) in StepsOf(sorted) && OverwritingStep(op) in steps;
    }
  }

  lemma OverwritingRuns(tables: Tables, pending: map<Slot, Operation>, sorted: seq<Operation>, filed: seq<Operation>)
    requires WellKeyed(tables) && forall s :: s in pending ==> Keyed(pending[s])
    requires Lists(sorted, pending) && Lists(filed, pending) && forall op :: op in sorted <==> op in filed
    requires ExecuteAll(tables, sorted).Ok?
    ensures Settled(tables, StepsOf(sorted), ExecuteAll(tables, sorted).value)
    ensures ExecuteAllOverwriting(tables, filed) == RunSteps(tables, OverwritingSteps(filed))
    ensures RunSteps(tables, OverwritingSteps(filed)).Ok?
    ensures Settled(tables, OverwritingSteps(filed), RunSteps(tables, OverwritingSteps(filed)).value)
  {
    ListingIsDistinct(sorted, pending);
    OverwritingIsDistinct(filed, pending);
    ExecuteAllIsSteps(tables, sorted);
    AllOverwritingIsSteps(tables, filed);
    RunStepsSettles(tables, StepsOf(sorted));
    RunStepsSettles(tables, OverwritingSteps(filed));
    forall s | s in OverwritingSteps(filed) ensures Apply(s.effect, Lookup(tables, s.id)).Ok? {
      OverwritingStepIn(filed, s);
      var op :| op in filed && OverwritingStep(op) == s;
      OverwritingStepIn(sorted, s);
      assert StepOf(op) in StepsOf(sorted);
      RowAgreesIff(tables, op);
    }
    assert AllApply(tables, OverwritingSteps(filed));
  }

  /** Without upserts the two flushes always agree. */
  lemma OverwritingFlushAgrees(
    tables: Tables, pending: map<Slot, Operation>, sorted: seq<Operation>, filed: seq<Operation>)
    requires WellKeyed(tables) && forall s :: s in pending ==> Keyed(pending[s]) && !pending[s].opType.Upsert?
    requires Lists(sorted, pending) && Lists(filed, pending)
    requires ExecuteAll(tables, sorted).Ok?
    ensures ExecuteAllOverwriting(tables, filed) == ExecuteAll(tables, sorted)
  {
    OverwritingFlushAgreesIff(tables, pending, sorted, filed);
  }

  /** A single upsert agrees exactly when the row is new or all the columns it has are written again. */
  lemma UpsertAgrees(tables: Tables, op: Operation)
    requires WellKeyed(tables) && Keyed(op) && op.opType.Upsert?
    ensures ExecuteOverwriting(tables, op) == Execute(tables, op) <==> WritesWholeRow(tables, op)
  {
    OverwritingIsStep(tables, op);
    ExecuteIsStep(tables, op);
    var id := op.Id();
    var base: Row := if id in tables then tables[id] else map[];
    StoreTwice(tables, id, Some(op.data), Some(base + op.data));
    MergedOver(base, op.data);
  }

  lemma MergedOver<K, V>(base: map<K, V>, data: map<K, V>)
    ensures base + data == data <==> base.Keys <= data.Keys
  {
    assert (base + data).Keys == base.Keys + data.Keys;
    if base.Keys <= data.Keys {
      assert (base + data).Keys == data.Keys;
    }
  }
}
