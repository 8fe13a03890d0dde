/**
 Statements seen from the one row they touch. A run of steps over distinct rows is settled row by row, so neither
 its outcome nor its success depends on the order of the steps.
 */
module RowEffects {
  import opened Prelude
  import opened Database

  datatype Effect =
    | PutNew(row: Row)
    | Put(row: Row)
    | Merge(row: Row)
    | MergeIfPresent(row: Row)
    | ReplaceIfPresent(row: Row)
    | Remove

  datatype Step = Step(id: RowId, effect: Effect)

  function Lookup(tables: Tables, id: RowId): Option<Row> {
    if id in tables then Some(tables[id]) else None
  }

  function Store(tables: Tables, id: RowId, row: Option<Row>): Tables {
    match row
    case None => tables - {id}
    case Some(r) => tables[id := r]
  }

  lemma StoreTwice(tables: Tables, id: RowId, a: Option<Row>, b: Option<Row>)
    ensures Store(Store(tables, id, a), id, b) == Store(tables, id, b)
    ensures Store(tables, id, a) == Store(tables, id, b) <==> a == b
  {
    assert Lookup(Store(tables, id, a), id) == a && Lookup(Store(tables, id, b), id) == b;
  }

  function Apply(effect: Effect, row: Option<Row>): Result<Option<Row>> {
    match effect
    case PutNew(r) => if row.Some? then Err(DuplicateKey) else Ok(Some(r))
    case Put(r) => Ok(Some(r))
    case Merge(r) => Ok(Some((if row.Some? then row.value else map[]) + r))
    case MergeIfPresent(r) => Ok(if row.Some? then Some(row.value + r) else None)
    case ReplaceIfPresent(r) => Ok(if row.Some? then Some(r) else None)
    case Remove => Ok(None)
  }

  function RunStep(tables: Tables, step: Step): Result<Tables> {
    match Apply(step.effect, Lookup(tables, step.id))
    case Err(e) => Err(e)
    case Ok(row) => Ok(Store(tables, step.id, row))
  }

  function RunSteps(tables: Tables, steps: seq<Step>): Result<Tables>
    decreases |steps|
  {
    if steps == [] then Ok(tables)
    else match RunStep(tables, steps[0])
      case Err(e) => Err(e)
      case Ok(next) => RunSteps(next, steps[1..])
  }

  ghost predicate DistinctRows(steps: seq<Step>) {
    forall i, j :: 0 <= i < j < |steps| ==> steps[i].id != steps[j].id
  }

  ghost predicate Untouched(steps: seq<Step>, id: RowId) {
    forall s :: s in steps ==> s.id != id
  }

  /** `after` is `before` with each step applied to its own row, and nothing else changed. */
  ghost predicate Settled(before: Tables, steps: seq<Step>, after: Tables) {
    && (forall s :: s in steps ==> Apply(s.effect, Lookup(before, s.id)) == Ok(Lookup(after, s.id)))
    && (forall id :: Untouched(steps, id) ==> Lookup(before, id) == Lookup(after, id))
  }

  ghost predicate AllApply(tables: Tables, steps: seq<Step>) {
    forall s :: s in steps ==> Apply(s.effect, Lookup(tables, s.id)).Ok?
  }

  lemma SameLookups(a: Tables, b: Tables)
    requires forall id :: Lookup(a, id) == Lookup(b, id)
    ensures a == b
  {
    forall id ensures id in a <==> id in b {
      assert Lookup(a, id) == Lookup(b, id);
    }
    forall id | id in a ensures a[id] == b[id] {
      assert Lookup(a, id) == Lookup(b, id);
    }
  }

  /** Steps over distinct rows succeed exactly when each does on its own row, and are then settled row by row. */
  lemma {:induction false} RunStepsSettles(tables: Tables, steps: seq<Step>)
    requires DistinctRows(steps)
    ensures RunSteps(tables, steps).Ok? <==> AllApply(tables, steps)
    ensures RunSteps(tables, steps).Ok? ==> Settled(tables, steps, RunSteps(tables, steps).value)
    decreases |steps|
  {
    if steps != [] {
      var first, rest := steps[0], steps[1..];
      assert Untouched(rest, first.id);
      match RunStep(tables, first)
      case Err(_) =>
        assert first in steps;
      case Ok(next) =>
        RunStepsSettles(next, rest);
        StepLeavesOthers(tables, first, next, rest);
        if RunSteps(next, rest).Ok? {
          SettledCons(tables, steps, next, RunSteps(next, rest).value);
        }
    }
  }

  lemma StepLeavesOthers(tables: Tables, first: Step, next: Tables, rest: seq<Step>)
    requires RunStep(tables, first) == Ok(next) && Untouched(rest, first.id)
    ensures AllApply(next, rest) <==> AllApply(tables, [first] + rest)
  {
    var steps := [first] + rest;
    assert forall s :: s in steps <==> s == first || s in rest;
    assert forall s :: s in rest ==> Lookup(next, s.id) == Lookup(tables, s.id);
  }

  lemma SettledCons(tables: Tables, steps: seq<Step>, next: Tables, after: Tables)
    requires steps != [] && Untouched(steps[1..], steps[0].id)
    requires RunStep(tables, steps[0]) == Ok(next) && Settled(next, steps[1..], after)
    ensures Settled(tables, steps, after)
  {
    var first, rest := steps[0], steps[1..];
    assert Lookup(after, first.id) == Lookup(next, first.id);
    forall s | s in steps ensures Apply(s.effect, Lookup(tables, s.id)) == Ok(Lookup(after, s.id)) {
      if s != first {
        assert s in rest;
        assert Lookup(next, s.id) == Lookup(tables, s.id);
      }
    }
    forall id | Untouched(steps, id) ensures Lookup(tables, id) == Lookup(after, id) {
      assert first in steps;
      assert Untouched(rest, id);
    }
  }

  /** Two outcomes settled by the same steps are equal. */
  lemma SettledIsUnique(before: Tables, steps: seq<Step>, other: seq<Step>, a: Tables, b: Tables)
    requires Settled(before, steps, a) && Settled(before, other, b)
    requires forall s :: s in steps <==> s in other
    ensures a == b
  {
    forall id ensures Lookup(a, id) == Lookup(b, id) {
      if s :| s in steps && s.id == id {
        assert Ok(Lookup(a, s.id)) == Ok(Lookup(b, s.id));
      } else {
        assert Untouched(steps, id) && Untouched(other, id);
      }
    }
    SameLookups(a, b);
  }

  /** Order does not matter for steps over distinct rows, neither for the outcome nor for success. */
  lemma OrderIrrelevant(tables: Tables, steps: seq<Step>, other: seq<Step>)
    requires DistinctRows(steps) && DistinctRows(other)
    requires forall s :: s in steps <==> s in other
    ensures RunSteps(tables, steps).Ok? == RunSteps(tables, other).Ok?
    ensures RunSteps(tables, steps).Ok? ==> RunSteps(tables, steps) == RunSteps(tables, other)
  {
    RunStepsSettles(tables, steps);
    RunStepsSettles(tables, other);
    if RunSteps(tables, steps).Ok? {
      SettledIsUnique(tables, steps, other, RunSteps(tables, steps).value, RunSteps(tables, other).value);
    }
  }

  // ----- the steps of operations and undo records -----

  /** The operation names its row by the table's whole primary key and its data agree with that key. */
  ghost predicate Keyed(op: Operation) {
    && op.table.Valid()
    && op.primaryKey.Keys == op.table.PrimarySet()
    && (forall c :: c in op.data && c in op.primaryKey ==> op.data[c] == op.primaryKey[c])
    && (op.opType.Insert? || op.opType.Upsert? ==> op.primaryKey.Keys <= op.data.Keys)
    && (!op.opType.Delete? ==> op.data != map[] && op.data.Keys <= op.table.columns)
  }

  /** What holds of a pending operation whatever was merged into it: its key is the table's, and its data agree. */
  ghost predicate KeyAgrees(op: Operation) {
    && op.table.Valid()
    && op.primaryKey.Keys == op.table.PrimarySet()
    && forall c :: c in op.data && c in op.primaryKey ==> op.data[c] == op.primaryKey[c]
  }

  function StepOf(op: Operation): Step {
    Step(op.Id(), match op.opType
                  case Insert => PutNew(op.data)
                  case Upsert => Merge(op.data)
                  case Update => MergeIfPresent(op.data)
                  case Delete => Remove)
  }

  /** On well keyed tables a keyed operation does to its own row what its step does, and touches no other row. */
  lemma ExecuteIsStep(tables: Tables, op: Operation)
    requires WellKeyed(tables) && Keyed(op)
    ensures Execute(tables, op) == RunStep(tables, StepOf(op))
    ensures Execute(tables, op).Ok? ==> WellKeyed(Execute(tables, op).value)
  {
    var t := op.table;
    if op.opType.Insert? || op.opType.Upsert? {
      assert KeyOf(t, op.data) == op.primaryKey;
      if op.Id() in tables {
        assert KeyOf(t, tables[op.Id()] + op.data) == op.primaryKey;
      }
    } else if op.opType.Update? && op.Id() in tables {
      assert KeyOf(t, tables[op.Id()]) == op.primaryKey;
      var row := tables[op.Id()] + op.data;
      forall c | c in t.PrimarySet() ensures c in row && row[c] == op.primaryKey[c] {
        assert c in KeyOf(t, tables[op.Id()]);
      }
      assert KeyOf(t, row) == op.primaryKey;
      assert (tables - {op.Id()})[op.Id() := row] == tables[op.Id() := row];
    } else {
      assert op.Id() !in tables ==> tables - {op.Id()} == tables;
    }
  }

  function StepsOf(ops: seq<Operation>): (steps: seq<Step>)
    ensures |steps| == |ops| && forall i :: 0 <= i < |ops| ==> steps[i] == StepOf(ops[i])
  {
    seq(|ops|, i requires 0 <= i < |ops| => StepOf(ops[i]))
  }

  lemma {:induction false} ExecuteAllIsSteps(tables: Tables, ops: seq<Operation>)
    requires WellKeyed(tables) && forall op :: op in ops ==> Keyed(op)
    ensures ExecuteAll(tables, ops) == RunSteps(tables, StepsOf(ops))
    ensures ExecuteAll(tables, ops).Ok? ==> WellKeyed(ExecuteAll(tables, ops).value)
    decreases |ops|
  {
    if ops != [] {
      assert StepsOf(ops)[1..] == StepsOf(ops[1..]);
      ExecuteIsStep(tables, ops[0]);
      if Execute(tables, ops[0]).Ok? {
        ExecuteAllIsSteps(Execute(tables, ops[0]).value, ops[1..]);
      }
    }
  }

  // ----- columns that are there already -----

  predicate Written(row: Row, data: Row) {
    forall c :: c in data ==> c in row && row[c] == data[c]
  }

  lemma WrittenIff(row: Row, data: Row)
    ensures row + data == row <==> Written(row, data)
  {
    if row + data == row {
      forall c | c in data ensures c in row && row[c] == data[c] {
        assert (row + data)[c] == data[c];
      }
    }
  }

  // ----- where a batch leads -----

  /** A statement that succeeded was complete. */
  lemma ExecutedIsKeyed(tables: Tables, op: Operation)
    requires KeyAgrees(op) && Execute(tables, op).Ok?
    ensures Keyed(op)
  {
  }

  lemma {:induction false} AllExecutedAreKeyed(tables: Tables, ops: seq<Operation>)
    requires ExecuteAll(tables, ops).Ok? && forall op :: op in ops ==> KeyAgrees(op)
    ensures forall op :: op in ops ==> Keyed(op)
    decreases |ops|
  {
    if ops != [] {
      assert ops[0] in ops;
      ExecutedIsKeyed(tables, ops[0]);
      AllExecutedAreKeyed(Execute(tables, ops[0]).value, ops[1..]);
    }
  }

  /** The operation is complete and leads its row from where it is in `before` to where it is in `after`. */
  ghost predicate Leads(op: Operation, before: Tables, after: Tables) {
    Keyed(op) && Apply(StepOf(op).effect, Lookup(before, op.Id())) == Ok(Lookup(after, op.Id()))
  }

  ghost predicate Mentions(ops: seq<Operation>, id: RowId) {
    exists op :: op in ops && op.Id() == id
  }

  lemma MentionedIsTouched(ops: seq<Operation>, id: RowId)
    ensures Mentions(ops, id) <==> !Untouched(StepsOf(ops), id)
  {
    if op :| op in ops && op.Id() == id {
      var i :| 0 <= i < |ops| && ops[i] == op;
      assert StepsOf(ops)[i] in StepsOf(ops);
    }
    if s :| s in StepsOf(ops) && s.id == id {
      var i :| 0 <= i < |ops| && StepsOf(ops)[i] == s;
      assert ops[i] in ops;
    }
  }

  lemma LeadingSettles(before: Tables, ops: seq<Operation>, after: Tables)
    requires forall op :: op in ops ==> Leads(op, before, after)
    requires forall id :: !Mentions(ops, id) ==> Lookup(before, id) == Lookup(after, id)
    ensures Settled(before, StepsOf(ops), after)
  {
    var steps := StepsOf(ops);
    forall s | s in steps ensures Apply(s.effect, Lookup(before, s.id)) == Ok(Lookup(after, s.id)) {
      var i :| 0 <= i < |steps| && steps[i] == s;
      assert ops[i] in ops;
    }
    forall id | Untouched(steps, id) ensures Lookup(before, id) == Lookup(after, id) {
      MentionedIsTouched(ops, id);
    }
  }

  /** Operations on distinct rows lead from one state to another exactly when each of them leads its own row there. */
  lemma ExecuteAllLeadsIff(before: Tables, ops: seq<Operation>, after: Tables)
    requires WellKeyed(before) && DistinctRows(StepsOf(ops)) && forall op :: op in ops ==> KeyAgrees(op)
    requires forall id :: !Mentions(ops, id) ==> Lookup(before, id) == Lookup(after, id)
    ensures ExecuteAll(before, ops) == Ok(after) <==> forall op :: op in ops ==> Leads(op, before, after)
  {
    var steps := StepsOf(ops);
    if forall op :: op in ops ==> Leads(op, before, after) {
      ExecuteAllIsSteps(before, ops);
      RunStepsSettles(before, steps);
      LeadingSettles(before, ops, after);
      SettledIsUnique(before, steps, steps, RunSteps(before, steps).value, after);
    }
    if ExecuteAll(before, ops) == Ok(after) {
      AllExecutedAreKeyed(before, ops);
      ExecuteAllIsSteps(before, ops);
      RunStepsSettles(before, steps);
      forall op | op in ops ensures Leads(op, before, after) {
        var i :| 0 <= i < |ops| && ops[i] == op;
        assert steps[i] in steps;
      }
    }
  }
}
