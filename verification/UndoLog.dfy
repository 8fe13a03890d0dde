/**
 The undo records that a flushed batch leaves: taken back in any order they restore the tables as they were before
 the batch.
 */
module UndoLog {
  import opened Prelude
  import opened Database
  import opened RowEffects

  /** A record names its row in full, and the row that it kept is a row of that key. */
  ghost predicate RecordKeyed(r: Record) {
    && r.id.table.Valid() && r.id.key.Keys == r.id.table.PrimarySet()
    && (!r.kind.InsertedRow? ==> r.prev.Some? && KeyOf(r.id.table, r.prev.value) == r.id.key)
  }

  function UndoStep(r: Record): Step {
    var prev := if r.prev.Some? then r.prev.value else map[];
    Step(r.id, match r.kind
               case InsertedRow => Remove
               case UpdatedRow => ReplaceIfPresent(prev)
               case DeletedRow => PutNew(prev))
  }

  /** What `revertOp` does is the step of the record's own row. */
  lemma RevertRecordIsStep(tables: Tables, r: Record)
    requires WellKeyed(tables) && RecordKeyed(r)
    ensures RevertRecord(tables, r) == RunStep(tables, UndoStep(r))
    ensures RevertRecord(tables, r).Ok? ==> WellKeyed(RevertRecord(tables, r).value)
  {
    if !r.kind.InsertedRow? {
      var prev := r.prev.value;
      forall c | c in r.id.table.PrimarySet() ensures c in prev {
        assert c in KeyOf(r.id.table, prev);
      }
      var c := r.id.table.primaryColumns[0];
      assert c in r.id.table.PrimarySet() && c in prev;
      if r.kind.UpdatedRow? {
        ReplaceIsStore(tables, r.id, prev);
      }
    }
  }

  lemma ReplaceIsStore(tables: Tables, id: RowId, row: Row)
    requires KeyOf(id.table, row) == id.key
    ensures id in tables ==> MoveRow(tables, id, row) == Ok(Store(tables, id, Some(row)))
    ensures id !in tables ==> Store(tables, id, None) == tables
  {
    if id in tables {
      assert (tables - {id})[id := row] == tables[id := row];
    } else {
      assert tables - {id} == tables;
    }
  }

  // ----- row by row -----

  /** The records of one row, in order. */
  function RecordsOn(records: seq<Record>, id: RowId): seq<Record> {
    if records == [] then []
    else (if records[0].id == id then [records[0]] else []) + RecordsOn(records[1..], id)
  }

  ghost predicate HasRecord(records: seq<Record>, id: RowId) {
    exists r :: r in records && r.id == id
  }

  lemma {:induction false} OnRow(records: seq<Record>, id: RowId)
    ensures forall r :: r in RecordsOn(records, id) <==> r in records && r.id == id
    ensures HasRecord(records, id) <==> RecordsOn(records, id) != []
  {
    if records != [] {
      OnRow(records[1..], id);
      assert forall r :: r in records <==> r == records[0] || r in records[1..];
      if RecordsOn(records, id) != [] {
        assert RecordsOn(records, id)[0] in RecordsOn(records, id);
      }
    }
  }

  lemma {:induction false} OnRowAppend(a: seq<Record>, b: seq<Record>, id: RowId)
    ensures RecordsOn(a + b, id) == RecordsOn(a, id) + RecordsOn(b, id)
  {
    if a == [] {
      assert a + b == b;
    } else {
      assert (a + b)[0] == a[0] && (a + b)[1..] == a[1..] + b;
      OnRowAppend(a[1..], b, id);
      Associative(if a[0].id == id then [a[0]] else [], RecordsOn(a[1..], id), RecordsOn(b, id));
    }
  }

  lemma {:induction false} CountOnRow(records: seq<Record>, id: RowId, r: Record)
    ensures multiset(RecordsOn(records, id))[r] == if r.id == id then multiset(records)[r] else 0
  {
    if records != [] {
      CountOnRow(records[1..], id, r);
      assert records == [records[0]] + records[1..];
    }
  }

  lemma SameOnRow(a: seq<Record>, b: seq<Record>, id: RowId)
    requires multiset(a) == multiset(b)
    ensures multiset(RecordsOn(a, id)) == multiset(RecordsOn(b, id))
  {
    forall r ensures multiset(RecordsOn(a, id))[r] == multiset(RecordsOn(b, id))[r] {
      CountOnRow(a, id, r);
      CountOnRow(b, id, r);
    }
  }

  /** What the records of one row make of it. */
  function UndoRow(own: seq<Record>, row: Option<Row>): Result<Option<Row>>
    decreases |own|
  {
    if own == [] then Ok(row)
    else match Apply(UndoStep(own[0]).effect, row)
      case Err(e) => Err(e)
      case Ok(next) => UndoRow(own[1..], next)
  }

  ghost predicate RowsUndo(tables: Tables, records: seq<Record>) {
    forall id :: UndoRow(RecordsOn(records, id), Lookup(tables, id)).Ok?
  }

  ghost predicate UndoneTo(tables: Tables, records: seq<Record>, result: Tables) {
    forall id :: UndoRow(RecordsOn(records, id), Lookup(tables, id)) == Ok(Lookup(result, id))
  }

  /** Taking back records is taking back each row's own, whatever stands between them. */
  lemma {:induction false} RevertByRow(tables: Tables, records: seq<Record>)
    requires WellKeyed(tables) && forall r :: r in records ==> RecordKeyed(r)
    ensures RevertRecords(tables, records).Ok? <==> RowsUndo(tables, records)
    ensures RevertRecords(tables, records).Ok? ==>
              && WellKeyed(RevertRecords(tables, records).value)
              && UndoneTo(tables, records, RevertRecords(tables, records).value)
    decreases |records|
  {
    if records != [] {
      var r, rest := records[0], records[1..];
      assert r in records;
      RevertRecordIsStep(tables, r);
      match RevertRecord(tables, r)
      case Err(_) =>
        assert RecordsOn(records, r.id)[0] == r;
        assert UndoRow(RecordsOn(records, r.id), Lookup(tables, r.id)).Err?;
      case Ok(next) =>
        RevertByRow(next, rest);
        forall id ensures UndoRow(RecordsOn(records, id), Lookup(tables, id)) ==
                          UndoRow(RecordsOn(rest, id), Lookup(next, id))
        {
          UndoFirst(tables, records, next, id);
        }
    }
  }

  lemma UndoFirst(tables: Tables, records: seq<Record>, next: Tables, id: RowId)
    requires records != [] && RunStep(tables, UndoStep(records[0])) == Ok(next)
    ensures UndoRow(RecordsOn(records, id), Lookup(tables, id)) ==
            UndoRow(RecordsOn(records[1..], id), Lookup(next, id))
  {
    var r, rest := records[0], records[1..];
    if r.id == id {
      assert RecordsOn(records, id) == [r] + RecordsOn(rest, id);
      assert ([r] + RecordsOn(rest, id))[1..] == RecordsOn(rest, id);
      assert Apply(UndoStep(r).effect, Lookup(tables, id)) == Ok(Lookup(next, id));
    } else {
      assert RecordsOn(records, id) == [] + RecordsOn(rest, id) == RecordsOn(rest, id);
    }
  }

  // ----- records that lead back -----

  /** The record takes its row from `after` back to `before`. */
  ghost predicate TakesBack(before: Tables, r: Record, after: Tables) {
    Apply(UndoStep(r).effect, Lookup(after, r.id)) == Ok(Lookup(before, r.id))
  }

  /** The record leaves its row in `before` there, and takes it from `after` nowhere else. */
  ghost predicate KeepsBefore(before: Tables, r: Record, after: Tables) {
    && Apply(UndoStep(r).effect, Lookup(before, r.id)) == Ok(Lookup(before, r.id))
    && (TakesBack(before, r, after) || Apply(UndoStep(r).effect, Lookup(after, r.id)) == Ok(Lookup(after, r.id)))
  }

  /** The records of one row bear one block and lead it back; several of them do so in whatever order. */
  ghost predicate RowUndone(before: Tables, own: seq<Record>, after: Tables) {
    && (exists r :: r in own && TakesBack(before, r, after))
    && (|own| > 1 ==> forall r :: r in own ==> KeepsBefore(before, r, after))
    && (forall r, q :: r in own && q in own ==> r.id == q.id && r.block == q.block)
  }

  /** The rows with a record can be taken back; nothing is said of the other rows. */
  ghost predicate Undoes(before: Tables, records: seq<Record>, after: Tables) {
    && (forall r :: r in records ==> RecordKeyed(r))
    && (forall id :: RecordsOn(records, id) != [] ==> RowUndone(before, RecordsOn(records, id), after))
  }

  /** The records lead from `after` back to `before`: every row that differs has one. */
  ghost predicate Restores(before: Tables, records: seq<Record>, after: Tables) {
    && Undoes(before, records, after)
    && (forall id :: !HasRecord(records, id) ==> Lookup(before, id) == Lookup(after, id))
  }

  lemma {:induction false} StaysBefore(before: Tables, own: seq<Record>, after: Tables, id: RowId)
    requires forall r :: r in own ==> r.id == id && KeepsBefore(before, r, after)
    ensures UndoRow(own, Lookup(before, id)) == Ok(Lookup(before, id))
    decreases |own|
  {
    if own != [] {
      assert own[0] in own;
      StaysBefore(before, own[1..], after, id);
    }
  }

  lemma {:induction false} ReachesBefore(before: Tables, own: seq<Record>, after: Tables, id: RowId)
    requires forall r :: r in own ==> r.id == id && KeepsBefore(before, r, after)
    requires exists r :: r in own && TakesBack(before, r, after)
    ensures UndoRow(own, Lookup(after, id)) == Ok(Lookup(before, id))
    decreases |own|
  {
    assert own[0] in own;
    if TakesBack(before, own[0], after) {
      StaysBefore(before, own[1..], after, id);
    } else {
      assert own == [own[0]] + own[1..];
      ReachesBefore(before, own[1..], after, id);
    }
  }

  lemma SameMembers<T>(a: seq<T>, b: seq<T>)
    requires multiset(a) == multiset(b)
    ensures forall x :: x in a <==> x in b
    ensures |a| == |b|
  {
    forall x ensures x in a <==> x in b {
      assert x in multiset(a) <==> x in a;
      assert x in multiset(b) <==> x in b;
    }
    assert |multiset(a)| == |a| && |multiset(b)| == |b|;
  }

  lemma UndoneRow(before: Tables, own: seq<Record>, after: Tables, id: RowId, order: seq<Record>)
    requires RowUndone(before, own, after) && (forall r :: r in own ==> r.id == id) && multiset(order) == multiset(own)
    ensures UndoRow(order, Lookup(after, id)) == Ok(Lookup(before, id))
  {
    SameMembers(order, own);
    if |own| > 1 {
      ReachesBefore(before, order, after, id);
    } else {
      assert order[0] in own && order[1..] == [];
    }
  }

  /** Whatever the order, the rows with a record come back and the others stay. */
  lemma UndoneRows(before: Tables, records: seq<Record>, after: Tables, order: seq<Record>)
    requires Undoes(before, records, after) && WellKeyed(after) && multiset(order) == multiset(records)
    ensures RevertRecords(after, order).Ok? && WellKeyed(RevertRecords(after, order).value)
    ensures forall id :: Lookup(RevertRecords(after, order).value, id) ==
                         if HasRecord(records, id) then Lookup(before, id) else Lookup(after, id)
  {
    SameMembers(order, records);
    forall id ensures UndoRow(RecordsOn(order, id), Lookup(after, id)) ==
                      Ok(if HasRecord(records, id) then Lookup(before, id) else Lookup(after, id))
    {
      OnRow(records, id);
      SameOnRow(order, records, id);
      if HasRecord(records, id) {
        UndoneRow(before, RecordsOn(records, id), after, id, RecordsOn(order, id));
      } else {
        SameMembers(RecordsOn(order, id), RecordsOn(records, id));
      }
    }
    RevertByRow(after, order);
  }

  /** Whatever the order in which the records are taken back, the tables before them come back. */
  lemma RevertAnyOrder(before: Tables, records: seq<Record>, after: Tables, order: seq<Record>)
    requires Restores(before, records, after) && WellKeyed(after)
    requires multiset(order) == multiset(records)
    ensures RevertRecords(after, order) == Ok(before)
  {
    UndoneRows(before, records, after, order);
    SameLookups(RevertRecords(after, order).value, before);
  }

  // ----- a flush saves what it takes to go back -----

  /** Every record of a batch belongs to the row of a reversible operation and bears its block. */
  lemma {:induction false} SavedFromOps(tables: Tables, ops: seq<Operation>, r: Record)
    requires r in SaveAll(tables, ops)
    ensures exists op :: op in ops && op.Id() == r.id && op.reversible == Some(r.block)
    decreases |ops|
  {
    if r in Save(tables, ops[0]) {
      assert ops[0] in ops;
    } else {
      SavedFromOps(Execute(tables, ops[0]).value, ops[1..], r);
      var op :| op in ops[1..] && op.Id() == r.id && op.reversible == Some(r.block);
      assert op in ops;
    }
  }

  lemma SaveDependsOnRow(a: Tables, b: Tables, op: Operation)
    requires Lookup(a, op.Id()) == Lookup(b, op.Id())
    ensures Save(a, op) == Save(b, op)
  {
  }

  /** The records that a batch saves of a row are those that its operation on the row would save on its own. */
  lemma {:induction false} SavedOnRow(tables: Tables, ops: seq<Operation>, op: Operation)
    requires WellKeyed(tables) && DistinctRows(StepsOf(ops)) && (forall o :: o in ops ==> Keyed(o)) && op in ops
    requires ExecuteAll(tables, ops).Ok?
    ensures RecordsOn(SaveAll(tables, ops), op.Id()) == Save(tables, op)
    decreases |ops|
  {
    var first, rest := ops[0], ops[1..];
    var next := Execute(tables, first).value;
    ExecuteIsStep(tables, first);
    assert StepsOf(rest) == StepsOf(ops)[1..];
    OnRowAppend(Save(tables, first), SaveAll(next, rest), op.Id());
    if op == first {
      forall o | o in rest ensures o.Id() != op.Id() {
        LaterIsOther(ops, o);
      }
      UnmentionedHasNone(next, rest, op.Id());
      OneOnRow(Save(tables, op), op.Id());
    } else {
      LaterIsOther(ops, op);
      SaveDependsOnRow(next, tables, op);
      SavedOnRow(next, rest, op);
      NoneOnRow(Save(tables, first), op.Id());
    }
  }

  lemma LaterIsOther(ops: seq<Operation>, op: Operation)
    requires ops != [] && DistinctRows(StepsOf(ops)) && op in ops[1..]
    ensures op.Id() != ops[0].Id()
  {
    var i :| 1 <= i < |ops| && ops[i] == op;
    assert StepsOf(ops)[0].id != StepsOf(ops)[i].id;
  }

  lemma OneOnRow(records: seq<Record>, id: RowId)
    requires |records| <= 1 && forall r :: r in records ==> r.id == id
    ensures RecordsOn(records, id) == records
  {
  }

  lemma NoneOnRow(records: seq<Record>, id: RowId)
    requires forall r :: r in records ==> r.id != id
    ensures RecordsOn(records, id) == []
  {
    OnRow(records, id);
    assert !HasRecord(records, id);
  }

  lemma UnmentionedHasNone(tables: Tables, ops: seq<Operation>, id: RowId)
    requires !Mentions(ops, id)
    ensures RecordsOn(SaveAll(tables, ops), id) == [] && !HasRecord(SaveAll(tables, ops), id)
  {
    forall r | r in SaveAll(tables, ops) ensures r.id != id {
      SavedFromOps(tables, ops, r);
    }
    NoneOnRow(SaveAll(tables, ops), id);
  }

  /** What one operation of a batch does to its row, and how its record takes that back. */
  lemma OperationReverts(tables: Tables, op: Operation, after: Tables)
    requires WellKeyed(tables) && Keyed(op)
    requires Apply(StepOf(op).effect, Lookup(tables, op.Id())) == Ok(Lookup(after, op.Id()))
    ensures forall r :: r in Save(tables, op) ==> RecordKeyed(r) && TakesBack(tables, r, after) && r.id == op.Id()
    ensures forall r :: r in Save(tables, op) ==> op.reversible == Some(r.block)
    ensures op.reversible.Some? && Save(tables, op) == [] ==> Lookup(tables, op.Id()) == Lookup(after, op.Id())
  {
  }

  /** Whichever operations of a batch are reversible, the records that it saves take their own rows back. */
  lemma SavedBatchUndoes(tables: Tables, ops: seq<Operation>)
    requires WellKeyed(tables) && DistinctRows(StepsOf(ops)) && forall op :: op in ops ==> Keyed(op)
    requires ExecuteAll(tables, ops).Ok?
    ensures Undoes(tables, SaveAll(tables, ops), ExecuteAll(tables, ops).value)
  {
    var records, after := SaveAll(tables, ops), ExecuteAll(tables, ops).value;
    forall r | r in records ensures RecordKeyed(r) {
      SavedFromOps(tables, ops, r);
      var op :| op in ops && op.Id() == r.id;
      SavedByOperation(tables, ops, op, after);
      OnRow(records, r.id);
    }
    forall id | RecordsOn(records, id) != [] ensures RowUndone(tables, RecordsOn(records, id), after) {
      OnRow(records, id);
      var r := RecordsOn(records, id)[0];
      SavedFromOps(tables, ops, r);
      var op :| op in ops && op.Id() == r.id;
      SavedByOperation(tables, ops, op, after);
      assert r in RecordsOn(records, id);
    }
  }

  lemma SavedByOperation(tables: Tables, ops: seq<Operation>, op: Operation, after: Tables)
    requires WellKeyed(tables) && DistinctRows(StepsOf(ops)) && (forall o :: o in ops ==> Keyed(o)) && op in ops
    requires ExecuteAll(tables, ops) == Ok(after)
    ensures var own := RecordsOn(SaveAll(tables, ops), op.Id());
            && own == Save(tables, op) && |own| <= 1
            && (forall r :: r in own ==> RecordKeyed(r) && TakesBack(tables, r, after) && r.id == op.Id())
            && (forall r :: r in own ==> op.reversible == Some(r.block))
  {
    OperationSettles(tables, ops, op);
    OperationReverts(tables, op, after);
    SavedOnRow(tables, ops, op);
  }

  lemma OperationSettles(tables: Tables, ops: seq<Operation>, op: Operation)
    requires WellKeyed(tables) && DistinctRows(StepsOf(ops)) && op in ops
    requires forall o :: o in ops ==> Keyed(o)
    requires ExecuteAll(tables, ops).Ok?
    ensures Apply(StepOf(op).effect, Lookup(tables, op.Id())) == Ok(Lookup(ExecuteAll(tables, ops).value, op.Id()))
  {
    ExecuteAllIsSteps(tables, ops);
    RunStepsSettles(tables, StepsOf(ops));
    var i :| 0 <= i < |ops| && ops[i] == op;
    assert StepsOf(ops)[i] in StepsOf(ops);
  }

  /** A row whose operation is reversible, or that has none, is as before if it has no record. */
  lemma NoRecordNoChange(tables: Tables, ops: seq<Operation>, id: RowId)
    requires WellKeyed(tables) && DistinctRows(StepsOf(ops)) && forall op :: op in ops ==> Keyed(op)
    requires ExecuteAll(tables, ops).Ok? && !HasRecord(SaveAll(tables, ops), id)
    requires forall op :: op in ops && op.Id() == id ==> op.reversible.Some?
    ensures Lookup(tables, id) == Lookup(ExecuteAll(tables, ops).value, id)
  {
    var after := ExecuteAll(tables, ops).value;
    if op :| op in ops && op.Id() == id {
      OperationSettles(tables, ops, op);
      OperationReverts(tables, op, after);
      SavedOnRow(tables, ops, op);
      OnRow(SaveAll(tables, ops), id);
    } else {
      ExecuteAllIsSteps(tables, ops);
      RunStepsSettles(tables, StepsOf(ops));
      MentionedIsTouched(ops, id);
    }
  }

  /** A batch of reversible operations over distinct rows saves records that restore the tables before it. */
  lemma SavedBatchRestores(tables: Tables, ops: seq<Operation>)
    requires WellKeyed(tables) && DistinctRows(StepsOf(ops))
    requires forall op :: op in ops ==> Keyed(op) && op.reversible.Some?
    requires ExecuteAll(tables, ops).Ok?
    ensures Restores(tables, SaveAll(tables, ops), ExecuteAll(tables, ops).value)
  {
    SavedBatchUndoes(tables, ops);
    forall id | !HasRecord(SaveAll(tables, ops), id)
      ensures Lookup(tables, id) == Lookup(ExecuteAll(tables, ops).value, id)
    {
      NoRecordNoChange(tables, ops, id);
    }
  }

  /** What the statement and the record of one reversible operation do to its row. */
  lemma SavedStepReverts(tables: Tables, op: Operation, next: Tables)
    requires WellKeyed(tables) && Keyed(op) && op.reversible.Some? && Execute(tables, op) == Ok(next)
    ensures Restores(tables, Save(tables, op), next)
  {
    assert [op][1..] == [] && ExecuteAll(next, []) == Ok(next);
    assert SaveAll(tables, [op]) == Save(tables, op) + [] == Save(tables, op);
    SavedBatchRestores(tables, [op]);
  }
}
