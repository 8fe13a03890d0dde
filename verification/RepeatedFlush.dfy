/**
 A batch that is executed more than once because the commits before were not acknowledged: the tables do not notice,
 but the history gets the records of every execution.
 */
module RepeatedFlush {
  import opened Prelude
  import opened Database
  import opened RowEffects
  import opened RetriedFlush
  import opened UndoLog
  import opened UndoHistory

  // ----- the tables -----

  lemma ApplyTwice(effect: Effect, r0: Option<Row>, r1: Option<Row>)
    requires Apply(effect, r0) == Ok(r1)
    ensures Apply(effect, r1).Err? || Apply(effect, r1) == Ok(r1)
  {
    if effect.Merge? || effect.MergeIfPresent? {
      var base: Row := if r0.Some? then r0.value else map[];
      assert (base + effect.row) + effect.row == base + effect.row;
    }
  }

  /** A batch that is executed over its own result either fails or changes nothing. */
  lemma ReplayIsHarmless(tables: Tables, ops: seq<Operation>, after: Tables)
    requires WellKeyed(tables) && (forall op :: op in ops ==> Keyed(op)) && DistinctRows(StepsOf(ops))
    requires ExecuteAll(tables, ops) == Ok(after)
    ensures ExecuteAll(after, ops).Err? || ExecuteAll(after, ops) == Ok(after)
  {
    var steps := StepsOf(ops);
    ExecuteAllIsSteps(tables, ops);
    ExecuteAllIsSteps(after, ops);
    RunStepsSettles(tables, steps);
    RunStepsSettles(after, steps);
    if RunSteps(after, steps).Ok? {
      assert Settled(after, steps, after) by {
        forall s | s in steps ensures Apply(s.effect, Lookup(after, s.id)) == Ok(Lookup(after, s.id)) {
          ApplyTwice(s.effect, Lookup(tables, s.id), Lookup(after, s.id));
        }
      }
      SettledIsUnique(after, steps, steps, RunSteps(after, steps).value, after);
    }
  }

  // ----- the history -----

  function Copies(records: seq<Record>, n: nat): seq<Record> {
    if n == 0 then [] else records + Copies(records, n - 1)
  }

  /** The records of a batch that is executed `n` times. */
  function SaveRepeated(tables: Tables, ops: seq<Operation>, n: nat): seq<Record> {
    if n == 0 || ExecuteAll(tables, ops).Err? then []
    else SaveAll(tables, ops) + Copies(SaveAll(ExecuteAll(tables, ops).value, ops), n - 1)
  }

  lemma PruneAgain(history: seq<Record>, more: seq<Record>, rest: seq<Record>, block: nat)
    ensures Above(Above(history + more, block) + rest, block) == Above(history + (more + rest), block)
  {
    AboveAppend(Above(history + more, block), rest, block);
    AboveAbove(history + more, block, block);
    AboveAppend(history + more, rest, block);
    Associative(history, more, rest);
  }

  /** What the batch leaves when it is executed over its own result. */
  function Again(db: Db, ops: seq<Operation>, finalBlock: nat, n: nat): Db {
    db.(history := Above(db.history + Copies(SaveAll(db.tables, ops), n), finalBlock))
  }

  lemma NoMore(db: Db, ops: seq<Operation>, finalBlock: nat)
    requires Above(db.history, finalBlock) == db.history
    ensures Again(db, ops, finalBlock, 0) == db
  {
    assert db.history + [] == db.history;
  }

  lemma OnceMore(db: Db, ops: seq<Operation>, cursor: Cursor, finalBlock: nat, n: nat)
    requires db.cursor == Some(cursor) && ExecuteAll(db.tables, ops) == Ok(db.tables)
    ensures FlushTransaction(db, ops, cursor, finalBlock) == Ok(Again(db, ops, finalBlock, 1))
    ensures Again(Again(db, ops, finalBlock, 1), ops, finalBlock, n) == Again(db, ops, finalBlock, 1 + n)
    ensures Above(Again(db, ops, finalBlock, 1).history, finalBlock) == Again(db, ops, finalBlock, 1).history
  {
    var saved := SaveAll(db.tables, ops);
    assert Copies(saved, 1) == saved + [] == saved;
    AboveAbove(db.history + saved, finalBlock, finalBlock);
    PruneAgain(db.history, saved, Copies(saved, n), finalBlock);
  }

  /** Over its own result the batch adds a copy of the same records each time. */
  lemma {:induction false} AppliedAgain(
    db: Db, ops: seq<Operation>, cursor: Cursor, finalBlock: nat, attempts: seq<Attempt>)
    requires db.cursor == Some(cursor) && Above(db.history, finalBlock) == db.history
    requires ExecuteAll(db.tables, ops).Ok? ==> ExecuteAll(db.tables, ops) == Ok(db.tables)
    ensures var n := TimesApplied(db, ops, cursor, finalBlock, attempts);
            && (n > 0 ==> ExecuteAll(db.tables, ops).Ok?)
            && TryFlush(db, ops, cursor, finalBlock, attempts).db == Again(db, ops, finalBlock, n)
    decreases |attempts|
  {
    NoMore(db, ops, finalBlock);
    if attempts != [] {
      var rest := attempts[1..];
      if ExecuteAll(db.tables, ops).Err? || attempts[0].Fails? {
        AppliedAgain(db, ops, cursor, finalBlock, rest);
      } else {
        var next := Again(db, ops, finalBlock, 1);
        OnceMore(db, ops, cursor, finalBlock, TimesApplied(next, ops, cursor, finalBlock, rest));
        AppliedAgain(next, ops, cursor, finalBlock, rest);
      }
    }
  }

  /** What the database is after `n` executions of the batch in a row. */
  function Applied(db: Db, ops: seq<Operation>, cursor: Cursor, finalBlock: nat, after: Tables, n: nat): Db {
    if n == 0 then db
    else Db(after, Above(db.history + SaveRepeated(db.tables, ops, n), finalBlock), Some(cursor))
  }

  lemma FirstApplied(db: Db, ops: seq<Operation>, cursor: Cursor, finalBlock: nat, after: Tables, n: nat)
    requires db.cursor.Some? && ExecuteAll(db.tables, ops) == Ok(after)
    ensures FlushTransaction(db, ops, cursor, finalBlock) == Ok(Applied(db, ops, cursor, finalBlock, after, 1))
    ensures Again(Applied(db, ops, cursor, finalBlock, after, 1), ops, finalBlock, n) ==
            Applied(db, ops, cursor, finalBlock, after, 1 + n)
    ensures Above(Applied(db, ops, cursor, finalBlock, after, 1).history, finalBlock) ==
            Applied(db, ops, cursor, finalBlock, after, 1).history
  {
    var saved := SaveAll(db.tables, ops);
    assert SaveRepeated(db.tables, ops, 1) == saved + [] == saved;
    AboveAbove(db.history + saved, finalBlock, finalBlock);
    PruneAgain(db.history, saved, Copies(SaveAll(after, ops), n), finalBlock);
  }

  /** Whatever the attempts, the database is that after as many executions as were applied. */
  lemma {:induction false} AppliedTimes(
    db: Db, ops: seq<Operation>, cursor: Cursor, finalBlock: nat, attempts: seq<Attempt>, after: Tables)
    requires ExecuteAll(db.tables, ops) == Ok(after)
    requires ExecuteAll(after, ops).Ok? ==> ExecuteAll(after, ops) == Ok(after)
    ensures var n := TimesApplied(db, ops, cursor, finalBlock, attempts);
            && (n > 1 ==> ExecuteAll(after, ops).Ok?)
            && TryFlush(db, ops, cursor, finalBlock, attempts).db == Applied(db, ops, cursor, finalBlock, after, n)
    decreases |attempts|
  {
    if attempts != [] {
      var rest := attempts[1..];
      if db.cursor.None? || attempts[0].Fails? {
        AppliedTimes(db, ops, cursor, finalBlock, rest, after);
      } else {
        var next := Applied(db, ops, cursor, finalBlock, after, 1);
        FirstApplied(db, ops, cursor, finalBlock, after, TimesApplied(next, ops, cursor, finalBlock, rest));
        AppliedAgain(next, ops, cursor, finalBlock, rest);
      }
    }
  }

  lemma {:induction false} AppliedExecutes(
    db: Db, ops: seq<Operation>, cursor: Cursor, finalBlock: nat, attempts: seq<Attempt>)
    requires TimesApplied(db, ops, cursor, finalBlock, attempts) > 0
    ensures ExecuteAll(db.tables, ops).Ok? && db.cursor.Some?
    decreases |attempts|
  {
    if ExecuteAll(db.tables, ops).Err? || db.cursor.None? {
      AppliedExecutes(db, ops, cursor, finalBlock, attempts[1..]);
    }
  }

  // ----- the records of one row -----

  lemma {:induction false} CopiesOnRow(records: seq<Record>, n: nat, id: RowId)
    ensures RecordsOn(Copies(records, n), id) == Copies(RecordsOn(records, id), n)
  {
    if n > 0 {
      CopiesOnRow(records, n - 1, id);
      OnRowAppend(records, Copies(records, n - 1), id);
    }
  }

  lemma {:induction false} InCopies(records: seq<Record>, n: nat, r: Record)
    ensures r in Copies(records, n) <==> n > 0 && r in records
  {
    if n > 0 {
      InCopies(records, n - 1, r);
    }
  }

  /** The operation of a row saves its record over the row as it was, and then over the row that it left. */
  lemma RepeatedOnRow(tables: Tables, ops: seq<Operation>, n: nat, op: Operation, after: Tables)
    requires WellKeyed(tables) && DistinctRows(StepsOf(ops)) && (forall o :: o in ops ==> Keyed(o)) && op in ops
    requires ExecuteAll(tables, ops) == Ok(after) && n > 0 && (n > 1 ==> ExecuteAll(after, ops).Ok?)
    ensures RecordsOn(SaveRepeated(tables, ops, n), op.Id()) == Save(tables, op) + Copies(Save(after, op), n - 1)
  {
    ExecuteAllIsSteps(tables, ops);
    SavedOnRow(tables, ops, op);
    OnRowAppend(SaveAll(tables, ops), Copies(SaveAll(after, ops), n - 1), op.Id());
    if n > 1 {
      SavedOnRow(after, ops, op);
      CopiesOnRow(SaveAll(after, ops), n - 1, op.Id());
    }
  }

  /** Each record belongs to the row of a reversible operation and bears its block. */
  lemma RepeatedFromOps(tables: Tables, ops: seq<Operation>, n: nat, r: Record)
    requires r in SaveRepeated(tables, ops, n)
    ensures exists op :: op in ops && op.Id() == r.id && op.reversible == Some(r.block)
  {
    if r in SaveAll(tables, ops) {
      SavedFromOps(tables, ops, r);
    } else {
      var after := ExecuteAll(tables, ops).value;
      InCopies(SaveAll(after, ops), n - 1, r);
      SavedFromOps(after, ops, r);
    }
  }

  lemma RepeatedAreKeyed(tables: Tables, ops: seq<Operation>, n: nat, after: Tables)
    requires WellKeyed(tables) && DistinctRows(StepsOf(ops)) && forall op :: op in ops ==> Keyed(op)
    requires ExecuteAll(tables, ops) == Ok(after) && (n > 1 ==> ExecuteAll(after, ops).Ok?)
    ensures forall r :: r in SaveRepeated(tables, ops, n) ==> RecordKeyed(r)
  {
    forall r | r in SaveRepeated(tables, ops, n) ensures RecordKeyed(r) {
      RepeatedIsKeyed(tables, ops, n, after, r);
    }
  }

  lemma RepeatedIsKeyed(tables: Tables, ops: seq<Operation>, n: nat, after: Tables, r: Record)
    requires WellKeyed(tables) && DistinctRows(StepsOf(ops)) && forall op :: op in ops ==> Keyed(op)
    requires ExecuteAll(tables, ops) == Ok(after) && (n > 1 ==> ExecuteAll(after, ops).Ok?)
    requires r in SaveRepeated(tables, ops, n)
    ensures RecordKeyed(r)
  {
    if r in SaveAll(tables, ops) {
      SavedBatchUndoes(tables, ops);
    } else {
      ExecuteAllIsSteps(tables, ops);
      InCopies(SaveAll(after, ops), n - 1, r);
      SavedBatchUndoes(after, ops);
    }
  }

  // ----- when the records of all executions lead back -----

  /** If it writes to a stored row, the row has the data already. */
  predicate WritesNothingNew(op: Operation, tables: Tables) {
    (op.opType.Update? || op.opType.Upsert?) && op.Id() in tables ==> Written(tables[op.Id()], op.data)
  }

  /** Then none of the records takes the row away from where it was. */
  lemma RecordsKeepBefore(tables: Tables, op: Operation, after: Tables)
    requires WellKeyed(tables) && Keyed(op) && WritesNothingNew(op, tables)
    requires Apply(StepOf(op).effect, Lookup(tables, op.Id())) == Ok(Lookup(after, op.Id()))
    requires Apply(StepOf(op).effect, Lookup(after, op.Id())).Ok? && Save(after, op) != []
    ensures Save(tables, op) != []
    ensures forall r :: r in Save(tables, op) || r in Save(after, op) ==> KeepsBefore(tables, r, after)
  {
    if op.Id() in tables {
      WrittenIff(tables[op.Id()], op.data);
    }
  }

  lemma RepeatedRowUndone(tables: Tables, op: Operation, n: nat, after: Tables)
    requires WellKeyed(tables) && Keyed(op) && WritesNothingNew(op, tables)
    requires Apply(StepOf(op).effect, Lookup(tables, op.Id())) == Ok(Lookup(after, op.Id()))
    requires n > 0 ==> Apply(StepOf(op).effect, Lookup(after, op.Id())).Ok?
    ensures var own := Save(tables, op) + Copies(Save(after, op), n);
            own != [] ==> RowUndone(tables, own, after)
  {
    var first, again := Save(tables, op), Save(after, op);
    var own := first + Copies(again, n);
    OperationReverts(tables, op, after);
    forall r ensures r in own <==> r in first || (n > 0 && r in again) {
      InCopies(again, n, r);
    }
    assert forall r :: r in first || r in again ==> r.id == op.Id() && op.reversible == Some(r.block);
    if again != [] && n > 0 {
      RecordsKeepBefore(tables, op, after);
      assert first[0] in own;
    } else {
      NoCopies(again, n);
      assert own == first;
      if own != [] {
        assert first[0] in own;
      }
    }
  }

  lemma {:induction false} NoCopies(records: seq<Record>, n: nat)
    requires records == [] || n == 0
    ensures Copies(records, n) == []
  {
    if n > 0 {
      NoCopies(records, n - 1);
    }
  }

  lemma RepeatedUndoes(tables: Tables, ops: seq<Operation>, n: nat, after: Tables)
    requires WellKeyed(tables) && DistinctRows(StepsOf(ops)) && forall op :: op in ops ==> Keyed(op)
    requires ExecuteAll(tables, ops) == Ok(after) && n > 0 && (n > 1 ==> ExecuteAll(after, ops).Ok?)
    requires n == 1 || forall op :: op in ops ==> WritesNothingNew(op, tables)
    ensures Undoes(tables, SaveRepeated(tables, ops, n), after)
  {
    var records := SaveRepeated(tables, ops, n);
    RepeatedAreKeyed(tables, ops, n, after);
    if n == 1 {
      assert SaveAll(tables, ops) + [] == SaveAll(tables, ops);
      SavedBatchUndoes(tables, ops);
    } else {
      forall id | RecordsOn(records, id) != [] ensures RowUndone(tables, RecordsOn(records, id), after) {
        OnRow(records, id);
        var r := RecordsOn(records, id)[0];
        RepeatedFromOps(tables, ops, n, r);
        var op :| op in ops && op.Id() == r.id;
        RepeatedOnRow(tables, ops, n, op, after);
        ExecuteAllIsSteps(tables, ops);
        OperationSettles(tables, ops, op);
        OperationSettles(after, ops, op);
        RepeatedRowUndone(tables, op, n - 1, after);
      }
    }
  }

  /** If the operations are reversible, the records of all executions restore the tables before the first. */
  lemma RepeatedRestores(tables: Tables, ops: seq<Operation>, n: nat, after: Tables)
    requires WellKeyed(tables) && DistinctRows(StepsOf(ops))
    requires forall op :: op in ops ==> Keyed(op) && op.reversible.Some?
    requires ExecuteAll(tables, ops) == Ok(after) && n > 0 && (n > 1 ==> ExecuteAll(after, ops).Ok?)
    requires n == 1 || forall op :: op in ops ==> WritesNothingNew(op, tables)
    ensures Restores(tables, SaveRepeated(tables, ops, n), after)
  {
    RepeatedUndoes(tables, ops, n, after);
    forall id | !HasRecord(SaveRepeated(tables, ops, n), id) ensures Lookup(tables, id) == Lookup(after, id) {
      NoRepeatedRecord(tables, ops, n, id);
      NoRecordNoChange(tables, ops, id);
    }
  }

  lemma NoRepeatedRecord(tables: Tables, ops: seq<Operation>, n: nat, id: RowId)
    requires ExecuteAll(tables, ops).Ok? && n > 0 && !HasRecord(SaveRepeated(tables, ops, n), id)
    ensures !HasRecord(SaveAll(tables, ops), id)
  {
    forall r | r in SaveAll(tables, ops) ensures r.id != id {
      assert r in SaveRepeated(tables, ops, n);
    }
  }

  // ----- an answer in the order of writing -----

  /** The record goes before the first that is not above it. */
  function Place(r: Record, sorted: seq<Record>): seq<Record> {
    if sorted == [] || sorted[0].block <= r.block then [r] + sorted
    else [sorted[0]] + Place(r, sorted[1..])
  }

  /** Higher blocks first, and the records of a block as they were written. */
  function ByBlock(records: seq<Record>): seq<Record> {
    if records == [] then [] else Place(records[0], ByBlock(records[1..]))
  }

  lemma {:induction false} PlaceKeepsSorted(r: Record, sorted: seq<Record>)
    requires Descending(sorted)
    ensures Descending(Place(r, sorted)) && multiset(Place(r, sorted)) == multiset(sorted) + multiset{r}
    ensures Place(r, sorted)[0] == r || (sorted != [] && Place(r, sorted)[0] == sorted[0])
  {
    if sorted == [] || sorted[0].block <= r.block {
      FirstKeepsDescending(r, sorted);
    } else {
      var rest := Place(r, sorted[1..]);
      PlaceKeepsSorted(r, sorted[1..]);
      assert sorted == [sorted[0]] + sorted[1..];
      FirstKeepsDescending(sorted[0], rest);
    }
  }

  lemma FirstKeepsDescending(r: Record, rest: seq<Record>)
    requires Descending(rest) && (rest != [] ==> rest[0].block <= r.block)
    ensures Descending([r] + rest)
    ensures multiset([r] + rest) == multiset(rest) + multiset{r}
  {
    forall j | 0 <= j < |rest| ensures r.block >= rest[j].block {
      assert rest[0].block >= rest[j].block;
    }
  }

  /** A record goes before those of its own row, if they bear its block. */
  lemma {:induction false} PlaceOnRow(r: Record, sorted: seq<Record>, id: RowId)
    requires forall q :: q in sorted && q.id == id && r.id == id ==> q.block == r.block
    ensures RecordsOn(Place(r, sorted), id) == (if r.id == id then [r] else []) + RecordsOn(sorted, id)
  {
    if sorted != [] && sorted[0].block > r.block {
      var rest := Place(r, sorted[1..]);
      assert sorted[0] in sorted;
      PlaceOnRow(r, sorted[1..], id);
      assert ([sorted[0]] + rest)[1..] == rest;
    } else {
      assert ([r] + sorted)[1..] == sorted;
    }
  }

  lemma {:induction false} ByBlockIsAnswer(records: seq<Record>)
    ensures Descending(ByBlock(records)) && multiset(ByBlock(records)) == multiset(records)
  {
    if records != [] {
      ByBlockIsAnswer(records[1..]);
      assert records == [records[0]] + records[1..];
      PlaceKeepsSorted(records[0], ByBlock(records[1..]));
    }
  }

  /** In this answer of the query the records of a row stand as they were written. */
  lemma {:induction false} ByBlockKeepsRows(records: seq<Record>, id: RowId)
    requires forall r, q :: r in records && q in records && r.id == id && q.id == id ==> r.block == q.block
    ensures RecordsOn(ByBlock(records), id) == RecordsOn(records, id)
  {
    if records != [] {
      var rest := ByBlock(records[1..]);
      ByBlockKeepsRows(records[1..], id);
      ByBlockIsAnswer(records[1..]);
      SameMembers(rest, records[1..]);
      assert forall q :: q in records[1..] ==> q in records;
      assert records[0] in records;
      PlaceOnRow(records[0], rest, id);
    }
  }

  lemma {:induction false} LastCopyWins(r: Record, n: nat, row: Row)
    requires r.kind.UpdatedRow? && r.prev.Some? && n > 0
    ensures UndoRow(Copies([r], n), Some(row)) == Ok(r.prev)
  {
    assert Copies([r], n)[0] == r && Copies([r], n)[1..] == Copies([r], n - 1);
    if n > 1 {
      LastCopyWins(r, n - 1, r.prev.value);
    }
  }

  /** A stored row that was written to comes back as the first execution left it. */
  lemma WrittenRowStays(tables: Tables, op: Operation, n: nat, after: Tables)
    requires op.reversible.Some? && !WritesNothingNew(op, tables) && n > 0
    requires Apply(StepOf(op).effect, Lookup(tables, op.Id())) == Ok(Lookup(after, op.Id()))
    ensures UndoRow(Save(tables, op) + Copies(Save(after, op), n), Lookup(after, op.Id())) ==
            Ok(Lookup(after, op.Id())) != Ok(Lookup(tables, op.Id()))
  {
    var base := tables[op.Id()];
    var first := Record(UpdatedRow, op.Id(), Some(base), op.reversible.value);
    var again := Record(UpdatedRow, op.Id(), Some(base + op.data), op.reversible.value);
    WrittenIff(base, op.data);
    assert Save(tables, op) == [first] && Save(after, op) == [again];
    assert ([first] + Copies([again], n))[1..] == Copies([again], n);
    LastCopyWins(again, n, base);
  }

  // ----- the exact condition -----

  ghost predicate RevertsTo(db: Db, order: seq<Record>, lastValid: nat, cursor: Cursor, tables: Tables) {
    match RevertTransaction(db, order, lastValid, cursor)
    case Ok(next) => next.tables == tables
    case Err(_) => false
  }

  ghost predicate EveryAnswerRevertsTo(db: Db, lastValid: nat, cursor: Cursor, tables: Tables) {
    forall order :: QueryAnswer(db.history, lastValid, order) ==> RevertsTo(db, order, lastValid, cursor, tables)
  }

  lemma HistoryAbove(history: seq<Record>, more: seq<Record>, finalBlock: nat, lastValid: nat)
    requires finalBlock <= lastValid && (forall r :: r in history ==> r.block <= lastValid)
    requires forall r :: r in more ==> r.block > lastValid
    ensures Above(Above(history + more, finalBlock), lastValid) == more
  {
    AboveAbove(history + more, finalBlock, lastValid);
    AboveAppend(history, more, lastValid);
    AboveAll(history, lastValid);
    AboveAll(more, lastValid);
    assert [] + more == more;
  }

  lemma SpoiledAnswer(tables: Tables, ops: seq<Operation>, n: nat, after: Tables, op: Operation)
    requires WellKeyed(tables) && DistinctRows(StepsOf(ops)) && (forall o :: o in ops ==> Keyed(o)) && op in ops
    requires ExecuteAll(tables, ops) == Ok(after) && ExecuteAll(after, ops).Ok? && n > 1
    requires op.reversible.Some? && !WritesNothingNew(op, tables)
    ensures var order := ByBlock(SaveRepeated(tables, ops, n));
            && Descending(order) && multiset(order) == multiset(SaveRepeated(tables, ops, n))
            && RevertRecords(after, order) != Ok(tables)
  {
    var records, id := SaveRepeated(tables, ops, n), op.Id();
    var order := ByBlock(records);
    RepeatedOnRow(tables, ops, n, op, after);
    OneBlockOnRow(tables, ops, n, op);
    ByBlockIsAnswer(records);
    ByBlockKeepsRows(records, id);
    ExecuteAllIsSteps(tables, ops);
    OperationSettles(tables, ops, op);
    WrittenRowStays(tables, op, n - 1, after);
    RepeatedAreKeyed(tables, ops, n, after);
    SameMembers(order, records);
    RevertByRow(after, order);
  }

  lemma OneBlockOnRow(tables: Tables, ops: seq<Operation>, n: nat, op: Operation)
    requires DistinctRows(StepsOf(ops)) && op in ops
    ensures forall r :: r in SaveRepeated(tables, ops, n) && r.id == op.Id() ==> op.reversible == Some(r.block)
  {
    forall r | r in SaveRepeated(tables, ops, n) && r.id == op.Id() ensures op.reversible == Some(r.block) {
      RepeatedFromOps(tables, ops, n, r);
      var o :| o in ops && o.Id() == r.id && o.reversible == Some(r.block);
      var i :| 0 <= i < |ops| && ops[i] == o;
      var j :| 0 <= j < |ops| && ops[j] == op;
      assert StepsOf(ops)[i].id == StepsOf(ops)[j].id;
    }
  }

  lemma RepeatedAreAbove(tables: Tables, ops: seq<Operation>, n: nat, lastValid: nat)
    requires forall op :: op in ops ==> op.reversible.Some? && op.reversible.value > lastValid
    ensures forall r :: r in SaveRepeated(tables, ops, n) ==> r.block > lastValid
  {
    forall r | r in SaveRepeated(tables, ops, n) ensures r.block > lastValid {
      RepeatedFromOps(tables, ops, n, r);
    }
  }

  lemma NothingToRevert(db: Db, lastValid: nat, cursor: Cursor)
    requires db.cursor.Some? && Above(db.history, lastValid) == []
    ensures EveryAnswerRevertsTo(db, lastValid, cursor, db.tables)
  {
    forall order | QueryAnswer(db.history, lastValid, order)
      ensures RevertsTo(db, order, lastValid, cursor, db.tables)
    {
      SameMembers(order, []);
    }
  }

  lemma RepeatedRevertIff(db: Db, before: Tables, ops: seq<Operation>, n: nat, lastValid: nat, cursor: Cursor)
    requires WellKeyed(before) && DistinctRows(StepsOf(ops)) && n > 0 && db.cursor.Some?
    requires forall op :: op in ops ==> Keyed(op) && op.reversible.Some?
    requires ExecuteAll(before, ops) == Ok(db.tables) && (n > 1 ==> ExecuteAll(db.tables, ops).Ok?)
    requires Above(db.history, lastValid) == SaveRepeated(before, ops, n)
    ensures EveryAnswerRevertsTo(db, lastValid, cursor, before) <==>
            n == 1 || forall op :: op in ops ==> WritesNothingNew(op, before)
  {
    var records := SaveRepeated(before, ops, n);
    ExecuteAllIsSteps(before, ops);
    if n == 1 || forall op :: op in ops ==> WritesNothingNew(op, before) {
      RepeatedRestores(before, ops, n, db.tables);
      RestoringAnswers(db, before, records, lastValid, cursor);
    } else {
      var op :| op in ops && !WritesNothingNew(op, before);
      SpoiledAnswer(before, ops, n, db.tables, op);
      SpoilingAnswer(db, before, ByBlock(records), lastValid, cursor);
    }
  }

  lemma SpoilingAnswer(db: Db, before: Tables, order: seq<Record>, lastValid: nat, cursor: Cursor)
    requires Descending(order) && multiset(order) == multiset(Above(db.history, lastValid)) && db.cursor.Some?
    requires RevertRecords(db.tables, order) != Ok(before)
    ensures !EveryAnswerRevertsTo(db, lastValid, cursor, before)
  {
    assert QueryAnswer(db.history, lastValid, order);
    assert !RevertsTo(db, order, lastValid, cursor, before);
  }

  lemma RestoringAnswers(db: Db, before: Tables, records: seq<Record>, lastValid: nat, cursor: Cursor)
    requires Restores(before, records, db.tables) && WellKeyed(db.tables) && db.cursor.Some?
    requires Above(db.history, lastValid) == records
    ensures EveryAnswerRevertsTo(db, lastValid, cursor, before)
  {
    forall order | QueryAnswer(db.history, lastValid, order) ensures RevertsTo(db, order, lastValid, cursor, before) {
      RevertAnyOrder(before, records, db.tables, order);
    }
  }

  /**
   A batch is flushed with any attempts, and a block below it is reverted to. Every answer of the query restores the
   tables from before the batch exactly when the batch was applied at most once or none of its updates and upserts
   wrote anything new to a stored row.
   */
  lemma RetriedRevertIff(
    db: Db, ops: seq<Operation>, cursor: Cursor, finalBlock: nat, attempts: seq<Attempt>, lastValid: nat, undo: Cursor)
    requires WellKeyed(db.tables) && DistinctRows(StepsOf(ops)) && db.cursor.Some?
    requires forall op :: op in ops ==> Keyed(op) && op.reversible.Some? && op.reversible.value > lastValid
    requires finalBlock <= lastValid && forall r :: r in db.history ==> r.block <= lastValid
    requires ExecuteAll(db.tables, ops).Ok?
    ensures EveryAnswerRevertsTo(TryFlush(db, ops, cursor, finalBlock, attempts).db, lastValid, undo, db.tables) <==>
            || TimesApplied(db, ops, cursor, finalBlock, attempts) <= 1
            || forall op :: op in ops ==> WritesNothingNew(op, db.tables)
  {
    var after, n := ExecuteAll(db.tables, ops).value, TimesApplied(db, ops, cursor, finalBlock, attempts);
    var flushed := TryFlush(db, ops, cursor, finalBlock, attempts).db;
    ReplayIsHarmless(db.tables, ops, after);
    AppliedTimes(db, ops, cursor, finalBlock, attempts, after);
    if n == 0 {
      AboveAll(db.history, lastValid);
      NothingToRevert(db, lastValid, undo);
    } else {
      RepeatedAreAbove(db.tables, ops, n, lastValid);
      HistoryAbove(db.history, SaveRepeated(db.tables, ops, n), finalBlock, lastValid);
      RepeatedRevertIff(flushed, db.tables, ops, n, lastValid, undo);
    }
  }

  /** A batch with an insert is applied at most once: the row that it inserted makes every further attempt fail. */
  lemma InsertIsAppliedOnce(
    db: Db, ops: seq<Operation>, cursor: Cursor, finalBlock: nat, attempts: seq<Attempt>, op: Operation)
    requires WellKeyed(db.tables) && DistinctRows(StepsOf(ops)) && forall o :: o in ops ==> Keyed(o)
    requires op in ops && op.opType.Insert? && ExecuteAll(db.tables, ops).Ok?
    ensures TimesApplied(db, ops, cursor, finalBlock, attempts) <= 1
  {
    var after := ExecuteAll(db.tables, ops).value;
    ExecuteAllIsSteps(db.tables, ops);
    ReplayIsHarmless(db.tables, ops, after);
    AppliedTimes(db, ops, cursor, finalBlock, attempts, after);
    OperationSettles(db.tables, ops, op);
    if ExecuteAll(after, ops).Ok? {
      OperationSettles(after, ops, op);
      assert false;
    }
  }

  // ----- an update whose commit is not acknowledged -----

  /** The records of an update that is applied twice. */
  function TwoRecords(op: Operation, base: Row, block: nat): seq<Record> {
    [Record(UpdatedRow, op.Id(), Some(base), block), Record(UpdatedRow, op.Id(), Some(base + op.data), block)]
  }

  lemma UpdateExecutes(tables: Tables, op: Operation, row: Row)
    requires WellKeyed(tables) && Keyed(op) && op.opType.Update? && op.reversible.Some?
    requires Lookup(tables, op.Id()) == Some(row)
    ensures Execute(tables, op) == Ok(tables[op.Id() := row + op.data])
    ensures Save(tables, op) == [Record(UpdatedRow, op.Id(), Some(row), op.reversible.value)]
    ensures WellKeyed(tables[op.Id() := row + op.data])
  {
    ExecuteIsStep(tables, op);
  }

  lemma UpdateAppliedTwice(db: Db, op: Operation, block: nat, finalBlock: nat)
    requires WellKeyed(db.tables) && Keyed(op) && op.opType.Update? && op.Id() in db.tables
    requires op.reversible == Some(block) && finalBlock < block && db.history == [] && db.cursor.Some?
    ensures var base := db.tables[op.Id()];
            TryFlush(db, [op], At(block), finalBlock, [AppliedButLost, Commits]) ==
            Outcome(Db(db.tables[op.Id() := base + op.data], TwoRecords(op, base, block), Some(At(block))), true)
  {
    var base := db.tables[op.Id()];
    var after, records := db.tables[op.Id() := base + op.data], TwoRecords(op, base, block);
    UpdateExecutes(db.tables, op, base);
    UpdateExecutes(after, op, base + op.data);
    assert (base + op.data) + op.data == base + op.data && after[op.Id() := base + op.data] == after;
    FlushesOne(db, op, At(block), finalBlock, after, records[0]);
    var middle := Db(after, [records[0]], Some(At(block)));
    FlushesOne(middle, op, At(block), finalBlock, after, records[1]);
    assert [] + [records[0]] == [records[0]] && [records[0]] + [records[1]] == records;
    LostThenCommitted(db, [op], At(block), finalBlock, middle, Db(after, records, Some(At(block))));
  }

  lemma LostThenCommitted(db: Db, ops: seq<Operation>, cursor: Cursor, finalBlock: nat, middle: Db, last: Db)
    requires FlushTransaction(db, ops, cursor, finalBlock) == Ok(middle)
    requires FlushTransaction(middle, ops, cursor, finalBlock) == Ok(last)
    ensures TryFlush(db, ops, cursor, finalBlock, [AppliedButLost, Commits]) == Outcome(last, true)
  {
    assert [AppliedButLost, Commits][1..] == [Commits];
  }

  lemma FlushesOne(db: Db, op: Operation, cursor: Cursor, finalBlock: nat, after: Tables, r: Record)
    requires Execute(db.tables, op) == Ok(after) && Save(db.tables, op) == [r] && db.cursor.Some?
    requires r.block > finalBlock && forall q :: q in db.history ==> q.block > finalBlock
    ensures FlushTransaction(db, [op], cursor, finalBlock) == Ok(Db(after, db.history + [r], Some(cursor)))
  {
    assert [op][1..] == [];
    assert ExecuteAll(after, []) == Ok(after) && SaveAll(after, []) == [];
    assert ExecuteAll(db.tables, [op]) == Ok(after) && SaveAll(db.tables, [op]) == [r] + [] == [r];
    AboveAll(db.history + [r], finalBlock);
  }

  lemma TwoRecordsInOrder(tables: Tables, op: Operation, base: Row, block: nat)
    requires WellKeyed(tables) && Keyed(op) && KeyOf(op.table, base) == op.primaryKey
    requires Lookup(tables, op.Id()) == Some(base + op.data)
    ensures RevertRecords(tables, TwoRecords(op, base, block)) == Ok(tables)
  {
    var id, order := op.Id(), TwoRecords(op, base, block);
    assert KeyOf(id.table, tables[id]) == id.key;
    ReplaceIsStore(tables, id, base);
    ReplaceIsStore(tables[id := base], id, base + op.data);
    assert tables[id := base][id := base + op.data] == tables;
    assert order[1..] == [order[1]] && order[1..][1..] == [];
    assert RevertRecords(tables[id := base], [order[1]]) == RevertRecord(tables[id := base], order[1]);
  }

  lemma TwoRecordsAreAnswer(op: Operation, base: Row, block: nat, lastValid: nat)
    requires lastValid < block
    ensures QueryAnswer(TwoRecords(op, base, block), lastValid, TwoRecords(op, base, block))
  {
    var records := TwoRecords(op, base, block);
    assert records[0].block == block && records[1].block == block;
    AllAboveIsAnswer(records, lastValid, block);
  }

  lemma AllAboveIsAnswer(records: seq<Record>, lastValid: nat, block: nat)
    requires lastValid < block && forall i :: 0 <= i < |records| ==> records[i].block == block
    ensures QueryAnswer(records, lastValid, records)
  {
    AboveAll(records, lastValid);
  }

  /**
   An update is flushed, its commit is applied without being acknowledged, and the flush is tried again. The second
   record holds what the first execution wrote, and the query may answer with it last: the revert then leaves the
   update in place.
   */
  lemma UnacknowledgedUpdateStays(db: Db, op: Operation, block: nat, finalBlock: nat, lastValid: nat, undo: Cursor)
    requires WellKeyed(db.tables) && Keyed(op) && op.opType.Update? && op.Id() in db.tables
    requires op.reversible == Some(block) && finalBlock <= lastValid < block && db.history == [] && db.cursor.Some?
    ensures var base := db.tables[op.Id()];
            var flushed := TryFlush(db, [op], At(block), finalBlock, [AppliedButLost, Commits]);
            var order := TwoRecords(op, base, block);
            && flushed.succeeded && QueryAnswer(flushed.db.history, lastValid, order)
            && RevertTransaction(flushed.db, order, lastValid, undo).Ok?
            && Lookup(RevertTransaction(flushed.db, order, lastValid, undo).value.tables, op.Id()) ==
               Some(base + op.data)
  {
    var base := db.tables[op.Id()];
    UpdateAppliedTwice(db, op, block, finalBlock);
    TwoRecordsAreAnswer(op, base, block, lastValid);
    UpdateExecutes(db.tables, op, base);
    assert KeyOf(op.table, base) == op.primaryKey;
    TwoRecordsInOrder(db.tables[op.Id() := base + op.data], op, base, block);
  }
}
