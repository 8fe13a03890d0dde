/**
 The undo history as a sequence: its parts above and below a block, and what taking back the records above a block
 leaves of a batch that lies on both sides of it.
 */
module UndoHistory {
  import opened Prelude
  import opened Database
  import opened RowEffects
  import opened UndoLog

  // ----- above and below a block -----

  lemma {:induction false} AboveAppend(a: seq<Record>, b: seq<Record>, block: nat)
    ensures Above(a + b, block) == Above(a, block) + Above(b, block)
    ensures UpTo(a + b, block) == UpTo(a, block) + UpTo(b, block)
  {
    if a == [] {
      assert a + b == b;
    } else {
      AboveAppend(a[1..], b, block);
      AboveFirst(a, b, block);
      Associative(if a[0].block > block then [a[0]] else [], Above(a[1..], block), Above(b, block));
      Associative(if a[0].block <= block then [a[0]] else [], UpTo(a[1..], block), UpTo(b, block));
    }
  }

  lemma AboveFirst(a: seq<Record>, b: seq<Record>, block: nat)
    requires a != []
    ensures Above(a + b, block) == (if a[0].block > block then [a[0]] else []) + Above(a[1..] + b, block)
    ensures UpTo(a + b, block) == (if a[0].block <= block then [a[0]] else []) + UpTo(a[1..] + b, block)
  {
    assert (a + b)[0] == a[0] && (a + b)[1..] == a[1..] + b;
  }

  lemma {:induction false} AboveAbove(a: seq<Record>, low: nat, high: nat)
    requires low <= high
    ensures Above(Above(a, low), high) == Above(a, high)
    ensures UpTo(Above(a, low), high) == Above(UpTo(a, high), low)
  {
    if a != [] {
      AboveAbove(a[1..], low, high);
      AboveAppend(if a[0].block > low then [a[0]] else [], Above(a[1..], low), high);
      AboveAppend(if a[0].block <= high then [a[0]] else [], UpTo(a[1..], high), low);
      assert [a[0]][1..] == [];
    }
  }

  lemma {:induction false} AboveAll(a: seq<Record>, block: nat)
    ensures (forall r :: r in a ==> r.block > block) ==> Above(a, block) == a && UpTo(a, block) == []
    ensures (forall r :: r in a ==> r.block <= block) ==> Above(a, block) == [] && UpTo(a, block) == a
  {
    if a != [] {
      assert a == [a[0]] + a[1..];
      AboveAll(a[1..], block);
    }
  }

  lemma {:induction false} SidesOf(records: seq<Record>, block: nat, r: Record)
    ensures r in Above(records, block) <==> r in records && r.block > block
    ensures r in UpTo(records, block) <==> r in records && r.block <= block
  {
    if records != [] {
      SidesOf(records[1..], block, r);
      assert records == [records[0]] + records[1..];
    }
  }

  /** The records of a row above a block are those above it of the row's records. */
  lemma {:induction false} AboveOnRow(records: seq<Record>, block: nat, id: RowId)
    ensures RecordsOn(Above(records, block), id) == Above(RecordsOn(records, id), block)
    ensures RecordsOn(UpTo(records, block), id) == UpTo(RecordsOn(records, id), block)
  {
    if records != [] {
      var first, rest := records[0], records[1..];
      AboveOnRow(rest, block, id);
      OnRowAppend(if first.block > block then [first] else [], Above(rest, block), id);
      OnRowAppend(if first.block <= block then [first] else [], UpTo(rest, block), id);
      AboveAppend(if first.id == id then [first] else [], RecordsOn(rest, id), block);
      assert [first][1..] == [];
    }
  }

  /** A row whose records lead it back has all of them on one side of a block. */
  lemma RowOnOneSide(before: Tables, records: seq<Record>, after: Tables, block: nat, id: RowId)
    requires Undoes(before, records, after)
    ensures var own, high, low :=
              RecordsOn(records, id), RecordsOn(Above(records, block), id), RecordsOn(UpTo(records, block), id);
            (high == own && low == []) || (high == [] && low == own)
  {
    var own := RecordsOn(records, id);
    AboveOnRow(records, block, id);
    AboveAll(own, block);
    if own != [] {
      assert RowUndone(before, own, after) && own[0] in own;
    }
  }

  // ----- the order of the query's answer -----

  function Leading(order: seq<Record>, block: nat): (n: nat)
    ensures n <= |order|
    ensures forall i :: 0 <= i < n ==> order[i].block >= block
    ensures n < |order| ==> order[n].block < block
  {
    if order == [] || order[0].block < block then 0 else 1 + Leading(order[1..], block)
  }

  ghost predicate Descending(order: seq<Record>) {
    forall i, j :: 0 <= i < j < |order| ==> order[i].block >= order[j].block
  }

  lemma {:induction false} RevertRecordsAppend(tables: Tables, a: seq<Record>, mid: Tables, b: seq<Record>)
    requires RevertRecords(tables, a) == Ok(mid)
    ensures RevertRecords(tables, a + b) == RevertRecords(mid, b)
    decreases |a|
  {
    if a == [] {
      assert a + b == b;
    } else {
      assert (a + b)[0] == a[0] && (a + b)[1..] == a[1..] + b;
      RevertRecordsAppend(RevertRecord(tables, a[0]).value, a[1..], mid, b);
    }
  }

  /** What the query's answer holds below the top batch is below it in block number too. */
  lemma TailIsLow(order: seq<Record>, block: nat)
    requires Descending(order)
    ensures var n := Leading(order, block);
            (forall r :: r in order[..n] ==> r.block >= block) && (forall r :: r in order[n..] ==> r.block < block)
    ensures Descending(order[Leading(order, block)..])
  {
    var n := Leading(order, block);
    forall i | n <= i < |order| ensures order[i].block < block {
      assert order[n].block >= order[i].block;
    }
  }

  /** Two piles of records that are equal as a whole are equal above a block and below it. */
  lemma SplitPiles(order: seq<Record>, n: nat, low: seq<Record>, top: seq<Record>, rest: seq<Record>, block: nat)
    requires n <= |order| && multiset(order) + multiset(low) == multiset(rest + top)
    requires (forall r :: r in order[..n] ==> r.block >= block) && (forall r :: r in top ==> r.block >= block)
    requires (forall r :: r in order[n..] ==> r.block < block) && (forall r :: r in low ==> r.block < block)
    requires forall r :: r in rest ==> r.block < block
    ensures multiset(order[..n]) == multiset(top)
    ensures multiset(order[n..]) + multiset(low) == multiset(rest)
  {
    assert order == order[..n] + order[n..];
    forall r
      ensures multiset(order[..n])[r] == multiset(top)[r]
      ensures (multiset(order[n..]) + multiset(low))[r] == multiset(rest)[r]
    {
      assert (multiset(order) + multiset(low))[r] ==
             multiset(order[..n])[r] + multiset(order[n..])[r] + multiset(low)[r];
      assert multiset(rest + top)[r] == multiset(rest)[r] + multiset(top)[r];
      CountsBySide(order[..n], order[n..], low, top, rest, block, r);
    }
  }

  lemma CountsBySide(a: seq<Record>, b: seq<Record>, low: seq<Record>, top: seq<Record>, rest: seq<Record>, block: nat,
                     r: Record)
    requires (forall q :: q in a ==> q.block >= block) && (forall q :: q in top ==> q.block >= block)
    requires (forall q :: q in b ==> q.block < block) && (forall q :: q in low ==> q.block < block)
    requires forall q :: q in rest ==> q.block < block
    ensures r.block >= block ==> multiset(b)[r] == multiset(low)[r] == multiset(rest)[r] == 0
    ensures r.block < block ==> multiset(a)[r] == multiset(top)[r] == 0
  {
    if r.block >= block {
      assert r !in b && r !in low && r !in rest;
    } else {
      assert r !in a && r !in top;
    }
  }

  // ----- taking back a part of a batch -----

  /** The tables once the records above a block have been taken back. */
  function Halfway(after: Tables, records: seq<Record>, block: nat): Tables {
    match RevertRecords(after, Above(records, block))
    case Ok(tables) => tables
    case Err(_) => after
  }

  lemma AboveUndoes(before: Tables, records: seq<Record>, after: Tables, block: nat)
    requires Undoes(before, records, after)
    ensures Undoes(before, Above(records, block), after)
  {
    forall r | r in Above(records, block) ensures RecordKeyed(r) {
      SidesOf(records, block, r);
    }
    forall id | RecordsOn(Above(records, block), id) != []
      ensures RowUndone(before, RecordsOn(Above(records, block), id), after)
    {
      RowOnOneSide(before, records, after, block, id);
    }
  }

  lemma HalfwayIsReached(before: Tables, records: seq<Record>, after: Tables, block: nat)
    requires Undoes(before, records, after) && WellKeyed(after)
    ensures RevertRecords(after, Above(records, block)) == Ok(Halfway(after, records, block))
    ensures WellKeyed(Halfway(after, records, block))
  {
    AboveUndoes(before, records, after, block);
    UndoneRows(before, Above(records, block), after, Above(records, block));
  }

  /** Row by row: as before the batch if it has a record above the block, as after the batch otherwise. */
  lemma HalfwayRows(before: Tables, records: seq<Record>, after: Tables, block: nat, id: RowId)
    requires Undoes(before, records, after) && WellKeyed(after)
    ensures Lookup(Halfway(after, records, block), id) ==
            if HasRecord(Above(records, block), id) then Lookup(before, id) else Lookup(after, id)
  {
    AboveUndoes(before, records, after, block);
    UndoneRows(before, Above(records, block), after, Above(records, block));
  }

  /** The records above the block lead from the end of the batch to halfway. */
  lemma HalfwayRestores(before: Tables, records: seq<Record>, after: Tables, block: nat)
    requires Undoes(before, records, after) && WellKeyed(after)
    ensures Restores(Halfway(after, records, block), Above(records, block), after)
    ensures WellKeyed(Halfway(after, records, block))
  {
    var half, above := Halfway(after, records, block), Above(records, block);
    AboveUndoes(before, records, after, block);
    HalfwayIsReached(before, records, after, block);
    forall id ensures Lookup(half, id) == if HasRecord(above, id) then Lookup(before, id) else Lookup(after, id) {
      HalfwayRows(before, records, after, block, id);
    }
    forall id | RecordsOn(above, id) != [] ensures RowUndone(half, RecordsOn(above, id), after) {
      OnRow(above, id);
      RowUndoneElsewhere(before, RecordsOn(above, id), after, half, after);
    }
  }

  /** Only the row itself matters. */
  lemma RowUndoneElsewhere(before: Tables, own: seq<Record>, after: Tables, before': Tables, after': Tables)
    requires RowUndone(before, own, after)
    requires forall r :: r in own ==> Lookup(before, r.id) == Lookup(before', r.id)
    requires forall r :: r in own ==> Lookup(after, r.id) == Lookup(after', r.id)
    ensures RowUndone(before', own, after')
  {
    var r :| r in own && TakesBack(before, r, after);
    assert TakesBack(before', r, after');
    if |own| > 1 {
      forall q | q in own ensures KeepsBefore(before', q, after') {
        assert KeepsBefore(before, q, after);
      }
    }
  }

  /** The records at or below the block lead from halfway to the start of the batch, for their own rows. */
  lemma HalfwayUndoes(before: Tables, records: seq<Record>, after: Tables, block: nat)
    requires Undoes(before, records, after) && WellKeyed(after)
    ensures Undoes(before, UpTo(records, block), Halfway(after, records, block))
  {
    var low, half := UpTo(records, block), Halfway(after, records, block);
    forall r | r in low ensures RecordKeyed(r) {
      SidesOf(records, block, r);
    }
    forall id | RecordsOn(low, id) != [] ensures RowUndone(before, RecordsOn(low, id), half) {
      RowOnOneSide(before, records, after, block, id);
      OnRow(low, id);
      OnRow(Above(records, block), id);
      HalfwayRows(before, records, after, block, id);
      RowUndoneElsewhere(before, RecordsOn(low, id), after, before, half);
    }
  }
}
