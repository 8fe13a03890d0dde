/** The CSV walk as it runs: rows are filled in buffers that come from a pool and must find their way back to it. */
module RowBuffers {
  import opened Prelude
  import opened TableSchema
  import opened MessageWalk

  /** A collected row: a buffer that the walk's caller owns until it releases it. */
  datatype Buffered = Buffered(table: string, buffer: array<Cell>)

  ghost function BuffersOf(rows: seq<Buffered>): set<array<Cell>> {
    set r | r in rows :: r.buffer
  }

  ghost predicate OneEach(rows: seq<Buffered>) {
    forall i, j :: 0 <= i < j < |rows| ==> rows[i].buffer != rows[j].buffer
  }

  ghost function Contents(rows: seq<Buffered>): seq<Row>
    reads BuffersOf(rows)
  {
    if rows == [] then []
    else
      assert rows[0] in rows && forall r :: r in rows[1..] ==> r in rows;
      [Row(rows[0].table, rows[0].buffer[..])] + Contents(rows[1..])
  }

  lemma {:induction false} ContentsAppend(a: seq<Buffered>, b: seq<Buffered>)
    ensures Contents(a + b) == Contents(a) + Contents(b)
  {
    if a == [] {
      assert a + b == b;
    } else {
      assert (a + b)[0] == a[0] && (a + b)[1..] == a[1..] + b;
      ContentsAppend(a[1..], b);
      Associative([Row(a[0].table, a[0].buffer[..])], Contents(a[1..]), Contents(b));
    }
  }

  lemma BuffersAppend(a: seq<Buffered>, b: seq<Buffered>)
    ensures BuffersOf(a + b) == BuffersOf(a) + BuffersOf(b)
  {
    forall x | x in BuffersOf(a) + BuffersOf(b) ensures x in BuffersOf(a + b) {
      var r :| (r in a || r in b) && r.buffer == x;
      assert r in a + b;
    }
  }

  lemma NextBuffer(rows: seq<Buffered>, i: nat)
    requires i < |rows| && OneEach(rows)
    ensures rows[i].buffer in BuffersOf(rows) && rows[i].buffer !in BuffersOf(rows[..i])
    ensures BuffersOf(rows[..i + 1]) == BuffersOf(rows[..i]) + {rows[i].buffer}
  {
    assert rows[i] in rows && rows[..i + 1] == rows[..i] + [rows[i]];
    BuffersAppend(rows[..i], [rows[i]]);
    OneRow(rows[i].table, rows[i].buffer);
  }

  lemma OneRow(table: string, buffer: array<Cell>)
    ensures var rows := [Buffered(table, buffer)];
            BuffersOf(rows) == {buffer} && OneEach(rows) && Contents(rows) == [Row(table, buffer[..])]
  {
    var rows := [Buffered(table, buffer)];
    assert rows[0] in rows && rows[1..] == [];
  }

  // ----- one assignment -----

  method AssignRowValue(row: array<Cell>, index: map<string, nat>, column: string, cell: Cell)
    modifies row
    ensures row[..] == Assign(index, old(row[..]), Named(column, cell))
  {
    if column !in index || index[column] >= row.Length {
      return;
    }
    row[index[column]] := cell;
  }

  lemma {:induction false} AssignAllAppend(index: map<string, nat>, row: seq<Cell>, a: seq<Named>, b: seq<Named>)
    ensures AssignAll(index, row, a + b) == AssignAll(index, AssignAll(index, row, a), b)
    decreases |a|
  {
    if a == [] {
      assert a + b == b;
    } else {
      assert (a + b)[0] == a[0] && (a + b)[1..] == a[1..] + b;
      AssignAllAppend(index, Assign(index, row, a[0]), a[1..], b);
    }
  }

  lemma AssignNext(index: map<string, nat>, row: seq<Cell>, a: seq<Named>, value: Named)
    ensures AssignAll(index, row, a + [value]) == Assign(index, AssignAll(index, row, a), value)
  {
    AssignAllAppend(index, row, a, [value]);
    assert [value][1..] == [];
  }

  method Clear(buffer: array<Cell>)
    modifies buffer
    ensures buffer[..] == seq(buffer.Length, i => Empty)
  {
    for i := 0 to buffer.Length
      invariant forall j :: 0 <= j < i ==> buffer[j] == Empty
    {
      buffer[i] := Empty;
    }
  }

  // ----- the pool -----

  type Pools = map<string, set<array<Cell>>>

  /** A buffer goes to the pool of its table, if there is one. */
  ghost function WithBuffer(pools: Pools, table: string, buffer: array<Cell>): Pools {
    if table in pools then pools[table := pools[table] + {buffer}] else pools
  }

  ghost function WithBuffers(pools: Pools, rows: seq<Buffered>): Pools {
    if rows == [] then pools
    else
      var last := rows[|rows| - 1];
      WithBuffer(WithBuffers(pools, rows[..|rows| - 1]), last.table, last.buffer)
  }

  lemma {:induction false} AllAreBack(pools: Pools, rows: seq<Buffered>)
    ensures WithBuffers(pools, rows).Keys == pools.Keys
    ensures forall t, b :: t in pools ==>
              (b in WithBuffers(pools, rows)[t] <==> b in pools[t] || Buffered(t, b) in rows)
  {
    if rows != [] {
      var n := |rows| - 1;
      AllAreBack(pools, rows[..n]);
      assert rows == rows[..n] + [rows[n]];
    }
  }

  /**
   One bag of idle buffers per table. `outstanding` are the buffers handed out and not yet given back; to give a buffer
   back it must be outstanding, so a buffer that is released twice or not at all does not go unnoticed.
   */
  class Pool {
    var pools: Pools
    ghost var idle: set<array<Cell>>
    ghost var outstanding: set<array<Cell>>
    ghost var home: map<array<Cell>, string>

    ghost predicate Valid()
      reads this
    {
      && idle !! outstanding
      && (forall b :: b in outstanding ==> b in home)
      && forall t, b :: t in pools && b in pools[t] ==> b in idle && b in home && home[b] == t
    }

    /** A pool, as yet empty, for each of the tables. */
    constructor (tables: seq<string>)
      ensures Valid() && idle == {} && outstanding == {} && pools.Keys == (set t | t in tables)
    {
      pools, idle, outstanding, home := map[], {}, {}, map[];
      new;
      for i := 0 to |tables|
        invariant Valid() && idle == {} && outstanding == {} && pools.Keys == (set t | t in tables[..i])
      {
        EnsureRowBufferPool(tables[i]);
        assert tables[..i + 1] == tables[..i] + [tables[i]];
      }
      assert tables[..|tables|] == tables;
    }

    method EnsureRowBufferPool(table: string)
      requires Valid()
      modifies this`pools
      ensures Valid() && pools == (if table in old(pools) then old(pools) else old(pools)[table := {}])
    {
      if table !in pools {
        pools := pools[table := {}];
      }
    }

    /** A cleared buffer of the asked size, which nobody else holds. */
    method AcquireRowBuffer(table: string, size: nat) returns (buffer: array<Cell>)
      requires Valid()
      modifies this, idle
      ensures Valid() && buffer !in old(outstanding) && outstanding == old(outstanding) + {buffer}
      ensures buffer in old(idle) || fresh(buffer)
      ensures idle <= old(idle) && pools.Keys == old(pools.Keys)
      ensures buffer in home && home[buffer] == table
      ensures forall b :: b in old(home) && b != buffer ==> b in home && home[b] == old(home)[b]
      ensures buffer[..] == seq(size, i => Empty)
    {
      if table in pools && pools[table] != {} {
        // The pool may also drop what it holds and make a buffer anew.
        if * {
          buffer := Take(table);
          if buffer.Length == size {
            Clear(buffer);
            return;
          }
          outstanding := outstanding - {buffer};
        }
      }
      buffer := new Cell[size](i => Empty);
      outstanding := outstanding + {buffer};
      home := home[buffer := table];
    }

    method Take(table: string) returns (buffer: array<Cell>)
      requires Valid() && table in pools && pools[table] != {}
      modifies this
      ensures Valid() && buffer !in old(outstanding) && outstanding == old(outstanding) + {buffer}
      ensures buffer in old(idle) && idle <= old(idle) && pools.Keys == old(pools.Keys)
      ensures buffer in old(home) && old(home)[buffer] == table && home == old(home)
    {
      buffer :| buffer in pools[table];
      pools := pools[table := pools[table] - {buffer}];
      idle := idle - {buffer};
      outstanding := outstanding + {buffer};
    }

    method ReleaseRowBuffer(table: string, buffer: array<Cell>)
      requires Valid() && buffer in outstanding && home[buffer] == table
      modifies this, buffer
      ensures Valid() && outstanding == old(outstanding) - {buffer} && idle <= old(idle) + {buffer}
      ensures home == old(home) && pools == WithBuffer(old(pools), table, buffer)
    {
      Clear(buffer);
      outstanding := outstanding - {buffer};
      if table in pools {
        pools := pools[table := pools[table] + {buffer}];
        idle := idle + {buffer};
      }
    }

    /** These rows are out of the pool, each in a buffer of its own; beside them only `others` are. */
    ghost predicate Holds(rows: seq<Buffered>, others: set<array<Cell>>)
      reads this
    {
      && OneEach(rows) && BuffersOf(rows) !! others && outstanding == BuffersOf(rows) + others
      && forall r :: r in rows ==> r.buffer in home && home[r.buffer] == r.table
    }

    /** Gives back all rows collected so far. */
    method ReleaseAccumulated(rows: seq<Buffered>, ghost others: set<array<Cell>>)
      requires Valid() && Holds(rows, others)
      modifies this, BuffersOf(rows)
      ensures Valid() && outstanding == others && idle <= old(idle) + BuffersOf(rows) && home == old(home)
      ensures pools == WithBuffers(old(pools), rows)
    {
      for i := 0 to |rows|
        invariant pools == WithBuffers(old(pools), rows[..i])
        invariant Valid() && outstanding == old(outstanding) - BuffersOf(rows[..i])
        invariant idle <= old(idle) + BuffersOf(rows[..i]) && home == old(home)
      {
        NextBuffer(rows, i);
        assert rows[i] in rows;
        ReleaseRowBuffer(rows[i].table, rows[i].buffer);
        assert rows[..i + 1][..i] == rows[..i] && rows[..i + 1][i] == rows[i];
      }
      assert rows[..|rows|] == rows;
    }

    // ----- the walk -----

    /** Fills the row, if there is one, from the fields and collects the messages among them. */
    method CollectFields(env: Env, t: Option<Table>, fields: seq<Field>, index: map<string, nat>, row: array?<Cell>)
      returns (r: Result<seq<FieldValue>>)
      requires t.Some? <==> row != null
      modifies if row != null then {row} else {}
      ensures var gathered := CsvFields(env, t, fields);
              if gathered.Err? then r == Err(gathered.error)
              else
                && r == Ok(gathered.value.children)
                && (row != null ==> row[..] == AssignAll(index, old(row[..]), gathered.value.values))
    {
      var children: seq<FieldValue> := [];
      ghost var values: seq<Named> := [];
      assert fields[0..] == fields && fields[|fields|..] == [];
      JoinedWithNothing(CsvFields(env, t, fields));
      for i := 0 to |fields|
        invariant CsvFields(env, t, fields) == Joined(Ok(Gathered(values, children)), CsvFields(env, t, fields[i..]))
        invariant row != null ==> row[..] == AssignAll(index, old(row[..]), values)
      {
        var f := fields[i];
        NextField(env, t, fields, i, values, children);
        assert values + [] == values && children + [] == children;
        if f.desc.oneof && !f.has {
          continue;
        }
        if IsKey(t, f.desc) {
          continue;
        }
        if f.value.Elements? {
          var items := f.value.items;
          for j := 0 to |items|
            invariant forall k :: 0 <= k < j ==> IsMessageValue(items[k])
          {
            if !IsMessageValue(items[j]) {
              return Err(RepeatedScalar);
            }
          }
          children := children + items;
        } else if f.value.Nested? {
          children := children + [f.value];
        } else if f.value.Native? && row != null {
          var converted := env.normalize(f.desc, f.value);
          if converted.Err? {
            return Err(converted.error);
          }
          var value := Named(ColumnNameOf(t.value.columns, f.desc), Normal(converted.value));
          AssignNext(index, old(row[..]), values, value);
          AssignRowValue(row, index, value.column, value.cell);
          values := values + [value];
        }
      }
      JoinedWithNothing(Ok(Gathered(values, children)));
      r := Ok(children);
    }

    ghost predicate HomeKept(before: map<array<Cell>, string>, kept: set<array<Cell>>)
      reads this
    {
      forall b :: b in kept ==> b in home && b in before && home[b] == before[b]
    }

    /** The row of a message with a table, in a buffer from the pool, and the messages below it. */
    method CollectOwnRow(env: Env, t: Table, m: Message, parent: Option<FieldValue>)
      returns (r: Result<(array<Cell>, seq<FieldValue>)>)
      requires Valid()
      modifies this, idle
      ensures Valid() && fresh(idle - old(idle)) && HomeKept(old(home), old(outstanding))
      ensures r.Err? ==> outstanding == old(outstanding) && OwnRow(env, t, m, parent) == Err(r.error)
      ensures r.Ok? ==>
                && r.value.0 !in old(outstanding) && outstanding == old(outstanding) + {r.value.0}
                && r.value.0 in home && home[r.value.0] == t.name
                && fresh({r.value.0} - old(idle))
                && OwnRow(env, t, m, parent) == Ok((Row(t.name, r.value.0[..]), r.value.1))
    {
      var columns := ColumnOrder(env.dialect, t);
      var index := ColumnIndex(columns);
      var row := AcquireRowBuffer(t.name, |columns|);
      var filled := FillLeading(env, t, m, parent, index, row);
      if !filled {
        ReleaseRowBuffer(t.name, row);
        return Err(MissingPrimaryKeyField);
      }
      var gathered := CollectFields(env, Some(t), m.fields, index, row);
      if gathered.Err? {
        ReleaseRowBuffer(t.name, row);
        return Err(gathered.error);
      }
      if gathered.value != [] && env.useProtoOptions && t.primaryKey.None? {
        ReleaseRowBuffer(t.name, row);
        return Err(NoKeyForChildren);
      }
      AssignAllAppend(index, seq(|columns|, i => Empty),
                      SystemValues(env) + KeyAssignment(t, m) + ParentAssignment(t, parent),
                      CsvFields(env, Some(t), m.fields).value.values);
      r := Ok((row, gathered.value));
    }

    /** The walk from one message down: on success the pool is owed exactly the returned rows, on any error nothing. */
    method CollectRows(env: Env, v: FieldValue, parent: Option<FieldValue>) returns (r: Result<seq<Buffered>>)
      requires Valid()
      modifies this, idle
      ensures Valid() && fresh(idle - old(idle)) && HomeKept(old(home), old(outstanding))
      ensures r.Err? ==> outstanding == old(outstanding) && CsvMessage(env, v, parent) == Err(r.error)
      ensures r.Ok? ==> Holds(r.value, old(outstanding)) && fresh(BuffersOf(r.value) - old(idle))
      ensures r.Ok? ==> CsvMessage(env, v, parent) == Ok(Contents(r.value))
      decreases ValueWeight(v), 0
    {
      if !v.Nested? {
        return Err(NilMessageReceived);
      }
      var m := v.message;
      var t := TableOf(env, m);
      OwnRowsFirst(env, v, parent);
      var own := CollectOwnRows(env, t, m, parent);
      if own.Err? {
        return Err(own.error);
      }
      var (rows, children) := own.value;
      var p := if t.Some? && children != [] && env.useProtoOptions then KeyValue(t, m) else None;
      CsvWeight(env, t, m.fields);
      r := CollectAll(env, children, rows, p, old(outstanding));
    }

    method CollectOwnRows(env: Env, t: Option<Table>, m: Message, parent: Option<FieldValue>)
      returns (r: Result<(seq<Buffered>, seq<FieldValue>)>)
      requires Valid()
      modifies this, idle
      ensures Valid() && fresh(idle - old(idle)) && HomeKept(old(home), old(outstanding))
      ensures r.Err? ==> outstanding == old(outstanding) && OwnRows(env, t, m, parent) == Err(r.error)
      ensures r.Ok? ==>
                && Holds(r.value.0, old(outstanding)) && fresh(BuffersOf(r.value.0) - old(idle))
                && OwnRows(env, t, m, parent) == Ok((Contents(r.value.0), r.value.1))
    {
      if t.None? {
        var gathered := CollectFields(env, t, m.fields, map[], null);
        if gathered.Err? {
          return Err(gathered.error);
        }
        return Ok(([], gathered.value));
      }
      var own := CollectOwnRow(env, t.value, m, parent);
      if own.Err? {
        return Err(own.error);
      }
      var rows := [Buffered(t.value.name, own.value.0)];
      OneRow(t.value.name, own.value.0);
      r := Ok((rows, own.value.1));
    }

    /** The rows of one child after those collected so far; if the child fails, all of them go back. */
    method CollectNext(
      env: Env, child: FieldValue, rows: seq<Buffered>, parent: Option<FieldValue>, ghost others: set<array<Cell>>)
      returns (r: Result<seq<Buffered>>)
      requires Valid() && Holds(rows, others)
      modifies this, idle, BuffersOf(rows)
      ensures Valid() && fresh(idle - old(idle) - BuffersOf(rows)) && HomeKept(old(home), others)
      ensures r.Err? ==> outstanding == others && CsvMessage(env, child, parent) == Err(r.error)
      ensures r.Ok? ==> Holds(r.value, others) && fresh(BuffersOf(r.value) - old(idle) - BuffersOf(rows))
      ensures r.Ok? ==> fresh(idle - old(idle))
      ensures r.Ok? ==> Prepended(old(Contents(rows)), CsvMessage(env, child, parent)) == Ok(Contents(r.value))
      decreases ValueWeight(child), 1
    {
      var below := CollectRows(env, child, parent);
      if below.Err? {
        ReleaseAccumulated(rows, others);
        return Err(below.error);
      }
      HoldsMore(rows, below.value, others);
      BuffersAppend(rows, below.value);
      ContentsAppend(rows, below.value);
      r := Ok(rows + below.value);
    }

    /** The rows of the children after those collected so far; if a child fails, all of them go back. */
    method CollectAll(
      env: Env, children: seq<FieldValue>, collected: seq<Buffered>, parent: Option<FieldValue>,
      ghost others: set<array<Cell>>)
      returns (r: Result<seq<Buffered>>)
      requires Valid() && Holds(collected, others)
      modifies this, idle, BuffersOf(collected)
      ensures Valid() && fresh(idle - old(idle) - BuffersOf(collected)) && HomeKept(old(home), others)
      ensures r.Err? ==> outstanding == others && CsvWalk(env, children, parent) == Err(r.error)
      ensures r.Ok? ==> Holds(r.value, others) && fresh(BuffersOf(r.value) - old(idle) - BuffersOf(collected))
      ensures r.Ok? ==> Prepended(old(Contents(collected)), CsvWalk(env, children, parent)) == Ok(Contents(r.value))
      decreases Weight(children), 2
    {
      var rows := collected;
      ghost var total := Prepended(Contents(collected), CsvWalk(env, children, parent));
      assert children[0..] == children;
      for i := 0 to |children|
        invariant Valid() && Holds(rows, others) && HomeKept(old(home), others)
        invariant fresh(idle - old(idle) - BuffersOf(collected))
        invariant fresh(BuffersOf(rows) - old(idle) - BuffersOf(collected))
        invariant total == Prepended(Contents(rows), CsvWalk(env, children[i..], parent))
      {
        MemberWeight(children, i);
        NextMessage(env, children, i, parent, Contents(rows));
        var more := CollectNext(env, children[i], rows, parent, others);
        if more.Err? {
          return Err(more.error);
        }
        rows := more.value;
      }
      assert children[|children|..] == [] && Contents(rows) + [] == Contents(rows);
      r := Ok(rows);
    }

    lemma HoldsMore(rows: seq<Buffered>, more: seq<Buffered>, others: set<array<Cell>>)
      requires Holds(more, BuffersOf(rows) + others)
      requires OneEach(rows) && BuffersOf(rows) !! others
      requires forall r :: r in rows ==> r.buffer in home && home[r.buffer] == r.table
      ensures Holds(rows + more, others)
    {
      BuffersAppend(rows, more);
      assert forall i :: 0 <= i < |rows| ==> rows[i] in rows && rows[i].buffer in BuffersOf(rows);
      assert forall j :: 0 <= j < |more| ==> more[j] in more && more[j].buffer in BuffersOf(more);
    }
  }

  /** The part of the CSV walk that concerns one row. */
  function OwnRow(env: Env, t: Table, m: Message, parent: Option<FieldValue>): Result<(Row, seq<FieldValue>)> {
    if KeyValue(Some(t), m) == Some(Native(None)) then Err(MissingPrimaryKeyField)
    else
      var gathered := CsvFields(env, Some(t), m.fields);
      if gathered.Err? then Err(gathered.error)
      else if NoKeyToGive(env, Some(t), gathered.value.children, None) then Err(NoKeyForChildren)
      else Ok((CsvRow(env, t, m, parent, gathered.value.values), gathered.value.children))
  }

  function OwnRows(env: Env, t: Option<Table>, m: Message, parent: Option<FieldValue>)
    : Result<(seq<Row>, seq<FieldValue>)>
  {
    if t.Some? then
      var own := OwnRow(env, t.value, m, parent);
      if own.Err? then Err(own.error) else Ok(([own.value.0], own.value.1))
    else
      var gathered := CsvFields(env, t, m.fields);
      if gathered.Err? then Err(gathered.error) else Ok(([], gathered.value.children))
  }

  lemma OwnRowsFirst(env: Env, v: FieldValue, parent: Option<FieldValue>)
    requires v.Nested?
    ensures var m := v.message;
            var t := TableOf(env, m);
            var own := OwnRows(env, t, m, parent);
            && CsvMessage(env, v, parent) ==
               (if own.Err? then Err(own.error)
                else Prepended(own.value.0, CsvWalk(env, own.value.1, PassedOn(env, t, m, own.value.1, None))))
            && (own.Ok? ==>
                  CsvFields(env, t, m.fields).Ok? && own.value.1 == CsvFields(env, t, m.fields).value.children)
            && (own.Ok? && t.Some? && own.value.1 != [] && env.useProtoOptions ==> t.value.primaryKey.Some?)
  {
  }

  function Prepended(done: seq<Row>, r: Result<seq<Row>>): Result<seq<Row>> {
    if r.Err? then r else Ok(done + r.value)
  }

  lemma NextMessage(env: Env, vs: seq<FieldValue>, i: nat, parent: Option<FieldValue>, done: seq<Row>)
    requires i < |vs|
    ensures Prepended(done, CsvWalk(env, vs[i..], parent)) ==
            var first := CsvMessage(env, vs[i], parent);
            if first.Err? then first else Prepended(done + first.value, CsvWalk(env, vs[i + 1..], parent))
  {
    assert vs[i..][0] == vs[i] && vs[i..][1..] == vs[i + 1..];
    var first, rest := CsvMessage(env, vs[i], parent), CsvWalk(env, vs[i + 1..], parent);
    assert first.Ok? && rest.Ok? ==> done + first.value + rest.value == done + (first.value + rest.value);
  }

  lemma NextField(env: Env, t: Option<Table>, fields: seq<Field>, i: nat, values: seq<Named>, children: seq<FieldValue>)
    requires i < |fields|
    requires CsvFields(env, t, fields) == Joined(Ok(Gathered(values, children)), CsvFields(env, t, fields[i..]))
    ensures var field := CsvField(env, t, fields[i]);
            && (field.Err? ==> CsvFields(env, t, fields) == Err(field.error))
            && (field.Ok? ==> CsvFields(env, t, fields) ==
                              Joined(Ok(Gathered(values + field.value.values, children + field.value.children)),
                                     CsvFields(env, t, fields[i + 1..])))
  {
    assert fields[i..][0] == fields[i] && fields[i..][1..] == fields[i + 1..];
    JoinedAgain(Gathered(values, children), CsvField(env, t, fields[i]), CsvFields(env, t, fields[i + 1..]));
  }

  /** The cells before those of the fields; false if the key is missing. */
  method FillLeading(
    env: Env, t: Table, m: Message, parent: Option<FieldValue>, index: map<string, nat>, row: array<Cell>)
    returns (ok: bool)
    modifies row
    ensures ok <==> KeyValue(Some(t), m) != Some(Native(None))
    ensures ok ==>
              row[..] == AssignAll(index, old(row[..]),
                                   SystemValues(env) + KeyAssignment(t, m) + ParentAssignment(t, parent))
  {
    ghost var start, values := row[..], SystemValues(env);
    FillSystem(env, index, row);
    if t.primaryKey.Some? {
      var key := ValueNamed(m.fields, t.primaryKey.value.field.name);
      if key == Native(None) {
        return false;
      }
      AssignNext(index, start, values, Named(t.primaryKey.value.name, Raw(key)));
      AssignRowValue(row, index, t.primaryKey.value.name, Raw(key));
    }
    assert SystemValues(env) + KeyAssignment(t, m) ==
           if t.primaryKey.Some? then values + KeyAssignment(t, m) else values;
    values := SystemValues(env) + KeyAssignment(t, m);
    if parent.Some? && t.childOf.Some? {
      AssignNext(index, start, values, Named(t.childOf.value.parentTableField, Raw(parent.value)));
      AssignRowValue(row, index, t.childOf.value.parentTableField, Raw(parent.value));
    }
    assert ParentAssignment(t, parent) == [] ==> values + ParentAssignment(t, parent) == values;
    ok := true;
  }

  method FillSystem(env: Env, index: map<string, nat>, row: array<Cell>)
    modifies row
    ensures row[..] == AssignAll(index, old(row[..]), SystemValues(env))
  {
    ghost var start := row[..];
    ghost var values := [Named(env.dialect.blockNumber, BlockNumber(env.block))];
    AssignNext(index, start, [], values[0]);
    AssignRowValue(row, index, env.dialect.blockNumber, BlockNumber(env.block));
    AssignNext(index, start, values, Named(env.dialect.blockTimestamp, BlockTime(env.time)));
    AssignRowValue(row, index, env.dialect.blockTimestamp, BlockTime(env.time));
    values := values + [Named(env.dialect.blockTimestamp, BlockTime(env.time))];
    if env.dialect.useVersion {
      AssignNext(index, start, values, Named(VERSION, Version(env.version)));
      AssignRowValue(row, index, VERSION, Version(env.version));
      values := values + [Named(VERSION, Version(env.version))];
    }
    if env.dialect.useDeleted {
      AssignNext(index, start, values, Named(DELETED, Deleted(false)));
      AssignRowValue(row, index, DELETED, Deleted(false));
      values := values + [Named(DELETED, Deleted(false))];
    }
    assert values == SystemValues(env);
  }
}
