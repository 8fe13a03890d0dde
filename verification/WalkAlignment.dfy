/** When the value lists of the insert walk line up with the columns of their tables. */
module WalkAlignment {
  import opened Prelude
  import opened TableSchema
  import opened MessageWalk

  function Descs(fields: seq<Field>): seq<FieldDesc> {
    if fields == [] then [] else [fields[0].desc] + Descs(fields[1..])
  }

  lemma {:induction false} DescsAt(fields: seq<Field>, i: nat)
    requires i < |fields|
    ensures |Descs(fields)| == |fields| && Descs(fields)[i] == fields[i].desc
  {
    if |fields| > 1 {
      DescsAt(fields[1..], if i == 0 then 0 else i - 1);
    }
  }

  /** The value of a field has the shape that its declaration gives it. */
  predicate Typed(f: Field) {
    var asMessage := f.desc.message && !f.desc.timestamp;
    if f.desc.repeated then
      f.value.Elements? &&
      forall v :: v in f.value.items ==> if asMessage then v.Nested? || v.NilMessage? else v.Native?
    else if asMessage then f.value.Nested? || f.value.NilMessage?
    else f.value.Native?
  }

  /** No two fields of a message have the same name. */
  ghost predicate Distinct(fields: seq<Field>) {
    forall i, j :: 0 <= i < j < |fields| ==> fields[i].desc.name != fields[j].desc.name
  }

  /** The table was made from the type of this message. */
  ghost predicate Registered(env: Env, m: Message, t: Table) {
    && Distinct(m.fields) && InfoOf(env, m).Some?
    && MadeFrom(t, Descriptor(m.name, m.tableInfo, Descs(m.fields)), InfoOf(env, m).value)
  }

  /** The fields that have a column beside the key's. */
  function Expected(t: Table, fields: seq<Field>): seq<FieldDesc> {
    if fields == [] then []
    else
      (if IsColumn(fields[0].desc) && !IsKey(Some(t), fields[0].desc) then [fields[0].desc] else [])
      + Expected(t, fields[1..])
  }

  function FieldsOf(values: seq<Tagged>): seq<FieldDesc> {
    if values == [] then [] else [values[0].field] + FieldsOf(values[1..])
  }

  lemma {:induction false} FieldsOfAppend(a: seq<Tagged>, b: seq<Tagged>)
    ensures FieldsOf(a + b) == FieldsOf(a) + FieldsOf(b)
    ensures CellsOf(a + b) == CellsOf(a) + CellsOf(b)
  {
    if a == [] {
      assert a + b == b;
    } else {
      assert (a + b)[0] == a[0] && (a + b)[1..] == a[1..] + b;
      FieldsOfAppend(a[1..], b);
      assert FieldsOf(a + b) == [a[0].field] + FieldsOf(a[1..] + b);
      assert CellsOf(a + b) == [a[0].cell] + CellsOf(a[1..] + b);
      Associative([a[0].field], FieldsOf(a[1..]), FieldsOf(b));
      Associative([a[0].cell], CellsOf(a[1..]), CellsOf(b));
    }
  }

  /**
   The fields for which the walk and the columns disagree: a timestamp that is set as a member of a oneof, or that is
   repeated and not empty, gives a value and has no column; an empty list of scalars has a column and gives no value.
   */
  predicate Misplaced(t: Table, f: Field) {
    && !IsKey(Some(t), f.desc)
    && (if f.desc.oneof then f.has && f.desc.message && f.desc.timestamp && f.value != Elements([])
        else f.desc.repeated && (f.desc.message ==> f.desc.timestamp) && (f.desc.message <==> f.value != Elements([])))
  }

  ghost predicate ColumnsKnown(t: Table, fields: seq<Field>) {
    forall f :: f in fields ==> (HasColumn(t, f.desc) <==> IsColumn(f.desc))
  }

  lemma {:induction false} RegisteredColumns(env: Env, m: Message, t: Table)
    requires Registered(env, m, t)
    ensures ColumnsKnown(t, m.fields)
  {
    forall f | f in m.fields ensures HasColumn(t, f.desc) <==> IsColumn(f.desc) {
      var i :| 0 <= i < |m.fields| && m.fields[i] == f;
      DescsAt(m.fields, i);
      ColumnFields(Descs(m.fields), f.desc);
    }
  }

  lemma FieldAligned(env: Env, t: Table, f: Field)
    requires Typed(f) && (HasColumn(t, f.desc) <==> IsColumn(f.desc)) && InsertField(env, Some(t), f).Ok?
    ensures var emitted := FieldsOf(InsertField(env, Some(t), f).value.values);
            && (emitted == [] || emitted == [f.desc])
            && (emitted == (if IsColumn(f.desc) && !IsKey(Some(t), f.desc) then [f.desc] else []) <==> !Misplaced(t, f))
  {
  }

  lemma {:induction false} OnlyOwnFields(env: Env, t: Table, fields: seq<Field>, d: FieldDesc)
    requires forall f :: f in fields ==> Typed(f) && f.desc != d
    requires ColumnsKnown(t, fields) && InsertFields(env, Some(t), fields).Ok?
    ensures d !in FieldsOf(InsertFields(env, Some(t), fields).value.values)
    ensures d !in Expected(t, fields)
  {
    if fields != [] {
      assert fields[0] in fields && forall f :: f in fields[1..] ==> f in fields;
      OnlyOwnFields(env, t, fields[1..], d);
      FieldAligned(env, t, fields[0]);
      FieldsOfAppend(InsertField(env, Some(t), fields[0]).value.values,
                     InsertFields(env, Some(t), fields[1..]).value.values);
    }
  }

  lemma AppendsEqual<T>(d: T, a: seq<T>, b: seq<T>, x: seq<T>, y: seq<T>)
    requires (a == [] || a == [d]) && (b == [] || b == [d]) && d !in x && d !in y
    ensures a + x == b + y <==> a == b && x == y
  {
    if a == b {
      if a + x == b + y {
        assert x == (a + x)[|a|..] && y == (b + y)[|b|..];
      }
    } else if a == [d] {
      assert (a + x)[0] == d && b + y == y;
    } else {
      assert (b + y)[0] == d && a + x == x;
    }
  }

  /** The values are those of the columns beside the key, in order, exactly when no field is misplaced. */
  lemma {:induction false} AlignedIff(env: Env, t: Table, fields: seq<Field>)
    requires Distinct(fields) && ColumnsKnown(t, fields) && forall f :: f in fields ==> Typed(f)
    requires InsertFields(env, Some(t), fields).Ok?
    ensures FieldsOf(InsertFields(env, Some(t), fields).value.values) == Expected(t, fields)
            <==> forall f :: f in fields ==> !Misplaced(t, f)
  {
    if fields != [] {
      var f, rest := fields[0], fields[1..];
      assert f in fields && fields == [f] + rest;
      assert forall g :: g in fields <==> g == f || g in rest;
      AlignedIff(env, t, rest);
      OnlyOwnFields(env, t, rest, f.desc);
      FieldAligned(env, t, f);
      var own, others := InsertField(env, Some(t), f).value.values, InsertFields(env, Some(t), rest).value.values;
      FieldsOfAppend(own, others);
      AppendsEqual(f.desc, FieldsOf(own), if IsColumn(f.desc) && !IsKey(Some(t), f.desc) then [f.desc] else [],
                   FieldsOf(others), Expected(t, rest));
    }
  }

  // ----- the names of the expected fields are the names of the columns -----

  function ColumnNames(fields: seq<FieldDesc>): seq<string> {
    if fields == [] then [] else [NewColumn(fields[0]).name] + ColumnNames(fields[1..])
  }

  lemma {:induction false} ExpectedNames(t: Table, fields: seq<Field>, skipped: set<string>)
    requires forall f :: f in fields && IsColumn(f.desc) ==>
               (NewColumn(f.desc).name in skipped <==> IsKey(Some(t), f.desc))
    ensures ColumnNames(Expected(t, fields)) == NamesWithout(ColumnsOf(Descs(fields)), skipped)
  {
    if fields != [] {
      assert fields[0] in fields && forall f :: f in fields[1..] ==> f in fields;
      ExpectedNames(t, fields[1..], skipped);
      var columns := ColumnsOf(Descs(fields));
      assert Descs(fields)[1..] == Descs(fields[1..]);
      if IsColumn(fields[0].desc) {
        assert columns[0] == NewColumn(fields[0].desc) && columns[1..] == ColumnsOf(Descs(fields[1..]));
        if IsKey(Some(t), fields[0].desc) {
          assert Expected(t, fields) == Expected(t, fields[1..]);
        } else {
          assert Expected(t, fields) == [fields[0].desc] + Expected(t, fields[1..]);
          assert ColumnNames(Expected(t, fields)) == [columns[0].name] + ColumnNames(Expected(t, fields[1..]));
        }
      } else {
        assert Expected(t, fields) == Expected(t, fields[1..]) && columns == ColumnsOf(Descs(fields[1..]));
      }
    }
  }

  lemma {:induction false} KeyAmongColumns(columns: seq<Column>)
    ensures forall c :: c in KeyColumns(columns) ==> c in columns
  {
    if columns != [] {
      KeyAmongColumns(columns[1..]);
    }
  }

  /** A column has the key's name exactly when it is the key's. */
  lemma {:induction false} KeyByName(env: Env, m: Message, t: Table, f: Field)
    requires Registered(env, m, t) && DistinctNames(env.dialect, t) && f in m.fields && IsColumn(f.desc)
    ensures NewColumn(f.desc).name in KeyName(t) + ParentName(t) <==> IsKey(Some(t), f.desc)
  {
    var i :| 0 <= i < |m.fields| && m.fields[i] == f;
    DescsAt(m.fields, i);
    ColumnFields(Descs(m.fields), f.desc);
    var c :| c in t.columns && c.field == f.desc;
    assert c == NewColumn(f.desc) && c.name !in ParentName(t);
    if t.primaryKey.Some? {
      KeyAmongColumns(t.columns);
      var key := KeyColumns(t.columns)[0];
      assert key in t.columns && key == NewColumn(key.field);
      SameName(t.columns, c, key);
    }
  }

  lemma SameName(columns: seq<Column>, a: Column, b: Column)
    requires forall i, j :: 0 <= i < j < |columns| ==> columns[i].name != columns[j].name
    requires a in columns && b in columns
    ensures a.name == b.name <==> a == b
  {
    var i :| 0 <= i < |columns| && columns[i] == a;
    var j :| 0 <= j < |columns| && columns[j] == b;
  }

  lemma {:induction false} ColumnsBesideKey(env: Env, m: Message, t: Table)
    requires Registered(env, m, t) && DistinctNames(env.dialect, t)
    ensures ColumnNames(Expected(t, m.fields)) == NamesWithout(t.columns, KeyName(t) + ParentName(t))
  {
    forall f | f in m.fields && IsColumn(f.desc)
      ensures NewColumn(f.desc).name in KeyName(t) + ParentName(t) <==> IsKey(Some(t), f.desc)
    {
      KeyByName(env, m, t, f);
    }
    ExpectedNames(t, m.fields, KeyName(t) + ParentName(t));
  }

  // ----- whole rows, over whole trees -----

  /** The name of the column that each value of a row is meant for. */
  function MeantFor(env: Env, t: Table, parent: Option<FieldValue>, values: seq<Tagged>): seq<string> {
    SystemColumns(env.dialect) + KeyColumn(t)
    + (if parent.Some? then [if t.childOf.Some? then t.childOf.value.parentTableField else ""] else [])
    + ColumnNames(FieldsOf(values))
  }

  /** A message whose row lines up with its table, if it has one. */
  ghost predicate Fitting(env: Env, m: Message, parent: Option<FieldValue>) {
    var t := TableOf(env, m);
    t.Some? ==>
      && Registered(env, m, t.value) && DistinctNames(env.dialect, t.value)
      && (parent.Some? <==> t.value.childOf.Some?)
      && forall f :: f in m.fields ==> Typed(f) && !Misplaced(t.value, f)
  }

  /** Every message that the insert walk reaches is fitting. */
  ghost predicate AllFitting(env: Env, vs: seq<FieldValue>, parent: Option<FieldValue>)
    decreases Weight(vs)
  {
    vs == [] || (MessageFitting(env, vs[0], parent) && AllFitting(env, vs[1..], parent))
  }

  ghost predicate MessageFitting(env: Env, v: FieldValue, parent: Option<FieldValue>)
    decreases ValueWeight(v), 0
  {
    v.Nested? ==>
      var m := v.message;
      var t := TableOf(env, m);
      var gathered := InsertFields(env, t, m.fields);
      && Fitting(env, m, parent)
      && (gathered.Ok? ==>
            (InsertWeight(env, t, m.fields);
             AllFitting(env, gathered.value.children, PassedOn(env, t, m, gathered.value.children, parent))))
  }

  /** The row has one value for each column of its table and each value is meant for the column at its place. */
  ghost predicate Aligned(env: Env, row: Row, m: Message, parent: Option<FieldValue>) {
    var t := TableOf(env, m);
    && t.Some? && row.table == t.value.name
    && var gathered := InsertFields(env, t, m.fields);
       && gathered.Ok?
       && row == InsertRow(env, t.value, m, parent, gathered.value.values)
       && MeantFor(env, t.value, parent, gathered.value.values) == ColumnOrder(env.dialect, t.value)
       && |row.cells| == |ColumnOrder(env.dialect, t.value)|
  }

  ghost predicate AlignedRow(env: Env, row: Row) {
    exists m, parent :: Aligned(env, row, m, parent)
  }

  lemma {:induction false} CellCount(values: seq<Tagged>)
    ensures |CellsOf(values)| == |FieldsOf(values)| == |ColumnNames(FieldsOf(values))|
  {
    if values != [] {
      CellCount(values[1..]);
      assert FieldsOf(values)[1..] == FieldsOf(values[1..]);
    }
  }

  lemma {:induction false} OwnRowAligned(env: Env, m: Message, parent: Option<FieldValue>)
    requires Fitting(env, m, parent) && TableOf(env, m).Some? && InsertFields(env, TableOf(env, m), m.fields).Ok?
    ensures var t := TableOf(env, m).value;
            AlignedRow(env, InsertRow(env, t, m, parent, InsertFields(env, Some(t), m.fields).value.values))
  {
    var t := TableOf(env, m).value;
    var values := InsertFields(env, Some(t), m.fields).value.values;
    RegisteredColumns(env, m, t);
    AlignedIff(env, t, m.fields);
    ColumnsBesideKey(env, m, t);
    CellCount(values);
    assert |SystemCells(env)| == |SystemColumns(env.dialect)|;
    assert Aligned(env, InsertRow(env, t, m, parent, values), m, parent);
  }

  /** Every value list that the insert walk hands over has the length and the order of its table's columns. */
  lemma {:induction false} EveryRowAligned(env: Env, vs: seq<FieldValue>, parent: Option<FieldValue>)
    requires AllFitting(env, vs, parent)
    ensures forall row :: row in InsertWalk(env, vs, parent).rows ==> AlignedRow(env, row)
    decreases Weight(vs)
  {
    if vs != [] {
      MessageRowsAligned(env, vs[0], parent);
      EveryRowAligned(env, vs[1..], parent);
    }
  }

  lemma {:induction false} MessageRowsAligned(env: Env, v: FieldValue, parent: Option<FieldValue>)
    requires MessageFitting(env, v, parent)
    ensures forall row :: row in InsertMessage(env, v, parent).rows ==> AlignedRow(env, row)
    decreases ValueWeight(v), 0
  {
    if v.Nested? {
      var m := v.message;
      var t := TableOf(env, m);
      var gathered := InsertFields(env, t, m.fields);
      if gathered.Ok? {
        InsertWeight(env, t, m.fields);
        EveryRowAligned(env, gathered.value.children, PassedOn(env, t, m, gathered.value.children, parent));
        if t.Some? {
          OwnRowAligned(env, m, parent);
        }
        MessageRows(env, v, parent);
      }
    }
  }

  /** The rows of a message are its own and those below it. */
  lemma {:induction false} MessageRows(env: Env, v: FieldValue, parent: Option<FieldValue>)
    requires v.Nested? && InsertFields(env, TableOf(env, v.message), v.message.fields).Ok?
    ensures var m := v.message;
            var t := TableOf(env, m);
            var gathered := InsertFields(env, t, m.fields).value;
            forall row :: row in InsertMessage(env, v, parent).rows ==>
              || (t.Some? && row == InsertRow(env, t.value, m, parent, gathered.values))
              || row in InsertWalk(env, gathered.children, PassedOn(env, t, m, gathered.children, parent)).rows
  {
    InsertWeight(env, TableOf(env, v.message), v.message.fields);
  }
}
