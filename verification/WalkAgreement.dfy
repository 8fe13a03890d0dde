/** The CSV walk gives the rows of the insert walk, in the same order, and fails for the same reason. */
module WalkAgreement {
  import opened Prelude
  import opened TableSchema
  import opened MessageWalk
  import opened WalkAlignment

  // ----- filling a row by name, in the order of its columns -----

  /** The assignments that find their column. */
  function Hits(columns: seq<string>, values: seq<Named>): seq<Named> {
    if values == [] then []
    else (if values[0].column in columns then [values[0]] else []) + Hits(columns, values[1..])
  }

  function NamesOf(values: seq<Named>): seq<string> {
    if values == [] then [] else [values[0].column] + NamesOf(values[1..])
  }

  function NamedCells(values: seq<Named>): seq<Cell> {
    if values == [] then [] else [values[0].cell] + NamedCells(values[1..])
  }

  ghost predicate AllDifferent(names: seq<string>) {
    forall i, j :: 0 <= i < j < |names| ==> names[i] != names[j]
  }

  lemma {:induction false} HitsAppend(columns: seq<string>, a: seq<Named>, b: seq<Named>)
    ensures Hits(columns, a + b) == Hits(columns, a) + Hits(columns, b)
  {
    if a == [] {
      assert a + b == b;
    } else {
      assert (a + b)[0] == a[0] && (a + b)[1..] == a[1..] + b;
      HitsAppend(columns, a[1..], b);
      Associative(if a[0].column in columns then [a[0]] else [], Hits(columns, a[1..]), Hits(columns, b));
    }
  }

  lemma {:induction false} NamedAppend(a: seq<Named>, b: seq<Named>)
    ensures NamesOf(a + b) == NamesOf(a) + NamesOf(b) && NamedCells(a + b) == NamedCells(a) + NamedCells(b)
  {
    if a == [] {
      assert a + b == b;
    } else {
      var first, rest := a[0], a[1..];
      assert (a + b)[0] == first && (a + b)[1..] == rest + b;
      NamedAppend(rest, b);
      assert [first.column] + (NamesOf(rest) + NamesOf(b)) == [first.column] + NamesOf(rest) + NamesOf(b);
      assert [first.cell] + (NamedCells(rest) + NamedCells(b)) == [first.cell] + NamedCells(rest) + NamedCells(b);
    }
  }

  lemma {:induction false} AllHit(columns: seq<string>, values: seq<Named>)
    requires forall name :: name in NamesOf(values) ==> name in columns
    ensures Hits(columns, values) == values
  {
    if values != [] {
      assert values[0].column in NamesOf(values);
      assert forall name :: name in NamesOf(values[1..]) ==> name in NamesOf(values);
      AllHit(columns, values[1..]);
    }
  }

  ghost predicate IsIndex(index: map<string, nat>, columns: seq<string>) {
    && (forall name :: name in index ==> name in columns)
    && forall k :: 0 <= k < |columns| ==> columns[k] in index && index[columns[k]] == k
  }

  lemma DistinctIndex(columns: seq<string>)
    requires AllDifferent(columns)
    ensures IsIndex(ColumnIndex(columns), columns)
  {
  }

  lemma FillOne(index: map<string, nat>, columns: seq<string>, row: seq<Cell>, value: Named, k: nat)
    requires IsIndex(index, columns) && |row| == |columns| && k < |columns| && value.column == columns[k]
    ensures Assign(index, row, value)[..k + 1] == row[..k] + [value.cell]
  {
  }

  lemma Missed(index: map<string, nat>, columns: seq<string>, row: seq<Cell>, value: Named)
    requires IsIndex(index, columns) && value.column !in columns
    ensures Assign(index, row, value) == row
  {
  }

  lemma HitFirst(columns: seq<string>, value: Named, rest: seq<Named>, k: nat)
    requires k <= |columns| && NamesOf([value] + rest) == columns[k..]
    ensures k < |columns| && value.column == columns[k] && NamesOf(rest) == columns[k + 1..]
  {
    assert ([value] + rest)[1..] == rest;
    assert NamesOf([value] + rest)[1..] == NamesOf(rest) && columns[k..][1..] == columns[k + 1..];
    assert columns[k..][0] == columns[k];
  }

  lemma CellsFirst(before: seq<Cell>, value: Named, rest: seq<Named>)
    ensures before + [value.cell] + NamedCells(rest) == before + NamedCells([value] + rest)
  {
    assert ([value] + rest)[1..] == rest;
    assert before + [value.cell] + NamedCells(rest) == before + ([value.cell] + NamedCells(rest));
  }

  /** Assignments that hit every column from the k-th on, in order, fill the row from there on. */
  lemma {:induction false} FillInOrder(
    index: map<string, nat>, columns: seq<string>, row: seq<Cell>, values: seq<Named>, k: nat)
    requires IsIndex(index, columns) && |row| == |columns| && k <= |columns|
    requires NamesOf(Hits(columns, values)) == columns[k..]
    ensures AssignAll(index, row, values) == row[..k] + NamedCells(Hits(columns, values))
    decreases |values|
  {
    if values == [] {
      assert k == |columns|;
    } else {
      var first, rest := values[0], Hits(columns, values[1..]);
      var filled := Assign(index, row, first);
      if first.column in columns {
        assert Hits(columns, values) == [first] + rest;
        HitFirst(columns, first, rest, k);
        FillOne(index, columns, row, first, k);
        FillInOrder(index, columns, filled, values[1..], k + 1);
        CellsFirst(row[..k], first, rest);
      } else {
        assert Hits(columns, values) == rest;
        Missed(index, columns, row, first);
        FillInOrder(index, columns, filled, values[1..], k);
      }
    }
  }

  // ----- one field -----

  /**
   What the agreement asks of a field beyond its type: it is no list of scalars, its value can be converted, and as a
   member of a oneof it does not share the name of a column of another field.
   */
  predicate Agreeable(env: Env, t: Option<Table>, f: Field) {
    && Typed(f)
    && (f.value.Elements? ==> forall v :: v in f.value.items ==> IsMessageValue(v))
    && (f.desc.repeated ==> f.desc.message)
    && (f.value.Native? ==> env.normalize(f.desc, f.value).Ok?)
    && (t.Some? && f.desc.oneof && f.has && f.value.Native? ==> f.desc.name !in ColumnOrder(env.dialect, t.value))
  }

  function Renamed(values: seq<Tagged>): seq<Named> {
    if values == [] then [] else [Named(NewColumn(values[0].field).name, values[0].cell)] + Renamed(values[1..])
  }

  lemma {:induction false} RenamedAppend(a: seq<Tagged>, b: seq<Tagged>)
    ensures Renamed(a + b) == Renamed(a) + Renamed(b)
  {
    if a == [] {
      assert a + b == b;
    } else {
      assert (a + b)[0] == a[0] && (a + b)[1..] == a[1..] + b;
      RenamedAppend(a[1..], b);
      Associative([Named(NewColumn(a[0].field).name, a[0].cell)], Renamed(a[1..]), Renamed(b));
    }
  }

  lemma {:induction false} RenamedParts(values: seq<Tagged>)
    ensures NamesOf(Renamed(values)) == ColumnNames(FieldsOf(values)) && NamedCells(Renamed(values)) == CellsOf(values)
  {
    if values != [] {
      RenamedParts(values[1..]);
      assert Renamed(values)[1..] == Renamed(values[1..]) && FieldsOf(values)[1..] == FieldsOf(values[1..]);
    }
  }

  /** A field is written to its own column, or to whatever has its name. */
  lemma {:induction false} NameOfColumn(columns: seq<Column>, d: FieldDesc)
    requires forall c :: c in columns ==> c == NewColumn(c.field)
    ensures ColumnNameOf(columns, d) == if exists c :: c in columns && c.field == d then NewColumn(d).name else d.name
  {
    if columns != [] {
      assert columns[0] in columns && forall c :: c in columns[1..] ==> c in columns;
      NameOfColumn(columns[1..], d);
    }
  }

  /** What is known of a table's field when the walks reach it. */
  ghost predicate Known(env: Env, t: Table, f: Field) {
    && (HasColumn(t, f.desc) <==> IsColumn(f.desc))
    && !Misplaced(t, f)
    && ColumnNameOf(t.columns, f.desc) == (if IsColumn(f.desc) then NewColumn(f.desc).name else f.desc.name)
    && (IsColumn(f.desc) && !IsKey(Some(t), f.desc) ==> NewColumn(f.desc).name in ColumnOrder(env.dialect, t))
  }

  lemma FieldAgrees(env: Env, t: Option<Table>, f: Field)
    requires Agreeable(env, t, f) && (t.Some? ==> Known(env, t.value, f))
    ensures InsertField(env, t, f).Ok? && CsvField(env, t, f).Ok?
    ensures InsertField(env, t, f).value.children == CsvField(env, t, f).value.children
    ensures t.Some? ==> Hits(ColumnOrder(env.dialect, t.value), CsvField(env, t, f).value.values) ==
                        Renamed(InsertField(env, t, f).value.values)
  {
  }

  lemma {:induction false} FieldsAgree(env: Env, t: Option<Table>, fields: seq<Field>)
    requires forall f :: f in fields ==> Agreeable(env, t, f) && (t.Some? ==> Known(env, t.value, f))
    ensures InsertFields(env, t, fields).Ok? && CsvFields(env, t, fields).Ok?
    ensures InsertFields(env, t, fields).value.children == CsvFields(env, t, fields).value.children
    ensures t.Some? ==> Hits(ColumnOrder(env.dialect, t.value), CsvFields(env, t, fields).value.values) ==
                        Renamed(InsertFields(env, t, fields).value.values)
  {
    if fields != [] {
      assert fields[0] in fields && forall f :: f in fields[1..] ==> f in fields;
      FieldAgrees(env, t, fields[0]);
      FieldsAgree(env, t, fields[1..]);
      if t.Some? {
        HitsAppend(ColumnOrder(env.dialect, t.value), CsvField(env, t, fields[0]).value.values,
                   CsvFields(env, t, fields[1..]).value.values);
      }
      RenamedAppend(InsertField(env, t, fields[0]).value.values, InsertFields(env, t, fields[1..]).value.values);
    }
  }

  // ----- one row -----

  lemma {:induction false} InNames(columns: seq<Column>, c: Column, skipped: set<string>)
    requires c in columns && c.name !in skipped
    ensures c.name in NamesWithout(columns, skipped)
  {
    if columns[0] != c {
      InNames(columns[1..], c, skipped);
    }
  }

  lemma {:induction false} FieldsKnown(env: Env, m: Message, t: Table, f: Field)
    requires Registered(env, m, t) && DistinctNames(env.dialect, t) && f in m.fields && !Misplaced(t, f)
    ensures Known(env, t, f)
  {
    RegisteredColumns(env, m, t);
    ColumnFields(Descs(m.fields), f.desc);
    NameOfColumn(t.columns, f.desc);
    if IsColumn(f.desc) && !IsKey(Some(t), f.desc) {
      KeyByName(env, m, t, f);
      var c :| c in t.columns && c.field == f.desc;
      InNames(t.columns, c, KeyName(t) + ParentName(t));
    }
  }

  function LeadingValues(env: Env, t: Table, m: Message, parent: Option<FieldValue>): seq<Named> {
    SystemValues(env) + KeyAssignment(t, m) + ParentAssignment(t, parent)
  }

  lemma SystemParts(env: Env)
    ensures NamesOf(SystemValues(env)) == SystemColumns(env.dialect)
    ensures NamedCells(SystemValues(env)) == SystemCells(env)
  {
    var start := [Named(env.dialect.blockNumber, BlockNumber(env.block)),
                  Named(env.dialect.blockTimestamp, BlockTime(env.time))];
    var version := if env.dialect.useVersion then [Named(VERSION, Version(env.version))] else [];
    var deleted := if env.dialect.useDeleted then [Named(DELETED, Deleted(false))] else [];
    NamedAppend(start + version, deleted);
    NamedAppend(start, version);
    assert start[1..] == [start[1]];
  }

  lemma {:induction false} LeadingParts(env: Env, t: Table, m: Message, parent: Option<FieldValue>)
    requires parent.Some? <==> t.childOf.Some?
    ensures NamesOf(LeadingValues(env, t, m, parent)) == LeadingColumns(env.dialect, t)
    ensures NamedCells(LeadingValues(env, t, m, parent)) ==
            SystemCells(env) + OptionalCell(KeyValue(Some(t), m)) + OptionalCell(parent)
  {
    SystemParts(env);
    NamedAppend(SystemValues(env), KeyAssignment(t, m));
    NamedAppend(SystemValues(env) + KeyAssignment(t, m), ParentAssignment(t, parent));
  }

  /** The two walks make the same row of a message. */
  lemma {:induction false} RowsAgree(
    env: Env, t: Table, m: Message, parent: Option<FieldValue>, tagged: seq<Tagged>, named: seq<Named>)
    requires AllDifferent(ColumnOrder(env.dialect, t)) && (parent.Some? <==> t.childOf.Some?)
    requires Hits(ColumnOrder(env.dialect, t), named) == Renamed(tagged)
    requires ColumnNames(FieldsOf(tagged)) == NamesWithout(t.columns, KeyName(t) + ParentName(t))
    ensures CsvRow(env, t, m, parent, named) == InsertRow(env, t, m, parent, tagged)
  {
    var columns := ColumnOrder(env.dialect, t);
    var leading := LeadingValues(env, t, m, parent);
    LeadingParts(env, t, m, parent);
    AllHit(columns, leading);
    HitsAppend(columns, leading, named);
    NamedAppend(leading, Renamed(tagged));
    RenamedParts(tagged);
    assert columns[0..] == columns;
    DistinctIndex(columns);
    FillInOrder(ColumnIndex(columns), columns, seq(|columns|, i => Empty), leading + named, 0);
  }

  // ----- whole trees -----

  /** What the agreement asks of a message: with children it has a keyed table of its own, or no row above it. */
  ghost predicate Agreeing(env: Env, m: Message, parent: Option<FieldValue>) {
    var t := TableOf(env, m);
    && Fitting(env, m, parent)
    && (forall f :: f in m.fields ==> Agreeable(env, t, f))
    && (parent.Some? && InsertFields(env, t, m.fields).Ok? && InsertFields(env, t, m.fields).value.children != [] ==>
          env.useProtoOptions && t.Some? && t.value.primaryKey.Some?)
  }

  ghost predicate AllAgreeing(env: Env, vs: seq<FieldValue>, parent: Option<FieldValue>)
    decreases Weight(vs)
  {
    vs == [] || (MessageAgreeing(env, vs[0], parent) && AllAgreeing(env, vs[1..], parent))
  }

  ghost predicate MessageAgreeing(env: Env, v: FieldValue, parent: Option<FieldValue>)
    decreases ValueWeight(v), 0
  {
    v.Nested? ==>
      var m := v.message;
      var t := TableOf(env, m);
      var gathered := InsertFields(env, t, m.fields);
      && Agreeing(env, m, parent)
      && (gathered.Ok? ==>
            (InsertWeight(env, t, m.fields);
             AllAgreeing(env, gathered.value.children, PassedOn(env, t, m, gathered.value.children, parent))))
  }

  ghost predicate SameOutcome(i: Outcome, c: Result<seq<Row>>) {
    match c
    case Err(e) => i.error == Some(e)
    case Ok(rows) => i == Outcome(rows, None)
  }

  lemma {:induction false} MessageRowsAgree(env: Env, m: Message, parent: Option<FieldValue>)
    requires Agreeing(env, m, parent)
    ensures var t := TableOf(env, m);
            var i, c := InsertFields(env, t, m.fields), CsvFields(env, t, m.fields);
            && i.Ok? && c.Ok? && i.value.children == c.value.children
            && (t.Some? ==> CsvRow(env, t.value, m, parent, c.value.values) ==
                            InsertRow(env, t.value, m, parent, i.value.values))
  {
    var t := TableOf(env, m);
    if t.Some? {
      forall f | f in m.fields ensures Known(env, t.value, f) {
        FieldsKnown(env, m, t.value, f);
      }
    }
    FieldsAgree(env, t, m.fields);
    if t.Some? {
      RegisteredColumns(env, m, t.value);
      AlignedIff(env, t.value, m.fields);
      ColumnsBesideKey(env, m, t.value);
      RowsAgree(env, t.value, m, parent, InsertFields(env, t, m.fields).value.values,
                CsvFields(env, t, m.fields).value.values);
    }
  }

  /** On every agreeing list of trees the two walks give the same rows in the same order, or the same error. */
  lemma {:induction false} WalksAgree(env: Env, vs: seq<FieldValue>, parent: Option<FieldValue>)
    requires AllAgreeing(env, vs, parent)
    ensures SameOutcome(InsertWalk(env, vs, parent), CsvWalk(env, vs, parent))
    decreases Weight(vs)
  {
    if vs != [] {
      MessagesAgree(env, vs[0], parent);
      WalksAgree(env, vs[1..], parent);
    }
  }

  lemma {:induction false} MessagesAgree(env: Env, v: FieldValue, parent: Option<FieldValue>)
    requires MessageAgreeing(env, v, parent)
    ensures SameOutcome(InsertMessage(env, v, parent), CsvMessage(env, v, parent))
    decreases ValueWeight(v), 0
  {
    if v.Nested? {
      var m := v.message;
      var t := TableOf(env, m);
      MessageRowsAgree(env, m, parent);
      var children := InsertFields(env, t, m.fields).value.children;
      InsertWeight(env, t, m.fields);
      WalksAgree(env, children, PassedOn(env, t, m, children, parent));
      MessageOverChildren(env, v, parent);
    }
  }

  /** The message agrees if its own row and the walk below it do. */
  lemma {:induction false} MessageOverChildren(env: Env, v: FieldValue, parent: Option<FieldValue>)
    requires v.Nested? && Agreeing(env, v.message, parent)
    requires var m := v.message;
             var t := TableOf(env, m);
             var i, c := InsertFields(env, t, m.fields), CsvFields(env, t, m.fields);
             && i.Ok? && c.Ok? && i.value.children == c.value.children
             && (t.Some? ==> CsvRow(env, t.value, m, parent, c.value.values) ==
                             InsertRow(env, t.value, m, parent, i.value.values))
             && var passed := PassedOn(env, t, m, i.value.children, parent);
                SameOutcome(InsertWalk(env, i.value.children, passed), CsvWalk(env, i.value.children, passed))
    ensures SameOutcome(InsertMessage(env, v, parent), CsvMessage(env, v, parent))
  {
    var m := v.message;
    var t := TableOf(env, m);
    var gathered, rows := InsertFields(env, t, m.fields).value, CsvFields(env, t, m.fields).value;
    var children := gathered.children;
    InsertWeight(env, t, m.fields);
    CsvWeight(env, t, m.fields);
    SameKeyToGive(env, t, m, children, parent);
    var own := if t.Some? then [InsertRow(env, t.value, m, parent, gathered.values)] else [];
    assert own == if t.Some? then [CsvRow(env, t.value, m, parent, rows.values)] else [];
    if KeyValue(t, m) != Some(Native(None)) && !NoKeyToGive(env, t, children, parent) {
      var passed := PassedOn(env, t, m, children, parent);
      var i, c := InsertWalk(env, children, passed), CsvWalk(env, children, passed);
      assert InsertMessage(env, v, parent) == Outcome(own + i.rows, i.error);
      assert CsvMessage(env, v, parent) == if c.Err? then c else Ok(own + c.value);
    }
  }

  lemma SameKeyToGive(env: Env, t: Option<Table>, m: Message, children: seq<FieldValue>, parent: Option<FieldValue>)
    requires parent.Some? && children != [] ==> env.useProtoOptions && t.Some? && t.value.primaryKey.Some?
    ensures NoKeyToGive(env, t, children, parent) == NoKeyToGive(env, t, children, None)
    ensures children != [] ==> PassedOn(env, t, m, children, parent) == PassedOn(env, t, m, children, None)
  {
  }
}
