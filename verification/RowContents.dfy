/**
 What each row of the walks says, told from the message that it belongs to: which messages give rows and in what order,
 and what stands in each column.
 */
module RowContents {
  import opened Prelude
  import opened TableSchema
  import opened MessageWalk
  import opened WalkAlignment
  import opened WalkAgreement

  // ----- the messages of a tree -----

  /** The table of a message by its name: that of the annotation, or, where annotations are not used, the type's. */
  lemma TableLookup(env: Env, m: Message)
    ensures TableOf(env, m) ==
            match m.tableInfo
            case Some(info) => Find(env.tables, info.name)
            case None => if env.useProtoOptions then None else Find(env.tables, m.name)
  {
  }

  function Find<T>(tables: map<string, T>, name: string): Option<T> {
    if name in tables then Some(tables[name]) else None
  }

  /** The messages that a field holds; a member of a oneof that is not set holds none. */
  function NestedIn(f: Field): seq<FieldValue> {
    if f.desc.oneof && !f.has then []
    else if f.value.Nested? then [f.value]
    else if f.value.Elements? && forall v :: v in f.value.items ==> v.Nested? || v.NilMessage? then f.value.items
    else []
  }

  function Below(fields: seq<Field>): seq<FieldValue> {
    if fields == [] then [] else NestedIn(fields[0]) + Below(fields[1..])
  }

  lemma {:induction false} BelowWeight(fields: seq<Field>)
    ensures Weight(Below(fields)) <= FieldsWeight(fields)
  {
    if fields != [] {
      BelowWeight(fields[1..]);
      WeightAppend(NestedIn(fields[0]), Below(fields[1..]));
      var v := fields[0].value;
      assert Weight([v]) == ValueWeight(v) + Weight([]);
    }
  }

  /** A message after the messages around it, outermost first. */
  type Lineage = l: seq<Message> | l != [] witness [Message("", None, [])]

  /** All messages of the trees, each with those around it and before those nested in it, in the order of the fields. */
  function Lineages(above: seq<Message>, vs: seq<FieldValue>): seq<Lineage>
    decreases Weight(vs)
  {
    if vs == [] then [] else LineagesOf(above, vs[0]) + Lineages(above, vs[1..])
  }

  function LineagesOf(above: seq<Message>, v: FieldValue): seq<Lineage>
    decreases ValueWeight(v), 0
  {
    if !v.Nested? then []
    else
      BelowWeight(v.message.fields);
      [above + [v.message]] + Lineages(above + [v.message], Below(v.message.fields))
  }

  function Own(l: Lineage): Message {
    l[|l| - 1]
  }

  function Around(l: Lineage): seq<Message> {
    l[..|l| - 1]
  }

  /** Those whose message has a table. */
  function Stored(env: Env, ls: seq<Lineage>): seq<Lineage> {
    if ls == [] then [] else (if TableOf(env, Own(ls[0])).Some? then [ls[0]] else []) + Stored(env, ls[1..])
  }

  lemma {:induction false} StoredAppend(env: Env, a: seq<Lineage>, b: seq<Lineage>)
    ensures Stored(env, a + b) == Stored(env, a) + Stored(env, b)
  {
    if a == [] {
      assert a + b == b;
    } else {
      assert (a + b)[0] == a[0] && (a + b)[1..] == a[1..] + b;
      StoredAppend(env, a[1..], b);
      Associative(if TableOf(env, Own(a[0])).Some? then [a[0]] else [], Stored(env, a[1..]), Stored(env, b));
    }
  }

  // ----- keys -----

  predicate Keyed(env: Env, m: Message) {
    TableOf(env, m).Some? && TableOf(env, m).value.primaryKey.Some?
  }

  /** The value of the message's field that is the table's key. */
  ghost predicate HasKey(env: Env, m: Message, v: FieldValue) {
    Keyed(env, m) && exists f :: f in m.fields && f.desc == TableOf(env, m).value.primaryKey.value.field && f.value == v
  }

  /** The key of the innermost of the messages that has a keyed table. */
  ghost predicate NearestKey(env: Env, above: seq<Message>, v: FieldValue) {
    above != [] &&
    var m := above[|above| - 1];
    if Keyed(env, m) then HasKey(env, m, v) else NearestKey(env, above[..|above| - 1], v)
  }

  ghost predicate GivesKey(env: Env, above: seq<Message>) {
    env.useProtoOptions && exists m :: m in above && Keyed(env, m)
  }

  /** The key that the walk brings from the messages around. */
  ghost predicate BringsKey(env: Env, above: seq<Message>, parent: Option<FieldValue>) {
    match parent
    case None => !GivesKey(env, above)
    case Some(v) => env.useProtoOptions && NearestKey(env, above, v)
  }

  lemma {:induction false} KeyIsGiven(env: Env, above: seq<Message>, v: FieldValue)
    requires NearestKey(env, above, v)
    ensures exists m :: m in above && Keyed(env, m)
  {
    var m := above[|above| - 1];
    if !Keyed(env, m) {
      KeyIsGiven(env, above[..|above| - 1], v);
    }
  }

  lemma {:induction false} ValueByName(fields: seq<Field>, f: Field)
    requires Distinct(fields) && f in fields
    ensures ValueNamed(fields, f.desc.name) == f.value
  {
    if fields[0] != f {
      var i :| 0 <= i < |fields| && fields[i] == f;
      assert fields[0].desc.name != fields[i].desc.name;
      ValueByName(fields[1..], f);
    }
  }

  /** The key value is that of the one field that is the key. */
  lemma {:induction false} KeyIsOfItsField(env: Env, m: Message, t: Table, f: Field)
    requires Registered(env, m, t) && t.primaryKey.Some? && f in m.fields && f.desc == t.primaryKey.value.field
    ensures KeyValue(Some(t), m) == Some(f.value)
  {
    ValueByName(m.fields, f);
  }

  lemma {:induction false} KeyHasField(env: Env, m: Message, t: Table) returns (f: Field)
    requires Registered(env, m, t) && t.primaryKey.Some?
    ensures f in m.fields && f.desc == t.primaryKey.value.field && IsColumn(f.desc)
  {
    KeyAmongColumns(t.columns);
    var key := KeyColumns(t.columns)[0];
    assert key in ColumnsOf(Descs(m.fields));
    ColumnFields(Descs(m.fields), key.field);
    f := FieldOfDesc(m.fields, key.field);
  }

  lemma {:induction false} FieldOfDesc(fields: seq<Field>, d: FieldDesc) returns (f: Field)
    requires d in Descs(fields)
    ensures f in fields && f.desc == d
  {
    if fields[0].desc == d {
      f := fields[0];
    } else {
      f := FieldOfDesc(fields[1..], d);
    }
  }

  // ----- what a row says -----

  /** A field's own cell: its value, or each of its values, converted for the column. */
  ghost predicate FieldCell(env: Env, f: Field, cell: Cell) {
    match f.value
    case Native(_) => cell.Normal? && env.normalize(f.desc, f.value) == Ok(cell.text)
    case Elements(items) =>
      && cell.Array? && |cell.texts| == |items|
      && forall i :: 0 <= i < |items| ==> env.normalize(f.desc, items[i]) == Ok(cell.texts[i])
    case _ => false
  }

  predicate IsKeyField(t: Table, c: Column) {
    t.primaryKey.Some? && c.field == t.primaryKey.value.field
  }

  /** The cell in a field's own column. */
  ghost predicate OwnCellTells(env: Env, m: Message, t: Table, name: string, cell: Cell) {
    forall f, c :: f in m.fields && c in t.columns && c.field == f.desc && c.name == name && !IsKeyField(t, c) ==>
                     FieldCell(env, f, cell)
  }

  /** The cell in the column of this name, for each kind of column. */
  ghost predicate CellTells(env: Env, l: Lineage, t: Table, name: string, cell: Cell) {
    && (name == env.dialect.blockNumber ==> cell == BlockNumber(env.block))
    && (name == env.dialect.blockTimestamp ==> cell == BlockTime(env.time))
    && (env.dialect.useVersion && name == "_version_" ==> cell == Version(env.version))
    && (env.dialect.useDeleted && name == "_deleted_" ==> cell == Deleted(false))
    && (t.primaryKey.Some? && name == t.primaryKey.value.name ==>
          forall f :: f in Own(l).fields && f.desc == t.primaryKey.value.field ==> cell == Raw(f.value))
    && (t.childOf.Some? && name == t.childOf.value.parentTableField ==>
          env.useProtoOptions && cell.Raw? && NearestKey(env, Around(l), cell.raw))
    && OwnCellTells(env, Own(l), t, name, cell)
  }

  /** The row is one of the message's table, with a cell for each column. */
  ghost predicate RowTells(env: Env, l: Lineage, row: Row) {
    var t := TableOf(env, Own(l));
    && t.Some? && row.table == t.value.name && |row.cells| == |ColumnOrder(env.dialect, t.value)|
    && forall j :: 0 <= j < |row.cells| ==>
         CellTells(env, l, t.value, ColumnOrder(env.dialect, t.value)[j], row.cells[j])
  }

  /**
   What is asked of a message with a table: the table was made from its type, names differ, the values have the shapes
   of their declarations and none is out of place, and the table has a parent exactly when a key comes from above.
   */
  ghost predicate Fits(env: Env, l: Lineage) {
    var t := TableOf(env, Own(l));
    t.Some? ==>
      && Registered(env, Own(l), t.value) && DistinctNames(env.dialect, t.value)
      && (GivesKey(env, Around(l)) <==> t.value.childOf.Some?)
      && forall f :: f in Own(l).fields ==> Typed(f) && !Misplaced(t.value, f)
  }

  /** Row by row what the messages say, up to an error. */
  ghost predicate Tells(env: Env, o: Outcome, told: seq<Lineage>) {
    && |o.rows| <= |told| && (o.error.None? ==> |o.rows| == |told|)
    && forall i :: 0 <= i < |o.rows| ==> RowTells(env, told[i], o.rows[i])
  }

  lemma TellsInTurn(env: Env, a: Outcome, b: Outcome, first: seq<Lineage>, then_: seq<Lineage>)
    requires Tells(env, a, first)
    ensures a.error.Some? ==> Tells(env, a, first + then_)
    ensures a.error.None? && Tells(env, b, then_) ==> Tells(env, Outcome(a.rows + b.rows, b.error), first + then_)
  {
  }

  // ----- one row -----

  lemma {:induction false} ConvertedEach(env: Env, d: FieldDesc, items: seq<FieldValue>)
    requires NormalizeAll(env, d, items).Ok?
    ensures var texts := NormalizeAll(env, d, items).value;
            |texts| == |items| && forall i :: 0 <= i < |items| ==> env.normalize(d, items[i]) == Ok(texts[i])
  {
    if items != [] {
      ConvertedEach(env, d, items[1..]);
      var texts := NormalizeAll(env, d, items).value;
      assert texts[1..] == NormalizeAll(env, d, items[1..]).value;
      forall i | 0 <= i < |items| ensures env.normalize(d, items[i]) == Ok(texts[i]) {
        assert i > 0 ==> items[i] == items[1..][i - 1] && texts[i] == texts[1..][i - 1];
      }
    }
  }

  lemma FieldTold(env: Env, t: Table, f: Field)
    requires Typed(f) && IsColumn(f.desc) && HasColumn(t, f.desc) && !IsKey(Some(t), f.desc) && !Misplaced(t, f)
    requires InsertField(env, Some(t), f).Ok?
    ensures var values := InsertField(env, Some(t), f).value.values;
            |values| == 1 && values[0].field == f.desc && FieldCell(env, f, values[0].cell)
  {
    if f.value.Elements? {
      ConvertedEach(env, f.desc, f.value.items);
    }
  }

  /** The value of a column's field is among those gathered. */
  lemma {:induction false} FieldGathered(env: Env, t: Table, fields: seq<Field>, f: Field) returns (i: nat)
    requires f in fields && InsertFields(env, Some(t), fields).Ok?
    requires Typed(f) && IsColumn(f.desc) && HasColumn(t, f.desc) && !IsKey(Some(t), f.desc) && !Misplaced(t, f)
    ensures var values := InsertFields(env, Some(t), fields).value.values;
            i < |values| && values[i].field == f.desc && FieldCell(env, f, values[i].cell)
  {
    var own := InsertField(env, Some(t), fields[0]).value.values;
    var rest := InsertFields(env, Some(t), fields[1..]).value.values;
    assert InsertFields(env, Some(t), fields).value.values == own + rest;
    if fields[0] == f {
      FieldTold(env, t, f);
      i := 0;
    } else {
      var j := FieldGathered(env, t, fields[1..], f);
      assert (own + rest)[|own| + j] == rest[j];
      i := |own| + j;
    }
  }

  lemma {:induction false} ValueAt(values: seq<Tagged>, i: nat)
    requires i < |values|
    ensures |CellsOf(values)| == |ColumnNames(FieldsOf(values))| == |values|
    ensures CellsOf(values)[i] == values[i].cell
    ensures ColumnNames(FieldsOf(values))[i] == NewColumn(values[i].field).name
  {
    CellCount(values);
    assert FieldsOf(values)[1..] == FieldsOf(values[1..]);
    if i > 0 {
      ValueAt(values[1..], i - 1);
    } else if |values| > 1 {
      ValueAt(values[1..], 0);
    }
  }

  /** The cell that stands where a column's name is. */
  ghost predicate Stands(order: seq<string>, cells: seq<Cell>, name: string, cell: Cell) {
    exists p :: 0 <= p < |order| == |cells| && order[p] == name && cells[p] == cell
  }

  lemma StandsAlone(order: seq<string>, cells: seq<Cell>, j: nat, cell: Cell)
    requires forall a, b :: 0 <= a < b < |order| ==> order[a] != order[b]
    requires j < |order| == |cells| && Stands(order, cells, order[j], cell)
    ensures cells[j] == cell
  {
  }

  /** Segment by segment. */
  lemma SegmentsStand(
    a: seq<string>, b: seq<string>, c: seq<string>, d: seq<string>,
    w: seq<Cell>, x: seq<Cell>, y: seq<Cell>, z: seq<Cell>, i: nat)
    requires |a| == |w| && |b| == |x| && |c| == |y| && |d| == |z|
    ensures i < |a| ==> Stands(a + b + c + d, w + x + y + z, a[i], w[i])
    ensures i < |b| ==> Stands(a + b + c + d, w + x + y + z, b[i], x[i])
    ensures i < |c| ==> Stands(a + b + c + d, w + x + y + z, c[i], y[i])
    ensures i < |d| ==> Stands(a + b + c + d, w + x + y + z, d[i], z[i])
  {
    var order, cells := a + b + c + d, w + x + y + z;
    if i < |a| {
      assert order[i] == a[i] && cells[i] == w[i];
    }
    if i < |b| {
      var p := |a| + i;
      assert order[p] == b[i] && cells[p] == x[i];
    }
    if i < |c| {
      var p := |a| + |b| + i;
      assert order[p] == c[i] && cells[p] == y[i];
    }
    if i < |d| {
      var p := |a| + |b| + |c| + i;
      assert order[p] == d[i] && cells[p] == z[i];
    }
  }

  lemma SystemAt(env: Env)
    ensures var names, cells := SystemColumns(env.dialect), SystemCells(env);
            && Stands(names, cells, env.dialect.blockNumber, BlockNumber(env.block))
            && Stands(names, cells, env.dialect.blockTimestamp, BlockTime(env.time))
            && (env.dialect.useVersion ==> Stands(names, cells, "_version_", Version(env.version)))
            && (env.dialect.useDeleted ==> Stands(names, cells, "_deleted_", Deleted(false)))
  {
    var names, cells := SystemColumns(env.dialect), SystemCells(env);
    assert names[0] == env.dialect.blockNumber && cells[0] == BlockNumber(env.block);
    assert names[1] == env.dialect.blockTimestamp && cells[1] == BlockTime(env.time);
    if env.dialect.useVersion {
      assert names[2] == "_version_" && cells[2] == Version(env.version);
    }
    if env.dialect.useDeleted {
      var p := if env.dialect.useVersion then 3 else 2;
      assert names[p] == "_deleted_" && cells[p] == Deleted(false);
    }
  }

  /** A row in the order of its table. */
  ghost predicate InOrder(env: Env, t: Table, m: Message, parent: Option<FieldValue>, values: seq<Tagged>) {
    && DistinctNames(env.dialect, t) && (parent.Some? <==> t.childOf.Some?)
    && ColumnNames(FieldsOf(values)) == NamesWithout(t.columns, KeyName(t) + ParentName(t))
  }

  /** Whatever stands with its name in a segment is the cell in the column of that name. */
  lemma {:induction false} InSegments(
    env: Env, t: Table, m: Message, parent: Option<FieldValue>, values: seq<Tagged>, j: nat)
    requires InOrder(env, t, m, parent, values)
    ensures var order, cells := ColumnOrder(env.dialect, t), InsertRow(env, t, m, parent, values).cells;
            && |order| == |cells|
            && (j < |order| ==>
                  && (forall cell :: Stands(SystemColumns(env.dialect), SystemCells(env), order[j], cell) ==>
                        cells[j] == cell)
                  && (t.primaryKey.Some? && order[j] == t.primaryKey.value.name ==>
                        cells[j] == Raw(KeyValue(Some(t), m).value))
                  && (t.childOf.Some? && order[j] == t.childOf.value.parentTableField ==>
                        cells[j] == Raw(parent.value))
                  && forall i :: 0 <= i < |values| && order[j] == NewColumn(values[i].field).name ==>
                        cells[j] == values[i].cell)
  {
    var order, cells := ColumnOrder(env.dialect, t), InsertRow(env, t, m, parent, values).cells;
    var a, b, c, d :=
      SystemColumns(env.dialect), KeyColumn(t), ParentColumn(t), NamesWithout(t.columns, KeyName(t) + ParentName(t));
    var w, x, y, z := SystemCells(env), OptionalCell(KeyValue(Some(t), m)), OptionalCell(parent), CellsOf(values);
    CellCount(values);
    assert order == a + b + c + d && cells == w + x + y + z && |a| == |w|;
    if j < |order| {
      forall cell | Stands(a, w, order[j], cell) ensures cells[j] == cell {
        var i :| 0 <= i < |a| && a[i] == order[j] && w[i] == cell;
        SegmentsStand(a, b, c, d, w, x, y, z, i);
        StandsAlone(order, cells, j, cell);
      }
      if t.primaryKey.Some? && order[j] == t.primaryKey.value.name {
        SegmentsStand(a, b, c, d, w, x, y, z, 0);
        StandsAlone(order, cells, j, x[0]);
      }
      if t.childOf.Some? && order[j] == t.childOf.value.parentTableField {
        SegmentsStand(a, b, c, d, w, x, y, z, 0);
        StandsAlone(order, cells, j, y[0]);
      }
      forall i | 0 <= i < |values| && order[j] == NewColumn(values[i].field).name ensures cells[j] == values[i].cell {
        ValueAt(values, i);
        SegmentsStand(a, b, c, d, w, x, y, z, i);
        StandsAlone(order, cells, j, z[i]);
      }
    }
  }

  lemma {:induction false} OwnRowTells(env: Env, l: Lineage, t: Table, parent: Option<FieldValue>)
    requires TableOf(env, Own(l)) == Some(t) && Fits(env, l) && BringsKey(env, Around(l), parent)
    requires InsertFields(env, Some(t), Own(l).fields).Ok?
    ensures RowTells(env, l, InsertRow(env, t, Own(l), parent, InsertFields(env, Some(t), Own(l).fields).value.values))
  {
    var m := Own(l);
    var values := InsertFields(env, Some(t), m.fields).value.values;
    RegisteredColumns(env, m, t);
    AlignedIff(env, t, m.fields);
    ColumnsBesideKey(env, m, t);
    if parent.Some? {
      KeyIsGiven(env, Around(l), parent.value);
    }
    assert InOrder(env, t, m, parent, values);
    var order, cells := ColumnOrder(env.dialect, t), InsertRow(env, t, m, parent, values).cells;
    InSegments(env, t, m, parent, values, 0);
    forall j | 0 <= j < |cells| ensures CellTells(env, l, t, order[j], cells[j]) {
      InSegments(env, t, m, parent, values, j);
      SystemAt(env);
      KeyCellTells(env, l, t, order[j], cells[j]);
      OwnCellsTell(env, l, t, values, order[j], cells[j]);
    }
  }

  lemma {:induction false} KeyCellTells(env: Env, l: Lineage, t: Table, name: string, cell: Cell)
    requires Registered(env, Own(l), t)
    requires t.primaryKey.Some? && name == t.primaryKey.value.name ==> cell == Raw(KeyValue(Some(t), Own(l)).value)
    ensures t.primaryKey.Some? && name == t.primaryKey.value.name ==>
              forall f :: f in Own(l).fields && f.desc == t.primaryKey.value.field ==> cell == Raw(f.value)
  {
    if t.primaryKey.Some? && name == t.primaryKey.value.name {
      forall f | f in Own(l).fields && f.desc == t.primaryKey.value.field ensures cell == Raw(f.value) {
        KeyIsOfItsField(env, Own(l), t, f);
      }
    }
  }

  lemma {:induction false} OwnCellsTell(
    env: Env, l: Lineage, t: Table, values: seq<Tagged>, name: string, cell: Cell)
    requires TableOf(env, Own(l)) == Some(t) && Fits(env, l) && ColumnsKnown(t, Own(l).fields)
    requires InsertFields(env, Some(t), Own(l).fields).Ok?
    requires values == InsertFields(env, Some(t), Own(l).fields).value.values
    requires forall i :: 0 <= i < |values| && name == NewColumn(values[i].field).name ==> cell == values[i].cell
    ensures OwnCellTells(env, Own(l), t, name, cell)
  {
    var fields := Own(l).fields;
    forall f, c | f in fields && c in t.columns && c.field == f.desc && c.name == name && !IsKeyField(t, c)
      ensures FieldCell(env, f, cell)
    {
      ColumnFields(Descs(fields), f.desc);
      var i := FieldGathered(env, t, fields, f);
      assert c == NewColumn(c.field);
    }
  }

  // ----- whole trees -----

  /** The messages that the walk collects from the fields are those nested in them. */
  lemma {:induction false} ChildrenAreBelow(env: Env, t: Option<Table>, fields: seq<Field>)
    requires InsertFields(env, t, fields).Ok?
    requires t.Some? ==> forall f :: f in fields ==> Typed(f) && (IsKey(t, f.desc) ==> IsColumn(f.desc))
    ensures InsertFields(env, t, fields).value.children == Below(fields)
  {
    if fields != [] {
      var f := fields[0];
      assert f in fields && forall g :: g in fields[1..] ==> g in fields;
      ChildrenAreBelow(env, t, fields[1..]);
      ChildrenOfField(env, t, f);
    }
  }

  lemma ChildrenOfField(env: Env, t: Option<Table>, f: Field)
    requires InsertField(env, t, f).Ok?
    requires t.Some? ==> Typed(f) && (IsKey(t, f.desc) ==> IsColumn(f.desc))
    ensures InsertField(env, t, f).value.children == NestedIn(f)
  {
    if f.value.Elements? && f.value.items != [] {
      assert f.value.items[0] in f.value.items;
    }
  }

  lemma {:induction false} ChildrenOfFitting(env: Env, l: Lineage)
    requires Fits(env, l) && InsertFields(env, TableOf(env, Own(l)), Own(l).fields).Ok?
    ensures InsertFields(env, TableOf(env, Own(l)), Own(l).fields).value.children == Below(Own(l).fields)
  {
    var t := TableOf(env, Own(l));
    if t.Some? && t.value.primaryKey.Some? {
      var f := KeyHasField(env, Own(l), t.value);
    }
    ChildrenAreBelow(env, t, Own(l).fields);
  }

  /** The key that the walk passes on is what the messages below get from those around them. */
  lemma {:induction false} PassedOnIsBrought(
    env: Env, l: Lineage, children: seq<FieldValue>, parent: Option<FieldValue>)
    requires Fits(env, l) && BringsKey(env, Around(l), parent) && children != []
    requires !NoKeyToGive(env, TableOf(env, Own(l)), children, parent)
    ensures BringsKey(env, l, PassedOn(env, TableOf(env, Own(l)), Own(l), children, parent))
  {
    var m, t := Own(l), TableOf(env, Own(l));
    assert l == Around(l) + [m];
    if Keyed(env, m) {
      var f := KeyHasField(env, m, t.value);
      KeyIsOfItsField(env, m, t.value, f);
      assert HasKey(env, m, f.value);
      assert m in l;
    }
  }

  /**
   The rows of the insert walk are, in order, those of the messages that have a table, each saying what its message
   says; an error ends them.
   */
  lemma {:induction false} RowsTellMessages(
    env: Env, above: seq<Message>, vs: seq<FieldValue>, parent: Option<FieldValue>)
    requires BringsKey(env, above, parent) && forall l :: l in Lineages(above, vs) ==> Fits(env, l)
    ensures Tells(env, InsertWalk(env, vs, parent), Stored(env, Lineages(above, vs)))
    decreases Weight(vs)
  {
    if vs != [] {
      var first, rest := LineagesOf(above, vs[0]), Lineages(above, vs[1..]);
      assert forall l :: l in first || l in rest ==> l in Lineages(above, vs);
      StoredAppend(env, first, rest);
      MessageTells(env, above, vs[0], parent);
      RowsTellMessages(env, above, vs[1..], parent);
      TellsInTurn(env, InsertMessage(env, vs[0], parent), InsertWalk(env, vs[1..], parent), Stored(env, first),
                  Stored(env, rest));
    }
  }

  function OwnRows(env: Env, m: Message, parent: Option<FieldValue>, values: seq<Tagged>): seq<Row> {
    if TableOf(env, m).Some? then [InsertRow(env, TableOf(env, m).value, m, parent, values)] else []
  }

  lemma {:induction false} OwnRowsTell(env: Env, l: Lineage, parent: Option<FieldValue>, error: Option<Failure>)
    requires Fits(env, l) && BringsKey(env, Around(l), parent)
    requires InsertFields(env, TableOf(env, Own(l)), Own(l).fields).Ok?
    ensures var values := InsertFields(env, TableOf(env, Own(l)), Own(l).fields).value.values;
            Tells(env, Outcome(OwnRows(env, Own(l), parent, values), error), Stored(env, [l]))
  {
    assert [l][1..] == [];
    if TableOf(env, Own(l)).Some? {
      OwnRowTells(env, l, TableOf(env, Own(l)).value, parent);
    }
  }

  /** A message gives nothing before its fields are read, and then its own row and what is below. */
  lemma {:induction false} MessageInTwo(env: Env, m: Message, parent: Option<FieldValue>)
    ensures var t, o := TableOf(env, m), InsertMessage(env, Nested(m), parent);
            var gathered := InsertFields(env, t, m.fields);
            || (o.rows == [] && o.error.Some?)
            || (&& gathered.Ok?
                && var own, children := OwnRows(env, m, parent, gathered.value.values), gathered.value.children;
                   if NoKeyToGive(env, t, children, parent) then o == Outcome(own, Some(NoKeyForChildren))
                   else
                     var below := InsertWalk(env, children, PassedOn(env, t, m, children, parent));
                     o == Outcome(own + below.rows, below.error))
  {
    if InsertFields(env, TableOf(env, m), m.fields).Ok? {
      InsertWeight(env, TableOf(env, m), m.fields);
    }
  }

  /** The row of a message and the rows below it, one after the other. */
  lemma {:induction false} OwnAndBelowTell(env: Env, l: Lineage, parent: Option<FieldValue>, below: seq<Lineage>)
    requires Fits(env, l) && BringsKey(env, Around(l), parent)
    requires InsertFields(env, TableOf(env, Own(l)), Own(l).fields).Ok?
    requires var t, children := TableOf(env, Own(l)), Below(Own(l).fields);
             children == InsertFields(env, t, Own(l).fields).value.children &&
             (!NoKeyToGive(env, t, children, parent) ==>
                Tells(env, InsertWalk(env, children, PassedOn(env, t, Own(l), children, parent)), Stored(env, below)))
    ensures Tells(env, InsertMessage(env, Nested(Own(l)), parent), Stored(env, [l]) + Stored(env, below))
  {
    var m, t := Own(l), TableOf(env, Own(l));
    var gathered := InsertFields(env, t, m.fields).value;
    var own, children := OwnRows(env, m, parent, gathered.values), gathered.children;
    MessageInTwo(env, m, parent);
    if NoKeyToGive(env, t, children, parent) {
      OwnRowsTell(env, l, parent, Some(NoKeyForChildren));
      TellsInTurn(env, Outcome(own, Some(NoKeyForChildren)), Outcome([], None), Stored(env, [l]), Stored(env, below));
    } else {
      OwnRowsTell(env, l, parent, None);
      TellsInTurn(env, Outcome(own, None), InsertWalk(env, children, PassedOn(env, t, m, children, parent)),
                  Stored(env, [l]), Stored(env, below));
    }
  }

  lemma {:induction false} MessageTells(env: Env, above: seq<Message>, v: FieldValue, parent: Option<FieldValue>)
    requires BringsKey(env, above, parent) && forall l :: l in LineagesOf(above, v) ==> Fits(env, l)
    ensures Tells(env, InsertMessage(env, v, parent), Stored(env, LineagesOf(above, v)))
    decreases ValueWeight(v), 0
  {
    if v.Nested? {
      var m := v.message;
      var l: Lineage, t := above + [m], TableOf(env, m);
      BelowWeight(m.fields);
      var below := Lineages(l, Below(m.fields));
      assert Own(l) == m && Around(l) == above && LineagesOf(above, v) == [l] + below;
      assert forall k :: k == l || k in below ==> k in LineagesOf(above, v);
      StoredAppend(env, [l], below);
      if InsertFields(env, t, m.fields).Ok? {
        ChildrenOfFitting(env, l);
        var children := Below(m.fields);
        if children != [] && !NoKeyToGive(env, t, children, parent) {
          PassedOnIsBrought(env, l, children, parent);
          RowsTellMessages(env, l, children, PassedOn(env, t, m, children, parent));
        }
        OwnAndBelowTell(env, l, parent, below);
      } else {
        MessageInTwo(env, m, parent);
      }
    }
  }

  /** So are the rows of the CSV walk, on the trees on which the two walks agree. */
  lemma {:induction false} CsvRowsTellMessages(env: Env, vs: seq<FieldValue>)
    requires AllAgreeing(env, vs, None) && forall l :: l in Lineages([], vs) ==> Fits(env, l)
    ensures match CsvWalk(env, vs, None)
            case Ok(rows) => Tells(env, Outcome(rows, None), Stored(env, Lineages([], vs)))
            case Err(e) => InsertWalk(env, vs, None).error == Some(e)
  {
    WalksAgree(env, vs, None);
    RowsTellMessages(env, [], vs, None);
  }
}
