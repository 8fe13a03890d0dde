/**
 The two walks that turn a message tree into rows: one builds positional value lists for the inserters, the other fills
 named cells for CSV files. On trees that fit the schema they give the same rows in the same order.
 */
module MessageWalk {
  import opened Prelude
  import opened TableSchema

  /** What a field holds: `Native(None)` is no value at all, `NilMessage` an absent message. */
  datatype FieldValue =
    | Native(native: Option<string>)
    | Nested(message: Message)
    | NilMessage
    | Elements(items: seq<FieldValue>)

  datatype Field = Field(desc: FieldDesc, has: bool, value: FieldValue)

  datatype Message = Message(name: string, tableInfo: Option<TableInfo>, fields: seq<Field>)

  datatype Cell =
    | BlockNumber(number: nat)
    | BlockTime(time: int)
    | Version(version: int)
    | Deleted(deleted: bool)
    | Raw(raw: FieldValue)
    | Normal(text: string)
    | Array(texts: seq<string>)
    | Empty

  /** The values of one row, in the order of the table's columns. */
  datatype Row = Row(table: string, cells: seq<Cell>)

  /** What a walk depends on; conversion to the column's type may fail, and the row version is one arbitrary number. */
  datatype Env = Env(
    dialect: Dialect, tables: map<string, Table>, useProtoOptions: bool,
    normalize: (FieldDesc, FieldValue) -> Result<string>, block: nat, time: int, version: int)

  function InfoOf(env: Env, m: Message): Option<TableInfo> {
    if m.tableInfo.None? && !env.useProtoOptions then Some(TableInfo(m.name, None)) else m.tableInfo
  }

  function TableOf(env: Env, m: Message): Option<Table> {
    var info := InfoOf(env, m);
    if info.Some? && info.value.name in env.tables then Some(env.tables[info.value.name]) else None
  }

  predicate IsKey(t: Option<Table>, d: FieldDesc) {
    t.Some? && t.value.primaryKey.Some? && t.value.primaryKey.value.field == d
  }

  predicate HasColumn(t: Table, d: FieldDesc) {
    exists c :: c in t.columns && c.field == d
  }

  predicate IsMessageValue(v: FieldValue) {
    v.Nested? || v.NilMessage?
  }

  function ValueNamed(fields: seq<Field>, name: string): FieldValue {
    if fields == [] then Native(None)
    else if fields[0].desc.name == name then fields[0].value
    else ValueNamed(fields[1..], name)
  }

  /** The value of the table's key, if it has one. */
  function KeyValue(t: Option<Table>, m: Message): Option<FieldValue> {
    if t.Some? && t.value.primaryKey.Some? then Some(ValueNamed(m.fields, t.value.primaryKey.value.field.name))
    else None
  }

  function OptionalCell(v: Option<FieldValue>): seq<Cell> {
    if v.Some? then [Raw(v.value)] else []
  }

  function SystemCells(env: Env): seq<Cell> {
    [BlockNumber(env.block), BlockTime(env.time)]
    + (if env.dialect.useVersion then [Version(env.version)] else [])
    + (if env.dialect.useDeleted then [Deleted(false)] else [])
  }

  // ----- the weight of a tree, which every descent decreases -----

  function Weight(vs: seq<FieldValue>): nat
    decreases vs
  {
    if vs == [] then 0 else ValueWeight(vs[0]) + Weight(vs[1..])
  }

  function ValueWeight(v: FieldValue): (w: nat)
    ensures w > 0
    decreases v
  {
    match v
    case Nested(m) => 1 + FieldsWeight(m.fields)
    case Elements(items) => 1 + Weight(items)
    case _ => 1
  }

  function FieldsWeight(fields: seq<Field>): nat
    decreases fields
  {
    if fields == [] then 0 else FieldWeight(fields[0]) + FieldsWeight(fields[1..])
  }

  function FieldWeight(f: Field): (w: nat)
    ensures w > 0
    decreases f
  {
    ValueWeight(f.value)
  }

  lemma {:induction false} WeightAppend(a: seq<FieldValue>, b: seq<FieldValue>)
    ensures Weight(a + b) == Weight(a) + Weight(b)
  {
    if a == [] {
      assert a + b == b;
    } else {
      assert (a + b)[0] == a[0] && (a + b)[1..] == a[1..] + b;
      WeightAppend(a[1..], b);
    }
  }

  lemma {:induction false} MemberWeight(vs: seq<FieldValue>, i: nat)
    requires i < |vs|
    ensures ValueWeight(vs[i]) <= Weight(vs)
  {
    if i > 0 {
      MemberWeight(vs[1..], i - 1);
    }
  }

  // ----- the insert walk -----

  /** A value together with the field that it comes from. */
  datatype Tagged = Tagged(field: FieldDesc, cell: Cell)

  datatype Gathered<+T> = Gathered(values: seq<T>, children: seq<FieldValue>)

  function NormalizeAll(env: Env, d: FieldDesc, items: seq<FieldValue>): Result<seq<string>> {
    if items == [] then Ok([])
    else
      var first := env.normalize(d, items[0]);
      if first.Err? then Err(first.error)
      else
        var rest := NormalizeAll(env, d, items[1..]);
        if rest.Err? then rest else Ok([first.value] + rest.value)
  }

  function InsertField(env: Env, t: Option<Table>, f: Field): Result<Gathered<Tagged>> {
    if f.desc.oneof && !f.has then Ok(Gathered([], []))
    else if IsKey(t, f.desc) then Ok(Gathered([], []))
    else if !f.desc.message && t.Some? && !HasColumn(t.value, f.desc) then Ok(Gathered([], []))
    else match f.value
      case NilMessage => Ok(Gathered([], []))
      case Nested(_) => Ok(Gathered([], [f.value]))
      case Native(_) =>
        (var text := env.normalize(f.desc, f.value);
         if text.Err? then Err(text.error) else Ok(Gathered([Tagged(f.desc, Normal(text.value))], [])))
      case Elements(items) =>
        if items == [] then Ok(Gathered([], []))
        else if IsMessageValue(items[0]) then
          if forall c :: c in items ==> IsMessageValue(c) then Ok(Gathered([], items)) else Err(MixedList)
        else
          var texts := NormalizeAll(env, f.desc, items);
          if texts.Err? then Err(texts.error) else Ok(Gathered([Tagged(f.desc, Array(texts.value))], []))
  }

  function Joined<T>(a: Result<Gathered<T>>, b: Result<Gathered<T>>): Result<Gathered<T>> {
    if a.Err? then a
    else if b.Err? then b
    else Ok(Gathered(a.value.values + b.value.values, a.value.children + b.value.children))
  }

  lemma JoinedAgain<T>(a: Gathered<T>, b: Result<Gathered<T>>, c: Result<Gathered<T>>)
    ensures Joined(Joined(Ok(a), b), c) == Joined(Ok(a), Joined(b, c))
  {
    if b.Ok? && c.Ok? {
      assert a.values + b.value.values + c.value.values == a.values + (b.value.values + c.value.values);
      assert a.children + b.value.children + c.value.children == a.children + (b.value.children + c.value.children);
    }
  }

  lemma JoinedWithNothing<T>(a: Result<Gathered<T>>)
    ensures Joined(Ok(Gathered([], [])), a) == a && Joined(a, Ok(Gathered([], []))) == a
  {
    if a.Ok? {
      assert [] + a.value.values == a.value.values + [] == a.value.values;
      assert [] + a.value.children == a.value.children + [] == a.value.children;
    }
  }

  function InsertFields(env: Env, t: Option<Table>, fields: seq<Field>): Result<Gathered<Tagged>> {
    if fields == [] then Ok(Gathered([], []))
    else Joined(InsertField(env, t, fields[0]), InsertFields(env, t, fields[1..]))
  }

  lemma {:induction false} InsertWeight(env: Env, t: Option<Table>, fields: seq<Field>)
    requires InsertFields(env, t, fields).Ok?
    ensures Weight(InsertFields(env, t, fields).value.children) <= FieldsWeight(fields)
  {
    if fields != [] {
      var f := fields[0];
      InsertWeight(env, t, fields[1..]);
      var own := InsertField(env, t, f).value.children;
      WeightAppend(own, InsertFields(env, t, fields[1..]).value.children);
      assert Weight([f.value]) == ValueWeight(f.value) + Weight([]);
      assert Weight(own) <= ValueWeight(f.value);
    }
  }

  function CellsOf(values: seq<Tagged>): seq<Cell> {
    if values == [] then [] else [values[0].cell] + CellsOf(values[1..])
  }

  function InsertRow(env: Env, t: Table, m: Message, parent: Option<FieldValue>, values: seq<Tagged>): Row {
    Row(t.name, SystemCells(env) + OptionalCell(KeyValue(Some(t), m)) + OptionalCell(parent) + CellsOf(values))
  }

  datatype Outcome = Outcome(rows: seq<Row>, error: Option<Failure>)

  /** A row that should give its key to its children and has none. */
  predicate NoKeyToGive(env: Env, t: Option<Table>, children: seq<FieldValue>, parent: Option<FieldValue>) {
    t.Some? && children != [] && env.useProtoOptions && t.value.primaryKey.None? && parent.None?
  }

  function PassedOn(env: Env, t: Option<Table>, m: Message, children: seq<FieldValue>, parent: Option<FieldValue>)
    : Option<FieldValue>
  {
    if t.Some? && children != [] && env.useProtoOptions && t.value.primaryKey.Some? then KeyValue(t, m) else parent
  }

  /** `WalkMessageDescriptorAndInsertWithDialect` on each message of a list, until one fails. */
  function InsertWalk(env: Env, vs: seq<FieldValue>, parent: Option<FieldValue>): Outcome
    decreases Weight(vs)
  {
    if vs == [] then Outcome([], None)
    else
      var first := InsertMessage(env, vs[0], parent);
      if first.error.Some? then first
      else
        var rest := InsertWalk(env, vs[1..], parent);
        Outcome(first.rows + rest.rows, rest.error)
  }

  function InsertMessage(env: Env, v: FieldValue, parent: Option<FieldValue>): Outcome
    decreases ValueWeight(v), 0
  {
    if !v.Nested? then Outcome([], Some(NilMessageReceived))
    else
      var m := v.message;
      var t := TableOf(env, m);
      if KeyValue(t, m) == Some(Native(None)) then Outcome([], Some(MissingPrimaryKeyField))
      else
        var gathered := InsertFields(env, t, m.fields);
        if gathered.Err? then Outcome([], Some(gathered.error))
        else
          var children := gathered.value.children;
          var own := if t.Some? then [InsertRow(env, t.value, m, parent, gathered.value.values)] else [];
          if NoKeyToGive(env, t, children, parent) then Outcome(own, Some(NoKeyForChildren))
          else
            InsertWeight(env, t, m.fields);
            var below := InsertWalk(env, children, PassedOn(env, t, m, children, parent));
            Outcome(own + below.rows, below.error)
  }

  // ----- the CSV walk -----

  datatype Named = Named(column: string, cell: Cell)

  /** The column a field is written to: its own, or else whichever has the field's name. */
  function ColumnNameOf(columns: seq<Column>, d: FieldDesc): string {
    if columns == [] then d.name
    else if columns[0].field == d then columns[0].name
    else ColumnNameOf(columns[1..], d)
  }

  function CsvField(env: Env, t: Option<Table>, f: Field): Result<Gathered<Named>> {
    if f.desc.oneof && !f.has then Ok(Gathered([], []))
    else if IsKey(t, f.desc) then Ok(Gathered([], []))
    else match f.value
      case NilMessage => Ok(Gathered([], []))
      case Nested(_) => Ok(Gathered([], [f.value]))
      case Elements(items) =>
        if forall c :: c in items ==> IsMessageValue(c) then Ok(Gathered([], items)) else Err(RepeatedScalar)
      case Native(_) =>
        if t.None? then Ok(Gathered([], []))
        else
          var text := env.normalize(f.desc, f.value);
          if text.Err? then Err(text.error)
          else Ok(Gathered([Named(ColumnNameOf(t.value.columns, f.desc), Normal(text.value))], []))
  }

  function CsvFields(env: Env, t: Option<Table>, fields: seq<Field>): Result<Gathered<Named>> {
    if fields == [] then Ok(Gathered([], []))
    else Joined(CsvField(env, t, fields[0]), CsvFields(env, t, fields[1..]))
  }

  lemma {:induction false} CsvWeight(env: Env, t: Option<Table>, fields: seq<Field>)
    requires CsvFields(env, t, fields).Ok?
    ensures Weight(CsvFields(env, t, fields).value.children) <= FieldsWeight(fields)
  {
    if fields != [] {
      var f := fields[0];
      CsvWeight(env, t, fields[1..]);
      var own := CsvField(env, t, f).value.children;
      WeightAppend(own, CsvFields(env, t, fields[1..]).value.children);
      assert Weight([f.value]) == ValueWeight(f.value) + Weight([]);
      assert Weight(own) <= ValueWeight(f.value);
    }
  }

  /** The index of each column; a later column of the same name wins. */
  function ColumnIndex(columns: seq<string>): (index: map<string, nat>)
    ensures forall name :: name in index <==> name in columns
    ensures forall name :: name in index ==> index[name] < |columns| && columns[index[name]] == name
  {
    if columns == [] then map[]
    else
      var last := |columns| - 1;
      ColumnIndex(columns[..last])[columns[last] := last]
  }

  function Assign(index: map<string, nat>, row: seq<Cell>, value: Named): (r: seq<Cell>)
    ensures |r| == |row|
  {
    if value.column in index && index[value.column] < |row| then row[index[value.column] := value.cell] else row
  }

  function AssignAll(index: map<string, nat>, row: seq<Cell>, values: seq<Named>): (r: seq<Cell>)
    ensures |r| == |row|
    decreases |values|
  {
    if values == [] then row else AssignAll(index, Assign(index, row, values[0]), values[1..])
  }

  function SystemValues(env: Env): seq<Named> {
    [Named(env.dialect.blockNumber, BlockNumber(env.block)), Named(env.dialect.blockTimestamp, BlockTime(env.time))]
    + (if env.dialect.useVersion then [Named(VERSION, Version(env.version))] else [])
    + (if env.dialect.useDeleted then [Named(DELETED, Deleted(false))] else [])
  }

  function KeyAssignment(t: Table, m: Message): seq<Named> {
    if t.primaryKey.Some? then [Named(t.primaryKey.value.name, Raw(KeyValue(Some(t), m).value))] else []
  }

  function ParentAssignment(t: Table, parent: Option<FieldValue>): seq<Named> {
    if parent.Some? && t.childOf.Some? then [Named(t.childOf.value.parentTableField, Raw(parent.value))] else []
  }

  function CsvRow(env: Env, t: Table, m: Message, parent: Option<FieldValue>, values: seq<Named>): Row {
    var columns := ColumnOrder(env.dialect, t);
    var writes := SystemValues(env) + KeyAssignment(t, m) + ParentAssignment(t, parent) + values;
    Row(t.name, AssignAll(ColumnIndex(columns), seq(|columns|, i => Empty), writes))
  }

  /** `walkMessageAndCollectRows` on each message of a list: all rows, or the first error. */
  function CsvWalk(env: Env, vs: seq<FieldValue>, parent: Option<FieldValue>): Result<seq<Row>>
    decreases Weight(vs)
  {
    if vs == [] then Ok([])
    else
      var first := CsvMessage(env, vs[0], parent);
      if first.Err? then first
      else
        var rest := CsvWalk(env, vs[1..], parent);
        if rest.Err? then rest else Ok(first.value + rest.value)
  }

  function CsvMessage(env: Env, v: FieldValue, parent: Option<FieldValue>): Result<seq<Row>>
    decreases ValueWeight(v), 0
  {
    if !v.Nested? then Err(NilMessageReceived)
    else
      var m := v.message;
      var t := TableOf(env, m);
      if KeyValue(t, m) == Some(Native(None)) then Err(MissingPrimaryKeyField)
      else
        var gathered := CsvFields(env, t, m.fields);
        if gathered.Err? then Err(gathered.error)
        else
          var children := gathered.value.children;
          if NoKeyToGive(env, t, children, None) then Err(NoKeyForChildren)
          else
            var own := if t.Some? then [CsvRow(env, t.value, m, parent, gathered.value.values)] else [];
            CsvWeight(env, t, m.fields);
            var below := CsvWalk(env, children, PassedOn(env, t, m, children, None));
            if below.Err? then below else Ok(own + below.value)
  }
}
