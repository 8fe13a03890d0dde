/** Message descriptors, the tables made from them and the column orders that the different writers use. */
module TableSchema {
  import opened Prelude
  import TableLayout

  /** A field of a message type; `owner` is the full name of the type, so that equal fields are the same field. */
  datatype FieldDesc = FieldDesc(
    owner: string, name: string, oneof: bool, repeated: bool, message: bool, timestamp: bool, extension: bool,
    columnName: Option<string>, foreignKey: Option<string>, primaryKey: bool)

  /** What an annotation "table on field" refers to. */
  datatype ChildOf = ChildOf(parentTable: string, parentTableField: string)

  datatype TableInfo = TableInfo(name: string, childOf: Option<string>)

  datatype Descriptor = Descriptor(name: string, tableInfo: Option<TableInfo>, fields: seq<FieldDesc>)

  datatype Column = Column(
    name: string, field: FieldDesc, isPrimaryKey: bool, isRepeated: bool, isExtension: bool, isMessage: bool)

  datatype PrimaryKey = PrimaryKey(name: string, field: FieldDesc)

  datatype Table = Table(name: string, primaryKey: Option<PrimaryKey>, childOf: Option<ChildOf>, columns: seq<Column>)

  // ----- references -----

  const ON := " on "

  /** The text between one " on " and the next. */
  function SplitAtOn(text: string, piece: string): seq<string>
    decreases |text|
  {
    if text == "" then [piece]
    else if ON <= text then [piece] + SplitAtOn(text[|ON|..], "")
    else SplitAtOn(text[1..], piece + [text[0]])
  }

  /** `NewChildOf`, and `NewForeignKey` alike. */
  function NewChildOf(text: string): Result<ChildOf> {
    var parts := SplitAtOn(text, "");
    if |parts| != 2 then Err(MalformedReference)
    else Ok(ChildOf(TableLayout.Trim(parts[0]), TableLayout.Trim(parts[1])))
  }

  lemma {:induction false} PiecesOfOn(text: string, piece: string)
    ensures |SplitAtOn(text, piece)| > 0
    ensures |SplitAtOn(text, piece)| == 1 <==> forall i :: 0 <= i <= |text| ==> !(ON <= text[i..])
    decreases |text|
  {
    if text == "" {
    } else if ON <= text {
      PiecesOfOn(text[|ON|..], "");
      assert text[0..] == text;
    } else {
      PiecesOfOn(text[1..], piece + [text[0]]);
      assert forall i :: 0 < i <= |text| ==> text[i..] == text[1..][i - 1..];
      assert text[0..] == text;
    }
  }

  lemma {:induction false} BeforeOn(a: string, rest: string, piece: string)
    requires ' ' !in a
    ensures SplitAtOn(a + ON + rest, piece) == [piece + a] + SplitAtOn(rest, "")
    decreases |a|
  {
    if a == "" {
      assert a + ON + rest == ON + rest && (ON + rest)[|ON|..] == rest && piece + a == piece;
    } else {
      assert (a + ON + rest)[0] == a[0] && (a + ON + rest)[1..] == a[1..] + ON + rest;
      assert ON[0] == ' ' && a[0] != ' ';
      BeforeOn(a[1..], rest, piece + [a[0]]);
      assert piece + [a[0]] + a[1..] == piece + a;
    }
  }

  lemma {:induction false} WithoutOn(b: string, piece: string)
    requires ' ' !in b
    ensures SplitAtOn(b, piece) == [piece + b]
    decreases |b|
  {
    if b == "" {
      assert piece + b == piece;
    } else {
      assert ON[0] == ' ' && b[0] != ' ';
      WithoutOn(b[1..], piece + [b[0]]);
      assert piece + [b[0]] + b[1..] == piece + b;
    }
  }

  lemma {:induction false} WordIsTrimmed(s: string)
    requires forall c :: c in s ==> !TableLayout.IsSpace(c)
    ensures TableLayout.Trim(s) == s
  {
    assert s != "" ==> s[0] in s && s[|s| - 1] in s;
  }

  /** A reference of two words is read as those; one that has no " on " is refused. */
  lemma ReferenceIsRead(table: string, field: string, text: string)
    requires forall c :: c in table + field ==> !TableLayout.IsSpace(c)
    ensures NewChildOf(table + ON + field) == Ok(ChildOf(table, field))
    ensures (forall i :: 0 <= i <= |text| ==> !(ON <= text[i..])) ==> NewChildOf(text) == Err(MalformedReference)
  {
    assert forall c :: c in table || c in field ==> c in table + field;
    assert TableLayout.IsSpace(' ');
    BeforeOn(table, field, "");
    WithoutOn(field, "");
    WordIsTrimmed(table);
    WordIsTrimmed(field);
    assert "" + table == table && "" + field == field;
    PiecesOfOn(text, "");
  }

  // ----- columns -----

  function NewColumn(f: FieldDesc): Column {
    var name := if f.columnName.Some? then f.columnName.value else f.name;
    Column(name, f, f.primaryKey, f.repeated, f.extension, f.message)
  }

  /** Which fields become columns: no member of a oneof, and of the messages only single timestamps. */
  predicate IsColumn(f: FieldDesc) {
    !f.oneof && !(f.repeated && f.message) && (f.message ==> f.timestamp)
  }

  function ColumnsOf(fields: seq<FieldDesc>): seq<Column> {
    if fields == [] then []
    else (if IsColumn(fields[0]) then [NewColumn(fields[0])] else []) + ColumnsOf(fields[1..])
  }

  lemma {:induction false} ColumnsOfAppend(a: seq<FieldDesc>, b: seq<FieldDesc>)
    ensures ColumnsOf(a + b) == ColumnsOf(a) + ColumnsOf(b)
  {
    if a == [] {
      assert a + b == b;
    } else {
      assert (a + b)[0] == a[0] && (a + b)[1..] == a[1..] + b;
      var first := if IsColumn(a[0]) then [NewColumn(a[0])] else [];
      ColumnsOfAppend(a[1..], b);
      assert ColumnsOf(a + b) == first + ColumnsOf(a[1..] + b);
      Associative(first, ColumnsOf(a[1..]), ColumnsOf(b));
    }
  }

  /** A column has the annotated name or else the field's, and the field's marks. */
  predicate TellsField(c: Column) {
    && c.name == (match c.field.columnName case Some(name) => name case None => c.field.name)
    && (c.isPrimaryKey <==> c.field.primaryKey) && (c.isRepeated <==> c.field.repeated)
    && (c.isExtension <==> c.field.extension) && (c.isMessage <==> c.field.message)
  }

  /** The fields of the columns are the fields that are columns, in order. */
  lemma {:induction false} ColumnFields(fields: seq<FieldDesc>, f: FieldDesc)
    ensures (exists c :: c in ColumnsOf(fields) && c.field == f) <==> f in fields && IsColumn(f)
    ensures forall c :: c in ColumnsOf(fields) ==> c == NewColumn(c.field) && TellsField(c)
  {
    if fields != [] {
      ColumnFields(fields[1..], f);
      var rest := ColumnsOf(fields[1..]);
      assert forall c :: c in ColumnsOf(fields) <==> (IsColumn(fields[0]) && c == NewColumn(fields[0])) || c in rest;
      if f == fields[0] && IsColumn(f) {
        assert NewColumn(f) in ColumnsOf(fields);
      }
      if c :| c in rest && c.field == f {
        assert c in ColumnsOf(fields);
      }
    }
  }

  /** The one column marked as primary key; two marks are an error. */
  function KeyColumns(columns: seq<Column>): seq<Column> {
    if columns == [] then []
    else (if columns[0].isPrimaryKey then [columns[0]] else []) + KeyColumns(columns[1..])
  }

  lemma {:induction false} KeyColumnsAppend(a: seq<Column>, b: seq<Column>)
    ensures KeyColumns(a + b) == KeyColumns(a) + KeyColumns(b)
  {
    if a == [] {
      assert a + b == b;
    } else {
      assert (a + b)[0] == a[0] && (a + b)[1..] == a[1..] + b;
      var first := if a[0].isPrimaryKey then [a[0]] else [];
      KeyColumnsAppend(a[1..], b);
      assert KeyColumns(a + b) == first + KeyColumns(a[1..] + b);
      Associative(first, KeyColumns(a[1..]), KeyColumns(b));
    }
  }

  predicate MalformedColumn(f: FieldDesc) {
    IsColumn(f) && f.foreignKey.Some? && NewChildOf(f.foreignKey.value).Err?
  }

  /** The first thing that is wrong with the fields, if there was a key before them or not. */
  function Problem(fields: seq<FieldDesc>, keyed: bool): Option<Failure> {
    if fields == [] then None
    else
      var f := fields[0];
      if !IsColumn(f) then Problem(fields[1..], keyed)
      else if MalformedColumn(f) then Some(MalformedReference)
      else if f.primaryKey && keyed then Some(DuplicateKey)
      else Problem(fields[1..], keyed || f.primaryKey)
  }

  /** Something is wrong exactly when a column's reference is malformed or there are two keys. */
  lemma {:induction false} ProblemIff(fields: seq<FieldDesc>, keyed: bool)
    ensures Problem(fields, keyed).Some? <==>
            (exists f :: f in fields && MalformedColumn(f)) ||
            |KeyColumns(ColumnsOf(fields))| > (if keyed then 0 else 1)
  {
    if fields != [] {
      var f, rest := fields[0], fields[1..];
      ProblemIff(rest, keyed || (IsColumn(f) && f.primaryKey));
      KeyColumnsAppend(if IsColumn(f) then [NewColumn(f)] else [], ColumnsOf(rest));
      assert [NewColumn(f)][1..] == [];
      assert fields == [f] + rest;
    }
  }

  /** The loop of `processColumns`. */
  method ProcessColumns(fields: seq<FieldDesc>) returns (r: Result<(Option<PrimaryKey>, seq<Column>)>)
    ensures match Problem(fields, false)
            case Some(e) => r == Err(e)
            case None => r == Ok((KeyOfColumns(ColumnsOf(fields)), ColumnsOf(fields)))
  {
    var key: Option<PrimaryKey>, columns := None, [];
    assert fields[0..] == fields;
    for i := 0 to |fields|
      invariant columns == ColumnsOf(fields[..i]) && key == KeyOfColumns(columns)
      invariant Problem(fields, false) == Problem(fields[i..], key.Some?)
    {
      var f := fields[i];
      assert fields[i..][0] == f && fields[i..][1..] == fields[i + 1..];
      assert fields[..i + 1] == fields[..i] + [f] && [f][1..] == [];
      ColumnsOfAppend(fields[..i], [f]);
      if f.oneof || (f.repeated && f.message) || (f.message && !f.timestamp) {
        assert columns + [] == columns;
        continue;
      }
      if f.foreignKey.Some? && NewChildOf(f.foreignKey.value).Err? {
        return Err(MalformedReference);
      }
      var column := NewColumn(f);
      assert [column][1..] == [];
      KeyColumnsAppend(columns, [column]);
      if column.isPrimaryKey {
        if key.Some? {
          return Err(DuplicateKey);
        }
        key := Some(PrimaryKey(column.name, f));
      }
      columns := columns + [column];
    }
    assert fields[..|fields|] == fields;
    r := Ok((key, columns));
  }

  function KeyOfColumns(columns: seq<Column>): Option<PrimaryKey> {
    var keys := KeyColumns(columns);
    if keys == [] then None else Some(PrimaryKey(keys[0].name, keys[0].field))
  }

  /** The table's reference to its parent, if it has one. */
  function ParentOf(info: TableInfo): Result<Option<ChildOf>> {
    if info.childOf.None? then Ok(None)
    else match NewChildOf(info.childOf.value)
      case Err(e) => Err(e)
      case Ok(parent) => Ok(Some(parent))
  }

  /** `NewTable`: nothing for a timestamp type or a type without columns, and an error for what is wrong first. */
  method NewTable(descriptor: Descriptor, info: TableInfo) returns (r: Result<Option<Table>>)
    ensures r.Ok? && r.value.Some? ==> MadeFrom(r.value.value, descriptor, info)
    ensures descriptor.name == "Timestamp" ==> r == Ok(None)
    ensures descriptor.name != "Timestamp" ==>
              if ParentOf(info).Err? then r == Err(MalformedReference)
              else if Problem(descriptor.fields, false).Some? then r == Err(Problem(descriptor.fields, false).value)
              else r.Ok? && (r.value.None? <==> ColumnsOf(descriptor.fields) == [])
  {
    if descriptor.name == "Timestamp" {
      return Ok(None);
    }
    var childOf: Option<ChildOf> := None;
    if info.childOf.Some? {
      var parent := NewChildOf(info.childOf.value);
      if parent.Err? {
        return Err(parent.error);
      }
      childOf := Some(parent.value);
    }
    var processed := ProcessColumns(descriptor.fields);
    ProblemIff(descriptor.fields, false);
    if processed.Err? {
      return Err(processed.error);
    }
    var (key, columns) := processed.value;
    r := Ok(if columns == [] then None else Some(Table(info.name, key, childOf, columns)));
  }

  /** The table that `NewTable` makes from a descriptor. */
  ghost predicate MadeFrom(t: Table, descriptor: Descriptor, info: TableInfo) {
    && t.name == info.name && ParentOf(info) == Ok(t.childOf)
    && t.columns == ColumnsOf(descriptor.fields) && |KeyColumns(t.columns)| <= 1
    && t.primaryKey == KeyOfColumns(t.columns)
  }

  // ----- column orders -----

  const BLOCK_NUMBER := "_block_number_"
  const BLOCK_TIMESTAMP := "_block_timestamp_"
  const VERSION := "_version_"
  const DELETED := "_deleted_"

  datatype Dialect = Dialect(useVersion: bool, useDeleted: bool, blockNumber: string, blockTimestamp: string)

  function SystemColumns(d: Dialect): seq<string> {
    [d.blockNumber, d.blockTimestamp]
    + (if d.useVersion then [VERSION] else []) + (if d.useDeleted then [DELETED] else [])
  }

  function KeyColumn(t: Table): seq<string> {
    if t.primaryKey.Some? then [t.primaryKey.value.name] else []
  }

  function ParentColumn(t: Table): seq<string> {
    if t.childOf.Some? then [t.childOf.value.parentTableField] else []
  }

  /** The columns before those of the fields. */
  function LeadingColumns(d: Dialect, t: Table): seq<string> {
    SystemColumns(d) + KeyColumn(t) + ParentColumn(t)
  }

  function NamesWithout(columns: seq<Column>, skipped: set<string>): seq<string> {
    if columns == [] then []
    else (if columns[0].name in skipped then [] else [columns[0].name]) + NamesWithout(columns[1..], skipped)
  }

  /** The names of one more column. */
  lemma {:induction false} NamesOfNext(columns: seq<Column>, i: nat, skipped: set<string>)
    requires i < |columns|
    ensures NamesWithout(columns[..i + 1], skipped) ==
            NamesWithout(columns[..i], skipped) + if columns[i].name in skipped then [] else [columns[i].name]
  {
    if i == 0 {
      assert columns[..1] == [columns[0]] && [columns[0]][1..] == [];
    } else {
      assert columns[..i + 1][1..] == columns[1..][..i] && columns[..i][1..] == columns[1..][..i - 1];
      NamesOfNext(columns[1..], i - 1, skipped);
    }
  }

  function KeyName(t: Table): set<string> {
    if t.primaryKey.Some? then {t.primaryKey.value.name} else {}
  }

  function ParentName(t: Table): set<string> {
    if t.childOf.Some? then {t.childOf.value.parentTableField} else {}
  }

  /** The order in which a table's values are written: system columns, key, parent, then the other columns. */
  function ColumnOrder(d: Dialect, t: Table): seq<string> {
    LeadingColumns(d, t) + NamesWithout(t.columns, KeyName(t) + ParentName(t))
  }

  /** `computeColumnsForTable` and `computeCSVColumnOrder`: the order of the CSV file and of its metadata. */
  method ComputeColumns(d: Dialect, t: Table) returns (columns: seq<string>)
    ensures columns == ColumnOrder(d, t)
  {
    columns := [d.blockNumber, d.blockTimestamp];
    if d.useVersion {
      columns := columns + [VERSION];
    }
    if d.useDeleted {
      columns := columns + [DELETED];
    }
    if t.primaryKey.Some? {
      columns := columns + [t.primaryKey.value.name];
    }
    if t.childOf.Some? {
      columns := columns + [t.childOf.value.parentTableField];
    }
    ghost var leading, names, skipped := LeadingColumns(d, t), [], KeyName(t) + ParentName(t);
    assert columns == leading == leading + names;
    for i := 0 to |t.columns|
      invariant columns == leading + names && names == NamesWithout(t.columns[..i], skipped)
    {
      var c := t.columns[i];
      NamesOfNext(t.columns, i, skipped);
      if t.primaryKey.Some? && c.name == t.primaryKey.value.name {
        continue;
      }
      if t.childOf.Some? && c.name == t.childOf.value.parentTableField {
        continue;
      }
      Associative(leading, names, [c.name]);
      columns, names := columns + [c.name], names + [c.name];
    }
    assert t.columns[..|t.columns|] == t.columns;
  }

  /** The premises on names: none is empty or shared, and the parent's field is not a column of the child. */
  ghost predicate DistinctNames(d: Dialect, t: Table) {
    && (forall c :: c in t.columns ==> c.name != "")
    && (forall i, j :: 0 <= i < j < |t.columns| ==> t.columns[i].name != t.columns[j].name)
    && (forall i, j :: 0 <= i < j < |ColumnOrder(d, t)| ==> ColumnOrder(d, t)[i] != ColumnOrder(d, t)[j])
    && (t.childOf.Some? ==> forall c :: c in t.columns ==> c.name != t.childOf.value.parentTableField)
  }

  lemma {:induction false} SkipNothingMore(columns: seq<Column>, few: set<string>, many: set<string>)
    requires few <= many && forall c :: c in columns ==> c.name !in many - few
    ensures NamesWithout(columns, few) == NamesWithout(columns, many)
  {
    if columns != [] {
      assert columns[0] in columns;
      SkipNothingMore(columns[1..], few, many);
    }
  }

  /** The names of the columns that an insert statement leaves out. */
  ghost function Unwritten(columns: seq<Column>): set<string> {
    set c | c in columns && (c.isExtension || (c.isRepeated && c.isMessage)) :: c.name
  }

  /**
   `createInsertFromDescriptor`: the column list of the Postgres insert statement. It is the common order for a dialect
   without version columns when no column is an extension or a repeated message.
   */
  method CreateInsertColumns(d: Dialect, t: Table) returns (names: seq<string>)
    requires !d.useVersion && !d.useDeleted && d.blockNumber == BLOCK_NUMBER && d.blockTimestamp == BLOCK_TIMESTAMP
    requires DistinctNames(d, t)
    ensures names == LeadingColumns(d, t) + NamesWithout(t.columns, KeyName(t) + Unwritten(t.columns))
    ensures Unwritten(t.columns) == {} ==> names == ColumnOrder(d, t)
  {
    names := [BLOCK_NUMBER, BLOCK_TIMESTAMP];
    var returningField := "";
    if t.primaryKey.Some? {
      returningField := t.primaryKey.value.name;
      names := names + [t.primaryKey.value.name];
    }
    if t.childOf.Some? {
      names := names + [t.childOf.value.parentTableField];
    }
    assert names == LeadingColumns(d, t);
    ghost var skipped := KeyName(t) + Unwritten(t.columns);
    for i := 0 to |t.columns|
      invariant names == LeadingColumns(d, t) + NamesWithout(t.columns[..i], skipped)
    {
      var c := t.columns[i];
      NamesOfNext(t.columns, i, skipped);
      assert c in t.columns;
      UnwrittenIff(t.columns, i);
      if c.name == returningField {
        continue;
      }
      if c.isExtension || (c.isRepeated && c.isMessage) {
        continue;
      }
      names := names + [c.name];
    }
    assert t.columns[..|t.columns|] == t.columns;
    SkipNothingMore(t.columns, KeyName(t), KeyName(t) + ParentName(t));
    assert Unwritten(t.columns) == {} ==> skipped == KeyName(t);
  }

  lemma UnwrittenIff(columns: seq<Column>, i: nat)
    requires i < |columns| && forall i, j :: 0 <= i < j < |columns| ==> columns[i].name != columns[j].name
    ensures columns[i].name in Unwritten(columns) <==>
            columns[i].isExtension || (columns[i].isRepeated && columns[i].isMessage)
  {
    var c := columns[i];
    assert c in columns;
    if c.name in Unwritten(columns) {
      var other :| other in columns && other.name == c.name
                   && (other.isExtension || (other.isRepeated && other.isMessage));
      var j :| 0 <= j < |columns| && columns[j] == other;
    }
  }

  /** The map's keys are exactly the indices of the names, and each is mapped to its name. */
  ghost predicate Indexes(m: map<int, string>, names: seq<string>) {
    && |m| == |names|
    && (forall i :: i in m <==> 0 <= i < |names|)
    && forall i :: i in m ==> m[i] == names[i]
  }

  lemma IndexesGrow(m: map<int, string>, names: seq<string>, name: string)
    requires Indexes(m, names)
    ensures Indexes(m[|names| := name], names + [name])
  {
  }

  lemma SystemIndexes(d: Dialect)
    requires d.useVersion && d.useDeleted && d.blockNumber == BLOCK_NUMBER && d.blockTimestamp == BLOCK_TIMESTAMP
    ensures Indexes(map[0 := BLOCK_NUMBER, 1 := BLOCK_TIMESTAMP, 2 := VERSION, 3 := DELETED], SystemColumns(d))
  {
  }

  /** The columns before those of the fields; the parent's field is looked up among the parent's columns. */
  method LeadingAccumulatorColumns(d: Dialect, t: Table, parentColumns: seq<Column>)
    returns (r: Result<map<int, string>>)
    requires d.useVersion && d.useDeleted && d.blockNumber == BLOCK_NUMBER && d.blockTimestamp == BLOCK_TIMESTAMP
    ensures r.Err? <==> t.childOf.Some? && forall c :: c in parentColumns ==> c.name != t.childOf.value.parentTableField
    ensures r.Err? ==> r.error == UnknownColumn
    ensures r.Ok? ==> Indexes(r.value, LeadingColumns(d, t))
  {
    var columns: map<int, string> := map[0 := BLOCK_NUMBER, 1 := BLOCK_TIMESTAMP, 2 := VERSION, 3 := DELETED];
    SystemIndexes(d);
    ghost var names := SystemColumns(d);
    if t.primaryKey.Some? {
      IndexesGrow(columns, names, t.primaryKey.value.name);
      columns := columns[4 := t.primaryKey.value.name];
    }
    names := names + KeyColumn(t);
    assert Indexes(columns, names);
    if t.childOf.Some? {
      var offset := |columns|;
      var i := 0;
      while i < |parentColumns| && parentColumns[i].name != t.childOf.value.parentTableField
        invariant 0 <= i <= |parentColumns|
        invariant forall j :: 0 <= j < i ==> parentColumns[j].name != t.childOf.value.parentTableField
      {
        i := i + 1;
      }
      if i == |parentColumns| {
        return Err(UnknownColumn);
      }
      assert parentColumns[i] in parentColumns;
      IndexesGrow(columns, names, parentColumns[i].name);
      columns := columns[offset := parentColumns[i].name];
    }
    r := Ok(columns);
  }

  /** The columns of the fields beside the key, after those that are there. */
  method FieldAccumulatorColumns(d: Dialect, t: Table, found: map<int, string>) returns (columns: map<int, string>)
    requires DistinctNames(d, t) && Indexes(found, LeadingColumns(d, t))
    ensures Indexes(columns, LeadingColumns(d, t) + NamesWithout(t.columns, KeyName(t)))
  {
    columns := found;
    ghost var leading, names := LeadingColumns(d, t), [];
    var primaryName := if t.primaryKey.Some? then t.primaryKey.value.name else "";
    var offset, skipCount := |columns|, 0;
    assert leading + names == leading;
    for i := 0 to |t.columns|
      invariant Indexes(columns, leading + names)
      invariant names == NamesWithout(t.columns[..i], KeyName(t)) && |names| == i - skipCount
    {
      var c := t.columns[i];
      NamesOfNext(t.columns, i, KeyName(t));
      assert c in t.columns;
      if c.name == primaryName {
        skipCount := skipCount + 1;
        continue;
      }
      assert |leading + names| == i + offset - skipCount;
      IndexesGrow(columns, leading + names, c.name);
      Associative(leading, names, [c.name]);
      columns, names := columns[i + offset - skipCount := c.name], names + [c.name];
    }
    assert t.columns[..|t.columns|] == t.columns;
  }

  /**
   `createAccumulators`, for one table: the ClickHouse map from the index of a value to its column. Its keys are the
   indices 0 to n-1 and it is the common order.
   */
  method CreateAccumulatorColumns(d: Dialect, t: Table, parentColumns: seq<Column>)
    returns (r: Result<map<int, string>>)
    requires d.useVersion && d.useDeleted && d.blockNumber == BLOCK_NUMBER && d.blockTimestamp == BLOCK_TIMESTAMP
    requires DistinctNames(d, t)
    ensures r.Err? <==> t.childOf.Some? && forall c :: c in parentColumns ==> c.name != t.childOf.value.parentTableField
    ensures r.Err? ==> r.error == UnknownColumn
    ensures r.Ok? ==> Indexes(r.value, ColumnOrder(d, t))
  {
    var found := LeadingAccumulatorColumns(d, t, parentColumns);
    if found.Err? {
      return Err(found.error);
    }
    var columns := FieldAccumulatorColumns(d, t, found.value);
    SkipNothingMore(t.columns, KeyName(t), KeyName(t) + ParentName(t));
    r := Ok(columns);
  }
}
