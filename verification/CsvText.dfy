/**
 CSV rows as they are printed, value by value, and read back by the grammar of section 2 of RFC 4180 with line feeds at
 the row ends.
 */
module CsvText {
  import opened Prelude
  import opened RangeFiles

  // ----- one value -----

  predicate Special(c: char) {
    c == ',' || c == '"' || c == '\n' || c == '\r'
  }

  predicate NeedsQuotes(s: string) {
    exists c :: c in s && Special(c)
  }

  function DoubleQuotes(s: string): string {
    if s == "" then "" else (if s[0] == '"' then "\"\"" else [s[0]]) + DoubleQuotes(s[1..])
  }

  function EscapeValue(s: string): string {
    if NeedsQuotes(s) then "\"" + DoubleQuotes(s) + "\"" else s
  }

  /**
   A value of a row. `formatted` is the text of its own formatter (a date, a number, hex or base64), `sprint` what the
   generic formatter makes of it.
   */
  datatype Value =
    | NoValue
    | NilPointer
    | Str(text: string)
    | StrPointer(text: string, sprint: string)
    | Boolean(flag: bool)
    | Integer(number: int)
    | Floating(formatted: string)
    | Moment(formatted: string, sprint: string)
    | MomentPointer(formatted: string, sprint: string)
    | Binary(formatted: string, sprint: string)
    | Other(sprint: string)

  /** How a value is printed: as it is, or escaped where it needs to be. */
  datatype Printed = Raw(text: string) | Escaped(text: string)

  function Decimal(n: int): string {
    if n < 0 then "-" + Padded(-n, 1) else Padded(n, 1)
  }

  function FlagText(b: bool): string {
    if b then "true" else "false"
  }

  function Sprint(v: Value): string {
    match v
    case NoValue => "<nil>"
    case NilPointer => "<nil>"
    case Str(text) => text
    case Boolean(flag) => FlagText(flag)
    case Integer(n) => Decimal(n)
    case Floating(formatted) => formatted
    case StrPointer(_, s) => s
    case Moment(_, s) => s
    case MomentPointer(_, s) => s
    case Binary(_, s) => s
    case Other(s) => s
  }

  predicate NumberColumn(column: string) {
    column == "_block_number_" || column == "block_number" || column == "_version_"
  }

  predicate EndsWithId(column: string) {
    |column| >= 3 && column[|column| - 3..] == "_id"
  }

  /** `formatValue`: the column's name decides first, then whether the table has the column, then the value's type. */
  function FormatValue(column: string, known: bool, v: Value): Printed {
    if v.NoValue? then Raw("")
    else if NumberColumn(column) then Raw(Sprint(v))
    else if (column == "_block_timestamp_" || column == "block_timestamp") && v.Moment? then Raw(v.formatted)
    else if column == "_deleted_" && v.Boolean? then Raw(FlagText(v.flag))
    else if EndsWithId(column) || !known then Escaped(Sprint(v))
    else match v
      case NilPointer => Raw("")
      case Str(text) => Escaped(text)
      case StrPointer(text, _) => Escaped(text)
      case Boolean(flag) => Raw(FlagText(flag))
      case Integer(n) => Raw(Decimal(n))
      case Floating(formatted) => Raw(formatted)
      case Moment(formatted, _) => Raw(formatted)
      case MomentPointer(formatted, _) => Raw(formatted)
      case Binary(formatted, _) => Raw(formatted)
      case Other(s) => Escaped(s)
  }

  /** Dates, numbers, hex and base64 have no character that would need quotes. */
  predicate WellFormatted(v: Value) {
    v.Floating? || v.Moment? || v.MomentPointer? || v.Binary? ==> !NeedsQuotes(v.formatted)
  }

  lemma DecimalIsPlain(n: int)
    ensures !NeedsQuotes(Decimal(n))
  {
    PaddedIsRead(if n < 0 then -n else n, 1);
    var digits := Padded(if n < 0 then -n else n, 1);
    assert forall c :: c in digits ==> IsDigit(c);
    assert forall c :: c in Decimal(n) ==> c == '-' || c in digits;
  }

  /** A cell whose text is not what stands between the commas: printed as it is although it needs quotes. */
  predicate Broken(c: Printed) {
    c.Raw? && NeedsQuotes(c.text)
  }

  /** Only in the columns of block numbers and versions, and only with a value that is no number, can a cell break. */
  lemma BrokenIff(column: string, known: bool, v: Value)
    requires WellFormatted(v)
    ensures Broken(FormatValue(column, known, v)) <==>
            NumberColumn(column) && !v.NoValue? && !v.Integer? && NeedsQuotes(Sprint(v))
  {
    if v.Integer? {
      DecimalIsPlain(v.number);
    }
  }

  // ----- rows -----

  function CellText(c: Printed): string {
    if c.Raw? then c.text else EscapeValue(c.text)
  }

  function Fields(cells: seq<Printed>): string {
    if cells == [] then ""
    else if |cells| == 1 then CellText(cells[0])
    else CellText(cells[0]) + "," + Fields(cells[1..])
  }

  function PrintRow(cells: seq<Printed>): string {
    Fields(cells) + "\n"
  }

  function Print(rows: seq<seq<Printed>>): string {
    if rows == [] then "" else PrintRow(rows[0]) + Print(rows[1..])
  }

  function Texts(cells: seq<Printed>): seq<string> {
    if cells == [] then [] else [cells[0].text] + Texts(cells[1..])
  }

  function AllTexts(rows: seq<seq<Printed>>): seq<seq<string>> {
    if rows == [] then [] else [Texts(rows[0])] + AllTexts(rows[1..])
  }

  /** The columns of a table's file, and which of them are columns of the table itself. */
  datatype Columns = Columns(names: seq<string>, known: set<string>)

  /** The cells of a row; a row that is too short has no value in its last columns. */
  function CellsOf(columns: Columns, row: seq<Value>): (cells: seq<Printed>)
    ensures |cells| == |columns.names|
    ensures forall i :: 0 <= i < |cells| ==>
              cells[i] == FormatValue(columns.names[i], columns.names[i] in columns.known,
                                      if i < |row| then row[i] else NoValue)
  {
    seq(|columns.names|, i requires 0 <= i < |columns.names| =>
          FormatValue(columns.names[i], columns.names[i] in columns.known, if i < |row| then row[i] else NoValue))
  }

  function StreamOf(columns: Columns, rows: seq<seq<Value>>): (stream: seq<seq<Printed>>)
    ensures |stream| == |rows| && forall i :: 0 <= i < |rows| ==> stream[i] == CellsOf(columns, rows[i])
  {
    seq(|rows|, i requires 0 <= i < |rows| => CellsOf(columns, rows[i]))
  }

  lemma {:induction false} FieldsNext(cells: seq<Printed>, cell: Printed)
    requires cells != []
    ensures Fields(cells + [cell]) == Fields(cells) + "," + CellText(cell)
  {
    assert (cells + [cell])[0] == cells[0] && (cells + [cell])[1..] == cells[1..] + [cell];
    if |cells| == 1 {
      assert cells[1..] + [cell] == [cell];
    } else {
      FieldsNext(cells[1..], cell);
      Associative(CellText(cells[0]) + ",", Fields(cells[1..]), "," + CellText(cell));
      Associative(CellText(cells[0]) + "," + Fields(cells[1..]), ",", CellText(cell));
      Associative(Fields(cells[1..]), ",", CellText(cell));
    }
  }

  lemma FieldsUpTo(cells: seq<Printed>, i: nat)
    requires i < |cells|
    ensures Fields(cells[..i + 1]) == (if i == 0 then "" else Fields(cells[..i]) + ",") + CellText(cells[i])
  {
    assert cells[..i + 1] == cells[..i] + [cells[i]];
    if i > 0 {
      FieldsNext(cells[..i], cells[i]);
    } else {
      assert cells[..1] == [cells[0]] && "" + CellText(cells[0]) == CellText(cells[0]);
    }
  }

  /** `formatRowForCSV`. */
  method FormatRow(columns: Columns, row: seq<Value>) returns (line: string)
    ensures line == PrintRow(CellsOf(columns, row))
  {
    ghost var cells := CellsOf(columns, row);
    if columns.names == [] {
      return "\n";
    }
    line := "";
    for i := 0 to |columns.names|
      invariant line == Fields(cells[..i])
    {
      FieldsUpTo(cells, i);
      if i > 0 {
        line := line + ",";
      }
      var cell := if i < |row| then row[i] else NoValue;
      line := line + CellText(FormatValue(columns.names[i], columns.names[i] in columns.known, cell));
    }
    assert cells[..|columns.names|] == cells;
    line := line + "\n";
  }

  // ----- the reader -----

  datatype Mode = FieldStart | Plain | Quoted | QuoteSeen

  datatype Reader = Reader(mode: Mode, field: string, record: seq<string>, records: seq<seq<string>>) | Malformed

  function EndField(r: Reader): Reader
    requires r.Reader?
  {
    Reader(FieldStart, "", r.record + [r.field], r.records)
  }

  function EndRecord(r: Reader): Reader
    requires r.Reader?
  {
    Reader(FieldStart, "", [], r.records + [r.record + [r.field]])
  }

  function ReadChar(r: Reader, c: char): Reader {
    if r.Malformed? then r
    else match r.mode
      case Quoted => if c == '"' then r.(mode := QuoteSeen) else r.(field := r.field + [c])
      case QuoteSeen =>
        if c == '"' then r.(mode := Quoted, field := r.field + [c])
        else if c == ',' then EndField(r)
        else if c == '\n' then EndRecord(r)
        else Malformed
      case _ =>
        if c == ',' then EndField(r)
        else if c == '\n' then EndRecord(r)
        else if c == '"' then (if r.mode == FieldStart then r.(mode := Quoted) else Malformed)
        else if c == '\r' then Malformed
        else r.(mode := Plain, field := r.field + [c])
  }

  function ReadOn(r: Reader, text: string): Reader
    decreases |text|
  {
    if text == "" then r else ReadOn(ReadChar(r, text[0]), text[1..])
  }

  /** A text that ends with a row's end stands for its rows; any other stands for none. */
  function Read(text: string): Reader {
    var r := ReadOn(Reader(FieldStart, "", [], []), text);
    if r.Reader? && r.mode == FieldStart && r.record == [] then r else Malformed
  }

  lemma {:induction false} ReadAppend(r: Reader, a: string, b: string)
    ensures ReadOn(r, a + b) == ReadOn(ReadOn(r, a), b)
    decreases |a|
  {
    if a == "" {
      assert a + b == b;
    } else {
      assert (a + b)[0] == a[0] && (a + b)[1..] == a[1..] + b;
      ReadAppend(ReadChar(r, a[0]), a[1..], b);
    }
  }

  lemma ReadOne(r: Reader, c: char)
    ensures ReadOn(r, [c]) == ReadChar(r, c)
  {
    assert [c][1..] == "";
  }

  lemma {:induction false} PlainIsRead(r: Reader, s: string)
    requires r.Reader? && (r.mode == FieldStart || r.mode == Plain) && !NeedsQuotes(s)
    ensures ReadOn(r, s) == if s == "" then r else r.(mode := Plain, field := r.field + s)
    decreases |s|
  {
    if s != "" {
      assert s[0] in s && forall c :: c in s[1..] ==> c in s;
      PlainIsRead(ReadChar(r, s[0]), s[1..]);
      assert r.field + [s[0]] + s[1..] == r.field + s;
      assert s[1..] == "" ==> r.field + [s[0]] == r.field + s;
    }
  }

  lemma QuotedCharIsRead(r: Reader, c: char)
    requires r.Reader? && r.mode == Quoted
    ensures ReadOn(r, if c == '"' then "\"\"" else [c]) == r.(field := r.field + [c])
  {
    if c == '"' {
      ReadAppend(r, "\"", "\"");
      assert "\"\"" == "\"" + "\"";
      ReadOne(r, '"');
      ReadOne(ReadChar(r, '"'), '"');
    } else {
      ReadOne(r, c);
    }
  }

  lemma {:induction false} QuotedIsRead(r: Reader, s: string)
    requires r.Reader? && r.mode == Quoted
    ensures ReadOn(r, DoubleQuotes(s)) == r.(field := r.field + s)
    decreases |s|
  {
    if s == "" {
      assert r.field + s == r.field;
    } else {
      var first := if s[0] == '"' then "\"\"" else [s[0]];
      QuotedCharIsRead(r, s[0]);
      ReadAppend(r, first, DoubleQuotes(s[1..]));
      QuotedIsRead(r.(field := r.field + [s[0]]), s[1..]);
      Associative(r.field, [s[0]], s[1..]);
      assert [s[0]] + s[1..] == s;
    }
  }

  /** A cell that is not broken is read as its text, whatever characters are in it. */
  lemma {:induction false} CellIsRead(record: seq<string>, records: seq<seq<string>>, c: Printed)
    requires !Broken(c)
    ensures var r := ReadOn(Reader(FieldStart, "", record, records), CellText(c));
            r.Reader? && r.mode != Quoted && r.(mode := FieldStart) == Reader(FieldStart, c.text, record, records)
  {
    var r, s := Reader(FieldStart, "", record, records), c.text;
    assert "" + s == s;
    if NeedsQuotes(s) {
      var open := r.(mode := Quoted);
      ReadAppend(r, "\"" + DoubleQuotes(s), "\"");
      ReadAppend(r, "\"", DoubleQuotes(s));
      ReadOne(r, '"');
      QuotedIsRead(open, s);
      ReadOne(open.(field := s), '"');
    } else {
      PlainIsRead(r, s);
    }
  }

  lemma FieldIsRead(record: seq<string>, records: seq<seq<string>>, c: Printed, rest: string)
    requires !Broken(c)
    ensures ReadOn(Reader(FieldStart, "", record, records), CellText(c) + ("," + rest)) ==
            ReadOn(Reader(FieldStart, "", record + [c.text], records), rest)
  {
    var r := Reader(FieldStart, "", record, records);
    CellIsRead(record, records, c);
    var one := ReadOn(r, CellText(c));
    ReadAppend(r, CellText(c), "," + rest);
    ReadAppend(one, ",", rest);
    ReadOne(one, ',');
  }

  lemma LastFieldIsRead(record: seq<string>, records: seq<seq<string>>, c: Printed, rest: string)
    requires !Broken(c)
    ensures ReadOn(Reader(FieldStart, "", record, records), CellText(c) + ("\n" + rest)) ==
            ReadOn(Reader(FieldStart, "", [], records + [record + [c.text]]), rest)
  {
    var r := Reader(FieldStart, "", record, records);
    CellIsRead(record, records, c);
    var one := ReadOn(r, CellText(c));
    ReadAppend(r, CellText(c), "\n" + rest);
    ReadAppend(one, "\n", rest);
    ReadOne(one, '\n');
  }

  /** A row's text, cut after its first cell. */
  lemma RowText(cells: seq<Printed>, rest: string)
    requires cells != []
    ensures PrintRow(cells) + rest ==
            CellText(cells[0]) + if |cells| == 1 then "\n" + rest else "," + (PrintRow(cells[1..]) + rest)
  {
    if |cells| == 1 {
      Associative(CellText(cells[0]), "\n", rest);
    } else {
      var first, others := CellText(cells[0]), Fields(cells[1..]);
      Associative(first + ",", others, "\n");
      Associative(first + ",", others + "\n", rest);
      Associative(first, ",", others + "\n" + rest);
    }
  }

  lemma {:induction false} RowIsRead(record: seq<string>, records: seq<seq<string>>, cells: seq<Printed>, rest: string)
    requires cells != [] && forall c :: c in cells ==> !Broken(c)
    ensures ReadOn(Reader(FieldStart, "", record, records), PrintRow(cells) + rest) ==
            ReadOn(Reader(FieldStart, "", [], records + [record + Texts(cells)]), rest)
    decreases |cells|
  {
    RowText(cells, rest);
    assert cells[0] in cells;
    if |cells| == 1 {
      LastFieldIsRead(record, records, cells[0], rest);
      assert Texts(cells) == [cells[0].text];
    } else {
      assert forall c :: c in cells[1..] ==> c in cells;
      FieldIsRead(record, records, cells[0], PrintRow(cells[1..]) + rest);
      RowIsRead(record + [cells[0].text], records, cells[1..], rest);
      Associative(record, [cells[0].text], Texts(cells[1..]));
    }
  }

  // ----- what cannot be read back -----

  /** Whatever is read from here on, the field at this place will not be `s`. */
  ghost predicate Missed(r: Reader, row: nat, place: nat, s: string) {
    r.Reader? ==>
      || (|r.records| > row && (|r.records[row]| <= place || r.records[row][place] != s))
      || (|r.records| == row && |r.record| > place && r.record[place] != s)
      || (|r.records| == row && |r.record| == place && !(r.field <= s))
  }

  lemma MissedAtOnce(r: Reader, row: nat, place: nat, s: string, c: char)
    requires Missed(r, row, place, s)
    ensures Missed(ReadChar(r, c), row, place, s)
  {
  }

  lemma {:induction false} MissedStays(r: Reader, row: nat, place: nat, s: string, text: string)
    requires Missed(r, row, place, s)
    ensures Missed(ReadOn(r, text), row, place, s)
    decreases |text|
  {
    if text != "" {
      MissedAtOnce(r, row, place, s, text[0]);
      MissedStays(ReadChar(r, text[0]), row, place, s, text[1..]);
    }
  }

  lemma MissedIsWrong(r: Reader, row: nat, place: nat, s: string, expected: seq<seq<string>>)
    requires Missed(r, row, place, s)
    requires row < |expected| && place < |expected[row]| && expected[row][place] == s
    ensures r != Reader(FieldStart, "", [], expected)
  {
  }

  predicate LeadingQuotes(s: string, n: nat) {
    n <= |s| && forall i :: 0 <= i < n ==> s[i] == '"'
  }

  /**
   Inside quotes that the text itself opened: `2m + 1` of its leading quotes were read and gave `m`. A pair of quotes
   more gives one more, and anything else goes wrong.
   */
  lemma {:induction false} OwnQuoteMisses(
    record: seq<string>, records: seq<seq<string>>, s: string, m: nat, end: char, rest: string)
    requires LeadingQuotes(s, 2 * m + 1) && (end == ',' || end == '\n')
    ensures Missed(ReadOn(Reader(Quoted, s[..m], record, records), s[2 * m + 1..] + ([end] + rest)),
                   |records|, |record|, s)
    decreases |s| - m
  {
    var at, text := Reader(Quoted, s[..m], record, records), s[2 * m + 1..] + ([end] + rest);
    var row, place := |records|, |record|;
    var next := ReadChar(at, text[0]);
    if text[0] != '"' {
      assert s[..m] + [text[0]] == next.field && next.field[m] != s[m];
      MissedStays(next, row, place, s, text[1..]);
    } else {
      assert 2 * m + 1 < |s| && s[2 * m + 1] == '"';
      assert text[1..] == s[2 * m + 2..] + ([end] + rest);
      var after, others := ReadChar(next, text[1..][0]), text[1..][1..];
      if 2 * m + 2 < |s| && s[2 * m + 2] == '"' {
        assert s[..m] + ['"'] == s[..m + 1];
        assert others == s[2 * m + 3..] + ([end] + rest);
        OwnQuoteMisses(record, records, s, m + 1, end, rest);
      } else {
        assert |s[..m]| < |s|;
        MissedStays(after, row, place, s, others);
      }
    }
  }

  /** Up to its first special character a raw text is read as it stands. */
  lemma PlainPrefix(r: Reader, s: string, p: nat, after: string)
    requires p <= |s| && !NeedsQuotes(s[..p]) && r.Reader? && r.mode.FieldStart? && r.field == ""
    ensures ReadOn(r, s + after) == ReadOn(ReadOn(r, s[..p]), s[p..] + after)
    ensures ReadOn(r, s[..p]) == if p == 0 then r else r.(mode := Plain, field := s[..p])
  {
    assert s == s[..p] + s[p..];
    Associative(s[..p], s[p..], after);
    ReadAppend(r, s[..p], s[p..] + after);
    PlainIsRead(r, s[..p]);
    assert "" + s[..p] == s[..p];
  }

  lemma {:induction false} RawMisses(
    record: seq<string>, records: seq<seq<string>>, s: string, p: nat, end: char, rest: string)
    requires p < |s| && Special(s[p]) && !NeedsQuotes(s[..p]) && (end == ',' || end == '\n')
    ensures Missed(ReadOn(Reader(FieldStart, "", record, records), s + ([end] + rest)), |records|, |record|, s)
  {
    var r := Reader(FieldStart, "", record, records);
    PlainPrefix(r, s, p, [end] + rest);
    if p == 0 && s[0] == '"' {
      assert ReadChar(r, s[0]) == Reader(Quoted, s[..0], record, records);
      assert (s + ([end] + rest))[1..] == s[1..] + ([end] + rest);
      OwnQuoteMisses(record, records, s, 0, end, rest);
    } else {
      var tail := s[p..] + ([end] + rest);
      assert tail[0] == s[p] && |s[..p]| < |s|;
      MissedStays(ReadChar(ReadOn(r, s[..p]), s[p]), |records|, |record|, s, tail[1..]);
    }
  }

  lemma FirstSpecial(s: string) returns (p: nat)
    requires NeedsQuotes(s)
    ensures p < |s| && Special(s[p]) && !NeedsQuotes(s[..p])
  {
    p := 0;
    while !Special(s[p])
      invariant p < |s| && !NeedsQuotes(s[..p])
      invariant exists i :: p <= i < |s| && Special(s[i])
      decreases |s| - p
    {
      assert s[..p + 1] == s[..p] + [s[p]];
      p := p + 1;
    }
  }

  lemma TextAt(cells: seq<Printed>, i: nat)
    requires i < |cells|
    ensures |Texts(cells)| == |cells| && Texts(cells)[i] == cells[i].text
  {
    if |cells| > 1 {
      TextAt(cells[1..], if i == 0 then 0 else i - 1);
    }
  }

  /** A row with a broken cell, and all that follows, is not read as that row. */
  lemma {:induction false} BrokenRowMisses(
    record: seq<string>, records: seq<seq<string>>, cells: seq<Printed>, rest: string)
    returns (place: nat, s: string)
    requires exists c :: c in cells && Broken(c)
    ensures |Texts(cells)| == |cells| && |record| <= place < |record| + |cells|
    ensures (record + Texts(cells))[place] == s
    ensures Missed(ReadOn(Reader(FieldStart, "", record, records), PrintRow(cells) + rest), |records|, place, s)
    decreases |cells|
  {
    RowText(cells, rest);
    TextAt(cells, 0);
    if Broken(cells[0]) {
      var p := FirstSpecial(cells[0].text);
      if |cells| == 1 {
        RawMisses(record, records, cells[0].text, p, '\n', rest);
      } else {
        RawMisses(record, records, cells[0].text, p, ',', PrintRow(cells[1..]) + rest);
      }
      place, s := |record|, cells[0].text;
    } else {
      FieldIsRead(record, records, cells[0], PrintRow(cells[1..]) + rest);
      place, s := BrokenRowMisses(record + [cells[0].text], records, cells[1..], rest);
      Associative(record, [cells[0].text], Texts(cells[1..]));
    }
  }

  /** A row without cells prints as an empty line, which is read as a row of one empty field. */
  lemma EmptyRowMisses(records: seq<seq<string>>, rest: string)
    ensures var r := ReadOn(Reader(FieldStart, "", [], records), PrintRow([]) + rest);
            r.Reader? ==> |r.records| > |records| && r.records[|records|] == [""]
  {
    var r := Reader(FieldStart, "", [], records);
    assert PrintRow([]) == "\n";
    ReadAppend(r, "\n", rest);
    ReadOne(r, '\n');
    RecordsGrow(EndRecord(r), rest);
  }

  lemma {:induction false} RecordsGrow(r: Reader, text: string)
    ensures r.Reader? && ReadOn(r, text).Reader? ==> r.records <= ReadOn(r, text).records
    ensures r.Malformed? ==> ReadOn(r, text).Malformed?
    decreases |text|
  {
    if text != "" {
      RecordsGrow(ReadChar(r, text[0]), text[1..]);
    }
  }

  ghost predicate Readable(cells: seq<Printed>) {
    cells != [] && forall c :: c in cells ==> !Broken(c)
  }

  lemma {:induction false} ReadRows(records: seq<seq<string>>, rows: seq<seq<Printed>>)
    ensures ReadOn(Reader(FieldStart, "", [], records), Print(rows)) ==
            Reader(FieldStart, "", [], records + AllTexts(rows)) <==>
            forall row :: row in rows ==> Readable(row)
    decreases |rows|
  {
    if rows == [] {
      assert records + AllTexts(rows) == records;
    } else {
      var first, rest := rows[0], rows[1..];
      assert rows == [first] + rest;
      assert forall row :: row in rows <==> row == first || row in rest;
      assert (records + AllTexts(rows))[|records|] == Texts(first);
      if first == [] {
        EmptyRowMisses(records, Print(rest));
        assert first in rows && !Readable(first) && Texts(first) == [];
      } else if c :| c in first && Broken(c) {
        var place, s := BrokenRowMisses([], records, first, Print(rest));
        assert [] + Texts(first) == Texts(first);
        MissedIsWrong(ReadOn(Reader(FieldStart, "", [], records), Print(rows)), |records|, place, s,
                      records + AllTexts(rows));
        assert first in rows && !Readable(first);
      } else {
        RowIsRead([], records, first, Print(rest));
        assert [] + Texts(first) == Texts(first);
        ReadRows(records + [Texts(first)], rest);
        Associative(records, [Texts(first)], AllTexts(rest));
      }
    }
  }

  /** The printed stream comes back as the same texts exactly when every row has cells and none of them is broken. */
  lemma {:induction false} RoundTripIff(rows: seq<seq<Printed>>)
    ensures Read(Print(rows)) == Reader(FieldStart, "", [], AllTexts(rows)) <==>
            forall row :: row in rows ==> Readable(row)
  {
    ReadRows([], rows);
    assert [] + AllTexts(rows) == AllTexts(rows);
  }

  /** A value that is no number in a column of numbers, with a text that needs quotes. */
  predicate SpecialNumber(column: string, v: Value) {
    NumberColumn(column) && !v.NoValue? && !v.Integer? && NeedsQuotes(Sprint(v))
  }

  predicate HasSpecial(columns: Columns, row: seq<Value>) {
    exists i :: 0 <= i < |row| && i < |columns.names| && SpecialNumber(columns.names[i], row[i])
  }

  predicate AllFormatted(row: seq<Value>) {
    forall i :: 0 <= i < |row| ==> WellFormatted(row[i])
  }

  /** In terms of values: all texts come back exactly when no column printed as it is holds one that needs quotes. */
  lemma {:induction false} ValuesComeBackIff(columns: Columns, rows: seq<seq<Value>>)
    requires columns.names != [] && forall row :: row in rows ==> AllFormatted(row)
    ensures Read(Print(StreamOf(columns, rows))) == Reader(FieldStart, "", [], AllTexts(StreamOf(columns, rows))) <==>
            forall row :: row in rows ==> !HasSpecial(columns, row)
  {
    RoundTripIff(StreamOf(columns, rows));
    StreamReadableIff(columns, rows);
  }

  // ----- the texts, told from the values -----

  /** A decimal number without needless zeros. */
  predicate IsDecimal(s: string, n: nat) {
    s != "" && AllDigits(s) && ValueOf(s) == n && (|s| > 1 ==> s[0] != '0')
  }

  /** Columns whose values are printed as the generic formatter prints them. */
  predicate Generic(column: string, known: bool) {
    column in {"_block_number_", "block_number", "_version_"} || !known
    || (|column| >= 3 && column[|column| - 3..] == "_id")
  }

  /** The text of a value in a column. */
  predicate TextOf(column: string, known: bool, v: Value, s: string) {
    match v
    case NoValue => s == ""
    case NilPointer => s == if Generic(column, known) then "<nil>" else ""
    case Str(text) => s == text
    case StrPointer(text, sprint) => s == if Generic(column, known) then sprint else text
    case Boolean(flag) => s == if flag then "true" else "false"
    case Integer(n) => if n < 0 then s != "" && s[0] == '-' && IsDecimal(s[1..], -n) else IsDecimal(s, n)
    case Floating(formatted) => s == formatted
    case Moment(formatted, sprint) =>
      s == if Generic(column, known) && column !in {"_block_timestamp_", "block_timestamp"} then sprint else formatted
    case MomentPointer(formatted, sprint) => s == if Generic(column, known) then sprint else formatted
    case Binary(formatted, sprint) => s == if Generic(column, known) then sprint else formatted
    case Other(sprint) => s == sprint
  }

  lemma {:induction false} NoNeedlessZeros(n: nat)
    ensures n > 0 ==> Padded(n, 0) != "" && Padded(n, 0)[0] != '0'
  {
    if n >= 10 {
      NoNeedlessZeros(n / 10);
    }
  }

  lemma DecimalIsDecimal(n: nat)
    ensures IsDecimal(Padded(n, 1), n)
  {
    PaddedIsRead(n, 1);
    NoNeedlessZeros(n / 10);
  }

  lemma FormatTells(column: string, known: bool, v: Value)
    ensures TextOf(column, known, v, FormatValue(column, known, v).text)
  {
    if v.Integer? {
      DecimalIsDecimal(if v.number < 0 then -v.number else v.number);
    }
  }

  lemma {:induction false} AllTextsAt(rows: seq<seq<Printed>>, i: nat)
    requires i < |rows|
    ensures |AllTexts(rows)| == |rows| && AllTexts(rows)[i] == Texts(rows[i])
  {
    if |rows| > 1 {
      AllTextsAt(rows[1..], if i == 0 then 0 else i - 1);
    }
  }

  /** A record with the text of each value of a row; a row that is too short has no value in its last columns. */
  predicate Records(columns: Columns, row: seq<Value>, record: seq<string>) {
    && |record| == |columns.names|
    && forall j :: 0 <= j < |record| ==>
         TextOf(columns.names[j], columns.names[j] in columns.known, if j < |row| then row[j] else NoValue, record[j])
  }

  lemma {:induction false} RowTells(columns: Columns, row: seq<Value>)
    ensures Records(columns, row, Texts(CellsOf(columns, row)))
  {
    var cells := CellsOf(columns, row);
    if cells != [] {
      TextAt(cells, 0);
    }
    forall j | 0 <= j < |cells|
      ensures TextOf(columns.names[j], columns.names[j] in columns.known, if j < |row| then row[j] else NoValue,
                     Texts(cells)[j])
    {
      TextAt(cells, j);
      FormatTells(columns.names[j], columns.names[j] in columns.known, if j < |row| then row[j] else NoValue);
    }
  }

  /** Where no cell is broken, what is read at a row and column is the text of the value that was there. */
  lemma {:induction false} ValuesAreRead(columns: Columns, rows: seq<seq<Value>>)
    requires columns.names != [] && forall row :: row in rows ==> AllFormatted(row) && !HasSpecial(columns, row)
    ensures var r := Read(Print(StreamOf(columns, rows)));
            && r.Reader? && |r.records| == |rows|
            && forall i :: 0 <= i < |rows| ==> Records(columns, rows[i], r.records[i])
  {
    var stream := StreamOf(columns, rows);
    ValuesComeBackIff(columns, rows);
    if rows != [] {
      AllTextsAt(stream, 0);
    }
    forall i | 0 <= i < |rows| ensures Records(columns, rows[i], AllTexts(stream)[i]) {
      AllTextsAt(stream, i);
      RowTells(columns, rows[i]);
    }
  }

  lemma StreamReadableIff(columns: Columns, rows: seq<seq<Value>>)
    requires columns.names != [] && forall row :: row in rows ==> AllFormatted(row)
    ensures (forall cells :: cells in StreamOf(columns, rows) ==> Readable(cells)) <==>
            (forall row :: row in rows ==> !HasSpecial(columns, row))
  {
    var stream := StreamOf(columns, rows);
    forall j | 0 <= j < |rows| ensures Readable(stream[j]) <==> !HasSpecial(columns, rows[j]) {
      assert rows[j] in rows;
      RowReadableIff(columns, rows[j]);
    }
    forall row | row in rows ensures exists j :: 0 <= j < |stream| && stream[j] in stream && rows[j] == row {
      var j :| 0 <= j < |rows| && rows[j] == row;
      assert stream[j] in stream;
    }
    forall cells | cells in stream ensures exists j :: 0 <= j < |rows| && rows[j] in rows && stream[j] == cells {
      var j :| 0 <= j < |stream| && stream[j] == cells;
      assert rows[j] in rows;
    }
  }

  lemma RowReadableIff(columns: Columns, row: seq<Value>)
    requires columns.names != [] && AllFormatted(row)
    ensures Readable(CellsOf(columns, row)) <==> !HasSpecial(columns, row)
  {
    var cells := CellsOf(columns, row);
    forall i | 0 <= i < |cells|
      ensures Broken(cells[i]) <==> i < |row| && SpecialNumber(columns.names[i], row[i])
    {
      BrokenIff(columns.names[i], columns.names[i] in columns.known, if i < |row| then row[i] else NoValue);
    }
    if c :| c in cells && Broken(c) {
      var i :| 0 <= i < |cells| && cells[i] == c;
      assert SpecialNumber(columns.names[i], row[i]);
    } else {
      forall i | 0 <= i < |row| && i < |columns.names| ensures !SpecialNumber(columns.names[i], row[i]) {
        assert cells[i] in cells;
      }
    }
  }

  lemma OneRowPrints(cells: seq<Printed>)
    ensures Print([cells]) == PrintRow(cells) && AllTexts([cells]) == [Texts(cells)]
  {
    var rows: seq<seq<Printed>> := [cells];
    assert rows[1..] == [] && PrintRow(cells) + "" == PrintRow(cells);
  }

  lemma TwoFields(a: string, b: string)
    ensures PrintRow([Raw(a), Raw(b)]) == a + "," + b + "\n" && Texts([Raw(a), Raw(b)]) == [a, b]
  {
    var cells, last := [Raw(a), Raw(b)], [Raw(b)];
    assert cells[1..] == last && last[1..] == [];
    assert Fields(cells) == CellText(cells[0]) + "," + Fields(last);
    assert Texts(cells) == [a] + Texts(last);
  }

  /** A text field that is named like the block number prints one value as two fields. */
  lemma BlockNumberTextSplits()
    ensures var row := CellsOf(Columns(["block_number"], {"block_number"}), [Str("1,2")]);
            && Texts(row) == ["1,2"]
            && Read(Print([row])) == Reader(FieldStart, "", [], [["1", "2"]])
  {
    var row := CellsOf(Columns(["block_number"], {"block_number"}), [Str("1,2")]);
    var cells := [Raw("1"), Raw("2")];
    assert row == [Raw("1,2")];
    OneRowPrints(row);
    OneRowPrints(cells);
    TwoFields("1", "2");
    assert "1" + "," + "2" + "\n" == "1,2" + "\n";
    RoundTripIff([cells]);
  }
}
