/** The printer that gives each column of a CREATE TABLE statement a line of its own. */
module TableLayout {
  import opened Prelude

  /** Where a scan stands: inside how many parentheses, and inside quotes or not. */
  datatype Scan = Scan(depth: nat, quoted: bool) | Stopped

  const TOP := Scan(0, false)

  /** One character of a scan that stops at a comma or a closing parenthesis outside of all parentheses and quotes. */
  function Step(at: Scan, c: char): Scan {
    if at.Scan? && !at.quoted && at.depth == 0 && c == ',' then Stopped else StepToClose(at, c)
  }

  /** The same for a scan that passes commas. */
  function StepToClose(at: Scan, c: char): Scan {
    if at.Stopped? then Stopped
    else if c == '"' then at.(quoted := !at.quoted)
    else if at.quoted then at
    else if c == '(' then at.(depth := at.depth + 1)
    else if c == ')' then (if at.depth == 0 then Stopped else at.(depth := at.depth - 1))
    else at
  }

  function Run(at: Scan, s: string): Scan
    decreases |s|
  {
    if s == "" then at else Run(Step(at, s[0]), s[1..])
  }

  function RunToClose(at: Scan, s: string): Scan
    decreases |s|
  {
    if s == "" then at else RunToClose(StepToClose(at, s[0]), s[1..])
  }

  /** A text that stands on its own between commas. */
  predicate Piece(s: string) {
    Run(TOP, s) == TOP
  }

  function IndexOfOpen(s: string): Option<nat> {
    if s == "" then None
    else if s[0] == '(' then Some(0)
    else
      var later := IndexOfOpen(s[1..]);
      if later.None? then None else Some(later.value + 1)
  }

  /** The closing parenthesis of the column list. */
  function IndexOfClose(at: Scan, s: string): (r: Option<nat>)
    requires at.Scan?
    ensures r.Some? ==> r.value < |s|
    decreases |s|
  {
    if s == "" then None
    else if StepToClose(at, s[0]).Stopped? then Some(0)
    else
      var later := IndexOfClose(StepToClose(at, s[0]), s[1..]);
      if later.None? then None else Some(later.value + 1)
  }

  /** The texts between the commas outside of parentheses and quotes. */
  function Pieces(at: Scan, s: string, current: string): seq<string>
    requires at.Scan?
    decreases |s|
  {
    if s == "" then [current]
    else if at == TOP && s[0] == ',' then [current] + Pieces(at, s[1..], "")
    else if at.depth == 0 && !at.quoted && s[0] == ')' then Pieces(at, s[1..], current + [s[0]])
    else Pieces(StepToClose(at, s[0]), s[1..], current + [s[0]])
  }

  // ----- trimming -----

  /** The characters of Unicode's White_Space property. */
  predicate IsSpace(c: char) {
    var n := c as int;
    9 <= n <= 13 || n == 32 || n == 0x85 || n == 0xA0 || n == 0x1680 || 0x2000 <= n <= 0x200A
    || n == 0x2028 || n == 0x2029 || n == 0x202F || n == 0x205F || n == 0x3000
  }

  lemma SpacesListed(c: char)
    ensures IsSpace(c) <==>
            c as int in {9, 10, 11, 12, 13, 32, 133, 160, 5760, 8192, 8193, 8194, 8195, 8196, 8197, 8198, 8199, 8200,
                         8201, 8202, 8232, 8233, 8239, 8287, 12288}
  {
  }

  function TrimLeft(s: string): string {
    if s != "" && IsSpace(s[0]) then TrimLeft(s[1..]) else s
  }

  function TrimRight(s: string): string {
    if s != "" && IsSpace(s[|s| - 1]) then TrimRight(s[..|s| - 1]) else s
  }

  function Trim(s: string): string {
    TrimRight(TrimLeft(s))
  }

  /** What trimming leaves, unless it is nothing. */
  predicate Trimmed(s: string) {
    s != "" && !IsSpace(s[0]) && !IsSpace(s[|s| - 1])
  }

  predicate Blank(s: string) {
    forall c :: c in s ==> IsSpace(c)
  }

  lemma {:induction false} TrimLeftOf(blank: string, s: string)
    requires Blank(blank)
    ensures TrimLeft(blank + s) == TrimLeft(s)
  {
    if blank == "" {
      assert blank + s == s;
    } else {
      assert (blank + s)[0] == blank[0] && blank[0] in blank && (blank + s)[1..] == blank[1..] + s;
      TrimLeftOf(blank[1..], s);
    }
  }

  lemma {:induction false} TrimRightOf(s: string, blank: string)
    requires Blank(blank)
    ensures TrimRight(s + blank) == TrimRight(s)
    decreases |blank|
  {
    if blank == "" {
      assert s + blank == s;
    } else {
      var last := |blank| - 1;
      assert blank[last] in blank && (s + blank)[..|s + blank| - 1] == s + blank[..last];
      TrimRightOf(s, blank[..last]);
    }
  }

  lemma {:induction false} TrimPadded(before: string, s: string, after: string)
    requires Blank(before) && Blank(after) && Trimmed(s)
    ensures Trim(before + s + after) == s
  {
    assert before + s + after == before + (s + after);
    TrimLeftOf(before, s + after);
    assert (s + after)[0] == s[0];
    TrimRightOf(s, after);
  }

  lemma {:induction false} TrimLeftKeeps(s: string)
    ensures |TrimLeft(s)| <= |s| && (TrimLeft(s) != "" ==> !IsSpace(TrimLeft(s)[0]))
    ensures Run(TOP, TrimLeft(s)) == Run(TOP, s)
  {
    if s != "" && IsSpace(s[0]) {
      TrimLeftKeeps(s[1..]);
    }
  }

  lemma {:induction false} TrimRightKeeps(s: string)
    ensures TrimRight(s) <= s && (TrimRight(s) != "" ==> !IsSpace(TrimRight(s)[|TrimRight(s)| - 1]))
    ensures Run(TOP, TrimRight(s)) == Run(TOP, s)
    decreases |s|
  {
    if s != "" && IsSpace(s[|s| - 1]) {
      var most, last := s[..|s| - 1], [s[|s| - 1]];
      TrimRightKeeps(most);
      assert s == most + last && last[1..] == "";
      RunAppend(TOP, most, last);
    }
  }

  lemma TrimKeeps(s: string)
    ensures Trim(s) == "" || Trimmed(Trim(s))
    ensures Piece(s) ==> Piece(Trim(s))
  {
    TrimLeftKeeps(s);
    TrimRightKeeps(TrimLeft(s));
  }

  // ----- the layout and the printer -----

  function NonEmptyTrimmed(pieces: seq<string>): seq<string> {
    if pieces == [] then []
    else (if Trim(pieces[0]) == "" then [] else [Trim(pieces[0])]) + NonEmptyTrimmed(pieces[1..])
  }

  /** What a statement consists of: all up to the first parenthesis, the column parts, and the rest. */
  datatype Layout = Layout(prefix: string, parts: seq<string>, suffix: string)

  function LayoutOf(sql: string): Option<Layout> {
    var start := IndexOfOpen(sql);
    if start.None? || start.value >= |sql| then None
    else
      var rest := sql[start.value + 1..];
      var close := IndexOfClose(TOP, rest);
      if close.None? then None
      else
        var parts := NonEmptyTrimmed(Pieces(TOP, rest[..close.value], ""));
        Some(Layout(sql[..start.value + 1], parts, rest[close.value..]))
  }

  function Lines(parts: seq<string>): string
    requires parts != []
  {
    "    " + parts[0] + if |parts| == 1 then "\n" else ",\n" + Lines(parts[1..])
  }

  function Body(parts: seq<string>): string {
    if parts == [] then "" else "\n" + Lines(parts)
  }

  function PrintLayout(l: Layout): string {
    l.prefix + Body(l.parts) + l.suffix
  }

  function Pretty(sql: string): string {
    if LayoutOf(sql).None? then sql else PrintLayout(LayoutOf(sql).value)
  }

  // ----- what scans do on joined texts -----

  lemma {:induction false} RunAppend(at: Scan, a: string, b: string)
    ensures Run(at, a + b) == Run(Run(at, a), b)
    decreases |a|
  {
    if a == "" {
      assert a + b == b;
    } else {
      assert (a + b)[0] == a[0] && (a + b)[1..] == a[1..] + b;
      RunAppend(Step(at, a[0]), a[1..], b);
    }
  }

  lemma {:induction false} StoppedStays(s: string)
    ensures Run(Stopped, s) == Stopped && RunToClose(Stopped, s) == Stopped
  {
    if s != "" {
      StoppedStays(s[1..]);
    }
  }

  /** A text that a scan passes is appended to the current piece. */
  lemma {:induction false} PassedOver(at: Scan, passed: string, rest: string, current: string)
    requires at.Scan? && Run(at, passed).Scan?
    ensures Pieces(at, passed + rest, current) == Pieces(Run(at, passed), rest, current + passed)
    decreases |passed|
  {
    if passed == "" {
      assert passed + rest == rest && current + passed == current;
    } else {
      StoppedStays(passed[1..]);
      assert (passed + rest)[0] == passed[0] && (passed + rest)[1..] == passed[1..] + rest;
      PassedOver(Step(at, passed[0]), passed[1..], rest, current + [passed[0]]);
      assert current + [passed[0]] + passed[1..] == current + passed;
    }
  }

  lemma {:induction false} NoCloseIn(at: Scan, passed: string, rest: string)
    requires at.Scan? && RunToClose(at, passed).Scan?
    ensures var close := IndexOfClose(RunToClose(at, passed), rest);
            IndexOfClose(at, passed + rest) == if close.None? then None else Some(|passed| + close.value)
    decreases |passed|
  {
    if passed == "" {
      assert passed + rest == rest;
    } else {
      StoppedStays(passed[1..]);
      assert (passed + rest)[0] == passed[0] && (passed + rest)[1..] == passed[1..] + rest;
      NoCloseIn(StepToClose(at, passed[0]), passed[1..], rest);
    }
  }

  lemma {:induction false} UpToClose(at: Scan, s: string)
    requires at.Scan? && IndexOfClose(at, s).Some?
    ensures var k := IndexOfClose(at, s).value;
            RunToClose(at, s[..k]) == TOP && s[k] == ')'
    decreases |s|
  {
    var k := IndexOfClose(at, s).value;
    if k > 0 {
      UpToClose(StepToClose(at, s[0]), s[1..]);
      assert s[..k][1..] == s[1..][..k - 1];
    }
  }

  lemma {:induction false} RunNext(at: Scan, s: string, c: char)
    ensures Run(at, s + [c]) == Step(Run(at, s), c)
  {
    RunAppend(at, s, [c]);
    assert [c][1..] == "";
  }

  /** Between its parentheses a column list falls into pieces. */
  lemma {:induction false} OnlyPieces(at: Scan, s: string, current: string)
    requires at.Scan? && RunToClose(at, s) == TOP && Run(TOP, current) == at
    ensures forall p :: p in Pieces(at, s, current) ==> Piece(p)
    decreases |s|
  {
    if s != "" {
      StoppedStays(s[1..]);
      if at == TOP && s[0] == ',' {
        OnlyPieces(at, s[1..], "");
      } else {
        RunNext(TOP, current, s[0]);
        OnlyPieces(StepToClose(at, s[0]), s[1..], current + [s[0]]);
      }
    }
  }

  function WithCommas(pieces: seq<string>): string {
    if pieces == [] then ""
    else if |pieces| == 1 then pieces[0]
    else pieces[0] + "," + WithCommas(pieces[1..])
  }

  /** The pieces with commas between them are the text again. */
  lemma {:induction false} PiecesRejoin(at: Scan, s: string, current: string)
    requires at.Scan?
    ensures Pieces(at, s, current) != [] && WithCommas(Pieces(at, s, current)) == current + s
    decreases |s|
  {
    if s == "" {
      assert current + s == current;
    } else if at == TOP && s[0] == ',' {
      PiecesRejoin(at, s[1..], "");
      var rest := Pieces(at, s[1..], "");
      assert ([current] + rest)[1..] == rest && "" + s[1..] == s[1..];
      assert current + "," + s[1..] == current + s;
    } else {
      var next := if at.depth == 0 && !at.quoted && s[0] == ')' then at else StepToClose(at, s[0]);
      PiecesRejoin(next, s[1..], current + [s[0]]);
      assert current + [s[0]] + s[1..] == current + s;
    }
  }

  ghost predicate AllParts(parts: seq<string>) {
    forall p :: p in parts ==> Piece(p) && Trimmed(p)
  }

  lemma {:induction false} PartsOfPieces(pieces: seq<string>)
    requires forall p :: p in pieces ==> Piece(p)
    ensures AllParts(NonEmptyTrimmed(pieces))
  {
    if pieces != [] {
      assert pieces[0] in pieces && forall p :: p in pieces[1..] ==> p in pieces;
      TrimKeeps(pieces[0]);
      PartsOfPieces(pieces[1..]);
    }
  }

  lemma LayoutHasParts(sql: string)
    requires LayoutOf(sql).Some?
    ensures AllParts(LayoutOf(sql).value.parts)
    ensures |LayoutOf(sql).value.suffix| > 0 && LayoutOf(sql).value.suffix[0] == ')'
  {
    var rest := sql[IndexOfOpen(sql).value + 1..];
    UpToClose(TOP, rest);
    OnlyPieces(TOP, rest[..IndexOfClose(TOP, rest).value], "");
    PartsOfPieces(Pieces(TOP, rest[..IndexOfClose(TOP, rest).value], ""));
  }

  // ----- the printed lines split into the same parts -----

  lemma {:induction false} PiecePassesCommas(at: Scan, s: string)
    requires Run(at, s).Scan?
    ensures RunToClose(at, s) == Run(at, s)
    decreases |s|
  {
    if s != "" {
      StoppedStays(s[1..]);
      PiecePassesCommas(Step(at, s[0]), s[1..]);
    }
  }

  lemma {:induction false} RunToCloseAppend(at: Scan, a: string, b: string)
    ensures RunToClose(at, a + b) == RunToClose(RunToClose(at, a), b)
    decreases |a|
  {
    if a == "" {
      assert a + b == b;
    } else {
      assert (a + b)[0] == a[0] && (a + b)[1..] == a[1..] + b;
      RunToCloseAppend(StepToClose(at, a[0]), a[1..], b);
    }
  }

  lemma Indented(part: string)
    requires Piece(part)
    ensures Piece("    " + part) && Piece("\n    " + part) && Piece("\n    " + part + "\n")
  {
    assert Run(TOP, "    ") == TOP && Run(TOP, "\n    ") == TOP && Run(TOP, "\n") == TOP;
    RunAppend(TOP, "    ", part);
    RunAppend(TOP, "\n    ", part);
    RunAppend(TOP, "\n    " + part, "\n");
  }

  lemma {:induction false} LinesStayInside(parts: seq<string>)
    requires parts != [] && AllParts(parts)
    ensures RunToClose(TOP, Lines(parts)) == TOP
  {
    var line := "    " + parts[0];
    assert parts[0] in parts;
    Indented(parts[0]);
    PiecePassesCommas(TOP, line);
    if |parts| == 1 {
      RunToCloseAppend(TOP, line, "\n");
      assert RunToClose(TOP, "\n") == TOP;
    } else {
      assert forall p :: p in parts[1..] ==> p in parts;
      LinesStayInside(parts[1..]);
      RunToCloseAppend(TOP, line, ",\n" + Lines(parts[1..]));
      RunToCloseAppend(TOP, ",\n", Lines(parts[1..]));
      assert RunToClose(TOP, ",\n") == TOP;
    }
  }

  lemma LastLine(part: string)
    requires Piece(part) && Trimmed(part)
    ensures NonEmptyTrimmed(Pieces(TOP, "    " + part + "\n", "\n")) == [part]
  {
    var line, piece := "    " + part + "\n", "\n    " + part + "\n";
    Indented(part);
    RunAppend(TOP, "    " + part, "\n");
    assert Run(TOP, "\n") == TOP;
    PassedOver(TOP, line, "", "\n");
    assert line + "" == line && "\n" + line == piece;
    TrimPadded("\n    ", part, "\n");
    assert [piece][1..] == [];
  }

  lemma NextLine(part: string, rest: string)
    requires Piece(part)
    ensures Pieces(TOP, "    " + part + (",\n" + rest), "\n") == ["\n    " + part] + Pieces(TOP, rest, "\n")
  {
    var line := "    " + part;
    Indented(part);
    PassedOver(TOP, line, ",\n" + rest, "\n");
    assert "\n" + line == "\n    " + part;
    assert (",\n" + rest)[1..] == "\n" + rest && ("\n" + rest)[1..] == rest && "" + ['\n'] == "\n";
    assert Pieces(TOP, "\n" + rest, "") == Pieces(TOP, rest, "\n");
  }

  lemma {:induction false} LinesSplit(parts: seq<string>)
    requires parts != [] && AllParts(parts)
    ensures NonEmptyTrimmed(Pieces(TOP, Lines(parts), "\n")) == parts
  {
    assert parts[0] in parts && forall p :: p in parts[1..] ==> p in parts;
    if |parts| == 1 {
      LastLine(parts[0]);
    } else {
      var rest := Lines(parts[1..]);
      NextLine(parts[0], rest);
      LinesSplit(parts[1..]);
      var piece, pieces := "\n    " + parts[0], Pieces(TOP, rest, "\n");
      TrimPadded("\n    ", parts[0], "");
      assert piece + "" == piece;
      assert ([piece] + pieces)[1..] == pieces && ([piece] + pieces)[0] == piece;
      assert parts == [parts[0]] + parts[1..];
    }
  }

  lemma BodySplits(parts: seq<string>)
    requires AllParts(parts)
    ensures RunToClose(TOP, Body(parts)) == TOP
    ensures NonEmptyTrimmed(Pieces(TOP, Body(parts), "")) == parts
  {
    if parts == [] {
      assert Trim("") == "" && [""][1..] == [];
    } else {
      LinesStayInside(parts);
      LinesSplit(parts);
      var body := Body(parts);
      assert body[0] == '\n' && body[1..] == Lines(parts) && "" + ['\n'] == "\n";
    }
  }

  lemma {:induction false} OpenIsFirst(sql: string)
    ensures var at := IndexOfOpen(sql);
            && (at.None? <==> '(' !in sql)
            && (at.Some? ==> at.value < |sql| && sql[at.value] == '(' && '(' !in sql[..at.value])
  {
    if sql != "" && sql[0] != '(' {
      OpenIsFirst(sql[1..]);
      var at := IndexOfOpen(sql);
      assert at.Some? ==> sql[..at.value] == [sql[0]] + sql[1..][..at.value - 1];
    }
  }

  lemma {:induction false} OpenAt(before: string, after: string)
    requires '(' !in before
    ensures IndexOfOpen(before + "(" + after) == Some(|before|)
  {
    var sql := before + "(" + after;
    if before != "" {
      assert sql[0] == before[0] && sql[1..] == before[1..] + "(" + after;
      OpenAt(before[1..], after);
    }
  }

  lemma LayoutOfParts(before: string, parts: seq<string>, suffix: string)
    requires '(' !in before && AllParts(parts) && suffix != "" && suffix[0] == ')'
    ensures LayoutOf(before + "(" + (Body(parts) + suffix)) == Some(Layout(before + "(", parts, suffix))
  {
    var body := Body(parts);
    var sql, rest := before + "(" + (body + suffix), body + suffix;
    BodySplits(parts);
    OpenAt(before, rest);
    NoCloseIn(TOP, body, suffix);
    assert IndexOfClose(TOP, suffix) == Some(0);
    assert sql[|before| + 1..] == rest && sql[..|before| + 1] == before + "(";
    assert rest[..|body|] == body && rest[|body|..] == suffix;
  }

  /** Printing keeps the prefix, the parts and the suffix of every statement that has them. */
  lemma {:induction false} LayoutKept(sql: string)
    ensures LayoutOf(Pretty(sql)) == LayoutOf(sql)
  {
    if LayoutOf(sql).Some? {
      var l := LayoutOf(sql).value;
      LayoutHasParts(sql);
      OpenIsFirst(sql);
      var before := sql[..IndexOfOpen(sql).value];
      PrefixParts(sql, IndexOfOpen(sql).value);
      LayoutOfParts(before, l.parts, l.suffix);
      Associative(l.prefix, Body(l.parts), l.suffix);
    }
  }

  lemma PrefixParts(sql: string, at: nat)
    requires at < |sql| && sql[at] == '('
    ensures sql[..at + 1] == sql[..at] + "("
  {
  }

  /** Printing a printed statement changes nothing, on every input. */
  lemma {:induction false} PrettyIsIdempotent(sql: string)
    ensures Pretty(Pretty(sql)) == Pretty(sql)
  {
    LayoutKept(sql);
  }

  // ----- the printer's loops -----

  function Shifted(at: Option<nat>, n: nat): Option<nat> {
    if at.None? then None else Some(n + at.value)
  }

  lemma NextToClose(at: Scan, rest: string, i: nat)
    requires at.Scan? && i < |rest|
    ensures var next := StepToClose(at, rest[i]);
            Shifted(IndexOfClose(at, rest[i..]), i) ==
            if next.Stopped? then Some(i) else Shifted(IndexOfClose(next, rest[i + 1..]), i + 1)
  {
    assert rest[i..][0] == rest[i] && rest[i..][1..] == rest[i + 1..];
  }

  method FindClose(rest: string) returns (r: Option<nat>)
    ensures r == IndexOfClose(TOP, rest)
  {
    var depth, inQuotes := 0, false;
    for i := 0 to |rest|
      invariant depth >= 0
      invariant IndexOfClose(TOP, rest) == Shifted(IndexOfClose(Scan(depth, inQuotes), rest[i..]), i)
    {
      var ch := rest[i];
      NextToClose(Scan(depth, inQuotes), rest, i);
      if ch == '"' {
        inQuotes := !inQuotes;
      }
      if inQuotes {
        continue;
      }
      if ch == '(' {
        depth := depth + 1;
      } else if ch == ')' {
        if depth == 0 {
          return Some(i);
        }
        depth := depth - 1;
      }
    }
    r := None;
  }

  method SplitColumns(columns: string) returns (parts: seq<string>)
    ensures parts == NonEmptyTrimmed(Pieces(TOP, columns, ""))
  {
    parts := [];
    var current, depth, inQuotes := "", 0, false;
    ghost var total := NonEmptyTrimmed(Pieces(TOP, columns, ""));
    assert columns[0..] == columns;
    for i := 0 to |columns|
      invariant depth >= 0
      invariant total == parts + NonEmptyTrimmed(Pieces(Scan(depth, inQuotes), columns[i..], current))
    {
      var ch := columns[i];
      assert columns[i..][0] == ch && columns[i..][1..] == columns[i + 1..];
      if ch == '"' {
        inQuotes := !inQuotes;
        current := current + [ch];
        continue;
      }
      if !inQuotes {
        if ch == '(' {
          depth := depth + 1;
        } else if ch == ')' {
          if depth > 0 {
            depth := depth - 1;
          }
        } else if ch == ',' && depth == 0 {
          FirstPart(current, Pieces(TOP, columns[i + 1..], ""));
          parts := AddPart(parts, current);
          current := "";
          continue;
        }
      }
      current := current + [ch];
    }
    assert columns[|columns|..] == "";
    parts := AddPart(parts, current);
  }

  method AddPart(parts: seq<string>, current: string) returns (more: seq<string>)
    ensures more == parts + NonEmptyTrimmed([current])
  {
    assert [current][1..] == [];
    var part := Trim(current);
    more := if part != "" then parts + [part] else parts;
  }

  lemma FirstPart(piece: string, pieces: seq<string>)
    ensures NonEmptyTrimmed([piece] + pieces) == NonEmptyTrimmed([piece]) + NonEmptyTrimmed(pieces)
  {
    assert ([piece] + pieces)[1..] == pieces && [piece][1..] == [];
  }

  lemma LineFirst(parts: seq<string>, i: nat, line: string, after: string)
    requires i < |parts|
    requires line == "    " + parts[i] + if i < |parts| - 1 then ",\n" else "\n"
    requires after == if i < |parts| - 1 then Lines(parts[i + 1..]) else ""
    ensures Lines(parts[i..]) == line + after
  {
    assert parts[i..][0] == parts[i] && parts[i..][1..] == parts[i + 1..];
    if i < |parts| - 1 {
      Associative("    " + parts[i], ",\n", after);
    }
  }

  method PrintBody(parts: seq<string>) returns (body: string)
    ensures body == Body(parts)
  {
    body := "";
    if parts != [] {
      body := "\n";
      assert parts[0..] == parts;
      for i := 0 to |parts|
        invariant Body(parts) == body + if i == |parts| then "" else Lines(parts[i..])
      {
        var line := "    " + parts[i] + if i < |parts| - 1 then ",\n" else "\n";
        ghost var after := if i < |parts| - 1 then Lines(parts[i + 1..]) else "";
        LineFirst(parts, i, line, after);
        Associative(body, line, after);
        body := body + line;
      }
    }
  }

  /** `prettyFormatCreateTable`. */
  method PrettyFormatCreateTable(sql: string) returns (printed: string)
    ensures printed == Pretty(sql)
  {
    var start := IndexOfOpen(sql);
    if start.None? {
      return sql;
    }
    OpenIsFirst(sql);
    var rest := sql[start.value + 1..];
    var close := FindClose(rest);
    if close.None? {
      return sql;
    }
    var parts := SplitColumns(rest[..close.value]);
    var body := PrintBody(parts);
    printed := sql[..start.value + 1] + body + rest[close.value..];
  }
}
