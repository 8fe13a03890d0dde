/** Names of the files of a block range, and the choice of the files to load by their names alone. */
module RangeFiles {
  import opened Prelude
  import opened RowUniqueId

  // ----- padded numbers -----

  const LIMIT: nat := 10000000000

  function Power10(n: nat): nat {
    if n == 0 then 1 else 10 * Power10(n - 1)
  }

  function DigitOf(d: nat): char
    requires d < 10
  {
    "0123456789"[d]
  }

  predicate IsDigit(c: char) {
    '0' <= c <= '9'
  }

  predicate AllDigits(s: string) {
    forall i :: 0 <= i < |s| ==> IsDigit(s[i])
  }

  /** A number in decimal, padded with zeros to a width; a larger number takes more digits. */
  function Padded(n: nat, width: nat): string
    decreases n + width
  {
    if n == 0 && width == 0 then "" else Padded(n / 10, if width == 0 then 0 else width - 1) + [DigitOf(n % 10)]
  }

  function ValueOf(s: string): nat
    requires AllDigits(s)
  {
    if s == "" then 0 else 10 * ValueOf(s[..|s| - 1]) + (s[|s| - 1] as int - '0' as int)
  }

  lemma {:induction false} PaddedIsRead(n: nat, width: nat)
    ensures AllDigits(Padded(n, width)) && ValueOf(Padded(n, width)) == n
    decreases n + width
  {
    if n != 0 || width != 0 {
      var fewer := if width == 0 then 0 else width - 1;
      PaddedIsRead(n / 10, fewer);
      DigitIsRead(n % 10);
      OneMoreDigit(Padded(n / 10, fewer), DigitOf(n % 10));
    }
  }

  lemma OneMoreDigit(s: string, c: char)
    requires AllDigits(s) && IsDigit(c)
    ensures AllDigits(s + [c]) && ValueOf(s + [c]) == 10 * ValueOf(s) + (c as int - '0' as int)
  {
    assert (s + [c])[..|s + [c]| - 1] == s;
  }

  lemma DigitIsRead(d: nat)
    requires d < 10
    ensures IsDigit(DigitOf(d)) && DigitOf(d) as int - '0' as int == d
  {
  }

  lemma {:induction false} PaddedWidth(n: nat, width: nat)
    requires n < Power10(width)
    ensures |Padded(n, width)| == width
  {
    if width > 0 {
      assert n / 10 < Power10(width - 1);
      PaddedWidth(n / 10, width - 1);
    }
  }

  lemma {:induction false} ValueBound(s: string)
    requires AllDigits(s)
    ensures ValueOf(s) < Power10(|s|)
  {
    if s != "" {
      ValueBound(s[..|s| - 1]);
    }
  }

  lemma TenDigits()
    ensures Power10(10) == LIMIT
  {
    assert Power10(5) == 100000;
    assert Power10(10) == 100000 * Power10(5);
  }

  // ----- names and their ranges -----

  datatype BlockFile = BlockFile(start: nat, last: nat)

  predicate Short(f: BlockFile) {
    f.start < LIMIT && f.last < LIMIT
  }

  function Name(f: BlockFile): string {
    Padded(f.start, 10) + "-" + Padded(f.last, 10)
  }

  predicate MatchAt(s: string, i: nat) {
    i + 21 <= |s| && AllDigits(s[i..i + 10]) && s[i + 10] == '-' && AllDigits(s[i + 11..i + 21])
  }

  /** The leftmost place where ten digits, a hyphen and ten digits stand. */
  function FirstMatch(s: string, from: nat): Option<nat>
    requires from <= |s|
    decreases |s| - from
  {
    if MatchAt(s, from) then Some(from)
    else if from == |s| then None
    else FirstMatch(s, from + 1)
  }

  lemma {:induction false} FirstMatchIsFirst(s: string, from: nat, i: nat)
    requires from <= i <= |s| && forall j :: from <= j < i ==> !MatchAt(s, j)
    ensures MatchAt(s, i) ==> FirstMatch(s, from) == Some(i)
    decreases i - from
  {
    if from < i {
      FirstMatchIsFirst(s, from + 1, i);
    }
  }

  lemma {:induction false} MatchFound(s: string, from: nat)
    requires from <= |s|
    ensures FirstMatch(s, from).Some? ==> from <= FirstMatch(s, from).value && MatchAt(s, FirstMatch(s, from).value)
    decreases |s| - from
  {
    if !MatchAt(s, from) && from < |s| {
      MatchFound(s, from + 1);
    }
  }

  function GetBlockRange(filename: string): Result<BlockFile> {
    var at := FirstMatch(filename, 0);
    if at.None? then Err(BadRangeName)
    else
      MatchFound(filename, 0);
      Ok(BlockFile(ValueOf(filename[at.value..at.value + 10]), ValueOf(filename[at.value + 11..at.value + 21])))
  }

  /** The first match gives the range, and a name without any is refused. */
  lemma {:induction false} RangeIsFirstMatch(filename: string, i: nat)
    requires i <= |filename| && forall j :: 0 <= j < i ==> !MatchAt(filename, j)
    ensures MatchAt(filename, i) ==>
              GetBlockRange(filename) ==
              Ok(BlockFile(ValueOf(filename[i..i + 10]), ValueOf(filename[i + 11..i + 21])))
    ensures i == |filename| && !MatchAt(filename, i) ==> GetBlockRange(filename) == Err(BadRangeName)
  {
    FirstMatchIsFirst(filename, 0, i);
    MatchFound(filename, 0);
  }

  /** The path of a file in its table's folder. */
  function Path(table: string, f: BlockFile, extension: string): string {
    table + "/" + Name(f) + extension
  }

  ghost predicate NoRangeIn(table: string) {
    forall i :: 0 <= i <= |table| ==> !MatchAt(table, i)
  }

  lemma NameParts(f: BlockFile)
    requires Short(f)
    ensures |Name(f)| == 21 && Name(f)[..10] == Padded(f.start, 10) && Name(f)[11..] == Padded(f.last, 10)
    ensures MatchAt(Name(f), 0)
  {
    TenDigits();
    PaddedWidth(f.start, 10);
    PaddedWidth(f.last, 10);
    PaddedIsRead(f.start, 10);
    PaddedIsRead(f.last, 10);
  }

  lemma NoMatchAcross(table: string, rest: string, i: nat)
    requires NoRangeIn(table) && i <= |table|
    ensures !MatchAt(table + "/" + rest, i)
  {
    var s, k := table + "/" + rest, |table| - i;
    assert s[|table|] == '/';
    if i + 21 <= |s| {
      if k < 10 {
        assert s[i..i + 10][k] == '/';
      } else if 10 < k <= 20 {
        assert s[i + 11..i + 21][k - 11] == '/';
      } else if 20 < k {
        assert s[i..i + 10] == table[i..i + 10] && s[i + 11..i + 21] == table[i + 11..i + 21];
        assert !MatchAt(table, i);
      }
    }
  }

  /** In a folder whose own name holds no range, the printed range is read back. */
  lemma {:induction false} RangeIsRead(table: string, f: BlockFile, extension: string)
    requires NoRangeIn(table) && Short(f)
    ensures GetBlockRange(Path(table, f, extension)) == Ok(f)
  {
    var path, at := Path(table, f, extension), |table| + 1;
    NameParts(f);
    assert path == table + "/" + (Name(f) + extension);
    forall i | 0 <= i < at ensures !MatchAt(path, i) {
      NoMatchAcross(table, Name(f) + extension, i);
    }
    assert path[at..at + 21] == Name(f);
    assert path[at..at + 10] == Name(f)[..10] && path[at + 10] == Name(f)[10];
    assert path[at + 11..at + 21] == Name(f)[11..];
    FirstMatchIsFirst(path, 0, at);
    PaddedIsRead(f.start, 10);
    PaddedIsRead(f.last, 10);
  }

  /** Beyond ten digits a range is never read back. */
  lemma {:induction false} RangeIsReadIff(table: string, f: BlockFile, extension: string)
    requires NoRangeIn(table)
    ensures GetBlockRange(Path(table, f, extension)) == Ok(f) <==> Short(f)
  {
    var path := Path(table, f, extension);
    if Short(f) {
      RangeIsRead(table, f, extension);
    } else {
      var at := FirstMatch(path, 0);
      if at.Some? {
        MatchFound(path, 0);
        TenDigits();
        ValueBound(path[at.value..at.value + 10]);
        ValueBound(path[at.value + 11..at.value + 21]);
      }
    }
  }

  // ----- the order of names -----

  lemma {:induction false} LessAfter(common: string, a: string, b: string)
    ensures Less(common + a, common + b) == Less(a, b)
  {
    if common == "" {
      assert common + a == a && common + b == b;
    } else {
      assert (common + a)[0] == common[0] && (common + a)[1..] == common[1..] + a;
      assert (common + b)[0] == common[0] && (common + b)[1..] == common[1..] + b;
      LessAfter(common[1..], a, b);
    }
  }

  /** Among texts of one length the first difference decides, whatever follows. */
  lemma {:induction false} LessBefore(a: string, b: string, x: string, y: string)
    requires |a| == |b| && a != b
    ensures Less(a + x, b + y) == Less(a, b)
  {
    assert a == [a[0]] + a[1..] && b == [b[0]] + b[1..];
    assert (a + x)[0] == a[0] && (a + x)[1..] == a[1..] + x;
    assert (b + y)[0] == b[0] && (b + y)[1..] == b[1..] + y;
    if a[0] == b[0] {
      LessBefore(a[1..], b[1..], x, y);
    }
  }

  lemma LastDigit(x: string, y: string, c: nat, d: nat)
    requires |x| == |y| && c < 10 && d < 10
    ensures Less(x + [DigitOf(c)], y + [DigitOf(d)]) <==> Less(x, y) || (x == y && c < d)
    ensures x + [DigitOf(c)] == y + [DigitOf(d)] <==> x == y && c == d
  {
    DigitIsRead(c);
    DigitIsRead(d);
    var v, w := x + [DigitOf(c)], y + [DigitOf(d)];
    assert v[..|x|] == x && w[..|y|] == y && v[|x|] == DigitOf(c) && w[|y|] == DigitOf(d);
    if x == y {
      LessAfter(x, [DigitOf(c)], [DigitOf(d)]);
      LessIsTotal(x, y);
    } else {
      LessBefore(x, y, [DigitOf(c)], [DigitOf(d)]);
    }
  }

  /** Padded numbers are ordered as numbers. */
  lemma {:induction false} PaddedOrder(a: nat, b: nat, width: nat)
    requires a < Power10(width) && b < Power10(width)
    ensures Less(Padded(a, width), Padded(b, width)) <==> a < b
    ensures Padded(a, width) == Padded(b, width) <==> a == b
  {
    if width > 0 {
      assert a / 10 < Power10(width - 1) && b / 10 < Power10(width - 1);
      PaddedOrder(a / 10, b / 10, width - 1);
      PaddedWidth(a / 10, width - 1);
      PaddedWidth(b / 10, width - 1);
      LastDigit(Padded(a / 10, width - 1), Padded(b / 10, width - 1), a % 10, b % 10);
    }
  }

  /** Names below ten digits are ordered by their first block and then by their last one. */
  lemma {:induction false} NameOrder(f: BlockFile, g: BlockFile)
    requires Short(f) && Short(g)
    ensures Less(Name(f), Name(g)) <==> f.start < g.start || (f.start == g.start && f.last < g.last)
  {
    TenDigits();
    PaddedOrder(f.start, g.start, 10);
    PaddedOrder(f.last, g.last, 10);
    PaddedWidth(f.start, 10);
    PaddedWidth(g.start, 10);
    var x, y := Padded(f.start, 10), Padded(g.start, 10);
    var v, w := "-" + Padded(f.last, 10), "-" + Padded(g.last, 10);
    assert Name(f) == x + v && Name(g) == y + w;
    if x == y {
      LessAfter(x, v, w);
      LessAfter("-", Padded(f.last, 10), Padded(g.last, 10));
    } else {
      LessBefore(x, y, v, w);
    }
  }

  lemma {:induction false} PathOrder(table: string, f: BlockFile, g: BlockFile, e: string, h: string)
    requires Short(f) && Short(g) && Less(Path(table, f, e), Path(table, g, h))
    ensures f.start <= g.start
  {
    NameParts(f);
    NameParts(g);
    var folder := table + "/";
    assert Path(table, f, e) == folder + (Name(f) + e) && Path(table, g, h) == folder + (Name(g) + h);
    LessAfter(folder, Name(f) + e, Name(g) + h);
    if f.start != g.start {
      PaddedIsRead(f.start, 10);
      PaddedIsRead(g.start, 10);
      assert Name(f)[..10] != Name(g)[..10];
      LessBefore(Name(f), Name(g), e, h);
      NameOrder(f, g);
    }
  }

  // ----- the walk over the names -----

  predicate Wanted(f: BlockFile, stop: nat, desired: nat) {
    f.last >= desired && (stop != 0 ==> f.start < stop)
  }

  /** The files that meet the requested range. */
  function AllWanted(paths: seq<string>, stop: nat, desired: nat): seq<string> {
    if paths == [] then []
    else
      var f := GetBlockRange(paths[0]);
      (if f.Ok? && Wanted(f.value, stop, desired) then [paths[0]] else []) + AllWanted(paths[1..], stop, desired)
  }

  /** What the walk selects: it gives up at a name without a range and stops at the first file past the end. */
  function Selected(paths: seq<string>, stop: nat, desired: nat): Result<seq<string>> {
    if paths == [] then Ok([])
    else
      var range := GetBlockRange(paths[0]);
      if range.Err? then Err(range.error)
      else if stop != 0 && range.value.start >= stop then Ok([])
      else After(if range.value.last < desired then [] else [paths[0]], Selected(paths[1..], stop, desired))
  }

  function After(found: seq<string>, r: Result<seq<string>>): Result<seq<string>> {
    if r.Err? then r else Ok(found + r.value)
  }

  /** `findFilesToLoad`. */
  method FindFilesToLoad(paths: seq<string>, stop: nat, desired: nat) returns (out: Result<seq<string>>)
    ensures out == Selected(paths, stop, desired)
  {
    var found: seq<string> := [];
    ghost var total := Selected(paths, stop, desired);
    assert paths[0..] == paths && (total.Ok? ==> [] + total.value == total.value);
    for i := 0 to |paths|
      invariant total == After(found, Selected(paths[i..], stop, desired))
    {
      assert paths[i..][0] == paths[i] && paths[i..][1..] == paths[i + 1..];
      var range := GetBlockRange(paths[i]);
      if range.Err? {
        return Err(range.error);
      }
      if stop != 0 && range.value.start >= stop {
        assert found + [] == found;
        return Ok(found);
      }
      if range.value.last < desired {
        AfterNext(found, [], Selected(paths[i + 1..], stop, desired));
        continue;
      }
      AfterNext(found, [paths[i]], Selected(paths[i + 1..], stop, desired));
      found := found + [paths[i]];
    }
    assert paths[|paths|..] == [] && found + [] == found;
    out := Ok(found);
  }

  lemma AfterNext(found: seq<string>, more: seq<string>, r: Result<seq<string>>)
    ensures After(found, After(more, r)) == After(found + more, r)
    ensures found + [] == found
  {
    assert r.Ok? ==> found + more + r.value == found + (more + r.value);
  }

  lemma {:induction false} NoneWanted(paths: seq<string>, stop: nat, desired: nat)
    requires stop != 0 && forall p :: p in paths ==> StartsFrom(p, stop)
    ensures AllWanted(paths, stop, desired) == []
  {
    if paths != [] {
      assert paths[0] in paths && forall p :: p in paths[1..] ==> p in paths;
      NoneWanted(paths[1..], stop, desired);
    }
  }

  predicate StartsFrom(path: string, block: nat) {
    var range := GetBlockRange(path);
    range.Ok? && range.value.start >= block
  }

  /** The paths of a folder as the store lists them. */
  ghost predicate Listing(table: string, paths: seq<string>, files: seq<BlockFile>, extension: string) {
    && |paths| == |files| && Increasing(paths)
    && forall i :: 0 <= i < |files| ==> Short(files[i]) && paths[i] == Path(table, files[i], extension)
  }

  lemma {:induction false} LaterStarts(table: string, paths: seq<string>, files: seq<BlockFile>, extension: string)
    requires NoRangeIn(table) && Listing(table, paths, files, extension) && paths != []
    ensures GetBlockRange(paths[0]) == Ok(files[0])
    ensures forall p :: p in paths ==> StartsFrom(p, files[0].start)
  {
    RangeIsRead(table, files[0], extension);
    forall j | 0 <= j < |paths| ensures StartsFrom(paths[j], files[0].start) {
      RangeIsRead(table, files[j], extension);
      if 0 < j {
        PathOrder(table, files[0], files[j], extension, extension);
      }
    }
  }

  /** Stopping at the first file past the end loses nothing: the files selected are all that meet the range. */
  lemma {:induction false} EarlyStopIsExact(
    table: string, paths: seq<string>, files: seq<BlockFile>, extension: string, stop: nat, desired: nat)
    requires NoRangeIn(table) && Listing(table, paths, files, extension)
    ensures Selected(paths, stop, desired) == Ok(AllWanted(paths, stop, desired))
  {
    if paths != [] {
      LaterStarts(table, paths, files, extension);
      if stop != 0 && files[0].start >= stop {
        forall p | p in paths ensures StartsFrom(p, stop) {
          assert StartsFrom(p, files[0].start);
        }
        NoneWanted(paths, stop, desired);
      } else {
        EarlyStopIsExact(table, paths[1..], files[1..], extension, stop, desired);
      }
    }
  }
}
