/** The string under which the loader files a pending row: its key values, by column name, joined with "/". */
module RowUniqueId {

  type Key = map<string, string>

  // ----- byte order on strings -----

  predicate Less(a: string, b: string) {
    if b == "" then false
    else if a == "" then true
    else a[0] < b[0] || (a[0] == b[0] && Less(a[1..], b[1..]))
  }

  ghost predicate Differ(a: string, b: string, i: nat) {
    i < |a| && i < |b| && (forall k :: 0 <= k < i ==> a[k] == b[k]) && a[i] < b[i]
  }

  /** The order of a dictionary: a string comes after its proper prefixes, and else the first difference decides. */
  lemma {:induction false} LessIsAlphabetical(a: string, b: string)
    ensures Less(a, b) <==> a < b || exists i: nat :: Differ(a, b, i)
  {
    if a != "" && b != "" && a[0] == b[0] {
      LessIsAlphabetical(a[1..], b[1..]);
      assert a == [a[0]] + a[1..] && b == [b[0]] + b[1..];
      assert a < b <==> a[1..] < b[1..];
      if i: nat :| Differ(a[1..], b[1..], i) {
        assert Differ(a, b, i + 1);
      }
      if i: nat :| Differ(a, b, i) {
        assert Differ(a[1..], b[1..], i - 1);
      }
    } else if a != "" && b != "" {
      assert a[0] < b[0] ==> Differ(a, b, 0);
    }
  }

  lemma {:induction false} LessIsTotal(a: string, b: string)
    ensures Less(a, b) || a == b || Less(b, a)
    ensures !(Less(a, b) && Less(b, a))
    ensures Less(a, b) ==> a != b
  {
    if a != "" && b != "" {
      LessIsTotal(a[1..], b[1..]);
      assert a == [a[0]] + a[1..] && b == [b[0]] + b[1..];
    }
  }

  lemma {:induction false} LessIsTransitive(a: string, b: string, c: string)
    requires Less(a, b) && Less(b, c)
    ensures Less(a, c)
  {
    if a != "" && a[0] == b[0] == c[0] {
      LessIsTransitive(a[1..], b[1..], c[1..]);
    }
  }

  ghost predicate Increasing(keys: seq<string>) {
    forall i, j :: 0 <= i < j < |keys| ==> Less(keys[i], keys[j])
  }

  /** `keys` lists the elements of `names` in increasing order. */
  ghost predicate SortedListing(keys: seq<string>, names: set<string>) {
    && Increasing(keys)
    && forall k :: k in keys <==> k in names
  }

  lemma {:induction false} SortedListingIsUnique(a: seq<string>, b: seq<string>, names: set<string>)
    requires SortedListing(a, names) && SortedListing(b, names)
    ensures a == b
    decreases names
  {
    assert a != [] ==> a[0] in names;
    assert b != [] ==> b[0] in names;
    if names != {} {
      var k :| k in names;
      assert k in a && k in b;
      assert a[0] in b && b[0] in a;
      FirstIsLeast(a, b[0]);
      FirstIsLeast(b, a[0]);
      LessIsTotal(a[0], b[0]);
      assert a[0] == b[0];
      TailListing(a, names);
      TailListing(b, names);
      SortedListingIsUnique(a[1..], b[1..], names - {a[0]});
      assert a == [a[0]] + a[1..] && b == [b[0]] + b[1..];
    }
  }

  lemma FirstIsLeast(a: seq<string>, x: string)
    requires Increasing(a) && x in a
    ensures a[0] == x || Less(a[0], x)
  {
  }

  lemma TailListing(a: seq<string>, names: set<string>)
    requires a != [] && SortedListing(a, names)
    ensures SortedListing(a[1..], names - {a[0]})
  {
    forall i | 1 <= i < |a| ensures a[i] != a[0] {
      LessIsTotal(a[0], a[i]);
    }
    forall k | k in names - {a[0]} ensures k in a[1..] {
      assert k in a && k != a[0];
    }
  }

  ghost function Insert(keys: seq<string>, k: string): seq<string> {
    if keys == [] || Less(k, keys[0]) then [k] + keys
    else [keys[0]] + Insert(keys[1..], k)
  }

  lemma {:induction false} InsertKeepsListing(keys: seq<string>, names: set<string>, k: string)
    requires SortedListing(keys, names) && k !in names
    ensures SortedListing(Insert(keys, k), names + {k})
  {
    if keys == [] {
    } else if Less(k, keys[0]) {
      forall j | 0 <= j < |keys| ensures Less(k, keys[j]) {
        if j > 0 { LessIsTransitive(k, keys[0], keys[j]); }
      }
    } else {
      var tail := Insert(keys[1..], k);
      assert keys[0] in names;
      LessIsTotal(k, keys[0]);
      TailListing(keys, names);
      InsertKeepsListing(keys[1..], names - {keys[0]}, k);
      forall j | 0 <= j < |tail| ensures Less(keys[0], tail[j]) {
        assert tail[j] in names - {keys[0]} + {k};
        if tail[j] != k { FirstIsLeast(keys, tail[j]); }
      }
      assert forall x :: x in [keys[0]] + tail <==> x == keys[0] || x in tail;
    }
  }

  ghost function SortedKeys(names: set<string>): (keys: seq<string>)
    ensures SortedListing(keys, names)
  {
    if names == {} then []
    else
      var k :| k in names;
      var rest := SortedKeys(names - {k});
      InsertKeepsListing(rest, names - {k}, k);
      assert names - {k} + {k} == names;
      Insert(rest, k)
  }

  // ----- joining -----

  function Join(values: seq<string>): string {
    if values == [] then ""
    else if |values| == 1 then values[0]
    else values[0] + "/" + Join(values[1..])
  }

  ghost predicate NoSlash(values: seq<string>) {
    forall v :: v in values ==> '/' !in v
  }

  function Slashes(s: string): nat {
    if s == "" then 0 else (if s[0] == '/' then 1 else 0) + Slashes(s[1..])
  }

  lemma {:induction false} SlashesAppend(a: string, b: string)
    ensures Slashes(a + b) == Slashes(a) + Slashes(b)
  {
    if a == "" {
      assert a + b == b;
    } else {
      assert (a + b)[0] == a[0] && (a + b)[1..] == a[1..] + b;
      SlashesAppend(a[1..], b);
    }
  }

  lemma {:induction false} SlashesCount(s: string)
    ensures Slashes(s) > 0 <==> '/' in s
  {
    if s != "" {
      SlashesCount(s[1..]);
      assert s == [s[0]] + s[1..];
    }
  }

  function AllSlashes(values: seq<string>): nat {
    if values == [] then 0 else Slashes(values[0]) + AllSlashes(values[1..])
  }

  lemma {:induction false} AllSlashesCount(values: seq<string>)
    ensures AllSlashes(values) == 0 <==> NoSlash(values)
  {
    if values != [] {
      SlashesCount(values[0]);
      AllSlashesCount(values[1..]);
      assert values == [values[0]] + values[1..];
    }
  }

  lemma {:induction false} JoinSlashes(values: seq<string>)
    requires values != []
    ensures Slashes(Join(values)) == AllSlashes(values) + |values| - 1
  {
    if |values| > 1 {
      JoinSlashes(values[1..]);
      SlashesAppend(values[0] + "/", Join(values[1..]));
      SlashesAppend(values[0], "/");
      assert Slashes("/") == 1 + Slashes("/"[1..]);
    }
  }

  lemma {:induction false} SlashFreeJoin(a: seq<string>, b: seq<string>)
    requires |a| == |b| && Join(a) == Join(b) && NoSlash(a) && NoSlash(b)
    ensures a == b
  {
    if |a| > 1 {
      var x, y, r, q := a[0], b[0], Join(a[1..]), Join(b[1..]);
      assert Join(a) == x + "/" + r && Join(b) == y + "/" + q;
      assert x in a && y in b;
      assert (x + "/" + r)[|x|] == '/' && (y + "/" + q)[|y|] == '/';
      assert |x| == |y|;
      assert x == (x + "/" + r)[..|x|] && y == (y + "/" + q)[..|y|];
      assert r == (x + "/" + r)[|x| + 1..] && q == (y + "/" + q)[|y| + 1..];
      SlashFreeJoin(a[1..], b[1..]);
      assert a == [a[0]] + a[1..] && b == [b[0]] + b[1..];
    }
  }

  /** A list with one value, or without "/" in any value, is told apart from every other list of its length. */
  lemma {:induction false} JoinIsInjective(a: seq<string>, b: seq<string>)
    requires |a| == |b| && Join(a) == Join(b)
    requires |a| == 1 || NoSlash(a)
    ensures a == b
  {
    if |a| > 1 {
      JoinSlashes(a);
      JoinSlashes(b);
      AllSlashesCount(a);
      AllSlashesCount(b);
      SlashFreeJoin(a, b);
    }
  }

  /** Two neighbours may be replaced by any two values that join to the same text. */
  lemma {:induction false} JoinOfNeighbours(values: seq<string>, k: nat, x: string, y: string)
    requires k + 1 < |values| && x + "/" + y == values[k] + "/" + values[k + 1]
    ensures Join(values[k := x][k + 1 := y]) == Join(values)
  {
    var changed := values[k := x][k + 1 := y];
    if k == 0 {
      assert changed[1..][1..] == values[1..][1..];
      if |values| > 2 {
        var rest := Join(values[2..]);
        assert changed[1..][0] == y && values[1..][0] == values[1];
        assert Join(changed[1..]) == y + "/" + rest && Join(values[1..]) == values[1] + "/" + rest;
        assert x + "/" + (y + "/" + rest) == (x + "/" + y) + ("/" + rest);
        assert values[0] + "/" + (values[1] + "/" + rest) == (values[0] + "/" + values[1]) + ("/" + rest);
      } else {
        assert changed[1..] == [y] && values[1..] == [values[1]];
      }
    } else {
      assert changed[1..] == values[1..][k - 1 := x][k := y];
      JoinOfNeighbours(values[1..], k - 1, x, y);
    }
  }

  /** Where two neighbours meet can be moved to a "/" in either of them. */
  lemma MovedSlash(x: string, y: string) returns (v: string, w: string)
    requires '/' in x || '/' in y
    ensures v + "/" + w == x + "/" + y && v != x
  {
    if '/' in x {
      var i :| 0 <= i < |x| && x[i] == '/';
      v, w := x[..i], x[i + 1..] + "/" + y;
      assert x == x[..i] + "/" + x[i + 1..];
      assert v + "/" + w == (x[..i] + "/" + x[i + 1..]) + "/" + y;
    } else {
      var i :| 0 <= i < |y| && y[i] == '/';
      v, w := x + "/" + y[..i], y[i + 1..];
      assert y == y[..i] + "/" + y[i + 1..];
      assert v + "/" + w == x + "/" + (y[..i] + "/" + y[i + 1..]);
    }
  }

  // ----- the unique id -----

  function ValuesOf(key: Key, names: seq<string>): (values: seq<string>)
    requires forall k :: k in names ==> k in key
    ensures |values| == |names| && forall i :: 0 <= i < |names| ==> values[i] == key[names[i]]
  {
    seq(|names|, i requires 0 <= i < |names| => key[names[i]])
  }

  ghost function UniqueId(key: Key): string {
    Join(ValuesOf(key, SortedKeys(key.Keys)))
  }

  /** Keys that the loader can tell apart: one column, or no "/" in any value. */
  predicate Separable(key: Key) {
    |key| == 1 || forall c :: c in key ==> '/' !in key[c]
  }

  /** Over the same columns, a separable key shares its unique id with no other key. */
  lemma UniqueIdIsInjective(a: Key, b: Key)
    requires a.Keys == b.Keys && Separable(a)
    requires UniqueId(a) == UniqueId(b)
    ensures a == b
  {
    var names := SortedKeys(a.Keys);
    var u, v := ValuesOf(a, names), ValuesOf(b, names);
    SortedListingLength(names, a.Keys);
    assert |a| == |a.Keys|;
    JoinIsInjective(u, v);
    forall c | c in a ensures a[c] == b[c] {
      var i :| 0 <= i < |names| && names[i] == c;
      assert u[i] == v[i];
    }
  }

  /** Of two or more columns with a "/" in a value, another key has the same unique id. */
  lemma SlashedKeyCollides(a: Key) returns (b: Key)
    requires |a| >= 2 && exists c :: c in a && '/' in a[c]
    ensures b.Keys == a.Keys && b != a && UniqueId(b) == UniqueId(a)
  {
    var names := SortedKeys(a.Keys);
    var u := ValuesOf(a, names);
    SortedListingLength(names, a.Keys);
    assert |a| == |a.Keys|;
    var c :| c in a && '/' in a[c];
    var i :| 0 <= i < |names| && names[i] == c;
    var k := if i + 1 < |names| then i else i - 1;
    var x, y := MovedSlash(u[k], u[k + 1]);
    b := a[names[k] := x][names[k + 1] := y];
    LessIsTotal(names[k], names[k + 1]);
    assert b[names[k]] == x && a[names[k]] == u[k];
    assert names[k] in a.Keys && names[k + 1] in a.Keys;
    assert b.Keys == a.Keys;
    ChangedValues(a, names, k, x, y);
    JoinOfNeighbours(u, k, x, y);
  }

  lemma ChangedValues(a: Key, names: seq<string>, k: nat, x: string, y: string)
    requires SortedListing(names, a.Keys) && k + 1 < |names|
    ensures var b := a[names[k] := x][names[k + 1] := y];
            (forall n :: n in names ==> n in b) && ValuesOf(b, names) == ValuesOf(a, names)[k := x][k + 1 := y]
  {
    var b := a[names[k] := x][names[k + 1] := y];
    forall i, j | 0 <= i < j < |names| ensures names[i] != names[j] {
      LessIsTotal(names[i], names[j]);
    }
    assert forall n :: n in names ==> n in b;
  }

  /** A key shares its unique id with another key of its columns exactly when it is not separable. */
  lemma CollidesIff(a: Key)
    ensures (exists b: Key :: b.Keys == a.Keys && b != a && UniqueId(b) == UniqueId(a))
            <==> |a| >= 2 && exists c :: c in a && '/' in a[c]
  {
    if |a| >= 2 && exists c :: c in a && '/' in a[c] {
      var b := SlashedKeyCollides(a);
    } else {
      assert Separable(a);
      forall b: Key | b.Keys == a.Keys && UniqueId(b) == UniqueId(a) ensures b == a {
        UniqueIdIsInjective(a, b);
      }
    }
  }

  lemma {:induction false} SortedListingLength(keys: seq<string>, names: set<string>)
    requires SortedListing(keys, names)
    ensures |keys| == |names|
  {
    if keys == [] {
      assert names == {};
    } else {
      TailListing(keys, names);
      SortedListingLength(keys[1..], names - {keys[0]});
      assert keys[0] in names;
    }
  }

  /** Two keys that share one id. */
  lemma SlashCollides()
    ensures exists a: Key, b: Key :: a.Keys == b.Keys && a != b && UniqueId(a) == UniqueId(b)
  {
    var a: Key := map["x" := "1/2", "y" := "3"];
    var b: Key := map["x" := "1", "y" := "2/3"];
    assert a.Keys == b.Keys == {"x", "y"};
    var names := ["x", "y"];
    assert Less("x", "y");
    assert SortedListing(names, {"x", "y"});
    SortedListingIsUnique(names, SortedKeys({"x", "y"}), {"x", "y"});
    assert ValuesOf(a, names) == ["1/2", "3"] && ValuesOf(b, names) == ["1", "2/3"];
    assert Join(["3"]) == "3" && Join(["2/3"]) == "2/3";
    assert ["1/2", "3"][1..] == ["3"] && ["1", "2/3"][1..] == ["2/3"];
    assert UniqueId(a) == "1/2/3" == UniqueId(b);
    assert a["y"] != b["y"];
  }

  /** `slices.Sort` over the collected keys. */
  method SortStrings(keys: seq<string>) returns (sorted: seq<string>)
    requires forall i, j :: 0 <= i < j < |keys| ==> keys[i] != keys[j]
    ensures SortedListing(sorted, set k | k in keys)
  {
    sorted := [];
    for i := 0 to |keys|
      invariant SortedListing(sorted, set k | k in keys[..i])
    {
      ghost var before := set k | k in keys[..i];
      var at := 0;
      while at < |sorted| && Less(sorted[at], keys[i])
        invariant 0 <= at <= |sorted|
        invariant forall j :: 0 <= j < at ==> Less(sorted[j], keys[i])
      {
        at := at + 1;
      }
      PlaceKeepsListing(sorted, before, keys[i], at);
      sorted := sorted[..at] + [keys[i]] + sorted[at..];
      assert keys[..i + 1] == keys[..i] + [keys[i]];
    }
    assert keys[..|keys|] == keys;
  }

  lemma PlaceKeepsListing(keys: seq<string>, names: set<string>, k: string, at: nat)
    requires SortedListing(keys, names) && k !in names && at <= |keys|
    requires forall j :: 0 <= j < at ==> Less(keys[j], k)
    requires at < |keys| ==> !Less(keys[at], k)
    ensures SortedListing(keys[..at] + [k] + keys[at..], names + {k})
  {
    forall j | at <= j < |keys| ensures Less(k, keys[j]) {
      LessIsTotal(keys[at], k);
      assert keys[at] in names;
      if at < j { LessIsTransitive(k, keys[at], keys[j]); }
    }
    assert keys == keys[..at] + keys[at..];
  }

  /** The keys of a map in whatever order it yields them. */
  method CollectKeys(names: set<string>) returns (keys: seq<string>)
    ensures forall k :: k in keys <==> k in names
    ensures forall i, j :: 0 <= i < j < |keys| ==> keys[i] != keys[j]
  {
    keys := [];
    var todo := names;
    while todo != {}
      invariant forall k :: k in names <==> k in keys || k in todo
      invariant forall k :: k in keys ==> k !in todo
      invariant forall i, j :: 0 <= i < j < |keys| ==> keys[i] != keys[j]
      decreases todo
    {
      var k :| k in todo;
      assert forall i :: 0 <= i < |keys| ==> keys[i] in keys && keys[i] != k;
      keys, todo := keys + [k], todo - {k};
    }
  }

  lemma OneColumn(key: Key, column: string)
    requires |key| == 1 && column in key
    ensures UniqueId(key) == key[column]
  {
    assert |key.Keys - {column}| == 0;
    assert key.Keys == {column};
    assert SortedListing([column], {column});
    SortedListingIsUnique([column], SortedKeys(key.Keys), key.Keys);
    assert ValuesOf(key, [column]) == [key[column]];
  }

  /** `createRowUniqueID`; the order in which the key map is visited makes no difference. */
  method CreateRowUniqueID(key: Key) returns (id: string)
    ensures id == UniqueId(key)
  {
    if |key| == 1 {
      var column :| column in key.Keys;
      id := key[column];
      OneColumn(key, column);
      return;
    }
    var keys := CollectKeys(key.Keys);
    var sorted := SortStrings(keys);
    assert (set k | k in keys) == key.Keys;
    SortedListingIsUnique(sorted, SortedKeys(key.Keys), key.Keys);
    var values := [];
    for i := 0 to |sorted|
      invariant |values| == i && forall j :: 0 <= j < i ==> values[j] == key[sorted[j]]
    {
      values := values + [key[sorted[i]]];
    }
    assert values == ValuesOf(key, sorted);
    id := Join(values);
  }
}
