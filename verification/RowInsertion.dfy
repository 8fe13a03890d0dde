/** The insert walk as it runs: value lists grow in a loop and rows go to an inserter before the children are walked. */
module RowInsertion {
  import opened Prelude
  import opened TableSchema
  import opened MessageWalk

  /** What an inserter has been handed, in order. */
  class Inserter {
    var inserted: seq<Row>

    constructor ()
      ensures inserted == []
    {
      inserted := [];
    }

    method Insert(table: string, values: seq<Cell>)
      modifies this
      ensures inserted == old(inserted) + [Row(table, values)]
    {
      inserted := inserted + [Row(table, values)];
    }
  }

  lemma {:induction false} CellsAppend(a: seq<Tagged>, b: seq<Tagged>)
    ensures CellsOf(a + b) == CellsOf(a) + CellsOf(b)
  {
    if a == [] {
      assert a + b == b;
    } else {
      assert (a + b)[0] == a[0] && (a + b)[1..] == a[1..] + b;
      CellsAppend(a[1..], b);
      Associative([a[0].cell], CellsOf(a[1..]), CellsOf(b));
    }
  }

  lemma NextField(env: Env, t: Option<Table>, fields: seq<Field>, i: nat, done: Gathered<Tagged>)
    requires i < |fields|
    ensures Joined(Ok(done), InsertFields(env, t, fields[i..])) ==
            var field := InsertField(env, t, fields[i]);
            if field.Err? then field
            else Joined(Ok(Gathered(done.values + field.value.values, done.children + field.value.children)),
                        InsertFields(env, t, fields[i + 1..]))
  {
    assert fields[i..][0] == fields[i] && fields[i..][1..] == fields[i + 1..];
    JoinedAgain(done, InsertField(env, t, fields[i]), InsertFields(env, t, fields[i + 1..]));
  }

  lemma NextItem(env: Env, d: FieldDesc, items: seq<FieldValue>, j: nat, done: seq<string>)
    requires j < |items|
    ensures WithTexts(done, NormalizeAll(env, d, items[j..])) ==
            var text := env.normalize(d, items[j]);
            if text.Err? then Err(text.error)
            else WithTexts(done + [text.value], NormalizeAll(env, d, items[j + 1..]))
  {
    assert items[j..][0] == items[j] && items[j..][1..] == items[j + 1..];
    var text, rest := env.normalize(d, items[j]), NormalizeAll(env, d, items[j + 1..]);
    assert text.Ok? && rest.Ok? ==> done + [text.value] + rest.value == done + ([text.value] + rest.value);
  }

  function WithTexts(done: seq<string>, r: Result<seq<string>>): Result<seq<string>> {
    if r.Err? then r else Ok(done + r.value)
  }

  method NormalizeElements(env: Env, d: FieldDesc, items: seq<FieldValue>) returns (r: Result<seq<string>>)
    ensures r == NormalizeAll(env, d, items)
  {
    var normalized: seq<string> := [];
    ghost var total := NormalizeAll(env, d, items);
    assert items[0..] == items && (total.Ok? ==> [] + total.value == total.value);
    for j := 0 to |items|
      invariant total == WithTexts(normalized, NormalizeAll(env, d, items[j..]))
    {
      NextItem(env, d, items, j, normalized);
      var converted := env.normalize(d, items[j]);
      if converted.Err? {
        return Err(converted.error);
      }
      normalized := normalized + [converted.value];
    }
    assert items[|items|..] == [] && normalized + [] == normalized;
    r := Ok(normalized);
  }

  /** What one field gives: a value, messages, both not, or an error. */
  method ValueOfField(env: Env, t: Option<Table>, f: Field) returns (r: Result<Gathered<Tagged>>)
    ensures r == InsertField(env, t, f)
  {
    if f.desc.oneof && !f.has {
      return Ok(Gathered([], []));
    }
    if IsKey(t, f.desc) {
      return Ok(Gathered([], []));
    }
    if !f.desc.message && t.Some? && !HasColumn(t.value, f.desc) {
      return Ok(Gathered([], []));
    }
    if f.value.Elements? {
      r := ValuesOfList(env, f.desc, f.value.items);
    } else if f.value.Nested? {
      r := Ok(Gathered([], [f.value]));
    } else if f.value.NilMessage? {
      r := Ok(Gathered([], []));
    } else {
      var converted := env.normalize(f.desc, f.value);
      if converted.Err? {
        return Err(converted.error);
      }
      r := Ok(Gathered([Tagged(f.desc, Normal(converted.value))], []));
    }
  }

  /** A list is taken for messages or for scalars by its first element. */
  method ValuesOfList(env: Env, d: FieldDesc, items: seq<FieldValue>) returns (r: Result<Gathered<Tagged>>)
    ensures r == if items == [] then Ok(Gathered([], []))
                 else if IsMessageValue(items[0]) then
                   if forall c :: c in items ==> IsMessageValue(c) then Ok(Gathered([], items)) else Err(MixedList)
                 else
                   var texts := NormalizeAll(env, d, items);
                   if texts.Err? then Err(texts.error) else Ok(Gathered([Tagged(d, Array(texts.value))], []))
  {
    if items == [] {
      return Ok(Gathered([], []));
    }
    if IsMessageValue(items[0]) {
      for j := 0 to |items|
        invariant forall k :: 0 <= k < j ==> IsMessageValue(items[k])
      {
        if !IsMessageValue(items[j]) {
          return Err(MixedList);
        }
      }
      return Ok(Gathered([], items));
    }
    var normalized := NormalizeElements(env, d, items);
    if normalized.Err? {
      return Err(normalized.error);
    }
    r := Ok(Gathered([Tagged(d, Array(normalized.value))], []));
  }

  /** The values of the fields after those given, and the messages among the fields. */
  method CollectValues(env: Env, t: Option<Table>, fields: seq<Field>, leading: seq<Cell>)
    returns (r: Result<(seq<Cell>, seq<FieldValue>)>)
    ensures var gathered := InsertFields(env, t, fields);
            r == if gathered.Err? then Err(gathered.error)
                 else Ok((leading + CellsOf(gathered.value.values), gathered.value.children))
  {
    var fieldValues, children: seq<FieldValue> := leading, [];
    ghost var values: seq<Tagged> := [];
    ghost var total := InsertFields(env, t, fields);
    JoinedWithNothing(total);
    assert fields[0..] == fields && leading + [] == leading;
    for i := 0 to |fields|
      invariant total == Joined(Ok(Gathered(values, children)), InsertFields(env, t, fields[i..]))
      invariant fieldValues == leading + CellsOf(values)
    {
      NextField(env, t, fields, i, Gathered(values, children));
      var found := ValueOfField(env, t, fields[i]);
      if found.Err? {
        return Err(found.error);
      }
      CellsAppend(values, found.value.values);
      Associative(leading, CellsOf(values), CellsOf(found.value.values));
      fieldValues, children := fieldValues + CellsOf(found.value.values), children + found.value.children;
      values := values + found.value.values;
    }
    assert fields[|fields|..] == [];
    JoinedWithNothing(Ok(Gathered(values, children)));
    r := Ok((fieldValues, children));
  }

  /** The inserter gets the rows of the walk, those before an error included. */
  method WalkAndInsert(env: Env, v: FieldValue, parent: Option<FieldValue>, inserter: Inserter)
    returns (error: Option<Failure>)
    modifies inserter
    ensures inserter.inserted == old(inserter.inserted) + InsertMessage(env, v, parent).rows
    ensures error == InsertMessage(env, v, parent).error
    decreases ValueWeight(v), 0
  {
    if !v.Nested? {
      return Some(NilMessageReceived);
    }
    var own := InsertOwnRow(env, v.message, parent, inserter);
    if own.Err? {
      return Some(own.error);
    }
    var (children, p) := own.value;
    ghost var before := inserter.inserted;
    error := InsertAll(env, children, p, inserter);
    Associative(old(inserter.inserted), before[|old(inserter.inserted)|..], InsertWalk(env, children, p).rows);
  }

  /** One message: its row goes in before the key to pass on is looked for. */
  method InsertOwnRow(env: Env, m: Message, parent: Option<FieldValue>, inserter: Inserter)
    returns (r: Result<(seq<FieldValue>, Option<FieldValue>)>)
    modifies inserter
    ensures old(inserter.inserted) <= inserter.inserted
    ensures var own := inserter.inserted[|old(inserter.inserted)|..];
            && (r.Err? ==> InsertMessage(env, Nested(m), parent) == Outcome(own, Some(r.error)))
            && (r.Ok? ==>
                  && InsertMessage(env, Nested(m), parent) == After(own, InsertWalk(env, r.value.0, r.value.1))
                  && Weight(r.value.0) < ValueWeight(Nested(m)))
  {
    var t := TableOf(env, m);
    var fieldValues := SystemCells(env);
    if t.Some? && t.value.primaryKey.Some? {
      var key := ValueNamed(m.fields, t.value.primaryKey.value.field.name);
      if key == Native(None) {
        return Err(MissingPrimaryKeyField);
      }
      fieldValues := fieldValues + [Raw(key)];
    }
    if parent.Some? {
      fieldValues := fieldValues + [Raw(parent.value)];
    }
    assert fieldValues == SystemCells(env) + OptionalCell(KeyValue(t, m)) + OptionalCell(parent);
    var gathered := CollectValues(env, t, m.fields, fieldValues);
    if gathered.Err? {
      return Err(gathered.error);
    }
    var (cells, children) := gathered.value;
    InsertWeight(env, t, m.fields);
    var p := parent;
    if t.Some? {
      inserter.Insert(t.value.name, cells);
      if children != [] && env.useProtoOptions {
        if t.value.primaryKey.Some? {
          p := KeyValue(t, m);
        } else if parent.None? {
          return Err(NoKeyForChildren);
        }
      }
    }
    r := Ok((children, p));
  }

  method InsertAll(env: Env, children: seq<FieldValue>, parent: Option<FieldValue>, inserter: Inserter)
    returns (error: Option<Failure>)
    modifies inserter
    ensures inserter.inserted == old(inserter.inserted) + InsertWalk(env, children, parent).rows
    ensures error == InsertWalk(env, children, parent).error
    decreases Weight(children), 1
  {
    ghost var total := After(inserter.inserted, InsertWalk(env, children, parent));
    assert children[0..] == children;
    for i := 0 to |children|
      invariant total == After(inserter.inserted, InsertWalk(env, children[i..], parent))
    {
      MemberWeight(children, i);
      NextMessage(env, children, i, parent, inserter.inserted);
      error := WalkAndInsert(env, children[i], parent, inserter);
      if error.Some? {
        return;
      }
    }
    assert children[|children|..] == [] && inserter.inserted + [] == inserter.inserted;
    error := None;
  }

  function After(done: seq<Row>, o: Outcome): Outcome {
    Outcome(done + o.rows, o.error)
  }

  lemma NextMessage(env: Env, vs: seq<FieldValue>, i: nat, parent: Option<FieldValue>, done: seq<Row>)
    requires i < |vs|
    ensures After(done, InsertWalk(env, vs[i..], parent)) ==
            var first := InsertMessage(env, vs[i], parent);
            if first.error.Some? then After(done, first)
            else After(done + first.rows, InsertWalk(env, vs[i + 1..], parent))
  {
    assert vs[i..][0] == vs[i] && vs[i..][1..] == vs[i + 1..];
    var first, rest := InsertMessage(env, vs[i], parent), InsertWalk(env, vs[i + 1..], parent);
    assert done + first.rows + rest.rows == done + (first.rows + rest.rows);
  }
}
