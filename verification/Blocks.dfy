/** Blocks of row changes, which rows they name, and how a batch of them falls into two at a block number. */
module Blocks {
  import opened Prelude
  import opened Database
  import opened Coalescing
  import opened RowEffects
  import opened FlushRefinement

  datatype TableChange = TableChange(table: string, opType: OperationType, key: Key, data: Row)

  datatype Block = Block(number: nat, finalBlock: nat, changes: seq<TableChange>)

  /** A change bears its block's number when the block is not final yet. */
  function Mark(b: Block): Option<nat> {
    if b.number > b.finalBlock then Some(b.number) else None
  }

  function Stamp(block: Block, c: TableChange): Change {
    Change(c.table, c.opType, c.key, c.data, Mark(block))
  }

  function ChangesOfBlock(block: Block): (changes: seq<Change>)
    ensures |changes| == |block.changes|
    ensures forall i :: 0 <= i < |changes| ==> changes[i] == Stamp(block, block.changes[i])
  {
    seq(|block.changes|, i requires 0 <= i < |block.changes| => Stamp(block, block.changes[i]))
  }

  /** A block's change as it is loaded: the same change, with the block's number exactly while that is not final. */
  lemma StampedChange(block: Block, i: nat)
    requires i < |block.changes|
    ensures var given, loaded := block.changes[i], ChangesOfBlock(block)[i];
            && loaded.table == given.table && loaded.opType == given.opType
            && loaded.key == given.key && loaded.data == given.data
            && (block.number <= block.finalBlock ==> loaded.reversible == None)
            && (block.number > block.finalBlock ==> loaded.reversible == Some(block.number))
  {
  }

  function ChangesOf(batch: seq<Block>): seq<Change> {
    if batch == [] then [] else ChangesOfBlock(batch[0]) + ChangesOf(batch[1..])
  }

  ghost predicate Ascending(batch: seq<Block>) {
    && batch != []
    && forall i, j :: 0 <= i < j < |batch| ==> batch[i].number < batch[j].number
  }

  lemma {:induction false} ChangesAppend(a: seq<Block>, b: seq<Block>)
    ensures ChangesOf(a + b) == ChangesOf(a) + ChangesOf(b)
  {
    if a == [] {
      assert a + b == b;
    } else {
      assert (a + b)[0] == a[0] && (a + b)[1..] == a[1..] + b;
      var first := ChangesOfBlock(a[0]);
      assert ChangesOf(a + b) == first + ChangesOf(a[1..] + b) && ChangesOf(a) == first + ChangesOf(a[1..]);
      ChangesAppend(a[1..], b);
      Associative(first, ChangesOf(a[1..]), ChangesOf(b));
    }
  }

  lemma OneBlock(b: Block)
    ensures ChangesOf([b]) == ChangesOfBlock(b)
  {
    assert [b][1..] == [];
    assert ChangesOfBlock(b) + [] == ChangesOfBlock(b);
  }

  lemma {:induction false} ApplyChangesAppend(schema: Schema, tables: Tables, a: seq<Change>, b: seq<Change>)
    ensures ApplyChanges(schema, tables, a + b) ==
            match ApplyChanges(schema, tables, a)
            case Err(e) => Err(e)
            case Ok(mid) => ApplyChanges(schema, mid, b)
    decreases |a|
  {
    if a == [] {
      assert a + b == b;
    } else {
      assert (a + b)[0] == a[0] && (a + b)[1..] == a[1..] + b;
      if ApplyChange(schema, tables, a[0]).Ok? {
        ApplyChangesAppend(schema, ApplyChange(schema, tables, a[0]).value, a[1..], b);
      }
    }
  }

  // ----- rows that changes name -----

  ghost predicate NamedBy(schema: Schema, c: Change, id: RowId) {
    c.table in schema && RowId(schema[c.table], c.key) == id
  }

  ghost predicate Names(schema: Schema, b: Block, id: RowId) {
    exists c :: c in ChangesOfBlock(b) && NamedBy(schema, c, id)
  }

  ghost predicate AllKeepKey(schema: Schema, batch: seq<Block>) {
    forall c :: c in ChangesOf(batch) ==> KeepsKey(schema, c)
  }

  /** The changes of a batch are those of its blocks. */
  lemma {:induction false} ChangeHasBlock(batch: seq<Block>, c: Change)
    ensures c in ChangesOf(batch) <==> exists b :: b in batch && c in ChangesOfBlock(b)
  {
    if batch != [] {
      ChangeHasBlock(batch[1..], c);
      assert batch == [batch[0]] + batch[1..];
      assert c in ChangesOf(batch) <==> c in ChangesOfBlock(batch[0]) || c in ChangesOf(batch[1..]);
      if c in ChangesOfBlock(batch[0]) {
        assert batch[0] in batch;
      }
      if b :| b in batch[1..] && c in ChangesOfBlock(b) {
        assert b in batch;
      }
    }
  }

  lemma {:induction false} AppliedStaysKeyed(schema: Schema, tables: Tables, changes: seq<Change>)
    requires ValidSchema(schema) && WellKeyed(tables) && forall c :: c in changes ==> KeepsKey(schema, c)
    requires ApplyChanges(schema, tables, changes).Ok?
    ensures WellKeyed(ApplyChanges(schema, tables, changes).value)
    decreases |changes|
  {
    if changes != [] {
      assert changes[0] in changes;
      ApplyIsStep(schema, tables, changes[0], 0);
      AppliedStaysKeyed(schema, ApplyChange(schema, tables, changes[0]).value, changes[1..]);
    }
  }

  /** Changes leave the rows alone that none of them names. */
  lemma {:induction false} UnnamedStays(schema: Schema, tables: Tables, changes: seq<Change>, id: RowId)
    requires ValidSchema(schema) && WellKeyed(tables)
    requires forall c :: c in changes ==> KeepsKey(schema, c) && !NamedBy(schema, c, id)
    requires ApplyChanges(schema, tables, changes).Ok?
    ensures Lookup(ApplyChanges(schema, tables, changes).value, id) == Lookup(tables, id)
    decreases |changes|
  {
    if changes != [] {
      assert changes[0] in changes && !NamedBy(schema, changes[0], id);
      ApplyIsStep(schema, tables, changes[0], 0);
      UnnamedStays(schema, ApplyChange(schema, tables, changes[0]).value, changes[1..], id);
    }
  }

  lemma UnnamedBlocksStay(schema: Schema, tables: Tables, batch: seq<Block>, id: RowId)
    requires ValidSchema(schema) && WellKeyed(tables) && AllKeepKey(schema, batch)
    requires forall b :: b in batch ==> !Names(schema, b, id)
    requires ApplyChanges(schema, tables, ChangesOf(batch)).Ok?
    ensures Lookup(ApplyChanges(schema, tables, ChangesOf(batch)).value, id) == Lookup(tables, id)
  {
    forall c | c in ChangesOf(batch) ensures !NamedBy(schema, c, id) {
      ChangeHasBlock(batch, c);
      var b :| b in batch && c in ChangesOfBlock(b);
      assert !Names(schema, b, id);
    }
    UnnamedStays(schema, tables, ChangesOf(batch), id);
  }

  // ----- a batch on both sides of a block -----

  /** How many of the first blocks are at or below a number. */
  function CountLow(batch: seq<Block>, block: nat): (n: nat)
    ensures n <= |batch|
    ensures forall i :: 0 <= i < n ==> batch[i].number <= block
    ensures n < |batch| ==> batch[n].number > block
  {
    if batch == [] || batch[0].number > block then 0 else 1 + CountLow(batch[1..], block)
  }

  function LowBlocks(batch: seq<Block>, block: nat): seq<Block> {
    batch[..CountLow(batch, block)]
  }

  function HighBlocks(batch: seq<Block>, block: nat): seq<Block> {
    batch[CountLow(batch, block)..]
  }

  lemma BatchSplits(batch: seq<Block>, block: nat)
    requires Ascending(batch)
    ensures forall b :: b in batch <==> b in LowBlocks(batch, block) || b in HighBlocks(batch, block)
    ensures forall b :: b in LowBlocks(batch, block) ==> b.number <= block
    ensures forall b :: b in HighBlocks(batch, block) ==> b.number > block
    ensures ChangesOf(batch) == ChangesOf(LowBlocks(batch, block)) + ChangesOf(HighBlocks(batch, block))
  {
    var n := CountLow(batch, block);
    SplitAt(batch, n, n);
    ChangesAppend(batch[..n], batch[n..]);
    HighAreAbove(batch, block);
  }

  lemma HighAreAbove(batch: seq<Block>, block: nat)
    requires Ascending(batch)
    ensures forall b :: b in HighBlocks(batch, block) ==> b.number > block
  {
    var n := CountLow(batch, block);
    forall b | b in batch[n..] ensures b.number > block {
      var i :| n <= i < |batch| && batch[i] == b;
      assert n < i ==> batch[n].number < batch[i].number;
    }
  }

  /** What the changes of both sides leave is what those above leave on what those below left. */
  lemma SplitApplies(schema: Schema, tables: Tables, batch: seq<Block>, block: nat)
    requires Ascending(batch) && ApplyChanges(schema, tables, ChangesOf(batch)).Ok?
    ensures var mid := ApplyChanges(schema, tables, ChangesOf(LowBlocks(batch, block)));
            && mid.Ok?
            && ApplyChanges(schema, mid.value, ChangesOf(HighBlocks(batch, block))) ==
               ApplyChanges(schema, tables, ChangesOf(batch))
  {
    BatchSplits(batch, block);
    ApplyChangesAppend(schema, tables, ChangesOf(LowBlocks(batch, block)), ChangesOf(HighBlocks(batch, block)));
  }
}
