/**
 One table's stream of CSV files: rows are written into the file of the active boundary, and boundaries are rolled as
 blocks go by. `Bundler.dfy` is the object that goes through these states.
 */
module Bundling {
  import opened Prelude
  import opened BufferedWriting
  import opened Boundaries

  datatype File = File(range: Range, content: Bytes)

  datatype Config = Config(size: nat, stop: nat, header: Bytes)

  /** `stream` is what was written since the active boundary started; `files` are those handed to the uploader. */
  datatype Bundle = Bundle(
    active: Option<Range>, stream: Bytes, written: bool, headerWritten: bool, files: seq<File>, started: seq<Range>)

  const NewBundle := Bundle(None, [], false, false, [], [])

  function Start(cfg: Config, b: Bundle, block: nat): Bundle
    requires cfg.size > 0
  {
    var range := NewBoundary(block, cfg.size, cfg.stop);
    b.(active := Some(range), stream := [], written := false, started := b.started + [range])
  }

  function Stop(b: Bundle): Bundle {
    var range := if b.active.Some? then b.active.value else Range(0, 0);
    b.(active := None, stream := [], headerWritten := false,
       files := if b.written then b.files + [File(range, b.stream)] else b.files)
  }

  function SkipAll(cfg: Config, b: Bundle, ranges: seq<Range>): Bundle
    requires cfg.size > 0
    decreases |ranges|
  {
    if ranges == [] then b else SkipAll(cfg, Stop(Start(cfg, b, ranges[0].start)), ranges[1..])
  }

  function Roll(cfg: Config, b: Bundle, block: nat): Bundle
    requires cfg.size > 0 && b.active.Some?
  {
    if b.active.value.Contains(block) then b
    else
      var skipped := SkipAll(cfg, Stop(b), BoundariesToSkip(b.active.value.end, block, cfg.size));
      if block >= cfg.stop then skipped else Start(cfg, skipped, block)
  }

  function Concat(rows: seq<Bytes>): Bytes {
    if rows == [] then [] else rows[0] + Concat(rows[1..])
  }

  function WriteRows(cfg: Config, b: Bundle, rows: seq<Bytes>): Bundle {
    if rows == [] then b
    else b.(stream := b.stream + (if b.headerWritten then [] else cfg.header) + Concat(rows),
            written := true, headerWritten := true)
  }

  /** A block as one table sees it; a block without output does not reach the bundler. */
  datatype TableBlock = TableBlock(number: nat, hasOutput: bool, rows: seq<Bytes>)

  function HandleBlock(cfg: Config, b: Bundle, block: TableBlock): Bundle
    requires cfg.size > 0 && b.active.Some?
  {
    if !block.hasOutput then b else Roll(cfg, WriteRows(cfg, b, block.rows), block.number)
  }

  function Complete(cfg: Config, b: Bundle, last: nat): Bundle
    requires cfg.size > 0 && b.active.Some?
  {
    Roll(cfg, b, last - last % cfg.size + cfg.size)
  }

  // ----- invariants -----

  /** Whether the boundary's file holds its header first, exactly when it was written to at all. */
  ghost predicate HeaderFirst(cfg: Config, b: Bundle) {
    && b.written == b.headerWritten
    && (if b.headerWritten then cfg.header <= b.stream else b.stream == [])
    && forall f :: f in b.files ==> cfg.header <= f.content
  }

  function Body(cfg: Config, content: Bytes): Bytes {
    if cfg.header <= content then content[|cfg.header|..] else []
  }

  /** The contents of files, each without its leading header, one after the other. */
  function Payload(cfg: Config, files: seq<File>): Bytes {
    if files == [] then []
    else Payload(cfg, files[..|files| - 1]) + Body(cfg, files[|files| - 1].content)
  }

  /** What the uploaded files and the open one hold. */
  function Held(cfg: Config, b: Bundle): Bytes {
    Payload(cfg, b.files) + (if b.headerWritten then Body(cfg, b.stream) else [])
  }

  /** An aligned boundary below the stop block: whole, or clipped by the stop block. */
  ghost predicate Cut(r: Range, size: nat, stop: nat)
    requires size > 0
  {
    && r.start % size == 0 && r.start < stop
    && r.end == if stop < r.start + size then stop else r.start + size
  }

  /** Boundaries that tile the blocks from `from` on: all are whole but the last, which may be clipped. */
  ghost predicate Tiling(ranges: seq<Range>, from: nat, size: nat, stop: nat)
    requires size > 0
  {
    && ranges != []
    && var last := |ranges| - 1;
       && Chained(ranges[..last], from, ranges[last].start)
       && (forall r :: r in ranges[..last] ==> Whole(r, size) && r.end <= stop)
       && Cut(ranges[last], size, stop)
  }

  /** The boundaries opened so far tile the blocks from the aligned start to the end of the active one. */
  ghost predicate Tiles(cfg: Config, b: Bundle, startBlock: nat)
    requires cfg.size > 0
  {
    && b.active.Some? && b.started != []
    && b.started[|b.started| - 1] == b.active.value
    && Tiling(b.started, startBlock - startBlock % cfg.size, cfg.size, cfg.stop)
  }

  /** Files go up in the order of their ranges, and below the boundary at `low`. */
  ghost predicate FilesAscend(files: seq<File>, low: nat) {
    && (forall i, j :: 0 <= i < j < |files| ==> files[i].range.end <= files[j].range.start)
    && forall i :: 0 <= i < |files| ==> files[i].range.start < files[i].range.end <= low
  }

  // ----- one step -----

  lemma PayloadGrows(cfg: Config, files: seq<File>, f: File)
    ensures Payload(cfg, files + [f]) == Payload(cfg, files) + Body(cfg, f.content)
  {
    assert (files + [f])[..|files|] == files;
  }

  lemma StopKeepsHeld(cfg: Config, b: Bundle)
    requires HeaderFirst(cfg, b)
    ensures HeaderFirst(cfg, Stop(b).(written := false)) && Held(cfg, Stop(b)) == Held(cfg, b)
    ensures Stop(b).active == None && Stop(b).stream == [] && !Stop(b).headerWritten && Stop(b).started == b.started
  {
    if b.written {
      var range := if b.active.Some? then b.active.value else Range(0, 0);
      PayloadGrows(cfg, b.files, File(range, b.stream));
    }
  }

  /** Skipped boundaries receive nothing and leave no file. */
  lemma {:induction false} SkippingLeavesNothing(cfg: Config, b: Bundle, ranges: seq<Range>)
    requires cfg.size > 0
    requires b.stream == [] && !b.headerWritten && b.active == None
    ensures var s := SkipAll(cfg, b, ranges);
            && s.files == b.files && s.stream == [] && !s.headerWritten && s.active == None
            && |s.started| == |b.started| + |ranges|
            && s.started[..|b.started|] == b.started
            && (forall i :: 0 <= i < |ranges| ==>
                  s.started[|b.started| + i] == NewBoundary(ranges[i].start, cfg.size, cfg.stop))
    decreases |ranges|
  {
    if ranges == [] {
      assert b.started[..|b.started|] == b.started;
    } else {
      var next := Stop(Start(cfg, b, ranges[0].start));
      SkippingLeavesNothing(cfg, next, ranges[1..]);
      var s := SkipAll(cfg, b, ranges);
      assert next.started == b.started + [NewBoundary(ranges[0].start, cfg.size, cfg.stop)];
      assert s.started[..|b.started|] == s.started[..|next.started|][..|b.started|];
      forall i | 0 <= i < |ranges|
        ensures s.started[|b.started| + i] == NewBoundary(ranges[i].start, cfg.size, cfg.stop)
      {
        if i == 0 {
          assert s.started[|b.started|] == s.started[..|next.started|][|b.started|];
        } else {
          assert ranges[i] == ranges[1..][i - 1];
          assert s.started[|next.started| + (i - 1)] == NewBoundary(ranges[1..][i - 1].start, cfg.size, cfg.stop);
        }
      }
    }
  }

  /** Rolling moves no row: what was held is held afterwards, and a rolled boundary begins empty. */
  lemma RollKeepsHeld(cfg: Config, b: Bundle, block: nat)
    requires cfg.size > 0 && b.active.Some? && HeaderFirst(cfg, b)
    ensures var after := Roll(cfg, b, block);
            && Held(cfg, after) == Held(cfg, b)
            && (forall f :: f in after.files ==> cfg.header <= f.content)
            && (!b.active.value.Contains(block) ==>
                  after.stream == [] && !after.headerWritten && after.files == Stop(b).files)
            && (after.active.Some? ==> HeaderFirst(cfg, after))
  {
    StopKeepsHeld(cfg, b);
    SkippingLeavesNothing(cfg, Stop(b), BoundariesToSkip(b.active.value.end, block, cfg.size));
  }

  lemma BodyGrows(cfg: Config, content: Bytes, more: Bytes)
    requires cfg.header <= content
    ensures cfg.header <= content + more && Body(cfg, content + more) == Body(cfg, content) + more
  {
    assert (content + more)[..|cfg.header|] == cfg.header;
  }

  /** What writing some rows makes of the open file. */
  lemma WrittenBody(cfg: Config, b: Bundle, rows: seq<Bytes>)
    requires HeaderFirst(cfg, b) && rows != []
    ensures cfg.header <= WriteRows(cfg, b, rows).stream
    ensures Body(cfg, WriteRows(cfg, b, rows).stream) ==
            (if b.headerWritten then Body(cfg, b.stream) else []) + Concat(rows)
  {
    if b.headerWritten {
      assert b.stream + [] == b.stream;
      BodyGrows(cfg, b.stream, Concat(rows));
    } else {
      assert b.stream + cfg.header == cfg.header && Body(cfg, cfg.header) == [];
      BodyGrows(cfg, cfg.header, Concat(rows));
    }
  }

  lemma WritingAddsRows(cfg: Config, b: Bundle, rows: seq<Bytes>)
    requires HeaderFirst(cfg, b)
    ensures HeaderFirst(cfg, WriteRows(cfg, b, rows))
    ensures Held(cfg, WriteRows(cfg, b, rows)) == Held(cfg, b) + Concat(rows)
  {
    if rows != [] {
      WrittenBody(cfg, b, rows);
      Associative(Payload(cfg, b.files), if b.headerWritten then Body(cfg, b.stream) else [], Concat(rows));
    } else {
      assert Held(cfg, b) + [] == Held(cfg, b);
    }
  }

  /** A cut boundary that ends below the stop block is whole. */
  lemma CutBelowStopIsWhole(r: Range, size: nat, stop: nat)
    requires size > 0 && Cut(r, size, stop)
    ensures r.start < r.end <= stop
    ensures r.end < stop ==> Whole(r, size) && r.end % size == 0
  {
    ModuloOfSum(r.start, size);
  }

  /** The boundaries skipped below the stop block are the ones that are opened for them. */
  lemma SkippedAreOpened(iter: nat, block: nat, size: nat, stop: nat)
    requires size > 0 && iter % size == 0 && iter <= block < stop
    ensures var ranges := BoundariesToSkip(iter, block, size);
            && Chained(ranges, iter, block - block % size)
            && (forall r :: r in ranges ==> Whole(r, size) && r.end <= stop)
            && forall i :: 0 <= i < |ranges| ==> NewBoundary(ranges[i].start, size, stop) == ranges[i]
  {
    SkippedAreChained(iter, block, size);
    var ranges := BoundariesToSkip(iter, block, size);
    forall i | 0 <= i < |ranges| ensures NewBoundary(ranges[i].start, size, stop) == ranges[i] {
      assert ranges[i] in ranges;
    }
  }

  lemma NewBoundaryIsCut(block: nat, size: nat, stop: nat)
    requires size > 0 && block < stop
    ensures Cut(NewBoundary(block, size, stop), size, stop) && NewBoundary(block, size, stop).Contains(block)
    ensures NewBoundary(block, size, stop).start == block - block % size
  {
    NewBoundaryIsAligned(block, size, stop);
  }

  /** A tiling whose last boundary is whole goes on with the skipped boundaries and the block's own. */
  lemma TilingGrows(ranges: seq<Range>, from: nat, size: nat, stop: nat, skipped: seq<Range>, next: Range)
    requires size > 0 && Tiling(ranges, from, size, stop)
    requires Whole(ranges[|ranges| - 1], size) && ranges[|ranges| - 1].end <= stop
    requires Chained(skipped, ranges[|ranges| - 1].end, next.start) && Cut(next, size, stop)
    requires forall r :: r in skipped ==> Whole(r, size) && r.end <= stop
    ensures Tiling(ranges + skipped + [next], from, size, stop)
    ensures ranges[|ranges| - 1].end <= next.start
  {
    var last := |ranges| - 1;
    var all := ranges + skipped + [next];
    assert ranges == ranges[..last] + [ranges[last]] && [ranges[last]][1..] == [];
    ChainedAppend(ranges[..last], from, ranges[last].start, [ranges[last]], ranges[last].end);
    ChainedAppend(ranges, from, ranges[last].end, skipped, next.start);
    assert all[..|all| - 1] == ranges + skipped;
    ChainedOrder(skipped, ranges[last].end, next.start);
  }

  /** The boundaries that rolling to a block below the stop block opens. */
  lemma RollOpens(cfg: Config, b: Bundle, block: nat)
    requires cfg.size > 0 && b.active.Some? && Cut(b.active.value, cfg.size, cfg.stop)
    requires b.active.value.end <= block < cfg.stop
    ensures var after := Roll(cfg, b, block);
            && after.active == Some(NewBoundary(block, cfg.size, cfg.stop))
            && after.started == b.started + BoundariesToSkip(b.active.value.end, block, cfg.size)
                                + [NewBoundary(block, cfg.size, cfg.stop)]
  {
    var ranges := BoundariesToSkip(b.active.value.end, block, cfg.size);
    CutBelowStopIsWhole(b.active.value, cfg.size, cfg.stop);
    SkippedAreOpened(b.active.value.end, block, cfg.size, cfg.stop);
    SkippingLeavesNothing(cfg, Stop(b), ranges);
    SkippedAreStarted(cfg, Stop(b), ranges);
  }

  lemma SkippedAreStarted(cfg: Config, b: Bundle, ranges: seq<Range>)
    requires cfg.size > 0 && b.stream == [] && !b.headerWritten && b.active == None
    requires forall i :: 0 <= i < |ranges| ==> NewBoundary(ranges[i].start, cfg.size, cfg.stop) == ranges[i]
    ensures SkipAll(cfg, b, ranges).started == b.started + ranges
  {
    SkippingLeavesNothing(cfg, b, ranges);
    var started := SkipAll(cfg, b, ranges).started;
    assert started[|b.started|..] == ranges;
    assert started == started[..|b.started|] + started[|b.started|..];
  }

  /** Rolling to a block below the stop block keeps the tiling, and the block is then in the active boundary. */
  lemma RollKeepsTiles(cfg: Config, b: Bundle, startBlock: nat, block: nat)
    requires cfg.size > 0 && Tiles(cfg, b, startBlock) && b.active.value.start <= block < cfg.stop
    ensures Tiles(cfg, Roll(cfg, b, block), startBlock)
    ensures Roll(cfg, b, block).active.value.Contains(block)
    ensures b.active.value.start <= Roll(cfg, b, block).active.value.start
    ensures !b.active.value.Contains(block) ==> b.active.value.end <= Roll(cfg, b, block).active.value.start
  {
    CutBelowStopIsWhole(b.active.value, cfg.size, cfg.stop);
    if !b.active.value.Contains(block) {
      RollOutKeepsTiles(cfg, b, startBlock, block);
    }
  }

  lemma RollOutKeepsTiles(cfg: Config, b: Bundle, startBlock: nat, block: nat)
    requires cfg.size > 0 && Tiles(cfg, b, startBlock) && b.active.value.end <= block < cfg.stop
    requires !b.active.value.Contains(block)
    ensures Tiles(cfg, Roll(cfg, b, block), startBlock)
    ensures Roll(cfg, b, block).active.value.Contains(block)
    ensures b.active.value.end <= Roll(cfg, b, block).active.value.start
  {
    var next := NewBoundary(block, cfg.size, cfg.stop);
    RollOpens(cfg, b, block);
    CutBelowStopIsWhole(b.active.value, cfg.size, cfg.stop);
    NewBoundaryIsCut(block, cfg.size, cfg.stop);
    TilesGrow(cfg, b, startBlock, block);
    assert next.Contains(block);
  }

  lemma TilesGrow(cfg: Config, b: Bundle, startBlock: nat, block: nat)
    requires cfg.size > 0 && Tiles(cfg, b, startBlock) && b.active.value.end <= block < cfg.stop
    requires b.active.value.end % cfg.size == 0
    ensures var skipped := BoundariesToSkip(b.active.value.end, block, cfg.size);
            var next := NewBoundary(block, cfg.size, cfg.stop);
            && Tiling(b.started + skipped + [next], startBlock - startBlock % cfg.size, cfg.size, cfg.stop)
            && b.active.value.end <= next.start
  {
    var from, end := startBlock - startBlock % cfg.size, b.active.value.end;
    var skipped, next := BoundariesToSkip(end, block, cfg.size), NewBoundary(block, cfg.size, cfg.stop);
    SkippedAreOpened(end, block, cfg.size, cfg.stop);
    NewBoundaryIsCut(block, cfg.size, cfg.stop);
    CutBelowStopIsWhole(b.active.value, cfg.size, cfg.stop);
    assert b.started[|b.started| - 1] == b.active.value;
    TilingGrows(b.started, from, cfg.size, cfg.stop, skipped, next);
  }

  lemma {:induction false} ChainedOrder(ranges: seq<Range>, from: nat, to: nat)
    requires Chained(ranges, from, to) && forall r :: r in ranges ==> r.start <= r.end
    ensures from <= to
  {
    if ranges != [] {
      assert ranges[0] in ranges;
      ChainedOrder(ranges[1..], ranges[0].end, to);
    }
  }

  // ----- whole runs -----

  function Handle(cfg: Config, b: Bundle, blocks: seq<TableBlock>): Bundle
    requires cfg.size > 0
    decreases |blocks|
  {
    if blocks == [] || b.active.None? then b
    else Handle(cfg, HandleBlock(cfg, b, blocks[0]), blocks[1..])
  }

  function RowsOf(blocks: seq<TableBlock>): seq<Bytes> {
    if blocks == [] then []
    else (if blocks[0].hasOutput then blocks[0].rows else []) + RowsOf(blocks[1..])
  }

  /** The state of a bundle between blocks. */
  ghost predicate Sound(cfg: Config, b: Bundle, startBlock: nat)
    requires cfg.size > 0
  {
    && HeaderFirst(cfg, b) && Tiles(cfg, b, startBlock)
    && FilesAscend(b.files, b.active.value.start)
    && (forall r :: r in b.started ==> r.start < r.end)
  }

  ghost predicate InOrder(blocks: seq<TableBlock>, from: nat, below: nat) {
    && (forall i :: 0 <= i < |blocks| ==> from <= blocks[i].number < below)
    && forall i, j :: 0 <= i < j < |blocks| ==> blocks[i].number <= blocks[j].number
  }

  lemma HandleBlockKeepsSound(cfg: Config, b: Bundle, startBlock: nat, block: TableBlock)
    requires cfg.size > 0 && Sound(cfg, b, startBlock) && b.active.value.start <= block.number < cfg.stop
    ensures Sound(cfg, HandleBlock(cfg, b, block), startBlock)
    ensures HandleBlock(cfg, b, block).active.value.start <= block.number
    ensures Held(cfg, HandleBlock(cfg, b, block)) ==
            Held(cfg, b) + (if block.hasOutput then Concat(block.rows) else [])
  {
    if block.hasOutput {
      var w := WriteRows(cfg, b, block.rows);
      WritingAddsRows(cfg, b, block.rows);
      RollKeepsHeld(cfg, w, block.number);
      RollKeepsTiles(cfg, w, startBlock, block.number);
      RollKeepsOpened(cfg, w, startBlock, block.number);
    }
  }

  lemma RollKeepsOpened(cfg: Config, b: Bundle, startBlock: nat, block: nat)
    requires cfg.size > 0 && Tiles(cfg, b, startBlock) && b.active.value.start <= block < cfg.stop
    requires FilesAscend(b.files, b.active.value.start) && forall r :: r in b.started ==> r.start < r.end
    ensures forall r :: r in Roll(cfg, b, block).started ==> r.start < r.end
    ensures FilesAscend(Roll(cfg, b, block).files, Roll(cfg, b, block).active.value.start)
  {
    RollKeepsTiles(cfg, b, startBlock, block);
    if !b.active.value.Contains(block) {
      assert b.active.value in b.started;
      RollOpensNonEmpty(cfg, b, block);
      RollKeepsAscending(cfg, b, block, Roll(cfg, b, block).active.value.start);
    }
  }

  lemma RollOpensNonEmpty(cfg: Config, b: Bundle, block: nat)
    requires cfg.size > 0 && b.active.Some? && Cut(b.active.value, cfg.size, cfg.stop)
    requires b.active.value.end <= block < cfg.stop && forall r :: r in b.started ==> r.start < r.end
    ensures forall r :: r in Roll(cfg, b, block).started ==> r.start < r.end
  {
    var ranges := BoundariesToSkip(b.active.value.end, block, cfg.size);
    RollOpens(cfg, b, block);
    CutBelowStopIsWhole(b.active.value, cfg.size, cfg.stop);
    SkippedAreOpened(b.active.value.end, block, cfg.size, cfg.stop);
    NewBoundaryIsCut(block, cfg.size, cfg.stop);
    assert forall r :: r in ranges ==> r.start < r.end;
  }

  lemma RollKeepsAscending(cfg: Config, b: Bundle, block: nat, low: nat)
    requires cfg.size > 0 && b.active.Some? && !b.active.value.Contains(block) && block < cfg.stop
    requires FilesAscend(b.files, b.active.value.start)
    requires b.active.value.start < b.active.value.end <= low
    ensures FilesAscend(Roll(cfg, b, block).files, low)
  {
    SkippingLeavesNothing(cfg, Stop(b), BoundariesToSkip(b.active.value.end, block, cfg.size));
    assert Roll(cfg, b, block).files == Stop(b).files;
    StopKeepsAscending(b);
  }

  lemma {:induction false} HandleKeepsSound(cfg: Config, b: Bundle, startBlock: nat, blocks: seq<TableBlock>)
    requires cfg.size > 0 && Sound(cfg, b, startBlock) && InOrder(blocks, b.active.value.start, cfg.stop)
    ensures Sound(cfg, Handle(cfg, b, blocks), startBlock)
    ensures blocks != [] ==> Handle(cfg, b, blocks).active.value.start <= blocks[|blocks| - 1].number
    decreases |blocks|
  {
    if blocks != [] {
      var next := HandleBlock(cfg, b, blocks[0]);
      HandleBlockKeepsSound(cfg, b, startBlock, blocks[0]);
      InOrderTail(blocks, b.active.value.start, cfg.stop, next.active.value.start);
      HandleKeepsSound(cfg, next, startBlock, blocks[1..]);
      assert Handle(cfg, b, blocks) == Handle(cfg, next, blocks[1..]);
    }
  }

  /** The rows of the blocks are added to what was held, in order. */
  lemma {:induction false} HandleAddsRows(cfg: Config, b: Bundle, startBlock: nat, blocks: seq<TableBlock>)
    requires cfg.size > 0 && Sound(cfg, b, startBlock) && InOrder(blocks, b.active.value.start, cfg.stop)
    ensures Held(cfg, Handle(cfg, b, blocks)) == Held(cfg, b) + Concat(RowsOf(blocks))
    decreases |blocks|
  {
    if blocks != [] {
      var block := blocks[0];
      HandleBlockKeepsSound(cfg, b, startBlock, block);
      InOrderTail(blocks, b.active.value.start, cfg.stop, HandleBlock(cfg, b, block).active.value.start);
      HandleAddsRows(cfg, HandleBlock(cfg, b, block), startBlock, blocks[1..]);
      ConcatAppend(if block.hasOutput then block.rows else [], RowsOf(blocks[1..]));
      Associative(Held(cfg, b), if block.hasOutput then Concat(block.rows) else [], Concat(RowsOf(blocks[1..])));
    }
  }

  lemma InOrderTail(blocks: seq<TableBlock>, from: nat, below: nat, next: nat)
    requires blocks != [] && InOrder(blocks, from, below) && next <= blocks[0].number
    ensures InOrder(blocks[1..], next, below)
    ensures blocks[1..] != [] ==> blocks[1..][|blocks[1..]| - 1] == blocks[|blocks| - 1]
  {
  }

  lemma {:induction false} ConcatAppend(a: seq<Bytes>, b: seq<Bytes>)
    ensures Concat(a + b) == Concat(a) + Concat(b)
  {
    if a == [] {
      assert a + b == b;
    } else {
      assert (a + b)[0] == a[0] && (a + b)[1..] == a[1..] + b;
      ConcatAppend(a[1..], b);
      Associative(a[0], Concat(a[1..]), Concat(b));
    }
  }

  lemma StartIsSound(cfg: Config, startBlock: nat)
    requires cfg.size > 0 && startBlock < cfg.stop
    ensures Sound(cfg, Start(cfg, NewBundle, startBlock), startBlock)
    ensures Held(cfg, Start(cfg, NewBundle, startBlock)) == []
    ensures Start(cfg, NewBundle, startBlock).active.value.start <= startBlock
  {
    NewBoundaryIsCut(startBlock, cfg.size, cfg.stop);
    var range := NewBoundary(startBlock, cfg.size, cfg.stop);
    assert Start(cfg, NewBundle, startBlock).started == [range];
    OneTile(range, cfg.size, cfg.stop);
  }

  lemma OneTile(range: Range, size: nat, stop: nat)
    requires size > 0 && Cut(range, size, stop)
    ensures Tiling([range], range.start, size, stop)
  {
    assert [range][..0] == [];
  }

  /**
   The boundaries opened over any nondecreasing blocks below the stop block tile the range from the aligned start
   without gap or overlap; all are whole except that the last may be clipped by the stop block.
   */
  lemma BoundariesTile(cfg: Config, startBlock: nat, blocks: seq<TableBlock>)
    requires cfg.size > 0 && startBlock < cfg.stop && InOrder(blocks, startBlock, cfg.stop)
    ensures Tiles(cfg, Handle(cfg, Start(cfg, NewBundle, startBlock), blocks), startBlock)
  {
    StartIsSound(cfg, startBlock);
    HandleKeepsSound(cfg, Start(cfg, NewBundle, startBlock), startBlock, blocks);
  }

  // ----- completion -----

  lemma {:induction false} SkippedEndBelow(iter: nat, block: nat, size: nat)
    requires size > 0
    ensures forall r :: r in BoundariesToSkip(iter, block, size) ==> r.start - r.start % size + size <= block
    decreases if block > iter then block - iter else 0
  {
    EndBlockIsNextMultiple(iter, size);
    ModuloOfSum(iter, size);
    var end := ComputeEndBlock(iter, size);
    if block >= end {
      SkippedEndBelow(end, block, size);
    }
  }

  /** The boundaries that the final roll opens are not empty either. */
  lemma CompleteOpensNonEmpty(cfg: Config, b: Bundle, startBlock: nat, last: nat)
    requires cfg.size > 0 && Sound(cfg, b, startBlock) && last < cfg.stop
    ensures forall r :: r in Complete(cfg, b, last).started ==> r.start < r.end
  {
    var trigger := last - last % cfg.size + cfg.size;
    if !b.active.value.Contains(trigger) {
      var ranges := BoundariesToSkip(b.active.value.end, trigger, cfg.size);
      SkippedEndBelow(b.active.value.end, trigger, cfg.size);
      SkippedOpenNonEmpty(cfg, Stop(b), ranges, last);
      NewBoundaryIsAligned(trigger, cfg.size, cfg.stop);
    }
  }

  lemma SkippedOpenNonEmpty(cfg: Config, b: Bundle, ranges: seq<Range>, last: nat)
    requires cfg.size > 0 && last < cfg.stop
    requires b.stream == [] && !b.headerWritten && b.active == None && forall r :: r in b.started ==> r.start < r.end
    requires forall r :: r in ranges ==> r.start - r.start % cfg.size <= last
    ensures forall r :: r in SkipAll(cfg, b, ranges).started ==> r.start < r.end
  {
    SkippingLeavesNothing(cfg, b, ranges);
    var started := SkipAll(cfg, b, ranges).started;
    forall i | 0 <= i < |started| ensures started[i].start < started[i].end {
      if i < |b.started| {
        assert started[i] == started[..|b.started|][i] && started[i] in b.started;
      } else {
        assert ranges[i - |b.started|] in ranges;
        assert started[|b.started| + (i - |b.started|)] ==
               NewBoundary(ranges[i - |b.started|].start, cfg.size, cfg.stop);
      }
    }
  }

  /** The final roll goes past the active boundary and hands over its file. */
  lemma CompleteLeavesNothing(cfg: Config, b: Bundle, startBlock: nat, last: nat)
    requires cfg.size > 0 && Sound(cfg, b, startBlock) && b.active.value.start <= last < cfg.stop
    ensures var done := Complete(cfg, b, last);
            && Payload(cfg, done.files) == Held(cfg, b)
            && done.stream == []
            && (forall f :: f in done.files ==> cfg.header <= f.content)
            && FilesAscend(done.files, b.active.value.end)
  {
    FinalRollIsPast(b.active.value, last, cfg.size, cfg.stop);
    RollKeepsHeld(cfg, b, last - last % cfg.size + cfg.size);
    StopKeepsAscending(b);
  }

  lemma FinalRollIsPast(r: Range, last: nat, size: nat, stop: nat)
    requires size > 0 && Cut(r, size, stop) && r.start <= last
    ensures r.end <= last - last % size + size
  {
    SubtractRemainder(last, size);
    if last - last % size < r.start {
      MultiplesApart(last - last % size, r.start, size);
    }
  }

  lemma StopKeepsAscending(b: Bundle)
    requires b.active.Some? && b.active.value.start < b.active.value.end && FilesAscend(b.files, b.active.value.start)
    ensures FilesAscend(Stop(b).files, b.active.value.end)
  {
  }

  /**
   For every nondecreasing sequence of blocks below the stop block, the files handed over by the time of completion,
   in order and each without its one leading header, are exactly the rows produced, in order. No boundary that was
   started is empty, the files' ranges ascend, and nothing is left in an open file.
   */
  lemma FilesHoldAllRows(cfg: Config, startBlock: nat, blocks: seq<TableBlock>, last: nat)
    requires cfg.size > 0 && startBlock < cfg.stop && InOrder(blocks, startBlock, cfg.stop)
    requires startBlock <= last < cfg.stop && forall i :: 0 <= i < |blocks| ==> blocks[i].number <= last
    ensures var b := Handle(cfg, Start(cfg, NewBundle, startBlock), blocks);
            && b.active.Some?
            && var done := Complete(cfg, b, last);
            && (forall f :: f in done.files ==> cfg.header <= f.content)
            && Payload(cfg, done.files) == Concat(RowsOf(blocks))
            && done.stream == []
            && (forall r :: r in done.started ==> r.start < r.end)
            && (forall i, j :: 0 <= i < j < |done.files| ==>
                  done.files[i].range.end <= done.files[j].range.start)
  {
    StartIsSound(cfg, startBlock);
    var b := Handle(cfg, Start(cfg, NewBundle, startBlock), blocks);
    HandleKeepsSound(cfg, Start(cfg, NewBundle, startBlock), startBlock, blocks);
    HandleAddsRows(cfg, Start(cfg, NewBundle, startBlock), startBlock, blocks);
    CompleteLeavesNothing(cfg, b, startBlock, last);
    CompleteOpensNonEmpty(cfg, b, startBlock, last);
  }

  /**
   A block beyond the active boundary has its rows in the file of that boundary, not in the file of its own: rows are
   written before the boundary is rolled.
   */
  lemma LateBlockLandsInEarlierFile(cfg: Config, b: Bundle, startBlock: nat, block: TableBlock)
    requires cfg.size > 0 && Sound(cfg, b, startBlock) && block.hasOutput && block.rows != []
    requires b.active.value.end <= block.number < cfg.stop
    ensures var after := HandleBlock(cfg, b, block);
            && |after.files| == |b.files| + 1
            && after.files[|b.files|].range == b.active.value
            && !after.files[|b.files|].range.Contains(block.number)
            && Body(cfg, after.files[|b.files|].content) ==
               (if b.headerWritten then Body(cfg, b.stream) else []) + Concat(block.rows)
  {
    var w := WriteRows(cfg, b, block.rows);
    RollKeepsHeld(cfg, w, block.number);
    WrittenBody(cfg, b, block.rows);
  }
}
