/** The bundler object of `db_changes/bundler` over its boundary writer, and the handlers that feed it one table. */
module BundlerObject {
  import opened Prelude
  import opened BufferedWriting
  import opened Boundaries
  import opened Bundling

  /** A closed file in the upload queue. */
  datatype BoundaryFile = BoundaryFile(range: Range, file: Uploadable)

  class Bundler {
    const config: Config
    const boundaryWriter: BufferedIO
    var HeaderWritten: bool
    var activeBoundary: Option<Range>
    var uploadQueue: seq<BoundaryFile>
    ghost var started: seq<Range>
    ghost var files: seq<File>
    ghost var Queued: set<object>

    /** What the queued files would upload is out of the writer's reach. */
    ghost predicate QueueSettled()
      reads this, Queued
    {
      && |files| == |uploadQueue|
      && forall i :: 0 <= i < |files| ==>
           && uploadQueue[i].file.Valid() && uploadQueue[i].file.Objects() <= Queued
           && files[i] == File(uploadQueue[i].range, uploadQueue[i].file.Upload())
    }

    ghost predicate Valid()
      reads this, Queued, boundaryWriter, boundaryWriter.Repr
    {
      && config.size > 0
      && boundaryWriter.Valid() && boundaryWriter as object != this
      && this !in boundaryWriter.Repr && this !in Queued && boundaryWriter !in Queued
      && Queued !! boundaryWriter.Repr
      && QueueSettled()
      && (activeBoundary.Some? <==> boundaryWriter.activeFile != null)
    }

    ghost function State(): Bundle
      reads this, boundaryWriter, boundaryWriter.activeFile
    {
      Bundle(activeBoundary, boundaryWriter.Stream(), boundaryWriter.written, HeaderWritten, files, started)
    }

    ghost function Footprint(): set<object>
      reads this, boundaryWriter
    {
      {this, boundaryWriter} + boundaryWriter.Repr
    }

    constructor (config: Config, boundaryWriter: BufferedIO)
      requires config.size > 0 && boundaryWriter.Valid() && boundaryWriter.activeFile == null && !boundaryWriter.written
      ensures Valid() && State() == NewBundle && this.config == config && this.boundaryWriter == boundaryWriter
    {
      this.config, this.boundaryWriter := config, boundaryWriter;
      HeaderWritten, activeBoundary, uploadQueue := false, None, [];
      started, files, Queued := [], [], {};
    }

    /** Opens the boundary of a block; a boundary that is still open is an error of the writer. */
    method Start(blockNum: nat) returns (r: Result<()>)
      requires Valid() && activeBoundary.None?
      modifies this`activeBoundary, this`started, boundaryWriter
      ensures Valid() && r == Ok(()) && fresh(boundaryWriter.Repr)
      ensures State() == Bundling.Start(config, old(State()), blockNum)
    {
      var range := NewBoundary(blockNum, config.size, config.stop);
      activeBoundary := Some(range);
      started := started + [range];
      r := boundaryWriter.StartBoundary();
    }

    /** Closes the active boundary and queues its file if anything was written. */
    method Stop() returns (r: Result<()>)
      requires Valid() && activeBoundary.Some?
      modifies Footprint()
      ensures Valid() && r == Ok(()) && activeBoundary.None?
      ensures State() == Bundling.Stop(old(State())) && Queued <= old(Queued) + old(boundaryWriter.Repr)
    {
      ghost var stream := boundaryWriter.Stream();
      ghost var objects := boundaryWriter.Repr;
      var file := boundaryWriter.CloseBoundary();
      assert QueueSettled();
      if boundaryWriter.IsWritten() {
        uploadQueue := uploadQueue + [BoundaryFile(activeBoundary.value, file.value)];
        files := files + [File(activeBoundary.value, stream)];
        Queued := Queued + objects;
      }
      HeaderWritten := false;
      activeBoundary := None;
      r := Ok(());
    }

    /** Moves on to the boundary of a block, going through the boundaries in between. */
    method Roll(blockNum: nat) returns (r: Result<bool>)
      requires Valid() && activeBoundary.Some?
      modifies Footprint()
      ensures Valid() && fresh(boundaryWriter.Repr - old(boundaryWriter.Repr))
      ensures State() == Bundling.Roll(config, old(State()), blockNum)
      ensures r == if old(activeBoundary).value.Contains(blockNum) then Ok(false)
                   else if blockNum >= config.stop then Err(StopBlockReached) else Ok(true)
    {
      if activeBoundary.value.Contains(blockNum) {
        return Ok(false);
      }
      var boundaries := CollectBoundariesToSkip(activeBoundary.value, blockNum, config.size);
      var done := Stop();
      ghost var stopped := State();
      for i := 0 to |boundaries|
        invariant Valid() && activeBoundary.None?
        invariant SkipAll(config, State(), boundaries[i..]) == SkipAll(config, stopped, boundaries)
      {
        assert boundaries[i..][0] == boundaries[i] && boundaries[i..][1..] == boundaries[i + 1..];
        done := Start(boundaries[i].start);
        done := Stop();
      }
      assert boundaries[|boundaries|..] == [];
      if blockNum >= config.stop {
        return Err(StopBlockReached);
      }
      done := Start(blockNum);
      r := Ok(true);
    }

    /** Writes through the bundler's writer into the active file. */
    method Write(data: Bytes)
      requires Valid() && activeBoundary.Some?
      modifies boundaryWriter`written, boundaryWriter.Repr
      ensures Valid() && boundaryWriter.Repr == old(boundaryWriter.Repr)
      ensures State() == old(State()).(stream := old(State()).stream + data, written := true)
    {
      assert boundaryWriter.activeFile in boundaryWriter.Repr;
      var r := boundaryWriter.Write(data);
      assert QueueSettled();
    }
  }

  method WriteEach(b: Bundler, rows: seq<Bytes>)
    requires b.Valid() && b.activeBoundary.Some?
    modifies b.boundaryWriter`written, b.boundaryWriter.Repr
    ensures b.Valid() && b.boundaryWriter.Repr == old(b.boundaryWriter.Repr)
    ensures var s := old(b.State());
            b.State() == s.(stream := s.stream + Concat(rows), written := rows != [] || s.written)
  {
    ghost var before := b.State();
    assert before.stream + [] == before.stream;
    for i := 0 to |rows|
      invariant b.Valid() && b.activeBoundary.Some? && b.boundaryWriter.Repr == old(b.boundaryWriter.Repr)
      invariant b.State() == before.(stream := before.stream + Concat(rows[..i]), written := i > 0 || before.written)
    {
      b.Write(rows[i]);
      ConcatNext(rows, i);
      Associative(before.stream, Concat(rows[..i]), rows[i]);
    }
    assert rows[..|rows|] == rows;
  }

  lemma ConcatNext(rows: seq<Bytes>, i: nat)
    requires i < |rows|
    ensures Concat(rows[..i + 1]) == Concat(rows[..i]) + rows[i]
  {
    assert rows[..i + 1] == rows[..i] + [rows[i]];
    ConcatAppend(rows[..i], [rows[i]]);
    assert Concat([rows[i]]) == rows[i];
  }

  /** The rows that a block has for one table: a header when the file has none yet, then the rows. */
  method WriteTableRows(b: Bundler, rows: seq<Bytes>)
    requires b.Valid() && b.activeBoundary.Some?
    modifies b.Footprint()
    ensures b.Valid() && b.boundaryWriter.Repr == old(b.boundaryWriter.Repr)
    ensures b.State() == WriteRows(b.config, old(b.State()), rows)
  {
    if rows == [] {
      return;
    }
    if !b.HeaderWritten {
      b.Write(b.config.header);
      b.HeaderWritten := true;
    }
    WriteEach(b, rows);
  }

  /** The handler of a block, for one table. */
  method HandleBlockScopedData(b: Bundler, block: TableBlock) returns (r: Result<bool>)
    requires b.Valid() && b.activeBoundary.Some?
    modifies b.Footprint()
    ensures r == if !block.hasOutput || old(b.activeBoundary).value.Contains(block.number) then Ok(false)
                 else if block.number >= b.config.stop then Err(StopBlockReached) else Ok(true)
    ensures b.Valid() && fresh(b.boundaryWriter.Repr - old(b.boundaryWriter.Repr))
    ensures b.State() == HandleBlock(b.config, old(b.State()), block)
  {
    if !block.hasOutput {
      return Ok(false);
    }
    WriteTableRows(b, block.rows);
    r := b.Roll(block.number);
  }

  /** The handler of the end of the range, for one table. */
  method HandleBlockRangeCompletion(b: Bundler, last: nat) returns (r: Result<bool>)
    requires b.Valid() && b.activeBoundary.Some?
    modifies b.Footprint()
    ensures b.Valid() && fresh(b.boundaryWriter.Repr - old(b.boundaryWriter.Repr))
    ensures b.State() == Complete(b.config, old(b.State()), last)
  {
    r := b.Roll(last - last % b.config.size + b.config.size);
  }

  lemma NextHandled(cfg: Config, s: Bundle, startBlock: nat, blocks: seq<TableBlock>, i: nat)
    requires i < |blocks| && cfg.size > 0 && Sound(cfg, s, startBlock)
    requires InOrder(blocks[i..], s.active.value.start, cfg.stop)
    ensures var next := HandleBlock(cfg, s, blocks[i]);
            && Sound(cfg, next, startBlock) && InOrder(blocks[i + 1..], next.active.value.start, cfg.stop)
            && Handle(cfg, next, blocks[i + 1..]) == Handle(cfg, s, blocks[i..])
  {
    assert blocks[i..][0] == blocks[i] && blocks[i..][1..] == blocks[i + 1..];
    HandleBlockKeepsSound(cfg, s, startBlock, blocks[i]);
    InOrderTail(blocks[i..], s.active.value.start, cfg.stop, HandleBlock(cfg, s, blocks[i]).active.value.start);
  }

  /** The blocks of an export, one after the other. */
  method HandleBlocks(b: Bundler, ghost startBlock: nat, blocks: seq<TableBlock>)
    requires b.Valid() && Sound(b.config, b.State(), startBlock)
    requires InOrder(blocks, b.State().active.value.start, b.config.stop)
    modifies b.Footprint()
    ensures b.Valid() && fresh(b.boundaryWriter.Repr - old(b.boundaryWriter.Repr))
    ensures b.State() == Handle(b.config, old(b.State()), blocks)
  {
    ghost var first := b.State();
    for i := 0 to |blocks|
      invariant b.Valid() && fresh(b.boundaryWriter.Repr - old(b.boundaryWriter.Repr))
      invariant Sound(b.config, b.State(), startBlock)
      invariant InOrder(blocks[i..], b.State().active.value.start, b.config.stop)
      invariant Handle(b.config, b.State(), blocks[i..]) == Handle(b.config, first, blocks)
    {
      NextHandled(b.config, b.State(), startBlock, blocks, i);
      var handled := HandleBlockScopedData(b, blocks[i]);
    }
  }

  /**
   A whole export of one table. What the queued files upload afterwards, in order and each without its header, is the
   concatenation of the rows of all blocks.
   */
  method Export(config: Config, bufferMaxSize: nat, startBlock: nat, blocks: seq<TableBlock>, last: nat)
    returns (b: Bundler)
    requires config.size > 0 && startBlock < config.stop && InOrder(blocks, startBlock, config.stop)
    requires startBlock <= last < config.stop && forall i :: 0 <= i < |blocks| ==> blocks[i].number <= last
    requires bufferMaxSize < 0x1_0000_0000_0000_0000
    ensures b.Valid() && b.config == config
    ensures Payload(config, b.files) == Concat(RowsOf(blocks))
    ensures forall i :: 0 <= i < |b.files| ==>
              config.header <= b.files[i].content && b.uploadQueue[i].file.Upload() == b.files[i].content
  {
    var writer := new BufferedIO(bufferMaxSize);
    b := new Bundler(config, writer);
    var started := b.Start(startBlock);
    StartIsSound(config, startBlock);
    FilesHoldAllRows(config, startBlock, blocks, last);
    HandleBlocks(b, startBlock, blocks);
    var completed := HandleBlockRangeCompletion(b, last);
    assert forall i :: 0 <= i < |b.files| ==> b.files[i] in b.files;
  }
}
