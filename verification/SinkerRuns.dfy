/** Exactly-once for the sink's objects: any number of processes, each stopped anywhere, over one database server. */
module SinkerRuns {
  import opened Prelude
  import opened Database
  import opened Coalescing
  import opened FlushRefinement
  import opened Blocks
  import opened ExactlyOnce
  import opened RetriedFlush
  import opened Loading
  import opened Sinking

  /** One call of a handler, with how the attempts to flush end. */
  datatype Call =
    | Deliver(isLive: bool, lagging: bool, attempts: seq<Attempt>)
    | Finish(reachedEnd: bool, attempts: seq<Attempt>)

  /** A process: whether the cursor can be read, how writing it ends where there is none, and the calls that follow. */
  datatype Launch = Launch(readable: bool, insert: Attempt, calls: seq<Call>)

  datatype Settings = Settings(
    rowInterval: int, mismatchMode: MismatchMode, retries: nat, retryDelay: nat, batchInterval: Int64,
    liveInterval: Int64)

  /** The stream: each block of the chain with its changes as they arrive. */
  ghost predicate Decodes(schema: Schema, chain: seq<Block>, raw: seq<seq<ProtoChange>>) {
    && |raw| == |chain|
    && forall i :: 0 <= i < |chain| ==>
         chain[i].number < UINT64 && DecodeAll(schema, raw[i]) == Ok(chain[i].changes)
  }

  /** The database is exact with no process running, and its cursor fits a block number. */
  ghost predicate Settled(schema: Schema, chain: seq<Block>, start: Tables, db: Db) {
    Exact(schema, chain, start, System(db, Down)) && CursorFits(db)
  }

  predicate CursorFits(db: Db) {
    db.cursor.Some? && db.cursor.value.At? ==> db.cursor.value.block < UINT64
  }

  lemma {:induction false} TryFlushFits(
    db: Db, ops: seq<Operation>, cursor: Cursor, finalBlock: nat, attempts: seq<Attempt>)
    requires CursorFits(db) && (cursor.At? ==> cursor.block < UINT64)
    ensures CursorFits(TryFlush(db, ops, cursor, finalBlock, attempts).db)
    decreases |attempts|
  {
    if attempts != [] {
      match FlushTransaction(db, ops, cursor, finalBlock)
      case Err(_) => TryFlushFits(db, ops, cursor, finalBlock, attempts[1..]);
      case Ok(next) =>
        TryFlushFits(db, ops, cursor, finalBlock, attempts[1..]);
        TryFlushFits(next, ops, cursor, finalBlock, attempts[1..]);
    }
  }

  /** Whatever blocks are gathered, none of their changes is refused by what is pending before it. */
  ghost predicate AllAccepted(schema: Schema, chain: seq<Block>) {
    forall i, j :: 0 <= i <= j <= |chain| ==> AcceptAll(schema, EmptyState, ChangesOf(chain[i..j])).Ok?
  }

  /** Nothing goes wrong in the database when this call flushes. */
  predicate Quiet(call: Call) {
    call.attempts != [] && call.attempts[0].Commits?
  }

  lemma FlushSucceeds(schema: Schema, chain: seq<Block>, start: Tables, db: Db, to: nat, loaded: LoaderState,
                      ops: seq<Operation>, finalBlock: nat, attempts: seq<Attempt>)
    requires GoodChain(schema, chain, start) && Loaded(schema, chain, start, db, to, loaded)
    requires Lists(ops, loaded.pending) && db.cursor.Some? && attempts != [] && attempts[0].Commits?
    ensures TryFlush(db, ops, At(chain[to - 1].number), finalBlock, attempts).succeeded
  {
    SegmentFlushes(schema, chain, start, Covered(chain, db.cursor), to, db.tables, loaded, ops);
  }

  lemma ReceiptIsLoaded(
    schema: Schema, chain: seq<Block>, start: Tables, db: Db, loaded: LoaderState, flushed: nat, next: nat)
    requires AllAccepted(schema, chain) && next < |chain|
    requires Running(schema, chain, start, db, loaded, flushed, next)
    ensures var accepted := AcceptAll(schema, loaded, ChangesOfBlock(chain[next]));
            accepted.Ok? && Loaded(schema, chain, start, db, next + 1, accepted.value)
  {
    GrowLoaded(schema, chain, flushed, next, loaded);
    assert AcceptAll(schema, EmptyState, ChangesOf(chain[flushed..next + 1])).Ok?;
  }

  lemma ReceiptSucceeds(
    schema: Schema, chain: seq<Block>, start: Tables, db: Db, loaded: LoaderState, flushed: nat, next: nat,
    ops: seq<Operation>, attempts: seq<Attempt>)
    requires GoodChain(schema, chain, start) && AllAccepted(schema, chain) && next < |chain|
    requires Running(schema, chain, start, db, loaded, flushed, next)
    ensures var accepted := AcceptAll(schema, loaded, ChangesOfBlock(chain[next]));
            && accepted.Ok?
            && (Lists(ops, accepted.value.pending) && attempts != [] && attempts[0].Commits? ==>
                  TryFlush(db, ops, At(chain[next].number), chain[next].finalBlock, attempts).succeeded)
  {
    ReceiptIsLoaded(schema, chain, start, db, loaded, flushed, next);
    var accepted := AcceptAll(schema, loaded, ChangesOfBlock(chain[next])).value;
    if Lists(ops, accepted.pending) && attempts != [] && attempts[0].Commits? {
      FlushSucceeds(schema, chain, start, db, next + 1, accepted, ops, chain[next].finalBlock, attempts);
    }
  }

  /** A running sinker that has loaded the blocks of the chain up to `next`. */
  ghost predicate Running(
    schema: Schema, chain: seq<Block>, start: Tables, db: Db, loaded: LoaderState, flushed: nat, next: nat)
  {
    Exact(schema, chain, start, System(db, Up(loaded, flushed, next))) && CursorFits(db)
  }

  /** One block reaches the sinker. */
  method DeliverNext(
    sinker: SQLSinker, chain: seq<Block>, raw: seq<seq<ProtoChange>>, next: nat, call: Call, ghost start: Tables,
    ghost flushed: nat)
    returns (ok: bool, ghost flushedAfter: nat)
    requires sinker.Valid() && sinker.flushRetryCount >= 0 && call.Deliver? && call.attempts != []
    requires GoodChain(sinker.loader.tables, chain, start)
    requires Decodes(sinker.loader.tables, chain, raw) && next < |chain|
    requires Running(sinker.loader.tables, chain, start, sinker.server.db, sinker.loader.State(), flushed, next)
    modifies sinker`lastAppliedBlockNum, sinker.loader, sinker.loader.Repr, sinker.server
    ensures sinker.Valid() && fresh(sinker.loader.Repr - old(sinker.loader.Repr))
    ensures ok ==>
              Running(sinker.loader.tables, chain, start, sinker.server.db, sinker.loader.State(), flushedAfter,
                      next + 1)
    ensures AllAccepted(sinker.loader.tables, chain) && Quiet(call) ==> ok
    ensures Settled(sinker.loader.tables, chain, start, sinker.server.db)
  {
    var block := chain[next];
    ghost var schema, db, before := sinker.loader.tables, sinker.server.db, sinker.loader.State();
    var r, flush, ops, used := sinker.HandleBlockScopedData(
      raw[next], block.number, block.finalBlock, call.isLive, call.lagging, call.attempts);
    ok := r.Ok?;
    flushedAfter := if flush then next + 1 else flushed;
    LoadIsAcceptAll(schema, before, raw[next], block.number, block.finalBlock);
    if AllAccepted(schema, chain) {
      ReceiptSucceeds(schema, chain, start, db, before, flushed, next, ops, call.attempts[..used]);
    }
    ghost var after := System(sinker.server.db, if ok then Up(sinker.loader.State(), flushedAfter, next + 1) else Down);
    HandledIsReceived(schema, chain, flushed, next, db, before, raw[next], block.number, block.finalBlock, flush, ops,
                      call.attempts[..used], r, sinker.server.db, sinker.loader.State());
    MoveKeepsExact(schema, chain, start, System(db, Up(before, flushed, next)),
                   Receive(flush, ops, call.attempts[..used]), after);
    TryFlushFits(db, ops, At(block.number), block.finalBlock, call.attempts[..used]);
  }

  /** The range may end. */
  method FinishRange(
    sinker: SQLSinker, chain: seq<Block>, next: nat, call: Call, ghost start: Tables, ghost flushed: nat)
    returns (ok: bool, ghost flushedAfter: nat)
    requires sinker.Valid() && sinker.flushRetryCount >= 0 && call.Finish? && call.attempts != []
    requires GoodChain(sinker.loader.tables, chain, start) && 0 < next <= |chain| && chain[next - 1].number < UINT64
    requires Running(sinker.loader.tables, chain, start, sinker.server.db, sinker.loader.State(), flushed, next)
    modifies sinker.loader, sinker.server
    ensures sinker.Valid() && fresh(sinker.loader.Repr - old(sinker.loader.Repr))
    ensures ok ==>
              Running(sinker.loader.tables, chain, start, sinker.server.db, sinker.loader.State(), flushedAfter, next)
    ensures Quiet(call) ==> ok
    ensures ok && call.reachedEnd ==> flushedAfter == next
    ensures Settled(sinker.loader.tables, chain, start, sinker.server.db)
  {
    var last := chain[next - 1].number;
    ghost var schema, db, before := sinker.loader.tables, sinker.server.db, sinker.loader.State();
    var r, ops, used := sinker.HandleBlockRangeCompletion(last, call.reachedEnd, call.attempts);
    ok := r.Ok?;
    flushedAfter := if call.reachedEnd then next else flushed;
    if call.reachedEnd {
      ghost var after := System(sinker.server.db, if ok then Up(sinker.loader.State(), next, next) else Down);
      if Quiet(call) {
        FlushSucceeds(schema, chain, start, db, next, before, ops, last, call.attempts[..used]);
      }
      CompletedIsComplete(schema, chain, flushed, next, db, before, ops, call.attempts[..used], ok, sinker.server.db,
                          sinker.loader.State());
      MoveKeepsExact(schema, chain, start, System(db, Up(before, flushed, next)),
                     Complete(ops, call.attempts[..used]), after);
      TryFlushFits(db, ops, At(last), last, call.attempts[..used]);
    }
  }

  /** A sinker that flushes at least once when it is asked to. */
  ghost predicate Ready(sinker: SQLSinker)
    reads sinker, sinker.loader, sinker.loader.Repr
  {
    sinker.Valid() && sinker.flushRetryCount >= 0
  }

  /** A process starts from the committed cursor, or fails to. */
  method StartProcess(
    schema: Schema, server: Server, settings: Settings, chain: seq<Block>, launch: Launch, ghost start: Tables)
    returns (ok: bool, sinker: SQLSinker, next: nat)
    requires GoodChain(schema, chain, start) && Settled(schema, chain, start, server.db) && server.others == map[]
    modifies server
    ensures Ready(sinker) && sinker.server == server && sinker.loader.tables == schema
    ensures fresh(sinker) && fresh(sinker.loader) && fresh(sinker.loader.Repr)
    ensures Settled(schema, chain, start, server.db)
    ensures ok ==> Running(schema, chain, start, server.db, sinker.loader.State(), next, next)
    ensures launch.readable && launch.insert.Commits? ==> ok
    ensures ok ==> next == Covered(chain, old(server.db).cursor)
  {
    ghost var db := server.db;
    var loader := new Loader(schema, settings.rowInterval, settings.mismatchMode);
    sinker := new SQLSinker(loader, server, settings.retries, settings.retryDelay, settings.batchInterval,
                            settings.liveInterval);
    var started := sinker.Start(launch.readable, launch.insert);
    ok := started.Ok?;
    ghost var cursor := if db.cursor.Some? then db.cursor.value else Blank;
    next := if ok then Covered(chain, Some(started.value)) else 0;
    ghost var n := Covered(chain, Some(cursor));
    if server.db == db.(cursor := Some(cursor)) {
      StartedIsStart(schema, chain, db, cursor, server.db);
      MoveKeepsExact(schema, chain, start, System(db, Down), Start, System(server.db, Up(EmptyState, n, n)));
    }
  }

  /** One call: the next block, or the end of the range, if there is one to speak of. */
  method HandleCall(
    sinker: SQLSinker, chain: seq<Block>, raw: seq<seq<ProtoChange>>, next: nat, call: Call, ghost start: Tables,
    ghost flushed: nat)
    returns (ok: bool, nextAfter: nat, ghost flushedAfter: nat)
    requires Ready(sinker) && call.attempts != []
    requires GoodChain(sinker.loader.tables, chain, start)
    requires Decodes(sinker.loader.tables, chain, raw) && next <= |chain|
    requires Running(sinker.loader.tables, chain, start, sinker.server.db, sinker.loader.State(), flushed, next)
    modifies sinker`lastAppliedBlockNum, sinker.loader, sinker.loader.Repr, sinker.server
    ensures Ready(sinker) && fresh(sinker.loader.Repr - old(sinker.loader.Repr)) && nextAfter <= |chain|
    ensures ok ==> Running(sinker.loader.tables, chain, start, sinker.server.db, sinker.loader.State(), flushedAfter,
                           nextAfter)
    ensures AllAccepted(sinker.loader.tables, chain) && Quiet(call) ==> ok
    ensures nextAfter == if call.Deliver? && next < |chain| then next + 1 else next
    ensures ok && call.Finish? && call.reachedEnd && next > 0 ==> flushedAfter == next
    ensures Settled(sinker.loader.tables, chain, start, sinker.server.db)
  {
    ok, nextAfter, flushedAfter := true, next, flushed;
    if call.Deliver? && next < |chain| {
      ok, flushedAfter := DeliverNext(sinker, chain, raw, next, call, start, flushed);
      nextAfter := next + 1;
    } else if call.Finish? && 0 < next {
      ok, flushedAfter := FinishRange(sinker, chain, next, call, start, flushed);
    }
  }

  /** How far the calls lead along the chain. */
  function Reached(next: nat, calls: seq<Call>, length: nat): nat
    decreases |calls|
  {
    if calls == [] then next
    else
      var before := Reached(next, calls[..|calls| - 1], length);
      if calls[|calls| - 1].Deliver? && before < length then before + 1 else before
  }

  /** The last of these calls is that of the end of the range. */
  predicate AtEnd(calls: seq<Call>) {
    calls != [] && calls[|calls| - 1].Finish? && calls[|calls| - 1].reachedEnd
  }

  lemma ReachedNext(first: nat, calls: seq<Call>, i: nat, length: nat)
    requires i < |calls|
    ensures var before := Reached(first, calls[..i], length);
            Reached(first, calls[..i + 1], length) ==
            if calls[i].Deliver? && before < length then before + 1 else before
  {
    assert calls[..i + 1][..i] == calls[..i];
  }

  /** The calls, until one fails. */
  method HandleCalls(
    sinker: SQLSinker, chain: seq<Block>, raw: seq<seq<ProtoChange>>, first: nat, calls: seq<Call>, ghost start: Tables)
    returns (handled: nat, next: nat)
    requires Ready(sinker) && forall c :: c in calls ==> c.attempts != []
    requires GoodChain(sinker.loader.tables, chain, start)
    requires Decodes(sinker.loader.tables, chain, raw) && first <= |chain|
    requires Running(sinker.loader.tables, chain, start, sinker.server.db, sinker.loader.State(), first, first)
    modifies sinker`lastAppliedBlockNum, sinker.loader, sinker.loader.Repr, sinker.server
    ensures Settled(sinker.loader.tables, chain, start, sinker.server.db)
    ensures handled <= |calls| && next == Reached(first, calls[..handled], |chain|) <= |chain|
    ensures AllAccepted(sinker.loader.tables, chain) && (forall c :: c in calls ==> Quiet(c)) ==> handled == |calls|
    ensures handled == |calls| && AtEnd(calls) && next > 0 ==> Covered(chain, sinker.server.db.cursor) == next
  {
    handled, next := 0, first;
    ghost var flushed: nat := first;
    var ok: bool;
    while handled < |calls|
      invariant handled <= |calls| && next == Reached(first, calls[..handled], |chain|) <= |chain|
      invariant Ready(sinker) && fresh(sinker.loader.Repr - old(sinker.loader.Repr))
      invariant Running(sinker.loader.tables, chain, start, sinker.server.db, sinker.loader.State(), flushed, next)
      invariant AtEnd(calls[..handled]) && next > 0 ==> flushed == next
    {
      ReachedNext(first, calls, handled, |chain|);
      assert calls[..handled + 1][handled] == calls[handled];
      var after: nat;
      ok, after, flushed := HandleCall(sinker, chain, raw, next, calls[handled], start, flushed);
      if !ok {
        return;
      }
      handled, next := handled + 1, after;
    }
    assert calls[..|calls|] == calls;
  }

  /** No call of the process fails. */
  ghost predicate Smooth(schema: Schema, chain: seq<Block>, launch: Launch) {
    && AllAccepted(schema, chain) && launch.readable && launch.insert.Commits?
    && forall c :: c in launch.calls ==> Quiet(c)
  }

  /**
   One process handles calls until one fails or it is stopped. If nothing goes wrong it handles all of them, and a last
   call at the end of the range leaves no block behind.
   */
  method RunProcess(
    schema: Schema, server: Server, settings: Settings, chain: seq<Block>, raw: seq<seq<ProtoChange>>, launch: Launch,
    ghost start: Tables)
    returns (handled: nat, next: nat)
    requires GoodChain(schema, chain, start) && Decodes(schema, chain, raw)
    requires forall c :: c in launch.calls ==> c.attempts != []
    requires Settled(schema, chain, start, server.db) && server.others == map[]
    modifies server
    ensures Settled(schema, chain, start, server.db)
    ensures handled <= |launch.calls|
    ensures Smooth(schema, chain, launch) ==>
              && handled == |launch.calls|
              && next == Reached(Covered(chain, old(server.db).cursor), launch.calls, |chain|)
              && (AtEnd(launch.calls) && next > 0 ==> Covered(chain, server.db.cursor) == next)
  {
    handled, next := 0, 0;
    var ok, sinker, first := StartProcess(schema, server, settings, chain, launch, start);
    if ok {
      handled, next := HandleCalls(sinker, chain, raw, first, launch.calls, start);
    }
    assert launch.calls[..|launch.calls|] == launch.calls;
  }

  /**
   However many processes there were, whatever failed in them and wherever they were stopped, the committed tables are
   what exactly the blocks up to the committed cursor leave.
   */
  method RunProcesses(
    schema: Schema, server: Server, settings: Settings, chain: seq<Block>, raw: seq<seq<ProtoChange>>,
    processes: seq<Launch>, ghost start: Tables)
    requires GoodChain(schema, chain, start) && Decodes(schema, chain, raw)
    requires forall p, c :: p in processes && c in p.calls ==> c.attempts != []
    requires server.db.tables == start && server.db.cursor.None? && server.others == map[]
    modifies server
    ensures ApplyChanges(schema, start, ChangesOf(chain[..Covered(chain, server.db.cursor)])) == Ok(server.db.tables)
  {
    StartIsExact(schema, chain, start, System(server.db, Down));
    for i := 0 to |processes|
      invariant Settled(schema, chain, start, server.db)
    {
      assert processes[i] in processes;
      var handled, next := RunProcess(schema, server, settings, chain, raw, processes[i], start);
    }
  }
}
