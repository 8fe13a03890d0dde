/**
 The sink as a protocol: blocks are loaded, flushes are tried, tried again and fail, the process dies and starts again
 from the cursor. Without undo signals the committed tables are, in every reachable state, the fold of exactly the
 blocks up to the committed cursor.
 */
module ExactlyOnce {
  import opened Prelude
  import opened Database
  import opened Coalescing
  import opened FlushRefinement
  import opened Blocks
  import opened RetriedFlush
  import opened RepeatedFlush

  /** A running sink has loaded the blocks from index `flushed` up to index `next` of the chain. */
  datatype Process = Down | Up(loaded: LoaderState, flushed: nat, next: nat)

  datatype System = System(db: Db, process: Process)

  datatype Move =
    | Crash
    | Start
    | Receive(flush: bool, ops: seq<Operation>, attempts: seq<Attempt>)
    | Complete(ops: seq<Operation>, attempts: seq<Attempt>)

  function CountUpTo(chain: seq<Block>, number: nat): (n: nat)
    ensures n <= |chain|
  {
    if chain == [] then 0
    else (if chain[0].number <= number then 1 else 0) + CountUpTo(chain[1..], number)
  }

  /** How many blocks of the chain the cursor covers. */
  function Covered(chain: seq<Block>, cursor: Option<Cursor>): (n: nat)
    ensures n <= |chain|
  {
    match cursor
    case None => 0
    case Some(Blank) => 0
    case Some(At(number)) => CountUpTo(chain, number)
  }

  ghost predicate Moves(schema: Schema, chain: seq<Block>, s: System, m: Move, next: System) {
    match m
    case Crash => next == s.(process := Down)
    case Start =>
      var cursor := if s.db.cursor.Some? then s.db.cursor.value else Blank;
      && s.process.Down?
      && next == System(s.db.(cursor := Some(cursor)),
                        Up(EmptyState, Covered(chain, Some(cursor)), Covered(chain, Some(cursor))))
    case Complete(ops, attempts) =>
      && s.process.Up? && 0 < s.process.next <= |chain|
      && Lists(ops, s.process.loaded.pending)
      && var last := chain[s.process.next - 1].number;
         var outcome := TryFlush(s.db, ops, At(last), last, attempts);
         next == System(outcome.db, if outcome.succeeded then Up(EmptyState, s.process.next, s.process.next) else Down)
    case Receive(flush, ops, attempts) =>
      && s.process.Up? && s.process.next < |chain|
      && var block := chain[s.process.next];
         match AcceptAll(schema, s.process.loaded, ChangesOfBlock(block))
         case Err(_) => next == s.(process := Down)
         case Ok(loaded) =>
           if !flush then next == s.(process := Up(loaded, s.process.flushed, s.process.next + 1))
           else
             var outcome := TryFlush(s.db, ops, At(block.number), block.finalBlock, attempts);
             && Lists(ops, loaded.pending)
             && next == System(outcome.db, if outcome.succeeded
                                           then Up(EmptyState, s.process.next + 1, s.process.next + 1) else Down)
  }

  // ----- premises and invariant -----

  /** Of the blocks from `i` to `j`, as one batch, every upsert that is pending at the end is whole. */
  ghost predicate BatchEndsWhole(schema: Schema, chain: seq<Block>, start: Tables, i: nat, j: nat)
    requires i <= j <= |chain|
  {
    var before := ApplyChanges(schema, start, ChangesOf(chain[..i]));
    before.Ok? ==> UpsertsEndWhole(schema, before.value, ChangesOf(chain[i..j]))
  }

  /** The chain's changes apply one at a time and keep the loader's premises, wherever batches begin and end. */
  ghost predicate GoodChain(schema: Schema, chain: seq<Block>, start: Tables) {
    && ValidSchema(schema) && WellKeyed(start)
    && (forall i, j :: 0 <= i < j < |chain| ==> chain[i].number < chain[j].number)
    && (forall c :: c in ChangesOf(chain) ==> KeepsKey(schema, c))
    && ApplyChanges(schema, start, ChangesOf(chain)).Ok?
    && (forall i, j :: 0 <= i <= j <= |chain| ==> BatchEndsWhole(schema, chain, start, i, j))
  }

  /** The tables hold exactly the changes of the first `n` blocks. */
  ghost predicate HoldsBlocks(schema: Schema, chain: seq<Block>, start: Tables, n: nat, tables: Tables)
    requires n <= |chain|
  {
    ApplyChanges(schema, start, ChangesOf(chain[..n])) == Ok(tables)
  }

  ghost predicate Exact(schema: Schema, chain: seq<Block>, start: Tables, s: System) {
    && HoldsBlocks(schema, chain, start, Covered(chain, s.db.cursor), s.db.tables)
    && (s.process.Up? ==>
          && s.db.cursor.Some?
          && s.process.flushed == Covered(chain, s.db.cursor) <= s.process.next <= |chain|
          && AcceptAll(schema, EmptyState, ChangesOf(chain[s.process.flushed..s.process.next])) ==
             Ok(s.process.loaded))
  }

  // ----- a flush that is tried again -----

  lemma {:induction false} SuccessIsApplied(
    db: Db, ops: seq<Operation>, cursor: Cursor, finalBlock: nat, attempts: seq<Attempt>)
    ensures TryFlush(db, ops, cursor, finalBlock, attempts).succeeded ==>
              TimesApplied(db, ops, cursor, finalBlock, attempts) > 0
    decreases |attempts|
  {
    if attempts != [] && (FlushTransaction(db, ops, cursor, finalBlock).Err? || attempts[0].Fails?) {
      SuccessIsApplied(db, ops, cursor, finalBlock, attempts[1..]);
    }
  }

  /** Whatever the attempts, tables and cursor are as before or as after one flush, and success means after it. */
  lemma TryFlushOnce(
    db: Db, ops: seq<Operation>, cursor: Cursor, finalBlock: nat, attempts: seq<Attempt>, after: Tables)
    requires ExecuteAll(db.tables, ops) == Ok(after)
    requires ExecuteAll(after, ops).Ok? ==> ExecuteAll(after, ops) == Ok(after)
    ensures var o := TryFlush(db, ops, cursor, finalBlock, attempts);
            || (!o.succeeded && o.db == db)
            || (o.db.tables == after && o.db.cursor == Some(cursor))
  {
    AppliedTimes(db, ops, cursor, finalBlock, attempts, after);
    SuccessIsApplied(db, ops, cursor, finalBlock, attempts);
  }

  // ----- chain arithmetic -----

  lemma {:induction false} CountAscending(chain: seq<Block>, i: nat)
    requires forall j, k :: 0 <= j < k < |chain| ==> chain[j].number < chain[k].number
    requires i < |chain|
    ensures CountUpTo(chain, chain[i].number) == i + 1
  {
    if i > 0 {
      CountAscending(chain[1..], i - 1);
      assert chain[0].number < chain[i].number;
    } else {
      CountNone(chain[1..], chain[0].number);
    }
  }

  lemma {:induction false} CountNone(chain: seq<Block>, number: nat)
    requires forall b :: b in chain ==> b.number > number
    ensures CountUpTo(chain, number) == 0
  {
    if chain != [] {
      assert chain[0] in chain;
      CountNone(chain[1..], number);
    }
  }

  lemma {:induction false} AcceptAllAppend(schema: Schema, state: LoaderState, a: seq<Change>, b: seq<Change>)
    requires AcceptAll(schema, state, a).Ok?
    ensures AcceptAll(schema, state, a + b) == AcceptAll(schema, AcceptAll(schema, state, a).value, b)
    decreases |a|
  {
    if a == [] {
      assert a + b == b;
    } else {
      assert (a + b)[0] == a[0] && (a + b)[1..] == a[1..] + b;
      AcceptAllAppend(schema, Accept(schema, state, a[0]).value, a[1..], b);
    }
  }

  lemma GrowLoaded(schema: Schema, chain: seq<Block>, from: nat, next: nat, loaded: LoaderState)
    requires from <= next < |chain|
    requires AcceptAll(schema, EmptyState, ChangesOf(chain[from..next])) == Ok(loaded)
    ensures AcceptAll(schema, EmptyState, ChangesOf(chain[from..next + 1])) ==
            AcceptAll(schema, loaded, ChangesOfBlock(chain[next]))
  {
    assert chain[from..next + 1] == chain[from..next] + [chain[next]];
    ChangesAppend(chain[from..next], [chain[next]]);
    OneBlock(chain[next]);
    AcceptAllAppend(schema, EmptyState, ChangesOf(chain[from..next]), ChangesOfBlock(chain[next]));
  }

  /** The blocks from `i` to `j` apply to the tables that hold the blocks before `i`. */
  lemma SegmentApplies(schema: Schema, chain: seq<Block>, start: Tables, i: nat, j: nat, tables: Tables)
    requires GoodChain(schema, chain, start) && i <= j <= |chain| && HoldsBlocks(schema, chain, start, i, tables)
    ensures ApplyChanges(schema, tables, ChangesOf(chain[i..j])).Ok?
    ensures HoldsBlocks(schema, chain, start, j, ApplyChanges(schema, tables, ChangesOf(chain[i..j])).value)
    ensures forall c :: c in ChangesOf(chain[i..j]) ==> KeepsKey(schema, c)
  {
    SegmentOf(chain, i, j);
    ApplyChangesAppend(schema, start, ChangesOf(chain[..i]), ChangesOf(chain[i..j]));
    ApplyChangesAppend(schema, start, ChangesOf(chain[..j]), ChangesOf(chain[j..]));
    var before, segment, after := ChangesOf(chain[..i]), ChangesOf(chain[i..j]), ChangesOf(chain[j..]);
    forall c | c in segment ensures KeepsKey(schema, c) {
      assert c in before + segment && c in before + segment + after;
    }
  }

  lemma SegmentOf(chain: seq<Block>, i: nat, j: nat)
    requires i <= j <= |chain|
    ensures ChangesOf(chain[..j]) == ChangesOf(chain[..i]) + ChangesOf(chain[i..j])
    ensures ChangesOf(chain) == ChangesOf(chain[..j]) + ChangesOf(chain[j..])
  {
    SplitAt(chain, i, j);
    ChangesAppend(chain[..i], chain[i..j]);
    ChangesAppend(chain[..j], chain[j..]);
  }

  lemma HeldIsKeyed(schema: Schema, chain: seq<Block>, start: Tables, n: nat, tables: Tables)
    requires GoodChain(schema, chain, start) && n <= |chain| && HoldsBlocks(schema, chain, start, n, tables)
    ensures WellKeyed(tables)
  {
    assert chain == chain[..n] + chain[n..];
    ChangesAppend(chain[..n], chain[n..]);
    AppliedStaysKeyed(schema, start, ChangesOf(chain[..n]));
  }

  // ----- main result -----

  /** Executing the batch leads from the blocks before it past the blocks in it; executing it again, nowhere else. */
  lemma SegmentFlushes(schema: Schema, chain: seq<Block>, start: Tables, i: nat, j: nat, tables: Tables,
                       loaded: LoaderState, ops: seq<Operation>)
    requires GoodChain(schema, chain, start) && i <= j <= |chain| && HoldsBlocks(schema, chain, start, i, tables)
    requires AcceptAll(schema, EmptyState, ChangesOf(chain[i..j])) == Ok(loaded) && Lists(ops, loaded.pending)
    ensures var after := ApplyChanges(schema, tables, ChangesOf(chain[i..j]));
            && after.Ok? && HoldsBlocks(schema, chain, start, j, after.value)
            && ExecuteAll(tables, ops) == after
            && (ExecuteAll(after.value, ops).Ok? ==> ExecuteAll(after.value, ops) == after)
  {
    SegmentApplies(schema, chain, start, i, j, tables);
    HeldIsKeyed(schema, chain, start, i, tables);
    assert BatchEndsWhole(schema, chain, start, i, j);
    FlushEqualsOneAtATime(schema, tables, ChangesOf(chain[i..j]), ops);
    ListingIsDistinct(ops, loaded.pending);
    ReplayIsHarmless(tables, ops, ApplyChanges(schema, tables, ChangesOf(chain[i..j])).value);
  }

  /** The blocks from the cursor up to `to` are loaded. */
  ghost predicate Loaded(schema: Schema, chain: seq<Block>, start: Tables, db: Db, to: nat, loaded: LoaderState) {
    var from := Covered(chain, db.cursor);
    && from <= to <= |chain| && 0 < to && HoldsBlocks(schema, chain, start, from, db.tables)
    && AcceptAll(schema, EmptyState, ChangesOf(chain[from..to])) == Ok(loaded)
  }

  lemma SegmentTried(schema: Schema, chain: seq<Block>, start: Tables, db: Db, to: nat, loaded: LoaderState,
                     ops: seq<Operation>, cursor: Cursor, finalBlock: nat, attempts: seq<Attempt>)
    requires GoodChain(schema, chain, start) && Loaded(schema, chain, start, db, to, loaded)
    requires Lists(ops, loaded.pending)
    ensures var o := TryFlush(db, ops, cursor, finalBlock, attempts);
            || (!o.succeeded && o.db == db)
            || (HoldsBlocks(schema, chain, start, to, o.db.tables) && o.db.cursor == Some(cursor))
  {
    var from := Covered(chain, db.cursor);
    SegmentFlushes(schema, chain, start, from, to, db.tables, loaded, ops);
    TryFlushOnce(db, ops, cursor, finalBlock, attempts,
                 ApplyChanges(schema, db.tables, ChangesOf(chain[from..to])).value);
  }

  /** The flush of the loaded blocks either leaves the database be or takes it past exactly those blocks. */
  lemma FlushIsExact(schema: Schema, chain: seq<Block>, start: Tables, db: Db, to: nat, loaded: LoaderState,
                     ops: seq<Operation>, finalBlock: nat, attempts: seq<Attempt>)
    requires GoodChain(schema, chain, start) && Loaded(schema, chain, start, db, to, loaded)
    requires Lists(ops, loaded.pending)
    ensures var o := TryFlush(db, ops, At(chain[to - 1].number), finalBlock, attempts);
            && HoldsBlocks(schema, chain, start, Covered(chain, o.db.cursor), o.db.tables)
            && (o.succeeded ==> o.db.cursor.Some? && Covered(chain, o.db.cursor) == to)
  {
    SegmentTried(schema, chain, start, db, to, loaded, ops, At(chain[to - 1].number), finalBlock, attempts);
    CountAscending(chain, to - 1);
  }

  lemma FlushedIsExact(schema: Schema, chain: seq<Block>, start: Tables, db: Db, to: nat, loaded: LoaderState,
                       ops: seq<Operation>, finalBlock: nat, attempts: seq<Attempt>)
    requires GoodChain(schema, chain, start) && Loaded(schema, chain, start, db, to, loaded)
    requires Lists(ops, loaded.pending)
    ensures var o := TryFlush(db, ops, At(chain[to - 1].number), finalBlock, attempts);
            Exact(schema, chain, start, System(o.db, if o.succeeded then Up(EmptyState, to, to) else Down))
  {
    FlushIsExact(schema, chain, start, db, to, loaded, ops, finalBlock, attempts);
    assert chain[to..to] == [];
  }

  lemma ReceiveKeepsExact(schema: Schema, chain: seq<Block>, start: Tables, s: System, m: Move, next: System)
    requires GoodChain(schema, chain, start) && Exact(schema, chain, start, s)
    requires m.Receive? && Moves(schema, chain, s, m, next)
    ensures Exact(schema, chain, start, next)
  {
    var p := s.process;
    GrowLoaded(schema, chain, p.flushed, p.next, p.loaded);
    match AcceptAll(schema, p.loaded, ChangesOfBlock(chain[p.next]))
    case Err(_) =>
    case Ok(loaded) =>
      if m.flush {
        assert (p.next + 1) - 1 == p.next;
        FlushedIsExact(schema, chain, start, s.db, p.next + 1, loaded, m.ops, chain[p.next].finalBlock, m.attempts);
      }
  }

  lemma MoveKeepsExact(schema: Schema, chain: seq<Block>, start: Tables, s: System, m: Move, next: System)
    requires GoodChain(schema, chain, start) && Exact(schema, chain, start, s) && Moves(schema, chain, s, m, next)
    ensures Exact(schema, chain, start, next)
  {
    match m
    case Crash =>
    case Start =>
      var n := Covered(chain, next.db.cursor);
      assert chain[n..n] == [];
    case Complete(ops, attempts) =>
      var n := s.process.next;
      FlushedIsExact(schema, chain, start, s.db, n, s.process.loaded, ops, chain[n - 1].number, attempts);
    case Receive(_, _, _) =>
      ReceiveKeepsExact(schema, chain, start, s, m, next);
  }

  /** A history of the system: it starts with nothing committed and each move leads from one state to the next. */
  ghost predicate History(schema: Schema, chain: seq<Block>, start: Tables, systems: seq<System>, moves: seq<Move>) {
    && |systems| == |moves| + 1
    && systems[0].process.Down? && systems[0].db.tables == start && systems[0].db.cursor.None?
    && forall i :: 0 <= i < |moves| ==> Moves(schema, chain, systems[i], moves[i], systems[i + 1])
  }

  lemma StartIsExact(schema: Schema, chain: seq<Block>, start: Tables, s: System)
    requires s.process.Down? && s.db.tables == start && s.db.cursor.None?
    ensures Exact(schema, chain, start, s)
  {
    assert chain[..0] == [];
  }

  lemma NextIsExact(schema: Schema, chain: seq<Block>, start: Tables, systems: seq<System>, moves: seq<Move>, i: nat)
    requires GoodChain(schema, chain, start) && History(schema, chain, start, systems, moves) && i < |moves|
    requires Exact(schema, chain, start, systems[i])
    ensures Exact(schema, chain, start, systems[i + 1])
  {
    assert Moves(schema, chain, systems[i], moves[i], systems[i + 1]);
    MoveKeepsExact(schema, chain, start, systems[i], moves[i], systems[i + 1]);
  }

  lemma {:induction false} ReachableIsExact(
    schema: Schema, chain: seq<Block>, start: Tables, systems: seq<System>, moves: seq<Move>, i: nat)
    requires GoodChain(schema, chain, start) && History(schema, chain, start, systems, moves) && i < |systems|
    ensures Exact(schema, chain, start, systems[i])
  {
    if i == 0 {
      StartIsExact(schema, chain, start, systems[0]);
    } else {
      ReachableIsExact(schema, chain, start, systems, moves, i - 1);
      NextIsExact(schema, chain, start, systems, moves, i - 1);
    }
  }

  /**
   In every state reachable through failed flushes, retries, lost acknowledgements, crashes and restarts, the
   committed tables are what the blocks up to the committed cursor leave when their changes are applied one by one.
   */
  lemma {:induction false} CommittedTablesAreExact(
    schema: Schema, chain: seq<Block>, start: Tables, systems: seq<System>, moves: seq<Move>, i: nat)
    requires GoodChain(schema, chain, start) && History(schema, chain, start, systems, moves) && i < |systems|
    ensures ApplyChanges(schema, start, ChangesOf(chain[..Covered(chain, systems[i].db.cursor)])) ==
            Ok(systems[i].db.tables)
  {
    ReachableIsExact(schema, chain, start, systems, moves, i);
  }
}
