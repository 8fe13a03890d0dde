/**
 The from-proto sinker holds blocks back and writes them in batches, each in one transaction with its cursor: a protocol
 over whole runs, and the object that follows it.
 */
module HeldBlocks {
  import opened Prelude

  datatype Block = Block(number: nat, output: string)

  /** What the walk of a block's output leaves in the database; a block without output leaves nothing. */
  function Written(blocks: seq<Block>): seq<Block> {
    if blocks == [] then [] else (if blocks[0].output == "" then [] else [blocks[0]]) + Written(blocks[1..])
  }

  lemma {:induction false} WrittenAppend(a: seq<Block>, b: seq<Block>)
    ensures Written(a + b) == Written(a) + Written(b)
  {
    if a == [] {
      assert a + b == b;
    } else {
      assert (a + b)[0] == a[0] && (a + b)[1..] == a[1..] + b;
      WrittenAppend(a[1..], b);
      Associative(if a[0].output == "" then [] else [a[0]], Written(a[1..]), Written(b));
    }
  }

  lemma WrittenNext(blocks: seq<Block>, i: nat)
    requires i < |blocks|
    ensures Written(blocks[..i + 1]) == Written(blocks[..i]) + if blocks[i].output == "" then [] else [blocks[i]]
  {
    assert blocks[..i + 1] == blocks[..i] + [blocks[i]] && [blocks[i]][1..] == [];
    WrittenAppend(blocks[..i], [blocks[i]]);
  }

  lemma {:induction false} WrittenFrom(blocks: seq<Block>, b: Block)
    ensures b in Written(blocks) ==> b in blocks
  {
    if blocks != [] {
      WrittenFrom(blocks[1..], b);
      assert blocks == [blocks[0]] + blocks[1..];
    }
  }

  datatype Content = Content(rows: seq<Block>, cursor: Option<nat>)

  /** The content after exactly these blocks. */
  function ContentOf(blocks: seq<Block>): Content {
    Content(Written(blocks), if blocks == [] then None else Some(blocks[|blocks| - 1].number))
  }

  // ----- the protocol -----

  /** How a transaction ends; it may be applied although its commit reports a failure. */
  datatype Attempt = Fails | AppliedButLost | Commits

  function After(before: Content, written: Content, attempt: Attempt): Content {
    if attempt.Fails? then before else written
  }

  /** One transaction: the held blocks and the cursor. */
  function WithHeld(c: Content, held: seq<Block>, cursor: nat): Content {
    Content(c.rows + Written(held), Some(cursor))
  }

  /** The clean-up before a start: rows above the cursor go. */
  function Cleaned(c: Content): Content {
    if c.cursor.None? then c else c.(rows := RowsUpTo(c.rows, c.cursor.value))
  }

  function RowsUpTo(rows: seq<Block>, number: nat): seq<Block> {
    if rows == [] then [] else (if rows[0].number <= number then [rows[0]] else []) + RowsUpTo(rows[1..], number)
  }

  /** Exactly the rows up to the number stay, each as often as it was there. */
  lemma {:induction false} RowsUpToStay(rows: seq<Block>, number: nat, b: Block)
    ensures multiset(RowsUpTo(rows, number))[b] == if b.number <= number then multiset(rows)[b] else 0
  {
    if rows != [] {
      RowsUpToStay(rows[1..], number, b);
      assert rows == [rows[0]] + rows[1..];
    }
  }

  /** What handling one block does: the held blocks are written when that is due. */
  ghost predicate Received(
    c: Content, held: seq<Block>, block: Block, due: bool, attempt: Attempt, ok: bool, c': Content, held': seq<Block>)
  {
    if !due then ok && c' == c && held' == held + [block]
    else
      && c' == After(c, WithHeld(c, held + [block], block.number), attempt)
      && (ok <==> attempt.Commits?) && (ok ==> held' == [])
  }

  /** What the end of the range does: the rest is written, or without any the cursor alone. */
  ghost predicate Completed(
    c: Content, held: seq<Block>, cursor: nat, attempt: Attempt, ok: bool, c': Content, held': seq<Block>)
  {
    && c' == After(c, WithHeld(c, held, cursor), attempt)
    && (ok <==> attempt.Commits?) && (ok ==> held' == [])
  }

  datatype Process = Down | Up(held: seq<Block>, next: nat)

  datatype System = System(content: Content, process: Process)

  datatype Move =
    | Crash
    | Start
    | Receive(due: bool, attempt: Attempt, ok: bool, held: seq<Block>)
    | Complete(attempt: Attempt, ok: bool, held: seq<Block>)

  function CountUpTo(chain: seq<Block>, number: nat): (n: nat)
    ensures n <= |chain|
  {
    if chain == [] then 0 else (if chain[0].number <= number then 1 else 0) + CountUpTo(chain[1..], number)
  }

  /** How many blocks of the chain the cursor covers. */
  function Covered(chain: seq<Block>, cursor: Option<nat>): (n: nat)
    ensures n <= |chain|
  {
    if cursor.None? then 0 else CountUpTo(chain, cursor.value)
  }

  /** A failure ends the process; a process that starts holds nothing and goes on after the committed cursor. */
  ghost predicate Moves(chain: seq<Block>, s: System, m: Move, next: System) {
    match m
    case Crash => next == s.(process := Down)
    case Start =>
      s.process.Down? && next == System(Cleaned(s.content), Up([], Covered(chain, s.content.cursor)))
    case Receive(due, attempt, ok, held) =>
      && s.process.Up? && s.process.next < |chain|
      && Received(s.content, s.process.held, chain[s.process.next], due, attempt, ok, next.content, held)
      && next.process == if ok then Up(held, s.process.next + 1) else Down
    case Complete(attempt, ok, held) =>
      && s.process.Up? && 0 < s.process.next <= |chain|
      && Completed(s.content, s.process.held, chain[s.process.next - 1].number, attempt, ok, next.content, held)
      && next.process == if ok then Up(held, s.process.next) else Down
  }

  /** Wherever a process dies, the next one may start from what is committed. */
  lemma CrashAndStart(chain: seq<Block>, s: System)
    ensures Moves(chain, s, Crash, System(s.content, Down))
    ensures Moves(chain, System(s.content, Down), Start,
                  System(Cleaned(s.content), Up([], Covered(chain, s.content.cursor))))
  {
  }

  /** What the handler of a block does is the protocol's move; a failure ends the process. */
  lemma ReceivedIsMove(
    chain: seq<Block>, c: Content, held: seq<Block>, n: nat, due: bool, attempt: Attempt, ok: bool, c': Content,
    held': seq<Block>)
    requires n < |chain| && Received(c, held, chain[n], due, attempt, ok, c', held')
    ensures Moves(chain, System(c, Up(held, n)), Receive(due, attempt, ok, held'),
                  System(c', if ok then Up(held', n + 1) else Down))
  {
  }

  /** So is what the handler of the end of the range does. */
  lemma CompletedIsMove(
    chain: seq<Block>, c: Content, held: seq<Block>, n: nat, attempt: Attempt, ok: bool, c': Content, held': seq<Block>)
    requires 0 < n <= |chain| && Completed(c, held, chain[n - 1].number, attempt, ok, c', held')
    ensures Moves(chain, System(c, Up(held, n)), Complete(attempt, ok, held'),
                  System(c', if ok then Up(held', n) else Down))
  {
  }

  ghost predicate Ascending(chain: seq<Block>) {
    forall i, j :: 0 <= i < j < |chain| ==> chain[i].number < chain[j].number
  }

  /** The content is that of the blocks up to the cursor, and a process holds exactly the later ones it received. */
  ghost predicate Exact(chain: seq<Block>, s: System) {
    var n := Covered(chain, s.content.cursor);
    && s.content == ContentOf(chain[..n])
    && (s.process.Up? ==> n <= s.process.next <= |chain| && s.process.held == chain[n..s.process.next])
  }

  lemma {:induction false} CountAscending(chain: seq<Block>, i: nat)
    requires Ascending(chain) && i < |chain|
    ensures CountUpTo(chain, chain[i].number) == i + 1
  {
    if i > 0 {
      CountAscending(chain[1..], i - 1);
      assert chain[0].number < chain[i].number;
    } else {
      CountNone(chain[1..], chain[0].number);
    }
  }

  lemma {:induction false} CountNone(chain: seq<Block>, number: nat)
    requires forall b :: b in chain ==> b.number > number
    ensures CountUpTo(chain, number) == 0
  {
    if chain != [] {
      assert chain[0] in chain && forall b :: b in chain[1..] ==> b in chain;
      CountNone(chain[1..], number);
    }
  }

  lemma {:induction false} AllUpTo(rows: seq<Block>, number: nat)
    requires forall b :: b in rows ==> b.number <= number
    ensures RowsUpTo(rows, number) == rows
  {
    if rows != [] {
      assert rows[0] in rows && forall b :: b in rows[1..] ==> b in rows;
      AllUpTo(rows[1..], number);
    }
  }

  /** Nothing above the cursor was committed, so the clean-up finds nothing. */
  lemma CleanUpFindsNothing(chain: seq<Block>, n: nat)
    requires Ascending(chain) && n <= |chain|
    ensures Cleaned(ContentOf(chain[..n])) == ContentOf(chain[..n])
  {
    if n > 0 {
      var last := chain[n - 1].number;
      forall b | b in Written(chain[..n]) ensures b.number <= last {
        WrittenFrom(chain[..n], b);
        var i :| 0 <= i < n && chain[i] == b;
        assert i < n - 1 ==> chain[i].number < chain[n - 1].number;
      }
      AllUpTo(Written(chain[..n]), last);
    }
  }

  /** Writing the blocks from the cursor on takes the content past them. */
  lemma WriteCovers(chain: seq<Block>, from: nat, to: nat)
    requires Ascending(chain) && from <= to <= |chain| && 0 < to
    ensures WithHeld(ContentOf(chain[..from]), chain[from..to], chain[to - 1].number) == ContentOf(chain[..to])
    ensures Covered(chain, Some(chain[to - 1].number)) == to
  {
    SplitAt(chain, from, to);
    WrittenAppend(chain[..from], chain[from..to]);
    CountAscending(chain, to - 1);
  }

  lemma ContentCovers(chain: seq<Block>, n: nat)
    requires Ascending(chain) && n <= |chain|
    ensures Covered(chain, ContentOf(chain[..n]).cursor) == n
  {
    if n > 0 {
      CountAscending(chain, n - 1);
    }
  }

  lemma WriteKeepsExact(chain: seq<Block>, from: nat, to: nat, attempt: Attempt)
    requires Ascending(chain) && from <= to <= |chain| && 0 < to
    ensures var before := ContentOf(chain[..from]);
            var c := After(before, WithHeld(before, chain[from..to], chain[to - 1].number), attempt);
            && Exact(chain, System(c, Down))
            && (attempt.Commits? ==> Exact(chain, System(c, Up([], to))))
  {
    WriteCovers(chain, from, to);
    ContentCovers(chain, from);
    ContentCovers(chain, to);
    assert chain[to..to] == [];
  }

  lemma OneMore(chain: seq<Block>, n: nat, i: nat)
    requires n <= i < |chain|
    ensures chain[n..i] + [chain[i]] == chain[n..i + 1]
  {
  }

  lemma ReceiveKeepsExact(chain: seq<Block>, s: System, m: Move, next: System)
    requires Ascending(chain) && Exact(chain, s) && Moves(chain, s, m, next) && m.Receive?
    ensures Exact(chain, next)
  {
    var n, i := Covered(chain, s.content.cursor), s.process.next;
    OneMore(chain, n, i);
    if m.due {
      assert s.content == ContentOf(chain[..n]) && (i + 1) - 1 == i;
      WriteKeepsExact(chain, n, i + 1, m.attempt);
      assert next == System(next.content, if m.ok then Up([], i + 1) else Down);
    } else {
      assert next == System(s.content, Up(chain[n..i + 1], i + 1));
    }
  }

  lemma CompleteKeepsExact(chain: seq<Block>, s: System, m: Move, next: System)
    requires Ascending(chain) && Exact(chain, s) && Moves(chain, s, m, next) && m.Complete?
    ensures Exact(chain, next)
  {
    WriteKeepsExact(chain, Covered(chain, s.content.cursor), s.process.next, m.attempt);
  }

  lemma MoveKeepsExact(chain: seq<Block>, s: System, m: Move, next: System)
    requires Ascending(chain) && Exact(chain, s) && Moves(chain, s, m, next)
    ensures Exact(chain, next)
  {
    match m
    case Crash =>
    case Start =>
      var n := Covered(chain, s.content.cursor);
      CleanUpFindsNothing(chain, n);
      assert chain[n..n] == [];
    case Complete(_, _, _) => CompleteKeepsExact(chain, s, m, next);
    case Receive(_, _, _, _) => ReceiveKeepsExact(chain, s, m, next);
  }

  ghost predicate History(chain: seq<Block>, systems: seq<System>, moves: seq<Move>) {
    && |systems| == |moves| + 1
    && systems[0] == System(Content([], None), Down)
    && forall i :: 0 <= i < |moves| ==> Moves(chain, systems[i], moves[i], systems[i + 1])
  }

  /**
   In every state reachable through batches, failed transactions, lost acknowledgements, crashes and restarts, the
   database holds exactly the blocks up to the committed cursor, each once and in order.
   */
  lemma {:induction false} CommittedBlocksAreExact(chain: seq<Block>, systems: seq<System>, moves: seq<Move>, i: nat)
    requires Ascending(chain) && History(chain, systems, moves) && i < |systems|
    ensures Exact(chain, systems[i])
  {
    if i == 0 {
      assert chain[..0] == [];
    } else {
      CommittedBlocksAreExact(chain, systems, moves, i - 1);
      assert Moves(chain, systems[i - 1], moves[i - 1], systems[i]);
      MoveKeepsExact(chain, systems[i - 1], moves[i - 1], systems[i]);
    }
  }

  // ----- the object -----

  /**
   A database with transactions. Every call may fail, which is counted, and a failed commit may have happened all the
   same. One kind of inserter gathers the rows until it is flushed, the other inserts them at once.
   */
  class Database {
    const gathers: bool
    var committed: Content
    var transaction: Option<Content>
    var gathered: seq<Block>
    ghost var failures: nat

    constructor (gathers: bool)
      ensures this.gathers == gathers && committed == Content([], None) && transaction.None? && gathered == []
    {
      this.gathers, committed, transaction, gathered, failures := gathers, Content([], None), None, [], 0;
    }

    /** A new connection: what an earlier one left open is gone. */
    method Connect()
      modifies this`transaction, this`gathered
      ensures transaction.None? && gathered == []
    {
      transaction, gathered := None, [];
    }

    /** Any call of the database may fail. */
    method Try() returns (ok: bool)
      modifies this`failures
      ensures failures == old(failures) + if ok then 0 else 1
    {
      ok := *;
      failures := failures + if ok then 0 else 1;
    }

    method Begin() returns (ok: bool)
      modifies this`transaction, this`failures
      ensures transaction == if ok then Some(committed) else old(transaction)
      ensures failures == old(failures) + if ok then 0 else 1
    {
      ok := Try();
      if ok {
        transaction := Some(committed);
      }
    }

    /** What will be in the transaction once what is gathered is flushed. */
    ghost function Ahead(): Content
      requires transaction.Some?
      reads this
    {
      transaction.value.(rows := transaction.value.rows + gathered)
    }

    method InsertBlock(block: Block) returns (ok: bool)
      requires transaction.Some? && (!gathers ==> gathered == [])
      modifies this`transaction, this`gathered, this`failures
      ensures transaction.Some? && (!gathers ==> gathered == [])
      ensures ok ==> Ahead() == old(Ahead()).(rows := old(Ahead()).rows + [block])
      ensures failures == old(failures) + if ok then 0 else 1
    {
      ok := Try();
      if ok {
        Associative(transaction.value.rows, gathered, [block]);
        if gathers {
          gathered := gathered + [block];
        } else {
          assert transaction.value.rows + [] == transaction.value.rows;
          transaction := Some(transaction.value.(rows := transaction.value.rows + [block]));
        }
      }
    }

    /** Inside a transaction when there is one, and otherwise at once. */
    method StoreCursor(cursor: nat) returns (ok: bool, ghost attempt: Attempt)
      modifies this`committed, this`transaction, this`failures
      ensures transaction.Some? == old(transaction).Some? && (ok <==> attempt.Commits?)
      ensures failures == old(failures) + if ok then 0 else 1
      ensures old(transaction).Some? ==>
                && committed == old(committed)
                && (ok ==> transaction.value == old(transaction).value.(cursor := Some(cursor)))
      ensures old(transaction).None? ==>
                committed == After(old(committed), old(committed).(cursor := Some(cursor)), attempt)
    {
      ok := Try();
      var happened := *;
      if transaction.Some? {
        if ok {
          transaction := Some(transaction.value.(cursor := Some(cursor)));
        }
      } else if ok || happened {
        committed := committed.(cursor := Some(cursor));
      }
      attempt := if ok then Commits else if happened then AppliedButLost else Fails;
    }

    /** What was gathered goes into the open transaction. */
    method Flush() returns (ok: bool)
      requires transaction.Some?
      modifies this`transaction, this`gathered, this`failures
      ensures transaction == if ok then Some(old(Ahead())) else old(transaction)
      ensures ok ==> gathered == []
      ensures failures == old(failures) + if ok then 0 else 1
    {
      ok := Try();
      if ok {
        transaction, gathered := Some(transaction.value.(rows := transaction.value.rows + gathered)), [];
      }
    }

    method Commit() returns (ok: bool, ghost attempt: Attempt)
      requires transaction.Some?
      modifies this`committed, this`transaction, this`failures
      ensures (ok <==> attempt.Commits?) && (ok ==> transaction.None?)
      ensures committed == After(old(committed), old(transaction).value, attempt)
      ensures failures == old(failures) + if ok then 0 else 1
    {
      ok := Try();
      var happened := *;
      if ok || happened {
        committed := transaction.value;
      }
      if ok {
        transaction := None;
      }
      attempt := if ok then Commits else if happened then AppliedButLost else Fails;
    }

    method Rollback()
      modifies this`transaction
      ensures transaction.None?
    {
      transaction := None;
    }

    /** The rows of blocks above a number go, in a transaction of its own. */
    method HandleBlocksUndo(number: nat) returns (ok: bool)
      modifies this`committed, this`failures
      ensures committed ==
              (if ok then old(committed).(rows := RowsUpTo(old(committed).rows, number)) else old(committed))
      ensures failures == old(failures) + if ok then 0 else 1
    {
      ok := Try();
      if ok {
        committed := committed.(rows := RowsUpTo(committed.rows, number));
      }
    }
  }

  const WORD: nat := 0x1_0000_0000_0000_0000

  /** The sinker of one process; the blocks held belong to the process. */
  class Sinker {
    const db: Database
    const blockBatchSize: nat
    var lastAppliedBlockNum: nat
    var holding: seq<Block>

    constructor (db: Database, blockBatchSize: nat)
      ensures this.db == db && this.blockBatchSize == blockBatchSize && holding == [] && lastAppliedBlockNum == 0
    {
      this.db, this.blockBatchSize := db, blockBatchSize;
      lastAppliedBlockNum, holding := 0, [];
    }

    /** `Run` up to the point where the stream starts after the cursor. */
    method Start() returns (r: Result<Option<nat>>)
      requires holding == []
      modifies db
      ensures r.Ok? ==> r.value == old(db.committed).cursor && db.transaction.None? && db.gathered == []
      ensures r.Ok? <==> db.failures == old(db.failures)
      ensures r.Ok? ==> db.committed == Cleaned(old(db.committed))
      ensures r.Err? ==> r.error == Connection && db.committed == old(db.committed)
    {
      db.Connect();
      var cursor := db.committed.cursor;
      if cursor.Some? {
        var ok := db.HandleBlocksUndo(cursor.value);
        if !ok {
          return Err(Connection);
        }
      }
      r := Ok(cursor);
    }

    /** When the held blocks are to be written; the sum of block number and batch size wraps at 64 bits. */
    predicate FlushDue(block: Block, live: bool)
      reads this
    {
      block.number > (lastAppliedBlockNum + blockBatchSize) % WORD || blockBatchSize == 1 || live
    }

    /** Writes the held blocks into the open transaction. */
    method ProcessHolding() returns (ok: bool)
      requires db.transaction.Some? && db.gathered == []
      modifies db`transaction, db`gathered, db`failures
      ensures db.transaction.Some? && (ok <==> db.failures == old(db.failures))
      ensures ok ==> db.Ahead() == old(db.Ahead()).(rows := old(db.Ahead()).rows + Written(holding))
    {
      ghost var before := db.Ahead();
      assert before.rows + [] == before.rows;
      for i := 0 to |holding|
        invariant db.transaction.Some? && db.failures == old(db.failures) && (!db.gathers ==> db.gathered == [])
        invariant db.Ahead() == before.(rows := before.rows + Written(holding[..i]))
      {
        WrittenNext(holding, i);
        if holding[i].output != "" {
          ok := db.InsertBlock(holding[i]);
          if !ok {
            return;
          }
        }
      }
      assert holding[..|holding|] == holding;
      ok := true;
    }

    /** One transaction with all held blocks and the cursor, whichever of its calls fails. */
    method WriteHeld(cursor: nat) returns (error: Option<Failure>, ghost attempt: Attempt)
      requires db.transaction.None? && db.gathered == []
      modifies this`lastAppliedBlockNum, db
      ensures db.committed == After(old(db.committed), WithHeld(old(db.committed), holding, cursor), attempt)
      ensures error.None? <==> attempt.Commits?
      ensures error.None? <==> db.failures == old(db.failures)
      ensures error.None? ==> db.transaction.None? && db.gathered == [] && lastAppliedBlockNum == cursor
    {
      attempt := Fails;
      var ok := db.Begin();
      if !ok {
        return Some(Connection), attempt;
      }
      ok := ProcessHolding();
      if !ok {
        db.Rollback();
        return Some(Connection), attempt;
      }
      ok := db.Flush();
      if !ok {
        return Some(Connection), attempt;
      }
      lastAppliedBlockNum := cursor;
      ghost var stored;
      ok, stored := db.StoreCursor(cursor);
      if !ok {
        return Some(Connection), attempt;
      }
      ok, attempt := db.Commit();
      error := if ok then None else Some(Connection);
    }

    /** One block joins the held ones, which are written if it is time and flushing is not too slow for live mode. */
    method HandleBlockScopedData(block: Block, live: bool, tooSlow: bool)
      returns (error: Option<Failure>, ghost attempt: Attempt)
      requires db.transaction.None? && db.gathered == []
      modifies this, db
      ensures var due := if live then !tooSlow
                         else
                           || blockBatchSize == 1
                           || block.number > (old(lastAppliedBlockNum) + blockBatchSize) % 0x1_0000_0000_0000_0000;
              && Received(old(db.committed), old(holding), block, due, attempt, error.None?, db.committed, holding)
              && (error.None? ==> lastAppliedBlockNum == if due then block.number else old(lastAppliedBlockNum))
      ensures error.None? ==> db.transaction.None? && db.gathered == []
      ensures error.None? <==> db.failures == old(db.failures)
    {
      holding := holding + [block];
      error, attempt := None, Commits;
      if FlushDue(block, live) {
        if live && tooSlow {
          return;
        }
        error, attempt := WriteHeld(block.number);
        if error.None? {
          holding := [];
        }
      }
    }

    /** The end of the range: nothing before it is reached, then the rest is written, or without any only the cursor. */
    method HandleBlockRangeCompletion(cursor: nat, reachedEnd: bool)
      returns (error: Option<Failure>, ghost attempt: Attempt)
      requires db.transaction.None? && db.gathered == []
      modifies this, db
      ensures !reachedEnd ==> error.None? && db.committed == old(db.committed) && holding == old(holding)
      ensures reachedEnd ==>
                Completed(old(db.committed), old(holding), cursor, attempt, error.None?, db.committed, holding)
      ensures error.None? ==> db.transaction.None? && db.gathered == []
      ensures error.None? <==> db.failures == old(db.failures)
    {
      error, attempt := None, Commits;
      if !reachedEnd {
        return;
      }
      if holding == [] {
        assert db.committed.rows + Written(holding) == db.committed.rows;
        var ok;
        ok, attempt := db.StoreCursor(cursor);
        error := if ok then None else Some(Connection);
        return;
      }
      error, attempt := WriteHeld(cursor);
      if error.None? {
        holding := [];
      }
    }
  }

  /**
   The held blocks belong to the process, not to the sinker object. If a new sinker of the same process starts with
   those of a failed one still held, the next write is right exactly when they leave nothing in the database.
   */
  lemma HeldOfFailedSinkerIff(chain: seq<Block>, from: nat, to: nat, held: seq<Block>)
    requires Ascending(chain) && from <= to <= |chain| && 0 < to
    ensures WithHeld(ContentOf(chain[..from]), held + chain[from..to], chain[to - 1].number) == ContentOf(chain[..to])
            <==> Written(held) == []
  {
    WriteCovers(chain, from, to);
    WrittenAppend(held, chain[from..to]);
    var rows, more := Written(chain[..from]), Written(chain[from..to]);
    assert |rows + (Written(held) + more)| == |rows + more| + |Written(held)|;
    if Written(held) == [] {
      assert Written(held) + more == more;
    }
  }
}
