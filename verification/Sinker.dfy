/** The block handlers of `db_changes/sinker`, on top of the loader. */
module Sinking {
  import opened Prelude
  import opened Database
  import opened Coalescing
  import opened Blocks
  import opened ExactlyOnce
  import opened RetriedFlush
  import opened Loading

  datatype ProtoKey = SinglePk(pk: string) | CompositePk(keys: Key) | MissingPk

  /** A row change as it arrives; an operation that the sink does not know is ignored. */
  datatype ProtoChange = ProtoChange(
    table: string, key: ProtoKey, fields: seq<(string, string)>, operation: Option<OperationType>)

  /** Fields by name; the last of equal names wins. */
  function FieldMap(fields: seq<(string, string)>): Row {
    if fields == [] then map[]
    else var last := fields[|fields| - 1]; FieldMap(fields[..|fields| - 1])[last.0 := last.1]
  }

  function PrimaryKeyOf(table: TableInfo, key: ProtoKey): Result<Key> {
    match key
    case MissingPk => Err(NoPrimaryKey)
    case CompositePk(keys) => Ok(keys)
    case SinglePk(pk) =>
      if table.primaryColumns == [] then Err(NoPrimaryKey)
      else if |table.primaryColumns| == 1 then Ok(map[table.primaryColumns[0] := pk])
      else Err(CompositeKey)
  }

  function Decode(schema: Schema, c: ProtoChange): Result<Option<TableChange>> {
    if c.table !in schema then Err(UnknownTable)
    else match PrimaryKeyOf(schema[c.table], c.key)
      case Err(e) => Err(e)
      case Ok(key) =>
        if c.operation.None? then Ok(None)
        else Ok(Some(TableChange(c.table, c.operation.value, key,
                                 if c.operation.value.Delete? then map[] else FieldMap(c.fields))))
  }

  // ----- what decoding gives -----

  /** The row that a list of fields stands for: exactly their names, each with the value of its last field. */
  ghost predicate RowOfFields(row: Row, fields: seq<(string, string)>) {
    && (forall name :: name in row ==> exists i :: 0 <= i < |fields| && fields[i].0 == name)
    && forall i :: 0 <= i < |fields| ==> fields[i].0 in row && (IsLast(fields, i) ==> row[fields[i].0] == fields[i].1)
  }

  ghost predicate IsLast(fields: seq<(string, string)>, i: nat)
    requires i < |fields|
  {
    forall j :: i < j < |fields| ==> fields[j].0 != fields[i].0
  }

  lemma {:induction false} FieldsByName(fields: seq<(string, string)>)
    ensures RowOfFields(FieldMap(fields), fields)
    decreases |fields|
  {
    if fields != [] {
      var n := |fields| - 1;
      var front, last := fields[..n], fields[n];
      FieldsByName(front);
      var row := FieldMap(fields);
      forall name | name in row ensures exists i :: 0 <= i < |fields| && fields[i].0 == name {
        if name != last.0 {
          var i :| 0 <= i < |front| && front[i].0 == name;
          assert fields[i].0 == name;
        }
      }
      forall i | 0 <= i < |fields|
        ensures fields[i].0 in row && (IsLast(fields, i) ==> row[fields[i].0] == fields[i].1)
      {
        if i < n {
          assert front[i] == fields[i];
          if IsLast(fields, i) {
            assert fields[n].0 != fields[i].0;
            assert IsLast(front, i);
          }
        }
      }
    }
  }

  /** What a change says once its key is known. */
  ghost predicate DecodedUnder(c: ProtoChange, key: Key, r: Result<Option<TableChange>>) {
    match c.operation
    case None => r == Ok(None)
    case Some(Delete) => r == Ok(Some(TableChange(c.table, Delete, key, map[])))
    case Some(op) =>
      && r.Ok? && r.value.Some? && r.value.value.table == c.table && r.value.value.opType == op
      && r.value.value.key == key && RowOfFields(r.value.value.data, c.fields)
  }

  /** A single key value goes under the one primary column, a composite key is taken as it comes. */
  lemma DecodedChange(schema: Schema, c: ProtoChange)
    ensures c.table !in schema ==> Decode(schema, c) == Err(UnknownTable)
    ensures c.table in schema ==>
              var columns := schema[c.table].primaryColumns;
              match c.key
              case MissingPk => Decode(schema, c) == Err(NoPrimaryKey)
              case CompositePk(keys) => DecodedUnder(c, keys, Decode(schema, c))
              case SinglePk(pk) =>
                && (|columns| == 0 ==> Decode(schema, c) == Err(NoPrimaryKey))
                && (|columns| == 1 ==> DecodedUnder(c, map[columns[0] := pk], Decode(schema, c)))
                && (|columns| > 1 ==> Decode(schema, c) == Err(CompositeKey))
  {
    FieldsByName(c.fields);
  }

  function DecodeAll(schema: Schema, changes: seq<ProtoChange>): Result<seq<TableChange>> {
    if changes == [] then Ok([])
    else match Decode(schema, changes[0])
      case Err(e) => Err(e)
      case Ok(first) =>
        match DecodeAll(schema, changes[1..])
        case Err(e) => Err(e)
        case Ok(rest) => Ok((if first.Some? then [first.value] else []) + rest)
  }

  /** `applyDatabaseChanges`: each change is decoded and loaded before the next is looked at. */
  ghost function Load(schema: Schema, state: LoaderState, changes: seq<ProtoChange>, number: nat, finalBlock: nat)
    : Result<LoaderState>
    decreases |changes|
  {
    if changes == [] then Ok(state)
    else match Decode(schema, changes[0])
      case Err(e) => Err(e)
      case Ok(None) => Load(schema, state, changes[1..], number, finalBlock)
      case Ok(Some(c)) =>
        match Accept(schema, state, Stamp(Block(number, finalBlock, []), c))
        case Err(e) => Err(e)
        case Ok(next) => Load(schema, next, changes[1..], number, finalBlock)
  }

  /** Loading a block whose changes can all be decoded is accepting the changes of that block. */
  lemma {:induction false} LoadIsAcceptAll(
    schema: Schema, state: LoaderState, changes: seq<ProtoChange>, number: nat, finalBlock: nat)
    requires DecodeAll(schema, changes).Ok?
    ensures Load(schema, state, changes, number, finalBlock) ==
            AcceptAll(schema, state, ChangesOfBlock(Block(number, finalBlock, DecodeAll(schema, changes).value)))
    decreases |changes|
  {
    if changes != [] {
      var rest := DecodeAll(schema, changes[1..]).value;
      var all := ChangesOfBlock(Block(number, finalBlock, DecodeAll(schema, changes).value));
      match Decode(schema, changes[0])
      case Ok(None) =>
        assert [] + rest == rest;
        LoadIsAcceptAll(schema, state, changes[1..], number, finalBlock);
      case Ok(Some(c)) =>
        var first := Stamp(Block(number, finalBlock, []), c);
        assert all == [first] + ChangesOfBlock(Block(number, finalBlock, rest));
        assert all[0] == first && all[1..] == ChangesOfBlock(Block(number, finalBlock, rest));
        if Accept(schema, state, first).Ok? {
          LoadIsAcceptAll(schema, Accept(schema, state, first).value, changes[1..], number, finalBlock);
        }
    }
  }

  /** A change that cannot be decoded makes the whole block fail. */
  lemma {:induction false} UndecodableFails(
    schema: Schema, state: LoaderState, changes: seq<ProtoChange>, number: nat, finalBlock: nat)
    requires DecodeAll(schema, changes).Err?
    ensures Load(schema, state, changes, number, finalBlock).Err?
    decreases |changes|
  {
    match Decode(schema, changes[0])
    case Err(_) =>
    case Ok(None) => UndecodableFails(schema, state, changes[1..], number, finalBlock);
    case Ok(Some(c)) =>
      var accepted := Accept(schema, state, Stamp(Block(number, finalBlock, []), c));
      if accepted.Ok? {
        UndecodableFails(schema, accepted.value, changes[1..], number, finalBlock);
      }
  }

  /** What handling one block does to the buffer and to the database. */
  ghost predicate BlockHandled(
    schema: Schema, db: Db, before: LoaderState, changes: seq<ProtoChange>, number: nat, finalBlock: nat,
    flush: bool, ops: seq<Operation>, tried: seq<Attempt>, r: Result<()>, dbAfter: Db, after: LoaderState)
  {
    match Load(schema, before, changes, number, finalBlock)
    case Err(e) => !flush && r == Err(e) && dbAfter == db
    case Ok(loaded) =>
      if !flush then r == Ok(()) && dbAfter == db && after == loaded
      else
        && Outcome(dbAfter, r.Ok?) == TryFlush(db, ops, At(number), finalBlock, tried)
        && after == if r.Ok? then EmptyState else loaded
  }

  /** Handling a block that can be decoded is the protocol's step of receiving it; a failure ends the process. */
  lemma HandledIsReceived(
    schema: Schema, chain: seq<Block>, flushed: nat, next: nat, db: Db, before: LoaderState,
    changes: seq<ProtoChange>, number: nat, finalBlock: nat, flush: bool, ops: seq<Operation>, tried: seq<Attempt>,
    r: Result<()>, dbAfter: Db, after: LoaderState)
    requires next < |chain| && DecodeAll(schema, changes).Ok?
    requires chain[next] == Block(number, finalBlock, DecodeAll(schema, changes).value)
    requires BlockHandled(schema, db, before, changes, number, finalBlock, flush, ops, tried, r, dbAfter, after)
    requires flush ==> Lists(ops, Load(schema, before, changes, number, finalBlock).value.pending)
    ensures Moves(schema, chain, System(db, Up(before, flushed, next)), Receive(flush, ops, tried),
                  System(dbAfter, if r.Ok? then Up(after, if flush then next + 1 else flushed, next + 1) else Down))
  {
    LoadIsAcceptAll(schema, before, changes, number, finalBlock);
  }

  /** Wherever a process dies that is the protocol's crash. */
  lemma StoppedIsCrash(schema: Schema, chain: seq<Block>, db: Db, process: Process)
    ensures Moves(schema, chain, System(db, process), Crash, System(db, Down))
  {
  }

  /** Starting is the protocol's step of starting. */
  lemma StartedIsStart(schema: Schema, chain: seq<Block>, db: Db, cursor: Cursor, dbAfter: Db)
    requires cursor == (if db.cursor.Some? then db.cursor.value else Blank)
    requires dbAfter == db.(cursor := Some(cursor))
    ensures Moves(schema, chain, System(db, Down), Start,
                  System(dbAfter, Up(EmptyState, Covered(chain, Some(cursor)), Covered(chain, Some(cursor)))))
  {
  }

  /** Completing the range is the protocol's step of completing; a failure ends the process. */
  lemma CompletedIsComplete(
    schema: Schema, chain: seq<Block>, flushed: nat, next: nat, db: Db, before: LoaderState, ops: seq<Operation>,
    tried: seq<Attempt>, ok: bool, dbAfter: Db, after: LoaderState)
    requires 0 < next <= |chain| && Lists(ops, before.pending)
    requires Outcome(dbAfter, ok) ==
             TryFlush(db, ops, At(chain[next - 1].number), chain[next - 1].number, tried)
    requires after == if ok then EmptyState else before
    ensures Moves(schema, chain, System(db, Up(before, flushed, next)), Complete(ops, tried),
                  System(dbAfter, if ok then Up(after, next, next) else Down))
  {
  }

  const UINT64 := 0x1_0000_0000_0000_0000
  const INT63 := 0x8000_0000_0000_0000

  /** Go's `int`. */
  type Int64 = n: int | -INT63 <= n < INT63

  /** When the retry loop stops, for `used` of the attempts for which there was time. */
  ghost predicate RetriesEnd(retries: int, delay: nat, attempts: seq<Attempt>, used: nat, ok: bool) {
    && used <= |attempts| && (used as int <= retries + 1 || used == 0)
    && (retries >= 0 ==> used > 0)
    && (delay == 0 ==> used <= 1)
    && (ok ==> used > 0 && attempts[used - 1].Commits?)
    && (!ok && retries >= 0 && delay != 0 ==> used as int == retries + 1 || used == |attempts|)
  }

  class SQLSinker {
    const loader: Loader
    const server: Server
    const flushRetryCount: int
    const flushRetryDelay: nat
    const batchBlockFlushInterval: Int64
    const liveBlockFlushInterval: Int64
    var lastAppliedBlockNum: nat

    ghost predicate Valid()
      reads this, loader, loader.Repr
    {
      && loader.Valid() && ValidSchema(loader.tables) && Consistent(loader.tables, loader.State())
      && server !in loader.Repr && this !in loader.Repr
      && lastAppliedBlockNum < UINT64
    }

    constructor (loader: Loader, server: Server, flushRetryCount: int, flushRetryDelay: nat,
                 batchBlockFlushInterval: Int64, liveBlockFlushInterval: Int64)
      requires loader.Valid() && ValidSchema(loader.tables) && Consistent(loader.tables, loader.State())
      requires server !in loader.Repr
      ensures Valid() && this.loader == loader && this.server == server && lastAppliedBlockNum == 0
      ensures this.flushRetryCount == flushRetryCount && this.flushRetryDelay == flushRetryDelay
      ensures this.batchBlockFlushInterval == batchBlockFlushInterval
      ensures this.liveBlockFlushInterval == liveBlockFlushInterval
    {
      this.loader, this.server := loader, server;
      this.flushRetryCount, this.flushRetryDelay := flushRetryCount, flushRetryDelay;
      this.batchBlockFlushInterval, this.liveBlockFlushInterval := batchBlockFlushInterval, liveBlockFlushInterval;
      lastAppliedBlockNum := 0;
    }

    /** Where a start may begin: the module's cursor, else blank, else a highest cursor of another module. */
    ghost predicate MayStartAt(own: Option<Cursor>, cursor: Cursor) {
      if own.Some? then cursor == own.value
      else if server.others == map[] then cursor == Blank
      else !loader.moduleMismatchMode.Refuse? && IsHighest(server.others, cursor)
    }

    ghost predicate CursorsFit()
      reads server
    {
      && (server.db.cursor.Some? && server.db.cursor.value.At? ==> server.db.cursor.value.block < UINT64)
      && forall c :: c in server.others.Values && c.At? ==> c.block < UINT64
    }

    /**
     `Run` up to the point where the stream starts: the cursor is read, which may fail, and written if it is not the
     module's own, which ends as `insert` says. A failure ends the process.
     */
    method Start(readable: bool, insert: Attempt) returns (r: Result<Cursor>)
      requires Valid() && CursorsFit()
      modifies this`lastAppliedBlockNum, server
      ensures Valid()
      ensures r.Ok? ==>
                && MayStartAt(old(server.db).cursor, r.value) && server.db == old(server.db).(cursor := Some(r.value))
                && lastAppliedBlockNum == match r.value { case Blank => 0 case At(block) => block }
      ensures r.Err? && server.db != old(server.db) ==>
                && old(server.db).cursor.None? && insert.AppliedButLost? && server.db.cursor.Some?
                && MayStartAt(None, server.db.cursor.value)
                && server.db == old(server.db).(cursor := server.db.cursor)
      ensures r.Ok? <==>
                && readable
                && (old(server.db).cursor.Some? || insert.Commits?)
                && (old(server.db).cursor.None? && server.others != map[] ==> !loader.moduleMismatchMode.Refuse?)
      ensures r.Err? ==> r.error == if readable && server.others != map[] && loader.moduleMismatchMode.Refuse?
                                    then ModuleMismatch else Connection
    {
      var found, mismatch := loader.GetCursor(server, readable);
      if found.Err? && found.error != CursorNotFound {
        return found;
      }
      var cursor := if found.Ok? then found.value else Blank;
      if found.Err? || mismatch {
        if !insert.Fails? {
          server.db := server.db.(cursor := Some(cursor));
        }
        if !insert.Commits? {
          return Err(Connection);
        }
      }
      lastAppliedBlockNum := BlockNum(cursor);
      r := Ok(cursor);
    }

    /** One more attempt after those that failed. */
    method FlushAgain(
      cursor: Cursor, finalBlock: nat, attempts: seq<Attempt>, used: nat, ghost ops: seq<Operation>, ghost before: Db)
      returns (r: Result<nat>)
      requires Valid() && used < |attempts| && OrdinalListing(ops, loader.pending)
      requires Outcome(server.db, false) == TryFlush(before, ops, cursor, finalBlock, attempts[..used])
      modifies loader, server
      ensures Valid() && loader.Repr == old(loader.Repr)
      ensures Outcome(server.db, r.Ok?) == TryFlush(before, ops, cursor, finalBlock, attempts[..used + 1])
      ensures r.Ok? ==> attempts[used].Commits?
      ensures loader.State() == if r.Ok? then EmptyState else old(loader.State())
    {
      assert attempts[..used + 1] == attempts[..used] + [attempts[used]];
      TryFlushAppend(before, ops, cursor, finalBlock, attempts[..used], [attempts[used]]);
      ghost var pending, again := loader.pending, [];
      r, again := loader.Flush(server, cursor, finalBlock, attempts[used]);
      OrdinalListingIsUnique(ops, again, pending);
    }

    /** The retry loop; `attempts` are the ends of the attempts for which there is time. */
    method FlushWithRetry(cursor: Cursor, finalBlock: nat, attempts: seq<Attempt>)
      returns (r: Result<nat>, ghost ops: seq<Operation>, ghost used: nat)
      requires Valid() && attempts != []
      modifies loader, server
      ensures Valid() && loader.Repr == old(loader.Repr)
      ensures RetriesEnd(flushRetryCount, flushRetryDelay, attempts, used, r.Ok?)
      ensures if used > 0 then OrdinalListing(ops, old(loader.pending)) else r == Err(Connection)
      ensures Outcome(server.db, r.Ok?) == TryFlush(old(server.db), ops, cursor, finalBlock, attempts[..used])
      ensures r.Ok? ==> !TryFlush(old(server.db), ops, cursor, finalBlock, attempts[..used - 1]).succeeded
      ensures loader.State() == if r.Ok? then EmptyState else old(loader.State())
    {
      if flushRetryCount < 0 {
        return Err(Connection), [], 0;
      }
      r, ops := loader.Flush(server, cursor, finalBlock, attempts[0]);
      assert attempts[..1] == [attempts[0]];
      var attempt: nat := 1;
      while r.Err? && attempt <= flushRetryCount && flushRetryDelay != 0 && attempt < |attempts|
        invariant Valid() && loader.Repr == old(loader.Repr)
        invariant 0 < attempt <= |attempts| && attempt <= flushRetryCount + 1
        invariant flushRetryDelay == 0 ==> attempt == 1
        invariant r.Ok? ==> attempts[attempt - 1].Commits?
        invariant r.Ok? ==> !TryFlush(old(server.db), ops, cursor, finalBlock, attempts[..attempt - 1]).succeeded
        invariant Outcome(server.db, r.Ok?) == TryFlush(old(server.db), ops, cursor, finalBlock, attempts[..attempt])
        invariant loader.State() == if r.Ok? then EmptyState else old(loader.State())
        decreases flushRetryCount + 1 - attempt
      {
        r := FlushAgain(cursor, finalBlock, attempts, attempt, ops, old(server.db));
        attempt := attempt + 1;
      }
      used := attempt;
    }

    /** One turn of the loop of `applyDatabaseChanges`. */
    method ApplyDatabaseChange(change: ProtoChange, number: nat, finalBlock: nat) returns (r: Result<()>)
      requires Valid()
      modifies loader, loader.Repr
      ensures Valid() && fresh(loader.Repr - old(loader.Repr))
      ensures match Decode(loader.tables, change)
              case Err(e) => r == Err(e)
              case Ok(None) => r == Ok(()) && loader.State() == old(loader.State())
              case Ok(Some(c)) =>
                loader.Follows(old(loader.State()), Stamp(Block(number, finalBlock, []), c), r)
    {
      var decoded := Decode(loader.tables, change);
      if decoded.Err? {
        return Err(decoded.error);
      }
      if decoded.value.None? {
        return Ok(());
      }
      r := LoadChange(Stamp(Block(number, finalBlock, []), decoded.value.value));
    }

    /** `applyDatabaseChanges` */
    method ApplyDatabaseChanges(changes: seq<ProtoChange>, number: nat, finalBlock: nat) returns (r: Result<()>)
      requires Valid()
      modifies loader, loader.Repr
      ensures Valid() && fresh(loader.Repr - old(loader.Repr))
      ensures match Load(loader.tables, old(loader.State()), changes, number, finalBlock)
              case Err(e) => r == Err(e)
              case Ok(next) => r == Ok(()) && loader.State() == next
    {
      ghost var goal := Load(loader.tables, loader.State(), changes, number, finalBlock);
      for i := 0 to |changes|
        invariant Valid() && fresh(loader.Repr - old(loader.Repr))
        invariant Load(loader.tables, loader.State(), changes[i..], number, finalBlock) == goal
      {
        assert changes[i..][0] == changes[i] && changes[i..][1..] == changes[i + 1..];
        var loaded := ApplyDatabaseChange(changes[i], number, finalBlock);
        if loaded.Err? {
          return loaded;
        }
      }
      r := Ok(());
    }

    /** The call of the loader that a change asks for. */
    method LoadChange(c: Change) returns (r: Result<()>)
      requires Valid() && (c.opType.Delete? ==> c.data == map[])
      modifies loader, loader.Repr
      ensures Valid() && fresh(loader.Repr - old(loader.Repr))
      ensures loader.Follows(old(loader.State()), c, r)
    {
      ghost var before := loader.State();
      match c.opType {
        case Insert => r := loader.Insert(c.table, c.key, c.data, c.reversible);
        case Upsert => r := loader.Upsert(c.table, c.key, c.data, c.reversible);
        case Update => r := loader.Update(c.table, c.key, c.data, c.reversible);
        case Delete => r := loader.Delete(c.table, c.key, c.reversible);
      }
      if r.Ok? {
        AcceptKeepsConsistent(loader.tables, before, c);
      }
    }

    function BatchBlockModulo(isLive: bool): nat {
      if isLive then liveBlockFlushInterval % UINT64
      else if batchBlockFlushInterval > 0 then batchBlockFlushInterval else 0
    }

    /** Blocks since the last flush, in 64-bit unsigned arithmetic: a block below the last one counts as very far. */
    function BlocksSinceFlush(number: nat): nat
      reads this`lastAppliedBlockNum
    {
      (number - lastAppliedBlockNum) % UINT64
    }

    /** Whether the blocks since the last flush ask for one; a negative interval counts as a very large one. */
    ghost predicate BlocksAskForFlush(number: nat, isLive: bool, lagging: bool)
      reads this`lastAppliedBlockNum
    {
      var since := if number >= lastAppliedBlockNum then number - lastAppliedBlockNum
                   else number + UINT64 - lastAppliedBlockNum;
      if isLive then
        var interval := liveBlockFlushInterval;
        interval != 0 && !lagging && since >= if interval > 0 then interval else interval + UINT64
      else
        batchBlockFlushInterval > 0 && since >= batchBlockFlushInterval
    }

    method BlockFlushNeeded(number: nat, isLive: bool, lagging: bool) returns (needed: bool)
      requires lastAppliedBlockNum < UINT64 && number < UINT64
      ensures needed <==> BlocksAskForFlush(number, isLive, lagging)
    {
      var modulo := BatchBlockModulo(isLive);
      needed := modulo > 0 && BlocksSinceFlush(number) >= modulo;
      if needed && isLive && lagging {
        needed := false;
      }
    }

    /**
     One block: its changes are loaded, and the batch is flushed when enough blocks or rows have gathered. `lagging`
     stands for a flush that takes longer than the time between blocks, for which a live flush is put off.
     */
    method HandleBlockScopedData(changes: seq<ProtoChange>, number: nat, finalBlock: nat, isLive: bool, lagging: bool,
                                 attempts: seq<Attempt>)
      returns (r: Result<()>, ghost flush: bool, ghost ops: seq<Operation>, ghost used: nat)
      requires Valid() && attempts != [] && number < UINT64
      modifies this`lastAppliedBlockNum, loader, loader.Repr, server
      ensures Valid() && used <= |attempts| && fresh(loader.Repr - old(loader.Repr))
      ensures !flush ==> used == 0
      ensures flush ==> RetriesEnd(flushRetryCount, flushRetryDelay, attempts, used, r.Ok?)
      ensures BlockHandled(loader.tables, old(server.db), old(loader.State()), changes, number, finalBlock,
                           flush, ops, attempts[..used], r, server.db, loader.State())
      ensures flush && flushRetryCount >= 0 ==> OrdinalListing(
                ops, Load(loader.tables, old(loader.State()), changes, number, finalBlock).value.pending)
      ensures r.Ok? && loader.batchRowFlushInterval >= 0 ==> |loader.pending| <= loader.batchRowFlushInterval
      ensures Load(loader.tables, old(loader.State()), changes, number, finalBlock).Ok? ==>
                (flush <==>
                 || |Load(loader.tables, old(loader.State()), changes, number, finalBlock).value.pending|
                    > loader.batchRowFlushInterval
                 || old(BlocksAskForFlush(number, isLive, lagging)))
      ensures lastAppliedBlockNum == if flush && r.Ok? then number else old(lastAppliedBlockNum)
    {
      flush, ops, used := false, [], 0;
      var loaded := ApplyDatabaseChanges(changes, number, finalBlock);
      if loaded.Err? {
        return loaded, flush, ops, used;
      }
      var blockFlushNeeded := BlockFlushNeeded(number, isLive, lagging);
      var rowFlushNeeded := loader.FlushNeeded();
      if blockFlushNeeded || rowFlushNeeded {
        flush := true;
        var flushed;
        flushed, ops, used := FlushWithRetry(At(number), finalBlock, attempts);
        if flushed.Err? {
          return Err(flushed.error), true, ops, used;
        }
        lastAppliedBlockNum := number;
      }
      r := Ok(());
    }

    /** At the end of the range what is left is flushed, whatever its size. */
    method HandleBlockRangeCompletion(last: nat, reachedEnd: bool, attempts: seq<Attempt>)
      returns (r: Result<()>, ghost ops: seq<Operation>, ghost used: nat)
      requires Valid() && attempts != []
      modifies loader, server
      ensures Valid() && used <= |attempts| && loader.Repr == old(loader.Repr)
      ensures !reachedEnd ==> used == 0
      ensures reachedEnd ==> RetriesEnd(flushRetryCount, flushRetryDelay, attempts, used, r.Ok?)
      ensures if !reachedEnd then r == Ok(()) && server.db == old(server.db) && loader.State() == old(loader.State())
              else
                && (used > 0 ==> OrdinalListing(ops, old(loader.pending)))
                && Outcome(server.db, r.Ok?) == TryFlush(old(server.db), ops, At(last), last, attempts[..used])
                && loader.State() == if r.Ok? then EmptyState else old(loader.State())
    {
      ops, used := [], 0;
      if !reachedEnd {
        return Ok(()), ops, used;
      }
      var flushed;
      flushed, ops, used := FlushWithRetry(At(last), last, attempts);
      r := if flushed.Err? then Err(flushed.error) else Ok(());
    }

    /** An undo signal reverts the database; what is pending and the last applied block stay as they are. */
    method HandleBlockUndoSignal(lastValidBlock: nat, cursor: Cursor, answer: seq<Record>, attempt: Attempt)
      returns (r: Result<()>)
      requires Valid() && QueryAnswer(server.db.history, lastValidBlock, answer)
      modifies server
      ensures Valid() && loader.State() == old(loader.State()) && lastAppliedBlockNum == old(lastAppliedBlockNum)
      ensures match RevertTransaction(old(server.db), answer, lastValidBlock, cursor)
              case Err(e) => r == Err(e) && server.db == old(server.db)
              case Ok(next) =>
                && server.db == (if attempt.Fails? then old(server.db) else next)
                && r == if attempt.Commits? then Ok(()) else Err(Connection)
    {
      r := loader.Revert(server, cursor, lastValidBlock, answer, attempt);
    }
  }
}
