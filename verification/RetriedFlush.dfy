/** The retry loop around the flush transaction, whose commits may be applied without being acknowledged. */
module RetriedFlush {
  import opened Database

  /** How one attempt to flush ends; a commit may be applied although its success is never reported. */
  datatype Attempt = Fails | AppliedButLost | Commits

  datatype Outcome = Outcome(db: Db, succeeded: bool)

  /** The retry loop around the flush transaction. */
  function TryFlush(db: Db, ops: seq<Operation>, cursor: Cursor, finalBlock: nat, attempts: seq<Attempt>): Outcome
    decreases |attempts|
  {
    if attempts == [] then Outcome(db, false)
    else match FlushTransaction(db, ops, cursor, finalBlock)
      case Err(_) => TryFlush(db, ops, cursor, finalBlock, attempts[1..])
      case Ok(next) =>
        match attempts[0]
        case Fails => TryFlush(db, ops, cursor, finalBlock, attempts[1..])
        case AppliedButLost => TryFlush(next, ops, cursor, finalBlock, attempts[1..])
        case Commits => Outcome(next, true)
  }

  /** How often the transaction is applied. */
  function TimesApplied(db: Db, ops: seq<Operation>, cursor: Cursor, finalBlock: nat, attempts: seq<Attempt>): nat
    decreases |attempts|
  {
    if attempts == [] then 0
    else match FlushTransaction(db, ops, cursor, finalBlock)
      case Err(_) => TimesApplied(db, ops, cursor, finalBlock, attempts[1..])
      case Ok(next) =>
        match attempts[0]
        case Fails => TimesApplied(db, ops, cursor, finalBlock, attempts[1..])
        case AppliedButLost => 1 + TimesApplied(next, ops, cursor, finalBlock, attempts[1..])
        case Commits => 1
  }

  lemma {:induction false} TryFlushAppend(
    db: Db, ops: seq<Operation>, cursor: Cursor, finalBlock: nat, a: seq<Attempt>, b: seq<Attempt>)
    requires !TryFlush(db, ops, cursor, finalBlock, a).succeeded
    ensures TryFlush(db, ops, cursor, finalBlock, a + b) ==
            TryFlush(TryFlush(db, ops, cursor, finalBlock, a).db, ops, cursor, finalBlock, b)
    decreases |a|
  {
    if a == [] {
      assert a + b == b;
    } else {
      assert (a + b)[0] == a[0] && (a + b)[1..] == a[1..] + b;
      match FlushTransaction(db, ops, cursor, finalBlock)
      case Err(_) => TryFlushAppend(db, ops, cursor, finalBlock, a[1..], b);
      case Ok(next) =>
        if a[0].AppliedButLost? {
          TryFlushAppend(next, ops, cursor, finalBlock, a[1..], b);
        } else {
          TryFlushAppend(db, ops, cursor, finalBlock, a[1..], b);
        }
    }
  }
}
