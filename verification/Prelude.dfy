/** Failure-carrying results, and the reasons for which an operation of the sink is refused. */
module Prelude {

  datatype Option<+T> = None | Some(value: T)

  datatype Result<+T> = Ok(value: T) | Err(error: Failure)

  datatype Failure =
    | UnknownTable
    | UnknownColumn
    | NoPrimaryKey
    | CompositeKey
    | NoColumns
    | NullKeyColumn
    | DuplicateKey
    | NotThePrimaryKey
    | PendingInsert
    | PendingUpdate
    | PendingUpsert
    | PendingDelete
    | CursorNotFound
    | ModuleMismatch
    | Connection
    | StopBlockReached
    | NoActiveFile
    | FileAlreadyOpen
    | MissingDependency
    | MalformedReference
    | MissingPrimaryKeyField
    | NoKeyForChildren
    | RepeatedScalar
    | MixedList
    | NilMessageReceived
    | BadRangeName

  lemma SplitAt<T>(s: seq<T>, i: nat, j: nat)
    requires i <= j <= |s|
    ensures s[..j] == s[..i] + s[i..j] && s == s[..j] + s[j..]
  {
  }

  lemma Associative<T>(a: seq<T>, b: seq<T>, c: seq<T>)
    ensures a + b + c == a + (b + c)
  {
  }
}
