/** Depth-first building of proto files, each after the files it depends on. */
module ProtoFiles {
  import opened Prelude

  datatype ProtoFile = ProtoFile(name: string, dependency: seq<string>)

  type Files = map<string, ProtoFile>

  /** The files are filed under their names. */
  ghost predicate Keyed(files: Files) {
    forall name :: name in files ==> files[name].name == name
  }

  /** No cycle: each file that another one depends on has a lower rank. */
  ghost predicate Acyclic(files: Files, rank: map<string, nat>) {
    && (forall name :: name in files ==> name in rank)
    && forall name, d :: name in files && d in files[name].dependency && d in files ==> rank[d] < rank[name]
  }

  ghost predicate Complete(files: Files) {
    forall name :: name in files ==> NothingMissing(files, files[name])
  }

  predicate NothingMissing(files: Files, file: ProtoFile) {
    forall d :: d in file.dependency ==> d in files
  }

  /** The files built so far; `order` is the order in which they were. */
  class Builder {
    var deps: set<string>
    ghost var order: seq<string>

    /** Each file was built once, after all files that it depends on. */
    ghost predicate Valid(files: Files)
      reads this
    {
      && (forall name :: name in deps <==> name in order)
      && (forall i, j :: 0 <= i < j < |order| ==> order[i] != order[j])
      && forall i :: 0 <= i < |order| ==> order[i] in files && BuiltBefore(files[order[i]].dependency, order, i)
    }

    constructor ()
      ensures deps == {} && order == []
    {
      deps, order := {}, [];
    }

    /** Building needs all that the file depends on. */
    method Build(files: Files, file: ProtoFile)
      requires Valid(files) && file.name in files && files[file.name] == file && file.name !in deps
      requires forall d :: d in file.dependency ==> d in deps
      modifies this
      ensures Valid(files) && order == old(order) + [file.name] && deps == old(deps) + {file.name}
    {
      BeforeAppend(order, file.name);
      deps := deps + {file.name};
      order := order + [file.name];
      assert BuiltBefore(file.dependency, order, |order| - 1);
    }

    method Resolve(file: ProtoFile, files: Files, ghost rank: map<string, nat>) returns (error: Option<Failure>)
      requires Keyed(files) && Acyclic(files, rank)
      requires Valid(files) && file.name in files && files[file.name] == file
      modifies this
      ensures Valid(files) && old(order) <= order
      ensures error.None? ==> file.name in deps
      ensures error.Some? ==> error == Some(MissingDependency) && !Complete(files)
      ensures forall name :: name in deps && name !in old(deps) ==> rank[name] <= rank[file.name]
      decreases rank[file.name]
    {
      if file.name in deps {
        return None;
      }
      for i := 0 to |file.dependency|
        invariant Valid(files) && old(order) <= order && old(deps) <= deps
        invariant forall d :: d in file.dependency[..i] ==> d in deps
        invariant forall name :: name in deps && name !in old(deps) ==> name in rank && rank[name] < rank[file.name]
      {
        var dep := file.dependency[i];
        assert dep in file.dependency && dep in files[file.name].dependency;
        if dep !in files {
          assert !NothingMissing(files, files[file.name]);
          return Some(MissingDependency);
        }
        ghost var before := deps;
        assert forall name :: name in deps ==> name in order;
        error := Resolve(files[dep], files, rank);
        if error.Some? {
          return;
        }
        assert before <= deps && files[dep].name == dep;
        assert file.dependency[..i + 1] == file.dependency[..i] + [dep];
      }
      assert file.dependency[..|file.dependency|] == file.dependency;
      Build(files, file);
      error := None;
    }
  }

  ghost predicate BuiltBefore(names: seq<string>, order: seq<string>, i: nat)
    requires i <= |order|
  {
    forall d :: d in names ==> d in order[..i]
  }

  lemma BeforeAppend(order: seq<string>, name: string)
    ensures forall i :: 0 <= i <= |order| ==> (order + [name])[..i] == order[..i]
  {
  }

  /** Whatever order the map is gone through in: all files in dependency order, or a missing one. */
  method ResolveDependencies(files: Files, ghost rank: map<string, nat>)
    returns (error: Option<Failure>, built: Builder)
    requires Keyed(files) && Acyclic(files, rank)
    ensures built.Valid(files)
    ensures error.None? <==> Complete(files)
    ensures error.None? ==> forall name :: name in built.deps <==> name in files
  {
    built := new Builder();
    var left := files.Keys;
    while left != {}
      invariant built.Valid(files) && fresh(built)
      invariant forall name :: name in left ==> name in files
      invariant forall name :: name in files ==> name in built.deps || name in left
      decreases |left|
    {
      var name :| name in left;
      error := built.Resolve(files[name], files, rank);
      if error.Some? {
        return;
      }
      left := left - {name};
    }
    AllBuiltComplete(built, files);
    error := None;
  }

  /** What is built depends on nothing that is missing. */
  lemma AllBuiltComplete(built: Builder, files: Files)
    requires built.Valid(files)
    ensures forall name :: name in built.deps ==> name in files && NothingMissing(files, files[name])
  {
    forall name | name in built.deps ensures name in files && NothingMissing(files, files[name]) {
      var i :| 0 <= i < |built.order| && built.order[i] == name;
      assert BuiltBefore(files[name].dependency, built.order, i);
      forall d | d in files[name].dependency ensures d in files {
        var j :| 0 <= j < i && built.order[j] == d;
      }
    }
  }
}
