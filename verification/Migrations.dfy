/** The migration runner over any sequence of opens, each of which may fail at any
    statement. */
module Migrations {
  import Sequences
  import Sorting
  import Text

  /** The names not yet recorded, in order. */
  function Unapplied(names: seq<string>, applied: seq<string>): seq<string> {
    if names == [] then []
    else (if names[0] in applied then [] else [names[0]]) + Unapplied(names[1..], applied)
  }

  // ---- Any sequence of opens ----

  /** A run of opens: each offers the sorted names of its migration files, gets through
      `done` of those it finds unapplied, and reports success or failure. */
  datatype Opens = Never | Open(past: Opens, names: seq<string>, done: nat, ok: bool)

  /** The migrations whose scripts have been committed, in the order they ran. */
  function Applied(o: Opens): seq<string> {
    match o
    case Never => []
    case Open(past, names, done, _) =>
      var todo := Unapplied(names, Applied(past));
      Applied(past) + if done <= |todo| then todo[..done] else todo
  }

  /** What an open can do: the names are distinct, and success means everything unapplied
      has run. */
  ghost predicate Possible(o: Opens) {
    match o
    case Never => true
    case Open(past, names, done, ok) =>
      && Possible(past)
      && Sorting.Distinct(names)
      && done <= |Unapplied(names, Applied(past))|
      && (ok ==> done == |Unapplied(names, Applied(past))|)
  }

  lemma {:induction false} UnappliedMembers(names: seq<string>, applied: seq<string>, todo: seq<string>)
    requires Sorting.Distinct(names) && todo == Unapplied(names, applied)
    ensures Sorting.Distinct(todo)
    ensures forall n :: n in todo <==> n in names && n !in applied
  {
    if names != [] {
      UnappliedMembers(names[1..], applied, Unapplied(names[1..], applied));
      assert names == [names[0]] + names[1..];
      assert names[0] !in names[1..];
    }
  }

  /** Whatever files come and go between opens, and wherever they fail, no migration runs
      twice. */
  lemma {:induction false} NoMigrationRunsTwice(o: Opens)
    requires Possible(o)
    ensures Sorting.Distinct(Applied(o))
  {
    match o
    case Never =>
    case Open(past, names, done, _) =>
      NoMigrationRunsTwice(past);
      var before, todo := Applied(past), Unapplied(names, Applied(past));
      UnappliedMembers(names, before, todo);
      assert forall i :: 0 <= i < done ==> todo[i] in todo;
  }

  /** Every open of the run offers these names. */
  predicate Fixed(o: Opens, names: seq<string>) {
    match o
    case Never => true
    case Open(past, offered, _, _) => offered == names && Fixed(past, names)
  }

  lemma {:induction false} UnappliedNone(names: seq<string>, applied: seq<string>)
    requires forall i :: 0 <= i < |names| ==> names[i] in applied
    ensures Unapplied(names, applied) == []
  {
    if names != [] {
      UnappliedNone(names[1..], applied);
    }
  }

  lemma {:induction false} UnappliedAll(names: seq<string>, applied: seq<string>)
    requires forall i :: 0 <= i < |names| ==> names[i] !in applied
    ensures Unapplied(names, applied) == names
  {
    if names != [] {
      UnappliedAll(names[1..], applied);
    }
  }

  lemma {:induction false} UnappliedAppend(a: seq<string>, b: seq<string>, applied: seq<string>)
    ensures Unapplied(a + b, applied) == Unapplied(a, applied) + Unapplied(b, applied)
  {
    if a == [] {
      assert a + b == b;
    } else {
      assert (a + b)[1..] == a[1..] + b;
      UnappliedAppend(a[1..], b, applied);
      Sequences.Assoc(if a[0] in applied then [] else [a[0]], Unapplied(a[1..], applied), Unapplied(b, applied));
    }
  }

  /** After a prefix of distinct names, what is left is the rest of them. */
  lemma UnappliedAfterPrefix(names: seq<string>, k: nat)
    requires Sorting.Distinct(names) && k <= |names|
    ensures Unapplied(names, names[..k]) == names[k..]
  {
    assert names == names[..k] + names[k..];
    UnappliedAppend(names[..k], names[k..], names[..k]);
    UnappliedNone(names[..k], names[..k]);
    UnappliedAll(names[k..], names[..k]);
  }

  /** With a fixed set of files, what has run is always a prefix of the sorted names; after a
      successful open it is all of them, and opening again runs nothing. */
  lemma {:induction false} FixedSetRunsInOrder(o: Opens, names: seq<string>)
    requires Possible(o) && Fixed(o, names) && Sorting.Distinct(names)
    ensures |Applied(o)| <= |names| && Applied(o) == names[..|Applied(o)|]
    ensures o.Open? && o.ok ==> Applied(o) == names && Unapplied(names, Applied(o)) == []
  {
    match o
    case Never =>
    case Open(past, _, done, _) =>
      FixedSetRunsInOrder(past, names);
      var k := |Applied(past)|;
      UnappliedAfterPrefix(names, k);
      PrefixGrows(names, k, done);
      if o.ok {
        UnappliedAfterPrefix(names, |names|);
      }
  }

  lemma PrefixGrows(names: seq<string>, k: nat, done: nat)
    requires k + done <= |names|
    ensures names[..k] + names[k..][..done] == names[..k + done]
    ensures k + done == |names| ==> names[..k + done] == names
  {
  }

  // ---- One open ----

  /** A statement of the runner that can fail: creating the table, and for each migration
      checking, reading, beginning, running the script, recording it, committing. */
  datatype Stage = CreateTable | Check | Read | Begin | Exec | Insert | Commit

  class Database {
    /** schema_migrations. */
    var versions: set<string>
    /** The scripts whose effects are in the database, in the order they were committed. */
    var executed: seq<string>
    ghost var opens: Opens

    ghost predicate Valid()
      reads this
    {
      && Possible(opens)
      && executed == Applied(opens)
      && (forall v :: v in versions <==> v in executed)
    }

    constructor ()
      ensures Valid() && opens == Never
    {
      versions, executed, opens := {}, [], Never;
    }

    /** One migration in one transaction: on failure neither its effects nor its record stay. */
    method Apply(name: string, fails: Stage -> bool) returns (ok: bool)
      modifies this`versions, this`executed
      ensures ok <==> !fails(Read) && !fails(Begin) && !fails(Exec) && !fails(Insert) && !fails(Commit)
      ensures versions == if ok then old(versions) + {name} else old(versions)
      ensures executed == if ok then old(executed) + [name] else old(executed)
    {
      if fails(Read) || fails(Begin) {
        return false;
      }
      var versions0, executed0 := versions, executed;
      executed := executed + [name];
      if fails(Exec) {
        executed := executed0;
        return false;
      }
      versions := versions + {name};
      if fails(Insert) || fails(Commit) {
        versions, executed := versions0, executed0;
        return false;
      }
      return true;
    }

    /** The loop over the names: stops at the first failure. */
    method ApplyAll(names: seq<string>, fails: (string, Stage) -> bool) returns (ok: bool, ghost done: nat)
      requires Sorting.Distinct(names)
      requires forall v :: v in versions <==> v in executed
      modifies this`versions, this`executed
      ensures forall v :: v in versions <==> v in executed
      ensures var todo := Unapplied(names, old(executed));
        && done <= |todo| && executed == old(executed) + todo[..done] && (ok ==> done == |todo|)
      ensures (forall n, stage :: !fails(n, stage)) ==> ok
    {
      ghost var before := executed;
      done := 0;
      for i := 0 to |names|
        invariant done == |Unapplied(names[..i], before)|
        invariant executed == before + Unapplied(names[..i], before)
        invariant forall v :: v in versions <==> v in executed
      {
        var name := names[i];
        UnappliedNext(names, before, i);
        Stopped(names, before, i);
        if fails(name, Check) {
          return false, done;
        }
        if name in versions {
          continue;
        }
        var applied := Apply(name, stage => fails(name, stage));
        if !applied {
          return false, done;
        }
        done := done + 1;
      }
      Stopped(names, before, |names|);
      assert names[..|names|] == names;
      return true, done;
    }

    /** Applies whatever is pending, in filename order. */
    method Migrate(files: set<string>, fails: (string, Stage) -> bool)
      returns (ok: bool, ghost names: seq<string>, ghost done: nat)
      requires Valid()
      modifies this
      ensures Valid() && opens == Open(old(opens), names, done, ok)
      ensures Sorting.Sorted(Text.Less, names) && Sorting.Distinct(names)
      ensures forall n :: n in names <==> n in files
      ensures (forall n, stage :: !fails(n, stage)) ==> ok
    {
      var sorted := SortedNames(files);
      names := sorted;
      if fails("", CreateTable) {
        ok, done := false, 0;
      } else {
        ok, done := ApplyAll(sorted, fails);
      }
      opens := Open(opens, names, done, ok);
    }
  }

  method SortedNames(files: set<string>) returns (names: seq<string>)
    ensures Sorting.Sorted(Text.Less, names) && Sorting.Distinct(names)
    ensures forall n :: n in names <==> n in files
  {
    var entries := Sorting.Range(files);
    TextOrder();
    names := Sorting.Sort(entries, Text.Less);
    Sorting.RearrangedDistinct(entries, names);
  }

  lemma TextOrder()
    ensures Sorting.StrictWeakOrder(Text.Less)
  {
    forall a, b, c: string
      ensures !Text.Less(a, a)
      ensures Text.Less(a, b) && Text.Less(b, c) ==> Text.Less(a, c)
      ensures Text.Less(a, c) ==> Text.Less(a, b) || Text.Less(b, c)
    {
      Text.LessTotal(a, a);
      Text.LessTransitive(a, b, c);
      Text.LessTransitive(b, a, c);
      Text.LessTotal(a, b);
      Text.LessTotal(b, c);
    }
  }

  lemma UnappliedNext(names: seq<string>, applied: seq<string>, i: nat)
    requires Sorting.Distinct(names) && i < |names|
    ensures Unapplied(names[..i + 1], applied) ==
      Unapplied(names[..i], applied) + if names[i] in applied then [] else [names[i]]
    ensures names[i] in applied + Unapplied(names[..i], applied) <==> names[i] in applied
  {
    assert names[..i + 1] == names[..i] + [names[i]];
    UnappliedAppend(names[..i], [names[i]], applied);
    UnappliedMembers(names[..i], applied, Unapplied(names[..i], applied));
  }

  /** Stopping after i names has applied a prefix of what was pending. */
  lemma Stopped(names: seq<string>, applied: seq<string>, i: nat)
    requires i <= |names|
    ensures var todo, got := Unapplied(names, applied), Unapplied(names[..i], applied);
      |got| <= |todo| && got == todo[..|got|]
  {
    assert names == names[..i] + names[i..];
    UnappliedAppend(names[..i], names[i..], applied);
  }
}
