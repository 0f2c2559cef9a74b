/** unsetenv() and setenv() over the terminated array of environment entries. */
module Environment {
  import opened Options

  type Entry = Option<string>

  datatype Outcome = Success | EInval | ENoMem

  // ------------------------------------------------------- names and values

  /** Where the first '=' is, or the length of the text if there is none. */
  function NameEnd(entry: string): (n: nat)
    ensures n <= |entry| && '=' !in entry[..n]
    ensures n < |entry| ==> entry[n] == '='
  {
    if entry == "" || entry[0] == '=' then 0
    else
      var n := NameEnd(entry[1..]);
      assert entry[..1 + n] == [entry[0]] + entry[1..][..n];
      1 + n
  }

  /** The entry defines the name: the text before its first '=' is the name. */
  predicate Defines(entry: string, name: string) {
    var n := NameEnd(entry);
    n < |entry| && entry[..n] == name
  }

  /** What the program compares: the first characters, and the one after them. */
  predicate Matches(entry: string, name: string) {
    name <= entry && |name| < |entry| && entry[|name|] == '='
  }

  predicate ProperName(name: string) {
    name != "" && '=' !in name
  }

  lemma MatchesMeansDefines(entry: string, name: string)
    requires ProperName(name)
    ensures Matches(entry, name) <==> Defines(entry, name)
  {
    var n := NameEnd(entry);
    assert forall i | 0 <= i < n :: entry[..n][i] != '=';
    if Matches(entry, name) {
      assert forall i | 0 <= i < |name| :: name[i] != '=';
    }
  }

  /** The values the list gives the name, in order; getenv() finds the first. */
  function Values(list: seq<string>, name: string): seq<string> {
    if list == [] then []
    else
      var last := list[|list| - 1];
      Values(list[..|list| - 1], name) + if Defines(last, name) then [last[NameEnd(last) + 1..]] else []
  }

  /** The list without the entries that define the name. */
  function Without(list: seq<string>, name: string): seq<string> {
    if list == [] then []
    else
      var last := list[|list| - 1];
      Without(list[..|list| - 1], name) + if Defines(last, name) then [] else [last]
  }

  lemma {:induction false} WithoutSnoc(list: seq<string>, entry: string, name: string)
    ensures Without(list + [entry], name) == Without(list, name) + if Defines(entry, name) then [] else [entry]
  {
    assert (list + [entry])[..|list|] == list;
  }

  lemma {:induction false} ValuesSnoc(list: seq<string>, entry: string, name: string)
    ensures Values(list + [entry], name)
         == Values(list, name) + if Defines(entry, name) then [entry[NameEnd(entry) + 1..]] else []
  {
    assert (list + [entry])[..|list|] == list;
  }

  // ---------------------------------------------------------- the program

  class Process {
    /** The pointers, the first null one being the terminator. */
    var environ: array<Entry>
    /** The entries before the terminator. */
    ghost var list: seq<string>

    ghost predicate Valid()
      reads this, environ
    {
      && |list| < environ.Length && environ[|list|] == None
      && forall i | 0 <= i < |list| :: environ[i] == Some(list[i])
    }

    /** The entries after ep, and the terminator, each move back by one. */
    method ShiftBack(ep: nat)
      requires Valid() && ep < |list|
      modifies environ, this`list
      ensures Valid() && list == old(list[..ep] + list[ep + 1..])
    {
      var sp := ep;
      while environ[sp] != None
        invariant list == old(list) && ep <= sp <= |list|
        invariant forall i | 0 <= i < environ.Length ::
          environ[i] == if ep <= i < sp then old(environ[i + 1]) else old(environ[i])
        decreases |list| - sp
      {
        environ[sp] := environ[sp + 1];
        sp := sp + 1;
      }
      list := list[..ep] + list[ep + 1..];
    }

    method UnsetEnv(name: Option<string>) returns (r: Outcome)
      requires Valid()
      modifies environ, this`list
      ensures Valid()
      ensures r == if name.None? || name.value == "" || '=' in name.value then EInval else Success
      ensures list == if r == Success then Without(old(list), name.value) else old(list)
    {
      hide Progress, Defines, Matches, Without;
      if name.None? || !ProperName(name.value) {
        return EInval;
      }
      ghost var done := 0;
      var ep := 0;
      ProgressStarts(list, name.value);
      while environ[ep] != None
        invariant Valid() && ep <= |list| && Progress(old(list), done, name.value, list, ep)
        decreases |old(list)| - done
      {
        var entry := environ[ep].value;
        MatchesMeansDefines(entry, name.value);
        ProgressGoesOn(old(list), done, name.value, list, ep);
        if Matches(entry, name.value) {
          ShiftBack(ep);
        } else {
          ep := ep + 1;
        }
        done := done + 1;
      }
      ProgressEnds(old(list), done, name.value, list, ep);
      return Success;
    }

    /** The value of the first entry that defines the name. */
    method GetEnv(name: string) returns (r: Option<string>)
      requires Valid() && ProperName(name)
      ensures r == if Values(list, name) == [] then None else Some(Values(list, name)[0])
    {
      var ep := 0;
      assert list[..0] == [];
      hide Values, NameEnd;
      while environ[ep] != None
        invariant ep <= |list| && Values(list[..ep], name) == []
        decreases |list| - ep
      {
        var entry := environ[ep].value;
        NextValue(list, ep, name);
        if Defines(entry, name) {
          return Some(entry[NameEnd(entry) + 1..]);
        }
        ep := ep + 1;
      }
      assert list[..ep] == list;
      return None;
    }

    /** Adds an entry whose name is not defined, in a larger array. */
    method PutEnv(entry: string, memory: bool) returns (ok: bool)
      requires Valid()
      modifies this
      ensures Valid() && ok == memory && (environ == old(environ) || fresh(environ))
      ensures list == if ok then old(list) + [entry] else old(list)
    {
      if !memory {
        return false;
      }
      var n := 0;
      while environ[n] != None
        invariant Valid() && unchanged(this) && n <= |list|
        decreases |list| - n
      {
        n := n + 1;
      }
      var larger := new Entry[n + 2](_ => None);
      for i := 0 to n
        invariant Valid() && unchanged(this)
        invariant forall j | 0 <= j < i :: larger[j] == environ[j]
        invariant forall j | i <= j < n + 2 :: larger[j] == None
      {
        larger[i] := environ[i];
      }
      larger[n] := Some(entry);
      environ, list := larger, list + [entry];
      return true;
    }

    /** memory says whether malloc() and putenv() find memory. */
    method SetEnv(name: Option<string>, value: Option<string>, overwrite: int, memory: (bool, bool))
        returns (r: Outcome)
      requires Valid()
      modifies this, environ
      ensures Valid()
      ensures r == EInval <==> name.None? || name.value == "" || '=' in name.value || value.None?
      ensures r == EInval ==> list == old(list)
      ensures r != EInval ==> list == SetList(old(list), name.value, value.value, overwrite, memory.0 && memory.1)
      ensures r == ENoMem <==>
                && r != EInval && !(memory.0 && memory.1)
                && !(overwrite == 0 && Values(old(list), name.value) != [])
      ensures r == Success ==>
                Values(list, name.value)
                == if overwrite == 0 && Values(old(list), name.value) != [] then Values(old(list), name.value)
                   else [value.value]
      ensures r == ENoMem ==> Values(list, name.value) == []
      ensures r != EInval ==>
                forall other | other != name.value :: Values(list, other) == Values(old(list), other)
    {
      hide Values, Without, NameEnd, Defines;
      if name.None? || !ProperName(name.value) || value.None? {
        return EInval;
      }
      SetMeans(list, name.value, value.value, overwrite, memory.0 && memory.1);
      var present := GetEnv(name.value);
      if present.Some? && overwrite == 0 {
        return Success;
      }
      var removed := UnsetEnv(name);
      if !memory.0 {
        return ENoMem;
      }
      var es := name.value + "=" + value.value;
      var ok := PutEnv(es, memory.1);
      return if ok then Success else ENoMem;
    }
  }

  /** The list while unsetenv() runs: what was looked at, filtered, and the rest. */
  ghost predicate Progress(all: seq<string>, done: nat, name: string, list: seq<string>, ep: nat) {
    && done <= |all|
    && list == Without(all[..done], name) + all[done..]
    && ep == |Without(all[..done], name)|
  }

  lemma ProgressStarts(all: seq<string>, name: string)
    ensures Progress(all, 0, name, all, 0)
  {
    assert all[..0] == [] && Without([], name) + all == all;
  }

  lemma ProgressGoesOn(all: seq<string>, done: nat, name: string, list: seq<string>, ep: nat)
    requires Progress(all, done, name, list, ep)
    ensures done <= |all| && ep <= |list| && (done == |all| <==> ep == |list|)
    ensures ep < |list| && Defines(list[ep], name) ==>
              Progress(all, done + 1, name, list[..ep] + list[ep + 1..], ep)
    ensures ep < |list| && !Defines(list[ep], name) ==> Progress(all, done + 1, name, list, ep + 1)
  {
    if ep < |list| {
      assert all[..done + 1] == all[..done] + [all[done]];
      WithoutSnoc(all[..done], all[done], name);
      hide Without, Defines;
    }
  }

  lemma {:induction false} ProgressEnds(all: seq<string>, done: nat, name: string, list: seq<string>, ep: nat)
    requires Progress(all, done, name, list, ep) && ep >= |list|
    ensures list == Without(all, name)
  {
    assert all[..done] == all;
  }

  lemma {:induction false} NextValue(list: seq<string>, k: nat, name: string)
    requires k < |list| && Values(list[..k], name) == []
    ensures !Defines(list[k], name) ==> Values(list[..k + 1], name) == []
    ensures Defines(list[k], name) ==>
              Values(list, name) != [] && Values(list, name)[0] == list[k][NameEnd(list[k]) + 1..]
  {
    assert list[..k + 1] == list[..k] + [list[k]];
    ValuesSnoc(list[..k], list[k], name);
    assert list == list[..k + 1] + list[k + 1..];
    ValuesConcat(list[..k + 1], list[k + 1..], name);
  }

  lemma {:induction false} ValuesConcat(a: seq<string>, b: seq<string>, name: string)
    ensures Values(a + b, name) == Values(a, name) + Values(b, name)
  {
    if b == [] {
      assert a + b == a;
    } else {
      assert (a + b)[..|a + b| - 1] == a + b[..|b| - 1];
      ValuesConcat(a, b[..|b| - 1], name);
    }
  }

  // ------------------------------------------------- what a call comes to

  predicate Kept(list: seq<string>, name: string, overwrite: int) {
    Values(list, name) != [] && overwrite == 0
  }

  /** The list after setenv(); without memory the name has been removed. */
  function SetList(list: seq<string>, name: string, value: string, overwrite: int, memory: bool): seq<string> {
    if Kept(list, name, overwrite) then list
    else Without(list, name) + if memory then [name + "=" + value] else []
  }

  lemma NewEntryDefines(name: string, value: string, other: string)
    requires ProperName(name)
    ensures var entry := name + "=" + value;
            && NameEnd(entry) == |name| && entry[NameEnd(entry) + 1..] == value
            && (Defines(entry, other) <==> other == name)
  {
    var entry := name + "=" + value;
    assert entry[..|name|] == name && entry[|name| + 1..] == value;
    MatchesMeansDefines(entry, name);
    assert Matches(entry, name);
  }

  /** unsetenv() leaves no definition of the name, and of every other name exactly
      the definitions there were, in the same order. */
  lemma {:induction false} WithoutMeans(list: seq<string>, name: string, other: string)
    ensures Values(Without(list, name), other) == if other == name then [] else Values(list, other)
  {
    if list != [] {
      var init, last := list[..|list| - 1], list[|list| - 1];
      WithoutMeans(init, name, other);
      assert Defines(last, name) && Defines(last, other) ==> name == other;
      ValuesSnoc(Without(init, name), last, other);
      if Defines(last, name) {
        assert Without(list, name) == Without(init, name);
      } else {
        assert Without(list, name) == Without(init, name) + [last];
      }
    }
  }

  /** It removes nothing else: what is kept is a subsequence, and the entries that
      define the name are all that is missing. */
  lemma {:induction false} WithoutKeepsTheRest(list: seq<string>, name: string, entry: string)
    ensures multiset(Without(list, name))[entry] == if Defines(entry, name) then 0 else multiset(list)[entry]
    ensures Without(list, name) == list <==> Values(list, name) == []
    ensures |Without(list, name)| + |Values(list, name)| == |list|
  {
    if list != [] {
      var init, last := list[..|list| - 1], list[|list| - 1];
      assert list == init + [last];
      WithoutKeepsTheRest(init, name, entry);
    }
  }

  /** setenv() leaves the other names as they were. With memory, and unless the
      value is kept because overwrite is 0, the name has one definition, the new
      value; without, it has none. */
  lemma {:induction false} SetMeans(list: seq<string>, name: string, value: string, overwrite: int, memory: bool)
    requires ProperName(name)
    ensures var after := SetList(list, name, value, overwrite, memory);
            && (forall other | other != name :: Values(after, other) == Values(list, other))
            && Values(after, name)
               == if overwrite == 0 && Values(list, name) != [] then Values(list, name)
                  else if memory then [value] else []
  {
    hide Values, Without, Defines, NameEnd;
    forall other ensures Values(Without(list, name), other) == if other == name then [] else Values(list, other)
    {
      WithoutMeans(list, name, other);
    }
    var left, entry := Without(list, name), name + "=" + value;
    assert left + [] == left;
    forall other ensures Values(left + [entry], other)
                      == Values(left, other) + if other == name then [value] else []
    {
      NewEntryDefines(name, value, other);
      ValuesSnoc(left, entry, other);
    }
  }

  /** A setenv() that finds no memory leaves the environment unchanged, as the
      standard wants, only if the name was not defined. */
  lemma {:induction false} FailureIsCleanOnlyForNewNames(list: seq<string>, name: string, value: string, overwrite: int)
    requires !(overwrite == 0 && Values(list, name) != [])
    ensures SetList(list, name, value, overwrite, false) == list <==> Values(list, name) == []
  {
    WithoutKeepsTheRest(list, name, "");
  }

  /** The least case: one definition, gone after a setenv() without memory. */
  lemma FailureExample()
    ensures SetList(["A=1"], "A", "2", 1, false) == []
    ensures Values(["A=1"], "A") == ["1"] && Values([], "A") == []
  {
    NewEntryDefines("A", "1", "A");
    assert "A" + "=" + "1" == "A=1" && ["A=1"][..0] == [];
  }

  /** Setting again gives what setting once with the last value gives. */
  lemma LastSetWins(list: seq<string>, name: string, first: string, second: string, overwrite: int)
    requires ProperName(name) && overwrite != 0
    ensures SetList(SetList(list, name, first, overwrite, true), name, second, overwrite, true)
         == SetList(list, name, second, overwrite, true)
  {
    NewEntryDefines(name, first, name);
    WithoutSnoc(Without(list, name), name + "=" + first, name);
    WithoutMeans(list, name, name);
    WithoutKeepsTheRest(Without(list, name), name, "");
  }
}
