/** The shell's variables as an ordered map, and the environment that carries the exported
    ones to a child process (bin/sh.c:38-159, bin/sh.c:473-549, libs/libc.c:42-60). */
module ShellVariables {
  import opened Seqs
  import opened PathBuffers
  import opened PathResolution

  const MAX_VARS := 64
  const MAX_VAR_NAME := 64
  const MAX_VAR_VALUE := 256
  const ENTRY_SIZE := MAX_VAR_NAME + MAX_VAR_VALUE

  datatype ShellVar = ShellVar(name: string, value: string, exported: bool)

  datatype Option<T> = None | Some(value: T)

  // ---------------- the table as a list ----------------

  function Names(vs: seq<ShellVar>): (r: seq<string>)
    ensures |r| == |vs| && forall i {:trigger r[i]} {:trigger vs[i]} :: 0 <= i < |vs| ==> r[i] == vs[i].name
  {
    seq(|vs|, i requires 0 <= i < |vs| => vs[i].name)
  }

  /** The first place of a name from place `i` on, or -1. */
  function FindFrom(vs: seq<ShellVar>, name: string, i: nat): (r: int)
    requires i <= |vs|
    ensures r == -1 || (i <= r < |vs| && vs[r].name == name)
    ensures forall k :: i <= k < (if r < 0 then |vs| else r) ==> vs[k].name != name
    decreases |vs| - i
  {
    if i == |vs| then -1 else if vs[i].name == name then i else FindFrom(vs, name, i + 1)
  }

  /** The first place of a name, or -1. */
  function Find(vs: seq<ShellVar>, name: string): (r: int)
    ensures -1 <= r < |vs|
    ensures r >= 0 ==> vs[r].name == name
    ensures forall k :: 0 <= k < (if r < 0 then |vs| else r) ==> vs[k].name != name
  {
    FindFrom(vs, name, 0)
  }

  function Set(vs: seq<ShellVar>, name: string, value: string, exported: bool): seq<ShellVar> {
    var i, v := Find(vs, name), First(value, MAX_VAR_VALUE - 1);
    if i >= 0 then vs[i := vs[i].(value := v, exported := exported || vs[i].exported)]
    else if |vs| >= MAX_VARS then vs
    else vs + [ShellVar(First(name, MAX_VAR_NAME - 1), v, exported)]
  }

  /** The table without the variable at place `i`. */
  function RemovedAt(vs: seq<ShellVar>, i: nat): seq<ShellVar>
    requires i < |vs|
  {
    seq(|vs| - 1, j requires 0 <= j < |vs| - 1 => if j < i then vs[j] else vs[j + 1])
  }

  function Unset(vs: seq<ShellVar>, name: string): seq<ShellVar> {
    var i := Find(vs, name);
    if i >= 0 then RemovedAt(vs, i) else vs
  }

  function Export(vs: seq<ShellVar>, name: string): seq<ShellVar> {
    var i := Find(vs, name);
    if i >= 0 then vs[i := vs[i].(exported := true)] else vs
  }

  // ---------------- the table as an ordered map ----------------

  /** A name as the shell and the environment want it. */
  ghost predicate IsVarName(name: string) {
    name != "" && '=' !in name && '\0' !in name && |name| <= MAX_VAR_NAME - 1
  }

  ghost predicate TableOk(vs: seq<ShellVar>) {
    && |vs| <= MAX_VARS && Distinct(Names(vs))
    && forall i :: 0 <= i < |vs| ==>
         IsVarName(vs[i].name) && '\0' !in vs[i].value && |vs[i].value| <= MAX_VAR_VALUE - 1
  }

  /** What a name stands for. */
  function Lookup(vs: seq<ShellVar>, name: string): Option<(string, bool)> {
    var i := Find(vs, name);
    if i < 0 then None else Some((vs[i].value, vs[i].exported))
  }

  lemma FindIs(vs: seq<ShellVar>, i: nat)
    requires Distinct(Names(vs)) && i < |vs|
    ensures Find(vs, vs[i].name) == i
  {
    var r := Find(vs, vs[i].name);
    assert Names(vs)[i] == vs[i].name;
    assert Names(vs)[r] == vs[r].name;
  }

  /** A value set for a name of the shell is what the name stands for, cut to 255
      characters; no other name changes, and the names keep their order. */
  lemma SetRefinesMap(vs: seq<ShellVar>, name: string, value: string, exported: bool, other: string)
    requires TableOk(vs) && IsVarName(name) && '\0' !in value
    requires name in Names(vs) || |vs| < MAX_VARS
    ensures var r := Set(vs, name, value, exported);
      && TableOk(r)
      && Lookup(r, name) == Some((First(value, MAX_VAR_VALUE - 1),
                                  exported || (Lookup(vs, name).Some? && Lookup(vs, name).value.1)))
      && (other != name ==> Lookup(r, other) == Lookup(vs, other))
      && Names(r) == Names(vs) + if name in Names(vs) then [] else [name]
  {
    var r, i := Set(vs, name, value, exported), Find(vs, name);
    assert name in Names(vs) ==> exists k :: 0 <= k < |vs| && vs[k].name == name;
    assert i >= 0 ==> Names(vs)[i] == name;
    if i >= 0 {
      assert Names(r) == Names(vs);
      FindIs(r, i);
    } else {
      assert Names(r) == Names(vs) + [name];
      DistinctAppend(Names(vs), name);
      FindIs(r, |vs|);
    }
    if other != name {
      SameFind(vs, r, other);
    }
  }

  /** A table that agrees on where `name` is, agrees on the place. */
  lemma SameFind(vs: seq<ShellVar>, r: seq<ShellVar>, name: string)
    requires |vs| <= |r|
    requires forall i :: 0 <= i < |vs| ==> (vs[i].name == name <==> r[i].name == name)
    requires forall i :: |vs| <= i < |r| ==> r[i].name != name
    ensures Find(r, name) == Find(vs, name)
  {
    var a, b := Find(vs, name), Find(r, name);
    assert a >= 0 ==> r[a].name == name;
    assert b >= 0 && b < |vs| ==> vs[b].name == name;
  }

  /** The invariant of the names under set, for any name at all: it survives exactly when
      the name is there, the table is full, or its first 63 characters are not there. */
  lemma SetKeepsDistinct(vs: seq<ShellVar>, name: string, value: string, exported: bool)
    requires Distinct(Names(vs))
    ensures Distinct(Names(Set(vs, name, value, exported))) <==>
      Find(vs, name) >= 0 || |vs| >= MAX_VARS || First(name, MAX_VAR_NAME - 1) !in Names(vs)
  {
    var r := Set(vs, name, value, exported);
    if Find(vs, name) >= 0 || |vs| >= MAX_VARS {
      assert Names(r) == Names(vs);
    } else {
      var cut := First(name, MAX_VAR_NAME - 1);
      assert Names(r) == Names(vs) + [cut];
      if cut in Names(vs) {
        var k :| 0 <= k < |vs| && Names(vs)[k] == cut;
        assert Names(r)[k] == Names(r)[|vs|];
      } else {
        DistinctAppend(Names(vs), cut);
      }
    }
  }

  /** A name of 64 characters that is set twice gives two entries of one name. */
  lemma SetTwice()
    ensures var name := seq(MAX_VAR_NAME, _ => 'a');
      var once := Set([], name, "1", false);
      var twice := Set(once, name, "2", false);
      TableOk(once) && |twice| == 2 && twice[0].name == twice[1].name && !Distinct(Names(twice))
  {
    var name := seq(MAX_VAR_NAME, _ => 'a');
    var once := Set([], name, "1", false);
    var twice := Set(once, name, "2", false);
    assert once == [ShellVar(name[..MAX_VAR_NAME - 1], "1", false)];
    assert Find(once, name) < 0;
    assert Names(twice)[0] == Names(twice)[1];
  }

  /** Setting a name of the shell keeps the table in order, a full one too. */
  lemma SetKeepsTable(vs: seq<ShellVar>, name: string, value: string, exported: bool)
    requires TableOk(vs) && IsVarName(name) && '\0' !in value
    ensures TableOk(Set(vs, name, value, exported))
  {
    assert Find(vs, name) >= 0 ==> vs[Find(vs, name)].name in Names(vs);
    if name in Names(vs) || |vs| < MAX_VARS {
      SetRefinesMap(vs, name, value, exported, name);
    }
  }

  lemma UnsetRefinesMap(vs: seq<ShellVar>, name: string, other: string)
    requires TableOk(vs)
    ensures var r := Unset(vs, name);
      && TableOk(r) && Lookup(r, name) == None
      && (other != name ==> Lookup(r, other) == Lookup(vs, other))
      && Names(r) == Without(Names(vs), name)
  {
    var r, i := Unset(vs, name), Find(vs, name);
    if i < 0 {
      assert name !in Names(vs);
      WithoutAbsent(Names(vs), name);
    } else {
      assert Names(vs)[i] == name;
      WithoutAt(Names(vs), i);
      assert Names(r) == Names(vs)[..i] + Names(vs)[i + 1..];
      WithoutDistinct(Names(vs), name);
      AbsentNow(vs, i);
      if other != name {
        ShiftedFind(vs, i, other);
      }
    }
  }

  lemma AbsentNow(vs: seq<ShellVar>, i: nat)
    requires Distinct(Names(vs)) && i < |vs|
    ensures Find(RemovedAt(vs, i), vs[i].name) < 0
  {
    var r := RemovedAt(vs, i);
    forall k | 0 <= k < |r| ensures r[k].name != vs[i].name {
      var j := if k < i then k else k + 1;
      assert r[k] == vs[j] && Names(vs)[j] != Names(vs)[i];
    }
  }

  lemma ShiftedFind(vs: seq<ShellVar>, i: nat, name: string)
    requires i < |vs| && vs[i].name != name
    ensures var r := RemovedAt(vs, i);
      && (Find(vs, name) < 0 <==> Find(r, name) < 0)
      && (Find(vs, name) >= 0 ==> r[Find(r, name)] == vs[Find(vs, name)])
  {
    var r := RemovedAt(vs, i);
    var a, b := Find(vs, name), Find(r, name);
    assert a >= 0 ==> r[if a < i then a else a - 1] == vs[a];
    assert b >= 0 ==> vs[if b < i then b else b + 1] == r[b];
  }

  lemma ExportRefinesMap(vs: seq<ShellVar>, name: string, other: string)
    requires TableOk(vs)
    ensures var r := Export(vs, name);
      && TableOk(r) && Names(r) == Names(vs)
      && Lookup(r, name) == (if Lookup(vs, name).None? then None else Some((Lookup(vs, name).value.0, true)))
      && (other != name ==> Lookup(r, other) == Lookup(vs, other))
  {
    var r, i := Export(vs, name), Find(vs, name);
    assert Names(r) == Names(vs);
    SameFind(vs, r, name);
    SameFind(vs, r, other);
  }

  lemma CutOut(vs: seq<ShellVar>, i: nat, r: seq<ShellVar>)
    requires i < |vs| == |r| + 1
    requires forall k :: 0 <= k < i ==> r[k] == vs[k]
    requires forall k :: i <= k < |r| ==> r[k] == vs[k + 1]
    ensures r == RemovedAt(vs, i)
  {
  }

  // ---------------- the environment ----------------

  function Entry(v: ShellVar): string {
    v.name + "=" + v.value
  }

  /** The exported variables, in order. */
  function Exported(vs: seq<ShellVar>): seq<ShellVar> {
    if vs == [] then [] else Exported(vs[..|vs| - 1]) + if vs[|vs| - 1].exported then [vs[|vs| - 1]] else []
  }

  function Entries(vs: seq<ShellVar>): (r: seq<string>)
    ensures |r| == |vs| && forall i {:trigger r[i]} {:trigger vs[i]} :: 0 <= i < |vs| ==> r[i] == Entry(vs[i])
  {
    seq(|vs|, i requires 0 <= i < |vs| => Entry(vs[i]))
  }

  /** The environment of a child. */
  function Environment(vs: seq<ShellVar>): seq<string> {
    Entries(Exported(vs))
  }

  lemma EnvironmentStep(vs: seq<ShellVar>, i: nat)
    requires i < |vs|
    ensures Environment(vs[..i + 1]) == Environment(vs[..i]) + if vs[i].exported then [Entry(vs[i])] else []
  {
    assert vs[..i + 1][..i] == vs[..i];
  }

  /** Where a character first is in a string, or behind the string. */
  function IndexOf(s: string, c: char): (i: nat)
    ensures i <= |s| && c !in s[..i] && (i < |s| ==> s[i] == c)
  {
    if s == "" || s[0] == c then 0
    else
      var i := IndexOf(s[1..], c);
      assert s[..i + 1] == [s[0]] + s[1..][..i];
      i + 1
  }

  lemma IndexOfEntry(v: ShellVar)
    requires '=' !in v.name
    ensures IndexOf(Entry(v), '=') == |v.name|
    ensures Entry(v)[..|v.name|] == v.name && Entry(v)[|v.name| + 1..] == v.value
  {
    assert Entry(v)[..|v.name|] == v.name;
    IndexOfIs(Entry(v), '=', |v.name|);
  }

  lemma {:induction false} IndexOfIs(s: string, c: char, n: nat)
    requires n <= |s| && c !in s[..n] && (n < |s| ==> s[n] == c)
    ensures IndexOf(s, c) == n
  {
    if n > 0 {
      assert s[..n][0] == s[0];
      assert s[1..][..n - 1] == s[..n][1..];
      IndexOfIs(s[1..], c, n - 1);
    }
  }

  /** What load_environment does with one entry of the environment. */
  function LoadEntry(vs: seq<ShellVar>, s: string): seq<ShellVar> {
    var i := IndexOf(s, '=');
    if i == |s| || i == 0 then vs
    else Set(vs, First(s[..i], MAX_VAR_NAME - 1), First(s[i + 1..], MAX_VAR_VALUE - 1), true)
  }

  /** load_environment: entry after entry, until the table is full. */
  function Load(vs: seq<ShellVar>, env: seq<string>): seq<ShellVar>
    decreases |env|
  {
    if env == [] || |vs| >= MAX_VARS then vs else Load(LoadEntry(vs, env[0]), env[1..])
  }

  /** Any string at all may stand in the environment: the table stays in order. */
  lemma LoadEntryKeepsTable(vs: seq<ShellVar>, s: string)
    requires TableOk(vs) && '\0' !in s
    ensures TableOk(LoadEntry(vs, s))
  {
    var i := IndexOf(s, '=');
    if 0 < i < |s| {
      SetKeepsTable(vs, First(s[..i], MAX_VAR_NAME - 1), First(s[i + 1..], MAX_VAR_VALUE - 1), true);
    }
  }

  /** ... and so does a whole environment of any strings. */
  lemma {:induction false} LoadKeepsTable(vs: seq<ShellVar>, env: seq<string>)
    requires TableOk(vs) && forall i :: 0 <= i < |env| ==> '\0' !in env[i]
    ensures TableOk(Load(vs, env))
    decreases |env|
  {
    if env != [] && |vs| < MAX_VARS {
      LoadEntryKeepsTable(vs, env[0]);
      LoadKeepsTable(LoadEntry(vs, env[0]), env[1..]);
    }
  }

  lemma LoadStep(vs: seq<ShellVar>, env: seq<string>, i: nat)
    requires i < |env| && |vs| < MAX_VARS
    ensures Load(vs, env[i..]) == Load(LoadEntry(vs, env[i]), env[i + 1..])
  {
    assert env[i..][1..] == env[i + 1..];
  }

  lemma {:induction false} ExportedOk(vs: seq<ShellVar>)
    requires TableOk(vs)
    ensures TableOk(Exported(vs)) && |Exported(vs)| <= |vs|
    ensures forall i :: 0 <= i < |Exported(vs)| ==> Exported(vs)[i].exported && Exported(vs)[i] in vs
  {
    if vs != [] {
      var front, last := vs[..|vs| - 1], vs[|vs| - 1];
      assert Names(front) == Names(vs)[..|vs| - 1];
      ExportedOk(front);
      if last.exported {
        var es := Exported(front);
        forall i | 0 <= i < |es| ensures es[i].name != last.name {
          var k :| 0 <= k < |front| && front[k] == es[i];
          assert Names(vs)[k] != Names(vs)[|vs| - 1];
        }
        assert Names(es + [last]) == Names(es) + [last.name];
        DistinctAppend(Names(es), last.name);
      }
    }
  }

  /** The next variable of a table is none of those before it. */
  lemma NextIsNew(vs: seq<ShellVar>, es: seq<ShellVar>)
    requires TableOk(vs + es) && es != []
    ensures Find(vs, es[0].name) < 0 && |vs| < MAX_VARS
    ensures IsVarName(es[0].name) && |es[0].value| <= MAX_VAR_VALUE - 1
  {
    var all, n := vs + es, |vs|;
    assert all[n] == es[0] && Names(all)[n] == es[0].name;
    forall k | 0 <= k < n ensures vs[k].name != es[0].name {
      assert all[k] == vs[k] && Names(all)[k] == vs[k].name;
    }
  }

  /** An entry of a new name appends its variable. */
  lemma LoadNew(vs: seq<ShellVar>, e: ShellVar)
    requires Find(vs, e.name) < 0 && |vs| < MAX_VARS && e.exported
    requires IsVarName(e.name) && |e.value| <= MAX_VAR_VALUE - 1
    ensures LoadEntry(vs, Entry(e)) == vs + [e]
  {
    IndexOfEntry(e);
  }

  lemma EntriesTail(es: seq<ShellVar>)
    requires es != []
    ensures Entries(es)[0] == Entry(es[0]) && Entries(es)[1..] == Entries(es[1..])
  {
  }

  lemma Shifted(vs: seq<ShellVar>, es: seq<ShellVar>)
    requires es != []
    ensures (vs + [es[0]]) + es[1..] == vs + es
  {
  }

  /** Loading entries of fresh names appends their variables. */
  lemma {:induction false} LoadAppends(vs: seq<ShellVar>, es: seq<ShellVar>)
    requires TableOk(vs + es) && forall i :: 0 <= i < |es| ==> es[i].exported
    ensures Load(vs, Entries(es)) == vs + es
    decreases |es|
  {
    if es != [] {
      var e := es[0];
      NextIsNew(vs, es);
      LoadNew(vs, e);
      EntriesTail(es);
      Shifted(vs, es);
      LoadAppends(vs + [e], es[1..]);
    }
  }

  /** The environment round trip: a new shell that loads what another one built has exactly
      its exported variables, in order, with their whole values. */
  lemma EnvironmentRoundTrip(vs: seq<ShellVar>)
    requires TableOk(vs)
    ensures Load([], Environment(vs)) == Exported(vs)
  {
    ExportedOk(vs);
    assert [] + Exported(vs) == Exported(vs);
    LoadAppends([], Exported(vs));
  }

  /** Whether getenv takes an entry for one of `name`. */
  predicate IsEntryOf(s: string, name: string) {
    name <= s && |name| < |s| && s[|name|] == '='
  }

  /** getenv. */
  function Getenv(env: seq<string>, name: string): Option<string>
    decreases |env|
  {
    if name == "" || '=' in name || env == [] then None
    else if IsEntryOf(env[0], name) then Some(env[0][|name| + 1..])
    else Getenv(env[1..], name)
  }

  lemma EntryOfName(v: ShellVar, name: string)
    requires '=' !in v.name && '=' !in name
    ensures IsEntryOf(Entry(v), name) <==> v.name == name
  {
    var s := Entry(v);
    IndexOfEntry(v);
    if IsEntryOf(s, name) {
      var w := ShellVar(name, s[|name| + 1..], false);
      assert Entry(w) == s;
      IndexOfEntry(w);
    }
  }

  lemma {:induction false} GetenvOfEntries(es: seq<ShellVar>, name: string)
    requires TableOk(es) && name != "" && '=' !in name
    ensures Find(es, name) < 0 ==> Getenv(Entries(es), name) == None
    ensures Find(es, name) >= 0 ==> Getenv(Entries(es), name) == Some(es[Find(es, name)].value)
    decreases |es|
  {
    if es != [] {
      var e, rest := es[0], es[1..];
      EntryOfName(e, name);
      IndexOfEntry(e);
      assert Entries(es)[1..] == Entries(rest);
      assert Names(rest) == Names(es)[1..];
      GetenvOfEntries(rest, name);
      if e.name == name {
        FindIs(es, 0);
      } else {
        assert Find(rest, name) >= 0 ==> es[Find(rest, name) + 1] == rest[Find(rest, name)];
        assert Find(es, name) >= 0 ==> rest[Find(es, name) - 1] == es[Find(es, name)];
      }
    }
  }

  lemma {:induction false} FindExported(vs: seq<ShellVar>, name: string)
    requires TableOk(vs)
    ensures var i, es := Find(vs, name), Exported(vs);
      && (Find(es, name) >= 0 <==> i >= 0 && vs[i].exported)
      && (Find(es, name) >= 0 ==> es[Find(es, name)] == vs[i])
  {
    ExportedOk(vs);
    var i, es := Find(vs, name), Exported(vs);
    if Find(es, name) >= 0 {
      var k :| 0 <= k < |vs| && vs[k] == es[Find(es, name)];
      FindIs(vs, k);
    }
    if i >= 0 && vs[i].exported {
      ExportedHas(vs, i);
      var j :| 0 <= j < |es| && es[j] == vs[i];
      FindIs(es, j);
    }
  }

  lemma {:induction false} ExportedHas(vs: seq<ShellVar>, i: nat)
    requires i < |vs| && vs[i].exported
    ensures vs[i] in Exported(vs)
  {
    if i < |vs| - 1 {
      ExportedHas(vs[..|vs| - 1], i);
    }
  }

  /** A program finds in its environment exactly the values of the exported variables. */
  lemma GetenvFindsExported(vs: seq<ShellVar>, name: string)
    requires TableOk(vs) && name != "" && '=' !in name
    ensures Getenv(Environment(vs), name) ==
      if Lookup(vs, name).Some? && Lookup(vs, name).value.1 then Some(Lookup(vs, name).value.0) else None
  {
    ExportedOk(vs);
    FindExported(vs, name);
    GetenvOfEntries(Exported(vs), name);
  }

  // ---------------- the table and the environment in memory ----------------

  class Shell {
    const variables: array<ShellVar>
    var varCount: nat
    /** The strings of the last environment that was built, and their number. */
    const envpStrings: seq<array<char>>
    var envpCount: nat

    ghost predicate Valid()
      reads this, variables
    {
      && variables.Length == MAX_VARS && varCount <= MAX_VARS
      && |envpStrings| == MAX_VARS && Distinct(envpStrings)
      && forall i :: 0 <= i < MAX_VARS ==> envpStrings[i].Length == ENTRY_SIZE + 2
    }

    ghost function Vars(): (vs: seq<ShellVar>)
      requires Valid()
      reads this, variables
      ensures |vs| == varCount
    {
      variables[..varCount]
    }

    /** find_variable. */
    method FindVariable(name: string) returns (idx: int)
      requires Valid()
      ensures idx == Find(Vars(), name)
    {
      for i := 0 to varCount
        invariant FindFrom(Vars(), name, 0) == FindFrom(Vars(), name, i)
      {
        if variables[i].name == name {
          return i;
        }
      }
      return -1;
    }

    /** set_variable. */
    method SetVariable(name: string, value: string, exported: bool)
      requires Valid()
      modifies this`varCount, variables
      ensures Valid() && Vars() == Set(old(Vars()), name, value, exported)
    {
      var idx := FindVariable(name);
      if idx >= 0 {
        variables[idx] := variables[idx].(value := First(value, MAX_VAR_VALUE - 1));
        if exported {
          variables[idx] := variables[idx].(exported := true);
        }
      } else {
        if varCount >= MAX_VARS {
          return;
        }
        variables[varCount] := ShellVar(First(name, MAX_VAR_NAME - 1), First(value, MAX_VAR_VALUE - 1), exported);
        varCount := varCount + 1;
      }
    }

    /** get_variable. */
    method GetVariable(name: string) returns (value: Option<string>)
      requires Valid()
      ensures value == if Lookup(Vars(), name).None? then None else Some(Lookup(Vars(), name).value.0)
    {
      var idx := FindVariable(name);
      return if idx >= 0 then Some(variables[idx].value) else None;
    }

    /** The loop of unset_variable. */
    method ShiftDown(idx: nat)
      requires Valid() && idx < varCount
      modifies variables
      ensures forall k {:trigger variables[k]} :: 0 <= k < idx ==> variables[k] == old(variables[k])
      ensures forall k {:trigger variables[k]} :: idx <= k < varCount - 1 ==> variables[k] == old(variables[k + 1])
    {
      for i := idx to varCount - 1
        invariant forall k {:trigger variables[k]} :: 0 <= k < idx || i <= k < varCount ==> variables[k] == old(variables[k])
        invariant forall k {:trigger variables[k]} :: idx <= k < i ==> variables[k] == old(variables[k + 1])
      {
        variables[i] := variables[i + 1];
      }
    }

    /** ... and the shorter count. */
    method RemoveAt(idx: nat)
      requires Valid() && idx < varCount
      modifies this`varCount, variables
      ensures Valid() && Vars() == RemovedAt(old(Vars()), idx)
    {
      ghost var vs := Vars();
      ShiftDown(idx);
      varCount := varCount - 1;
      forall k | idx <= k < varCount ensures variables[k] == vs[k + 1] {
        assert vs[k + 1] == old(variables[k + 1]);
      }
      CutOut(vs, idx, Vars());
    }

    /** unset_variable: the later variables move down by one place. */
    method UnsetVariable(name: string)
      requires Valid()
      modifies this`varCount, variables
      ensures Valid() && Vars() == Unset(old(Vars()), name)
    {
      var idx := FindVariable(name);
      if idx >= 0 {
        RemoveAt(idx);
      }
    }

    /** export_variable. */
    method ExportVariable(name: string)
      requires Valid()
      modifies variables
      ensures Valid() && Vars() == Export(old(Vars()), name)
    {
      var idx := FindVariable(name);
      if idx >= 0 {
        variables[idx] := variables[idx].(exported := true);
      }
    }

    /** The entry of one variable: with a table in order nothing of it is cut. */
    method WriteEntry(buf: array<char>, v: ShellVar)
      requires buf.Length == ENTRY_SIZE + 2
      requires IsVarName(v.name) && '\0' !in v.value && |v.value| <= MAX_VAR_VALUE - 1
      modifies buf
      ensures IsString(buf[..], Entry(v))
    {
      var offset := 0;
      var i := 0;
      while i < |v.name| && offset < ENTRY_SIZE
        invariant offset == i <= |v.name| && buf[..offset] == v.name[..i]
      {
        buf[offset] := v.name[i];
        offset, i := offset + 1, i + 1;
      }
      if offset < ENTRY_SIZE {
        buf[offset] := '=';
        offset := offset + 1;
      }
      assert buf[..offset] == v.name + "=";
      i := 0;
      while i < |v.value| && offset < ENTRY_SIZE
        invariant i <= |v.value| && offset == |v.name| + 1 + i && buf[..offset] == v.name + "=" + v.value[..i]
      {
        buf[offset] := v.value[i];
        offset, i := offset + 1, i + 1;
      }
      assert v.value[..i] == v.value;
      buf[offset] := '\0';
      assert buf[..offset] == Entry(v);
    }

    ghost predicate Built(env: seq<string>)
      requires Valid()
      reads this, variables, envpStrings
    {
      && envpCount == |env| <= MAX_VARS
      && forall i {:trigger env[i]} :: 0 <= i < |env| ==> IsString(envpStrings[i][..], env[i])
    }

    /** One more entry for an environment that has room. */
    method AddEntry(v: ShellVar, ghost env: seq<string>)
      requires Valid() && Built(env) && envpCount < MAX_VARS
      requires IsVarName(v.name) && '\0' !in v.value && |v.value| <= MAX_VAR_VALUE - 1
      modifies this`envpCount, envpStrings
      ensures Valid() && Built(env + [Entry(v)])
    {
      WriteEntry(envpStrings[envpCount], v);
      forall k | 0 <= k < |env| ensures IsString(envpStrings[k][..], env[k]) {
        assert envpStrings[k] != envpStrings[envpCount];
        assert old(IsString(envpStrings[k][..], env[k]));
      }
      envpCount := envpCount + 1;
    }

    /** build_environment. */
    method BuildEnvironment()
      requires Valid() && TableOk(Vars())
      modifies this`envpCount, envpStrings
      ensures Valid() && Vars() == old(Vars()) && Built(Environment(Vars()))
    {
      envpCount := 0;
      ghost var vs := Vars();
      assert Exported(vs[..0]) == [];
      for i := 0 to varCount
        invariant Valid() && Vars() == vs && envpCount <= i
        invariant Built(Environment(vs[..i]))
      {
        EnvironmentStep(vs, i);
        if variables[i].exported && envpCount < MAX_VARS {
          AddEntry(variables[i], Environment(vs[..i]));
        }
      }
      assert vs[..varCount] == vs;
    }

    /** strchr, as an index. */
    static method Strchr(s: string, c: char) returns (i: nat)
      ensures i == IndexOf(s, c)
    {
      i := 0;
      while i < |s| && s[i] != c
        invariant i <= |s| && c !in s[..i]
      {
        assert s[..i + 1] == s[..i] + [s[i]];
        i := i + 1;
      }
      IndexOfIs(s, c, i);
    }

    /** One turn of the loop of load_environment. */
    method LoadOne(entry: string)
      requires Valid()
      modifies this`varCount, variables
      ensures Valid() && Vars() == LoadEntry(old(Vars()), entry)
    {
      var eq := Strchr(entry, '=');
      if eq == |entry| || eq == 0 {
        return;
      }
      var name, value := entry[..eq], entry[eq + 1..];
      SetVariable(First(name, MAX_VAR_NAME - 1), First(value, MAX_VAR_VALUE - 1), true);
    }

    /** load_environment. */
    method LoadEnvironment(envp: seq<string>)
      requires Valid()
      modifies this`varCount, variables
      ensures Valid() && Vars() == Load(old(Vars()), envp)
    {
      var i := 0;
      assert envp[0..] == envp;
      while i < |envp| && varCount < MAX_VARS
        invariant Valid() && i <= |envp|
        invariant Load(Vars(), envp[i..]) == Load(old(Vars()), envp)
      {
        LoadStep(Vars(), envp, i);
        LoadOne(envp[i]);
        i := i + 1;
      }
    }
  }

  /** strncmp of an entry with a whole name, as a test for equality. */
  method SameStart(s: string, name: string) returns (b: bool)
    ensures b == (name <= s)
  {
    for i := 0 to |name|
      invariant i <= |s| && name[..i] == s[..i]
    {
      if i == |s| || s[i] != name[i] {
        return false;
      }
    }
    return true;
  }

  /** The loop of getenv. */
  method GetenvLoop(env: seq<string>, name: string) returns (value: Option<string>)
    ensures value == Getenv(env, name)
  {
    if name == "" || '=' in name {
      return None;
    }
    var i := 0;
    assert env[0..] == env;
    while i < |env|
      invariant i <= |env| && Getenv(env[i..], name) == Getenv(env, name)
    {
      var same := SameStart(env[i], name);
      if same && |name| < |env[i]| && env[i][|name|] == '=' {
        return Some(env[i][|name| + 1..]);
      }
      assert env[i..][1..] == env[i + 1..];
      i := i + 1;
    }
    return None;
  }
}
