/** Paths as lists of names: what it means for a path to be resolved, without buffers
    (fs/vfs.c:65-238, fs/vfs.c:359-438). */
module Paths {

  /** A name that normalisation leaves alone. */
  predicate IsPlain(w: string) {
    w != "" && '/' !in w && w != "." && w != ".."
  }

  ghost predicate AllPlain(ws: seq<string>) {
    forall i :: 0 <= i < |ws| ==> IsPlain(ws[i])
  }

  /** How many characters come before the first slash. */
  function WordLen(s: string): (n: nat)
    ensures n <= |s| && '/' !in s[..n] && (n < |s| ==> s[n] == '/')
  {
    if s == "" || s[0] == '/' then 0
    else
      var n := WordLen(s[1..]);
      assert s[..n + 1] == [s[0]] + s[1..][..n];
      n + 1
  }

  /** The names between the slashes of a path. */
  function Words(s: string): seq<string>
    decreases |s|
  {
    if s == "" then []
    else if s[0] == '/' then Words(s[1..])
    else [s[..WordLen(s)]] + Words(s[WordLen(s)..])
  }

  /** One name after the names `st`: `.` stays, `..` goes up, but not above the root. */
  function Push(st: seq<string>, w: string): seq<string> {
    if w == "." then st
    else if w == ".." then if st == [] then [] else st[..|st| - 1]
    else st + [w]
  }

  /** Following the names `ws` from the place `st`. */
  function Reduce(ws: seq<string>, st: seq<string>): seq<string>
    decreases |ws|
  {
    if ws == [] then st else Reduce(ws[1..], Push(st, ws[0]))
  }

  function Joined(st: seq<string>): string {
    if st == [] then "" else "/" + st[0] + Joined(st[1..])
  }

  function Render(st: seq<string>): string {
    if st == [] then "/" else Joined(st)
  }

  /** The normal form of a path. */
  function Norm(s: string): string {
    Render(Reduce(Words(s), []))
  }

  ghost predicate IsNormal(s: string) {
    exists st :: AllPlain(st) && s == Render(st)
  }

  predicate IsAbsolute(s: string) {
    s != "" && s[0] == '/'
  }

  /** The names that lead from the root to `p`, seen from directory `c`. */
  function NamesFrom(c: string, p: string): seq<string> {
    if IsAbsolute(p) then Words(p) else Words(c) + Words(p)
  }

  /** Path `p` as seen from directory `c`. */
  function Resolve(c: string, p: string): string {
    Render(Reduce(NamesFrom(c, p), []))
  }

  // ---------------- names of concatenated paths ----------------

  lemma {:induction false} WordLenOf(s: string, n: nat)
    requires n <= |s| && '/' !in s[..n] && (n < |s| ==> s[n] == '/')
    ensures WordLen(s) == n
  {
    if n > 0 {
      assert s[..n][0] == s[0];
      assert s[1..][..n - 1] == s[..n][1..];
      WordLenOf(s[1..], n - 1);
    }
  }

  /** The first name of a path that starts with one. */
  lemma FirstWord(s: string, n: nat)
    requires 0 < n <= |s| && '/' !in s[..n] && (n < |s| ==> s[n] == '/')
    ensures Words(s) == [s[..n]] + Words(s[n..])
  {
    WordLenOf(s, n);
    assert s[0] == s[..n][0];
  }

  /** A slash separates the names on its two sides. */
  lemma {:induction false} WordsConcat(a: string, b: string)
    ensures Words(a + "/" + b) == Words(a) + Words(b)
    decreases |a|
  {
    var s := a + "/" + b;
    if a == "" {
      assert s[1..] == b;
    } else if a[0] == '/' {
      WordsConcat(a[1..], b);
      assert s[1..] == a[1..] + "/" + b;
    } else {
      var n := WordLen(a);
      assert s[..n] == a[..n];
      assert n > 0;
      FirstWord(s, n);
      WordsConcat(a[n..], b);
      assert s[n..] == a[n..] + "/" + b;
      assert [a[..n]] + (Words(a[n..]) + Words(b)) == Words(a) + Words(b);
    }
  }

  /** A trailing slash, too, separates. */
  lemma WordsAfterSlash(a: string, b: string)
    requires a != "" && a[|a| - 1] == '/'
    ensures Words(a + b) == Words(a) + Words(b)
  {
    var front := a[..|a| - 1];
    assert a == front + "/" + "" && a + b == front + "/" + b;
    WordsConcat(front, "");
    WordsConcat(front, b);
  }

  lemma {:induction false} WordsOfJoined(st: seq<string>)
    requires AllPlain(st)
    ensures Words(Joined(st)) == st
  {
    if st != [] {
      var rest := st[1..];
      WordsOfJoined(rest);
      var s := st[0] + Joined(rest);
      assert Joined(st)[1..] == s;
      assert s[..|st[0]|] == st[0];
      assert s[|st[0]|..] == Joined(rest);
      FirstWord(s, |st[0]|);
    }
  }

  lemma WordsOfRender(st: seq<string>)
    requires AllPlain(st)
    ensures Words(Render(st)) == st
  {
    WordsOfJoined(st);
    assert Words("/") == Words("/"[1..]);
  }

  lemma {:induction false} JoinedConcat(a: seq<string>, b: seq<string>)
    ensures Joined(a + b) == Joined(a) + Joined(b)
  {
    if a == [] {
      assert a + b == b;
    } else {
      JoinedConcat(a[1..], b);
      assert (a + b)[1..] == a[1..] + b;
    }
  }

  lemma JoinedAppend(a: seq<string>, w: string)
    ensures Joined(a + [w]) == Joined(a) + "/" + w
  {
    JoinedConcat(a, [w]);
    assert Joined([w]) == "/" + w + Joined([]);
  }

  // ---------------- reduction ----------------

  /** Names between slashes, whether or not they are dots. */
  ghost predicate AllNames(ws: seq<string>) {
    forall i :: 0 <= i < |ws| ==> ws[i] != "" && '/' !in ws[i]
  }

  lemma {:induction false} WordsAreNames(s: string)
    ensures AllNames(Words(s))
    decreases |s|
  {
    if s != "" {
      WordsAreNames(if s[0] == '/' then s[1..] else s[WordLen(s)..]);
    }
  }

  lemma {:induction false} ReducePlain(ws: seq<string>, st: seq<string>)
    requires AllNames(ws) && AllPlain(st)
    ensures AllPlain(Reduce(ws, st))
    decreases |ws|
  {
    if ws != [] {
      ReducePlain(ws[1..], Push(st, ws[0]));
    }
  }

  lemma {:induction false} ReduceConcat(a: seq<string>, b: seq<string>, st: seq<string>)
    ensures Reduce(a + b, st) == Reduce(b, Reduce(a, st))
    decreases |a|
  {
    if a == [] {
      assert a + b == b;
    } else {
      ReduceConcat(a[1..], b, Push(st, a[0]));
      assert (a + b)[1..] == a[1..] + b;
    }
  }

  /** Plain names are all kept. */
  lemma {:induction false} ReduceOfPlain(ws: seq<string>, st: seq<string>)
    requires AllPlain(ws)
    ensures Reduce(ws, st) == st + ws
    decreases |ws|
  {
    if ws != [] {
      assert IsPlain(ws[0]);
      ReduceOfPlain(ws[1..], st + [ws[0]]);
      assert st + [ws[0]] + ws[1..] == st + ws;
    }
  }

  // ---------------- properties of the normal form ----------------

  lemma NormIsNormal(s: string)
    ensures IsNormal(Norm(s)) && AllPlain(Reduce(Words(s), []))
  {
    WordsAreNames(s);
    ReducePlain(Words(s), []);
  }

  lemma NormOfNormal(s: string)
    requires IsNormal(s)
    ensures Norm(s) == s
  {
    var st :| AllPlain(st) && s == Render(st);
    WordsOfRender(st);
    ReduceOfPlain(st, []);
    assert [] + st == st;
  }

  // ---------------- which names survive ----------------

  /** How far the names from place `i` to place `n` lead down, less the steps up. */
  function Balance(ws: seq<string>, i: nat, n: nat): int
    requires i <= n <= |ws|
  {
    if i == n then 0
    else Balance(ws, i, n - 1) + if ws[n - 1] == "." then 0 else if ws[n - 1] == ".." then -1 else 1
  }

  /** Name `i` is still there behind the first `n` names: it is no dots, and wherever one
      stops on the way, no more steps up than names have followed it. */
  ghost predicate Survives(ws: seq<string>, i: nat, n: nat)
    requires i < n <= |ws|
  {
    ws[i] != "." && ws[i] != ".." && forall j {:trigger Balance(ws, i + 1, j)} :: i < j <= n ==> Balance(ws, i + 1, j) >= 0
  }

  ghost predicate Increasing(idx: seq<nat>) {
    forall j, k :: 0 <= j < k < |idx| ==> idx[j] < idx[k]
  }

  /** `st` is the list of the surviving ones among the first `n` names, in order. */
  ghost predicate AreSurvivors(st: seq<string>, ws: seq<string>, n: nat, idx: seq<nat>)
    requires n <= |ws|
  {
    && |st| == |idx| && Increasing(idx)
    && (forall k {:trigger idx[k]} {:trigger st[k]} :: 0 <= k < |idx| ==> idx[k] < n && st[k] == ws[idx[k]])
    && (forall i: nat {:trigger i in idx} {:trigger ws[i]} :: i < n ==> (i in idx <==> Survives(ws, i, n)))
  }

  /** Behind a survivor the balance counts the survivors behind it. */
  ghost predicate Balanced(ws: seq<string>, n: nat, idx: seq<nat>)
    requires n <= |ws| && forall k :: 0 <= k < |idx| ==> idx[k] < n
  {
    forall k {:trigger idx[k]} :: 0 <= k < |idx| ==> Balance(ws, idx[k] + 1, n) == |idx| - 1 - k
  }

  lemma SurvivesNext(ws: seq<string>, i: nat, n: nat)
    requires i < n < |ws|
    ensures Survives(ws, i, n + 1) <==> Survives(ws, i, n) && Balance(ws, i + 1, n + 1) >= 0
  {
  }

  lemma {:induction false} WhatSurvives(ws: seq<string>, n: nat) returns (idx: seq<nat>)
    requires n <= |ws|
    ensures AreSurvivors(Reduce(ws[..n], []), ws, n, idx) && Balanced(ws, n, idx)
  {
    if n == 0 {
      return [];
    }
    var before := WhatSurvives(ws, n - 1);
    var st, w := Reduce(ws[..n - 1], []), ws[n - 1];
    assert ws[..n] == ws[..n - 1] + [w];
    ReduceConcat(ws[..n - 1], [w], []);
    assert Reduce(ws[..n], []) == Push(st, w) by { assert [w][1..] == []; }
    if w == "." {
      idx := before;
      SurvivorsStay(st, ws, n, before);
    } else if w == ".." {
      idx := Front(before);
      LastSurvivorGoes(st, ws, n, before);
    } else {
      idx := before + [n - 1];
      NextSurvives(st, ws, n, before);
    }
  }

  lemma SurvivorsStay(st: seq<string>, ws: seq<string>, n: nat, idx: seq<nat>)
    requires 0 < n <= |ws| && ws[n - 1] == "." && AreSurvivors(st, ws, n - 1, idx) && Balanced(ws, n - 1, idx)
    ensures AreSurvivors(st, ws, n, idx) && Balanced(ws, n, idx)
  {
    forall i: nat | i < n ensures i in idx <==> Survives(ws, i, n) {
      if i < n - 1 {
        SurvivesNext(ws, i, n - 1);
      }
    }
  }

  lemma NextSurvives(st: seq<string>, ws: seq<string>, n: nat, idx: seq<nat>)
    requires 0 < n <= |ws| && ws[n - 1] != "." && ws[n - 1] != ".."
    requires AreSurvivors(st, ws, n - 1, idx) && Balanced(ws, n - 1, idx)
    ensures AreSurvivors(st + [ws[n - 1]], ws, n, idx + [n - 1]) && Balanced(ws, n, idx + [n - 1])
  {
    forall i: nat | i < n ensures i in idx + [n - 1] <==> Survives(ws, i, n) {
      if i < n - 1 {
        SurvivesNext(ws, i, n - 1);
      }
    }
  }

  lemma LastSurvivorGoes(st: seq<string>, ws: seq<string>, n: nat, idx: seq<nat>)
    requires 0 < n <= |ws| && ws[n - 1] == ".." && AreSurvivors(st, ws, n - 1, idx) && Balanced(ws, n - 1, idx)
    ensures AreSurvivors(Front(st), ws, n, Front(idx)) && Balanced(ws, n, Front(idx))
  {
    FrontIs(st);
    FrontIs(idx);
    FrontBalanced(ws, n, idx);
    forall i: nat | i < n ensures i in Front(idx) <==> Survives(ws, i, n) {
      LastGone(ws, n, idx, i);
    }
  }

  lemma FrontBalanced(ws: seq<string>, n: nat, idx: seq<nat>)
    requires 0 < n <= |ws| && ws[n - 1] == ".." && (forall k :: 0 <= k < |idx| ==> idx[k] < n - 1) && Balanced(ws, n - 1, idx)
    ensures (forall k :: 0 <= k < |Front(idx)| ==> Front(idx)[k] < n) && Balanced(ws, n, Front(idx))
  {
    FrontIs(idx);
  }

  lemma LastGone(ws: seq<string>, n: nat, idx: seq<nat>, i: nat)
    requires 0 < n <= |ws| && ws[n - 1] == ".." && Increasing(idx) && i < n
    requires (forall k :: 0 <= k < |idx| ==> idx[k] < n - 1) && Balanced(ws, n - 1, idx)
    requires i < n - 1 ==> (i in idx <==> Survives(ws, i, n - 1))
    ensures i in Front(idx) <==> Survives(ws, i, n)
  {
    FrontIs(idx);
    if i < n - 1 {
      SurvivesNext(ws, i, n - 1);
      InFront(ws, n, idx, i);
    }
  }

  /** All but the last element, if there is one. */
  function Front<T>(s: seq<T>): seq<T> {
    if s == [] then [] else s[..|s| - 1]
  }

  lemma FrontIs<T>(s: seq<T>)
    ensures |Front(s)| == (if s == [] then 0 else |s| - 1) && forall k :: 0 <= k < |Front(s)| ==> Front(s)[k] == s[k]
  {
  }

  /** The step up takes exactly the last survivor. */
  lemma InFront(ws: seq<string>, n: nat, idx: seq<nat>, i: nat)
    requires 0 < n <= |ws| && ws[n - 1] == ".." && Increasing(idx) && i < n - 1
    requires (forall k :: 0 <= k < |idx| ==> idx[k] < n - 1) && Balanced(ws, n - 1, idx)
    ensures i in Front(idx) <==> i in idx && Balance(ws, i + 1, n) >= 0
  {
    FrontIs(idx);
    if i in idx {
      var k :| 0 <= k < |idx| && idx[k] == i;
      assert Balance(ws, i + 1, n) == |idx| - 2 - k;
      if k < |idx| - 1 {
        assert Front(idx)[k] == i;
      }
    }
  }

  /** What normalisation does, name by name: a name of the path is kept exactly when it is no
      dots and no step up behind it takes it away, and the names kept stay in order. */
  lemma NormKeepsSurvivors(s: string) returns (idx: seq<nat>)
    ensures AreSurvivors(Words(Norm(s)), Words(s), |Words(s)|, idx)
  {
    idx := WhatSurvives(Words(s), |Words(s)|);
    assert Words(s)[..|Words(s)|] == Words(s);
    NormWords(s);
  }

  lemma NormWords(s: string)
    ensures Words(Norm(s)) == Reduce(Words(s), [])
  {
    NormIsNormal(s);
    WordsOfRender(Reduce(Words(s), []));
  }

  /** One more name at the end of a path. */
  lemma OneMoreName(p: string, w: string)
    requires w != "" && '/' !in w
    ensures Words(p + "/" + w) == Words(p) + [w]
    ensures Words(Norm(p + "/" + w)) == Push(Words(Norm(p)), w)
    ensures Norm(p + "/" + w) == Render(Push(Words(Norm(p)), w))
  {
    WordsConcat(p, w);
    FirstWord(w, |w|);
    assert w[..|w|] == w && w[|w|..] == "";
    ReduceConcat(Words(p), [w], []);
    assert [w][1..] == [];
    NormWords(p);
    NormWords(p + "/" + w);
  }

  lemma NormIsRendered(p: string)
    ensures Norm(p) == Render(Words(Norm(p))) && (Norm(p) == "/" <==> Words(Norm(p)) == [])
  {
    NormIsNormal(p);
    NormalShape(Norm(p));
    assert Words("/") == Words("/"[1..]) == [];
  }

  /** A name leads one name down, and `..` takes it back. */
  lemma NormUp(p: string, w: string)
    requires IsPlain(w)
    ensures Words(Norm(p + "/" + w)) == Words(Norm(p)) + [w]
    ensures Norm(p + "/" + w + "/..") == Norm(p)
  {
    OneMoreName(p, w);
    OneMoreName(p + "/" + w, "..");
    NormIsRendered(p);
    assert p + "/" + w + "/.." == (p + "/" + w) + "/" + "..";
    var st := Words(Norm(p));
    assert (st + [w])[..|st|] == st;
  }

  /** `.` and further slashes lead nowhere, and `..` leads one name up, at the root nowhere. */
  lemma NormDots(p: string)
    ensures Norm(p + "/.") == Norm(p) && Norm(p + "/") == Norm(p)
    ensures Words(Norm(p + "/..")) == Front(Words(Norm(p)))
    ensures Norm(p) == "/" ==> Norm(p + "/..") == "/"
  {
    OneMoreName(p, ".");
    OneMoreName(p, "..");
    NormIsRendered(p);
    assert p + "/." == p + "/" + "." && p + "/.." == p + "/" + "..";
    NormIsRendered(p + "/..");
    WordsConcat(p, "");
    assert p + "/" + "" == p + "/" && Words(p) + [] == Words(p);
  }

  /** Normalising twice is normalising once. */
  lemma NormTwice(s: string)
    ensures Norm(Norm(s)) == Norm(s)
  {
    NormIsNormal(s);
    NormOfNormal(Norm(s));
  }

  /** A normal form is determined by its names, and every list of plain names has one. */
  lemma NormalFormsAreNames(st: seq<string>, s: string)
    requires AllPlain(st) && IsNormal(s)
    ensures IsNormal(Render(st)) && Words(Render(st)) == st
    ensures s == Render(st) <==> Words(s) == st
  {
    WordsOfRender(st);
    NormalShape(s);
  }

  /** What normal means, character by character: absolute, no empty name, no dots, and no
      trailing slash except the root's. */
  lemma NormalShape(s: string)
    requires IsNormal(s)
    ensures IsAbsolute(s) && (s == "/" || s[|s| - 1] != '/')
    ensures forall i :: 0 <= i < |s| - 1 ==> s[i] != '/' || s[i + 1] != '/'
    ensures AllPlain(Words(s)) && s == Render(Words(s))
  {
    var st :| AllPlain(st) && s == Render(st);
    WordsOfRender(st);
    JoinedShape(st);
  }

  lemma {:induction false} JoinedShape(st: seq<string>)
    requires AllPlain(st)
    ensures st != [] ==> IsAbsolute(Joined(st)) && Joined(st)[|Joined(st)| - 1] != '/'
    ensures forall i :: 0 <= i < |Joined(st)| - 1 ==> Joined(st)[i] != '/' || Joined(st)[i + 1] != '/'
  {
    if st != [] {
      var rest, w := Joined(st[1..]), st[0];
      JoinedShape(st[1..]);
      assert IsPlain(w);
      var s := "/" + w + rest;
      assert s[|w|] == w[|w| - 1];
      forall i | 0 <= i < |s| - 1 ensures s[i] != '/' || s[i + 1] != '/' {
        assert i < |w| ==> s[i + 1] == w[i];
        assert i > |w| ==> s[i] == rest[i - |w| - 1] && s[i + 1] == rest[i - |w|];
      }
    }
  }

  function Total(ws: seq<string>): nat {
    if ws == [] then 0 else |ws[0]| + 1 + Total(ws[1..])
  }

  lemma {:induction false} TotalOfJoined(st: seq<string>)
    ensures |Joined(st)| == Total(st)
  {
    if st != [] {
      TotalOfJoined(st[1..]);
    }
  }

  lemma {:induction false} TotalConcat(a: seq<string>, b: seq<string>)
    ensures Total(a + b) == Total(a) + Total(b)
  {
    if a == [] {
      assert a + b == b;
    } else {
      TotalConcat(a[1..], b);
      assert (a + b)[1..] == a[1..] + b;
    }
  }

  lemma {:induction false} ReduceTotal(ws: seq<string>, st: seq<string>)
    ensures Total(Reduce(ws, st)) <= Total(st) + Total(ws)
    decreases |ws|
  {
    if ws != [] {
      ReduceTotal(ws[1..], Push(st, ws[0]));
      TotalConcat(st, [ws[0]]);
      if st != [] {
        TotalConcat(st[..|st| - 1], [st[|st| - 1]]);
        assert st[..|st| - 1] + [st[|st| - 1]] == st;
      }
    }
  }

  lemma {:induction false} WordsTotal(s: string)
    ensures Total(Words(s)) <= |s| + if IsAbsolute(s) then 0 else 1
    decreases |s|
  {
    if s != "" && s[0] == '/' {
      WordsTotal(s[1..]);
    } else if s != "" {
      WordsTotal(s[WordLen(s)..]);
    }
  }

  /** A normal form is no longer than the absolute path it is for. */
  lemma NormLength(s: string)
    ensures |Norm(s)| <= |s| + if IsAbsolute(s) then 0 else 1
  {
    WordsTotal(s);
    ReduceTotal(Words(s), []);
    TotalOfJoined(Reduce(Words(s), []));
  }

  // ---------------- resolution ----------------

  /** Resolution looks at the current directory only through its normal form, and with an
      absolute path not at all. */
  lemma ResolveFromNormalForm(c: string, p: string)
    ensures Resolve(Norm(c), p) == Resolve(c, p)
    ensures IsAbsolute(p) ==> Resolve(c, p) == Norm(p)
  {
    WordsAreNames(c);
    ReduceInSteps(Words(c), Words(p));
  }

  lemma NamesFromAreNames(c: string, p: string)
    ensures AllNames(NamesFrom(c, p))
  {
    WordsAreNames(c);
    WordsAreNames(p);
  }

  lemma ResolveIsNormal(c: string, p: string)
    ensures IsNormal(Resolve(c, p))
  {
    NamesFromAreNames(c, p);
    ReducePlain(NamesFrom(c, p), []);
  }

  lemma NamesFromJoined(c: string, p: string, q: string)
    requires p != ""
    ensures NamesFrom(c, p + "/" + q) == NamesFrom(c, p) + Words(q)
  {
    WordsConcat(p, q);
    assert (p + "/" + q)[0] == p[0];
    Associates(Words(c), Words(p), Words(q));
  }

  lemma Associates(a: seq<string>, b: seq<string>, c: seq<string>)
    ensures a + (b + c) == (a + b) + c
  {
  }

  /** `..` leads from a directory to the one above it, `.` stays there, and a name leads to
      what it names there. */
  lemma ResolveSteps(c: string, w: string)
    requires IsPlain(w)
    ensures Resolve(c, ".") == Norm(c) == Resolve(c, w + "/..")
    ensures Words(Resolve(c, w)) == Words(Norm(c)) + [w]
    ensures Words(Resolve(c, "..")) == Front(Words(Norm(c)))
  {
    ResolveIsNorm(c, w);
    ResolveIsNorm(c, w + "/..");
    assert c + "/" + (w + "/..") == c + "/" + w + "/..";
    NormUp(c, w);
    ResolveDots(c);
  }

  lemma ResolveDots(c: string)
    ensures Resolve(c, ".") == Norm(c) && Resolve(c, "..") == Norm(c + "/..")
    ensures Words(Resolve(c, "..")) == Front(Words(Norm(c)))
  {
    ResolveIsNorm(c, ".");
    ResolveIsNorm(c, "..");
    assert c + "/" + "." == c + "/." && c + "/" + ".." == c + "/..";
    NormDots(c);
  }

  lemma ResolveIsNorm(c: string, p: string)
    requires !IsAbsolute(p)
    ensures Resolve(c, p) == Norm(c + "/" + p)
  {
    WordsConcat(c, p);
  }

  /** Resolving in two steps is resolving the joined path. */
  lemma ResolveComposes(c: string, p: string, q: string)
    requires p != "" && !IsAbsolute(q)
    ensures Resolve(Resolve(c, p), q) == Resolve(c, p + "/" + q)
  {
    NamesFromAreNames(c, p);
    ReduceInSteps(NamesFrom(c, p), Words(q));
    NamesFromJoined(c, p, q);
  }

  /** Reducing the names of a reduced path and more is reducing all of them. */
  lemma ReduceInSteps(ws: seq<string>, vs: seq<string>)
    requires AllNames(ws)
    ensures Words(Render(Reduce(ws, []))) == Reduce(ws, [])
    ensures Reduce(Reduce(ws, []) + vs, []) == Reduce(ws + vs, [])
  {
    var st := Reduce(ws, []);
    ReducePlain(ws, []);
    WordsOfRender(st);
    ReduceConcat(st, vs, []);
    ReduceOfPlain(st, []);
    assert [] + st == st;
    ReduceConcat(ws, vs, []);
  }
}
