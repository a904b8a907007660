/** Resolving a path against the current directory in a fixed buffer, and the current
    directory over a run of chdir calls (fs/vfs.c:359-438, fs/vfs.c:610-652). */
module PathResolution {
  import opened Paths
  import opened PathBuffers

  const MAX_FILENAME_LEN := 64

  /** What fits of `s` into `n` characters. */
  function First(s: string, n: nat): string {
    if |s| <= n then s else s[..n]
  }

  /** The text that is normalised when `p` is resolved in `c`. */
  function Combined(c: string, p: string): string {
    var base := if c == "" then "/" else c;
    if p == "" then base
    else if IsAbsolute(p) then p
    else base + (if base[|base| - 1] == '/' then "" else "/") + p
  }

  lemma NormOfCombined(c: string, p: string)
    ensures Norm(Combined(c, p)) == Resolve(c, p)
  {
    var base := if c == "" then "/" else c;
    assert Words(base) == Words(c) by {
      assert Words("/") == Words("/"[1..]) == [];
    }
    if p == "" {
      assert Words(c) + Words(p) == Words(c);
    } else if IsAbsolute(p) {
      ResolveFromNormalForm(c, p);
    } else if base[|base| - 1] == '/' {
      WordsAfterSlash(base, p);
      assert base + "" + p == base + p;
    } else {
      WordsConcat(base, p);
    }
  }

  /** The place the resolution gives, in a buffer of `n` characters. */
  function Resolved(c: string, p: string, n: nat): string
    requires n >= 2
  {
    Normalized(First(Combined(c, p), n - 1), n)
  }

  /** A resolution that nothing is cut from on the way in is right exactly when its result
      leaves two characters of the buffer free, or is the root. */
  lemma ResolvedIsResolve(c: string, p: string)
    requires |Combined(c, p)| <= MAX_FILENAME_LEN - 1
    ensures Resolved(c, p, MAX_FILENAME_LEN) == Resolve(c, p) <==> |Resolve(c, p)| <= MAX_FILENAME_LEN - 2 || Resolve(c, p) == "/"
  {
    NormOfCombined(c, p);
    ShortPathFits(Combined(c, p));
    NormalizedIsNorm(Combined(c, p), MAX_FILENAME_LEN);
  }

  // ---------------- the buffer ----------------

  /** k_strncpy to offset `off` of a buffer, and the terminator at its end. */
  method CopyText(dest: array<char>, off: nat, src: array<char>, ghost s: string)
    requires dest != src && off < dest.Length && IsString(src[..], s) && '\0' !in dest[..off]
    modifies dest
    ensures IsString(dest[..], old(dest[..off]) + First(s, dest.Length - 1 - off))
  {
    var n := dest.Length - off;
    var i := 0;
    assert src[..][..|s|] == s && src[..][|s|] == '\0';
    assert forall k :: 0 <= k < |s| ==> src[k] == s[k] && s[k] != '\0';
    while i < n && src[i] != '\0'
      invariant i <= n && i <= |s|
      invariant dest[..off + i] == old(dest[..off]) + s[..i]
    {
      assert src[i] == src[..][i];
      dest[off + i] := src[i];
      i := i + 1;
    }
    ghost var kept := First(s, n);
    assert dest[..off + i] == old(dest[..off]) + kept && |kept| == i;
    while i < n
      invariant |kept| <= i <= n
      invariant dest[..off + |kept|] == old(dest[..off]) + kept
      invariant forall k :: off + |kept| <= k < off + i ==> dest[k] == '\0'
    {
      dest[off + i] := '\0';
      i := i + 1;
    }
    ghost var r := old(dest[..off]) + First(s, n - 1);
    dest[dest.Length - 1] := '\0';
    assert dest[..|r|] == r;
    assert dest[..][|r|] == dest[|r|] == '\0';
  }

  /** The root, in a buffer. */
  method PutRoot(resolved: array<char>)
    requires resolved.Length >= 2
    modifies resolved
    ensures IsString(resolved[..], "/")
  {
    resolved[0] := '/';
    resolved[1] := '\0';
    assert resolved[..1] == "/";
  }

  /** The directory from which a relative path is taken. */
  method PutBase(cwd: array<char>, resolved: array<char>, ghost c: string)
    requires resolved.Length >= 2 && cwd != resolved && IsString(cwd[..], c)
    modifies resolved
    ensures IsString(resolved[..], First(if c == "" then "/" else c, resolved.Length - 1))
  {
    assert c != "" ==> cwd[0] == cwd[..][..|c|][0];
    assert c == "" ==> cwd[0] == cwd[..][0];
    if cwd[0] != '\0' {
      CopyText(resolved, 0, cwd, c);
      assert old(resolved[..0]) + First(c, resolved.Length - 1) == First(c, resolved.Length - 1);
    } else {
      PutRoot(resolved);
    }
  }

  /** The separator behind the text of length `len`, if one is missing and fits. */
  method PutSeparator(resolved: array<char>, len: nat, ghost t: string) returns (newLen: nat)
    requires resolved.Length >= 2 && IsString(resolved[..], t) && len == |t| > 0
    modifies resolved
    ensures IsString(resolved[..], if |t| < resolved.Length - 1 && t[|t| - 1] != '/' then t + "/" else t)
    ensures newLen == if |t| < resolved.Length - 1 && t[|t| - 1] != '/' then |t| + 1 else |t|
  {
    newLen := len;
    assert resolved[len - 1] == resolved[..][..|t|][len - 1];
    if len < resolved.Length - 1 && resolved[len - 1] != '/' {
      resolved[newLen] := '/';
      newLen := newLen + 1;
      resolved[newLen] := '\0';
      assert resolved[..newLen] == resolved[..len] + ['/'];
      assert resolved[..len] == old(resolved[..])[..len];
    }
  }

  /** The relative path behind the directory, if there is room. */
  method PutRest(pathname: array<char>, resolved: array<char>, len: nat, ghost u: string, ghost p: string)
    requires pathname != resolved && IsString(pathname[..], p) && IsString(resolved[..], u) && len == |u|
    modifies resolved
    ensures IsString(resolved[..], First(u + p, resolved.Length - 1))
  {
    var n := resolved.Length;
    assert resolved[..len] == resolved[..][..|u|] == u;
    assert u + First(p, n - 1 - len) == First(u + p, n - 1);
    if len < n - 1 {
      CopyText(resolved, len, pathname, p);
    }
  }

  /** The directory with its separator, cut before the separator is added or after it. */
  lemma CutBase(base: string, p: string, n: nat)
    requires n >= 1 && base != "" && p != ""
    ensures var t := First(base, n);
      var u := if |t| < n && t[|t| - 1] != '/' then t + "/" else t;
      First(u + p, n) == First(base + (if base[|base| - 1] == '/' then "" else "/") + p, n)
  {
    var t := First(base, n);
    var u := if |t| < n && t[|t| - 1] != '/' then t + "/" else t;
    var all := base + (if base[|base| - 1] == '/' then "" else "/") + p;
    if |base| < n {
      assert u + p == all;
    } else {
      assert u == t == base[..n] == all[..n];
      assert (u + p)[..n] == u;
    }
  }

  /** The text of a relative path, before it is normalised.  The directory is not empty, so
      the source's test for an empty one never holds. */
  method PutRelative(cwd: array<char>, pathname: array<char>, resolved: array<char>, ghost c: string, ghost p: string)
    requires resolved.Length >= 2 && cwd != resolved && pathname != resolved
    requires IsString(cwd[..], c) && IsString(pathname[..], p) && p != "" && !IsAbsolute(p)
    modifies resolved
    ensures IsString(resolved[..], First(Combined(c, p), resolved.Length - 1))
  {
    ghost var n := resolved.Length - 1;
    ghost var base := if c == "" then "/" else c;
    ghost var t := First(base, n);
    ghost var u := if |t| < n && t[|t| - 1] != '/' then t + "/" else t;
    CutBase(base, p, n);
    PutBase(cwd, resolved, c);
    var len := Strlen(resolved, t);
    len := PutSeparator(resolved, len, t);
    PutRest(pathname, resolved, len, u, p);
  }

  /** The text that vfs_resolve_path normalises. */
  method PutCombined(cwd: array<char>, pathname: array<char>, resolved: array<char>, ghost c: string, ghost p: string)
    requires resolved.Length >= 2 && cwd != resolved && pathname != resolved
    requires IsString(cwd[..], c) && IsString(pathname[..], p)
    modifies resolved
    ensures IsString(resolved[..], First(Combined(c, p), resolved.Length - 1))
  {
    assert p != "" ==> pathname[0] == pathname[..][..|p|][0];
    assert p == "" ==> pathname[0] == pathname[..][0];
    if pathname[0] == '\0' {
      PutBase(cwd, resolved, c);
    } else if pathname[0] == '/' {
      CopyText(resolved, 0, pathname, p);
      assert old(resolved[..0]) + First(p, resolved.Length - 1) == First(p, resolved.Length - 1);
    } else {
      PutRelative(cwd, pathname, resolved, c, p);
    }
  }

  /** vfs_resolve_path in a buffer of one character, where the root has no terminator. */
  method ResolveInOne(cwd: array<char>, pathname: array<char>, resolved: array<char>, ghost c: string, ghost p: string) returns (ended: bool)
    requires resolved.Length == 1 && cwd != resolved && pathname != resolved
    requires IsString(cwd[..], c) && IsString(pathname[..], p)
    modifies resolved
    ensures resolved[0] == '/' && ended == (IsAbsolute(p) || (p == "" && c != ""))
  {
    assert (p != "" ==> pathname[0] == pathname[..][..|p|][0]) && (p == "" ==> pathname[0] == pathname[..][0]);
    assert (c != "" ==> cwd[0] == cwd[..][..|c|][0]) && (c == "" ==> cwd[0] == cwd[..][0]);
    ended := pathname[0] == '/' || (pathname[0] == '\0' && cwd[0] != '\0');
    if ended {
      resolved[0] := '\0';
      assert IsString(resolved[..], "");
      ended := Normalize(resolved, "");
    } else {
      resolved[0] := '/';
    }
  }

  /** vfs_resolve_path.  `ended` is false when the normalisation reads on behind the buffer:
      for a current directory that is not absolute and a text that fills the buffer. */
  method ResolvePath(cwd: array<char>, pathname: array<char>, resolved: array<char>, ghost c: string, ghost p: string) returns (ended: bool)
    requires cwd != resolved && pathname != resolved
    requires IsString(cwd[..], c) && IsString(pathname[..], p)
    modifies resolved
    ensures resolved.Length == 1 ==> ended == (IsAbsolute(p) || (p == "" && c != ""))
    ensures resolved.Length >= 2 ==> ended == StaysInside(Combined(c, p), resolved.Length)
    ensures resolved.Length >= 2 && ended ==> IsString(resolved[..], Resolved(c, p, resolved.Length))
  {
    if resolved.Length == 0 {
      return true;
    }
    if resolved.Length == 1 {
      ended := ResolveInOne(cwd, pathname, resolved, c, p);
      return;
    }
    PutCombined(cwd, pathname, resolved, c, p);
    ended := Normalize(resolved, First(Combined(c, p), resolved.Length - 1));
  }

  /** No path leaves the buffer when the current directory is absolute, or empty as in a
      new task: then the text that is normalised is absolute. */
  lemma CombinedIsAbsolute(c: string, p: string)
    requires IsAbsolute(p) || c == "" || IsAbsolute(c)
    ensures IsAbsolute(Combined(c, p))
  {
  }

  // ---------------- the current directory ----------------

  /** Which cuts leave a normal form: none at all, or one inside the last name that leaves
      a name. */
  ghost predicate CutsCleanly(st: seq<string>, n: nat)
    requires n >= 2
  {
    |Render(st)| <= n - 2
    || (st != []
        && var before := |Joined(st[..|st| - 1])| + 1;
           before < n - 2 <= before + |st[|st| - 1]| && st[|st| - 1][..n - 2 - before] !in {".", ".."})
  }

  /** A name that is cut to one or two dots is not plain any more. */
  lemma PartIsPlain(w: string, k: nat)
    requires IsPlain(w) && 0 < k <= |w|
    ensures IsPlain(w[..k]) <==> w[..k] !in {".", ".."}
  {
  }

  lemma CutIsNormal(st: seq<string>, n: nat)
    requires AllPlain(st) && n >= 4
    ensures IsNormal(Cut(Render(st), n)) <==> CutsCleanly(st, n)
  {
    var r := Render(st);
    if |r| > n - 2 {
      var front, w := st[..|st| - 1], st[|st| - 1];
      var before := |Joined(front)| + 1;
      assert st == front + [w] && IsPlain(w);
      JoinedAppend(front, w);
      assert r == Joined(front) + "/" + w;
      if before < n - 2 {
        LastNameCut(front, w, n);
      } else {
        SlashStays(front, w, n);
      }
    }
  }

  /** A name behind a normal path keeps it normal exactly when it is plain. */
  lemma AppendedIsNormal(front: seq<string>, part: string)
    requires AllPlain(front) && part != "" && '/' !in part
    ensures IsNormal(Joined(front) + "/" + part) <==> IsPlain(part)
  {
    var s, names := Joined(front) + "/" + part, front + [part];
    DotsAreNames(front, part);
    JoinedAppend(front, part);
    if IsNormal(s) {
      NormalShape(s);
      assert IsPlain(names[|front|]);
    }
    if IsPlain(part) {
      assert AllPlain(names) && s == Render(names);
    }
  }

  /** Only the last name is cut. */
  lemma LastNameCut(front: seq<string>, w: string, n: nat)
    requires AllPlain(front) && IsPlain(w) && n >= 4
    requires |Joined(front)| + 1 < n - 2 < |Joined(front)| + 1 + |w|
    ensures var r, kept := Joined(front) + "/" + w, n - 2 - (|Joined(front)| + 1);
      Cut(r, n) == Joined(front) + "/" + w[..kept]
      && (IsNormal(Cut(r, n)) <==> w[..kept] !in {".", ".."})
  {
    var r, before := Joined(front) + "/" + w, |Joined(front)| + 1;
    var part := w[..n - 2 - before];
    assert r[n - 2..] == w[n - 2 - before..] && r[n - 3] == w[n - 3 - before];
    assert Cut(r, n) == Joined(front) + "/" + part;
    PartIsPlain(w, |part|);
    AppendedIsNormal(front, part);
  }

  lemma DotsAreNames(front: seq<string>, part: string)
    requires AllPlain(front) && part != "" && '/' !in part
    ensures Words(Joined(front) + "/" + part) == front + [part]
  {
    WordsConcat(Joined(front), part);
    WordsOfJoined(front);
    FirstWord(part, |part|);
    assert part[..|part|] == part && part[|part|..] == "";
  }

  /** The cut leaves a slash at the end. */
  lemma SlashStays(front: seq<string>, w: string, n: nat)
    requires AllPlain(front) && IsPlain(w) && n >= 4
    requires n - 2 <= |Joined(front)| + 1
    ensures !IsNormal(Cut(Joined(front) + "/" + w, n))
  {
    var r := Joined(front) + "/" + w;
    var l := |Joined(front)|;
    JoinedShape(front);
    var cut := Cut(r, n);
    assert r[l] == '/';
    assert l >= n - 2 ==> r[n - 2..][l - (n - 2)] == '/';
    assert cut[|cut| - 1] == '/' && |cut| > 1;
    if IsNormal(cut) {
      NormalShape(cut);
      assert false;
    }
  }

  /** A path that is cut to a name of dots, which is no normal form. */
  lemma NameOfDots()
    ensures var s := "/" + seq(58, _ => 'a') + "/..b";
      Norm(s) == s && Normalized(s, MAX_FILENAME_LEN) == "/" + seq(58, _ => 'a') + "/.."
      && !IsNormal(Normalized(s, MAX_FILENAME_LEN))
  {
    var w := seq(58, _ => 'a');
    var st, s := [w, "..b"], "/" + w + "/..b";
    assert IsPlain(w) && IsPlain("..b") && [w] == st[..1];
    assert Joined([w]) == "/" + w + Joined([]) == "/" + w;
    JoinedAppend([w], "..b");
    assert [w] + ["..b"] == st && Joined(st) == s;
    assert IsNormal(s) by {
      assert AllPlain(st) && s == Render(st);
    }
    NormOfNormal(s);
    ShortPathFits(s);
    CollapseIsReduce(Words(s), []);
    assert "..b"[..2] == "..";
    LastNameCut([w], "..b", MAX_FILENAME_LEN);
  }

  /** The current directory after a chdir to `p`: `ok` says whether the directory could be
      opened and listed. */
  function Chdir(c: string, p: string, ok: bool): string {
    if ok then First(Resolved(c, p, MAX_FILENAME_LEN), MAX_FILENAME_LEN - 1) else c
  }

  /** vfs_chdir behind the open of the directory. */
  method ChangeDirectory(cwd: array<char>, path: array<char>, ok: bool, ghost c: string, ghost p: string)
    requires cwd.Length == MAX_FILENAME_LEN && cwd != path && IsString(cwd[..], c) && IsString(path[..], p)
    requires IsAbsolute(p) || c == "" || IsAbsolute(c)
    modifies cwd
    ensures IsString(cwd[..], Chdir(c, p, ok))
  {
    var resolved := new char[MAX_FILENAME_LEN];
    CombinedIsAbsolute(c, p);
    var _ := ResolvePath(cwd, path, resolved, c, p);
    if ok {
      CopyText(cwd, 0, resolved, Resolved(c, p, MAX_FILENAME_LEN));
      assert old(cwd[..0]) + First(Resolved(c, p, MAX_FILENAME_LEN), MAX_FILENAME_LEN - 1) == Chdir(c, p, true);
    }
  }

  /** Which chdir calls leave a current directory in normal form: those that fail, and those
      whose path is cut cleanly. */
  lemma ChdirKeepsNormal(c: string, p: string, ok: bool)
    requires IsNormal(c)
    ensures IsNormal(Chdir(c, p, ok)) <==>
      !ok || CutsCleanly(Reduce(Words(First(Combined(c, p), MAX_FILENAME_LEN - 1)), []), MAX_FILENAME_LEN)
  {
    var s := First(Combined(c, p), MAX_FILENAME_LEN - 1);
    ShortPathFits(s);
    CollapseIsReduce(Words(s), []);
    NormIsNormal(s);
    CutIsNormal(Reduce(Words(s), []), MAX_FILENAME_LEN);
    NormalizedIsPrefix(s, MAX_FILENAME_LEN);
  }

  /** Nothing is cut when `p` is resolved in `c`. */
  predicate Untruncated(c: string, p: string) {
    |Combined(c, p)| <= MAX_FILENAME_LEN - 1 && |Resolve(c, p)| <= MAX_FILENAME_LEN - 2
  }

  datatype Move = Move(path: string, ok: bool)

  /** The current directory after a run of chdir calls, in the kernel's buffers. */
  function Moved(c: string, ms: seq<Move>): string
    decreases |ms|
  {
    if ms == [] then c else Moved(Chdir(c, ms[0].path, ms[0].ok), ms[1..])
  }

  ghost predicate NoneTruncated(c: string, ms: seq<Move>)
    decreases |ms|
  {
    ms != [] ==> Untruncated(c, ms[0].path) && NoneTruncated(Chdir(c, ms[0].path, ms[0].ok), ms[1..])
  }

  /** The one path that a run of successful moves amounts to. */
  function Journey(p: string, ms: seq<Move>): string
    decreases |ms|
  {
    if ms == [] then p else Journey(if ms[0].ok then p + "/" + ms[0].path else p, ms[1..])
  }

  lemma UntruncatedChdir(c: string, p: string)
    requires Untruncated(c, p)
    ensures Chdir(c, p, true) == Resolve(c, p)
  {
    ResolvedIsResolve(c, p);
  }

  /** Over any run of chdir calls that truncates nothing the current directory stays in
      normal form. */
  lemma {:induction false} CwdStaysNormal(c: string, ms: seq<Move>)
    requires IsNormal(c) && NoneTruncated(c, ms)
    ensures IsNormal(Moved(c, ms))
    decreases |ms|
  {
    if ms != [] {
      UntruncatedChdir(c, ms[0].path);
      ResolveIsNormal(c, ms[0].path);
      CwdStaysNormal(Chdir(c, ms[0].path, ms[0].ok), ms[1..]);
    }
  }

  /** ... and a run of relative moves is one resolution of the joined path. */
  lemma {:induction false} CwdIsOneResolution(c: string, p: string, ms: seq<Move>)
    requires p != "" && NoneTruncated(Resolve(c, p), ms)
    requires forall i :: 0 <= i < |ms| ==> !IsAbsolute(ms[i].path)
    ensures Moved(Resolve(c, p), ms) == Resolve(c, Journey(p, ms))
    decreases |ms|
  {
    if ms != [] {
      UntruncatedChdir(Resolve(c, p), ms[0].path);
      if ms[0].ok {
        ResolveComposes(c, p, ms[0].path);
        CwdIsOneResolution(c, p + "/" + ms[0].path, ms[1..]);
      } else {
        CwdIsOneResolution(c, p, ms[1..]);
      }
    }
  }
}
