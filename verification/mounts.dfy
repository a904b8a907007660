/** The mount table and the choice of a file system for a path (fs/vfs.c:212-238,
    fs/vfs.c:283-320). */
module Mounts {
  import opened Paths
  import opened PathBuffers
  import opened PathResolution

  const MAX_MOUNTS := 16

  /** A file system, by its address. */
  type Fs = nat

  datatype Mount = Mount(path: string, fs: Fs)

  /** What path_to_fs asks of a mount path. */
  predicate Matches(p: string, m: string) {
    m <= p && (|m| == |p| || p[|m|] == '/' || |m| == 1)
  }

  /** Mount `i` is the one that path_to_fs comes up with for `p`. */
  ghost predicate IsChoice(ms: seq<Mount>, p: string, i: nat) {
    && i < |ms| && Matches(p, ms[i].path)
    && forall k :: 0 <= k < |ms| && Matches(p, ms[k].path) ==>
         |ms[k].path| <= |ms[i].path| && (k < i ==> |ms[k].path| < |ms[i].path|)
  }

  // ---------------- names instead of characters ----------------

  lemma SplitAtSlash(x: string, y: string)
    requires x <= y && |x| < |y| && y[|x|] == '/'
    ensures y == x + "/" + y[|x| + 1..]
  {
    assert y[..|x|] == x;
  }

  /** A text that goes on with a slash, if it goes on, goes on with further names. */
  lemma PrefixNames(x: string, y: string)
    requires x <= y && (|x| == |y| || y[|x|] == '/')
    ensures Words(x) <= Words(y)
  {
    if |x| < |y| {
      SplitAtSlash(x, y);
      WordsConcat(x, y[|x| + 1..]);
    } else {
      assert x == y;
    }
  }

  /** A mount path matches exactly the paths whose names start with its names. */
  lemma MatchesIsPrefix(m: seq<string>, p: seq<string>)
    requires AllPlain(m) && AllPlain(p)
    ensures Matches(Render(p), Render(m)) <==> m <= p
  {
    if m <= p {
      assert p == m + p[|m|..];
      JoinedConcat(m, p[|m|..]);
    }
    if m != [] && p != [] && Matches(Render(p), Render(m)) {
      assert IsPlain(m[0]);
      WordsOfJoined(m);
      WordsOfJoined(p);
      PrefixNames(Joined(m), Joined(p));
    }
    if p == [] && m != [] {
      assert IsPlain(m[0]);
      assert |Render(m)| > 1;
    }
  }

  /** Of two mounts on the way to a path the one with more names has the longer text. */
  lemma LongerIsDeeper(a: seq<string>, b: seq<string>, p: seq<string>)
    requires AllPlain(p) && a <= p && b <= p
    ensures |Render(a)| <= |Render(b)| <==> |a| <= |b|
  {
    assert a == p[..|a|] && b == p[..|b|];
    if |a| < |b| {
      Deeper(a, b);
    } else if |b| < |a| {
      Deeper(b, a);
    }
  }

  lemma Deeper(a: seq<string>, b: seq<string>)
    requires AllPlain(b) && a < b
    ensures |Render(a)| < |Render(b)|
  {
    var rest := b[|a|..];
    assert b == a + rest && IsPlain(rest[0]);
    JoinedConcat(a, rest);
  }

  ghost predicate AllNormal(ms: seq<Mount>) {
    forall i :: 0 <= i < |ms| ==> IsNormal(ms[i].path)
  }

  ghost predicate DistinctPaths(ms: seq<Mount>) {
    forall i, j :: 0 <= i < j < |ms| ==> ms[i].path != ms[j].path
  }

  lemma MatchesNames(p: string, m: string)
    requires IsNormal(p) && IsNormal(m)
    ensures Matches(p, m) <==> Words(m) <= Words(p)
  {
    NormalShape(p);
    NormalShape(m);
    MatchesIsPrefix(Words(m), Words(p));
  }

  lemma LengthsAreDepths(p: string, m: string, m': string)
    requires IsNormal(p) && IsNormal(m) && IsNormal(m') && Matches(p, m) && Matches(p, m')
    ensures |m| <= |m'| <==> |Words(m)| <= |Words(m')|
  {
    MatchesNames(p, m);
    MatchesNames(p, m');
    NormalShape(p);
    NormalShape(m);
    NormalShape(m');
    LongerIsDeeper(Words(m), Words(m'), Words(p));
  }

  /** The chosen mount is the one whose names are the longest prefix of the path's names;
      with a mounted root there always is one. */
  lemma ChoiceIsLongestPrefix(ms: seq<Mount>, p: string, i: nat)
    requires AllNormal(ms) && IsNormal(p) && IsChoice(ms, p, i)
    ensures Words(ms[i].path) <= Words(p)
    ensures forall k :: 0 <= k < |ms| && Words(ms[k].path) <= Words(p) ==> |Words(ms[k].path)| <= |Words(ms[i].path)|
  {
    MatchesNames(p, ms[i].path);
    forall k | 0 <= k < |ms| && Words(ms[k].path) <= Words(p) ensures |Words(ms[k].path)| <= |Words(ms[i].path)| {
      MatchesNames(p, ms[k].path);
      LengthsAreDepths(p, ms[k].path, ms[i].path);
    }
  }

  /** Two matching mounts with paths of one length have the same path. */
  lemma SameLengthSamePath(p: string, m: string, m': string)
    requires Matches(p, m) && Matches(p, m') && |m| == |m'|
    ensures m == m'
  {
    assert m == p[..|m|] && m' == p[..|m'|];
  }

  ghost predicate SomeMatch(ms: seq<Mount>, p: string) {
    exists m :: m in ms && Matches(p, m.path)
  }

  /** Where some mount matches there is a choice, and only there. */
  lemma {:induction false} ChoiceExists(ms: seq<Mount>, p: string)
    ensures (exists i: nat :: IsChoice(ms, p, i)) <==> SomeMatch(ms, p)
  {
    if ms != [] {
      var n := |ms| - 1;
      var front := ms[..n];
      assert ms == front + [ms[n]];
      ChoiceExists(front, p);
      if i: nat :| IsChoice(front, p, i) {
        assert SomeMatch(ms, p) by { assert ms[i] in ms; }
        assert IsChoice(ms, p, if Matches(p, ms[n].path) && |ms[n].path| > |ms[i].path| then n else i);
      } else if Matches(p, ms[n].path) {
        assert forall k :: 0 <= k < n ==> front[k] in front;
        assert IsChoice(ms, p, n);
      }
    }
  }

  lemma SameChoice(ms: seq<Mount>, ms': seq<Mount>, p: string, i: nat, i': nat)
    requires DistinctPaths(ms) && (forall m :: m in ms <==> m in ms')
    requires IsChoice(ms, p, i) && IsChoice(ms', p, i')
    ensures ms[i] == ms'[i']
  {
    assert ms[i] in ms' && ms'[i'] in ms;
    var k :| 0 <= k < |ms| && ms[k] == ms'[i'];
    var k' :| 0 <= k' < |ms'| && ms'[k'] == ms[i];
    assert |ms[k].path| <= |ms[i].path| && |ms'[k'].path| <= |ms'[i'].path|;
    SameLengthSamePath(p, ms[i].path, ms[k].path);
    assert k == i;
  }

  /** The order in which distinct paths were mounted does not matter: in either order there
      is a choice or there is none, and it is the same mount. */
  lemma OrderDoesNotMatter(ms: seq<Mount>, ms': seq<Mount>, p: string)
    requires DistinctPaths(ms) && (forall m :: m in ms <==> m in ms')
    ensures (exists i: nat :: IsChoice(ms, p, i)) <==> (exists i: nat :: IsChoice(ms', p, i))
    ensures forall i: nat, i': nat :: IsChoice(ms, p, i) && IsChoice(ms', p, i') ==> ms[i] == ms'[i']
  {
    ChoiceExists(ms, p);
    ChoiceExists(ms', p);
    assert SomeMatch(ms, p) <==> SomeMatch(ms', p);
    forall i: nat, i': nat | IsChoice(ms, p, i) && IsChoice(ms', p, i') ensures ms[i] == ms'[i'] {
      SameChoice(ms, ms', p, i, i');
    }
  }

  // ---------------- mount paths ----------------

  /** What vfs_mount stores of a path. */
  function MountPath(p: string): string {
    Normalized(First(p, MAX_FILENAME_LEN - 1), MAX_FILENAME_LEN)
  }

  /** The reduced names of the part of a mount path that fits. */
  function MountNames(p: string): seq<string> {
    Reduce(Words(First(p, MAX_FILENAME_LEN - 1)), [])
  }

  /** A mount path is stored in normal form exactly when it is cut cleanly. */
  lemma MountPathIsNormal(p: string)
    ensures IsNormal(MountPath(p)) <==> CutsCleanly(MountNames(p), MAX_FILENAME_LEN)
  {
    var t := First(p, MAX_FILENAME_LEN - 1);
    ShortPathFits(t);
    CollapseIsReduce(Words(t), []);
    NormIsNormal(t);
    WordsAreNames(t);
    ReducePlain(Words(t), []);
    CutIsNormal(MountNames(p), MAX_FILENAME_LEN);
  }

  lemma AllNormalGrows(ms: seq<Mount>, m: Mount)
    ensures AllNormal(ms + [m]) <==> AllNormal(ms) && IsNormal(m.path)
  {
    assert (ms + [m])[|ms|] == m;
    assert forall i :: 0 <= i < |ms| ==> (ms + [m])[i] == ms[i];
  }

  // ---------------- the table ----------------

  datatype MountPoint = MountPoint(path: string, fs: Fs, active: bool)

  class MountTable {
    const slots: array<MountPoint>
    ghost var mounted: seq<Mount>

    ghost predicate Valid()
      reads this, slots
    {
      && slots.Length == MAX_MOUNTS && |mounted| <= MAX_MOUNTS
      && (forall i :: 0 <= i < MAX_MOUNTS ==> slots[i].active == (i < |mounted|))
      && (forall i :: 0 <= i < |mounted| ==> mounted[i] == Mount(slots[i].path, slots[i].fs) && slots[i].path != "" && '\0' !in slots[i].path)
    }

    /** The mount part of vfs_init. */
    constructor ()
      ensures Valid() && mounted == []
    {
      slots := new MountPoint[MAX_MOUNTS](_ => MountPoint("", 0, false));
      mounted := [];
    }

    /** The string in a buffer, as its value. */
    static method Value(buf: array<char>, ghost s: string) returns (v: string)
      requires IsString(buf[..], s)
      ensures v == s
    {
      var len := Strlen(buf, s);
      v := buf[..len];
    }

    /** vfs_mount: the normalised path goes into the first inactive slot.  `ended` is false
        when a relative path fills the buffer, where the model of normalisation stops. */
    method AddMount(path: array<char>, fs: Fs, ghost p: string) returns (r: int, ended: bool)
      requires Valid() && IsString(path[..], p)
      modifies this, slots
      ensures Valid() && ended == StaysInside(First(p, MAX_FILENAME_LEN - 1), MAX_FILENAME_LEN)
      ensures r == if ended && |old(mounted)| < MAX_MOUNTS then 0 else -1
      ensures mounted == old(mounted) + if r == 0 then [Mount(MountPath(p), fs)] else []
      ensures AllNormal(mounted) <==> old(AllNormal(mounted)) && (r == 0 ==> CutsCleanly(MountNames(p), MAX_FILENAME_LEN))
    {
      var normalized: array<char>;
      normalized, ended := NormalizeMountPath(path, p);
      if !ended {
        assert old(mounted) == mounted;
        return -1, false;
      }
      MountPathIsNormal(p);
      AllNormalGrows(mounted, Mount(MountPath(p), fs));
      r := Activate(normalized, fs, MountPath(p));
      assert r != 0 ==> mounted == old(mounted);
    }

    /** The part of vfs_mount before its loop. */
    static method NormalizeMountPath(path: array<char>, ghost p: string) returns (normalized: array<char>, ended: bool)
      requires IsString(path[..], p)
      ensures fresh(normalized) && ended == StaysInside(First(p, MAX_FILENAME_LEN - 1), MAX_FILENAME_LEN)
      ensures ended ==> IsString(normalized[..], MountPath(p))
    {
      normalized := new char[MAX_FILENAME_LEN];
      CopyText(normalized, 0, path, p);
      ghost var t := First(p, MAX_FILENAME_LEN - 1);
      assert [] + t == t;
      ended := Normalize(normalized, t);
    }

    /** The loop of vfs_mount. */
    method Activate(normalized: array<char>, fs: Fs, ghost m: string) returns (r: int)
      requires Valid() && IsString(normalized[..], m) && m != ""
      modifies this, slots
      ensures Valid() && r == if |old(mounted)| < MAX_MOUNTS then 0 else -1
      ensures mounted == old(mounted) + if r == 0 then [Mount(m, fs)] else []
    {
      for i := 0 to MAX_MOUNTS
        invariant Valid() && mounted == old(mounted) && i <= |mounted|
        invariant IsString(normalized[..], m)
      {
        if !slots[i].active {
          var v := Value(normalized, m);
          slots[i] := MountPoint(v, fs, true);
          mounted := mounted + [Mount(v, fs)];
          return 0;
        }
      }
      return -1;
    }

    /** k_strncmp of the path with a mount path of length `n`, as a test for equality. */
    static method StartsWith(pathname: array<char>, m: string, ghost p: string) returns (b: bool)
      requires IsString(pathname[..], p) && '\0' !in m
      ensures b == (m <= p)
    {
      assert pathname[..][..|p|] == p && pathname[..][|p|] == '\0';
      assert forall k :: 0 <= k < |p| ==> pathname[k] == p[k];
      for i := 0 to |m|
        invariant i <= |p| && m[..i] == p[..i]
      {
        if pathname[i] != m[i] {
          assert i < |p| ==> p[i] != m[i];
          return false;
        }
        assert m[i] in m;
      }
      return true;
    }

    /** path_to_fs: the index of the mount whose file system it returns, or -1. */
    method PathToFs(pathname: array<char>, ghost p: string) returns (best: int)
      requires Valid() && IsString(pathname[..], p)
      ensures best == -1 || (0 <= best && IsChoice(mounted, p, best))
      ensures best == -1 <==> !IsAbsolute(p) || !SomeMatch(mounted, p)
    {
      assert pathname[..][..|p|] == p && pathname[..][|p|] == '\0';
      if pathname[0] != '/' {
        return -1;
      }
      best := -1;
      var bestLen := 0;
      for i := 0 to MAX_MOUNTS
        invariant -1 <= best < i
        invariant best == -1 ==> bestLen == 0
        invariant best >= 0 ==> best < |mounted| && bestLen == |mounted[best].path| && Matches(p, mounted[best].path)
        invariant forall k :: 0 <= k < i && k < |mounted| && Matches(p, mounted[k].path) ==>
          |mounted[k].path| <= bestLen && best >= 0 && (k < best ==> |mounted[k].path| < bestLen)
      {
        if slots[i].active {
          var mountPath := slots[i].path;
          assert mounted[i].path == mountPath;
          var starts := StartsWith(pathname, mountPath, p);
          if starts {
            var n := |mountPath|;
            assert pathname[n] == if n == |p| then '\0' else p[n];
            assert n < |p| ==> p[n] in p;
            if pathname[n] == '\0' || pathname[n] == '/' || n == 1 {
              if n > bestLen {
                best, bestLen := i, n;
              }
            }
          }
        }
      }
    }
  }
}
