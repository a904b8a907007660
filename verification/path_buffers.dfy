/** Paths in buffers: the in-place normalisation and the resolution of fs/vfs.c, against the
    meaning given in Paths.  A string is the part of a buffer before its first NUL. */
module PathBuffers {
  import opened Paths

  const MAX_SEGMENTS := 64

  /** Where a name is in the buffer. */
  datatype Segment = Segment(start: nat, len: nat) {
    function End(): nat { start + len }
  }

  ghost predicate IsString(buf: seq<char>, s: string) {
    '\0' !in s && |s| < |buf| && buf[..|s|] == s && buf[|s|] == '\0'
  }

  // ---------------- what the buffers make of a path ----------------

  /** Push with room for MAX_SEGMENTS names: a name that finds the stack full is dropped. */
  function PushLimited(st: seq<string>, w: string): seq<string> {
    if w != "." && w != ".." && |st| >= MAX_SEGMENTS then st else Push(st, w)
  }

  function Collapse(ws: seq<string>, st: seq<string>): seq<string>
    decreases |ws|
  {
    if ws == [] then st else Collapse(ws[1..], PushLimited(st, ws[0]))
  }

  /** The path `r` written into a buffer of `n` characters: a path that does not leave room
      for two more characters loses its end, and if more than the end of its last name is
      lost a slash stays behind. */
  function Cut(r: string, n: nat): string
    requires IsAbsolute(r) && n >= 2
  {
    if |r| <= n - 2 then r
    else r[..n - 2] + if r[n - 2] == '/' || (r[n - 3] != '/' && '/' in r[n - 2..]) then "/" else ""
  }

  /** What normalisation leaves in a buffer of `n` characters that holds `s`. */
  function Normalized(s: string, n: nat): string
    requires n >= 2
  {
    RenderIsAbsolute(Collapse(Words(s), []));
    Cut(Render(Collapse(Words(s), [])), n)
  }

  lemma RenderIsAbsolute(st: seq<string>)
    ensures IsAbsolute(Render(st))
  {
  }

  /** The stack never holds more than MAX_SEGMENTS names. */
  ghost predicate FitsStack(ws: seq<string>, st: seq<string>)
    decreases |ws|
  {
    |st| <= MAX_SEGMENTS && (ws != [] ==> FitsStack(ws[1..], Push(st, ws[0])))
  }

  lemma {:induction false} CollapseIsReduce(ws: seq<string>, st: seq<string>)
    requires FitsStack(ws, st)
    ensures Collapse(ws, st) == Reduce(ws, st)
    decreases |ws|
  {
    if ws != [] {
      CollapseIsReduce(ws[1..], Push(st, ws[0]));
    }
  }

  /** Of more than MAX_SEGMENTS plain names the first ones are kept. */
  lemma {:induction false} DeepPath(ws: seq<string>, st: seq<string>)
    requires AllPlain(ws) && |st| <= MAX_SEGMENTS
    ensures Collapse(ws, st) == if |st + ws| <= MAX_SEGMENTS then st + ws else (st + ws)[..MAX_SEGMENTS]
    decreases |ws|
  {
    if ws != [] {
      assert IsPlain(ws[0]);
      DeepPath(ws[1..], PushLimited(st, ws[0]));
      if |st| < MAX_SEGMENTS {
        assert (st + [ws[0]]) + ws[1..] == st + ws;
      } else {
        assert (st + ws[1..])[..MAX_SEGMENTS] == st == (st + ws)[..MAX_SEGMENTS];
      }
    }
  }

  lemma {:induction false} FewNamesFit(ws: seq<string>, st: seq<string>)
    requires |ws| + |st| <= MAX_SEGMENTS
    ensures FitsStack(ws, st)
    decreases |ws|
  {
    if ws != [] {
      FewNamesFit(ws[1..], Push(st, ws[0]));
    }
  }

  lemma {:induction false} NamesTakeSpace(ws: seq<string>)
    requires AllNames(ws)
    ensures 2 * |ws| <= Total(ws)
  {
    if ws != [] {
      NamesTakeSpace(ws[1..]);
    }
  }

  /** No path that the kernel's 64-character buffers can hold fills the stack. */
  lemma ShortPathFits(s: string)
    requires |s| <= 2 * MAX_SEGMENTS - 1
    ensures FitsStack(Words(s), [])
  {
    WordsAreNames(s);
    NamesTakeSpace(Words(s));
    WordsTotal(s);
    FewNamesFit(Words(s), []);
  }

  /** The in-place normalisation is the reduction of names exactly when the normal form
      leaves two characters of the buffer free, or is the root. */
  lemma NormalizedIsNorm(s: string, n: nat)
    requires n >= 2 && FitsStack(Words(s), [])
    ensures Normalized(s, n) == Norm(s) <==> |Norm(s)| <= n - 2 || Norm(s) == "/"
  {
    CollapseIsReduce(Words(s), []);
    NormIsNormal(s);
    NormalShape(Norm(s));
  }

  /** In the kernel's buffers: what normalisation leaves of a path that fits has exactly the
      names of the path that survive. */
  lemma NormalizedKeepsSurvivors(s: string, n: nat) returns (idx: seq<nat>)
    requires |s| <= 2 * MAX_SEGMENTS - 1 && n >= 2 && |Norm(s)| <= n - 2
    ensures AreSurvivors(Words(Normalized(s, n)), Words(s), |Words(s)|, idx)
  {
    ShortPathFits(s);
    NormalizedIsNorm(s, n);
    idx := NormKeepsSurvivors(s);
  }

  /** What is lost is the end: normalisation never invents a name, only a trailing slash. */
  lemma NormalizedIsPrefix(s: string, n: nat)
    requires n >= 2 && FitsStack(Words(s), [])
    ensures |Normalized(s, n)| <= n - 1
    ensures Normalized(s, n) <= Norm(s)
         || exists i :: 0 <= i < |Norm(s)| && Normalized(s, n) == Norm(s)[..i] + "/"
  {
    CollapseIsReduce(Words(s), []);
    var r := Norm(s);
    if |r| > n - 2 {
      assert Normalized(s, n) == r[..n - 2] || Normalized(s, n) == r[..n - 2] + "/";
    }
  }

  /** A 63-character path that loses its last character, in the kernel's own buffer size. */
  lemma TruncatedPath()
    ensures var s := "/" + seq(62, _ => 'a');
      && |s| == 63 && Norm(s) == s && Normalized(s, 64) == s[..62]
  {
    var w := seq(62, _ => 'a');
    var s := "/" + w;
    assert IsPlain(w) && Joined([w]) == "/" + w + Joined([]) == s;
    assert IsNormal(s) by {
      assert AllPlain([w]) && s == Render([w]);
    }
    NormOfNormal(s);
    ShortPathFits(s);
    CollapseIsReduce(Words(s), []);
    assert '/' !in s[62..] && s[61] == w[60];
  }

  /** A path whose truncation leaves a trailing slash. */
  lemma TrailingSlash()
    ensures var s := "/" + seq(62, _ => 'a') + "/b";
      Norm(s) == s && Normalized(s, 64) == s[..62] + "/" && !IsNormal(Normalized(s, 64))
  {
    var w := seq(62, _ => 'a');
    var s := "/" + w + "/b";
    assert IsPlain(w) && IsPlain("b");
    assert [w, "b"][1..] == ["b"];
    assert Joined(["b"]) == "/b" + Joined([]) == "/b";
    assert Joined([w, "b"]) == s;
    assert IsNormal(s) by {
      assert AllPlain([w, "b"]) && s == Render([w, "b"]);
    }
    NormOfNormal(s);
    ShortPathFits(s);
    CollapseIsReduce(Words(s), []);
    assert s[61] == w[60] && s[62] == w[61] && s[62..][1] == '/';
    var t := Normalized(s, 64);
    if IsNormal(t) {
      NormalShape(t);
      assert false;
    }
  }

  // ---------------- the buffer ----------------

  /** k_strlen. */
  method Strlen(path: array<char>, ghost s: string) returns (len: nat)
    requires IsString(path[..], s)
    ensures len == |s|
  {
    len := 0;
    assert path[|s|] == path[..][|s|];
    assert forall k :: 0 <= k < |s| ==> path[k] == s[k];
    while path[len] != '\0'
      invariant len <= |s|
      decreases |s| - len
    {
      len := len + 1;
    }
  }

  /** k_memcpy towards the front of the buffer it copies from. */
  method CopyDown(path: array<char>, to: nat, from: nat, n: nat)
    requires to <= from && from + n <= path.Length
    modifies path
    ensures path[to..to + n] == old(path[from..from + n])
    ensures path[..to] == old(path[..to]) && forall k :: to + n <= k < path.Length ==> path[k] == old(path[k])
  {
    for i := 0 to n
      invariant path[to..to + i] == old(path[from..from + i])
      invariant path[..to] == old(path[..to]) && forall k :: to + i <= k < path.Length ==> path[k] == old(path[k])
    {
      path[to + i] := path[from + i];
    }
  }

  /** How many characters the shift moves besides the terminator. */
  function ShiftLength(n: nat, len: nat): nat
    requires n >= 2
  {
    if len + 1 >= n then n - 2 else len
  }

  /** A buffer that holds a text of `len` characters, after the shift that gives the text a
      leading slash. */
  function Shifted(buf: seq<char>, len: nat): (r: seq<char>)
    requires |buf| >= 2 && len < |buf|
    ensures |r| == |buf|
  {
    var l := ShiftLength(|buf|, len);
    "/" + buf[..l + 1] + buf[l + 2..]
  }

  lemma ShiftedText(buf: seq<char>, s: string)
    requires IsString(buf, s) && s != ""
    ensures |s| + 2 <= |buf| ==> IsString(Shifted(buf, |s|), "/" + s)
    ensures |s| + 2 > |buf| ==> Shifted(buf, |s|) == "/" + s
  {
    var l := ShiftLength(|buf|, |s|);
    assert |s| + 2 <= |buf| ==> buf[..l + 1] == s + ['\0'];
  }

  /** The shift keeps a terminator in the buffer exactly when the text leaves room for one
      more character: the source clamps the length but then moves the terminator out. */
  lemma ShiftKeepsString(buf: seq<char>, s: string)
    requires IsString(buf, s) && s != ""
    ensures (exists t :: IsString(Shifted(buf, |s|), t)) <==> |s| + 2 <= |buf|
  {
    ShiftedText(buf, s);
    if |s| + 2 > |buf| {
      forall t ensures !IsString("/" + s, t) {
        assert |t| < |s| + 1 ==> ("/" + s)[|t|] in "/" + s;
      }
    }
  }

  /** A relative path that fills its buffer loses its terminator. */
  lemma LostTerminator()
    ensures IsString("abc\0", "abc") && Shifted("abc\0", 3) == "/abc"
    ensures forall t :: !IsString("/abc", t)
  {
    ShiftedText("abc\0", "abc");
    ShiftKeepsString("abc\0", "abc");
  }

  /** The loop that moves the first `len + 1` characters up by one place. */
  method ShiftUp(path: array<char>, len: nat)
    requires len + 1 < path.Length
    modifies path
    ensures forall k {:trigger path[k]} :: 0 < k <= len + 1 ==> path[k] == old(path[k - 1])
    ensures forall k {:trigger path[k]} :: len + 1 < k < path.Length ==> path[k] == old(path[k])
  {
    var i: nat := len + 1;
    while i > 0
      invariant i <= len + 1
      invariant forall k {:trigger path[k]} :: 0 <= k <= i || len + 1 < k < path.Length ==> path[k] == old(path[k])
      invariant forall k {:trigger path[k]} :: i < k <= len + 1 ==> path[k] == old(path[k - 1])
    {
      path[i] := path[i - 1];
      i := i - 1;
    }
  }

  /** The shift that gives a relative path its leading slash.  `ended` tells whether the
      buffer still has a terminator. */
  method PrependSlash(path: array<char>, ghost s: string) returns (ended: bool)
    requires IsString(path[..], s) && s != ""
    modifies path
    ensures path[..] == Shifted(old(path[..]), |s|) && ended == (|s| + 2 <= path.Length)
    ensures ended <==> exists t :: IsString(path[..], t)
    ensures ended ==> IsString(path[..], "/" + s)
  {
    var len := Strlen(path, s);
    ended := len + 1 < path.Length;
    if len + 1 >= path.Length {
      len := path.Length - 2;
    }
    ShiftUp(path, len);
    path[0] := '/';
    ShiftedText(old(path[..]), s);
    ShiftKeepsString(old(path[..]), s);
  }

  // ---------------- scanning ----------------

  ghost function Text(t: string, g: Segment): string
    requires g.End() <= |t|
  {
    t[g.start..g.End()]
  }

  method SkipSlashes(path: array<char>, len: nat, from: nat) returns (i: nat)
    requires from <= len <= path.Length
    ensures from <= i <= len && (i < len ==> path[i] != '/')
    ensures from < len && path[from] == '/' ==> from < i
    ensures Words(path[..len][i..]) == Words(path[..len][from..])
  {
    i := from;
    while i < len && path[i] == '/'
      invariant from <= i <= len && Words(path[..len][i..]) == Words(path[..len][from..])
    {
      assert path[..len][i..][1..] == path[..len][i + 1..];
      i := i + 1;
    }
  }

  method SkipName(path: array<char>, len: nat, from: nat) returns (i: nat)
    requires from < len <= path.Length && path[from] != '/'
    ensures from < i <= len && (i < len ==> path[i] == '/')
    ensures '/' !in path[..len][from..i]
    ensures Words(path[..len][from..]) == [path[..len][from..i]] + Words(path[..len][i..])
  {
    i := from;
    while i < len && path[i] != '/'
      invariant from <= i <= len && '/' !in path[..len][from..i]
      invariant i == from ==> path[i] != '/'
    {
      assert path[..len][from..i + 1] == path[..len][from..i] + [path[i]];
      i := i + 1;
    }
    ghost var rest := path[..len][from..];
    assert rest[..i - from] == path[..len][from..i] && rest[i - from..] == path[..len][i..];
    FirstWord(rest, i - from);
  }

  /** The first `count` entries of `segs` are the names `st`, before place `end` of `t`. */
  ghost predicate Stacked(segs: array<Segment>, count: nat, t: string, st: seq<string>, end: nat)
    reads segs
  {
    && segs.Length == MAX_SEGMENTS && count == |st| <= MAX_SEGMENTS && end <= |t|
    && (forall k {:trigger segs[k]} :: 0 <= k < count ==> segs[k].len > 0 && 0 < segs[k].start && segs[k].End() <= end)
    && (forall k {:trigger st[k]} :: 0 <= k < count ==> st[k] == Text(t, segs[k]))
    && (forall j, k {:trigger segs[j], segs[k]} :: 0 <= j < k < count ==> segs[j].End() < segs[k].start)
  }

  lemma StackedLater(segs: array<Segment>, count: nat, t: string, st: seq<string>, end: nat, later: nat)
    requires Stacked(segs, count, t, st, end) && end <= later <= |t|
    ensures Stacked(segs, count, t, st, later)
  {
  }

  /** What the loop does with one name. */
  method TakeName(path: array<char>, len: nat, segs: array<Segment>, count: nat, start: nat, stop: nat, ghost st: seq<string>, ghost end: nat)
    returns (newCount: nat)
    requires len <= path.Length && Stacked(segs, count, path[..len], st, end)
    requires end < start < stop <= len
    modifies segs
    ensures Stacked(segs, newCount, path[..len], PushLimited(st, path[..len][start..stop]), stop)
  {
    ghost var t := path[..len];
    ghost var w := t[start..stop];
    var compLen := stop - start;
    assert w == Text(t, Segment(start, compLen));
    assert |w| == compLen && w[0] == path[start] && (compLen > 1 ==> w[1] == path[start + 1]);
    if compLen == 1 && path[start] == '.' {
      assert w == ".";
      return count;
    }
    if compLen == 2 && path[start] == '.' && path[start + 1] == '.' {
      assert w == "..";
      return if count > 0 then count - 1 else count;
    }
    if count < MAX_SEGMENTS {
      PushSegment(segs, count, Segment(start, compLen), t, st, end);
      return count + 1;
    }
    return count;
  }

  method PushSegment(segs: array<Segment>, count: nat, g: Segment, ghost t: string, ghost st: seq<string>, ghost end: nat)
    requires Stacked(segs, count, t, st, end) && count < MAX_SEGMENTS
    requires end < g.start && g.len > 0 && g.End() <= |t|
    modifies segs
    ensures Stacked(segs, count + 1, t, st + [Text(t, g)], g.End())
  {
    segs[count] := g;
  }

  /** The names that stay, and where they are in the buffer. */
  method Scan(path: array<char>, len: nat) returns (segs: array<Segment>, count: nat)
    requires len <= path.Length && (len > 0 ==> path[0] == '/')
    ensures fresh(segs) && Stacked(segs, count, path[..len], Collapse(Words(path[..len]), []), len)
  {
    ghost var t := path[..len];
    segs, count := new Segment[MAX_SEGMENTS](_ => Segment(0, 0)), 0;
    var i := 0;
    ghost var st, ws := [], Words(t);
    assert t[0..] == t;
    while i < len
      invariant i <= len && (i < len ==> path[i] == '/')
      invariant Stacked(segs, count, t, st, i)
      invariant ws == Words(t[i..]) && Collapse(ws, st) == Collapse(Words(t), [])
      decreases len - i
    {
      i, count, st := ScanTurn(path, len, segs, count, i, st);
      ws := Words(t[i..]);
    }
    assert t[len..] == "";
  }

  /** One turn of the loop: over the slashes, and over a name if there is one. */
  method ScanTurn(path: array<char>, len: nat, segs: array<Segment>, count: nat, from: nat, ghost st: seq<string>)
    returns (i: nat, newCount: nat, ghost newSt: seq<string>)
    requires from < len <= path.Length && path[from] == '/' && Stacked(segs, count, path[..len], st, from)
    modifies segs
    ensures from < i <= len && (i < len ==> path[i] == '/')
    ensures Stacked(segs, newCount, path[..len], newSt, i)
    ensures Collapse(Words(path[..len][i..]), newSt) == Collapse(Words(path[..len][from..]), st)
  {
    ghost var t := path[..len];
    var start := SkipSlashes(path, len, from);
    if start == len {
      StackedLater(segs, count, t, st, from, start);
      return start, count, st;
    }
    i := SkipName(path, len, start);
    ghost var w := t[start..i];
    CollapseStep(w, Words(t[i..]), st);
    newCount := TakeName(path, len, segs, count, start, i, st, from);
    newSt := PushLimited(st, w);
  }

  lemma CollapseStep(w: string, ws: seq<string>, st: seq<string>)
    ensures Collapse([w] + ws, st) == Collapse(ws, PushLimited(st, w))
  {
    assert ([w] + ws)[1..] == ws;
  }

  // ---------------- rebuilding ----------------

  lemma SplitAt(st: seq<string>, s: nat)
    requires s < |st|
    ensures st == (st[..s] + [st[s]]) + st[s + 1..] && st[..s + 1] == st[..s] + [st[s]]
  {
  }

  lemma JoinedParts(a: seq<string>, w: string, b: seq<string>)
    ensures Joined(a + [w]) == Joined(a) + "/" + w
    ensures Joined((a + [w]) + b) == Joined(a) + "/" + w + Joined(b)
  {
    JoinedAppend(a, w);
    JoinedConcat(a + [w], b);
  }

  lemma JoinedSplit(st: seq<string>, s: nat)
    requires s < |st|
    ensures Joined(st) == Joined(st[..s]) + "/" + st[s] + Joined(st[s + 1..])
    ensures Joined(st[..s + 1]) == Joined(st[..s]) + "/" + st[s]
  {
    SplitAt(st, s);
    JoinedParts(st[..s], st[s], st[s + 1..]);
  }

  /** The loop stops before name `s`: it has no room for any of it. */
  lemma CutBefore(st: seq<string>, s: nat, n: nat)
    requires AllPlain(st) && s < |st| && n >= 2
    requires n - 2 <= |Joined(st[..s])| + 1 <= n - 1
    ensures |Render(st)| > |Joined(st[..s])| + 1
    ensures Cut(Render(st), n) == Render(st)[..|Joined(st[..s])| + 1]
  {
    JoinedSplit(st, s);
    assert IsPlain(st[s]);
    var r, l := Render(st), |Joined(st[..s])|;
    assert r[l] == '/' && r[l + 1] == st[s][0];
  }

  /** The loop writes a part of name `s`. */
  lemma CutInside(st: seq<string>, s: nat, n: nat)
    requires AllPlain(st) && s < |st|
    requires |Joined(st[..s])| + 1 < n - 2 < |Joined(st[..s])| + 1 + |st[s]|
    ensures |Render(st)| > n - 2
    ensures Cut(Render(st), n) == Render(st)[..n - 2] + if s + 1 < |st| then "/" else ""
  {
    JoinedSplit(st, s);
    assert IsPlain(st[s]);
    var r, l, w := Render(st), |Joined(st[..s])| + 1, st[s];
    assert r[n - 2] == w[n - 2 - l] && r[n - 3] == w[n - 3 - l];
    assert r[n - 2..] == w[n - 2 - l..] + Joined(st[s + 1..]);
    if s + 1 < |st| {
      assert Joined(st[s + 1..])[0] == '/';
    }
  }

  ghost predicate Written(path: array<char>, r: string)
    reads path
  {
    |r| <= path.Length && path[..|r|] == r
  }

  /** `w` is in the buffer from `start` on. */
  ghost predicate At(path: array<char>, start: nat, w: string)
    reads path
  {
    start + |w| <= path.Length && forall i {:trigger w[i]} :: 0 <= i < |w| ==> path[start + i] == w[i]
  }

  /** One turn of the loop that rebuilds the path: the segment, shortened or not, behind
      what is written already, and a slash unless it is the last.  There always is room for
      the slash, which makes the source's test for it redundant. */
  method WriteName(path: array<char>, g: Segment, last: bool, pos: nat, ghost out: string, ghost w: string) returns (newPos: nat)
    requires pos <= g.start && pos + g.len + 1 < path.Length && g.len == |w| && At(path, g.start, w)
    requires Written(path, out) && |out| == pos
    modifies path
    ensures newPos == pos + g.len + if last then 0 else 1
    ensures Written(path, out + w + if last then "" else "/")
    ensures forall k :: newPos <= k < path.Length ==> path[k] == old(path[k])
  {
    assert path[g.start..g.End()] == w;
    CopyDown(path, pos, g.start, g.len);
    newPos := pos + g.len;
    assert path[..newPos] == path[..pos] + path[pos..newPos];
    if !last {
      path[newPos] := '/';
      newPos := newPos + 1;
      assert path[..newPos] == path[..newPos - 1] + ['/'];
    }
  }

  /** The text of the first `s` of the names, and the slash before the next one. */
  ghost function Before(st: seq<string>, s: nat): string
    requires s <= |st|
  {
    Joined(st[..s]) + if s < |st| then "/" else ""
  }

  lemma BeforeNext(st: seq<string>, s: nat)
    requires s < |st|
    ensures Before(st, s + 1) == Before(st, s) + st[s] + if s + 1 == |st| then "" else "/"
    ensures Before(st, |st|) == Joined(st)
    ensures |Before(st, s + 1)| <= |Render(st)|
  {
    JoinedSplit(st, s);
    assert st[..|st|] == st;
    assert s + 1 < |st| ==> IsAbsolute(Joined(st[s + 1..]));
  }

  /** The loop writes a part of name `s`. */
  lemma PartWritten(st: seq<string>, s: nat, n: nat, kept: nat)
    requires AllPlain(st) && s < |st| && 0 < kept < |st[s]| && |Before(st, s)| + kept == n - 2
    ensures Cut(Render(st), n) == Before(st, s) + st[s][..kept] + if s + 1 == |st| then "" else "/"
    ensures s + 1 < |st| ==> |Cut(Render(st), n)| == n - 1
  {
    JoinedSplit(st, s);
    CutInside(st, s, n);
    assert Render(st)[..n - 2] == Before(st, s) + st[s][..kept];
  }

  /** The loop stops before name `s`. */
  lemma NoRoomLeft(st: seq<string>, s: nat, n: nat, cut: bool, pos: nat)
    requires AllPlain(st) && s < |st| && n >= 2 && n - 2 <= pos <= n - 1
    requires !cut ==> pos == |Before(st, s)|
    ensures !cut ==> Cut(Render(st), n) == Before(st, s)
  {
    if !cut {
      JoinedSplit(st, s);
      CutBefore(st, s, n);
      assert Render(st)[..pos] == Before(st, s);
    }
  }

  /** What the rebuilding loop has done when it is at name `s`: written all names before
      it, or lost the end of the path and stopped writing. */
  ghost predicate Rebuilding(path: array<char>, st: seq<string>, s: nat, pos: nat, cut: bool)
    requires path.Length >= 2 && s <= |st|
    reads path
  {
    var n := path.Length;
    if cut then
      pos == |Cut(Render(st), n)| < n && Written(path, Cut(Render(st), n)) && (s < |st| ==> pos == n - 1)
    else
      pos == |Before(st, s)| < n && Written(path, Before(st, s)) && |Joined(st[..s])| <= n - 2
  }

  /** The names from `s` on are still in the buffer, behind the writing position. */
  ghost predicate Unread(path: array<char>, sg: seq<Segment>, st: seq<string>, s: nat, pos: nat)
    requires |sg| == |st|
    reads path
  {
    && (forall k {:trigger sg[k]} :: s <= k < |sg| ==> pos <= sg[k].start && sg[k].len == |st[k]|)
    && (forall j, k :: s <= j < k < |sg| ==> sg[j].End() < sg[k].start)
    && (forall k {:trigger st[k]} :: s <= k < |sg| ==> At(path, sg[k].start, st[k]))
  }

  /** The shortened segment `g` of the name that does not fit. */
  method WriteLastPart(path: array<char>, g: Segment, last: bool, pos: nat, ghost st: seq<string>, ghost s: nat) returns (newPos: nat)
    requires path.Length >= 2 && AllPlain(st) && s < |st| && last == (s + 1 == |st|)
    requires Rebuilding(path, st, s, pos, false)
    requires pos <= g.start && 0 < g.len < |st[s]| && pos + g.len == path.Length - 2
    requires At(path, g.start, st[s])
    modifies path
    ensures Rebuilding(path, st, s + 1, newPos, true)
  {
    PartWritten(st, s, path.Length, g.len);
    newPos := WriteName(path, g, last, pos, Before(st, s), st[s][..g.len]);
  }

  /** A segment that fits. */
  method WriteWhole(path: array<char>, g: Segment, last: bool, pos: nat, ghost st: seq<string>, ghost s: nat, ghost sg: seq<Segment>)
    returns (newPos: nat)
    requires path.Length >= 2 && s < |st| == |sg| && last == (s + 1 == |st|) && g == sg[s]
    requires Rebuilding(path, st, s, pos, false) && Unread(path, sg, st, s, pos)
    requires pos + g.len + 1 < path.Length
    modifies path
    ensures Rebuilding(path, st, s + 1, newPos, false) && Unread(path, sg, st, s + 1, newPos)
  {
    JoinedSplit(st, s);
    BeforeNext(st, s);
    newPos := WriteName(path, g, last, pos, Before(st, s), st[s]);
    forall k | s < k < |sg| ensures At(path, sg[k].start, st[k]) && newPos <= sg[k].start {
      assert g.End() < sg[k].start && old(At(path, sg[k].start, st[k]));
    }
  }

  /** The loop that rebuilds the path from its names. */
  method Rebuild(path: array<char>, segs: array<Segment>, count: nat, ghost st: seq<string>) returns (pos: nat)
    requires path.Length >= 2 && path[0] == '/'
    requires segs.Length == MAX_SEGMENTS && 0 < count <= MAX_SEGMENTS && |st| == count
    requires Unread(path, segs[..count], st, 0, 1) && AllPlain(st)
    modifies path, segs
    ensures Rebuilding(path, st, count, pos, true)
  {
    var n := path.Length;
    ghost var sg := segs[..count];
    pos := 1;
    ghost var cut := false;
    assert Before(st, 0) == "/" && path[..1] == "/";
    var s := 0;
    while s < count
      invariant s <= count && Rebuilding(path, st, s, pos, cut)
      invariant forall k :: s <= k < count ==> segs[k] == sg[k]
      invariant !cut ==> Unread(path, sg, st, s, pos)
    {
      assert segs[s] == sg[s] && (!cut ==> |st[s]| == segs[s].len);
      if pos + segs[s].len + 1 >= n {
        var allowed := n - pos - 2;
        if allowed <= 0 {
          NoRoomLeft(st, s, n, cut, pos);
          cut := true;
          break;
        }
        segs[s] := segs[s].(len := allowed);
        pos := WriteLastPart(path, segs[s], s == count - 1, pos, st, s);
        cut := true;
      } else {
        pos := WriteWhole(path, segs[s], s == count - 1, pos, st, s, sg);
      }
      s := s + 1;
    }
    BeforeNext(st, count - 1);
  }

  // ---------------- normalisation ----------------

  ghost predicate NulFree(ws: seq<string>) {
    forall i :: 0 <= i < |ws| ==> '\0' !in ws[i]
  }

  lemma {:induction false} WordsNulFree(s: string)
    requires '\0' !in s
    ensures NulFree(Words(s))
    decreases |s|
  {
    if s != "" {
      WordsNulFree(if s[0] == '/' then s[1..] else s[WordLen(s)..]);
    }
  }

  lemma {:induction false} CollapseKeeps(ws: seq<string>, st: seq<string>)
    requires NulFree(ws) && NulFree(st) && AllNames(ws) && AllPlain(st)
    ensures NulFree(Collapse(ws, st)) && AllPlain(Collapse(ws, st))
    decreases |ws|
  {
    if ws != [] {
      CollapseKeeps(ws[1..], PushLimited(st, ws[0]));
    }
  }

  lemma {:induction false} JoinedNulFree(st: seq<string>)
    requires NulFree(st)
    ensures '\0' !in Joined(st)
  {
    if st != [] {
      JoinedNulFree(st[1..]);
    }
  }

  /** The names that stay are plain, and the text made of them is a string. */
  lemma CollapsedOk(s: string, n: nat)
    requires '\0' !in s && n >= 2
    ensures AllPlain(Collapse(Words(s), [])) && '\0' !in Normalized(s, n)
  {
    WordsAreNames(s);
    WordsNulFree(s);
    CollapseKeeps(Words(s), []);
    JoinedNulFree(Collapse(Words(s), []));
  }

  /** Nothing has been written yet. */
  lemma AllUnread(path: array<char>, len: nat, segs: array<Segment>, count: nat, st: seq<string>)
    requires len <= path.Length && Stacked(segs, count, path[..len], st, len)
    ensures Unread(path, segs[..count], st, 0, 1)
  {
    forall k | 0 <= k < count ensures At(path, segs[k].start, st[k]) && segs[k].len == |st[k]| {
      assert st[k] == path[..len][segs[k].start..segs[k].End()];
    }
  }

  method Terminate(path: array<char>, pos: nat, ghost r: string)
    requires pos == |r| < path.Length && Written(path, r) && '\0' !in r
    modifies path
    ensures IsString(path[..], r)
  {
    path[pos] := '\0';
    assert path[..][..pos] == path[..pos] == r && path[..][pos] == path[pos];
  }

  /** The part of vfs_normalize_path after the scan. */
  method WriteBack(path: array<char>, segs: array<Segment>, count: nat, ghost st: seq<string>)
    requires path.Length >= 2 && path[0] == '/'
    requires segs.Length == MAX_SEGMENTS && |st| == count <= MAX_SEGMENTS
    requires Unread(path, segs[..count], st, 0, 1) && AllPlain(st) && '\0' !in Cut(Render(st), path.Length)
    modifies path, segs
    ensures IsString(path[..], Cut(Render(st), path.Length))
  {
    if count == 0 {
      path[0] := '/';
      assert path[..1] == "/" == Cut(Render(st), path.Length);
      Terminate(path, 1, "/");
    } else {
      var pos := Rebuild(path, segs, count, st);
      Terminate(path, pos, Cut(Render(st), path.Length));
    }
  }

  /** vfs_normalize_path of a path that starts with a slash. */
  method NormalizeAbsolute(path: array<char>, ghost s: string)
    requires path.Length >= 2 && IsString(path[..], s) && IsAbsolute(s)
    modifies path
    ensures IsString(path[..], Normalized(s, path.Length))
  {
    var len := Strlen(path, s);
    assert path[..len] == s && path[0] == s[0];
    var segs, count := Scan(path, len);
    ghost var st := Collapse(Words(s), []);
    CollapsedOk(s, path.Length);
    AllUnread(path, len, segs, count, st);
    WriteBack(path, segs, count, st);
  }

  /** The paths that vfs_normalize_path handles within a buffer of `n` characters. */
  predicate StaysInside(s: string, n: nat) {
    s == "" || IsAbsolute(s) || |s| + 2 <= n
  }

  /** vfs_normalize_path.  `ended` is false when the shift has lost the terminator: the
      k_strlen that follows then reads on behind the buffer, and the model stops there. */
  method Normalize(path: array<char>, ghost s: string) returns (ended: bool)
    requires path.Length > 0 ==> IsString(path[..], s)
    modifies path
    ensures path.Length > 0 ==> ended == StaysInside(s, path.Length)
    ensures path.Length == 1 ==> path[0] == '/'
    ensures path.Length >= 2 && ended ==> IsString(path[..], Normalized(s, path.Length))
    ensures path.Length >= 2 && !ended ==> path[..] == "/" + s && forall t :: !IsString(path[..], t)
  {
    if path.Length == 0 {
      return true;
    }
    assert path[0] == path[..][0] && (s != "" ==> path[0] == path[..|s|][0]);
    if path[0] == '\0' {
      path[0] := '/';
      if path.Length > 1 {
        path[1] := '\0';
        assert path[..1] == "/" == Normalized(s, path.Length);
      }
      return true;
    }
    ended := true;
    if path[0] != '/' {
      ShiftedText(path[..], s);
      ended := PrependSlash(path, s);
      if !ended {
        return;
      }
      assert Words("/" + s) == Words(s) by {
        assert ("/" + s)[1..] == s;
      }
      NormalizeAbsolute(path, "/" + s);
    } else {
      NormalizeAbsolute(path, s);
    }
  }

  /** On every path short enough, absolute, and not too deep, the buffer ends up with the
      normal form, which is no longer than the path and has the names at the places `idx`,
      those that survive. */
  method NormalizeShort(path: array<char>, ghost s: string) returns (ghost idx: seq<nat>)
    requires IsString(path[..], s) && IsAbsolute(s) && |s| + 2 <= path.Length && FitsStack(Words(s), [])
    modifies path
    ensures IsString(path[..], Norm(s)) && |Norm(s)| <= |s| && IsNormal(Norm(s))
    ensures AreSurvivors(Words(Norm(s)), Words(s), |Words(s)|, idx)
  {
    var _ := Normalize(path, s);
    NormLength(s);
    NormalizedIsNorm(s, path.Length);
    NormIsNormal(s);
    idx := NormKeepsSurvivors(s);
  }
}
