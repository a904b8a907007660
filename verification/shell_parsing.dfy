/** How the shell cuts a line into arguments and expands variables in them (bin/sh.c:339-508). */
module ShellParsing {
  import opened PathBuffers
  import opened PathResolution
  import opened ShellVariables

  const LINE_MAX := 128
  const ARG_MAX := 16

  // ---------------- arguments ----------------

  function SkipSpaces(s: string): (r: string)
    ensures |r| <= |s| && (r != "" ==> r[0] != ' ')
  {
    if s == "" || s[0] != ' ' then s else SkipSpaces(s[1..])
  }

  /** One argument from the front of a line, and the rest of the line; `q` says whether the
      front is inside quotes. */
  function OneArg(s: string, q: bool): (r: (string, string))
    ensures |r.0| + |r.1| <= |s| && (r.1 != "" ==> r.1[0] == ' ')
    ensures s != "" && (q || s[0] != ' ') ==> |r.1| < |s|
  {
    if s == "" then ("", "")
    else if s[0] == '"' then OneArg(s[1..], !q)
    else if !q && s[0] == ' ' then ("", s)
    else var (a, rest) := OneArg(s[1..], q); ([s[0]] + a, rest)
  }

  /** The first arguments of a line, at most `max` of them. */
  function Args(s: string, max: nat): (r: seq<string>)
    ensures |r| <= max
    decreases max
  {
    var t := SkipSpaces(s);
    if max == 0 || t == "" then [] else [OneArg(t, false).0] + Args(OneArg(t, false).1, max - 1)
  }

  function Quote(a: string): string {
    "\"" + a + "\""
  }

  /** The arguments in quotes, with a space between any two. */
  function QuotedLine(args: seq<string>): string {
    if args == [] then ""
    else if |args| == 1 then Quote(args[0])
    else Quote(args[0]) + " " + QuotedLine(args[1..])
  }

  lemma {:induction false} InsideQuotes(a: string, rest: string)
    requires '"' !in a && (rest != "" ==> rest[0] == ' ')
    ensures OneArg(a + "\"" + rest, true) == (a, rest)
  {
    var s := a + "\"" + rest;
    if a == "" {
      assert s[1..] == rest;
    } else {
      InsideQuotes(a[1..], rest);
      assert s[1..] == a[1..] + "\"" + rest;
      assert s[0] == a[0] != '"' && a == [a[0]] + a[1..];
    }
  }

  lemma QuotedArg(a: string, rest: string)
    requires '"' !in a && (rest != "" ==> rest[0] == ' ')
    ensures OneArg(Quote(a) + rest, false) == (a, rest)
  {
    InsideQuotes(a, rest);
    assert (Quote(a) + rest)[1..] == a + "\"" + rest;
  }

  /** Quoting round trip: arguments without quotes, empty ones and ones with spaces among
      them, come back from the line that quotes them. */
  lemma {:induction false} QuotingRoundTrip(args: seq<string>, max: nat)
    requires |args| <= max && forall i :: 0 <= i < |args| ==> '"' !in args[i]
    ensures Args(QuotedLine(args), max) == args
    decreases max
  {
    if args != [] {
      var line, rest := QuotedLine(args), if |args| == 1 then "" else " " + QuotedLine(args[1..]);
      assert line == Quote(args[0]) + rest;
      QuotedArg(args[0], rest);
      QuotingRoundTrip(args[1..], max - 1);
      if |args| > 1 {
        assert rest[1..] == QuotedLine(args[1..]);
        assert SkipSpaces(rest) == SkipSpaces(rest[1..]);
        assert Args(rest, max - 1) == Args(rest[1..], max - 1);
      }
    }
  }

  // ---------------- arguments of any form ----------------

  /** A part of an argument as it is written: bare characters, or characters in quotes. */
  datatype Chunk = Bare(text: string) | Quoted(text: string)

  predicate ChunkOk(c: Chunk) {
    '"' !in c.text && (c.Bare? ==> ' ' !in c.text)
  }

  ghost predicate ArgOk(arg: seq<Chunk>) {
    WrittenArg(arg) != "" && forall i :: 0 <= i < |arg| ==> ChunkOk(arg[i])
  }

  function WrittenChunk(c: Chunk): string {
    if c.Bare? then c.text else Quote(c.text)
  }

  function WrittenArg(arg: seq<Chunk>): string {
    if arg == [] then ""
    else WrittenChunk(arg[0]) + WrittenArg(arg[1..])
  }

  /** What an argument is: the texts of its chunks. */
  function ArgText(arg: seq<Chunk>): string {
    if arg == [] then "" else arg[0].text + ArgText(arg[1..])
  }

  function Spaces(n: nat): (r: string)
    ensures |r| == n && forall i :: 0 <= i < n ==> r[i] == ' '
  {
    seq(n, _ => ' ')
  }

  /** A line of arguments: `gaps[i]` spaces before argument `i`, and some at the end. */
  function WrittenLine(args: seq<seq<Chunk>>, gaps: seq<nat>, end: nat): string
    requires |gaps| == |args|
  {
    if args == [] then Spaces(end) else Spaces(gaps[0]) + WrittenArg(args[0]) + WrittenLine(args[1..], gaps[1..], end)
  }

  lemma {:induction false} SpacesSkipped(n: nat, s: string)
    requires s == "" || s[0] != ' '
    ensures SkipSpaces(Spaces(n) + s) == s
  {
    if n == 0 {
      assert Spaces(0) + s == s;
    } else {
      SpacesSkipped(n - 1, s);
      assert (Spaces(n) + s)[1..] == Spaces(n - 1) + s;
    }
  }

  /** One character in front of a rest. */
  lemma OneArgStep(c: char, rest: string, q: bool)
    ensures c == '"' ==> OneArg([c] + rest, q) == OneArg(rest, !q)
    ensures c != '"' && (q || c != ' ') ==> OneArg([c] + rest, q) == ([c] + OneArg(rest, q).0, OneArg(rest, q).1)
  {
    assert ([c] + rest)[1..] == rest;
  }

  /** Characters that are no quotes, and no spaces outside of quotes, are taken over. */
  lemma {:induction false} TextCollected(t: string, rest: string, q: bool)
    requires '"' !in t && (q || ' ' !in t)
    ensures OneArg(t + rest, q) == (t + OneArg(rest, q).0, OneArg(rest, q).1)
  {
    if t == "" {
      assert t + rest == rest && t + OneArg(rest, q).0 == OneArg(rest, q).0;
    } else {
      assert t[0] in t;
      TextCollected(t[1..], rest, q);
      OneArgStep(t[0], t[1..] + rest, q);
      assert t + rest == [t[0]] + (t[1..] + rest);
      assert t + OneArg(rest, q).0 == [t[0]] + (t[1..] + OneArg(rest, q).0);
    }
  }

  lemma ChunkCollected(c: Chunk, rest: string)
    requires ChunkOk(c)
    ensures OneArg(WrittenChunk(c) + rest, false) == (c.text + OneArg(rest, false).0, OneArg(rest, false).1)
  {
    if c.Bare? {
      TextCollected(c.text, rest, false);
    } else {
      var tail := "\"" + rest;
      OneArgStep('"', rest, true);
      TextCollected(c.text, tail, true);
      OneArgStep('"', c.text + tail, false);
      assert WrittenChunk(c) + rest == ['"'] + (c.text + tail);
    }
  }

  lemma {:induction false} ArgCollected(arg: seq<Chunk>, rest: string)
    requires (forall i :: 0 <= i < |arg| ==> ChunkOk(arg[i])) && (rest != "" ==> rest[0] == ' ')
    ensures OneArg(WrittenArg(arg) + rest, false) == (ArgText(arg), rest)
  {
    if arg == [] {
      assert WrittenArg(arg) + rest == rest;
    } else {
      ArgCollected(arg[1..], rest);
      ChunkCollected(arg[0], WrittenArg(arg[1..]) + rest);
      assert WrittenArg(arg) + rest == WrittenChunk(arg[0]) + (WrittenArg(arg[1..]) + rest);
    }
  }

  /** An argument starts with no space. */
  lemma {:induction false} ArgStarts(arg: seq<Chunk>)
    requires ArgOk(arg)
    ensures WrittenArg(arg)[0] != ' '
  {
    assert ChunkOk(arg[0]);
    if arg[0] == Bare("") {
      assert WrittenArg(arg) == WrittenArg(arg[1..]);
      ArgStarts(arg[1..]);
    } else if arg[0].Bare? {
      assert arg[0].text[0] in arg[0].text;
    }
  }

  /** The first argument of a line. */
  lemma FirstArg(gap: nat, arg: seq<Chunk>, rest: string, max: nat)
    requires ArgOk(arg) && (rest != "" ==> rest[0] == ' ') && max > 0
    ensures Args(Spaces(gap) + (WrittenArg(arg) + rest), max) == [ArgText(arg)] + Args(rest, max - 1)
  {
    ArgStarts(arg);
    SpacesSkipped(gap, WrittenArg(arg) + rest);
    ArgCollected(arg, rest);
  }

  /** The first `max` of the arguments. */
  function FirstTexts(args: seq<seq<Chunk>>, max: nat): seq<string>
    decreases max
  {
    if args == [] || max == 0 then [] else [ArgText(args[0])] + FirstTexts(args[1..], max - 1)
  }

  lemma {:induction false} FirstTextsAre(args: seq<seq<Chunk>>, max: nat)
    ensures |FirstTexts(args, max)| == if |args| <= max then |args| else max
    ensures forall i :: 0 <= i < |FirstTexts(args, max)| ==> FirstTexts(args, max)[i] == ArgText(args[i])
    decreases max
  {
    if args != [] && max > 0 {
      FirstTextsAre(args[1..], max - 1);
    }
  }

  lemma {:induction false} LineParsesFirst(args: seq<seq<Chunk>>, gaps: seq<nat>, end: nat, max: nat)
    requires |gaps| == |args| && forall i :: 0 <= i < |args| ==> ArgOk(args[i])
    requires forall i :: 0 < i < |gaps| ==> gaps[i] > 0
    ensures Args(WrittenLine(args, gaps, end), max) == FirstTexts(args, max)
    decreases max
  {
    var line := WrittenLine(args, gaps, end);
    if args == [] {
      SpacesSkipped(end, "");
      assert Spaces(end) + "" == line;
    } else if max > 0 {
      var rest := WrittenLine(args[1..], gaps[1..], end);
      assert line == Spaces(gaps[0]) + (WrittenArg(args[0]) + rest);
      RestStartsWithSpace(args[1..], gaps[1..], end);
      FirstArg(gaps[0], args[0], rest, max);
      LineParsesFirst(args[1..], gaps[1..], end, max - 1);
    }
  }

  /** Parsing of a line of any form: arguments of bare and quoted parts, with spaces between
      them and any number of spaces around, come out as their texts, one by one and in order,
      up to the maximal number. */
  lemma LineParses(args: seq<seq<Chunk>>, gaps: seq<nat>, end: nat, max: nat)
    requires |gaps| == |args| && forall i :: 0 <= i < |args| ==> ArgOk(args[i])
    requires forall i :: 0 < i < |gaps| ==> gaps[i] > 0
    ensures var r := Args(WrittenLine(args, gaps, end), max);
      |r| == (if |args| <= max then |args| else max) && forall i :: 0 <= i < |r| ==> r[i] == ArgText(args[i])
  {
    LineParsesFirst(args, gaps, end, max);
    FirstTextsAre(args, max);
  }

  lemma RestStartsWithSpace(args: seq<seq<Chunk>>, gaps: seq<nat>, end: nat)
    requires |gaps| == |args| && (args != [] ==> gaps[0] > 0)
    ensures var s := WrittenLine(args, gaps, end); s != "" ==> s[0] == ' '
  {
  }

  /** Quotes that are not closed take in the rest of the line. */
  lemma UnclosedQuotes(t: string)
    requires '"' !in t
    ensures OneArg("\"" + t, false) == (t, "")
  {
    OneArgStep('"', t, false);
    TextCollected(t, "", true);
    assert t + "" == t;
  }

  /** What is collected already in front of what the rest of the line gives. */
  function After(out: string, rest: string, q: bool): (string, string) {
    (out + OneArg(rest, q).0, OneArg(rest, q).1)
  }

  /** One character of an argument. */
  lemma CollectStep(out: string, rest: string, q: bool)
    ensures rest == "" || (!q && rest[0] == ' ') ==> After(out, rest, q) == (out, rest)
    ensures rest != "" && rest[0] == '"' ==> After(out, rest, q) == After(out, rest[1..], !q)
    ensures rest != "" && rest[0] != '"' && (q || rest[0] != ' ') ==> After(out, rest, q) == After(out + [rest[0]], rest[1..], q)
  {
    assert out + "" == out;
    if rest != "" {
      var tail := OneArg(rest[1..], q).0;
      assert out + ([rest[0]] + tail) == (out + [rest[0]]) + tail;
    }
  }

  /** The loop that collects one argument. */
  method CollectArg(line: array<char>, from: nat, buf: array<char>, ghost s: string) returns (i: nat)
    requires line != buf && buf.Length == LINE_MAX && IsString(line[..], s) && |s| < LINE_MAX && from <= |s|
    modifies buf
    ensures from <= i <= |s| && s[i..] == OneArg(s[from..], false).1
    ensures IsString(buf[..], OneArg(s[from..], false).0)
  {
    assert line[..][..|s|] == s && line[..][|s|] == '\0';
    assert forall k :: 0 <= k < |s| ==> line[k] == s[k] && s[k] != '\0';
    i := from;
    var dst := 0;
    var inQuotes := false;
    ghost var all, out, rest := OneArg(s[from..], false), "", s[from..];
    assert out + all.0 == all.0;
    while line[i] != '\0'
      invariant from <= i <= |s| && dst == |out| <= i - from
      invariant '\0' !in out && buf[..dst] == out && rest == s[i..]
      invariant After(out, rest, inQuotes) == all
      decreases |s| - i
    {
      CollectStep(out, rest, inQuotes);
      if line[i] == '"' {
        inQuotes := !inQuotes;
        i, rest := i + 1, rest[1..];
        continue;
      }
      if !inQuotes && line[i] == ' ' {
        break;
      }
      buf[dst] := line[i];
      out := out + [line[i]];
      dst := dst + 1;
      i, rest := i + 1, rest[1..];
    }
    CollectStep(out, rest, inQuotes);
    buf[dst] := '\0';
    assert buf[..dst] == out;
  }

  /** The buffers that have been filled hold the arguments `args`. */
  ghost predicate Holds(argBuf: seq<array<char>>, args: seq<string>)
    requires |args| <= |argBuf|
    reads argBuf
  {
    forall k {:trigger args[k]} :: 0 <= k < |args| ==> IsString(argBuf[k][..], args[k])
  }

  /** The arguments of a line, seen from behind the first of them. */
  lemma ArgsStep(all: seq<string>, done: seq<string>, rest: string, max: nat)
    requires all == done + Args(rest, max)
    ensures max == 0 || SkipSpaces(rest) == "" ==> all == done
    ensures max > 0 && SkipSpaces(rest) != "" ==>
      var arg := OneArg(SkipSpaces(rest), false);
      all == (done + [arg.0]) + Args(arg.1, max - 1)
  {
  }

  /** One more argument. */
  method NextArg(line: array<char>, from: nat, buf: array<char>, ghost argBuf: seq<array<char>>, ghost done: seq<string>, ghost s: string) returns (i: nat)
    requires IsString(line[..], s) && |s| < LINE_MAX && from <= |s| && |done| < |argBuf| == ARG_MAX
    requires forall k :: 0 <= k < ARG_MAX ==> argBuf[k].Length == LINE_MAX && argBuf[k] != line
    requires forall j, k :: 0 <= j < k < ARG_MAX ==> argBuf[j] != argBuf[k]
    requires Holds(argBuf, done) && buf == argBuf[|done|]
    modifies buf
    ensures from <= i <= |s| && s[i..] == OneArg(s[from..], false).1
    ensures Holds(argBuf, done + [OneArg(s[from..], false).0])
  {
    ghost var argc := |done|;
    i := CollectArg(line, from, buf, s);
    forall k | 0 <= k < argc ensures IsString(argBuf[k][..], done[k]) {
      assert argBuf[k] != argBuf[argc];
      assert old(IsString(argBuf[k][..], done[k]));
    }
  }

  /** parse_arguments, for a line that fits one of the shell's line buffers. */
  method ParseArguments(line: array<char>, argBuf: seq<array<char>>, maxArgs: nat, ghost s: string) returns (argc: nat)
    requires IsString(line[..], s) && |s| < LINE_MAX && maxArgs <= ARG_MAX == |argBuf|
    requires forall k :: 0 <= k < ARG_MAX ==> argBuf[k].Length == LINE_MAX && argBuf[k] != line
    requires forall j, k :: 0 <= j < k < ARG_MAX ==> argBuf[j] != argBuf[k]
    modifies argBuf
    ensures argc == |Args(s, maxArgs)| && Holds(argBuf, Args(s, maxArgs))
  {
    argc := 0;
    var i := 0;
    ghost var all, done, rest := Args(s, maxArgs), [], s;
    assert s[0..] == s;
    CharAt(line, i, s);
    while line[i] != '\0' && argc < maxArgs
      invariant i <= |s| && argc == |done| <= maxArgs && IsString(line[..], s)
      invariant line[i] == '\0' <==> i == |s|
      invariant rest == s[i..] && all == done + Args(rest, maxArgs - argc) && Holds(argBuf, done)
      decreases maxArgs - argc
    {
      ArgsStep(all, done, rest, maxArgs - argc);
      i := SkipBlanks(line, i, s);
      CharAt(line, i, s);
      if line[i] == '\0' {
        break;
      }
      ghost var arg := OneArg(s[i..], false);
      i := NextArg(line, i, argBuf[argc], argBuf, done, s);
      CharAt(line, i, s);
      done, rest := done + [arg.0], arg.1;
      argc := argc + 1;
    }
    ArgsStep(all, done, rest, maxArgs - argc);
  }

  lemma CharAt(line: array<char>, i: nat, s: string)
    requires IsString(line[..], s) && i <= |s|
    ensures i < line.Length && (line[i] == '\0' <==> i == |s|)
  {
    assert line[..][..|s|] == s && line[..][|s|] == '\0';
    assert i < |s| ==> line[i] == s[i];
  }

  method SkipBlanks(line: array<char>, from: nat, ghost s: string) returns (i: nat)
    requires IsString(line[..], s) && from <= |s|
    ensures from <= i <= |s| && s[i..] == SkipSpaces(s[from..])
  {
    assert line[..][..|s|] == s && line[..][|s|] == '\0';
    assert forall k :: 0 <= k < |s| ==> line[k] == s[k];
    i := from;
    while line[i] == ' '
      invariant from <= i <= |s| && SkipSpaces(s[i..]) == SkipSpaces(s[from..])
      decreases |s| - i
    {
      assert s[i..][1..] == s[i + 1..];
      i := i + 1;
    }
  }

  // ---------------- variables in arguments ----------------

  predicate IsNameStart(c: char) {
    'A' <= c <= 'Z' || 'a' <= c <= 'z' || c == '_'
  }

  predicate IsNameChar(c: char) {
    IsNameStart(c) || '0' <= c <= '9'
  }

  /** Names are made of ASCII letters, underscores and, behind the first character, digits. */
  lemma NameCharacters(c: char)
    ensures IsNameStart(c) <==> 65 <= c as int <= 90 || 97 <= c as int <= 122 || c as int == 95
    ensures IsNameChar(c) <==> IsNameStart(c) || 48 <= c as int <= 57
  {
  }

  /** How long the run of name characters at the front is. */
  function NameLen(s: string): (n: nat)
    ensures n <= |s| && (n < |s| ==> !IsNameChar(s[n])) && forall i :: 0 <= i < n ==> IsNameChar(s[i])
  {
    if s == "" || !IsNameChar(s[0]) then 0 else 1 + NameLen(s[1..])
  }

  /** What the special parameters and the variables stand for. */
  datatype Meaning = Meaning(status: string, pid: string, background: string, vars: seq<ShellVar>)

  function ValueOf(m: Meaning, name: string): string {
    var v := Lookup(m.vars, name);
    if v.None? then "" else v.value.0
  }

  /** The expansion of the front of a text, and how much of the text it is for. */
  function Piece(s: string, m: Meaning): (r: (string, nat))
    requires s != ""
    ensures 0 < r.1 <= |s|
  {
    if s[0] != '$' || |s| == 1 then ([s[0]], 1)
    else if s[1] == '?' then (m.status, 2)
    else if s[1] == '$' then (m.pid, 2)
    else if s[1] == '!' then (m.background, 2)
    else if IsNameStart(s[1]) then
      var n := NameLen(s[1..]);
      assert IsNameChar(s[1..][0]);
      (ValueOf(m, First(s[1..1 + n], MAX_VAR_NAME - 1)), 1 + n)
    else ("$", 1)
  }

  /** The whole expansion, however long. */
  function Expand(s: string, m: Meaning): string
    decreases |s|
  {
    if s == "" then "" else Piece(s, m).0 + Expand(s[Piece(s, m).1..], m)
  }

  // ---------------- what an expansion is ----------------

  /** A text with parameters in it, as it is meant. */
  datatype Part = Lit(text: string) | LoneDollar | LastStatus | OwnPid | LastBackground | Var(name: string)

  function WrittenPart(p: Part): string {
    match p
    case Lit(text) => text
    case LoneDollar => "$"
    case LastStatus => "$?"
    case OwnPid => "$$"
    case LastBackground => "$!"
    case Var(name) => "$" + name
  }

  function WrittenParts(ps: seq<Part>): string {
    if ps == [] then "" else WrittenPart(ps[0]) + WrittenParts(ps[1..])
  }

  /** What a part stands for: a variable that is not set for nothing, and a longer name than a
      variable can have for the variable of its first characters. */
  function PartMeaning(p: Part, m: Meaning): string {
    match p
    case Lit(text) => text
    case LoneDollar => "$"
    case LastStatus => m.status
    case OwnPid => m.pid
    case LastBackground => m.background
    case Var(name) =>
      var v := Lookup(m.vars, if |name| < MAX_VAR_NAME then name else name[..MAX_VAR_NAME - 1]);
      if v.None? then "" else v.value.0
  }

  function PartsMeaning(ps: seq<Part>, m: Meaning): string {
    if ps == [] then "" else PartMeaning(ps[0], m) + PartsMeaning(ps[1..], m)
  }

  /** The part may stand in front of `rest` without being read otherwise. */
  predicate PartOk(p: Part, rest: string) {
    match p
    case Lit(text) => '$' !in text
    case LoneDollar => rest == "" || (rest[0] !in {'?', '$', '!'} && !IsNameStart(rest[0]))
    case Var(name) => IsIdentifier(name) && (rest == "" || !IsNameChar(rest[0]))
    case _ => true
  }

  predicate PartsOk(ps: seq<Part>) {
    ps == [] || (PartOk(ps[0], WrittenParts(ps[1..])) && PartsOk(ps[1..]))
  }

  lemma CharExpands(c: char, rest: string, m: Meaning)
    requires c != '$'
    ensures Expand([c] + rest, m) == [c] + Expand(rest, m)
  {
    assert ([c] + rest)[1..] == rest;
  }

  lemma {:induction false} LiteralExpands(t: string, rest: string, m: Meaning)
    requires '$' !in t
    ensures Expand(t + rest, m) == t + Expand(rest, m)
  {
    if t == "" {
      assert t + rest == rest && t + Expand(rest, m) == Expand(rest, m);
    } else {
      assert t[0] in t;
      LiteralExpands(t[1..], rest, m);
      CharExpands(t[0], t[1..] + rest, m);
      assert t + rest == [t[0]] + (t[1..] + rest);
      assert t + Expand(rest, m) == [t[0]] + (t[1..] + Expand(rest, m));
    }
  }

  lemma VariableExpands(name: string, rest: string, m: Meaning)
    requires PartOk(Var(name), rest)
    ensures Expand("$" + name + rest, m) == PartMeaning(Var(name), m) + Expand(rest, m)
  {
    var s := "$" + name + rest;
    var t := name + rest;
    assert s[1..] == t && t[0] == name[0];
    NameLenIs(t, |name|);
    assert s[1..1 + |name|] == name && s[1 + |name|..] == rest;
  }

  lemma PartExpands(p: Part, rest: string, m: Meaning)
    requires PartOk(p, rest)
    ensures Expand(WrittenPart(p) + rest, m) == PartMeaning(p, m) + Expand(rest, m)
  {
    var s := WrittenPart(p) + rest;
    match p
    case Lit(text) => LiteralExpands(text, rest, m);
    case Var(name) => VariableExpands(name, rest, m);
    case LoneDollar => assert s[1..] == rest;
    case _ => assert s[2..] == rest;
  }

  /** Expansion is the meaning, part by part. */
  lemma {:induction false} ExpansionIsMeaning(ps: seq<Part>, m: Meaning)
    requires PartsOk(ps)
    ensures Expand(WrittenParts(ps), m) == PartsMeaning(ps, m)
  {
    if ps != [] {
      PartExpands(ps[0], WrittenParts(ps[1..]), m);
      ExpansionIsMeaning(ps[1..], m);
    }
  }

  /** Every text is made of such parts, so that the law above says what the expansion of any
      text is. */
  lemma {:induction false} EveryTextHasParts(s: string) returns (ps: seq<Part>)
    ensures PartsOk(ps) && WrittenParts(ps) == s
    decreases |s|
  {
    if s == "" {
      ps := [];
    } else {
      var p, n := FirstPart(s);
      var rest := EveryTextHasParts(s[n..]);
      ps := [p] + rest;
      assert ps[1..] == rest && s == s[..n] + s[n..];
    }
  }

  lemma FirstPart(s: string) returns (p: Part, n: nat)
    requires s != ""
    ensures 0 < n <= |s| && WrittenPart(p) == s[..n] && PartOk(p, s[n..])
  {
    if s[0] != '$' {
      p, n := Lit(s[..1]), 1;
    } else if |s| > 1 && s[1] in {'?', '$', '!'} {
      p, n := if s[1] == '?' then LastStatus else if s[1] == '$' then OwnPid else LastBackground, 2;
    } else if |s| > 1 && IsNameStart(s[1]) {
      var t := s[1..];
      var l := NameLen(t);
      assert IsNameChar(t[0]);
      p, n := Var(t[..l]), 1 + l;
      assert s[..n] == "$" + t[..l] && (n < |s| ==> s[n] == t[l]);
    } else {
      p, n := LoneDollar, 1;
    }
  }

  ghost predicate MeaningOk(m: Meaning) {
    && '\0' !in m.status && '\0' !in m.pid && '\0' !in m.background
    && forall i :: 0 <= i < |m.vars| ==> '\0' !in m.vars[i].value
  }

  /** The characters already in the buffer decide the cut expansion, once there are enough. */
  lemma FirstOfMore(out: string, piece: string, rest: string, n: nat)
    ensures First(First(out + piece, n) + rest, n) == First(out + (piece + rest), n)
    ensures |out| <= n ==> First(out, n) == out
    ensures |out| == n ==> First(out + rest, n) == out
  {
    assert out + (piece + rest) == (out + piece) + rest;
  }

  /** The copying loops of expand_variables. */
  method Append(buf: array<char>, dst: nat, text: string, ghost out: string) returns (newDst: nat)
    requires buf.Length == LINE_MAX && dst == |out| < LINE_MAX && buf[..dst] == out
    modifies buf
    ensures newDst == |First(out + text, LINE_MAX - 1)| && buf[..newDst] == First(out + text, LINE_MAX - 1)
  {
    newDst := dst;
    var p := 0;
    while p < |text| && newDst < LINE_MAX - 1
      invariant p <= |text| && newDst == dst + p < LINE_MAX && buf[..newDst] == out + text[..p]
    {
      buf[newDst] := text[p];
      newDst, p := newDst + 1, p + 1;
    }
    assert out + text[..p] == (out + text)[..newDst];
  }

  /** The name after a dollar sign, cut to what a variable's name can be. */
  method ReadName(str: array<char>, from: nat, ghost s: string) returns (name: string, i: nat)
    requires IsString(str[..], s) && from <= |s|
    ensures i == from + NameLen(s[from..]) <= |s| && name == First(s[from..i], MAX_VAR_NAME - 1)
  {
    assert str[..][..|s|] == s && str[..][|s|] == '\0';
    assert forall k :: 0 <= k < |s| ==> str[k] == s[k];
    i, name := from, "";
    while IsNameChar(str[i])
      invariant from <= i <= |s| && forall k :: from <= k < i ==> IsNameChar(s[k])
      invariant |name| == (if i - from < MAX_VAR_NAME then i - from else MAX_VAR_NAME - 1)
      invariant forall k :: 0 <= k < |name| ==> name[k] == s[from + k]
      decreases |s| - i
    {
      if |name| < MAX_VAR_NAME - 1 {
        name := name + [str[i]];
      }
      i := i + 1;
    }
    NameLenIs(s[from..], i - from);
    ghost var cut := First(s[from..i], MAX_VAR_NAME - 1);
    assert |cut| == |name| && forall k :: 0 <= k < |name| ==> cut[k] == s[from + k];
    assert name == cut;
  }

  lemma {:induction false} NameLenIs(s: string, n: nat)
    requires n <= |s| && (n < |s| ==> !IsNameChar(s[n])) && forall i :: 0 <= i < n ==> IsNameChar(s[i])
    ensures NameLen(s) == n
  {
    if n > 0 {
      NameLenIs(s[1..], n - 1);
    }
  }

  /** One turn of the loop: the text for the front of the rest, and where to go on. */
  method NextPiece(shell: Shell, str: array<char>, i: nat, m: Meaning, ghost s: string) returns (text: string, next: nat)
    requires shell.Valid() && m.vars == shell.Vars()
    requires IsString(str[..], s) && i < |s|
    ensures (text, next - i) == Piece(s[i..], m) && i < next <= |s|
  {
    ghost var t := s[i..];
    assert str[..][..|s|] == s && str[..][|s|] == '\0';
    assert str[i] == t[0] && (str[i + 1] == if |t| == 1 then '\0' else t[1]);
    if str[i] != '$' {
      return [str[i]], i + 1;
    }
    if str[i + 1] == '?' {
      return m.status, i + 2;
    } else if str[i + 1] == '$' {
      return m.pid, i + 2;
    } else if str[i + 1] == '!' {
      return m.background, i + 2;
    } else if IsNameStart(str[i + 1]) {
      var name: string;
      name, next := ReadName(str, i + 1, s);
      assert t[1..] == s[i + 1..] && t[1..next - i] == s[i + 1..next];
      var value := shell.GetVariable(name);
      text := if value.Some? then value.value else "";
      assert IsNameChar(t[1..][0]);
      return;
    }
    return [str[i]], i + 1;
  }

  lemma PieceNulFree(s: string, m: Meaning)
    requires MeaningOk(m) && s != "" && '\0' !in s
    ensures '\0' !in Piece(s, m).0
  {
  }

  /** What is in the buffer already is the front of the expansion, and the rest of the text
      gives the rest of it. */
  ghost predicate Expanded(out: string, s: string, src: nat, m: Meaning) {
    && src <= |s| && |out| < LINE_MAX && '\0' !in out
    && First(out + Expand(s[src..], m), LINE_MAX - 1) == First(Expand(s, m), LINE_MAX - 1)
  }

  lemma ExpandedStart(s: string, m: Meaning)
    ensures Expanded("", s, 0, m)
  {
    assert s[0..] == s && "" + Expand(s, m) == Expand(s, m);
  }

  lemma ExpandedNext(out: string, text: string, s: string, src: nat, next: nat, m: Meaning)
    requires Expanded(out, s, src, m) && src < next <= |s| && (text, next - src) == Piece(s[src..], m)
    requires MeaningOk(m) && '\0' !in s
    ensures Expanded(First(out + text, LINE_MAX - 1), s, next, m)
  {
    PieceNulFree(s[src..], m);
    assert s[src..][next - src..] == s[next..];
    FirstOfMore(out, text, Expand(s[next..], m), LINE_MAX - 1);
  }

  lemma ExpandedEnd(out: string, s: string, src: nat, m: Meaning)
    requires Expanded(out, s, src, m) && (src == |s| || |out| == LINE_MAX - 1)
    ensures out == First(Expand(s, m), LINE_MAX - 1)
  {
    FirstOfMore(out, "", Expand(s[src..], m), LINE_MAX - 1);
    assert src == |s| ==> out + Expand(s[src..], m) == out;
  }

  /** The loop of expand_variables. */
  method ExpandInto(shell: Shell, str: array<char>, buf: array<char>, m: Meaning, ghost s: string)
    requires shell.Valid() && m.vars == shell.Vars() && MeaningOk(m)
    requires IsString(str[..], s) && buf != str && buf.Length == LINE_MAX && buf != shell.variables as object
    modifies buf
    ensures IsString(buf[..], First(Expand(s, m), LINE_MAX - 1))
  {
    var src, dst := 0, 0;
    ghost var out := "";
    CharAt(str, src, s);
    ExpandedStart(s, m);
    while str[src] != '\0' && dst < LINE_MAX - 1
      invariant src <= |s| && (str[src] == '\0' <==> src == |s|)
      invariant dst == |out| && Expanded(out, s, src, m) && buf[..dst] == out
      decreases |s| - src
    {
      var text, next := NextPiece(shell, str, src, m, s);
      ExpandedNext(out, text, s, src, next, m);
      CharAt(str, next, s);
      dst := Append(buf, dst, text, out);
      out, src := First(out + text, LINE_MAX - 1), next;
    }
    ExpandedEnd(out, s, src, m);
    buf[dst] := '\0';
    assert buf[..dst] == out;
  }

  /** expand_variables: in place, the first 127 characters of the whole expansion. */
  method ExpandVariables(shell: Shell, str: array<char>, m: Meaning, ghost s: string)
    requires shell.Valid() && m.vars == shell.Vars() && MeaningOk(m)
    requires str.Length == LINE_MAX && IsString(str[..], s) && str != shell.variables as object
    modifies str
    ensures IsString(str[..], First(Expand(s, m), LINE_MAX - 1))
  {
    var buf := new char[LINE_MAX];
    ghost var all := First(Expand(s, m), LINE_MAX - 1);
    ExpandInto(shell, str, buf, m, s);
    CopyText(str, 0, buf, all);
    assert [] + First(all, LINE_MAX - 1) == all;
  }

  // ---------------- assignments ----------------

  predicate IsIdentifier(s: string) {
    s != "" && IsNameStart(s[0]) && forall i :: 0 <= i < |s| ==> IsNameChar(s[i])
  }

  /** parse_assignment: an identifier, an equals sign, and the value. */
  method ParseAssignment(arg: string) returns (r: Option<(string, string)>)
    requires '\0' !in arg
    ensures var i := IndexOf(arg, '=');
      && (r.Some? <==> i < |arg| && IsIdentifier(arg[..i]))
      && (r.Some? ==> r.value == (First(arg[..i], MAX_VAR_NAME - 1), First(arg[i + 1..], MAX_VAR_VALUE - 1)))
  {
    var eq := Shell.Strchr(arg, '=');
    if eq == |arg| || eq == 0 {
      return None;
    }
    for p := 0 to eq
      invariant forall k :: 0 <= k < p ==> IsNameChar(arg[k])
      invariant p > 0 ==> IsNameStart(arg[0])
    {
      if !IsNameChar(arg[p]) {
        assert !IsNameChar(arg[..eq][p]);
        return None;
      }
      if p == 0 && '0' <= arg[p] <= '9' {
        return None;
      }
    }
    return Some((First(arg[..eq], MAX_VAR_NAME - 1), First(arg[eq + 1..], MAX_VAR_VALUE - 1)));
  }

  /** What an assignment sets keeps the table in order. */
  lemma AssignmentKeepsTable(vs: seq<ShellVar>, name: string, value: string, exported: bool)
    requires TableOk(vs) && IsIdentifier(name) && '\0' !in value
    ensures TableOk(Set(vs, First(name, MAX_VAR_NAME - 1), value, exported))
  {
    SetKeepsTable(vs, First(name, MAX_VAR_NAME - 1), value, exported);
  }
}
