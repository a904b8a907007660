/** The text console of arch/x86/console_vga.c: cursor, colours and escape sequences (the
    last ones as in section 8.3.117 of ECMA-48) over an 80 by 25 screen. */
module Consoles {
  import opened Decimals

  const COLS := 80
  const ROWS := 25
  const CELLS := 2000
  const MAX_PARAMS := 8
  const ESC: char := 27 as char
  const BACKSPACE: char := 8 as char
  const TAB_WIDTH := 8

  datatype EscState = NoEsc | GotEsc | InCsi

  /** What a console holds. */
  datatype Screen = Screen(
    video: seq<nat>, row: nat, col: nat, attr: nat, esc: EscState,
    fg: nat, bg: nat, bright: bool, params: seq<nat>, count: nat)

  const DARK: seq<nat> := [0, 4, 2, 6, 1, 5, 3, 7]

  /** ansi_to_vga_color, for the colours that the console can have. */
  function AnsiToVga(ansi: nat, bright: bool): nat
    requires ansi < 8
  {
    DARK[ansi] + if bright then 8 else 0
  }

  function AttrOf(fg: nat, bg: nat, bright: bool): (a: nat)
    requires fg < 8 && bg < 8
    ensures a < 256
  {
    AnsiToVga(bg, false) * 16 + AnsiToVga(fg, bright)
  }

  /** vga_entry: the char is signed, so that one with its top bit set spoils the attribute. */
  function Cell(c: char, attr: nat): (r: nat) {
    var b := c as int % 256;
    if b < 128 then b + 256 * attr else 0xFF00 + b
  }

  function Blanks(n: nat, attr: nat): (r: seq<nat>)
    ensures |r| == n && forall i :: 0 <= i < n ==> r[i] == Cell(' ', attr)
  {
    seq(n, _ => Cell(' ', attr))
  }

  ghost predicate ScreenOk(s: Screen) {
    && |s.video| == CELLS && s.row < ROWS && s.col < COLS && |s.params| == MAX_PARAMS && s.count <= MAX_PARAMS
    && s.fg < 8 && s.bg < 8 && s.attr == AttrOf(s.fg, s.bg, s.bright)
  }

  // ---------------- what one character does ----------------

  function Cleared(s: Screen): Screen {
    s.(video := Blanks(CELLS, s.attr), row := 0, col := 0, esc := NoEsc)
  }

  function Scrolled(s: Screen): Screen
    requires |s.video| == CELLS
  {
    s.(video := s.video[COLS..] + Blanks(COLS, s.attr), row := ROWS - 1, col := 0)
  }

  /** The screen scrolls when the cursor has left it. */
  function Settled(s: Screen): Screen
    requires |s.video| == CELLS
  {
    if s.row >= ROWS then Scrolled(s) else s
  }

  function PutCell(s: Screen, c: char): Screen
    requires |s.video| == CELLS && s.row < ROWS && s.col < COLS
  {
    s.(video := s.video[s.row * COLS + s.col := Cell(c, s.attr)])
  }

  function Printed(s: Screen, c: char): Screen
    requires |s.video| == CELLS && s.row < ROWS && s.col < COLS
  {
    var t := PutCell(s, c);
    if s.col + 1 < COLS then t.(col := s.col + 1) else Settled(t.(col := 0, row := s.row + 1))
  }

  function Erased(s: Screen): Screen
    requires |s.video| == CELLS && s.row < ROWS && s.col < COLS
  {
    if s.col > 0 then PutCell(s.(col := s.col - 1), ' ')
    else if s.row > 0 then PutCell(s.(row := s.row - 1, col := COLS - 1), ' ')
    else s
  }

  function TabStop(col: nat): nat {
    var next := (col + TAB_WIDTH) / TAB_WIDTH * TAB_WIDTH;
    if next >= COLS then COLS - 1 else next
  }

  /** Blanks up to column `next`. */
  function Tabbed(s: Screen, next: nat): Screen
    requires |s.video| == CELLS && s.row < ROWS && next < COLS
    decreases next - s.col
  {
    if s.col >= next then s else Tabbed(PutCell(s, ' ').(col := s.col + 1), next)
  }

  function Normal(s: Screen, c: char): Screen
    requires |s.video| == CELLS && s.row < ROWS && s.col < COLS
  {
    if c == '\n' then Settled(s.(col := 0, row := s.row + 1))
    else if c == '\r' then s.(col := 0)
    else if c == BACKSPACE then Erased(s)
    else if c == '\t' then Tabbed(s, TabStop(s.col))
    else Printed(s, c)
  }

  /** One parameter of a colour sequence. */
  function SgrParam(s: Screen, p: nat): Screen {
    if p == 0 then s.(fg := 7, bg := 0, bright := false)
    else if p == 1 then s.(bright := true)
    else if 30 <= p <= 37 then s.(fg := p - 30)
    else if 40 <= p <= 47 then s.(bg := p - 40)
    else s
  }

  function SgrParams(s: Screen, ps: seq<nat>): (r: Screen)
    requires s.fg < 8 && s.bg < 8
    ensures r.fg < 8 && r.bg < 8
    ensures r == s.(fg := r.fg, bg := r.bg, bright := r.bright)
  {
    if ps == [] then s else SgrParam(SgrParams(s, ps[..|ps| - 1]), ps[|ps| - 1])
  }

  function WithAttr(s: Screen): Screen
    requires s.fg < 8 && s.bg < 8
  {
    s.(attr := AttrOf(s.fg, s.bg, s.bright))
  }

  /** A colour sequence without parameters resets. */
  function Sgr(s: Screen): Screen
    requires s.fg < 8 && s.bg < 8 && s.count <= |s.params|
  {
    WithAttr(if s.count == 0 then SgrParam(s, 0) else SgrParams(s, s.params[..s.count]))
  }

  function AddDigit(s: Screen, d: nat): Screen
    requires |s.params| == MAX_PARAMS && s.count <= MAX_PARAMS
  {
    var n := if s.count == 0 then 1 else s.count;
    s.(count := n, params := s.params[n - 1 := s.params[n - 1] * 10 + d])
  }

  function Csi(s: Screen, c: char): Screen
    requires ScreenOk(s)
  {
    if '0' <= c <= '9' then AddDigit(s, (c - '0') as nat)
    else if c == ';' then s.(count := if s.count < MAX_PARAMS then s.count + 1 else s.count)
    else if c == 'm' then Sgr(s).(esc := NoEsc)
    else if c == 'H' then s.(row := 0, col := 0, esc := NoEsc)
    else if c == 'J' then Cleared(s)
    else if 0x40 <= c as int % 256 <= 0x7E then s.(esc := NoEsc)
    else s
  }

  /** vga_put_char. */
  function Put(s: Screen, c: char): Screen
    requires ScreenOk(s)
  {
    match s.esc
    case NoEsc => if c == ESC then s.(esc := GotEsc) else Normal(s, c)
    case GotEsc => if c == '[' then s.(esc := InCsi, count := 0, params := seq(MAX_PARAMS, _ => 0)) else s.(esc := NoEsc)
    case InCsi => Csi(s, c)
  }

  lemma {:induction false} TabbedOk(s: Screen, next: nat)
    requires ScreenOk(s) && next < COLS
    ensures ScreenOk(Tabbed(s, next)) && Tabbed(s, next).row == s.row
    ensures Tabbed(s, next).col == if s.col >= next then s.col else next
    decreases next - s.col
  {
    if s.col < next {
      TabbedOk(PutCell(s, ' ').(col := s.col + 1), next);
    }
  }

  lemma SettledOk(s: Screen)
    requires ScreenOk(s.(row := 0)) && s.row <= ROWS
    ensures ScreenOk(Settled(s))
  {
  }

  lemma NormalOk(s: Screen, c: char)
    requires ScreenOk(s)
    ensures ScreenOk(Normal(s, c))
  {
    if c == '\n' {
      SettledOk(s.(col := 0, row := s.row + 1));
    } else if c == '\t' {
      TabbedOk(s, TabStop(s.col));
    } else if c != '\r' && c != BACKSPACE && s.col + 1 == COLS {
      SettledOk(PutCell(s, c).(col := 0, row := s.row + 1));
    }
  }

  lemma SgrOk(s: Screen)
    requires ScreenOk(s)
    ensures ScreenOk(Sgr(s)) && Sgr(s) == s.(fg := Sgr(s).fg, bg := Sgr(s).bg, bright := Sgr(s).bright, attr := Sgr(s).attr)
  {
  }

  lemma CsiOk(s: Screen, c: char)
    requires ScreenOk(s)
    ensures ScreenOk(Csi(s, c))
  {
    if '0' <= c <= '9' {
      AddDigitOk(s, (c - '0') as nat);
    } else if c == 'm' {
      SgrOk(s);
    } else if c == 'J' {
      ClearedOk(s);
    }
  }

  lemma AddDigitOk(s: Screen, d: nat)
    requires ScreenOk(s)
    ensures ScreenOk(AddDigit(s, d))
  {
  }

  /** The cursor never leaves the screen, whatever is written. */
  lemma PutOk(s: Screen, c: char)
    requires ScreenOk(s)
    ensures ScreenOk(Put(s, c))
  {
    NormalOk(s, c);
    CsiOk(s, c);
  }

  lemma ClearedOk(s: Screen)
    requires ScreenOk(s)
    ensures ScreenOk(Cleared(s))
  {
  }

  /** A text, character after character. */
  function Feed(s: Screen, t: string): (r: Screen)
    requires ScreenOk(s)
    ensures ScreenOk(r)
  {
    if t == "" then s
    else
      var u := Feed(s, t[..|t| - 1]);
      PutOk(u, t[|t| - 1]);
      Put(u, t[|t| - 1])
  }

  lemma FeedAppend(s: Screen, t: string, c: char)
    requires ScreenOk(s)
    ensures Feed(s, t + [c]) == Put(Feed(s, t), c)
  {
    assert (t + [c])[..|t|] == t;
  }

  // ---------------- what whole texts do ----------------

  predicate IsPrintable(c: char) {
    ' ' <= c <= '~'
  }

  /** A printable character in the middle of a screen. */
  lemma PrintOne(s: Screen, c: char, k: nat)
    requires ScreenOk(s) && s.esc == NoEsc && s.row * COLS + s.col == k < CELLS - 1 && IsPrintable(c)
    ensures var r := Put(s, c);
      r.row * COLS + r.col == k + 1 && r.esc == NoEsc && r.attr == s.attr && r.video == s.video[k := Cell(c, s.attr)]
  {
  }

  /** Plain text on a cleared screen stands there from the top left on, line after line. */
  lemma {:induction false} PlainText(s: Screen, t: string)
    requires ScreenOk(s) && |t| < CELLS && forall i :: 0 <= i < |t| ==> IsPrintable(t[i])
    ensures var r := Feed(Cleared(s), t);
      && r.row * COLS + r.col == |t| && r.esc == NoEsc && r.attr == s.attr && |r.video| == CELLS
      && forall i {:trigger r.video[i]} :: 0 <= i < CELLS ==> r.video[i] == Cell(if i < |t| then t[i] else ' ', s.attr)
  {
    if t != "" {
      var front, c := t[..|t| - 1], t[|t| - 1];
      PlainText(s, front);
      PrintOne(Feed(Cleared(s), front), c, |front|);
    }
  }

  /** Scrolling loses the top line, and every other line moves up by one. */
  lemma ScrollMovesLines(s: Screen, row: nat, col: nat)
    requires |s.video| == CELLS && row < ROWS && col < COLS
    ensures |Scrolled(s).video| == CELLS
    ensures Scrolled(s).video[row * COLS + col] ==
      if row < ROWS - 1 then s.video[(row + 1) * COLS + col] else Cell(' ', s.attr)
  {
  }

  lemma {:induction false} FeedConcat(s: Screen, a: string, b: string)
    requires ScreenOk(s)
    ensures Feed(s, a + b) == Feed(Feed(s, a), b)
  {
    if b == "" {
      assert a + b == a;
    } else {
      var front, c := b[..|b| - 1], b[|b| - 1];
      FeedConcat(s, a, front);
      FeedAppend(s, a + front, c);
      FeedAppend(Feed(s, a), front, c);
      assert b == front + [c] && a + b == (a + front) + [c];
    }
  }

  /** Nothing but cells and cursor differs. */
  ghost predicate SameMode(s: Screen, r: Screen) {
    r == s.(video := r.video, row := r.row, col := r.col)
  }

  /** Cell `i` of the screen shows `c` in the colours of `s`. */
  ghost predicate Shows(r: Screen, i: nat, c: char, s: Screen) {
    i < |r.video| && r.video[i] == Cell(c, s.attr)
  }

  /** A cell holds the character in its low byte and the attribute in its high byte; only a
      character beyond ASCII overwrites the attribute. */
  lemma CellBytes(c: char, attr: nat)
    requires c as int < 256 && attr < 256
    ensures Cell(c, attr) % 256 == c as int
    ensures Cell(c, attr) / 256 == if c as int < 128 then attr else 255
  {
  }

  /** Cells `start` to `start + |t|` have got the text, and no others have changed. */
  ghost predicate TextAt(s: Screen, r: Screen, start: nat, t: string) {
    && |s.video| == |r.video| == CELLS
    && (forall i {:trigger t[i]} :: 0 <= i < |t| ==> Shows(r, start + i, t[i], s))
    && forall i {:trigger r.video[i]} :: 0 <= i < CELLS && !(start <= i < start + |t|) ==> r.video[i] == s.video[i]
  }

  lemma TextAtNext(s: Screen, r: Screen, start: nat, t: string, c: char)
    requires TextAt(s, r, start, t) && start + |t| < CELLS
    ensures TextAt(s, r.(video := r.video[start + |t| := Cell(c, s.attr)]), start, t + [c])
  {
    var u, all := r.(video := r.video[start + |t| := Cell(c, s.attr)]), t + [c];
    forall i {:trigger all[i]} | 0 <= i < |all| ensures Shows(u, start + i, all[i], s) {
      assert i < |t| ==> Shows(r, start + i, t[i], s);
    }
  }

  /** A text that stays in its line. */
  lemma {:induction false} LinePrinted(s: Screen, t: string)
    requires ScreenOk(s) && s.esc == NoEsc && s.col + |t| < COLS && forall i :: 0 <= i < |t| ==> IsPrintable(t[i])
    ensures var r := Feed(s, t);
      SameMode(s, r) && r.row == s.row && r.col == s.col + |t| && TextAt(s, r, s.row * COLS + s.col, t)
  {
    if t != "" {
      var front, c := t[..|t| - 1], t[|t| - 1];
      LinePrinted(s, front);
      var u := Feed(s, front);
      PrintInLine(u, c);
      TextAtNext(s, u, s.row * COLS + s.col, front, c);
      assert front + [c] == t;
    }
  }

  lemma PrintInLine(s: Screen, c: char)
    requires ScreenOk(s) && s.esc == NoEsc && s.col + 1 < COLS && IsPrintable(c)
    ensures Put(s, c) == s.(video := s.video[s.row * COLS + s.col := Cell(c, s.attr)], col := s.col + 1)
  {
  }

  /** A newline goes to the start of the next line; on the last line everything moves up by
      one line and a blank one follows. */
  lemma NewlineMoves(s: Screen)
    requires ScreenOk(s) && s.esc == NoEsc
    ensures var r := Put(s, '\n');
      && SameMode(s, r) && r.col == 0 && |r.video| == CELLS
      && (s.row < ROWS - 1 ==> r.row == s.row + 1 && r.video == s.video)
      && (s.row == ROWS - 1 ==> r.row == ROWS - 1 && forall i {:trigger r.video[i]} :: 0 <= i < CELLS ==>
            r.video[i] == if i + COLS < CELLS then s.video[i + COLS] else Cell(' ', s.attr))
  {
  }

  /** A character in the last column is shown there, and the cursor goes to the start of the
      next line, with the screen moving up when there is none. */
  lemma PrintAtMargin(s: Screen, c: char)
    requires ScreenOk(s) && s.esc == NoEsc && s.col == COLS - 1 && IsPrintable(c)
    ensures var r := Put(s, c); var shown := s.video[s.row * COLS + s.col := Cell(c, s.attr)];
      && SameMode(s, r) && r.col == 0 && |r.video| == CELLS
      && (s.row < ROWS - 1 ==> r.row == s.row + 1 && r.video == shown)
      && (s.row == ROWS - 1 ==> r.row == ROWS - 1 && forall i {:trigger r.video[i]} :: 0 <= i < CELLS ==>
            r.video[i] == if i + COLS < CELLS then shown[i + COLS] else Cell(' ', s.attr))
  {
  }

  /** A carriage return goes to the start of the line, so that what follows overwrites it. */
  lemma CarriageReturn(s: Screen, t: string)
    requires ScreenOk(s) && s.esc == NoEsc && |t| < COLS && forall i :: 0 <= i < |t| ==> IsPrintable(t[i])
    ensures var r := Feed(s, "\r" + t);
      SameMode(s, r) && r.row == s.row && r.col == |t| && TextAt(s, r, s.row * COLS, t)
  {
    FeedConcat(s, "\r", t);
    FeedOne(s, '\r');
    LinePrinted(s.(col := 0), t);
  }

  lemma FeedOne(s: Screen, c: char)
    requires ScreenOk(s)
    ensures Feed(s, [c]) == Put(s, c)
  {
    assert [c][..0] == "" && Feed(s, "") == s;
  }

  /** A backspace takes back the character before the cursor, across the start of a line too:
      its cell is blank and the cursor on it.  At the top left it does nothing. */
  lemma BackspaceErases(s: Screen)
    requires ScreenOk(s) && s.esc == NoEsc
    ensures var r, k := Put(s, BACKSPACE), s.row * COLS + s.col;
      && SameMode(s, r) && |r.video| == CELLS && r.row * COLS + r.col == (if k == 0 then 0 else k - 1)
      && forall i {:trigger r.video[i]} :: 0 <= i < CELLS ==>
           r.video[i] == if i == k - 1 then Cell(' ', s.attr) else s.video[i]
  {
  }

  /** ... so that it undoes a printed character, up to a blank in its place. */
  lemma BackspaceUndoes(s: Screen, c: char)
    requires ScreenOk(s) && s.esc == NoEsc && IsPrintable(c) && s.row * COLS + s.col < CELLS - 1
    ensures var r, k := Feed(s, [c, BACKSPACE]), s.row * COLS + s.col;
      && r.row == s.row && r.col == s.col && SameMode(s, r) && |r.video| == CELLS
      && forall i {:trigger r.video[i]} :: 0 <= i < CELLS ==> r.video[i] == if i == k then Cell(' ', s.attr) else s.video[i]
  {
    FeedOne(s, c);
    FeedAppend(s, [c], BACKSPACE);
    assert [c] + [BACKSPACE] == [c, BACKSPACE];
    var p := Put(s, c);
    PrintOne(s, c, s.row * COLS + s.col);
    PrintKeepsMode(s, c);
    BackspaceErases(p);
    CellAt(s.row, s.col, Put(p, BACKSPACE).row, Put(p, BACKSPACE).col);
  }

  lemma PrintKeepsMode(s: Screen, c: char)
    requires ScreenOk(s) && s.esc == NoEsc && IsPrintable(c)
    ensures SameMode(s, Put(s, c))
  {
  }

  lemma CellAt(row: nat, col: nat, row': nat, col': nat)
    requires col < COLS && col' < COLS
    ensures row * COLS + col == row' * COLS + col' <==> row == row' && col == col'
  {
  }

  lemma {:induction false} BlanksUpTo(s: Screen, next: nat)
    requires ScreenOk(s) && s.col <= next < COLS
    ensures var r, start := Tabbed(s, next), s.row * COLS;
      && SameMode(s, r) && r.row == s.row && r.col == next && |r.video| == CELLS
      && forall i {:trigger r.video[i]} :: 0 <= i < CELLS ==>
           r.video[i] == if start + s.col <= i < start + next then Cell(' ', s.attr) else s.video[i]
    decreases next - s.col
  {
    if s.col < next {
      BlanksUpTo(PutCell(s, ' ').(col := s.col + 1), next);
    }
  }

  /** A tabulator writes blanks up to the next column that is a multiple of eight, or up to
      the last column when there is none. */
  lemma TabulatorBlanks(s: Screen, next: nat)
    requires ScreenOk(s) && s.esc == NoEsc
    requires next == COLS - 1 >= s.col >= COLS - 8 || (s.col < next <= s.col + 8 && next % 8 == 0 && next < COLS)
    ensures var r, start := Put(s, '\t'), s.row * COLS;
      && SameMode(s, r) && r.row == s.row && r.col == next && |r.video| == CELLS
      && forall i {:trigger r.video[i]} :: 0 <= i < CELLS ==>
           r.video[i] == if start + s.col <= i < start + next then Cell(' ', s.attr) else s.video[i]
  {
    TabStopIs(s.col, next);
    BlanksUpTo(s, next);
  }

  lemma TabStopIs(col: nat, next: nat)
    requires col < COLS
    requires next == COLS - 1 >= col >= COLS - 8 || (col < next <= col + 8 && next % 8 == 0 && next < COLS)
    ensures TabStop(col) == next
  {
  }

  // ---------------- lines of text ----------------

  /** Lines with a newline between any two. */
  function JoinedLines(lines: seq<string>): string
    requires lines != []
  {
    if |lines| == 1 then lines[0] else JoinedLines(lines[..|lines| - 1]) + "\n" + lines[|lines| - 1]
  }

  predicate IsLine(t: string) {
    |t| < COLS && forall i :: 0 <= i < |t| ==> IsPrintable(t[i])
  }

  /** What is to be seen in line `row`, column `col`. */
  function CharOf(lines: seq<string>, row: nat, col: nat): char {
    if row < |lines| && col < |lines[row]| then lines[row][col] else ' '
  }

  /** The screen shows the lines from the top left on, and nothing else. */
  ghost predicate ShowsLines(r: Screen, lines: seq<string>, s: Screen) {
    |r.video| == CELLS && forall row, col {:trigger CharOf(lines, row, col)} :: 0 <= row < ROWS && 0 <= col < COLS ==>
      Shows(r, row * COLS + col, CharOf(lines, row, col), s)
  }

  lemma OneMoreCell(r: Screen, u: Screen, lines: seq<string>, t: string, s: Screen, row: nat, col: nat)
    requires r.attr == s.attr && ShowsLines(r, lines, s) && TextAt(r, u, |lines| * COLS, t)
    requires |t| < COLS && |lines| < ROWS && row < ROWS && col < COLS
    ensures Shows(u, row * COLS + col, CharOf(lines + [t], row, col), s)
  {
    var k := row * COLS + col;
    if row == |lines| && col < |t| {
      assert Shows(u, |lines| * COLS + col, t[col], r);
    } else {
      assert Shows(r, k, CharOf(lines, row, col), s);
      assert CharOf(lines + [t], row, col) == CharOf(lines, row, col);
    }
  }

  lemma OneMoreLine(r: Screen, lines: seq<string>, t: string, s: Screen)
    requires ScreenOk(r) && r.esc == NoEsc && r.attr == s.attr && ShowsLines(r, lines, s)
    requires IsLine(t) && |lines| < ROWS && r.row == |lines| && r.col == 0
    ensures ShowsLines(Feed(r, t), lines + [t], s)
  {
    LinePrinted(r, t);
    forall row, col {:trigger CharOf(lines + [t], row, col)} | 0 <= row < ROWS && 0 <= col < COLS
      ensures Shows(Feed(r, t), row * COLS + col, CharOf(lines + [t], row, col), s)
    {
      OneMoreCell(r, Feed(r, t), lines, t, s, row, col);
    }
  }

  /** Lines of text on a cleared screen: every character stands in its line and column, all
      other cells are blank, and the cursor is behind the last line. */
  lemma {:induction false} LinesOfText(s: Screen, lines: seq<string>)
    requires ScreenOk(s) && 0 < |lines| <= ROWS && forall i :: 0 <= i < |lines| ==> IsLine(lines[i])
    ensures var r := Feed(Cleared(s), JoinedLines(lines));
      && ShowsLines(r, lines, s) && r.row == |lines| - 1 && r.col == |lines[|lines| - 1]|
      && r.esc == NoEsc && r.attr == s.attr
  {
    var n := |lines| - 1;
    var front, t := lines[..n], lines[n];
    assert lines == front + [t];
    ClearedOk(s);
    if n == 0 {
      assert ShowsLines(Cleared(s), [], s);
      OneMoreLine(Cleared(s), [], t, s);
      LinePrinted(Cleared(s), t);
      assert front == [];
    } else {
      LinesOfText(s, front);
      var p := Feed(Cleared(s), JoinedLines(front));
      FeedConcat(Cleared(s), JoinedLines(front) + "\n", t);
      FeedAppend(Cleared(s), JoinedLines(front), '\n');
      var q := Put(p, '\n');
      NewlineMoves(p);
      assert ShowsLines(q, front, s);
      OneMoreLine(q, front, t, s);
      LinePrinted(q, t);
    }
  }

  // ---------------- other sequences ----------------

  lemma CsiOpened(s: Screen)
    requires ScreenOk(s) && s.esc == NoEsc
    ensures Feed(s, [ESC, '[']) == s.(esc := InCsi, count := 0, params := Zeros(MAX_PARAMS))
  {
    FeedOne(s, ESC);
    FeedAppend(s, [ESC], '[');
    assert [ESC] + ['['] == [ESC, '['];
  }

  /** ESC [ H puts the cursor into the top left corner, and ESC [ 2 J or ESC [ J blanks the
      whole screen as well; the colours stay. */
  lemma HomeAndClear(s: Screen, p: seq<nat>)
    requires ScreenOk(s) && s.esc == NoEsc && |p| <= MAX_PARAMS
    ensures var seqText := [ESC, '['] + (if p == [] then "" else ParamText(p));
      var h, j := Feed(s, seqText + "H"), Feed(s, seqText + "J");
      && h.row == h.col == j.row == j.col == 0 && h.esc == j.esc == NoEsc
      && h.attr == j.attr == s.attr && h.fg == j.fg == s.fg && h.bg == j.bg == s.bg && h.bright == j.bright == s.bright
      && h.video == s.video
      && |j.video| == CELLS && forall i {:trigger j.video[i]} :: 0 <= i < CELLS ==> Shows(j, i, ' ', s)
  {
    var t := ParamsOpened(s, p);
    var seqText := [ESC, '['] + (if p == [] then "" else ParamText(p));
    FeedAppend(s, seqText, 'H');
    FeedAppend(s, seqText, 'J');
  }

  /** A sequence up to its final character changes nothing but its own parameters. */
  lemma ParamsOpened(s: Screen, p: seq<nat>) returns (t: Screen)
    requires ScreenOk(s) && s.esc == NoEsc && |p| <= MAX_PARAMS
    ensures t == Feed(s, [ESC, '['] + (if p == [] then "" else ParamText(p)))
    ensures t == s.(esc := InCsi, count := |p|, params := p + Zeros(MAX_PARAMS - |p|))
  {
    CsiOpened(s);
    t := Feed(s, [ESC, '['] + (if p == [] then "" else ParamText(p)));
    if p == [] {
      assert [ESC, '['] + "" == [ESC, '['] && p + Zeros(MAX_PARAMS) == Zeros(MAX_PARAMS);
    } else {
      ParamsFed(s.(esc := InCsi, count := 0, params := Zeros(MAX_PARAMS)), p);
      FeedConcat(s, [ESC, '['], ParamText(p));
    }
  }

  /** A control sequence with any other final character leaves screen, cursor and colours
      alone, ... */
  lemma OtherSequences(s: Screen, p: seq<nat>, c: char)
    requires ScreenOk(s) && s.esc == NoEsc && |p| <= MAX_PARAMS && 0x40 <= c as int <= 0x7E && c !in {'m', 'H', 'J'}
    ensures var r := Feed(s, [ESC, '['] + (if p == [] then "" else ParamText(p)) + [c]);
      r == s.(count := r.count, params := r.params)
  {
    var t := ParamsOpened(s, p);
    FeedAppend(s, [ESC, '['] + (if p == [] then "" else ParamText(p)), c);
    OtherFinal(t, c);
  }

  lemma OtherFinal(t: Screen, c: char)
    requires ScreenOk(t) && t.esc == InCsi && 0x40 <= c as int <= 0x7E && c !in {'m', 'H', 'J'}
    ensures Put(t, c) == t.(esc := NoEsc)
  {
  }

  /** ... and ESC before any character but the bracket leaves everything alone. */
  lemma NoSequence(s: Screen, c: char)
    requires ScreenOk(s) && s.esc == NoEsc && c != '['
    ensures Feed(s, [ESC, c]) == s
  {
    FeedOne(s, ESC);
    FeedAppend(s, [ESC], c);
    assert [ESC] + [c] == [ESC, c];
  }

  // ---------------- colour sequences ----------------

  /** Digits add up to the value of the current parameter. */
  lemma {:induction false} DigitsFed(s: Screen, t: string)
    requires ScreenOk(s) && s.esc == InCsi && t != "" && AllDigits(t)
    requires s.params[if s.count == 0 then 0 else s.count - 1] == 0
    ensures var n := if s.count == 0 then 1 else s.count;
      Feed(s, t) == s.(count := n, params := s.params[n - 1 := Value(t)])
  {
    var front, last := t[..|t| - 1], t[|t| - 1];
    if front != "" {
      DigitsFed(s, front);
    }
    var n := if s.count == 0 then 1 else s.count;
    assert s.params[n - 1 := Value(front)][n - 1 := Value(t)] == s.params[n - 1 := Value(t)];
  }

  /** Parameters in decimal, with a semicolon between any two. */
  function ParamText(ps: seq<nat>): string
    requires ps != []
  {
    if |ps| == 1 then Numeral(ps[0]) else ParamText(ps[..|ps| - 1]) + ";" + Numeral(ps[|ps| - 1])
  }

  function Zeros(n: nat): (r: seq<nat>)
    ensures |r| == n && forall i :: 0 <= i < n ==> r[i] == 0
  {
    seq(n, _ => 0)
  }

  lemma {:induction false} ParamsFed(s: Screen, ps: seq<nat>)
    requires ScreenOk(s) && s.esc == InCsi && s.count == 0 && s.params == Zeros(MAX_PARAMS) && 0 < |ps| <= MAX_PARAMS
    ensures Feed(s, ParamText(ps)) == s.(count := |ps|, params := ps + Zeros(MAX_PARAMS - |ps|))
  {
    var front, last := ps[..|ps| - 1], ps[|ps| - 1];
    if |ps| == 1 {
      NumberFed(s, last);
      assert s.params[0 := last] == ps + Zeros(MAX_PARAMS - 1);
    } else {
      ParamsFed(s, front);
      var u := s.(count := |front|, params := front + Zeros(MAX_PARAMS - |front|));
      var v := u.(count := |ps|);
      FeedAppend(s, ParamText(front), ';');
      FeedConcat(s, ParamText(front) + ";", Numeral(last));
      NumberFed(v, last);
      assert v.params[|front| := last] == ps + Zeros(MAX_PARAMS - |ps|);
    }
  }

  /** The numeral of a number becomes the current parameter. */
  lemma NumberFed(s: Screen, n: nat)
    requires ScreenOk(s) && s.esc == InCsi && s.params[if s.count == 0 then 0 else s.count - 1] == 0
    ensures var k := if s.count == 0 then 1 else s.count;
      Feed(s, Numeral(n)) == s.(count := k, params := s.params[k - 1 := n])
  {
    NumeralValue(n);
    NumeralIsCanonical(n);
    DigitsFed(s, Numeral(n));
  }

  /** The sequence that selects colours: ESC [ parameters m. */
  function SgrText(ps: seq<nat>): string
    requires ps != []
  {
    [ESC, '['] + ParamText(ps) + "m"
  }

  /** A colour sequence of up to eight parameters applies them in order, and touches neither
      the text on the screen nor the cursor. */
  lemma SgrSequence(s: Screen, ps: seq<nat>)
    requires ScreenOk(s) && s.esc == NoEsc && 0 < |ps| <= MAX_PARAMS
    ensures var r, c := Feed(s, SgrText(ps)), SgrParams(s, ps);
      && r.video == s.video && r.row == s.row && r.col == s.col && r.esc == NoEsc
      && r.fg == c.fg && r.bg == c.bg && r.bright == c.bright && r.attr == AttrOf(c.fg, c.bg, c.bright)
  {
    var open := Feed(s, [ESC, '[']);
    assert Feed(s, []) == s;
    FeedAppend(s, [], ESC);
    FeedAppend(s, [ESC], '[');
    assert [] + [ESC] == [ESC] && [ESC] + ['['] == [ESC, '['];
    var start := s.(esc := InCsi, count := 0, params := Zeros(MAX_PARAMS));
    assert open == start;
    ParamsFed(start, ps);
    FeedConcat(s, [ESC, '['], ParamText(ps));
    FeedAppend(s, [ESC, '['] + ParamText(ps), 'm');
    var t := start.(count := |ps|, params := ps + Zeros(MAX_PARAMS - |ps|));
    assert t.params[..t.count] == ps;
    SgrSame(s, t, ps);
  }

  /** Black, red, green, brown, blue, magenta, cyan and grey, which ANSI counts from 0 to 7,
      in the numbers of VGA. */
  function VgaNumber(ansi: nat): nat {
    if ansi == 0 then 0 else if ansi == 1 then 4 else if ansi == 2 then 2 else if ansi == 3 then 6
    else if ansi == 4 then 1 else if ansi == 5 then 5 else if ansi == 6 then 3 else 7
  }

  lemma VgaColour(ansi: nat, bright: bool)
    requires ansi < 8
    ensures AnsiToVga(ansi, bright) == VgaNumber(ansi) + (if bright then 8 else 0) && VgaNumber(ansi) < 8
  {
  }

  lemma Bits(a: nat, high: nat, b: nat, low: nat)
    requires a == high * 16 + b * 8 + low && b <= 1 && low < 8
    ensures a % 8 == low && a / 8 == high * 2 + b && a % 16 == b * 8 + low && a / 16 == high
  {
  }

  /** The attribute: the colour of the text in bits 0 to 2, its brightness in bit 3, and the
      background above. */
  lemma AttributeBits(fg: nat, bg: nat, bright: bool)
    requires fg < 8 && bg < 8
    ensures var a, b := AttrOf(fg, bg, bright), if bright then 1 else 0;
      a % 8 == VgaNumber(fg) && a / 8 == VgaNumber(bg) * 2 + b && a % 16 == b * 8 + VgaNumber(fg) && a / 16 == VgaNumber(bg)
  {
    VgaColour(fg, bright);
    VgaColour(bg, false);
    Bits(AttrOf(fg, bg, bright), VgaNumber(bg), if bright then 1 else 0, VgaNumber(fg));
  }

  lemma OneParameter(s: Screen, p: nat)
    requires ScreenOk(s) && s.esc == NoEsc
    ensures var r, c := Feed(s, SgrText([p])), SgrParam(s, p);
      c.fg < 8 && c.bg < 8 && r.fg == c.fg && r.bg == c.bg && r.bright == c.bright && r.attr == AttrOf(c.fg, c.bg, c.bright)
  {
    SgrSequence(s, [p]);
    assert [p][..0] == [] && SgrParams(s, []) == s;
  }

  /** What parameter `p` makes of attribute `was`: 0 gives grey on black, 1 bright text, 30
      to 37 a text colour, 40 to 47 a background, and all others nothing. */
  predicate IsAttrAfter(was: nat, p: nat, a: nat) {
    && (p == 0 ==> a == 0x07)
    && (p == 1 ==> a % 8 == was % 8 && a / 8 % 2 == 1 && a / 16 == was / 16)
    && (30 <= p <= 37 ==> a % 8 == VgaNumber(p - 30) && a / 8 == was / 8)
    && (40 <= p <= 47 ==> a % 16 == was % 16 && a / 16 == VgaNumber(p - 40))
    && (p > 1 && !(30 <= p <= 37) && !(40 <= p <= 47) ==> a == was)
  }

  lemma ParameterEffect(s: Screen, c: Screen, p: nat)
    requires s.fg < 8 && s.bg < 8 && c == SgrParam(s, p)
    ensures c.fg < 8 && c.bg < 8
    ensures IsAttrAfter(AttrOf(s.fg, s.bg, s.bright), p, AttrOf(c.fg, c.bg, c.bright))
  {
    if p == 0 {
      ResetAttr();
    } else if p == 1 {
      AttributeBits(s.fg, s.bg, s.bright);
      AttributeBits(s.fg, s.bg, true);
      assert (VgaNumber(s.bg) * 2 + 1) % 2 == 1;
    } else if 30 <= p <= 37 {
      AttributeBits(s.fg, s.bg, s.bright);
      AttributeBits(p - 30, s.bg, s.bright);
    } else if 40 <= p <= 47 {
      AttributeBits(s.fg, s.bg, s.bright);
      AttributeBits(s.fg, p - 40, s.bright);
    }
  }

  lemma ResetAttr()
    ensures AttrOf(7, 0, false) == 0x07
  {
  }

  /** What a sequence with one parameter does to the attribute. */
  lemma ColourParameter(s: Screen, p: nat)
    requires ScreenOk(s) && s.esc == NoEsc
    ensures IsAttrAfter(s.attr, p, Feed(s, SgrText([p])).attr)
  {
    ParameterEffect(s, SgrParam(s, p), p);
    OneParameter(s, p);
  }

  /** Parameter 31 makes red text, which is number 4, and 44 a blue background, number 1. */
  lemma RedAndBlue(was: nat, a: nat)
    ensures IsAttrAfter(was, 31, a) ==> a % 8 == 4
    ensures IsAttrAfter(was, 44, a) ==> a / 16 == 1
  {
  }

  /** ESC [ m resets the colours. */
  lemma ResetSequence(s: Screen)
    requires ScreenOk(s) && s.esc == NoEsc
    ensures var r := Feed(s, [ESC, '[', 'm']);
      r.attr == 0x07 && r.video == s.video && r.row == s.row && r.col == s.col && r.esc == NoEsc
  {
    CsiOpened(s);
    FeedAppend(s, [ESC, '['], 'm');
    assert [ESC, '['] + ['m'] == [ESC, '[', 'm'];
  }

  lemma SgrParamSame(a: Screen, b: Screen, p: nat)
    requires a.fg == b.fg && a.bg == b.bg && a.bright == b.bright
    ensures var x, y := SgrParam(a, p), SgrParam(b, p); x.fg == y.fg && x.bg == y.bg && x.bright == y.bright
  {
  }

  /** Several parameters act one after the other. */
  lemma ColourParameters(s: Screen, ps: seq<nat>, p: nat)
    requires ScreenOk(s) && s.esc == NoEsc && 0 < |ps| < MAX_PARAMS
    ensures Feed(s, SgrText(ps + [p])).attr == Feed(Feed(s, SgrText(ps)), SgrText([p])).attr
  {
    var t, c := Feed(s, SgrText(ps)), SgrParams(s, ps);
    SgrSequence(s, ps);
    SgrSequence(s, ps + [p]);
    assert (ps + [p])[..|ps|] == ps;
    OneParameter(t, p);
    SgrParamSame(t, c, p);
  }

  /** Colours depend on nothing but the colours before. */
  lemma {:induction false} SgrSame(s: Screen, t: Screen, ps: seq<nat>)
    requires s.fg < 8 && s.bg < 8 && t.fg == s.fg && t.bg == s.bg && t.bright == s.bright
    ensures var a, b := SgrParams(s, ps), SgrParams(t, ps); a.fg == b.fg && a.bg == b.bg && a.bright == b.bright
  {
    if ps != [] {
      SgrSame(s, t, ps[..|ps| - 1]);
    }
  }

  // ---------------- the driver ----------------

  class Console {
    const video: array<nat>
    const escParams: array<nat>
    var cursorRow: nat
    var cursorCol: nat
    var attr: nat
    var escState: EscState
    var ansiFg: nat
    var ansiBg: nat
    var bright: bool
    var escParamCount: nat

    ghost predicate Shape()
      reads this
    {
      video.Length == CELLS && escParams.Length == MAX_PARAMS && video != escParams
    }

    ghost function Value(): Screen
      reads this, video, escParams
    {
      Screen(video[..], cursorRow, cursorCol, attr, escState, ansiFg, ansiBg, bright, escParams[..], escParamCount)
    }

    ghost predicate Valid()
      reads this, video, escParams
    {
      Shape() && ScreenOk(Value())
    }

    /** vga_init. */
    constructor ()
      ensures Valid() && fresh(video) && fresh(escParams)
      ensures Value().row == 0 && Value().col == 0 && Value().esc == NoEsc && forall i :: 0 <= i < CELLS ==> Value().video[i] == Cell(' ', 7)
    {
      video := new nat[CELLS](_ => Cell(' ', 7));
      escParams := new nat[MAX_PARAMS](_ => 0);
      ansiFg, ansiBg, bright, escParamCount, attr := 7, 0, false, 0, 7;
      cursorRow, cursorCol, escState := 0, 0, NoEsc;
    }

    /** vga_update_attr. */
    method UpdateAttr()
      requires ansiFg < 8 && ansiBg < 8
      modifies this`attr
      ensures attr == AttrOf(ansiFg, ansiBg, bright)
    {
      var fg := AnsiToVga(ansiFg, bright);
      var bg := AnsiToVga(ansiBg, false);
      attr := bg * 16 + fg;
    }

    /** One turn of the outer loop of vga_scroll. */
    method MoveRow(row: nat)
      requires Shape() && row < ROWS - 1
      modifies video
      ensures forall i {:trigger video[i]} :: row * COLS <= i < (row + 1) * COLS ==> video[i] == old(video[i + COLS])
      ensures forall i {:trigger video[i]} :: 0 <= i < CELLS && !(row * COLS <= i < (row + 1) * COLS) ==> video[i] == old(video[i])
    {
      for col := 0 to COLS
        invariant forall i {:trigger video[i]} :: row * COLS <= i < row * COLS + col ==> video[i] == old(video[i + COLS])
        invariant forall i {:trigger video[i]} :: 0 <= i < CELLS && !(row * COLS <= i < row * COLS + col) ==> video[i] == old(video[i])
      {
        video[row * COLS + col] := video[(row + 1) * COLS + col];
      }
    }

    /** vga_scroll. */
    method Scroll()
      requires Shape()
      modifies this`cursorRow, this`cursorCol, video
      ensures Value() == Scrolled(old(Value()))
    {
      for row := 0 to ROWS - 1
        invariant forall i {:trigger video[i]} :: 0 <= i < row * COLS ==> video[i] == old(video[i + COLS])
        invariant forall i {:trigger video[i]} :: row * COLS <= i < CELLS ==> video[i] == old(video[i])
      {
        MoveRow(row);
      }
      for col := 0 to COLS
        invariant forall i {:trigger video[i]} :: 0 <= i < (ROWS - 1) * COLS ==> video[i] == old(video[i + COLS])
        invariant forall i {:trigger video[i]} :: (ROWS - 1) * COLS <= i < (ROWS - 1) * COLS + col ==> video[i] == Cell(' ', attr)
      {
        video[(ROWS - 1) * COLS + col] := Cell(' ', attr);
      }
      cursorRow := ROWS - 1;
      cursorCol := 0;
    }

    /** vga_clear. */
    method Clear()
      requires Shape()
      modifies this`cursorRow, this`cursorCol, this`escState, video
      ensures Value() == Cleared(old(Value()))
    {
      for i := 0 to CELLS
        invariant forall k :: 0 <= k < i ==> video[k] == Cell(' ', attr)
      {
        video[i] := Cell(' ', attr);
      }
      cursorRow := 0;
      cursorCol := 0;
      escState := NoEsc;
    }

    /** vga_handle_sgr. */
    method HandleSgr()
      requires Valid()
      modifies this`ansiFg, this`ansiBg, this`bright, this`attr
      ensures Value() == Sgr(old(Value()))
    {
      if escParamCount == 0 {
        ansiFg, ansiBg, bright := 7, 0, false;
        UpdateAttr();
        return;
      }
      ghost var was, ps := Value(), escParams[..escParamCount];
      assert ps == was.params[..was.count];
      for i := 0 to escParamCount
        invariant ansiFg < 8 && ansiBg < 8
        invariant Value() == SgrParams(was, ps[..i])
      {
        assert ps[..i + 1][..i] == ps[..i];
        var param := escParams[i];
        if param == 0 {
          ansiFg, ansiBg, bright := 7, 0, false;
        } else if param == 1 {
          bright := true;
        } else if param >= 30 && param <= 37 {
          ansiFg := param - 30;
        } else if param >= 40 && param <= 47 {
          ansiBg := param - 40;
        }
      }
      assert ps[..escParamCount] == ps;
      UpdateAttr();
    }

    /** A character inside a control sequence. */
    method PutCsi(c: char)
      requires Valid() && escState == InCsi
      modifies this, video, escParams
      ensures Value() == Csi(old(Value()), c)
    {
      if c >= '0' && c <= '9' {
        if escParamCount == 0 {
          escParamCount := 1;
        }
        var idx := escParamCount - 1;
        escParams[idx] := escParams[idx] * 10 + (c - '0') as nat;
      } else if c == ';' {
        if escParamCount < MAX_PARAMS {
          escParamCount := escParamCount + 1;
        }
      } else if c == 'm' {
        HandleSgr();
        escState := NoEsc;
      } else if c == 'H' {
        cursorRow, cursorCol := 0, 0;
        escState := NoEsc;
      } else if c == 'J' {
        escState := NoEsc;
        Clear();
      } else if 0x40 <= c as int % 256 && c as int % 256 <= 0x7E {
        escState := NoEsc;
      }
    }

    /** The tabulator. */
    method Tab()
      requires Valid()
      modifies this`cursorCol, video
      ensures Value() == Tabbed(old(Value()), TabStop(old(Value()).col))
    {
      var next := (cursorCol + TAB_WIDTH) / TAB_WIDTH * TAB_WIDTH;
      if next >= COLS {
        next := COLS - 1;
      }
      ghost var all := Tabbed(Value(), next);
      while cursorCol < next
        invariant Valid() && Tabbed(Value(), next) == all
        decreases next - cursorCol
      {
        ghost var was := Value();
        video[cursorRow * COLS + cursorCol] := Cell(' ', attr);
        cursorCol := cursorCol + 1;
        assert Value() == PutCell(was, ' ').(col := was.col + 1);
      }
    }

    /** The backspace. */
    method Erase()
      requires Valid()
      modifies this`cursorRow, this`cursorCol, video
      ensures Value() == Erased(old(Value()))
    {
      if cursorCol > 0 {
        cursorCol := cursorCol - 1;
      } else if cursorRow > 0 {
        cursorRow := cursorRow - 1;
        cursorCol := COLS - 1;
      } else {
        return;
      }
      video[cursorRow * COLS + cursorCol] := Cell(' ', attr);
    }

    /** A character that is shown. */
    method Show(c: char)
      requires Valid()
      modifies this`cursorRow, this`cursorCol, video
      ensures Shape() && cursorRow <= ROWS
      ensures var t := PutCell(old(Value()), c);
        Value() == if old(Value()).col + 1 < COLS then t.(col := t.col + 1) else t.(col := 0, row := t.row + 1)
    {
      video[cursorRow * COLS + cursorCol] := Cell(c, attr);
      cursorCol := cursorCol + 1;
      if cursorCol >= COLS {
        cursorCol := 0;
        cursorRow := cursorRow + 1;
      }
    }

    /** Normal character output. */
    method PutNormal(c: char)
      requires Valid()
      modifies this`cursorRow, this`cursorCol, video
      ensures Value() == Normal(old(Value()), c)
    {
      NormalOk(Value(), c);
      if c == '\n' {
        cursorCol := 0;
        cursorRow := cursorRow + 1;
      } else if c == '\r' {
        cursorCol := 0;
      } else if c == BACKSPACE {
        Erase();
      } else if c == '\t' {
        TabbedOk(Value(), TabStop(cursorCol));
        Tab();
      } else {
        Show(c);
      }
      if cursorRow >= ROWS {
        Scroll();
      }
    }

    /** vga_put_char: the cursor and every cell it writes stay on the screen. */
    method PutChar(c: char)
      requires Valid()
      modifies this, video, escParams
      ensures Valid() && Value() == Put(old(Value()), c)
    {
      PutOk(Value(), c);
      match escState
      case NoEsc =>
        if c == ESC {
          escState := GotEsc;
        } else {
          PutNormal(c);
        }
      case GotEsc =>
        if c == '[' {
          escState := InCsi;
          escParamCount := 0;
          for i := 0 to MAX_PARAMS
            invariant forall k :: 0 <= k < i ==> escParams[k] == 0
            invariant Value() == old(Value()).(esc := InCsi, count := 0, params := escParams[..])
          {
            escParams[i] := 0;
          }
          assert escParams[..] == seq(MAX_PARAMS, _ => 0);
        } else {
          escState := NoEsc;
        }
      case InCsi => PutCsi(c);
    }
  }
}
