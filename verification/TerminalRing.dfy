/**
 * The terminal's scrollback: a ring of `rows + 200` lines that refines an unbounded log of lines. The
 * last line of the log is the one being typed on; the view is a window of the log that stays where it
 * is while output goes on below it.
 */
module TerminalRing {
  import opened Basics
  import Arith

  const SCROLLBACK := 200
  const FONT_WIDTH := 8
  const FONT_HEIGHT := 16
  const BACKSPACE := '\U{0008}'

  // ----- The log -----

  type Line = seq<char>

  function Blank(cols: nat): (l: Line)
    ensures |l| == cols
  {
    seq(cols, _ => ' ')
  }

  /** All lines so far, the last being the current one, and the column typed at. */
  datatype Page = Page(cols: nat, log: seq<Line>, cursor: nat)

  /** Every line has the same width, and the current one is blank from the cursor on. */
  ghost predicate Sound(p: Page) {
    && Lined(p.cols, p.log) && p.cursor < p.cols
    && BlankFrom(p.log[|p.log| - 1], p.cursor)
  }

  ghost predicate Lined(cols: nat, log: seq<Line>) {
    log != [] && forall i :: 0 <= i < |log| ==> |log[i]| == cols
  }

  ghost predicate BlankFrom(l: Line, from: nat) {
    forall j :: from <= j < |l| ==> l[j] == ' '
  }

  function Fresh(cols: nat): Page {
    Page(cols, [Blank(cols)], 0)
  }

  function NewLine(p: Page): Page {
    Page(p.cols, p.log + [Blank(p.cols)], 0)
  }

  /** The log with one character of its last line replaced. */
  function Set(cols: nat, log: seq<Line>, j: nat, c: char): (r: seq<Line>)
    requires Lined(cols, log) && j < cols
    ensures Lined(cols, r)
  {
    log[|log| - 1 := log[|log| - 1][j := c]]
  }

  function Put(p: Page, c: char): (r: Page)
    requires Sound(p)
    ensures Sound(r) && r.cols == p.cols && |p.log| <= |r.log| <= |p.log| + 1
  {
    if c == '\n' then NewLine(p)
    else if c == BACKSPACE then
      if p.cursor > 0 then Page(p.cols, Set(p.cols, p.log, p.cursor - 1, ' '), p.cursor - 1) else p
    else
      var q := Page(p.cols, Set(p.cols, p.log, p.cursor, c), p.cursor + 1);
      if q.cursor >= q.cols then NewLine(q) else q
  }

  function PutAll(p: Page, s: string): (r: Page)
    requires Sound(p)
    ensures Sound(r) && r.cols == p.cols && |p.log| <= |r.log|
    decreases |s|
  {
    if s == [] then p else Put(PutAll(p, s[..|s| - 1]), s[|s| - 1])
  }

  /** Only the current line and new lines change. */
  lemma {:induction false} EarlierLines(p: Page, s: string, k: nat)
    requires Sound(p) && k < |p.log| - 1
    ensures PutAll(p, s).log[k] == p.log[k]
    decreases |s|
  {
    if s == [] {
    } else {
      EarlierLines(p, s[..|s| - 1], k);
    }
  }

  lemma PutMore(p: Page, s: string, c: char)
    requires Sound(p)
    ensures PutAll(p, s + [c]) == Put(PutAll(p, s), c)
  {
    assert (s + [c])[..|s|] == s;
  }

  lemma {:induction false} PutAllSplit(p: Page, s: string, t: string)
    requires Sound(p)
    ensures PutAll(p, s + t) == PutAll(PutAll(p, s), t)
    decreases |t|
  {
    if t == [] {
      assert s + t == s;
    } else {
      PutAllSplit(p, s, t[..|t| - 1]);
      assert (s + t)[..|s + t| - 1] == s + t[..|t| - 1];
    }
  }

  // ----- What is typed is what is there -----

  predicate Plain(c: char) {
    c != '\n' && c != BACKSPACE
  }

  function Concat(lines: seq<Line>): Line {
    if lines == [] then [] else Concat(lines[..|lines| - 1]) + lines[|lines| - 1]
  }

  /** Everything up to the cursor, line after line. */
  function Text(p: Page): Line
    requires Sound(p)
  {
    Concat(p.log[..|p.log| - 1]) + p.log[|p.log| - 1][..p.cursor]
  }

  lemma PutPlain(p: Page, c: char)
    requires Sound(p) && Plain(c)
    ensures Text(Put(p, c)) == Text(p) + [c]
  {
    var n := |p.log| - 1;
    var log := Set(p.cols, p.log, p.cursor, c);
    assert log[..n] == p.log[..n] && log[n][..p.cursor + 1] == p.log[n][..p.cursor] + [c];
    if p.cursor + 1 >= p.cols {
      assert (log + [Blank(p.cols)])[..n + 1] == log && log[n][..p.cursor + 1] == log[n];
    }
  }

  /** Plain text is neither lost nor moved when it wraps from line to line. */
  lemma {:induction false} TextKept(p: Page, s: string)
    requires Sound(p) && forall i :: 0 <= i < |s| ==> Plain(s[i])
    ensures Text(PutAll(p, s)) == Text(p) + s
    decreases |s|
  {
    if s == [] {
    } else {
      TextKept(p, s[..|s| - 1]);
      PutPlain(PutAll(p, s[..|s| - 1]), s[|s| - 1]);
      assert s == s[..|s| - 1] + [s[|s| - 1]];
    }
  }

  /** A backspace takes back the character before it exactly when that did not end the line. */
  lemma BackspaceUndoes(p: Page, c: char)
    requires Sound(p) && Plain(c)
    ensures Put(Put(p, c), BACKSPACE) == p <==> p.cursor + 1 < p.cols
  {
    var n := |p.log| - 1;
    if p.cursor + 1 < p.cols {
      assert p.log[n][p.cursor := c][p.cursor := ' '] == p.log[n];
      assert Put(Put(p, c), BACKSPACE).log == p.log;
    } else {
      assert |Put(Put(p, c), BACKSPACE).log| == |p.log| + 1;
    }
  }

  /** Two columns: the second character ends the line, and a backspace after it takes nothing back. */
  lemma BackspaceAtTheEnd()
    ensures Put(Put(Put(Fresh(2), 'a'), 'b'), BACKSPACE) == Page(2, [['a', 'b'], Blank(2)], 0)
    ensures Put(Put(Put(Fresh(2), 'a'), 'b'), BACKSPACE) != Put(Fresh(2), 'a')
  {
    var p := Put(Fresh(2), 'a');
    BackspaceUndoes(p, 'b');
    FullLine();
  }

  lemma FullLine()
    ensures Put(Put(Fresh(2), 'a'), 'b') == Page(2, [['a', 'b'], Blank(2)], 0)
  {
    assert Blank(2)[0 := 'a'] == ['a', ' '];
    assert Put(Fresh(2), 'a').log == [['a', ' ']];
    assert ['a', ' '][1 := 'b'] == ['a', 'b'];
    assert Set(2, [['a', ' ']], 1, 'b') == [['a', 'b']];
  }

  // ----- The view -----

  function LineAt(cols: nat, log: seq<Line>, k: int): Line {
    if 0 <= k < |log| then log[k] else Blank(cols)
  }

  /** The lines shown, `offset` lines up from the end; above the start of the log they are blank. */
  function Visible(cols: nat, log: seq<Line>, rows: nat, offset: nat): (v: seq<Line>)
    ensures |v| == rows
  {
    seq(rows, r => LineAt(cols, log, |log| - rows - offset + r))
  }

  /** A view that is scrolled back shows the same lines as long as it moves back by what is added. */
  lemma ViewStays(p: Page, s: string, rows: nat, offset: nat)
    requires Sound(p) && offset > 0
    ensures var q := PutAll(p, s);
            Visible(q.cols, q.log, rows, offset + |q.log| - |p.log|) == Visible(p.cols, p.log, rows, offset)
  {
    var q := PutAll(p, s);
    var n := |p.log| - 1;
    forall k | k < n
      ensures LineAt(q.cols, q.log, k) == LineAt(p.cols, p.log, k)
    {
      if 0 <= k {
        EarlierLines(p, s, k);
      }
    }
    var above, below := Visible(p.cols, p.log, rows, offset), Visible(q.cols, q.log, rows, offset + |q.log| - |p.log|);
    forall r | 0 <= r < rows
      ensures below[r] == above[r]
    {
      var k := |p.log| - rows - offset + r;
      assert above[r] == LineAt(p.cols, p.log, k) && below[r] == LineAt(q.cols, q.log, k);
    }
  }

  // ----- Copy and paste -----

  /** How much of a line is left without the blanks at its end. */
  function TrimTo(l: Line, end: nat): (e: nat)
    requires end <= |l|
    ensures e <= end && (e > 0 ==> l[e - 1] != ' ') && forall j :: e <= j < end ==> l[j] == ' '
  {
    if end > 0 && l[end - 1] == ' ' then TrimTo(l, end - 1) else end
  }

  function Trim(l: Line): Line {
    l[..TrimTo(l, |l|)]
  }

  function Clip(lines: seq<Line>): string {
    if lines == [] then [] else Clip(lines[..|lines| - 1]) + Trim(lines[|lines| - 1]) + ['\n']
  }

  /** Typing plain text that does not reach the end of the line. */
  lemma {:induction false} TypeShort(p: Page, s: string)
    requires Sound(p) && p.cursor == 0 && |s| < p.cols && forall i :: 0 <= i < |s| ==> Plain(s[i])
    ensures var n := |p.log| - 1;
            PutAll(p, s) == Page(p.cols, p.log[n := s + p.log[n][|s|..]], |s|)
    decreases |s|
  {
    var n := |p.log| - 1;
    if s == [] {
      assert s + p.log[n][|s|..] == p.log[n];
    } else {
      var i := |s| - 1;
      TypeShort(p, s[..i]);
      assert (s[..i] + p.log[n][i..])[i := s[i]] == s + p.log[n][|s|..];
    }
  }

  predicate Printed(l: Line) {
    forall j :: 0 <= j < |l| ==> Plain(l[j]) && l[j] != '\0'
  }

  /** `p` with `lines` typed in place of its current line, and a blank line begun after them. */
  function Typed(p: Page, lines: seq<Line>): Page
    requires p.log != []
  {
    Page(p.cols, p.log[..|p.log| - 1] + lines + [Blank(p.cols)], 0)
  }

  lemma TypedMore(p: Page, lines: seq<Line>, l: Line)
    requires p.log != []
    ensures Typed(Typed(p, lines), [l]) == Typed(p, lines + [l])
  {
    var a := p.log[..|p.log| - 1];
    assert (a + lines + [Blank(p.cols)])[..|a + lines|] == a + lines;
    assert a + lines + [l] == a + (lines + [l]);
  }

  lemma SetLast(log: seq<Line>, l: Line)
    requires log != []
    ensures log[|log| - 1 := l] == log[..|log| - 1] + [l]
  {
  }

  lemma SplitLast(l: Line)
    requires l != []
    ensures l == l[..|l| - 1] + [l[|l| - 1]]
  {
  }

  /** What was trimmed off a line is what a blank line has there. */
  lemma Untrim(l: Line, blank: Line)
    requires |blank| == |l| && BlankFrom(blank, 0)
    ensures Trim(l) + blank[|Trim(l)|..] == l
  {
  }

  lemma ClipMore(lines: seq<Line>, l: Line)
    ensures Clip(lines + [l]) == Clip(lines) + (Trim(l) + ['\n'])
  {
    assert (lines + [l])[..|lines|] == lines;
    assert (Clip(lines) + Trim(l)) + ['\n'] == Clip(lines) + (Trim(l) + ['\n']);
  }

  lemma {:induction false} ClipLonger(lines: seq<Line>, n: nat)
    requires n < |lines|
    ensures |Clip(lines[..n])| + |Trim(lines[n])| + 1 <= |Clip(lines)|
    decreases |lines|
  {
    var m := |lines| - 1;
    assert lines == lines[..m] + [lines[m]];
    ClipMore(lines[..m], lines[m]);
    if n >= m {
    } else {
      ClipLonger(lines[..m], n);
      assert lines[..m][..n] == lines[..n];
    }
  }

  lemma ThenNewLine(p: Page, s: string)
    requires Sound(p)
    ensures PutAll(p, s + ['\n']) == NewLine(PutAll(p, s))
  {
    PutAllSplit(p, s, ['\n']);
    assert ['\n'][..0] == [];
  }

  lemma PasteShort(p: Page, l: Line)
    requires Sound(p) && p.cursor == 0 && |l| == p.cols && Printed(l) && |Trim(l)| < p.cols
    ensures PutAll(p, Trim(l) + ['\n']) == Typed(p, [l])
  {
    var s, n := Trim(l), |p.log| - 1;
    ThenNewLine(p, s);
    TypeShort(p, s);
    Untrim(l, p.log[n]);
    SetLast(p.log, l);
  }

  lemma PasteFull(p: Page, l: Line)
    requires Sound(p) && p.cursor == 0 && |l| == p.cols && Printed(l) && Trim(l) == l
    ensures |PutAll(p, Trim(l) + ['\n']).log| == |p.log| + 2
  {
    var s, last := l[..p.cols - 1], l[p.cols - 1];
    ThenNewLine(p, l);
    TypeShort(p, s);
    SplitLast(l);
  }

  /** Pasting a copied line on a blank line types the same line again exactly when it has a blank at its end. */
  lemma PasteLine(p: Page, l: Line)
    requires Sound(p) && p.cursor == 0 && |l| == p.cols && Printed(l)
    ensures PutAll(p, Trim(l) + ['\n']) == Typed(p, [l]) <==> l[p.cols - 1] == ' '
  {
    if l[p.cols - 1] == ' ' {
      PasteShort(p, l);
    } else {
      PasteFull(p, l);
    }
  }

  /** A full line of two characters is pasted as that line and an empty one. */
  lemma PasteOfFullLine()
    ensures PutAll(Fresh(2), Trim(['a', 'b']) + ['\n']) == Page(2, [['a', 'b'], Blank(2), Blank(2)], 0)
    ensures PutAll(Fresh(2), Trim(['a', 'b']) + ['\n']) != Typed(Fresh(2), [['a', 'b']])
  {
    var p, l: Line := Fresh(2), ['a', 'b'];
    assert Trim(l) == l;
    PasteLine(p, l);
    PutMore(p, l, '\n');
    PutMore(p, ['a'], 'b');
    PutMore(p, [], 'a');
    assert [] + ['a'] == ['a'] && ['a'] + ['b'] == l;
    FullLine();
  }

  ghost predicate Pasteable(cols: nat, l: Line) {
    |l| == cols > 0 && Printed(l) && l[cols - 1] == ' '
  }

  /** Pasting the whole clipboard on a blank line types all the copied lines again. */
  lemma {:induction false} PasteAll(p: Page, lines: seq<Line>)
    requires Sound(p) && p.cursor == 0
    requires forall i :: 0 <= i < |lines| ==> Pasteable(p.cols, lines[i])
    ensures PutAll(p, Clip(lines)) == Typed(p, lines)
    decreases |lines|
  {
    var n := |p.log| - 1;
    if lines == [] {
      assert p.log[n] == Blank(p.cols);
      assert p.log[..n] + lines + [Blank(p.cols)] == p.log;
    } else {
      var i := |lines| - 1;
      PasteAll(p, lines[..i]);
      PasteOneMore(p, lines[..i], lines[i]);
      assert lines == lines[..i] + [lines[i]];
    }
  }

  lemma PasteOneMore(p: Page, lines: seq<Line>, l: Line)
    requires Sound(p) && p.cursor == 0 && Pasteable(p.cols, l) && PutAll(p, Clip(lines)) == Typed(p, lines)
    ensures PutAll(p, Clip(lines + [l])) == Typed(p, lines + [l])
  {
    var s, t, q := Clip(lines), Trim(l) + ['\n'], Typed(p, lines);
    assert PutAll(q, t) == Typed(q, [l]) by {
      PasteLine(q, l);
    }
    assert PutAll(p, s + t) == PutAll(q, t) by {
      PutAllSplit(p, s, t);
    }
    ClipMore(lines, l);
    TypedMore(p, lines, l);
  }

  // ----- The terminal -----

  /** Which line of the log slot `i` of the ring holds, a negative one standing for a blank slot. */
  ghost function Owner(base: nat, head: nat, total: nat, i: nat): int {
    if i <= head then base + i else base + i - total
  }

  /** Where the view is after `added` more lines. */
  function OffsetAfter(offset: nat, added: int): int {
    if offset == 0 then 0 else if offset + added <= SCROLLBACK then offset + added else SCROLLBACK
  }

  /** Where a string ends: at its first NUL. */
  function End(s: string): (n: nat)
    ensures n <= |s| && (n < |s| ==> s[n] == '\0') && forall i :: 0 <= i < n ==> s[i] != '\0'
  {
    if s == [] || s[0] == '\0' then 0 else 1 + End(s[1..])
  }

  /** How many characters fit, at least one. */
  function Cells(size: int, font: nat): nat
    requires font > 0
  {
    if size < font then 1 else size / font
  }

  /** As many characters as have room, and one where none has. */
  lemma CellsFit(size: int, font: nat)
    requires font > 0
    ensures size < font ==> Cells(size, font) == 1
    ensures size >= font ==> Cells(size, font) * font <= size < (Cells(size, font) + 1) * font
  {
    if size >= font {
      var q, r := Arith.DivMod(size, font);
      Arith.Distribute(q, 1, font);
    }
  }

  class Terminal {
    /** The cells, or nothing when memory ran out. */
    var cells: array2?<char>
    var cols: nat
    var rows: nat
    var total: nat
    var cursorX: nat
    var lineHead: nat
    var lineCount: nat
    var viewOffset: nat
    var clipboard: array?<char>
    var clipboardLen: nat
    /** The unbounded log, and the number of its lines up to the last time the ring came round. */
    ghost var page: Page
    ghost var base: nat

    predicate Sized()
      reads this
    {
      cols > 0 && rows > 0 && total == rows + SCROLLBACK && 0 < lineCount <= total && viewOffset <= MaxOffset()
    }

    /** `terminal_max_offset`. */
    function MaxOffset(): nat
      reads this
    {
      if lineCount < rows then 0 else if lineCount - rows > total then total else lineCount - rows
    }

    ghost predicate RowIs(i: nat, l: Line)
      requires cells != null && i < cells.Length0
      reads this, cells
    {
      |l| == cells.Length1 && forall j :: 0 <= j < cells.Length1 ==> cells[i, j] == l[j]
    }

    /** The counters agree with the log: the ring has come round a whole number of times. */
    ghost predicate Counted()
      reads this
    {
      && Sound(page) && page.cols == cols && page.cursor == cursorX
      && lineCount == Min(|page.log|, total) && lineHead < total && base + lineHead + 1 == |page.log|
      && base % total == 0
    }

    /** Every slot holds the line of the log it should. */
    ghost predicate Filled()
      requires cells != null && cells.Length0 == total
      reads this, cells
    {
      forall i {:trigger Owner(base, lineHead, total, i)} :: 0 <= i < total ==>
        RowIs(i, LineAt(cols, page.log, Owner(base, lineHead, total, i)))
    }

    ghost predicate Valid()
      reads this, cells
    {
      && Sized()
      && (cells != null ==> cells.Length0 == total && cells.Length1 == cols && Counted() && Filled())
    }

    /** What the screen should show. */
    ghost function View(): seq<Line>
      reads this
    {
      Visible(cols, page.log, rows, viewOffset)
    }

    /** `terminal_line_index`. */
    method LineIndex(line: int) returns (i: nat)
      requires total > 0
      ensures i < total && (0 <= line < total ==> i == line) && (0 - total <= line < 0 ==> i == line + total)
      ensures exists q: int :: line == q * total + i
    {
      var n := line;
      ghost var q := 0;
      while n < 0
        invariant n == line - q * total && n < total + (if line < 0 then 0 else line)
        invariant line >= 0 ==> n == line
        invariant 0 - total <= line < 0 ==> n == line || n == line + total
      {
        n, q := n + total, q - 1;
      }
      i := n % total;
      if n < total {
        Arith.DivUnique(n, 0, n, total);
      }
      ghost var d := n / total;
      assert line == (q + d) * total + i;
    }

    /** `terminal_init`. */
    constructor (w: int, h: int, memory: bool)
      ensures Valid() && cols == Cells(w, FONT_WIDTH) && rows == Cells(h, FONT_HEIGHT)
      ensures cells != null <==> memory
      ensures cells != null ==> page == Fresh(cols) && fresh(cells)
    {
      cells := null;
      cols, rows, total, cursorX, lineHead, lineCount, viewOffset := 0, 0, 0, 0, 0, 0, 0;
      clipboard, clipboardLen := null, 0;
      new;
      AllocCells(Cells(w, FONT_WIDTH), Cells(h, FONT_HEIGHT), memory);
    }

    /** `terminal_alloc_cells`, when the size has changed or there are no cells. */
    method AllocCells(c: nat, r: nat, memory: bool)
      requires c > 0 && r > 0
      modifies this
      ensures Valid() && cols == c && rows == r && viewOffset == 0
      ensures (cells != null <==> memory) && (cells != null ==> page == Fresh(c) && fresh(cells))
      ensures clipboard == old(clipboard) && clipboardLen == old(clipboardLen)
    {
      cols, rows, total := c, r, r + SCROLLBACK;
      if memory {
        cells := BlankCells(r + SCROLLBACK, c);
      } else {
        cells := null;
      }
      cursorX, lineHead, lineCount, viewOffset := 0, 0, 1, 0;
      page, base := Fresh(c), 0;
    }

    static method BlankCells(r: nat, c: nat) returns (a: array2<char>)
      ensures fresh(a) && a.Length0 == r && a.Length1 == c && forall i, j :: 0 <= i < r && 0 <= j < c ==> a[i, j] == ' '
    {
      a := new char[r, c]((i, j) => ' ');
    }

    /** `terminal_clear_line`. */
    method ClearRow(i: nat)
      requires cells != null && i < cells.Length0
      modifies cells
      ensures RowIs(i, Blank(cells.Length1))
      ensures forall r, j :: 0 <= r < cells.Length0 && r != i && 0 <= j < cells.Length1 ==> cells[r, j] == old(cells[r, j])
    {
      for j := 0 to cells.Length1
        invariant forall k :: 0 <= k < j ==> cells[i, k] == ' '
        invariant forall r, k :: 0 <= r < cells.Length0 && r != i && 0 <= k < cells.Length1 ==> cells[r, k] == old(cells[r, k])
      {
        cells[i, j] := ' ';
      }
    }

    /** Where the ring stands after one more line. */
    ghost function NextBase(): nat
      requires total > 0
      reads this
    {
      if lineHead + 1 < total then base else base + total
    }

    /** What slot `i` is to hold after one more line. */
    ghost predicate NewSlot(after: Page, next: nat, i: nat)
      reads this
    {
      var head := if lineHead + 1 < total then lineHead + 1 else 0;
      LineAt(cols, after.log, Owner(next, head, total, i)) ==
      if i == head then Blank(cols) else LineAt(cols, page.log, Owner(base, lineHead, total, i))
    }

    ghost predicate Kept(c: nat, r: nat, clip: array?<char>, clipLen: nat)
      reads this
    {
      cols == c && rows == r && clipboard == clip && clipboardLen == clipLen
    }

    /** A new line goes to the slot of the oldest one; every other slot keeps its line. */
    lemma NextOwner(i: nat)
      requires lineHead < total && i < total && base + lineHead + 1 == |page.log|
      ensures var head := if lineHead + 1 < total then lineHead + 1 else 0;
              var k := Owner(NextBase(), head, total, i);
              if i == head then k == |page.log|
              else k == Owner(base, lineHead, total, i) && LineAt(cols, NewLine(page).log, k) == LineAt(cols, page.log, k)
    {
    }

    /** Where the view is after one more line: scrolled back it moves along, as far as the ring reaches. */
    ghost function NextOffset(): int
      reads this
    {
      OffsetAfter(viewOffset, 1)
    }

    ghost predicate Ring()
      reads this, cells
    {
      && cells != null && cells.Length0 == total > 0 && cells.Length1 == cols && Filled()
      && Lined(cols, page.log) && page.cols == cols && lineHead < total && base + lineHead + 1 == |page.log| && base % total == 0
    }

    method NextHead() returns (h: nat)
      requires lineHead < total
      ensures h == if lineHead + 1 < total then lineHead + 1 else 0
    {
      h := (lineHead + 1) % total;
      if lineHead + 1 < total {
        Arith.DivUnique(lineHead + 1, 0, lineHead + 1, total);
      } else {
        Arith.DivUnique(total, 1, 0, total);
      }
    }

    /** The head moves to the next slot, which is cleared. */
    method TurnRing()
      requires Ring()
      modifies `lineHead, `page, `base, cells
      ensures Ring() && page == NewLine(old(page))
    {
      ghost var after, next := NewLine(page), NextBase();
      forall i: nat | i < total
        ensures NewSlot(after, next, i)
      {
        NextOwner(i);
      }
      Arith.DivAdd(base, 1, total);
      var head := NextHead();
      ClearRow(head);
      assert forall i: nat :: i < total ==> NewSlot(after, next, i);
      ghost var oldHead, oldBase, oldPage := lineHead, base, page;
      lineHead, page, base := head, after, next;
      forall i | 0 <= i < total
        ensures RowIs(i, LineAt(cols, page.log, Owner(base, lineHead, total, i)))
      {
        assert old(NewSlot(after, next, i));
        if i != head {
          assert old(RowIs(i, LineAt(cols, oldPage.log, Owner(oldBase, oldHead, total, i))));
        }
      }
    }

    /** The end of a line, typed or reached. */
    method Advance()
      requires Sized() && Ring() && lineCount == Min(|page.log|, total)
      modifies this, cells
      ensures Valid() && cells == old(cells) && Kept(old(cols), old(rows), old(clipboard), old(clipboardLen))
      ensures page == NewLine(old(page)) && viewOffset == old(NextOffset())
    {
      cursorX := 0;
      TurnRing();
      if lineCount < total {
        lineCount := lineCount + 1;
      }
      if viewOffset > 0 {
        viewOffset := viewOffset + 1;
        var max := MaxOffset();
        if viewOffset > max {
          viewOffset := max;
        }
      }
    }

    /** One cell of the current line is written. */
    method Write(j: nat, c: char)
      requires Ring() && j < cols
      modifies `page, cells
      ensures Ring() && page == old(page).(log := Set(cols, old(page).log, j, c))
    {
      var row := LineIndex(lineHead);
      cells[row, j] := c;
      ghost var last := |page.log| - 1;
      page := page.(log := Set(cols, page.log, j, c));
      forall i | 0 <= i < total
        ensures RowIs(i, LineAt(cols, page.log, Owner(base, lineHead, total, i)))
      {
        ghost var k := Owner(base, lineHead, total, i);
        assert old(RowIs(i, LineAt(cols, page.log, k)));
        assert i == lineHead <==> k == last;
      }
    }

    /** `terminal_putc`. */
    method Putc(c: char)
      requires Valid()
      modifies this, cells
      ensures Valid() && cells == old(cells) && Kept(old(cols), old(rows), old(clipboard), old(clipboardLen))
      ensures cells != null ==> page == Put(old(page), c)
      ensures cells != null ==> viewOffset == if |page.log| > old(|page.log|) then old(NextOffset()) else old(viewOffset)
    {
      if cells == null {
        return;
      }
      if c == '\n' {
        Advance();
        return;
      }
      if c == BACKSPACE {
        if cursorX > 0 {
          cursorX := cursorX - 1;
          Write(cursorX, ' ');
          page := page.(cursor := cursorX);
        }
        return;
      }
      Write(cursorX, c);
      cursorX := cursorX + 1;
      page := page.(cursor := cursorX);
      if cursorX >= cols {
        Advance();
      }
    }

    /** One more character of a text. */
    method Step(c: char, ghost start: Page, ghost done: string)
      requires Valid() && (cells != null ==> Sound(start) && page == PutAll(start, done))
      modifies this, cells
      ensures Valid() && cells == old(cells) && Kept(old(cols), old(rows), old(clipboard), old(clipboardLen))
      ensures cells != null ==> page == PutAll(start, done + [c]) && old(|page.log|) <= |page.log| <= old(|page.log|) + 1
      ensures cells != null ==> viewOffset == OffsetAfter(old(viewOffset), |page.log| - old(|page.log|))
    {
      if cells != null {
        PutMore(start, done, c);
      }
      Putc(c);
    }

    /**
     * `terminal_print`. Scrolled back, the screen shows the same text until the view is as far back as
     * the ring reaches; from there on it is carried along.
     */
    method Print(s: string)
      requires Valid()
      modifies this, cells
      ensures Valid() && cells == old(cells) && Kept(old(cols), old(rows), old(clipboard), old(clipboardLen))
      ensures cells != null ==> page == PutAll(old(page), s[..End(s)])
      ensures cells != null ==> viewOffset == OffsetAfter(old(viewOffset), |page.log| - |old(page).log|)
      ensures cells != null && 0 < old(viewOffset) && old(viewOffset) + |page.log| - |old(page).log| <= SCROLLBACK ==>
                View() == old(View())
    {
      ghost var p, offset := page, viewOffset;
      PrintAll(s, p);
      if cells != null && 0 < offset {
        ViewStays(p, s[..End(s)], rows, offset);
      }
    }

    /** The characters, one after the other. */
    method PrintAll(s: string, ghost p: Page)
      requires Valid() && p == page
      modifies this, cells
      ensures Valid() && cells == old(cells) && Kept(old(cols), old(rows), old(clipboard), old(clipboardLen))
      ensures cells != null ==> page == PutAll(p, s[..End(s)])
      ensures cells != null ==> viewOffset == OffsetAfter(old(viewOffset), |page.log| - |p.log|)
    {
      var i := 0;
      while i < |s| && s[i] != '\0'
        invariant i <= End(s)
        invariant Valid() && cells == old(cells) && Kept(old(cols), old(rows), old(clipboard), old(clipboardLen))
        invariant cells != null ==> page == PutAll(p, s[..i])
        invariant cells != null ==> viewOffset == OffsetAfter(old(viewOffset), |page.log| - |p.log|)
      {
        Step(s[i], p, s[..i]);
        assert s[..i + 1] == s[..i] + [s[i]];
        i := i + 1;
      }
    }

    /** `terminal_scroll_up` and `terminal_scroll_down`: one line, within the lines that are kept. */
    method ScrollUp()
      requires Valid()
      modifies `viewOffset
      ensures Valid() && viewOffset == if old(viewOffset) < MaxOffset() then old(viewOffset) + 1 else old(viewOffset)
    {
      if viewOffset < MaxOffset() {
        viewOffset := viewOffset + 1;
      }
    }

    method ScrollDown()
      requires Valid()
      modifies `viewOffset
      ensures Valid() && viewOffset == if old(viewOffset) > 0 then old(viewOffset) - 1 else 0
    {
      if viewOffset > 0 {
        viewOffset := viewOffset - 1;
      }
    }

    /** `terminal_clear`. */
    method Clear()
      requires Valid()
      modifies this, cells
      ensures Valid() && cells == old(cells) && (cells != null ==> page == Fresh(cols) && viewOffset == 0)
      ensures cells == null ==> unchanged(this)
    {
      if cells == null {
        return;
      }
      for i := 0 to total
        invariant unchanged(this)
        invariant forall k, j :: 0 <= k < i && 0 <= j < cols ==> cells[k, j] == ' '
      {
        for j := 0 to cols
          invariant unchanged(this)
          invariant forall k, l :: 0 <= k < i && 0 <= l < cols ==> cells[k, l] == ' '
          invariant forall l :: 0 <= l < j ==> cells[i, l] == ' '
        {
          cells[i, j] := ' ';
        }
      }
      cursorX, lineHead, lineCount, viewOffset := 0, 0, 1, 0;
      page, base := Fresh(cols), 0;
    }

    /** `terminal_set_bounds`: the log is kept if and only if the size in characters is the same. */
    method SetBounds(w: int, h: int, memory: bool)
      requires Valid()
      modifies this
      ensures Valid() && cols == Cells(w, FONT_WIDTH) && rows == Cells(h, FONT_HEIGHT)
      ensures old(cells) != null && cols == old(cols) && rows == old(rows) ==> unchanged(this)
      ensures !(old(cells) != null && cols == old(cols) && rows == old(rows)) ==>
                (cells != null <==> memory) && (cells != null ==> page == Fresh(cols) && fresh(cells))
    {
      var c, r := Cells(w, FONT_WIDTH), Cells(h, FONT_HEIGHT);
      if c == cols && r == rows && cells != null {
        return;
      }
      AllocCells(c, r, memory);
    }

    /** The slot shown on row `row` of the screen. */
    method Shown(row: nat) returns (i: nat)
      requires Valid() && cells != null && row < rows
      ensures i < cells.Length0 && RowIs(i, View()[row])
    {
      var top := lineHead - (rows - 1) - viewOffset;
      i := LineIndex(top + row);
      assert Owner(base, lineHead, total, i) == |page.log| - rows - viewOffset + row;
    }

    /** The characters `terminal_render` draws, row by row. */
    method Render() returns (screen: seq<Line>)
      requires Valid()
      ensures screen == if cells == null then [] else View()
    {
      screen := [];
      if cells == null {
        return;
      }
      for row := 0 to rows
        invariant screen == View()[..row]
      {
        var i := Shown(row);
        var line := seq(cols, j requires 0 <= j < cols && Valid() && cells != null && i < cells.Length0 reads this, cells => cells[i, j]);
        assert line == View()[row];
        screen := screen + [line];
      }
    }

    /** The line of the log with number `k` is in slot `k` modulo the size of the ring, as long as it is kept. */
    lemma RingPosition(k: nat)
      requires Valid() && cells != null && |page.log| - lineCount <= k < |page.log|
      ensures RowIs(k % total, page.log[k])
    {
      var q, _ := Arith.DivMod(base, total);
      if k >= base {
        Arith.DivUnique(k, q, k - base, total);
        assert Owner(base, lineHead, total, k - base) == k;
      } else {
        Arith.Distribute(q - 1, 1, total);
        Arith.DivUnique(k, q - 1, k - base + total, total);
        assert Owner(base, lineHead, total, k - base + total) == k;
      }
    }

    /** How much of a row is left without the blanks at its end. */
    method RowEnd(i: nat, ghost l: Line) returns (end: nat)
      requires cells != null && i < cells.Length0 && cells.Length1 == cols && RowIs(i, l)
      ensures end == |Trim(l)| <= cols
    {
      end := cols;
      while end > 0 && cells[i, end - 1] == ' '
        invariant end <= cols && TrimTo(l, end) == TrimTo(l, cols)
      {
        end := end - 1;
      }
    }

    /** The first pass of `terminal_copy_visible`: how long the text is. */
    method Measure() returns (needed: nat)
      requires Valid() && cells != null
      ensures needed == |Clip(View())|
    {
      needed := 0;
      ghost var lines := View();
      for row := 0 to rows
        invariant needed == |Clip(lines[..row])|
      {
        var i := Shown(row);
        var end := RowEnd(i, lines[row]);
        assert lines[..row + 1] == lines[..row] + [lines[row]];
        ClipMore(lines[..row], lines[row]);
        needed := needed + end + 1;
      }
      assert lines[..rows] == lines;
    }

    /** One row of the second pass. */
    method CopyRow(row: nat, pos: nat, ghost text: string) returns (p: nat)
      requires Valid() && cells != null && row < rows && clipboard != null && pos == |text|
      requires pos + |Trim(View()[row])| + 1 <= clipboard.Length && clipboard[..pos] == text
      modifies clipboard
      ensures p == pos + |Trim(View()[row])| + 1 && clipboard[..p] == text + (Trim(View()[row]) + ['\n'])
    {
      ghost var l := View()[row];
      var i := Shown(row);
      var end := RowEnd(i, l);
      p := pos;
      for col := 0 to end
        invariant p == pos + col && clipboard[..p] == text + l[..col] && RowIs(i, l)
      {
        clipboard[p] := cells[i, col];
        p := p + 1;
      }
      assert l[..end] == Trim(l);
      clipboard[p] := '\n';
      p := p + 1;
    }

    /** `terminal_copy_visible`: the text on the screen, each line without the blanks at its end. */
    method CopyVisible(memory: bool)
      requires Valid()
      modifies `clipboard, `clipboardLen
      ensures Valid() && (cells == null ==> unchanged(this))
      ensures cells != null ==> (clipboard != null <==> memory)
      ensures cells != null && memory ==>
                && fresh(clipboard) && clipboardLen + 1 == clipboard.Length && clipboard[clipboardLen] == '\0'
                && clipboard[..clipboardLen] == Clip(View())
    {
      if cells == null {
        return;
      }
      var needed := Measure();
      clipboard := null;
      if !memory {
        return;
      }
      var clip := new char[needed + 1];
      clipboard := clip;
      FillClipboard(needed);
    }

    method FillClipboard(needed: nat)
      requires Valid() && cells != null && needed == |Clip(View())| && clipboard != null && clipboard.Length == needed + 1
      modifies `clipboardLen, clipboard
      ensures Valid() && clipboardLen == needed && clipboard[needed] == '\0' && clipboard[..needed] == Clip(View())
    {
      var pos := CopyRows(needed, View());
      clipboard[pos] := '\0';
      clipboardLen := pos;
    }

    method CopyRows(needed: nat, ghost lines: seq<Line>) returns (pos: nat)
      requires Valid() && cells != null && lines == View() && needed == |Clip(lines)|
      requires clipboard != null && clipboard.Length == needed + 1
      modifies clipboard
      ensures pos == needed && clipboard[..pos] == Clip(lines)
    {
      pos := 0;
      for row := 0 to rows
        invariant pos == |Clip(lines[..row])| <= needed && clipboard[..pos] == Clip(lines[..row])
      {
        ClipLonger(lines, row);
        ClipMore(lines[..row], lines[row]);
        assert lines[..row + 1] == lines[..row] + [lines[row]];
        pos := CopyRow(row, pos, Clip(lines[..row]));
      }
      assert lines[..rows] == lines;
    }

    /** `terminal_paste`. */
    method Paste()
      requires Valid() && (clipboard != null ==> clipboardLen <= clipboard.Length)
      modifies this, cells
      ensures Valid() && cells == old(cells)
      ensures cells != null ==>
                page == if old(clipboard) == null then old(page)
                        else PutAll(old(page), old(clipboard[..End(clipboard[..clipboardLen])]))
    {
      if clipboard == null || clipboardLen == 0 {
        return;
      }
      var text := clipboard[..clipboardLen];
      assert text[..End(text)] == clipboard[..End(text)];
      Print(text);
    }

    /** Copying the screen and pasting it at the start of a line types every line of it again. */
    method CopyAndPaste()
      requires Valid() && cells != null && cursorX == 0
      requires forall i :: 0 <= i < rows ==> Pasteable(cols, View()[i])
      modifies this, cells
      ensures Valid() && page == Typed(old(page), old(View()))
    {
      ghost var lines := View();
      CopyVisible(true);
      ClipPrinted(cols, lines);
      assert clipboard[..clipboardLen] == Clip(lines);
      Paste();
      PasteAll(old(page), lines);
    }

    /** Any use of the terminal: typing and scrolling in any order. */
    method Use(actions: seq<Action>)
      requires Valid()
      modifies this, cells
      ensures Valid() && cells == old(cells)
      ensures cells != null ==> page == PutAll(old(page), Keys(actions))
    {
      for i := 0 to |actions|
        invariant Valid() && cells == old(cells)
        invariant cells != null ==> page == PutAll(old(page), Keys(actions[..i]))
      {
        KeysMore(actions, i);
        match actions[i]
        case Type(c) => Step(c, old(page), Keys(actions[..i]));
        case Up => ScrollUp();
        case Down => ScrollDown();
      }
      assert actions[..|actions|] == actions;
    }
  }

  datatype Action = Type(c: char) | Up | Down

  function Keys(actions: seq<Action>): string {
    if actions == [] then [] else
    var n := |actions| - 1;
    Keys(actions[..n]) + (if actions[n].Type? then [actions[n].c] else [])
  }

  lemma KeysMore(actions: seq<Action>, i: nat)
    requires i < |actions|
    ensures Keys(actions[..i + 1]) == if actions[i].Type? then Keys(actions[..i]) + [actions[i].c] else Keys(actions[..i])
  {
    assert actions[..i + 1][..i] == actions[..i];
  }

  lemma {:induction false} ClipPrinted(cols: nat, lines: seq<Line>)
    requires forall i :: 0 <= i < |lines| ==> Pasteable(cols, lines[i])
    ensures End(Clip(lines)) == |Clip(lines)|
    decreases |lines|
  {
    if lines == [] {
    } else {
      var n := |lines| - 1;
      ClipPrinted(cols, lines[..n]);
      EndLater(Clip(lines[..n]), Trim(lines[n]) + ['\n']);
      ClipMore(lines[..n], lines[n]);
      assert lines == lines[..n] + [lines[n]];
    }
  }

  lemma EndLater(s: string, t: string)
    requires End(s) == |s| && '\0' !in t
    ensures End(s + t) == |s + t|
  {
    assert forall i :: 0 <= i < |s + t| ==> (s + t)[i] != '\0';
  }
}
