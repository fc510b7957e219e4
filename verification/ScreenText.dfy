/** What printed text looks like: single characters, positions, and whole lines on the screen, in plain numbers. */
module ScreenText {
  import opened Words
  import opened Screen

  // ----- One character -----

  lemma KprintOne(c: Console, ch: u8)
    ensures Kprint(c, [ch]) == Put(c, ch)
  {
    KprintIsPutAll(c, [ch]);
    assert PutAll(c, [ch]) == PutAll(Put(c, ch), []);
  }

  /** A newline moves the cursor to the start of the next row and writes nothing. In the last row it moves
      all rows up by one, makes the last one blank, and moves the cursor to its start. */
  lemma NewlineStartsRow(c: Console, row: nat)
    requires row < 25 && 160 * row <= GetCursor(c) < 160 * row + 160
    ensures var d := Kprint(c, [10]);
            && GetCursor(d) == 160 * (if row < 24 then row + 1 else 24)
            && (row < 24 ==> d.video == c.video)
            && (row == 24 ==> (forall k | 0 <= k < 3840 :: d.video[k] == c.video[k + 160])
                              && (forall k | 3840 <= k < 4000 :: d.video[k] == 0))
  {
    KprintOne(c, 10);
    PutOnScreen(c, 10);
    RowIs(GetCursor(c), row);
    hide Put, GetCursor, GetOffsetRow;
  }

  /** A backspace makes the cell at the cursor a white space on black and leaves the rest alone. */
  lemma BackspaceBlanks(c: Console)
    requires GetCursor(c) < 4000
    ensures var d := Kprint(c, [8]);
            && GetCursor(d) == GetCursor(c)
            && forall k | 0 <= k < 4000 :: d.video[k] ==
                 if k == GetCursor(c) then 32 else if k == GetCursor(c) + 1 then 0x0F else c.video[k]
  {
    KprintOne(c, 8);
    PutOnScreen(c, 8);
    hide Put;
  }

  /** Any other character takes the cell at the cursor, white on black, and the cursor moves on by a cell. Behind
      the last cell all rows move up by one. */
  lemma CharacterStands(c: Console, ch: u8)
    requires GetCursor(c) < 4000 && ch != 8 && ch != 10
    ensures var d, at := Kprint(c, [ch]), GetCursor(c);
            var put := c.video[at := ch][at + 1 := 0x0F];
            if at < 3998 then d.video == put && GetCursor(d) == at + 2
            else
              && GetCursor(d) == 3840
              && (forall k | 0 <= k < 3840 :: d.video[k] == put[k + 160])
              && (forall k | 3840 <= k < 4000 :: d.video[k] == 0)
  {
    KprintOne(c, ch);
    PutOnScreen(c, ch);
    hide Put;
  }

  /** Clearing makes every cell a white space on black and homes the cursor. */
  lemma ClearedIsBlank(c: Console)
    ensures var d := ClearScreen(c);
            && GetCursor(d) == 0
            && forall k | 0 <= k < 2000 :: d.video[2 * k] == 32 && d.video[2 * k + 1] == 0x0F
  {
    CursorRoundTrip(c.(video := ClearScreen(c).video), 0);
  }

  // ----- Printing at a position -----

  lemma OffsetParts(at: nat)
    requires at % 2 == 0
    ensures GetOffsetRow(at) == at / 160 && GetOffsetCol(at) == at % 160 / 2
  {
  }

  lemma PositionParts(col: nat, row: nat)
    requires col < 80 && row < 25
    ensures GetOffsetRow(160 * row + 2 * col) == row && GetOffsetCol(160 * row + 2 * col) == col
  {
    RowIs(160 * row + 2 * col, row);
    hide GetOffsetRow;
  }

  lemma CursorSet(c: Console, offset: nat)
    requires offset % 2 == 0 && offset < 4000
    ensures GetCursor(SetCursor(c, offset)) == offset && SetCursor(c, offset).video == c.video
  {
    CursorRoundTrip(c, offset);
  }

  /** The cursor registers do not matter to a character printed at a position. */
  lemma SameFrom(c: Console, d: Console, message: seq<u8>, col: nat, row: nat)
    requires message != [] && col < 80 && row < 25 && d.video == c.video
    ensures PrintFrom(c, message, col, row) == PrintFrom(d, message, col, row)
  {
    assert PrintChar(c, message[0], col, row, WHITE_ON_BLACK) == PrintChar(d, message[0], col, row, WHITE_ON_BLACK);
  }

  /** A message printed at a column and a row of the screen is printed as from a cursor there. */
  lemma PrintsAtPosition(c: Console, message: seq<u8>, col: nat, row: nat)
    requires message != [] && col < 80 && row < 25
    ensures KprintAt(c, message, col, row) == Kprint(SetCursor(c, 160 * row + 2 * col), message)
  {
    hide GetCursor, SetCursor, GetOffset, GetOffsetRow, GetOffsetCol, PrintFrom;
    var at := 160 * row + 2 * col;
    CursorSet(c, at);
    PositionParts(col, row);
    SameFrom(c, SetCursor(c, at), message, col, row);
  }

  /** A column or row off the screen costs the first character, in place of which the last cell is marked. The
      rest is printed at the cell that column and row come to, which may be off the screen again. */
  lemma OffPositionMarks(c: Console, message: seq<u8>, col: nat, row: nat)
    requires message != [] && (col >= 80 || row >= 25)
    ensures var at := 160 * row + 2 * col;
            KprintAt(c, message, col, row) ==
            KprintAt(c.(video := c.video[3998 := 69][3999 := 0xF4]), message[1..], at % 160 / 2, at / 160)
  {
    var at := 160 * row + 2 * col;
    var marked := c.(video := c.video[3998 := 69][3999 := 0xF4]);
    OffsetParts(at);
    assert PrintChar(c, message[0], col, row, WHITE_ON_BLACK) == (marked, at);
    hide GetOffsetRow, GetOffsetCol, PrintChar;
    assert PrintFrom(c, message, col, row) == PrintFrom(marked, message[1..], at % 160 / 2, at / 160);
  }

  /** The colour of a character is the attribute, and white on black if that is 0. */
  lemma AttributeColours(c: Console, ch: u8, col: nat, row: nat, attr: u8)
    requires col < 80 && row < 25 && ch != 8 && ch != 10 && !(col == 79 && row == 24)
    ensures var (d, next) := PrintChar(c, ch, col, row, attr);
            && d.video == c.video[160 * row + 2 * col := ch]
                                 [160 * row + 2 * col + 1 := if attr == 0 then 0x0F else attr]
            && GetCursor(d) == next == 160 * row + 2 * col + 2
  {
    CursorRoundTrip(c.(video := PrintChar(c, ch, col, row, attr).0.video), 160 * row + 2 * col + 2);
  }

  // ----- Lines -----

  /** Lines with a newline between each two. */
  function Joined(lines: seq<seq<u8>>): seq<u8> {
    if |lines| == 0 then []
    else if |lines| == 1 then lines[0]
    else lines[0] + [10] + Joined(lines[1..])
  }

  predicate PlainLines(lines: seq<seq<u8>>) {
    forall i | 0 <= i < |lines| :: Plain(lines[i])
  }

  /** The start of the row behind the one in which a text of len characters from pos on ends. */
  function RowAfter(pos: nat, len: nat): nat {
    ((pos + len) / 80 + 1) * 80
  }

  /** The cell in which line i begins. */
  function LineStart(pos: nat, lines: seq<seq<u8>>, i: nat): nat
    requires i < |lines|
  {
    if i == 0 then pos else RowAfter(LineStart(pos, lines, i - 1), |lines[i - 1]|)
  }

  lemma {:induction false} LineStartShift(pos: nat, lines: seq<seq<u8>>, i: nat)
    requires 0 < i < |lines|
    ensures LineStart(pos, lines, i) == LineStart(RowAfter(pos, |lines[0]|), lines[1..], i - 1)
  {
    if i > 1 {
      LineStartShift(pos, lines, i - 1);
    }
  }

  lemma {:induction false} DrawAllConcat(v: Canvas, a: seq<u8>, b: seq<u8>)
    requires ValidCanvas(v)
    ensures DrawAll(v, a + b) == DrawAll(DrawAll(v, a), b)
    decreases |a|
  {
    hide Draw;
    if a == [] {
      assert a + b == b;
    } else {
      assert (a + b)[1..] == a[1..] + b;
      DrawKeepsValid(v, a[0]);
      DrawAllConcat(Draw(v, a[0]), a[1..], b);
    }
  }

  /** What the canvas holds in cell q if nothing is drawn there. */
  function Before(v: Canvas, q: nat): Cell {
    if q < |v.cells| then v.cells[q] else Cell(0, 0)
  }

  /** A line and a newline behind it. */
  lemma LineDrawn(v: Canvas, line: seq<u8>)
    requires ValidCanvas(v) && Plain(line)
    ensures var w := DrawAll(v, line + [10]);
            && w.pos == RowAfter(v.pos, |line|) && |w.cells| >= |v.cells| && v.pos + |line| <= |w.cells|
            && (forall k | 0 <= k < |line| :: w.cells[v.pos + k] == Cell(line[k], 0x0F))
            && (forall q | 0 <= q < |w.cells| && !(v.pos <= q < v.pos + |line|) :: w.cells[q] == Before(v, q))
  {
    var u := DrawAll(v, line);
    PlainTextStands(v, line);
    DrawAllConcat(v, line, [10]);
    DrawKeepsValid(u, 10);
    assert DrawAll(u, [10]) == DrawAll(Draw(u, 10), []);
  }

  /** Cell q belongs to none of the lines. */
  ghost predicate OutsideLines(pos: nat, lines: seq<seq<u8>>, q: nat) {
    forall i | 0 <= i < |lines| :: !(LineStart(pos, lines, i) <= q < LineStart(pos, lines, i) + |lines[i]|)
  }

  /** Line i stands on the canvas from its start on. */
  ghost predicate LineStands(w: Canvas, pos: nat, lines: seq<seq<u8>>, i: nat)
    requires i < |lines|
  {
    && LineStart(pos, lines, i) + |lines[i]| <= |w.cells|
    && forall k | 0 <= k < |lines[i]| :: w.cells[LineStart(pos, lines, i) + k] == Cell(lines[i][k], 0x0F)
  }

  lemma OneLineStands(v: Canvas, lines: seq<seq<u8>>)
    requires ValidCanvas(v) && |lines| == 1 && Plain(lines[0])
    ensures var w := DrawAll(v, lines[0]);
            && w.pos == LineStart(v.pos, lines, 0) + |lines[0]| && |w.cells| >= |v.cells|
            && LineStands(w, v.pos, lines, 0)
            && (forall q | 0 <= q < |w.cells| && OutsideLines(v.pos, lines, q) :: w.cells[q] == Before(v, q))
  {
    PlainTextStands(v, lines[0]);
    assert LineStart(v.pos, lines, 0) == v.pos;
  }

  /** Lines that are drawn from a position on: the first one begins there, and every other one in column 0
      of the row behind the one before. Everything else stays as it was, and rows that are added are empty. */
  lemma {:induction false} LinesStand(v: Canvas, lines: seq<seq<u8>>)
    requires ValidCanvas(v) && PlainLines(lines) && lines != []
    ensures var w := DrawAll(v, Joined(lines));
            && w.pos == LineStart(v.pos, lines, |lines| - 1) + |lines[|lines| - 1]|
            && |w.cells| >= |v.cells|
            && (forall i | 0 <= i < |lines| :: LineStands(w, v.pos, lines, i))
            && (forall q | 0 <= q < |w.cells| && OutsideLines(v.pos, lines, q) :: w.cells[q] == Before(v, q))
    decreases |lines|
  {
    hide ValidCanvas, Plain, RowAfter, Drawn, Grown;
    if |lines| == 1 {
      OneLineStands(v, lines);
    } else {
      var u := DrawAll(v, lines[0] + [10]);
      LineDrawn(v, lines[0]);
      DrawAllConcat(v, lines[0] + [10], Joined(lines[1..]));
      LinesStand(u, lines[1..]);
      LinesAfterFirst(v, lines, u, DrawAll(u, Joined(lines[1..])));
    }
  }

  lemma LinesAfterFirst(v: Canvas, lines: seq<seq<u8>>, u: Canvas, w: Canvas)
    requires |lines| > 1 && u.pos == RowAfter(v.pos, |lines[0]|) && |v.cells| <= |u.cells| <= |w.cells|
    requires v.pos + |lines[0]| <= |u.cells|
    requires forall k | 0 <= k < |lines[0]| :: u.cells[v.pos + k] == Cell(lines[0][k], 0x0F)
    requires forall q | 0 <= q < |u.cells| && !(v.pos <= q < v.pos + |lines[0]|) :: u.cells[q] == Before(v, q)
    requires forall i | 0 <= i < |lines| - 1 :: LineStands(w, u.pos, lines[1..], i)
    requires forall q | 0 <= q < |w.cells| && OutsideLines(u.pos, lines[1..], q) :: w.cells[q] == Before(u, q)
    ensures forall i | 0 <= i < |lines| :: LineStands(w, v.pos, lines, i)
    ensures forall q | 0 <= q < |w.cells| && OutsideLines(v.pos, lines, q) :: w.cells[q] == Before(v, q)
    ensures LineStart(v.pos, lines, |lines| - 1) == LineStart(u.pos, lines[1..], |lines| - 2)
  {
    LineStartShift(v.pos, lines, |lines| - 1);
    forall i | 0 < i < |lines|
      ensures LineStands(w, v.pos, lines, i)
    {
      LineStartShift(v.pos, lines, i);
      assert LineStands(w, u.pos, lines[1..], i - 1);
    }
    forall q | v.pos <= q < v.pos + |lines[0]|
      ensures OutsideLines(u.pos, lines[1..], q)
    {
      StartsGrow(u.pos, lines[1..]);
    }
    forall q | 0 <= q < |w.cells| && OutsideLines(v.pos, lines, q)
      ensures w.cells[q] == Before(v, q)
    {
      OutsideRest(v.pos, lines, u.pos, q);
    }
  }

  lemma OutsideRest(pos: nat, lines: seq<seq<u8>>, next: nat, q: nat)
    requires |lines| > 1 && OutsideLines(pos, lines, q) && next == RowAfter(pos, |lines[0]|)
    ensures OutsideLines(next, lines[1..], q) && !(pos <= q < pos + |lines[0]|)
  {
    assert LineStart(pos, lines, 0) == pos;
    forall i | 0 <= i < |lines| - 1
      ensures !(LineStart(next, lines[1..], i) <= q < LineStart(next, lines[1..], i) + |lines[1..][i]|)
    {
      LineStartShift(pos, lines, i + 1);
      assert lines[1..][i] == lines[i + 1];
    }
  }

  lemma {:induction false} StartGrows(pos: nat, lines: seq<seq<u8>>, i: nat)
    requires i < |lines|
    ensures LineStart(pos, lines, i) >= pos
  {
    if i > 0 {
      StartGrows(pos, lines, i - 1);
    }
  }

  lemma StartsGrow(pos: nat, lines: seq<seq<u8>>)
    ensures forall i | 0 <= i < |lines| :: LineStart(pos, lines, i) >= pos
  {
    forall i | 0 <= i < |lines|
      ensures LineStart(pos, lines, i) >= pos
    {
      StartGrows(pos, lines, i);
    }
  }

  // ----- Lines on the screen -----

  function Larger(a: nat, b: nat): nat {
    if a < b then b else a
  }

  /** The canvas has no more rows than it had, or the position needs. */
  ghost predicate Tight(v: Canvas, w: Canvas) {
    v.pos <= w.pos && |w.cells| == Larger(|v.cells|, 80 * (w.pos / 80 + 1))
  }

  lemma DrawTight(v: Canvas, ch: u8)
    requires ValidCanvas(v)
    ensures Tight(v, Draw(v, ch))
  {
  }

  lemma {:induction false} DrawAllTight(v: Canvas, message: seq<u8>)
    requires ValidCanvas(v)
    ensures Tight(v, DrawAll(v, message))
    decreases |message|
  {
    hide Draw;
    if message != [] {
      DrawTight(v, message[0]);
      DrawKeepsValid(v, message[0]);
      DrawAllTight(Draw(v, message[0]), message[1..]);
    }
  }

  /** Lines shorter than a row begin in rows of their own. */
  predicate Short(lines: seq<seq<u8>>) {
    PlainLines(lines) && forall i | 0 <= i < |lines| :: |lines[i]| < 80
  }

  lemma {:induction false} ShortStart(lines: seq<seq<u8>>, i: nat)
    requires Short(lines) && i < |lines|
    ensures LineStart(0, lines, i) == 80 * i
  {
    if i > 0 {
      ShortStart(lines, i - 1);
    }
  }

  /** What the cell in column k of row i of the text shows: the character of line i, or the cleared screen, or
      a row that scrolling has added. */
  function Shown(lines: seq<seq<u8>>, i: nat, k: nat): Cell {
    if i < |lines| && k < |lines[i]| then Cell(lines[i][k], 0x0F)
    else if i < 25 then Cell(32, 0x0F) else Cell(0, 0)
  }

  lemma OutsideShort(lines: seq<seq<u8>>, i: nat, k: nat)
    requires Short(lines) && k < 80 && (i < |lines| ==> k >= |lines[i]|)
    ensures OutsideLines(0, lines, 80 * i + k)
  {
    forall j | 0 <= j < |lines|
      ensures !(LineStart(0, lines, j) <= 80 * i + k < LineStart(0, lines, j) + |lines[j]|)
    {
      ShortStart(lines, j);
    }
  }

  lemma ShownDrawn(lines: seq<seq<u8>>, i: nat, k: nat)
    requires Short(lines) && lines != [] && k < 80
    ensures var w := DrawAll(BlankCanvas(), Joined(lines));
            80 * i + k < |w.cells| ==> w.cells[80 * i + k] == Shown(lines, i, k)
  {
    hide DrawAll, Joined, OutsideLines, LineStart, Plain;
    LinesStand(BlankCanvas(), lines);
    if i < |lines| && k < |lines[i]| {
      ShortStart(lines, i);
      assert LineStands(DrawAll(BlankCanvas(), Joined(lines)), 0, lines, i);
    } else {
      OutsideShort(lines, i, k);
    }
  }

  /** Number of the first line that is still on the screen. */
  function TopLine(lines: seq<seq<u8>>): nat {
    if |lines| > 25 then |lines| - 25 else 0
  }

  /** How far the canvas reaches when the lines are drawn. */
  lemma TextReaches(lines: seq<seq<u8>>)
    requires Short(lines) && lines != []
    ensures var w := DrawAll(BlankCanvas(), Joined(lines));
            w.pos == 80 * (|lines| - 1) + |lines[|lines| - 1]| && Top(w) == 80 * TopLine(lines)
  {
    hide DrawAll, Joined, LineStands, OutsideLines, Plain;
    LinesStand(BlankCanvas(), lines);
    ShortStart(lines, |lines| - 1);
    DrawAllTight(BlankCanvas(), Joined(lines));
  }

  lemma TextIsShown(c: Console, lines: seq<seq<u8>>)
    ensures Shows(Kprint(ClearScreen(c), Joined(lines)), DrawAll(BlankCanvas(), Joined(lines)))
  {
    hide Shows, Kprint, ClearScreen, Joined, DrawAll;
    ScreenIsWindow(c, [Joined(lines)]);
    assert Flat([Joined(lines)]) == Joined(lines) + Flat([]) == Joined(lines);
    assert KprintEach(ClearScreen(c), [Joined(lines)]) == KprintEach(Kprint(ClearScreen(c), Joined(lines)), []);
  }

  /** Any number of lines shorter than a row, printed on a cleared screen with newlines between them: the last
      25 stand on the screen, each from column 0 of a row of its own, with nothing else around them, and the
      cursor stands behind the last one. */
  lemma LinesOnScreen(c: Console, lines: seq<seq<u8>>)
    requires Short(lines) && lines != []
    ensures var d := Kprint(ClearScreen(c), Joined(lines));
            && GetCursor(d) == 160 * (|lines| - 1 - TopLine(lines)) + 2 * |lines[|lines| - 1]|
            && forall r, k | 0 <= r < 25 && 0 <= k < 80 ::
                 && d.video[160 * r + 2 * k] == Shown(lines, TopLine(lines) + r, k).ch
                 && d.video[160 * r + 2 * k + 1] == Shown(lines, TopLine(lines) + r, k).attr
  {
    hide DrawAll, Joined, Shown, Kprint, ClearScreen, GetCursor, Bytes, Short;
    TextIsShown(c, lines);
    TextReaches(lines);
    forall r, k | 0 <= r < 25 && 0 <= k < 80
      ensures var d := Kprint(ClearScreen(c), Joined(lines));
              && d.video[160 * r + 2 * k] == Shown(lines, TopLine(lines) + r, k).ch
              && d.video[160 * r + 2 * k + 1] == Shown(lines, TopLine(lines) + r, k).attr
    {
      CellOnScreen(c, lines, r, k);
    }
  }

  lemma CellOnScreen(c: Console, lines: seq<seq<u8>>, r: nat, k: nat)
    requires Short(lines) && lines != [] && r < 25 && k < 80
    ensures var d, cell := Kprint(ClearScreen(c), Joined(lines)), Shown(lines, TopLine(lines) + r, k);
            d.video[160 * r + 2 * k] == cell.ch && d.video[160 * r + 2 * k + 1] == cell.attr
  {
    hide DrawAll, Joined, Shown, Kprint, ClearScreen, GetCursor, Bytes, Short, Shows, TopLine;
    TextIsShown(c, lines);
    TextReaches(lines);
    ShownDrawn(lines, TopLine(lines) + r, k);
    WindowCell(DrawAll(BlankCanvas(), Joined(lines)), Kprint(ClearScreen(c), Joined(lines)), TopLine(lines), r, k);
  }

  lemma WindowCell(w: Canvas, d: Console, top: nat, r: nat, k: nat)
    requires Shows(d, w) && Top(w) == 80 * top && r < 25 && k < 80
    ensures 80 * (top + r) + k < |w.cells|
    ensures d.video[160 * r + 2 * k] == w.cells[80 * (top + r) + k].ch
    ensures d.video[160 * r + 2 * k + 1] == w.cells[80 * (top + r) + k].attr
  {
  }
}
