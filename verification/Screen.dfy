/** The text screen: printing as functions on video memory and cursor, and an unbounded canvas
    of which the screen is shown to be the last 25 rows. */
module Screen {
  import opened Words

  const MAX_ROWS: nat := 25
  const MAX_COLS: nat := 80
  const ROW_BYTES: nat := 160
  const SIZE: nat := 4000
  const WHITE_ON_BLACK: u8 := 0x0F
  const RED_ON_WHITE: u8 := 0xF4
  const NEWLINE: u8 := 10
  const BACKSPACE: u8 := 8
  const SPACE: u8 := 32
  const LETTER_E: u8 := 69

  type Video = v: seq<u8> | |v| == SIZE ghost witness seq(SIZE, _ => 0)

  /** Video memory and the two cursor registers. */
  datatype Console = Console(video: Video, high: u8, low: u8)

  function GetOffset(col: nat, row: nat): nat {
    2 * (row * MAX_COLS + col)
  }

  function GetOffsetRow(offset: nat): nat {
    offset / (2 * MAX_COLS)
  }

  function GetOffsetCol(offset: nat): nat {
    (offset - GetOffsetRow(offset) * 2 * MAX_COLS) / 2
  }

  function GetCursor(c: Console): nat {
    2 * (0x100 * c.high + c.low)
  }

  function SetCursor(c: Console, offset: nat): Console {
    c.(high := offset / 2 / 0x100 % 0x100, low := offset / 2 % 0x100)
  }

  /** The cursor survives the two registers exactly if it is even and fits them. */
  lemma CursorRoundTrip(c: Console, offset: nat)
    ensures GetCursor(SetCursor(c, offset)) == offset <==> offset % 2 == 0 && offset < 0x2_0000
  {
  }

  lemma RowIs(offset: nat, row: nat)
    requires ROW_BYTES * row <= offset < ROW_BYTES * row + ROW_BYTES
    ensures GetOffsetRow(offset) == row
  {
  }

  lemma OffsetRoundTrip(offset: nat)
    requires offset % 2 == 0
    ensures GetOffset(GetOffsetCol(offset), GetOffsetRow(offset)) == offset
    ensures GetOffsetCol(offset) < MAX_COLS
    ensures GetOffsetRow(offset) < MAX_ROWS <==> offset < SIZE
  {
    var half := offset / 2;
    RowIs(offset, half / MAX_COLS);
    hide GetOffsetRow;
  }

  /** What one character does to the bytes around the cursor, without scrolling. */
  function Plot(bytes: seq<u8>, offset: nat, ch: u8, attr: u8): (seq<u8>, nat)
    requires offset + 1 < |bytes|
  {
    if ch == NEWLINE then (bytes, GetOffset(0, GetOffsetRow(offset) + 1))
    else if ch == BACKSPACE then (bytes[offset := SPACE][offset + 1 := attr], offset)
    else (bytes[offset := ch][offset + 1 := attr], offset + 2)
  }

  function Blank(n: nat): seq<u8> {
    seq(n, _ => 0)
  }

  /** All rows move up by one; the last one becomes blank. */
  function Scrolled(v: Video): Video {
    v[ROW_BYTES..] + Blank(ROW_BYTES)
  }

  /** print_char: the console afterwards, and the offset of the next character. */
  function PrintChar(c: Console, ch: u8, col: nat, row: nat, attr: u8): (Console, nat) {
    var color := if attr == 0 then WHITE_ON_BLACK else attr;
    if col >= MAX_COLS || row >= MAX_ROWS then
      (c.(video := c.video[SIZE - 2 := LETTER_E][SIZE - 1 := RED_ON_WHITE]), GetOffset(col, row))
    else
      var (video, offset) := Plot(c.video, GetOffset(col, row), ch, color);
      var (shown, next) := if offset >= SIZE then (Scrolled(video), offset - 2 * MAX_COLS) else (video, offset);
      (SetCursor(c.(video := shown), next), next)
  }

  /** The loop of kprint_at, which keeps the position as a column and a row. */
  function PrintFrom(c: Console, message: seq<u8>, col: nat, row: nat): Console
    decreases |message|
  {
    if message == [] then c
    else
      var (next, offset) := PrintChar(c, message[0], col, row, WHITE_ON_BLACK);
      PrintFrom(next, message[1..], GetOffsetCol(offset), GetOffsetRow(offset))
  }

  function KprintAt(c: Console, message: seq<u8>, col: int, row: int): Console {
    if col >= 0 && row >= 0 then PrintFrom(c, message, col, row)
    else PrintFrom(c, message, GetOffsetCol(GetCursor(c)), GetOffsetRow(GetCursor(c)))
  }

  function Kprint(c: Console, message: seq<u8>): Console {
    KprintAt(c, message, -1, -1)
  }

  function ClearScreen(c: Console): Console {
    SetCursor(c.(video := seq(SIZE, k => if k % 2 == 0 then SPACE else WHITE_ON_BLACK)), 0)
  }

  // ----- Printing follows the cursor registers -----

  function Put(c: Console, ch: u8): Console {
    PrintChar(c, ch, GetOffsetCol(GetCursor(c)), GetOffsetRow(GetCursor(c)), WHITE_ON_BLACK).0
  }

  function PutAll(c: Console, message: seq<u8>): Console
    decreases |message|
  {
    if message == [] then c else PutAll(Put(c, message[0]), message[1..])
  }

  predicate OnScreen(c: Console) {
    GetCursor(c) < SIZE
  }

  lemma PlotMoves(bytes: seq<u8>, offset: nat, ch: u8, attr: u8)
    requires offset % 2 == 0 && offset + 1 < |bytes|
    ensures var next := Plot(bytes, offset, ch, attr).1;
            offset <= next <= offset + ROW_BYTES && next % 2 == 0
  {
    var row := offset / 2 / MAX_COLS;
    RowIs(offset, row);
    EvenOffset(0, row + 1);
    EvenSum(offset);
    hide GetOffsetRow, GetOffset;
  }

  lemma EvenOffset(col: nat, row: nat)
    ensures GetOffset(col, row) % 2 == 0 && GetOffset(0, row) == ROW_BYTES * row
  {
  }

  lemma EvenSum(offset: nat)
    requires offset % 2 == 0
    ensures (offset + 2) % 2 == 0
  {
  }

  /** A character printed at the cursor of the screen. */
  lemma PutOnScreen(c: Console, ch: u8)
    requires OnScreen(c)
    ensures var (video, offset) := Plot(c.video, GetCursor(c), ch, WHITE_ON_BLACK);
            && Put(c, ch).video == (if offset >= SIZE then Scrolled(video) else video)
            && GetCursor(Put(c, ch)) == (if offset >= SIZE then offset - ROW_BYTES else offset)
            && offset - ROW_BYTES < SIZE
    ensures PrintChar(c, ch, GetOffsetCol(GetCursor(c)), GetOffsetRow(GetCursor(c)), WHITE_ON_BLACK).1 ==
            GetCursor(Put(c, ch))
  {
    OffsetRoundTrip(GetCursor(c));
    PlotMoves(c.video, GetCursor(c), ch, WHITE_ON_BLACK);
    var (video, offset) := Plot(c.video, GetCursor(c), ch, WHITE_ON_BLACK);
    var next := if offset >= SIZE then offset - ROW_BYTES else offset;
    CursorRoundTrip(c.(video := Put(c, ch).video), next);
    hide Plot, GetOffset, GetOffsetCol, GetOffsetRow, GetCursor, SetCursor;
  }

  /** The position kprint_at computes is always the one the registers hold, on screen or not. */
  lemma PutTracksCursor(c: Console, ch: u8)
    ensures PrintChar(c, ch, GetOffsetCol(GetCursor(c)), GetOffsetRow(GetCursor(c)), WHITE_ON_BLACK).1 ==
            GetCursor(Put(c, ch))
    ensures OnScreen(c) ==> OnScreen(Put(c, ch))
  {
    OffsetRoundTrip(GetCursor(c));
    if OnScreen(c) {
      PutOnScreen(c, ch);
    }
    hide Plot, GetOffset, GetOffsetCol, GetOffsetRow, SetCursor;
  }

  lemma {:induction false} KprintIsPutAll(c: Console, message: seq<u8>)
    ensures Kprint(c, message) == PutAll(c, message)
    decreases |message|
  {
    if message != [] {
      PutTracksCursor(c, message[0]);
      KprintIsPutAll(Put(c, message[0]), message[1..]);
    }
  }

  lemma {:induction false} PutAllConcat(c: Console, a: seq<u8>, b: seq<u8>)
    ensures PutAll(PutAll(c, a), b) == PutAll(c, a + b)
    decreases |a|
  {
    hide Put;
    if a == [] {
      assert a + b == b;
    } else {
      PutAllConcat(Put(c, a[0]), a[1..], b);
      assert (a + b)[1..] == a[1..] + b;
    }
  }

  /** Printing two messages is printing their concatenation, whatever the cursor registers hold. */
  lemma KprintConcat(c: Console, a: seq<u8>, b: seq<u8>)
    ensures Kprint(Kprint(c, a), b) == Kprint(c, a + b)
  {
    KprintIsPutAll(c, a);
    KprintIsPutAll(Kprint(c, a), b);
    KprintIsPutAll(c, a + b);
    PutAllConcat(c, a, b);
  }

  /** A cursor off the screen stays where it is, and every message marks the last cell and no other. */
  lemma {:induction false} OffScreenOnlyMarks(c: Console, message: seq<u8>)
    requires !OnScreen(c)
    ensures Kprint(c, message) ==
            if message == [] then c
            else c.(video := c.video[SIZE - 2 := LETTER_E][SIZE - 1 := RED_ON_WHITE])
    decreases |message|
  {
    if message != [] {
      var marked := c.(video := c.video[SIZE - 2 := LETTER_E][SIZE - 1 := RED_ON_WHITE]);
      OffsetRoundTrip(GetCursor(c));
      assert Put(c, message[0]) == marked;
      KprintIsPutAll(c, message);
      KprintIsPutAll(marked, message[1..]);
      OffScreenOnlyMarks(marked, message[1..]);
      assert marked.video[SIZE - 2 := LETTER_E][SIZE - 1 := RED_ON_WHITE] == marked.video;
    }
  }

  // ----- The canvas -----

  datatype Cell = Cell(ch: u8, attr: u8)

  /** An unbounded page of rows of 80 cells, and the cell that is written next. */
  datatype Canvas = Canvas(cells: seq<Cell>, pos: nat)

  ghost predicate ValidCanvas(v: Canvas) {
    && |v.cells| % MAX_COLS == 0 && |v.cells| >= MAX_ROWS * MAX_COLS
    && |v.cells| - MAX_ROWS * MAX_COLS <= v.pos < |v.cells|
  }

  /** A row is added when the position runs past the last one. */
  function Grown(v: Canvas): Canvas {
    if v.pos >= |v.cells| then v.(cells := v.cells + seq(MAX_COLS, _ => Cell(0, 0))) else v
  }

  function Drawn(v: Canvas, ch: u8): Canvas
    requires v.pos < |v.cells|
  {
    if ch == NEWLINE then v.(pos := (v.pos / MAX_COLS + 1) * MAX_COLS)
    else if ch == BACKSPACE then v.(cells := v.cells[v.pos := Cell(SPACE, WHITE_ON_BLACK)])
    else Canvas(v.cells[v.pos := Cell(ch, WHITE_ON_BLACK)], v.pos + 1)
  }

  function Draw(v: Canvas, ch: u8): Canvas
    requires v.pos < |v.cells|
  {
    Grown(Drawn(v, ch))
  }

  lemma DrawKeepsValid(v: Canvas, ch: u8)
    requires ValidCanvas(v)
    ensures ValidCanvas(Draw(v, ch))
  {
  }

  function DrawAll(v: Canvas, message: seq<u8>): (w: Canvas)
    requires ValidCanvas(v)
    ensures ValidCanvas(w)
    decreases |message|
  {
    if message == [] then v
    else
      DrawKeepsValid(v, message[0]);
      DrawAll(Draw(v, message[0]), message[1..])
  }

  /** Two bytes for each cell. */
  function Bytes(cells: seq<Cell>): (s: seq<u8>)
    ensures |s| == 2 * |cells|
  {
    seq(2 * |cells|, k requires 0 <= k < 2 * |cells| => if k % 2 == 0 then cells[k / 2].ch else cells[k / 2].attr)
  }

  ghost function Top(v: Canvas): nat
    requires ValidCanvas(v)
  {
    |v.cells| - MAX_ROWS * MAX_COLS
  }

  /** The screen shows the last 25 rows of the canvas, and its cursor. */
  ghost predicate Shows(c: Console, v: Canvas) {
    && ValidCanvas(v)
    && c.video == Bytes(v.cells[Top(v)..])
    && GetCursor(c) == 2 * (v.pos - Top(v))
  }

  lemma BytesUpdate(cells: seq<Cell>, k: nat, cell: Cell)
    requires k < |cells|
    ensures Bytes(cells[k := cell]) == Bytes(cells)[2 * k := cell.ch][2 * k + 1 := cell.attr]
  {
  }

  lemma BytesScroll(cells: seq<Cell>)
    requires |cells| >= MAX_COLS
    ensures Bytes(cells[MAX_COLS..] + seq(MAX_COLS, _ => Cell(0, 0))) == Bytes(cells)[ROW_BYTES..] + Blank(ROW_BYTES)
  {
  }

  lemma NextRow(pos: nat, top: nat)
    requires top % MAX_COLS == 0 && top <= pos
    ensures GetOffset(0, GetOffsetRow(2 * (pos - top)) + 1) == 2 * ((pos / MAX_COLS + 1) * MAX_COLS - top)
  {
    var row, above := pos / MAX_COLS, top / MAX_COLS;
    assert top == MAX_COLS * above && MAX_COLS * row <= pos < MAX_COLS * row + MAX_COLS;
    RowIs(2 * (pos - top), row - above);
    hide GetOffsetRow;
  }

  /** Plotting bytes in the window is drawing cells on the canvas. */
  lemma PlotIsDrawn(v: Canvas, ch: u8)
    requires ValidCanvas(v)
    ensures var d := Drawn(v, ch);
            && |d.cells| == |v.cells| && v.pos <= d.pos <= |v.cells|
            && Plot(Bytes(v.cells[Top(v)..]), 2 * (v.pos - Top(v)), ch, WHITE_ON_BLACK) ==
               (Bytes(d.cells[Top(v)..]), 2 * (d.pos - Top(v)))
  {
    var top := Top(v);
    NextRow(v.pos, top);
    var cell := Cell(if ch == BACKSPACE then SPACE else ch, WHITE_ON_BLACK);
    BytesUpdate(v.cells[top..], v.pos - top, cell);
    assert v.cells[v.pos := cell][top..] == v.cells[top..][v.pos - top := cell];
    hide Bytes, GetOffset, GetOffsetRow;
  }

  /** Scrolling the window is moving it down the canvas that has grown by a row. */
  lemma ScrollIsGrowth(d: Canvas, top: nat)
    requires |d.cells| == top + MAX_ROWS * MAX_COLS && top % MAX_COLS == 0 && d.pos == |d.cells|
    ensures var g := Grown(d);
            ValidCanvas(g) && Top(g) == top + MAX_COLS && Bytes(g.cells[Top(g)..]) == Scrolled(Bytes(d.cells[top..]))
  {
    var g := Grown(d);
    assert g.cells[top + MAX_COLS..] == d.cells[top..][MAX_COLS..] + seq(MAX_COLS, _ => Cell(0, 0));
    BytesScroll(d.cells[top..]);
    hide Bytes;
  }

  /** One character keeps screen and canvas in step. */
  lemma PutShowsDraw(c: Console, v: Canvas, ch: u8)
    requires Shows(c, v)
    ensures Shows(Put(c, ch), Draw(v, ch))
  {
    hide Put, Plot, Drawn, Bytes, GetCursor, Scrolled, PrintChar, GetOffset, GetOffsetCol, GetOffsetRow;
    var d := Drawn(v, ch);
    PutOnScreen(c, ch);
    PlotIsDrawn(v, ch);
    if d.pos == |d.cells| {
      ScrollIsGrowth(d, Top(v));
    } else {
      assert Grown(d) == d;
    }
  }

  /** A message of any length keeps them in step. */
  lemma {:induction false} KprintShowsDrawing(c: Console, v: Canvas, message: seq<u8>)
    requires Shows(c, v)
    ensures Shows(Kprint(c, message), DrawAll(v, message))
    decreases |message|
  {
    KprintIsPutAll(c, message);
    if message != [] {
      PutShowsDraw(c, v, message[0]);
      KprintIsPutAll(Put(c, message[0]), message[1..]);
      KprintShowsDrawing(Put(c, message[0]), Draw(v, message[0]), message[1..]);
    }
    hide Kprint, Put, Draw, Shows;
  }

  function KprintEach(c: Console, messages: seq<seq<u8>>): Console
    decreases |messages|
  {
    if messages == [] then c else KprintEach(Kprint(c, messages[0]), messages[1..])
  }

  function Flat(messages: seq<seq<u8>>): seq<u8> {
    if messages == [] then [] else messages[0] + Flat(messages[1..])
  }

  function BlankCanvas(): Canvas {
    Canvas(seq(MAX_ROWS * MAX_COLS, _ => Cell(SPACE, WHITE_ON_BLACK)), 0)
  }

  lemma {:induction false} KprintEachIsFlat(c: Console, messages: seq<seq<u8>>)
    ensures KprintEach(c, messages) == Kprint(c, Flat(messages))
    decreases |messages|
  {
    if messages != [] {
      KprintEachIsFlat(Kprint(c, messages[0]), messages[1..]);
      KprintConcat(c, messages[0], Flat(messages[1..]));
    }
  }

  /** Whatever is printed after the screen was cleared, the screen shows the last 25 rows of the
      page on which it was printed without scrolling, and the cursor is on the screen. */
  lemma ScreenIsWindow(c: Console, messages: seq<seq<u8>>)
    ensures Shows(KprintEach(ClearScreen(c), messages), DrawAll(BlankCanvas(), Flat(messages)))
    ensures OnScreen(KprintEach(ClearScreen(c), messages))
  {
    assert BlankCanvas().cells[0..] == BlankCanvas().cells;
    CursorRoundTrip(c.(video := ClearScreen(c).video), 0);
    assert ClearScreen(c).video == Bytes(BlankCanvas().cells);
    KprintEachIsFlat(ClearScreen(c), messages);
    KprintShowsDrawing(ClearScreen(c), BlankCanvas(), Flat(messages));
  }

  predicate Plain(message: seq<u8>) {
    forall k | 0 <= k < |message| :: message[k] != NEWLINE && message[k] != BACKSPACE
  }

  /** On the canvas, plain text stands in consecutive cells; everything else stays as it was, and rows
      that are added are empty. */
  lemma {:induction false} PlainTextStands(v: Canvas, message: seq<u8>)
    requires ValidCanvas(v) && Plain(message)
    ensures var w := DrawAll(v, message);
            && w.pos == v.pos + |message| && |w.cells| >= |v.cells|
            && (forall k | v.pos <= k < w.pos :: w.cells[k] == Cell(message[k - v.pos], WHITE_ON_BLACK))
            && (forall k | 0 <= k < |v.cells| && !(v.pos <= k < w.pos) :: w.cells[k] == v.cells[k])
            && (forall k | |v.cells| <= k < |w.cells| && !(v.pos <= k < w.pos) :: w.cells[k] == Cell(0, 0))
    decreases |message|
  {
    if message != [] {
      PlainTextStands(Draw(v, message[0]), message[1..]);
    }
  }
}
