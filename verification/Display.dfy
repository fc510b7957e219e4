/** The screen driver on its device: video memory and the indexed registers of the controller. */
module Display {
  import opened Words
  import opened Screen
  import opened CStrings
  import opened MemoryRoutines

  const REG_SCREEN_CTRL: nat := 0x3D4
  const REG_SCREEN_DATA: nat := 0x3D5
  const CURSOR_HIGH: u8 := 14
  const CURSOR_LOW: u8 := 15

  /** Scrolling in progress: the first i - 1 rows have been replaced by their successors. */
  function Shifted(v: Video, i: nat): (r: Video)
    requires 1 <= i <= MAX_ROWS
  {
    v[ROW_BYTES..ROW_BYTES * i] + v[ROW_BYTES * (i - 1)..]
  }

  lemma ShiftedStep(v: Video, i: nat)
    requires 1 <= i < MAX_ROWS
    ensures Moved(Shifted(v, i), GetOffset(0, i), GetOffset(0, i - 1), 2 * MAX_COLS, 0) == Shifted(v, i + 1)
  {
    MovedWhole(Shifted(v, i), GetOffset(0, i), GetOffset(0, i - 1), 2 * MAX_COLS);
  }

  lemma ShiftedEnds(v: Video)
    ensures Shifted(v, 1) == v
    ensures Shifted(v, MAX_ROWS)[..SIZE - ROW_BYTES] == v[ROW_BYTES..]
  {
  }

  class Display {
    const video: array<u8>
    const registers: array<u8>
    var index: u8

    ghost predicate Valid()
      reads this
    {
      video.Length == SIZE && registers.Length == 0x100 && video != registers
    }

    constructor (video: array<u8>, registers: array<u8>)
      requires video.Length == SIZE && registers.Length == 0x100 && video != registers
      ensures Valid() && this.video == video && this.registers == registers
    {
      this.video, this.registers, index := video, registers, 0;
    }

    ghost function View(): Console
      requires Valid()
      reads this, video, registers
    {
      Console(video[..], registers[CURSOR_HIGH], registers[CURSOR_LOW])
    }

    method PortByteOut(port: nat, data: u8)
      requires Valid()
      modifies this`index, registers
      ensures port == REG_SCREEN_CTRL ==> index == data && registers[..] == old(registers[..])
      ensures port == REG_SCREEN_DATA ==> index == old(index) && registers[..] == old(registers[..][index := data])
    {
      if port == REG_SCREEN_CTRL {
        index := data;
      } else if port == REG_SCREEN_DATA {
        registers[index] := data;
      }
    }

    method PortByteIn(port: nat) returns (data: u8)
      requires Valid()
      ensures port == REG_SCREEN_DATA ==> data == registers[index]
    {
      data := if port == REG_SCREEN_DATA then registers[index] else 0xFF;
    }

    method GetCursorOffset() returns (offset: nat)
      requires Valid()
      modifies this`index, registers
      ensures View() == old(View()) && offset == GetCursor(View())
      ensures offset == 2 * (0x100 * (registers[14] as int) + registers[15] as int)
    {
      PortByteOut(REG_SCREEN_CTRL, CURSOR_HIGH);
      var high: int := PortByteIn(REG_SCREEN_DATA);
      PortByteOut(REG_SCREEN_CTRL, CURSOR_LOW);
      var low: int := PortByteIn(REG_SCREEN_DATA);
      return 2 * (0x100 * high + low);
    }

    method SetCursorOffset(offset: nat)
      requires Valid()
      modifies this`index, registers
      ensures View() == SetCursor(old(View()), offset)
      ensures 0x100 * (registers[14] as int) + registers[15] as int == offset / 2 % 0x1_0000
      ensures forall r | 0 <= r < 0x100 && r != 14 && r != 15 :: registers[r] == old(registers[r])
    {
      PortByteOut(REG_SCREEN_CTRL, CURSOR_HIGH);
      PortByteOut(REG_SCREEN_DATA, offset / 2 / 0x100 % 0x100);
      PortByteOut(REG_SCREEN_CTRL, CURSOR_LOW);
      PortByteOut(REG_SCREEN_DATA, offset / 2 % 0x100);
    }

    method BlankLastLine()
      requires Valid()
      modifies video
      ensures video[..] == old(video[..])[..SIZE - ROW_BYTES] + Blank(ROW_BYTES)
    {
      var last := GetOffset(0, MAX_ROWS - 1);
      for i := 0 to 2 * MAX_COLS
        invariant forall k | 0 <= k < SIZE :: video[k] == if last <= k < last + i then 0 else old(video[k])
      {
        video[last + i] := 0;
      }
    }

    /** The scrolling branch of print_char. */
    method Scroll()
      requires Valid()
      modifies video
      ensures video[..] == Scrolled(old(video[..]))
    {
      hide Shifted, Moved;
      ghost var was := video[..];
      ShiftedEnds(was);
      for i := 1 to MAX_ROWS
        invariant video[..] == Shifted(was, i)
      {
        ShiftedStep(was, i);
        MemoryCopy(video, GetOffset(0, i), GetOffset(0, i - 1), 2 * MAX_COLS, false);
      }
      BlankLastLine();
    }

    method PrintChar(ch: u8, col: nat, row: nat, attr: u8) returns (next: nat)
      requires Valid()
      modifies this`index, registers, video
      ensures (View(), next) == Screen.PrintChar(old(View()), ch, col, row, attr)
    {
      var color := if attr == 0 then WHITE_ON_BLACK else attr;
      if col >= MAX_COLS || row >= MAX_ROWS {
        video[2 * MAX_COLS * MAX_ROWS - 2] := LETTER_E;
        video[2 * MAX_COLS * MAX_ROWS - 1] := RED_ON_WHITE;
        return GetOffset(col, row);
      }
      var offset := GetOffset(col, row);
      if ch == NEWLINE {
        offset := GetOffset(0, GetOffsetRow(offset) + 1);
      } else if ch == BACKSPACE {
        video[offset] := SPACE;
        video[offset + 1] := color;
      } else {
        video[offset] := ch;
        video[offset + 1] := color;
        offset := offset + 2;
      }
      if offset >= MAX_ROWS * MAX_COLS * 2 {
        Scroll();
        offset := offset - 2 * MAX_COLS;
      }
      SetCursorOffset(offset);
      return offset;
    }

    method KprintAt(message: seq<u8>, col: int, row: int)
      requires Valid() && Terminated(message)
      modifies this`index, registers, video
      ensures View() == Screen.KprintAt(old(View()), Text(message), col, row)
    {
      var x, y := col, row;
      if !(col >= 0 && row >= 0) {
        var offset := GetCursorOffset();
        y := GetOffsetRow(offset);
        x := GetOffsetCol(offset);
      }
      var i := 0;
      ghost var text := Text(message);
      while message[i] != 0
        invariant i <= Length(message) && x >= 0 && y >= 0
        invariant PrintFrom(View(), text[i..], x, y) == Screen.KprintAt(old(View()), text, col, row)
        decreases Length(message) - i
      {
        var offset := PrintChar(message[i], x, y, WHITE_ON_BLACK);
        i := i + 1;
        y := GetOffsetRow(offset);
        x := GetOffsetCol(offset);
      }
    }

    method Kprint(message: seq<u8>)
      requires Valid() && Terminated(message)
      modifies this`index, registers, video
      ensures View() == Screen.Kprint(old(View()), Text(message))
    {
      KprintAt(message, -1, -1);
    }

    method ClearScreen()
      requires Valid()
      modifies this`index, registers, video
      ensures View() == Screen.ClearScreen(old(View()))
    {
      for i := 0 to MAX_COLS * MAX_ROWS
        invariant forall k | 0 <= k < 2 * i :: video[k] == if k % 2 == 0 then SPACE else WHITE_ON_BLACK
        invariant registers[..] == old(registers[..])
      {
        video[i * 2] := SPACE;
        video[i * 2 + 1] := WHITE_ON_BLACK;
      }
      SetCursorOffset(GetOffset(0, 0));
    }
  }
}
