/**
  The terminal writer of src/kernel.c (lines 56-115) as a function of its
  whole state: the cursor (terminal_row, terminal_column), the current
  attribute (terminal_color) and the 80 x 25 cells of the text buffer.
  The class in module Terminal is proved against these functions.
 */
module TextGrid {
  import opened Vga
  import opened CStrings

  const Width: nat := 80
  const Height: nat := 25
  /** Number of cells in the text buffer, Width * Height. */
  const Size: nat := 2000

  const NewlineChar: bv8 := 0x0A
  const Space: bv8 := 0x20

  /** Light grey on black: the attribute terminal_initialize selects. */
  const DefaultColor: bv8 := EntryColor(LightGrey, Black)

  /** The writer's state: cursor, current attribute and buffer contents. */
  datatype Screen = Screen(row: nat, column: nat, color: bv8, cells: seq<bv16>)

  /** The cursor lies on the grid and the buffer has one cell per position. */
  predicate WellFormed(s: Screen)
  {
    s.row < Height && s.column < Width && |s.cells| == Size
  }

  /**
    Row-major index of column `x` of row `y` (y * Width + x; the width is
    written as a literal so that the arithmetic stays linear).
   */
  function Index(x: nat, y: nat): nat
  {
    y * 80 + x
  }

  /** The index of the cell under the cursor. */
  function Cursor(s: Screen): nat
  {
    Index(s.column, s.row)
  }

  /** Grid positions and buffer indices correspond one to one. */
  lemma IndexBijective(x: nat, y: nat, x': nat, y': nat)
    requires x < Width && x' < Width
    ensures y < Height ==> Index(x, y) < Size
    ensures Index(x, y) == Index(x', y') <==> x == x' && y == y'
  {
  }

  /** The decoded contents of cell `i`: its character and its attribute. */
  function CellAt(s: Screen, i: nat): (bv8, bv8)
    requires i < |s.cells|
  {
    (CellChar(s.cells[i]), CellAttr(s.cells[i]))
  }

  /** terminal_initialize: cursor home, light grey on black, every cell blank. */
  function Initialized(): (s: Screen)
    ensures WellFormed(s)
  {
    Screen(0, 0, DefaultColor, seq(Size, _ => Entry(Space, DefaultColor)))
  }

  /** After initialisation the cursor is home and every cell shows a grey-on-black space. */
  lemma InitializedIsBlank()
    ensures Initialized().row == 0 && Initialized().column == 0
    ensures Initialized().color == 0x07
    ensures forall x: nat, y: nat :: x < Width && y < Height ==>
              Index(x, y) < Size && CellAt(Initialized(), Index(x, y)) == (Space, 0x07)
  {
    forall x: nat, y: nat | x < Width && y < Height
      ensures Index(x, y) < Size && CellAt(Initialized(), Index(x, y)) == (Space, 0x07)
    {
      IndexBijective(x, y, x, y);
    }
  }

  /** terminal_setcolor: only the current attribute changes. */
  function SetColor(s: Screen, attr: bv8): (t: Screen)
    ensures t.color == attr
    ensures t.row == s.row && t.column == s.column && t.cells == s.cells
  {
    s.(color := attr)
  }

  /**
    terminal_putentryat: the cell at column `x` of row `y` shows `ch` in
    `attr`; no other cell, nor the cursor or the current attribute, changes.
    The C code does not check the position; writing outside the grid is
    undefined there, so the position is required to be on the grid.
   */
  function PutEntryAt(s: Screen, ch: bv8, attr: bv8, x: nat, y: nat): (t: Screen)
    requires |s.cells| == Size && x < Width && y < Height
    ensures |t.cells| == Size && Index(x, y) < Size
    ensures CellAt(t, Index(x, y)) == (ch, attr)
    ensures forall i :: 0 <= i < Size && i != Index(x, y) ==> t.cells[i] == s.cells[i]
    ensures t.row == s.row && t.column == s.column && t.color == s.color
  {
    IndexBijective(x, y, x, y);
    s.(cells := s.cells[Index(x, y) := Entry(ch, attr)])
  }

  /**
    newline: column 0 of the next row, back to row 0 after the last row.
    The buffer is left as it is: there is no scrolling.
   */
  function NewLine(s: Screen): (t: Screen)
    ensures s.row < Height ==> t.row < Height
    ensures t.column == 0 && t.color == s.color && t.cells == s.cells
  {
    s.(column := 0, row := if s.row + 1 == Height then 0 else s.row + 1)
  }

  /** From a row on the grid, newline goes to the next row modulo the height. */
  lemma NewLineWraps(s: Screen)
    requires s.row < Height
    ensures NewLine(s).row == (s.row + 1) % Height && NewLine(s).column == 0
  {
  }

  /**
    terminal_putchar: a newline byte only moves the cursor to the next
    line; any other byte is written at the cursor in the current attribute
    and the cursor moves right, to the next line once the row is full.
   */
  function PutChar(s: Screen, ch: bv8): (t: Screen)
    requires WellFormed(s)
    ensures WellFormed(t) && t.color == s.color
  {
    if ch == NewlineChar then NewLine(s)
    else
      var written := PutEntryAt(s, ch, s.color, s.column, s.row);
      var advanced := written.(column := s.column + 1);
      if advanced.column == Width then NewLine(advanced) else advanced
  }

  /** A newline byte moves to column 0 of the next row, whatever the column, and writes nothing. */
  lemma PutNewline(s: Screen)
    requires WellFormed(s)
    ensures PutChar(s, NewlineChar).column == 0
    ensures PutChar(s, NewlineChar).row == (s.row + 1) % Height
    ensures PutChar(s, NewlineChar).cells == s.cells
  {
  }

  /**
    Any other byte lands in the cell under the cursor, every other cell is
    kept, and the cursor moves one cell on in row-major order, from the
    last cell back to the first.
   */
  lemma PutPrintable(s: Screen, ch: bv8)
    requires WellFormed(s) && ch != NewlineChar
    ensures Cursor(s) < Size
    ensures PutChar(s, ch).cells == s.cells[Cursor(s) := Entry(ch, s.color)]
    ensures Cursor(PutChar(s, ch)) == (Cursor(s) + 1) % Size
  {
    IndexBijective(s.column, s.row, s.column, s.row);
  }

  /**
    terminal_write: the bytes of `data` are put one after the other, in
    order (the C loop over data[0..size)).
   */
  function Write(s: Screen, data: seq<bv8>): (t: Screen)
    requires WellFormed(s)
    ensures WellFormed(t) && t.color == s.color
    decreases |data|
  {
    if data == [] then s
    else PutChar(Write(s, data[..|data| - 1]), data[|data| - 1])
  }

  /** Writing two pieces one after the other is writing them joined. */
  lemma {:induction false} WriteAppend(s: Screen, a: seq<bv8>, b: seq<bv8>)
    requires WellFormed(s)
    ensures Write(s, a + b) == Write(Write(s, a), b)
    decreases |b|
  {
    if b == [] {
      assert a + b == a;
    } else {
      var b' := b[..|b| - 1];
      assert (a + b)[..|a + b| - 1] == a + b';
      WriteAppend(s, a, b');
    }
  }

  /** `data` holds no newline byte. */
  predicate NoNewline(data: seq<bv8>)
  {
    forall i :: 0 <= i < |data| ==> data[i] != NewlineChar
  }

  /** A prefix of newline-free bytes is newline-free. */
  lemma NoNewlinePrefix(data: seq<bv8>, n: nat)
    requires NoNewline(data) && n <= |data|
    ensures NoNewline(data[..n])
  {
    forall i | 0 <= i < n ensures data[..n][i] != NewlineChar {
      assert data[..n][i] == data[i];
    }
  }

  /**
    Writing bytes without a newline moves the cursor on by their count in
    row-major order, modulo the size of the grid: rows wrap by moving on,
    the last row wraps to the first.
   */
  lemma {:induction false} WriteMovesCursor(s: Screen, data: seq<bv8>)
    requires WellFormed(s) && NoNewline(data)
    ensures Cursor(Write(s, data)) == (Cursor(s) + |data|) % Size
    decreases |data|
  {
    if data == [] {
      IndexBijective(s.column, s.row, s.column, s.row);
    } else {
      var front, last := data[..|data| - 1], data[|data| - 1];
      NoNewlinePrefix(data, |data| - 1);
      WriteMovesCursor(s, front);
      var mid := Write(s, front);
      assert Write(s, data) == PutChar(mid, last);
      PutPrintable(mid, last);
      ModSucc(Cursor(s) + |front|, Cursor(mid), Cursor(Write(s, data)));
    }
  }

  /** One step further, modulo the grid size. */
  lemma ModSucc(c: nat, m: nat, n: nat)
    requires m == c % Size && n == (m + 1) % Size
    ensures n == (c + 1) % Size
  {
  }

  /** Before the end of the buffer is reached, the cursor simply moves on by the count. */
  lemma WriteMovesCursorWithinScreen(s: Screen, data: seq<bv8>)
    requires WellFormed(s) && NoNewline(data) && Cursor(s) + |data| < Size
    ensures Cursor(Write(s, data)) == Cursor(s) + |data|
  {
    WriteMovesCursor(s, data);
  }

  /** Where the cursor is, given the buffer index it points at. */
  lemma CursorAt(s: Screen, x: nat, y: nat)
    requires WellFormed(s) && x < Width && Cursor(s) == Index(x, y)
    ensures s.column == x && s.row == y
  {
    IndexBijective(s.column, s.row, x, y);
  }

  /**
    Fewer newline-free bytes than are left in the row advance the column by
    their count and leave the row alone.
   */
  lemma WriteWithinRow(s: Screen, data: seq<bv8>)
    requires WellFormed(s) && NoNewline(data) && s.column + |data| < Width
    ensures Write(s, data).column == s.column + |data|
    ensures Write(s, data).row == s.row
  {
    assert Cursor(s) + |data| < Size;
    WriteMovesCursorWithinScreen(s, data);
    CursorAt(Write(s, data), s.column + |data|, s.row);
  }

  /**
    A full row of newline-free bytes written from the start of a row leaves
    the cursor at the start of the next row (the first row after the last):
    the line wraps once and no blank row appears.
   */
  lemma WriteFullRow(s: Screen, data: seq<bv8>)
    requires WellFormed(s) && NoNewline(data) && |data| == Width && s.column == 0
    ensures Write(s, data).column == 0 && Write(s, data).row == (s.row + 1) % Height
  {
    var t := Write(s, data);
    var c := Cursor(s) + |data|;
    assert c == Index(0, s.row + 1);
    if s.row + 1 < Height {
      WriteMovesCursorWithinScreen(s, data);
      CursorAt(t, 0, s.row + 1);
    } else {
      assert Cursor(t) == 0 by {
        WriteMovesCursor(s, data);
        assert c == Size;
      }
      CursorAt(t, 0, 0);
    }
  }

  /**
    Newline-free bytes that fit before the end of the buffer land in
    consecutive cells from the cursor on, in the current attribute; every
    other cell is kept.
   */
  lemma {:induction false} WriteFillsCells(s: Screen, data: seq<bv8>)
    requires WellFormed(s) && NoNewline(data) && Cursor(s) + |data| <= Size
    ensures forall k :: 0 <= k < |data| ==> Write(s, data).cells[Cursor(s) + k] == Entry(data[k], s.color)
    ensures forall i :: 0 <= i < Size && !(Cursor(s) <= i < Cursor(s) + |data|) ==>
              Write(s, data).cells[i] == s.cells[i]
    decreases |data|
  {
    if data != [] {
      var n := |data| - 1;
      var front := data[..n];
      NoNewlinePrefix(data, n);
      WriteFillsCells(s, front);
      WriteLastCell(s, data);
      var at, mid, t := Cursor(s) + n, Write(s, front).cells, Write(s, data).cells;
      forall k | 0 <= k < n ensures t[Cursor(s) + k] == Entry(data[k], s.color) {
        assert front[k] == data[k];
        assert t[Cursor(s) + k] == mid[Cursor(s) + k];
      }
    }
  }

  /** The last of the bytes lands after all the others, in the current attribute. */
  lemma WriteLastCell(s: Screen, data: seq<bv8>)
    requires WellFormed(s) && NoNewline(data) && 0 < |data| && Cursor(s) + |data| <= Size
    ensures Cursor(s) + |data| - 1 < Size
    ensures Write(s, data).cells ==
              Write(s, data[..|data| - 1]).cells[Cursor(s) + |data| - 1 := Entry(data[|data| - 1], s.color)]
  {
    var n := |data| - 1;
    var mid := Write(s, data[..n]);
    assert Cursor(mid) == Cursor(s) + n by {
      NoNewlinePrefix(data, n);
      WriteMovesCursorWithinScreen(s, data[..n]);
    }
    assert Write(s, data) == PutChar(mid, data[n]);
    PutPrintable(mid, data[n]);
  }

  /**
    Wrapping past the last row overwrites, it does not scroll: after a whole
    screen of newline-free bytes from the top-left corner the cursor is back
    there, and the next byte replaces the first cell.
   */
  lemma WrapOverwritesFirstCell(s: Screen, screenful: seq<bv8>, ch: bv8)
    requires WellFormed(s) && s.row == 0 && s.column == 0
    requires NoNewline(screenful) && |screenful| == Size && ch != NewlineChar
    ensures Write(s, screenful).row == 0 && Write(s, screenful).column == 0
    ensures PutChar(Write(s, screenful), ch).cells[0] == Entry(ch, s.color)
  {
    WriteScreenfulReturnsHome(s, screenful);
    PutPrintable(Write(s, screenful), ch);
  }

  lemma WriteScreenfulReturnsHome(s: Screen, screenful: seq<bv8>)
    requires WellFormed(s) && s.row == 0 && s.column == 0
    requires NoNewline(screenful) && |screenful| == Size
    ensures Write(s, screenful).row == 0 && Write(s, screenful).column == 0
  {
    WriteMovesCursor(s, screenful);
    CursorAt(Write(s, screenful), 0, 0);
  }

  /**
    terminal_setcolor acts only on later writes: the next byte is written
    in the new attribute and every cell written before keeps its attribute.
   */
  lemma SetColorAffectsOnlyLaterWrites(s: Screen, attr: bv8, ch: bv8)
    requires WellFormed(s) && ch != NewlineChar
    ensures SetColor(s, attr).cells == s.cells
    ensures Cursor(s) < Size && CellAt(PutChar(SetColor(s, attr), ch), Cursor(s)) == (ch, attr)
  {
    PutPrintable(SetColor(s, attr), ch);
  }

  /** terminal_writestring: the bytes before the first zero byte are written. */
  function WriteString(s: Screen, str: seq<bv8>): (t: Screen)
    requires WellFormed(s) && 0 in str
    ensures WellFormed(t)
  {
    Write(s, str[..TerminatorIndex(str)])
  }

  /** A C string is written up to its terminator; the bytes after it are never read. */
  lemma WriteStringStopsAtNul(s: Screen, text: seq<bv8>, rest: seq<bv8>)
    requires WellFormed(s) && 0 !in text
    ensures 0 in text + [0] + rest
    ensures WriteString(s, text + [0] + rest) == Write(s, text)
  {
    var str := text + [0] + rest;
    assert str[|text|] == 0;
    assert str[..|text|] == text;
  }
}
