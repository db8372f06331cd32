/**
  The terminal writer of src/kernel.c (lines 56-115) as the C code runs it:
  the cursor and the current attribute are fields updated step by step and
  the text buffer is an array of 80 x 25 cells written in place. Every
  method is proved to move the whole state as the matching function of
  module TextGrid does.
 */
module Terminal {
  import opened Vga
  import opened CStrings
  import opened TextGrid

  class Writer {
    /** terminal_row */
    var row: nat
    /** terminal_column */
    var column: nat
    /** terminal_color */
    var color: bv8
    /** terminal_buffer: the memory-mapped text buffer, fixed for the writer's life. */
    const buffer: array<bv16>

    /** The state as a value of the functional model. */
    ghost function State(): Screen
      reads this, buffer
    {
      Screen(row, column, color, buffer[..])
    }

    /** The cursor is on the grid and the buffer holds the whole grid. */
    ghost predicate Valid()
      reads this, buffer
    {
      WellFormed(State())
    }

    /**
      The writer before terminal_initialize: the C globals start at zero,
      over the given text buffer.
     */
    constructor (screen: array<bv16>)
      requires screen.Length == Size
      ensures buffer == screen && row == 0 && column == 0 && color == 0
      ensures Valid()
    {
      buffer := screen;
      row, column, color := 0, 0, 0;
    }

    /** terminal_initialize: cursor home, light grey on black, every cell blank. */
    method Initialize()
      requires buffer.Length == Size
      modifies this, buffer
      ensures Valid() && State() == Initialized()
    {
      row := 0;
      column := 0;
      color := EntryColor(LightGrey, Black);
      for y := 0 to Height
        invariant row == 0 && column == 0 && color == DefaultColor
        invariant forall i :: 0 <= i < y * Width ==> buffer[i] == Entry(Space, DefaultColor)
      {
        for x := 0 to Width
          invariant row == 0 && column == 0 && color == DefaultColor
          invariant forall i :: 0 <= i < y * Width + x ==> buffer[i] == Entry(Space, DefaultColor)
        {
          var index := Index(x, y);
          buffer[index] := Entry(Space, color);
        }
      }
      assert buffer[..] == Initialized().cells;
    }

    /** terminal_setcolor: only the current attribute changes. */
    method SetColor(attr: bv8)
      modifies this`color
      ensures State() == TextGrid.SetColor(old(State()), attr)
    {
      color := attr;
    }

    /**
      terminal_putentryat: writes the one cell at column `x` of row `y`.
      The C code does not check the position; it must be on the grid.
     */
    method PutEntryAt(ch: bv8, attr: bv8, x: nat, y: nat)
      requires buffer.Length == Size && x < Width && y < Height
      modifies buffer
      ensures State() == TextGrid.PutEntryAt(old(State()), ch, attr, x, y)
    {
      var index := Index(x, y);
      buffer[index] := Entry(ch, attr);
    }

    /** newline: column 0 of the next row, wrapping from the last row to the first. */
    method NewLine()
      modifies this`row, this`column
      ensures State() == TextGrid.NewLine(old(State()))
    {
      column := 0;
      row := row + 1;
      if row == Height {
        row := 0;
      }
    }

    /** terminal_putchar */
    method PutChar(ch: bv8)
      requires Valid()
      modifies this, buffer
      ensures Valid() && State() == TextGrid.PutChar(old(State()), ch)
    {
      if ch == NewlineChar {
        NewLine();
      } else {
        PutEntryAt(ch, color, column, row);
        column := column + 1;
        if column == Width {
          NewLine();
        }
      }
    }

    /** terminal_write: puts data[0..size) in order. */
    method Write(data: seq<bv8>, size: nat)
      requires Valid() && size <= |data|
      modifies this, buffer
      ensures Valid() && State() == TextGrid.Write(old(State()), data[..size])
    {
      for i := 0 to size
        invariant Valid() && State() == TextGrid.Write(old(State()), data[..i])
      {
        assert data[..i + 1][..i] == data[..i];
        PutChar(data[i]);
      }
    }

    /** terminal_writestring: writes the bytes before the first zero byte. */
    method WriteString(data: seq<bv8>)
      requires Valid() && 0 in data
      modifies this, buffer
      ensures Valid() && State() == TextGrid.WriteString(old(State()), data)
    {
      var len := Strlen(data);
      Write(data, len);
    }
  }
}
