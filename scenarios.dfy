/**
  Concrete runs of the terminal writer: the line kernel_main prints
  (src/kernel.c, line 122) and a two-letter word on a fresh screen.
 */
module Scenarios {
  import opened Vga
  import opened TextGrid

  /** "hi" from the top-left corner: cursor (2, 0), 'h' and 'i' in the current attribute. */
  lemma HiFromTopLeft(s: Screen)
    requires WellFormed(s) && s.row == 0 && s.column == 0
    ensures Write(s, Hi()).column == 2 && Write(s, Hi()).row == 0
    ensures CellAt(Write(s, Hi()), 0) == (0x68, s.color)
    ensures CellAt(Write(s, Hi()), 1) == (0x69, s.color)
  {
    WriteWithinRow(s, Hi());
    WriteFillsCells(s, Hi());
  }

  /** The ASCII bytes of "hi". */
  function Hi(): (bytes: seq<bv8>)
    ensures |bytes| == 2 && NoNewline(bytes)
  {
    [0x68, 0x69]
  }

  /** The ASCII bytes of "wiki.osdev.org", without its line break. */
  function Wiki(): (bytes: seq<bv8>)
    ensures |bytes| == 14 && NoNewline(bytes) && 0 !in bytes
  {
    [0x77, 0x69, 0x6B, 0x69, 0x2E, 0x6F, 0x73, 0x64, 0x65, 0x76, 0x2E, 0x6F, 0x72, 0x67]
  }

  /**
    terminal_writestring of a line shorter than a row, ended by a line
    break and the terminating zero byte, from the start of a row: the
    letters fill the row's first cells in the current attribute and the
    cursor ends at the start of the next row.
   */
  lemma WriteLine(s: Screen, text: seq<bv8>)
    requires WellFormed(s) && s.column == 0
    requires NoNewline(text) && 0 !in text && |text| < Width
    ensures 0 in text + [NewlineChar, 0]
    ensures WriteString(s, text + [NewlineChar, 0]).column == 0
    ensures WriteString(s, text + [NewlineChar, 0]).row == (s.row + 1) % Height
    ensures forall k :: 0 <= k < |text| ==>
              Index(k, s.row) < Size &&
              CellAt(WriteString(s, text + [NewlineChar, 0]), Index(k, s.row)) == (text[k], s.color)
  {
    var line := text + [NewlineChar];
    assert text + [NewlineChar, 0] == line + [0] + [];
    var written := Write(s, text);
    var t := WriteString(s, text + [NewlineChar, 0]);
    assert t == PutChar(written, NewlineChar) by {
      assert 0 !in line;
      WriteStringStopsAtNul(s, line, []);
      WriteAppend(s, text, [NewlineChar]);
      assert Write(written, [NewlineChar]) == PutChar(Write(written, []), NewlineChar);
    }
    assert written.row == s.row by {
      WriteWithinRow(s, text);
    }
    assert t.column == 0 && t.row == (s.row + 1) % Height && t.cells == written.cells by {
      PutNewline(written);
    }
    WriteFillsCells(s, text);
    forall k | 0 <= k < |text|
      ensures Index(k, s.row) < Size && CellAt(t, Index(k, s.row)) == (text[k], s.color)
    {
      assert Index(k, s.row) == Cursor(s) + k;
    }
  }

  /**
    terminal_writestring("wiki.osdev.org\n") from the start of a row: the
    fourteen letters fill the row's first fourteen cells in the current
    attribute and the cursor ends at the start of the next row.
   */
  lemma WikiLine(s: Screen)
    requires WellFormed(s) && s.column == 0
    ensures 0 in Wiki() + [NewlineChar, 0]
    ensures WriteString(s, Wiki() + [NewlineChar, 0]).column == 0
    ensures WriteString(s, Wiki() + [NewlineChar, 0]).row == (s.row + 1) % Height
    ensures forall k :: 0 <= k < 14 ==>
              Index(k, s.row) < Size &&
              CellAt(WriteString(s, Wiki() + [NewlineChar, 0]), Index(k, s.row)) == (Wiki()[k], s.color)
  {
    WriteLine(s, Wiki());
  }
}
