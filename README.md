# VGA text-mode terminal writer

This project models the terminal writer of a minimal freestanding x86 kernel (`src/kernel.c`),
written after the OSDev "Bare Bones" tutorial. The writer draws on the standard VGA text mode.
The screen is 80 x 25 cells of 16 bits each. A cell holds the character in its low byte and the
attribute in its high byte. The attribute holds the foreground colour in bits 0-3 and the
background colour in bits 4-7.

The writer keeps a cursor (`terminal_row`, `terminal_column`), a current attribute
(`terminal_color`) and the 2000-cell text buffer. It offers these operations: clear the screen,
set the attribute, write one cell at (x, y), break the line, put one byte, and write a sized or a
NUL-terminated byte string. A line break wraps from the last row to the first. The screen never
scrolls.

Files:

- `vga.dfy` (module `Vga`): the sixteen palette colours, and the packing of colours into an
  attribute byte (`vga_entry_color`) and of a character and an attribute into a cell
  (`vga_entry`), with decoders and round-trip lemmas.
- `cstring.dfy` (module `CStrings`): `strlen` as a loop (`Strlen`), proved against
  `TerminatorIndex`, the index of the first zero byte.
- `textgrid.dfy` (module `TextGrid`): the writer's whole state as a value (`Screen`) and every
  operation as a function of it, with the lemmas about them: the cursor stays on the grid, one
  cell write changes one cell, line breaks wrap, rows wrap without scrolling, writing advances
  the cursor in row-major order and fills consecutive cells.
- `terminal.dfy` (module `Terminal`): class `Writer`, with the C globals as fields and the text
  buffer as an `array<bv16>`. Each method changes the fields and the array step by step as the C
  code does. Each is proved to move `State()` exactly as the matching `TextGrid` function does.
- `scenarios.dfy` (module `Scenarios`): concrete runs: "hi" from the top-left corner, and the line
  `kernel_main` prints, "wiki.osdev.org\n".

Bytes are `bv8`, cells are `bv16`, and the cursor coordinates are `nat`. In the C code the row
and column are `size_t`. They never get near overflow, because the writer keeps them below 25
and 80.

## Model

| member | source | states |
|---|---|---|
| Vga.Code | src/kernel.c:16-33 | each palette colour's number is below 16, so it fits in a nibble |
| Vga.FromCode | src/kernel.c:16-33 | the colour with a given number below 16; its number is that number |
| Vga.CodeInjective | src/kernel.c:16-33 | distinct colours have distinct numbers |
| Vga.EntryColor | src/kernel.c:35-39 | the attribute's low nibble is the foreground and its high nibble the background; both colours decode back from it |
| Vga.AttributeRoundTrip | src/kernel.c:35-39 | every attribute byte is the packing of the two colours it decodes to |
| Vga.Entry | src/kernel.c:41-43 | the cell's low byte is the character and its high byte the attribute |
| Vga.CellRoundTrip | src/kernel.c:41-43 | every 16-bit cell is the packing of its own character and attribute |
| Vga.EntryInjective | src/kernel.c:41-43 | two cells are equal exactly when their characters and their attributes are |
| CStrings.TerminatorIndex | src/kernel.c:45-50 | for a byte sequence holding a zero, the index of a zero byte with only non-zero bytes before it |
| CStrings.Strlen | src/kernel.c:45-50 | the counting loop returns the first zero byte's index; every byte before it is non-zero |
| TextGrid.IndexBijective | src/kernel.c:73 | the row-major index of an on-grid position is below 2000, and distinct positions have distinct indices |
| TextGrid.Initialized | src/kernel.c:64-79 | the state after initialisation is well formed: cursor on the grid, 2000 cells |
| TextGrid.InitializedIsBlank | src/kernel.c:64-79 | after initialisation the cursor is (0, 0), the attribute is 0x07, and every cell y*80+x decodes to (space, 0x07) |
| TextGrid.SetColor | src/kernel.c:81-83 | only the current attribute changes; cursor and cells are kept |
| TextGrid.SetColorAffectsOnlyLaterWrites | src/kernel.c:81-83 | a new attribute leaves every cell as it was; the next byte is written in the new attribute |
| TextGrid.PutEntryAt | src/kernel.c:85-88 | for an on-grid (x, y), the cell y*80+x decodes to the given character and attribute; every other cell, the cursor and the attribute are kept |
| TextGrid.NewLine | src/kernel.c:90-94 | column 0; the row stays on the grid; the attribute and the buffer are kept (no scrolling) |
| TextGrid.NewLineWraps | src/kernel.c:90-94 | from a row on the grid, the new row is (row + 1) mod 25 |
| TextGrid.PutChar | src/kernel.c:96-106 | putting a byte keeps the cursor on the grid and the attribute unchanged |
| TextGrid.PutNewline | src/kernel.c:97-99 | byte 0x0A only breaks the line: column 0, row (row + 1) mod 25, whatever the column, no cell changes |
| TextGrid.PutPrintable | src/kernel.c:100-105 | any other byte replaces exactly the cell under the cursor, in the current attribute; the cursor moves one cell on in row-major order, modulo 2000 |
| TextGrid.Write | src/kernel.c:108-111 | writing a sequence of bytes keeps the cursor on the grid and the attribute unchanged |
| TextGrid.WriteAppend | src/kernel.c:108-111 | writing two pieces one after the other equals writing them joined |
| TextGrid.WriteMovesCursor | src/kernel.c:96-111 | n bytes without a line break move the cursor n cells on in row-major order, modulo 2000 |
| TextGrid.WriteMovesCursorWithinScreen | src/kernel.c:96-111 | before the end of the buffer, n bytes without a line break move the cursor exactly n cells on |
| TextGrid.WriteWithinRow | src/kernel.c:102-111 | n < 80 - column bytes without a line break advance the column by exactly n and keep the row |
| TextGrid.WriteFullRow | src/kernel.c:102-111 | 80 bytes without a line break from column 0 end at column 0 of row (row + 1) mod 25: one wrap, no blank row |
| TextGrid.WriteFillsCells | src/kernel.c:96-111 | bytes without a line break that fit before the end of the buffer land in consecutive cells from the cursor, in the current attribute; every other cell is kept |
| TextGrid.WriteLastCell | src/kernel.c:108-111 | the last of such bytes lands after all the others |
| TextGrid.WriteScreenfulReturnsHome | src/kernel.c:90-111 | 2000 bytes without a line break from (0, 0) bring the cursor back to (0, 0) |
| TextGrid.WrapOverwritesFirstCell | src/kernel.c:90-111 | after a whole screen from (0, 0) the next byte overwrites cell 0: wrapping overwrites and does not scroll |
| TextGrid.WriteString | src/kernel.c:113-115 | writing a C string keeps the state well formed |
| TextGrid.WriteStringStopsAtNul | src/kernel.c:113-115 | a C string is written up to its terminator; the terminator and the bytes after it are never written |
| Terminal.Writer.constructor | src/kernel.c:59-62 | the globals start at zero over the given 2000-cell buffer |
| Terminal.Writer.Initialize | src/kernel.c:64-79 | the nested loops leave exactly the initialised state: cursor (0, 0), attribute 0x07, every cell blank |
| Terminal.Writer.SetColor | src/kernel.c:81-83 | the new state is the old one with only the attribute replaced |
| Terminal.Writer.PutEntryAt | src/kernel.c:85-88 | the in-place write of one array element gives the functional cell write |
| Terminal.Writer.NewLine | src/kernel.c:90-94 | the field updates give the functional line break |
| Terminal.Writer.PutChar | src/kernel.c:96-106 | the new state is the functional put of the byte, and the writer stays valid |
| Terminal.Writer.Write | src/kernel.c:108-111 | the loop over data[0..size) leaves the functional write of that prefix |
| Terminal.Writer.WriteString | src/kernel.c:113-115 | strlen followed by the sized write leaves the functional write of the bytes before the first zero |
| Scenarios.HiFromTopLeft | src/kernel.c:108-111 | "hi" from (0, 0) leaves the cursor at (2, 0) with 'h' in cell 0 and 'i' in cell 1 |
| Scenarios.WriteLine | src/kernel.c:113-115 | a NUL-terminated line shorter than a row, written from column 0, fills the row's first cells and ends at the start of the next row |
| Scenarios.WikiLine | src/kernel.c:122 | writing "wiki.osdev.org\n" from column 0 fills 14 cells and ends at the start of the next row |

## Left out

- The `#error` checks for the cross-compiler and the target (src/kernel.c:8-14) are build tooling, not behaviour.
- The fixed address 0xB8000 of the text buffer is not modelled. The writer is given a 2000-cell array when it is constructed and keeps it for life.
- Terminal.Writer.constructor: in C the buffer pointer is null until `terminal_initialize` sets it. The model binds the buffer at construction; the cursor and the attribute start at zero, as C's zero-initialised globals do.
- `kernel_main` and the `cat` literal (src/kernel.c:117-124) are program entry glue. Only the line "wiki.osdev.org\n" is used, as a concrete run. The cat picture and "Made by vinicyus" are not.
- `strcpy` (src/kernel.c:52-54) is never called. Its semantics rest on unchecked pointer increments with no bound on the destination.
- The signedness of `char` is not modelled. Characters are bytes 0..255 (`bv8`), as the `unsigned char` parameter of `vga_entry` sees them.
- Writing a cell off the grid is undefined behaviour in C, because nothing checks the bounds. `PutEntryAt` therefore requires the position to be on the grid. An out-of-bounds error value is not modelled, because the code has none. The writer's own calls are proved to stay on the grid.
- `strlen` scans for the zero terminator, as the code does. A length-carrying string type is not used. Callers must supply a sequence that holds a zero byte.
- The writer is single-threaded and has no I/O other than the buffer, so nothing about concurrency or hardware timing is modelled.
