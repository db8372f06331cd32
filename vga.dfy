/**
  The VGA text-mode colour palette and the packing of colours into an
  attribute byte and of a character and an attribute into a 16-bit cell
  (src/kernel.c, lines 16-43).

  An attribute byte holds the foreground colour in bits 0-3 and the
  background colour in bits 4-7; a cell holds the character in its low
  byte and the attribute in its high byte.
 */
module Vga {

  /** The sixteen colours of the text-mode palette, in palette order. */
  datatype Color =
    | Black | Blue | Green | Cyan | Red | Magenta | Brown | LightGrey
    | DarkGrey | LightBlue | LightGreen | LightCyan | LightRed | LightMagenta | LightBrown | White

  /** The palette number the C enumeration gives each colour. */
  function Code(c: Color): (n: bv8)
    ensures n < 16
  {
    match c
    case Black => 0
    case Blue => 1
    case Green => 2
    case Cyan => 3
    case Red => 4
    case Magenta => 5
    case Brown => 6
    case LightGrey => 7
    case DarkGrey => 8
    case LightBlue => 9
    case LightGreen => 10
    case LightCyan => 11
    case LightRed => 12
    case LightMagenta => 13
    case LightBrown => 14
    case White => 15
  }

  /** The colour with palette number `n`: the inverse of `Code`. */
  function FromCode(n: bv8): (c: Color)
    requires n < 16
    ensures Code(c) == n
  {
    if n == 0 then Black
    else if n == 1 then Blue
    else if n == 2 then Green
    else if n == 3 then Cyan
    else if n == 4 then Red
    else if n == 5 then Magenta
    else if n == 6 then Brown
    else if n == 7 then LightGrey
    else if n == 8 then DarkGrey
    else if n == 9 then LightBlue
    else if n == 10 then LightGreen
    else if n == 11 then LightCyan
    else if n == 12 then LightRed
    else if n == 13 then LightMagenta
    else if n == 14 then LightBrown
    else White
  }

  /** Distinct colours have distinct palette numbers. */
  lemma CodeInjective(c: Color, d: Color)
    ensures Code(c) == Code(d) ==> c == d
  {
  }

  /** The foreground colour stored in the low nibble of an attribute byte. */
  function Foreground(attr: bv8): Color
  {
    FromCode(attr & 0x0F)
  }

  /** The background colour stored in the high nibble of an attribute byte. */
  function Background(attr: bv8): Color
  {
    FromCode(attr >> 4)
  }

  /**
    vga_entry_color: the attribute byte for foreground `fg` on background
    `bg`. Both colours fit in a nibble, so the byte loses nothing and the
    two colours can be read back from it.
   */
  function EntryColor(fg: Color, bg: Color): (attr: bv8)
    ensures attr & 0x0F == Code(fg) && attr >> 4 == Code(bg)
    ensures Foreground(attr) == fg && Background(attr) == bg
  {
    CodeInjective(FromCode(Code(fg)), fg);
    CodeInjective(FromCode(Code(bg)), bg);
    Code(fg) | (Code(bg) << 4)
  }

  /** Every attribute byte is the packing of the two colours it holds. */
  lemma AttributeRoundTrip(attr: bv8)
    ensures EntryColor(Foreground(attr), Background(attr)) == attr
  {
    var lo, hi := attr & 0x0F, attr >> 4;
    assert Code(FromCode(lo)) == lo && Code(FromCode(hi)) == hi;
  }

  /** The character byte stored in the low byte of a cell. */
  function CellChar(cell: bv16): bv8
  {
    (cell & 0xFF) as bv8
  }

  /** The attribute byte stored in the high byte of a cell. */
  function CellAttr(cell: bv16): bv8
  {
    (cell >> 8) as bv8
  }

  /**
    vga_entry: the cell showing character `ch` in attribute `attr`; the
    character and the attribute can be read back from it.
   */
  function Entry(ch: bv8, attr: bv8): (cell: bv16)
    ensures CellChar(cell) == ch && CellAttr(cell) == attr
  {
    (ch as bv16) | ((attr as bv16) << 8)
  }

  /** Every cell is the packing of the character and attribute it holds. */
  lemma CellRoundTrip(cell: bv16)
    ensures Entry(CellChar(cell), CellAttr(cell)) == cell
  {
  }

  /** Two cells are equal exactly when their characters and attributes are. */
  lemma EntryInjective(ch: bv8, attr: bv8, ch': bv8, attr': bv8)
    ensures Entry(ch, attr) == Entry(ch', attr') <==> ch == ch' && attr == attr'
  {
  }
}
