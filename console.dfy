/** What one rendered frame of the character console holds: the greeting at the top-left
    corner and the player glyph '@' under the cursor when the cursor is on the console.
    Cells are addressed (column, row), columns growing rightwards and rows downwards. */
module Console {

  /** The greeting printed at (0, 0) every frame. */
  const Greeting: string := "Hello World"

  /** The glyph drawn under the cursor. */
  const PlayerGlyph: char := '@'

  /** What a cleared cell holds. */
  const Blank: char := ' '

  /** A console of width w and height h has the cell (col, row): exactly the cells of a
      frame, and a cursor there has the glyph drawn under it. */
  predicate InBounds(w: nat, h: nat, col: int, row: int)
    ensures InBounds(w, h, col, row) <==>
              0 <= row < |Frame(w, h, col, row)| && 0 <= col < |Frame(w, h, col, row)[row]|
    ensures InBounds(w, h, col, row) ==> Frame(w, h, col, row)[row][col] == PlayerGlyph
  {
    0 <= col < w && 0 <= row < h
  }

  /** The cell after the console is cleared and the greeting printed, before the glyph. */
  function TextCell(col: nat, row: nat): (c: char)
    ensures c != PlayerGlyph
    ensures c != Blank ==> row == 0 && col < |Greeting|
  {
    if row == 0 && col < |Greeting| then Greeting[col] else Blank
  }

  /** The cell (col, row) of the frame drawn with the cursor at (px, py). */
  function FrameCell(px: int, py: int, col: nat, row: nat): (c: char)
    ensures c == PlayerGlyph <==> col == px && row == py
    ensures c != PlayerGlyph ==> c == TextCell(col, row)
  {
    if col == px && row == py then PlayerGlyph else TextCell(col, row)
  }

  /** The whole frame of a w-by-h console, as a sequence of h rows of w cells. */
  function Frame(w: nat, h: nat, px: int, py: int): (f: seq<seq<char>>)
    ensures |f| == h
    ensures forall row :: 0 <= row < h ==> |f[row]| == w
    ensures forall row, col :: 0 <= row < h && 0 <= col < w ==> f[row][col] == FrameCell(px, py, col, row)
  {
    seq(h, row requires 0 <= row < h => seq(w, col requires 0 <= col < w => FrameCell(px, py, col, row)))
  }

  /** The glyph appears in the frame exactly when the cursor is on the console, and then only under it. */
  lemma GlyphShownIffInBounds(w: nat, h: nat, px: int, py: int)
    ensures (exists row, col :: 0 <= row < h && 0 <= col < w && Frame(w, h, px, py)[row][col] == PlayerGlyph)
            <==> InBounds(w, h, px, py)
    ensures forall row, col :: 0 <= row < h && 0 <= col < w && Frame(w, h, px, py)[row][col] == PlayerGlyph ==>
              col == px && row == py
  {
    if InBounds(w, h, px, py) {
      assert Frame(w, h, px, py)[py][px] == PlayerGlyph;
    }
  }

  /** The greeting occupies the start of row 0, except for a cell the glyph covers. */
  lemma GreetingIntact(w: nat, h: nat, px: int, py: int, col: nat)
    requires 0 < h && col < |Greeting| <= w
    ensures Frame(w, h, px, py)[0][col] == if col == px && py == 0 then PlayerGlyph else Greeting[col]
  {
  }

  /** Every cell that is neither under the greeting nor under the cursor is blank. */
  lemma OtherCellsBlank(w: nat, h: nat, px: int, py: int, row: nat, col: nat)
    requires row < h && col < w
    requires !(col == px && row == py) && !(row == 0 && col < |Greeting|)
    ensures Frame(w, h, px, py)[row][col] == Blank
  {
  }

  /** A cursor off the console draws nothing: the frame is the same wherever off the console it is. */
  lemma OffscreenCursorInvisible(w: nat, h: nat, px: int, py: int, qx: int, qy: int)
    requires !InBounds(w, h, px, py) && !InBounds(w, h, qx, qy)
    ensures Frame(w, h, px, py) == Frame(w, h, qx, qy)
  {
    forall row | 0 <= row < h
      ensures Frame(w, h, px, py)[row] == Frame(w, h, qx, qy)[row]
    {
    }
  }
}
