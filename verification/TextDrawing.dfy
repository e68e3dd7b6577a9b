/** `draw_text`: five nested loops over characters, font rows and columns, and the square
    of `scale` x `scale` pixels of each set bit. */
module TextDrawing {
  import opened ByteStrings
  import opened Canvas

  /** Eight bytes a glyph, most significant bit leftmost. */
  type Font = map<char, seq<bv8>>

  ghost predicate ValidFont(font: Font) {
    forall c :: c in font ==> |font[c]| == 8
  }

  predicate BitSet(row: bv8, col: nat)
    requires col < 8
  {
    row & (0x80 >> col) != 0
  }

  const BITS: seq<bv8> := [0x80, 0x40, 0x20, 0x10, 0x08, 0x04, 0x02, 0x01]

  /** The eight bits of a row from left to right, highest first. */
  lemma BitsFromLeft(row: bv8, col: nat)
    requires col < 8
    ensures BitSet(row, col) <==> row & BITS[col] != 0
  {}

  /** The font bit at cell column `u` (over the whole upper-case text) and cell row `v`. */
  predicate CellOn(font: Font, text: string, u: int, v: int)
    requires ValidFont(font)
  {
    && 0 <= u < 8 * |text| && 0 <= v < 8
    && text[u / 8] in font
    && BitSet(font[text[u / 8]][v], u % 8)
  }

  /** The cell column or row that a pixel coordinate falls in, -1 before the origin. */
  function Cell(origin: int, scale: nat, p: int): int
    requires scale > 0
  {
    if p < origin then -1 else (p - origin) / scale
  }

  /** What `draw_text` adds to a pixel: one add where the cell that the pixel falls in, by
      division by the scale, has its bit set. */
  ghost function TextTimes(font: Font, text: string, x: int, y: int, scale: int): Times
    requires ValidFont(font)
  {
    (px, py) => if scale > 0 && CellOn(font, text, Cell(x, scale, px), Cell(y, scale, py)) then 1 else 0
  }

  /** Cells in the order of the loops: by character, font row, font column. */
  predicate CellBefore(u: int, v: int, ch: int, row: int, col: int) {
    u / 8 < ch || (u / 8 == ch && (v < row || (v == row && u % 8 < col)))
  }

  /** The adds of the cells before (ch, row, col). */
  ghost function TextTimesBefore(font: Font, text: string, x: int, y: int, scale: nat, ch: int, row: int,
                                 col: int): Times
    requires ValidFont(font) && scale > 0
  {
    (px, py) =>
      if CellOn(font, text, Cell(x, scale, px), Cell(y, scale, py))
         && CellBefore(Cell(x, scale, px), Cell(y, scale, py), ch, row, col) then 1 else 0
  }

  lemma CellRange(origin: int, scale: nat, p: int, k: nat)
    requires scale > 0
    ensures Cell(origin, scale, p) == k <==> origin + k * scale <= p < origin + k * scale + scale
  {
    assert k * scale >= 0;
    if p >= origin {
      var d := p - origin;
      assert d == d / scale * scale + d % scale;
      if d / scale < k { RowsApart(scale, d / scale, k); }
      if k < d / scale { RowsApart(scale, k, d / scale); }
    }
  }

  /** The pixels of bit `col` in row `row` of the glyph of character `ch`, wherever the square of
      `scale` x `scale` pixels puts them: glyphs stand upright, eight cells apart. */
  lemma GlyphPixel(font: Font, text: string, x: int, y: int, scale: nat, ch: nat, row: nat, col: nat, sx: nat, sy: nat)
    requires ValidFont(font) && ch < |text| && row < 8 && col < 8 && sx < scale && sy < scale
    ensures TextTimes(font, text, x, y, scale)(x + (8 * ch + col) * scale + sx, y + row * scale + sy)
         == if text[ch] in font && font[text[ch]][row] & BITS[col] != 0 then 1 else 0
  {
    if text[ch] in font {
      BitsFromLeft(font[text[ch]][row], col);
    }
    CellRange(x, scale, x + (8 * ch + col) * scale + sx, 8 * ch + col);
    CellRange(y, scale, y + row * scale + sy, row);
    assert (8 * ch + col) / 8 == ch && (8 * ch + col) % 8 == col;
  }

  /** The rest of the canvas is left alone. */
  lemma NoPixelElsewhere(font: Font, text: string, x: int, y: int, scale: nat, px: int, py: int)
    requires ValidFont(font) && scale > 0
    requires px < x || px >= x + 8 * |text| * scale || py < y || py >= y + 8 * scale
    ensures TextTimes(font, text, x, y, scale)(px, py) == 0
  {
    if TextTimes(font, text, x, y, scale)(px, py) != 0 {
      var u, v := Cell(x, scale, px), Cell(y, scale, py);
      CellRange(x, scale, px, u);
      CellRange(y, scale, py, v);
      RowsApart(scale, u, 8 * |text|);
      RowsApart(scale, v, 8);
    }
  }

  /** The pixels of one cell: the square that the two innermost loops run over. */
  method DrawCell(pixels: array<Byte>, w: nat, h: nat, cx: int, cy: int, scale: nat, color: Color)
    requires pixels.Length == w * h * 3
    modifies pixels
    ensures Painted(old(pixels[..]), pixels[..], w, h, color, InRect(cx, cy, cx + scale, cy + scale))
  {
    ghost var start := pixels[..];
    NothingPainted(start, w, h, color, InRectBefore(cx, cy, cx + scale, cy + scale, cx, cy));
    for sy := 0 to scale
      invariant Painted(start, pixels[..], w, h, color, InRectBefore(cx, cy, cx + scale, cy + scale, cx, cy + sy))
    {
      for sx := 0 to scale
        invariant Painted(start, pixels[..], w, h, color,
                          InRectBefore(cx, cy, cx + scale, cy + scale, cx + sx, cy + sy))
      {
        var px, py := cx + sx, cy + sy;
        ghost var before := pixels[..];
        ghost var done, next :=
          InRectBefore(cx, cy, cx + scale, cy + scale, px, py),
          InRectBefore(cx, cy, cx + scale, cy + scale, px + 1, py);
        if 0 <= px < w && 0 <= py < h {
          AddPixel(pixels, w, h, px, py, color);
          PaintedThen(start, before, pixels[..], w, h, color, done, One(px, py), next);
        } else {
          Repainted(start, pixels[..], w, h, color, done, next);
        }
      }
      Repainted(start, pixels[..], w, h, color,
                InRectBefore(cx, cy, cx + scale, cy + scale, cx + scale, cy + sy),
                InRectBefore(cx, cy, cx + scale, cy + scale, cx, cy + sy + 1));
    }
    Repainted(start, pixels[..], w, h, color,
              InRectBefore(cx, cy, cx + scale, cy + scale, cx, cy + scale), InRect(cx, cy, cx + scale, cy + scale));
  }

  /** One cell further in the loop order. */
  lemma CellBeforeNext(u: int, v: int, ch: nat, row: nat, col: nat)
    requires col < 8
    ensures CellBefore(u, v, ch, row, col + 1) <==> CellBefore(u, v, ch, row, col) || (u == ch * 8 + col && v == row)
    ensures !CellBefore(ch * 8 + col, row, ch, row, col)
  {
    assert u == u / 8 * 8 + u % 8;
  }

  /** One cell further in the loops adds exactly that cell's square, if its bit is set. */
  lemma NextCell(font: Font, text: string, x: int, y: int, scale: nat, ch: nat, row: nat, col: nat, px: int, py: int)
    requires ValidFont(font) && scale > 0 && col < 8
    ensures TextTimesBefore(font, text, x, y, scale, ch, row, col + 1)(px, py)
         == TextTimesBefore(font, text, x, y, scale, ch, row, col)(px, py)
          + if CellOn(font, text, ch * 8 + col, row)
            then InRect(x + ch * 8 * scale + col * scale, y + row * scale,
                        x + ch * 8 * scale + col * scale + scale, y + row * scale + scale)(px, py)
            else 0
  {
    assert ch * 8 * scale + col * scale == (ch * 8 + col) * scale;
    CellRange(x, scale, px, ch * 8 + col);
    CellRange(y, scale, py, row);
    CellBeforeNext(Cell(x, scale, px), Cell(y, scale, py), ch, row, col);
  }

  lemma PaintCell(start: seq<Byte>, before: seq<Byte>, after: seq<Byte>, w: nat, h: nat, color: Color,
                  font: Font, text: string, x: int, y: int, scale: nat, ch: nat, row: nat, col: nat)
    requires ValidFont(font) && scale > 0 && col < 8
    requires Painted(start, before, w, h, color, TextTimesBefore(font, text, x, y, scale, ch, row, col))
    requires if CellOn(font, text, ch * 8 + col, row)
             then Painted(before, after, w, h, color,
                    InRect(x + ch * 8 * scale + col * scale, y + row * scale,
                           x + ch * 8 * scale + col * scale + scale, y + row * scale + scale))
             else before == after
    ensures Painted(start, after, w, h, color, TextTimesBefore(font, text, x, y, scale, ch, row, col + 1))
  {
    forall px, py | OnCanvas(w, h, px, py) {
      NextCell(font, text, x, y, scale, ch, row, col, px, py);
    }
    var done := TextTimesBefore(font, text, x, y, scale, ch, row, col);
    var next := TextTimesBefore(font, text, x, y, scale, ch, row, col + 1);
    if CellOn(font, text, ch * 8 + col, row) {
      PaintedThen(start, before, after, w, h, color, done,
                  InRect(x + ch * 8 * scale + col * scale, y + row * scale,
                         x + ch * 8 * scale + col * scale + scale, y + row * scale + scale), next);
    } else {
      Repainted(start, after, w, h, color, done, next);
    }
  }

  /** `upper` is the upper-casing of whole texts, which may change their length. */
  method DrawText(pixels: array<Byte>, w: nat, h: nat, font: Font, text: string, x: int, y: int,
                  color: Color, scale: int, upper: string -> string)
    requires pixels.Length == w * h * 3 && ValidFont(font)
    modifies pixels
    ensures Painted(old(pixels[..]), pixels[..], w, h, color, TextTimes(font, upper(text), x, y, scale))
  {
    var shown := upper(text);
    ghost var start := pixels[..];
    if scale <= 0 {
      // range(scale) is empty in both innermost loops
      NothingPainted(start, w, h, color, TextTimes(font, shown, x, y, scale));
      return;
    }
    NothingPainted(start, w, h, color, TextTimesBefore(font, shown, x, y, scale, 0, 0, 0));
    for ch := 0 to |shown|
      invariant Painted(start, pixels[..], w, h, color, TextTimesBefore(font, shown, x, y, scale, ch, 0, 0))
    {
      if shown[ch] in font {
        DrawGlyph(pixels, w, h, font, shown, x, y, color, scale, ch, start);
      } else {
        Repainted(start, pixels[..], w, h, color,
                  TextTimesBefore(font, shown, x, y, scale, ch, 0, 0),
                  TextTimesBefore(font, shown, x, y, scale, ch + 1, 0, 0));
      }
    }
    Repainted(start, pixels[..], w, h, color,
              TextTimesBefore(font, shown, x, y, scale, |shown|, 0, 0), TextTimes(font, shown, x, y, scale));
  }

  /** The row and column loops of one character. */
  method DrawGlyph(pixels: array<Byte>, w: nat, h: nat, font: Font, text: string, x: int, y: int, color: Color,
                   scale: nat,
                   ch: nat, ghost start: seq<Byte>)
    requires pixels.Length == w * h * 3 && ValidFont(font) && scale > 0
    requires ch < |text| && text[ch] in font
    requires Painted(start, pixels[..], w, h, color, TextTimesBefore(font, text, x, y, scale, ch, 0, 0))
    modifies pixels
    ensures Painted(start, pixels[..], w, h, color, TextTimesBefore(font, text, x, y, scale, ch + 1, 0, 0))
  {
    var bitmap := font[text[ch]];
    for row := 0 to 8
      invariant Painted(start, pixels[..], w, h, color, TextTimesBefore(font, text, x, y, scale, ch, row, 0))
    {
      for col := 0 to 8
        invariant Painted(start, pixels[..], w, h, color, TextTimesBefore(font, text, x, y, scale, ch, row, col))
      {
        ghost var before := pixels[..];
        assert (ch * 8 + col) / 8 == ch && (ch * 8 + col) % 8 == col;
        if BitSet(bitmap[row], col) {
          DrawCell(pixels, w, h, x + ch * 8 * scale + col * scale, y + row * scale, scale, color);
        }
        PaintCell(start, before, pixels[..], w, h, color, font, text, x, y, scale, ch, row, col);
      }
      Repainted(start, pixels[..], w, h, color,
                TextTimesBefore(font, text, x, y, scale, ch, row, 8),
                TextTimesBefore(font, text, x, y, scale, ch, row + 1, 0));
    }
    Repainted(start, pixels[..], w, h, color,
              TextTimesBefore(font, text, x, y, scale, ch, 8, 0),
              TextTimesBefore(font, text, x, y, scale, ch + 1, 0, 0));
  }
}
