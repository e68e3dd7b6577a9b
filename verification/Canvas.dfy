/** The RGB pixel buffer that the image generator paints on: a flat byte array in row-major
    order, and what it means that a drawing has added a colour to each pixel some number of
    times, saturating at 255. */
module Canvas {
  import opened ByteStrings

  /** A colour to add: three non-negative components. */
  datatype Color = Color(r: nat, g: nat, b: nat) {
    function Part(c: nat): nat
      requires c < 3
    {
      if c == 0 then r else if c == 1 then g else b
    }
  }

  /** How often a drawing adds the colour to a pixel. */
  type Times = (int, int) -> nat

  /** Offset of the red byte of a pixel. */
  function At(w: nat, x: int, y: int): int {
    (y * w + x) * 3
  }

  lemma AtInside(w: nat, h: nat, x: int, y: int)
    requires 0 <= x < w && 0 <= y < h
    ensures 0 <= At(w, x, y) && At(w, x, y) + 2 < w * h * 3
  {
    assert 0 <= y * w <= (h - 1) * w;
    assert (h - 1) * w + w == h * w;
  }

  lemma RowsApart(w: nat, y: int, y': int)
    requires y < y'
    ensures y * w + w <= y' * w
  {
    var between: nat := y' - y - 1;
    assert between * w >= 0;
    assert (y + 1 + between) * w == y * w + w + between * w;
  }

  lemma AtInjective(w: nat, x: int, y: int, x': int, y': int)
    requires 0 <= x < w && 0 <= x' < w && At(w, x, y) == At(w, x', y')
    ensures x == x' && y == y'
  {
    if y < y' { RowsApart(w, y, y'); }
    if y' < y { RowsApart(w, y', y); }
  }

  predicate OnCanvas(w: nat, h: nat, x: int, y: int) {
    0 <= x < w && 0 <= y < h
  }

  function Px(buf: seq<Byte>, w: nat, h: nat, x: int, y: int, c: nat): Byte
    requires |buf| == w * h * 3 && OnCanvas(w, h, x, y) && c < 3
  {
    AtInside(w, h, x, y);
    buf[At(w, x, y) + c]
  }

  /** Adding `c` to a byte `k` times, saturating. */
  function Sat(p: Byte, k: nat, c: nat): Byte {
    var sum := p + k * c;
    if sum < 255 then (assert k * c >= 0; sum) else 255
  }

  lemma SatTwice(p: Byte, k: nat, l: nat, c: nat)
    ensures Sat(Sat(p, k, c), l, c) == Sat(p, k + l, c)
  {
    assert (k + l) * c == k * c + l * c;
    assert k * c >= 0 && l * c >= 0;
  }

  /** `after` is `before` with the colour added to every pixel as often as `times` says. */
  ghost predicate Painted(before: seq<Byte>, after: seq<Byte>, w: nat, h: nat, color: Color, times: Times) {
    && |before| == |after| == w * h * 3
    && forall x, y, c: nat {:trigger Px(after, w, h, x, y, c)} :: OnCanvas(w, h, x, y) && c < 3 ==>
         Px(after, w, h, x, y, c) == Sat(Px(before, w, h, x, y, c), times(x, y), color.Part(c))
  }

  /** The three bytes of a painted pixel: red, green and blue, row by row. */
  lemma PaintedBytes(before: seq<Byte>, after: seq<Byte>, w: nat, h: nat, color: Color, times: Times, x: int, y: int)
    requires Painted(before, after, w, h, color, times) && OnCanvas(w, h, x, y)
    ensures var i := (y * w + x) * 3;
            && 0 <= i < i + 2 < |after| == |before|
            && after[i] as int == Min(255, before[i] + times(x, y) * color.r)
            && after[i + 1] as int == Min(255, before[i + 1] + times(x, y) * color.g)
            && after[i + 2] as int == Min(255, before[i + 2] + times(x, y) * color.b)
  {
    AtInside(w, h, x, y);
    assert forall c: nat :: c < 3 ==>
             Px(after, w, h, x, y, c) == Sat(Px(before, w, h, x, y, c), times(x, y), color.Part(c));
    assert Px(after, w, h, x, y, 0) == after[(y * w + x) * 3];
    assert Px(after, w, h, x, y, 1) == after[(y * w + x) * 3 + 1];
    assert Px(after, w, h, x, y, 2) == after[(y * w + x) * 3 + 2];
  }

  lemma PaintedThen(a: seq<Byte>, b: seq<Byte>, c: seq<Byte>, w: nat, h: nat, color: Color, t: Times, u: Times,
                    sum: Times)
    requires Painted(a, b, w, h, color, t) && Painted(b, c, w, h, color, u)
    requires forall x, y :: OnCanvas(w, h, x, y) ==> sum(x, y) == t(x, y) + u(x, y)
    ensures Painted(a, c, w, h, color, sum)
  {
    forall x, y, k: nat | OnCanvas(w, h, x, y) && k < 3
      ensures Px(c, w, h, x, y, k) == Sat(Px(a, w, h, x, y, k), sum(x, y), color.Part(k))
    {
      SatTwice(Px(a, w, h, x, y, k), t(x, y), u(x, y), color.Part(k));
      assert Px(b, w, h, x, y, k) == Sat(Px(a, w, h, x, y, k), t(x, y), color.Part(k));
    }
  }

  lemma NothingPainted(a: seq<Byte>, w: nat, h: nat, color: Color, t: Times)
    requires |a| == w * h * 3 && forall x, y :: OnCanvas(w, h, x, y) ==> t(x, y) == 0
    ensures Painted(a, a, w, h, color, t)
  {}

  ghost function One(px: int, py: int): Times {
    (x, y) => if x == px && y == py then 1 else 0
  }

  /** The three assignments `pixels[idx + c] = min(255, pixels[idx + c] + color[c])`. */
  method AddPixel(pixels: array<Byte>, w: nat, h: nat, x: int, y: int, color: Color)
    requires pixels.Length == w * h * 3 && OnCanvas(w, h, x, y)
    modifies pixels
    ensures Painted(old(pixels[..]), pixels[..], w, h, color, One(x, y))
  {
    AtInside(w, h, x, y);
    var idx := (y * w + x) * 3;
    pixels[idx] := SatAdd(pixels[idx], color.r);
    pixels[idx + 1] := SatAdd(pixels[idx + 1], color.g);
    pixels[idx + 2] := SatAdd(pixels[idx + 2], color.b);
    OnePainted(old(pixels[..]), pixels[..], w, h, x, y, color);
  }

  lemma OnePainted(before: seq<Byte>, after: seq<Byte>, w: nat, h: nat, x: int, y: int, color: Color)
    requires |before| == |after| == w * h * 3 && OnCanvas(w, h, x, y)
    requires forall c: nat :: c < 3 ==> Px(after, w, h, x, y, c) == Sat(Px(before, w, h, x, y, c), 1, color.Part(c))
    requires forall i :: 0 <= i < |before| && !(At(w, x, y) <= i < At(w, x, y) + 3) ==> after[i] == before[i]
    ensures Painted(before, after, w, h, color, One(x, y))
  {
    forall a, b, c: nat | OnCanvas(w, h, a, b) && c < 3
      ensures Px(after, w, h, a, b, c) == Sat(Px(before, w, h, a, b, c), One(x, y)(a, b), color.Part(c))
    {
      if a != x || b != y {
        ElsewhereKept(before, after, w, h, x, y, a, b, c);
      }
    }
  }

  lemma ElsewhereKept(before: seq<Byte>, after: seq<Byte>, w: nat, h: nat, x: int, y: int, a: int, b: int, c: nat)
    requires |before| == |after| == w * h * 3 && OnCanvas(w, h, x, y)
    requires OnCanvas(w, h, a, b) && c < 3 && (a != x || b != y)
    requires forall i :: 0 <= i < |before| && !(At(w, x, y) <= i < At(w, x, y) + 3) ==> after[i] == before[i]
    ensures Px(after, w, h, a, b, c) == Px(before, w, h, a, b, c)
  {
    AtInside(w, h, a, b);
    if At(w, a, b) == At(w, x, y) { AtInjective(w, a, b, x, y); }
  }

  function SatAdd(p: Byte, c: nat): (r: Byte)
    ensures r == Sat(p, 1, c)
  {
    if p + c < 255 then p + c else 255
  }

  /** Python's `int(r)`: truncation toward zero. */
  function Int(r: real): int {
    if r >= 0.0 then r.Floor else -((-r).Floor)
  }

  // ---------- Rectangles ----------

  ghost function InRect(x1: int, y1: int, x2: int, y2: int): Times {
    (x, y) => if x1 <= x < x2 && y1 <= y < y2 then 1 else 0
  }

  /** The pixels of the rectangle that come before (x0, y0) in row-major order. */
  ghost function InRectBefore(x1: int, y1: int, x2: int, y2: int, x0: int, y0: int): Times {
    (x, y) => if x1 <= x < x2 && y1 <= y < y2 && (y < y0 || (y == y0 && x < x0)) then 1 else 0
  }

  function Max(a: int, b: int): int { if a > b then a else b }

  function Min(a: int, b: int): int { if a < b then a else b }

  /** `composite_rect`: every pixel of the rectangle that lies on the canvas gets one
      saturating add, every other byte stays. */
  method CompositeRect(pixels: array<Byte>, w: nat, h: nat, x1: int, y1: int, x2: int, y2: int, color: Color)
    requires pixels.Length == w * h * 3
    modifies pixels
    ensures Painted(old(pixels[..]), pixels[..], w, h, color, InRect(x1, y1, x2, y2))
  {
    ghost var start := pixels[..];
    var y := Max(0, y1);
    NothingPainted(start, w, h, color, InRectBefore(x1, y1, x2, y2, x1, y));
    while y < Min(h, y2)
      invariant Max(0, y1) <= y && (y <= h || y == Max(0, y1))
      invariant Painted(start, pixels[..], w, h, color, InRectBefore(x1, y1, x2, y2, x1, y))
    {
      RectRow(pixels, w, h, x1, y1, x2, y2, y, color, start);
      y := y + 1;
    }
    Repainted(start, pixels[..], w, h, color, InRectBefore(x1, y1, x2, y2, x1, y), InRect(x1, y1, x2, y2));
  }

  /** The inner loop over one row of the rectangle. */
  method RectRow(pixels: array<Byte>, w: nat, h: nat, x1: int, y1: int, x2: int, y2: int, y: int, color: Color,
                 ghost start: seq<Byte>)
    requires pixels.Length == w * h * 3 && 0 <= y < h && y1 <= y < y2
    requires Painted(start, pixels[..], w, h, color, InRectBefore(x1, y1, x2, y2, x1, y))
    modifies pixels
    ensures Painted(start, pixels[..], w, h, color, InRectBefore(x1, y1, x2, y2, x1, y + 1))
  {
    var x := Max(0, x1);
    Repainted(start, pixels[..], w, h, color, InRectBefore(x1, y1, x2, y2, x1, y), InRectBefore(x1, y1, x2, y2, x, y));
    while x < Min(w, x2)
      invariant Max(0, x1) <= x
      invariant Painted(start, pixels[..], w, h, color, InRectBefore(x1, y1, x2, y2, x, y))
    {
      ghost var before := pixels[..];
      AddPixel(pixels, w, h, x, y, color);
      PaintedThen(start, before, pixels[..], w, h, color,
                  InRectBefore(x1, y1, x2, y2, x, y), One(x, y), InRectBefore(x1, y1, x2, y2, x + 1, y));
      x := x + 1;
    }
    Repainted(start, pixels[..], w, h, color,
              InRectBefore(x1, y1, x2, y2, x, y), InRectBefore(x1, y1, x2, y2, x1, y + 1));
  }

  /** Two counts that agree on the canvas describe the same painting. */
  lemma Repainted(a: seq<Byte>, b: seq<Byte>, w: nat, h: nat, color: Color, t: Times, u: Times)
    requires Painted(a, b, w, h, color, t)
    requires forall x, y :: OnCanvas(w, h, x, y) ==> t(x, y) == u(x, y)
    ensures Painted(a, b, w, h, color, u)
  {}
}
