/** `composite_circle`: a filled disc with an optional feathered rim.  Coordinates are reals
    and the square root is exact; `sqrt` is a parameter. */
module DiscFill {
  import opened ByteStrings
  import opened Canvas

  datatype Disc = Disc(cx: real, cy: real, radius: real, color: Color, feather: nat) {
    /** A rim is mixed from bytes; without one the adds saturate whatever the colour. */
    predicate Valid() {
      feather > 0 ==> color.r < 256 && color.g < 256 && color.b < 256
    }
  }

  ghost predicate IsSqrt(sqrt: real -> real) {
    forall v: real {:trigger sqrt(v)} :: v >= 0.0 ==> sqrt(v) >= 0.0 && sqrt(v) * sqrt(v) == v
  }

  function Square(v: real): (s: real)
    ensures s >= 0.0
  {
    v * v
  }

  function Dist(d: Disc, x: int, y: int, sqrt: real -> real): real {
    sqrt(Square(x as real - d.cx) + Square(y as real - d.cy))
  }

  predicate InDisc(d: Disc, x: int, y: int, sqrt: real -> real) {
    Dist(d, x, y, sqrt) <= d.radius
  }

  predicate OnRim(d: Disc, x: int, y: int, sqrt: real -> real) {
    d.feather > 0 && Dist(d, x, y, sqrt) > d.radius - d.feather as real
  }

  lemma SquaresInOrder(a: real, b: real)
    requires b >= 0.0 && a * a <= b * b
    ensures -b <= a <= b
  {
    SquareGrows(a, b);
    SquareGrows(-a, b);
    assert -a * -a == a * a;
  }

  lemma SquareGrows(a: real, b: real)
    requires b >= 0.0
    ensures a > b ==> a * a > b * b
  {
    if a > b {
      assert a * a - b * b == (a - b) * (a + b);
      Product(a - b, 0.0, a + b);
    }
  }

  lemma Product(a: real, b: real, k: real)
    requires a > b && k >= 0.0
    ensures a * k >= b * k && (k > 0.0 ==> a * k > b * k)
  {}

  /** The disc is the set of points whose squared distance is at most the squared radius. */
  lemma DiscIs(d: Disc, x: int, y: int, sqrt: real -> real)
    requires IsSqrt(sqrt)
    ensures InDisc(d, x, y, sqrt) <==>
              d.radius >= 0.0 && Square(x as real - d.cx) + Square(y as real - d.cy) <= Square(d.radius)
  {
    var v := Square(x as real - d.cx) + Square(y as real - d.cy);
    var s := sqrt(v);
    if s <= d.radius {
      MulBoth(s, d.radius);
    } else if d.radius >= 0.0 {
      SquareGrows(s, d.radius);
    }
  }

  lemma MulBoth(a: real, b: real)
    requires 0.0 <= a <= b
    ensures a * a <= b * b
  {
    assert a * a <= a * b <= b * b;
  }

  /** The loops' bounding box misses no pixel of the disc. */
  lemma BoxCoversDisc(d: Disc, x: int, y: int, sqrt: real -> real)
    requires IsSqrt(sqrt) && InDisc(d, x, y, sqrt) && 0 <= x && 0 <= y
    ensures Int(d.cx - d.radius) <= x < Int(d.cx + d.radius) + 1
    ensures Int(d.cy - d.radius) <= y < Int(d.cy + d.radius) + 1
  {
    DiscIs(d, x, y, sqrt);
    var dx, dy := x as real - d.cx, y as real - d.cy;
    assert dx * dx == Square(dx) <= Square(d.radius) == d.radius * d.radius;
    assert dy * dy == Square(dy) <= Square(d.radius) == d.radius * d.radius;
    SquaresInOrder(dx, d.radius);
    SquaresInOrder(dy, d.radius);
    IntBounds(d.cx, d.radius, x);
    IntBounds(d.cy, d.radius, y);
  }

  lemma IntBounds(c: real, r: real, x: int)
    requires 0 <= x && -r <= x as real - c <= r
    ensures Int(c - r) <= x < Int(c + r) + 1
  {}

  // ---------- The rim ----------

  function Portion(v: real, t: real): real {
    v * t
  }

  lemma PortionBounds(v: real, t: real)
    requires 0.0 <= v <= 255.0 && 0.0 <= t
    ensures 0.0 <= Portion(v, t) <= 255.0 * t
  {
    if v < 255.0 { Product(255.0, v, t); }
    if v > 0.0 { Product(v, 0.0, t); }
  }

  /** Mixing a byte with a colour part by 0 <= t <= 1 gives a byte. */
  function Mix(p: Byte, part: nat, t: real): Byte
    requires part < 256 && 0.0 <= t <= 1.0
  {
    PortionBounds(p as real, 1.0 - t);
    PortionBounds(part as real, t);
    ByteSum(Portion(p as real, 1.0 - t), Portion(part as real, t), 1.0 - t, t);
    (Portion(p as real, 1.0 - t) + Portion(part as real, t)).Floor
  }

  lemma ByteSum(a: real, b: real, s: real, t: real)
    requires 0.0 <= a <= 255.0 * s && 0.0 <= b <= 255.0 * t && s + t == 1.0
    ensures 0 <= (a + b).Floor < 256
  {}

  /** How far a rim pixel takes on the colour: 0 at the edge, 1 where the rim begins. */
  function Weight(d: Disc, x: int, y: int, sqrt: real -> real): (t: real)
    requires InDisc(d, x, y, sqrt) && OnRim(d, x, y, sqrt)
    ensures 0.0 <= t <= 1.0
  {
    Ratio(d.radius - Dist(d, x, y, sqrt), d.feather as real);
    (d.radius - Dist(d, x, y, sqrt)) / d.feather as real
  }

  lemma Ratio(a: real, f: real)
    requires 0.0 <= a <= f && f > 0.0
    ensures 0.0 <= a / f <= 1.0
  {
    var q := a / f;
    assert q * f == a;
    if q > 1.0 {
      Product(q, 1.0, f);
    }
  }

  /** The new value of one byte of a pixel. */
  function Shade(d: Disc, x: int, y: int, c: nat, p: Byte, sqrt: real -> real): Byte
    requires d.Valid() && c < 3
  {
    if !InDisc(d, x, y, sqrt) then p
    else if OnRim(d, x, y, sqrt) then Mix(p, d.color.Part(c), Weight(d, x, y, sqrt))
    else Sat(p, 1, d.color.Part(c))
  }

  /** The new byte by the pixel's distance s from the centre: outside the radius the old
      one, deeper inside than the feather a saturating add, and in between the byte and the
      colour mixed in the proportion of the distances to the two circles. */
  lemma ShadeIs(d: Disc, x: int, y: int, c: nat, p: Byte, sqrt: real -> real)
    requires d.Valid() && c < 3
    ensures var s := Dist(d, x, y, sqrt);
            var part, f := if c == 0 then d.color.r else if c == 1 then d.color.g else d.color.b, d.feather as real;
            var q := Shade(d, x, y, c, p, sqrt);
            && (s > d.radius ==> q == p)
            && (s <= d.radius && (d.feather == 0 || s <= d.radius - f) ==> q as int == Min(255, p + part))
            && (d.radius - f < s <= d.radius ==>
                  q as real * f <= p as real * (f - (d.radius - s)) + part as real * (d.radius - s)
                    < (q as real + 1.0) * f)
  {
    var s := Dist(d, x, y, sqrt);
    if s <= d.radius && OnRim(d, x, y, sqrt) {
      Quotient(d.radius - s, d.feather as real);
      MixIs(p, d.color.Part(c), Weight(d, x, y, sqrt), d.radius - s, d.feather as real);
    }
  }

  lemma Quotient(a: real, f: real)
    requires f > 0.0
    ensures a / f * f == a
  {}

  lemma MixIs(p: Byte, part: nat, t: real, inside: real, f: real)
    requires part < 256 && 0.0 <= t <= 1.0 && f > 0.0 && t * f == inside
    ensures var q := Mix(p, part, t) as real;
            q * f <= p as real * (f - inside) + part as real * inside < (q + 1.0) * f
  {
    var v := Portion(p as real, 1.0 - t) + Portion(part as real, t);
    MixFloor(p, part, t, v);
    Spread(p as real, part as real, t, f, inside);
    FloorTimes(Mix(p, part, t), v, f, p as real * (f - inside) + part as real * inside);
  }

  lemma MixFloor(p: Byte, part: nat, t: real, v: real)
    requires part < 256 && 0.0 <= t <= 1.0 && v == Portion(p as real, 1.0 - t) + Portion(part as real, t)
    ensures Mix(p, part, t) == v.Floor
  {}

  lemma FloorTimes(q: int, v: real, f: real, w: real)
    requires q == v.Floor && f > 0.0 && v * f == w
    ensures q as real * f <= w < (q as real + 1.0) * f
  {
    AtMostTimes(q as real, v, f, w);
    LessTimes(v, q as real + 1.0, f, w);
  }

  lemma AtMostTimes(a: real, b: real, f: real, w: real)
    requires a <= b && f > 0.0 && b * f == w
    ensures a * f <= w
  {
    assert (b - a) * f >= 0.0;
  }

  lemma LessTimes(a: real, b: real, f: real, w: real)
    requires a < b && f > 0.0 && a * f == w
    ensures w < b * f
  {
    assert (b - a) * f > 0.0;
  }

  lemma Spread(a: real, b: real, t: real, f: real, inside: real)
    requires t * f == inside
    ensures (Portion(a, 1.0 - t) + Portion(b, t)) * f == a * (f - inside) + b * inside
  {
    Distribute(Portion(a, 1.0 - t), Portion(b, t), f);
    Rearrange(a, 1.0 - t, f);
    Rearrange(b, t, f);
    assert (1.0 - t) * f == f - inside;
  }

  lemma Distribute(a: real, b: real, f: real)
    ensures (a + b) * f == a * f + b * f
  {}

  lemma Rearrange(a: real, t: real, f: real)
    ensures Portion(a, t) * f == a * (t * f)
  {}

  // ---------- The loops ----------

  /** Every pixel inside `done` is shaded once; every other one is as before. */
  ghost predicate Shaded(before: seq<Byte>, after: seq<Byte>, w: nat, h: nat, d: Disc, sqrt: real -> real,
                         done: (int, int) -> bool) {
    && d.Valid() && |before| == |after| == w * h * 3
    && forall x, y, c: nat {:trigger Px(after, w, h, x, y, c)} :: OnCanvas(w, h, x, y) && c < 3 ==>
         Px(after, w, h, x, y, c) ==
           if done(x, y) then Shade(d, x, y, c, Px(before, w, h, x, y, c), sqrt) else Px(before, w, h, x, y, c)
  }

  ghost function Before(x0: int, y0: int): (int, int) -> bool {
    (x, y) => y < y0 || (y == y0 && x < x0)
  }

  /** Two extents that agree on the disc describe the same drawing. */
  lemma Reshaded(a: seq<Byte>, b: seq<Byte>, w: nat, h: nat, d: Disc, sqrt: real -> real, t: (int, int) -> bool,
                 u: (int, int) -> bool)
    requires Shaded(a, b, w, h, d, sqrt, t)
    requires forall x, y :: OnCanvas(w, h, x, y) && InDisc(d, x, y, sqrt) ==> t(x, y) == u(x, y)
    ensures Shaded(a, b, w, h, d, sqrt, u)
  {
    forall x, y, c: nat | OnCanvas(w, h, x, y) && c < 3
      ensures Px(b, w, h, x, y, c) ==
                if u(x, y) then Shade(d, x, y, c, Px(a, w, h, x, y, c), sqrt) else Px(a, w, h, x, y, c)
    {
      if !InDisc(d, x, y, sqrt) {
        assert Shade(d, x, y, c, Px(a, w, h, x, y, c), sqrt) == Px(a, w, h, x, y, c);
      }
    }
  }

  /** One pixel of the bounding box: nothing outside the disc, a mix on the rim, a saturating
      add inside. */
  method ShadePixel(pixels: array<Byte>, w: nat, h: nat, x: int, y: int, d: Disc, sqrt: real -> real)
    requires pixels.Length == w * h * 3 && OnCanvas(w, h, x, y) && d.Valid()
    modifies pixels
    ensures Shaded(old(pixels[..]), pixels[..], w, h, d, sqrt, (a, b) => a == x && b == y)
  {
    AtInside(w, h, x, y);
    var dist := Dist(d, x, y, sqrt);
    if dist <= d.radius {
      var idx := (y * w + x) * 3;
      if d.feather > 0 && dist > d.radius - d.feather as real {
        var t := Weight(d, x, y, sqrt);
        pixels[idx] := Mix(pixels[idx], d.color.r, t);
        pixels[idx + 1] := Mix(pixels[idx + 1], d.color.g, t);
        pixels[idx + 2] := Mix(pixels[idx + 2], d.color.b, t);
      } else {
        pixels[idx] := SatAdd(pixels[idx], d.color.r);
        pixels[idx + 1] := SatAdd(pixels[idx + 1], d.color.g);
        pixels[idx + 2] := SatAdd(pixels[idx + 2], d.color.b);
      }
    }
    OnePixel(old(pixels[..]), pixels[..], w, h, x, y, d, sqrt);
  }

  lemma OnePixel(before: seq<Byte>, after: seq<Byte>, w: nat, h: nat, x: int, y: int, d: Disc, sqrt: real -> real)
    requires d.Valid() && |before| == |after| == w * h * 3 && OnCanvas(w, h, x, y)
    requires forall c: nat :: c < 3 ==> Px(after, w, h, x, y, c) == Shade(d, x, y, c, Px(before, w, h, x, y, c), sqrt)
    requires forall i :: 0 <= i < |before| && !(At(w, x, y) <= i < At(w, x, y) + 3) ==> after[i] == before[i]
    ensures Shaded(before, after, w, h, d, sqrt, (a, b) => a == x && b == y)
  {
    forall a, b, c: nat | OnCanvas(w, h, a, b) && c < 3 && !(a == x && b == y)
      ensures Px(after, w, h, a, b, c) == Px(before, w, h, a, b, c)
    {
      ElsewhereKept(before, after, w, h, x, y, a, b, c);
    }
  }

  lemma ShadedThen(a: seq<Byte>, b: seq<Byte>, c: seq<Byte>, w: nat, h: nat, d: Disc, sqrt: real -> real, x0: int,
                   y0: int)
    requires OnCanvas(w, h, x0, y0) && Shaded(a, b, w, h, d, sqrt, Before(x0, y0))
    requires Shaded(b, c, w, h, d, sqrt, (x, y) => x == x0 && y == y0)
    ensures Shaded(a, c, w, h, d, sqrt, Before(x0 + 1, y0))
  {
    forall x, y, k: nat | OnCanvas(w, h, x, y) && k < 3
      ensures Px(c, w, h, x, y, k) ==
                if Before(x0 + 1, y0)(x, y) then Shade(d, x, y, k, Px(a, w, h, x, y, k), sqrt) else Px(a, w, h, x, y, k)
    {
      assert Px(b, w, h, x, y, k) ==
               if Before(x0, y0)(x, y) then Shade(d, x, y, k, Px(a, w, h, x, y, k), sqrt) else Px(a, w, h, x, y, k);
    }
  }

  method DiscRow(pixels: array<Byte>, w: nat, h: nat, y: int, d: Disc, sqrt: real -> real, ghost start: seq<Byte>)
    requires pixels.Length == w * h * 3 && 0 <= y < h && d.Valid() && IsSqrt(sqrt)
    requires Shaded(start, pixels[..], w, h, d, sqrt, Before(0, y))
    modifies pixels
    ensures Shaded(start, pixels[..], w, h, d, sqrt, Before(0, y + 1))
  {
    var x := Max(0, Int(d.cx - d.radius));
    CoveredAll(w, h, d, sqrt);
    Reshaded(start, pixels[..], w, h, d, sqrt, Before(0, y), Before(x, y));
    while x < Min(w, Int(d.cx + d.radius) + 1)
      invariant Max(0, Int(d.cx - d.radius)) <= x
      invariant Shaded(start, pixels[..], w, h, d, sqrt, Before(x, y))
    {
      ghost var before := pixels[..];
      ShadePixel(pixels, w, h, x, y, d, sqrt);
      ShadedThen(start, before, pixels[..], w, h, d, sqrt, x, y);
      x := x + 1;
    }
    Reshaded(start, pixels[..], w, h, d, sqrt, Before(x, y), Before(0, y + 1));
  }

  ghost predicate Covered(d: Disc, x: int, y: int) {
    && Int(d.cx - d.radius) <= x < Int(d.cx + d.radius) + 1
    && Int(d.cy - d.radius) <= y < Int(d.cy + d.radius) + 1
  }

  lemma CoveredAll(w: nat, h: nat, d: Disc, sqrt: real -> real)
    requires IsSqrt(sqrt)
    ensures forall x, y :: OnCanvas(w, h, x, y) && InDisc(d, x, y, sqrt) ==> Covered(d, x, y)
  {
    forall x, y | OnCanvas(w, h, x, y) && InDisc(d, x, y, sqrt) ensures Covered(d, x, y) {
      BoxCoversDisc(d, x, y, sqrt);
    }
  }

  /** The whole buffer afterwards: every pixel of the disc that lies on the canvas is shaded
      exactly once, every other byte stays, for any centre and radius. */
  method CompositeCircle(pixels: array<Byte>, w: nat, h: nat, d: Disc, sqrt: real -> real)
    requires pixels.Length == w * h * 3 && d.Valid() && IsSqrt(sqrt)
    modifies pixels
    ensures Shaded(old(pixels[..]), pixels[..], w, h, d, sqrt, (x, y) => true)
  {
    ghost var start := pixels[..];
    var y := Max(0, Int(d.cy - d.radius));
    CoveredAll(w, h, d, sqrt);
    assert Shaded(start, start, w, h, d, sqrt, (a, b) => false);
    Reshaded(start, start, w, h, d, sqrt, (a, b) => false, Before(0, y));
    while y < Min(h, Int(d.cy + d.radius) + 1)
      invariant Max(0, Int(d.cy - d.radius)) <= y
      invariant Shaded(start, pixels[..], w, h, d, sqrt, Before(0, y))
    {
      DiscRow(pixels, w, h, y, d, sqrt, start);
      y := y + 1;
    }
    Reshaded(start, pixels[..], w, h, d, sqrt, Before(0, y), (a, b) => true);
  }
}
