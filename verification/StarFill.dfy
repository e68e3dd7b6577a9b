/** `draw_star`'s scanline fill over an arbitrary closed polygon: the half-open edge test,
    the pairing of sorted crossings and the span writes. */
module StarFill {
  import opened ByteStrings
  import opened Canvas
  import opened Sorting

  datatype Point = Point(x: real, y: real)

  /** `(y1 < y <= y2) or (y2 < y <= y1)` */
  predicate Crosses(p: Point, q: Point, y: real) {
    p.y < y <= q.y || q.y < y <= p.y
  }

  /** Where the edge meets the scanline. */
  function CrossingX(p: Point, q: Point, y: real): real {
    var t := if q.y != p.y then (y - p.y) / (q.y - p.y) else 0.0;
    p.x + t * (q.x - p.x)
  }

  /** The crossing lies on the edge: on the line through its ends, and between them. */
  lemma CrossingOnEdge(p: Point, q: Point, y: real)
    requires Crosses(p, q, y)
    ensures (CrossingX(p, q, y) - p.x) * (q.y - p.y) == (y - p.y) * (q.x - p.x)
    ensures p.x <= CrossingX(p, q, y) <= q.x || q.x <= CrossingX(p, q, y) <= p.x
  {
    var t, dx, dy := (y - p.y) / (q.y - p.y), q.x - p.x, q.y - p.y;
    assert t * dy == y - p.y;
    Regroup(t, dx, dy);
    PartOf(y - p.y, dy);
    Between(t, dx);
  }

  lemma Regroup(t: real, dx: real, dy: real)
    ensures (t * dx) * dy == (t * dy) * dx
  {}

  lemma PartOf(part: real, whole: real)
    requires 0.0 <= part <= whole || whole <= part <= 0.0
    requires whole != 0.0
    ensures 0.0 <= part / whole <= 1.0
  {}

  lemma Between(t: real, d: real)
    requires 0.0 <= t <= 1.0
    ensures 0.0 <= t * d <= d || d <= t * d <= 0.0
  {}

  function EndOf(pts: seq<Point>, i: nat): Point
    requires i < |pts|
  {
    pts[(i + 1) % |pts|]
  }

  /** The edges among the first `k` that the scanline crosses. */
  function CrossedEdges(pts: seq<Point>, y: real, k: nat): (es: seq<nat>)
    requires k <= |pts|
    ensures forall j :: 0 <= j < |es| ==> es[j] < k
  {
    if k == 0 then []
    else if Crosses(pts[k - 1], EndOf(pts, k - 1), y) then CrossedEdges(pts, y, k - 1) + [k - 1]
    else CrossedEdges(pts, y, k - 1)
  }

  function CrossingsOn(pts: seq<Point>, y: real, es: seq<nat>): (xs: seq<real>)
    requires forall j :: 0 <= j < |es| ==> es[j] < |pts|
  {
    seq(|es|, j requires 0 <= j < |es| => CrossingX(pts[es[j]], EndOf(pts, es[j]), y))
  }

  /** The crossings of the scanline with the polygon, in edge order. */
  function AllCrossings(pts: seq<Point>, y: real): (xs: seq<real>)
    ensures |xs| == |CrossedEdges(pts, y, |pts|)|
  {
    CrossingsOn(pts, y, CrossedEdges(pts, y, |pts|))
  }

  predicate Above(p: Point, y: real) { p.y < y }

  lemma CrossesIff(p: Point, q: Point, y: real)
    ensures Crosses(p, q, y) <==> (p.y < y) != (q.y < y)
  {}

  lemma EndInside(pts: seq<Point>, i: nat)
    requires i < |pts|
    ensures EndOf(pts, i) == if i + 1 < |pts| then pts[i + 1] else pts[0]
  {}

  predicate Odd(n: nat) {
    n % 2 == 1
  }

  lemma OddStep(n: nat)
    ensures Odd(n + 1) <==> !Odd(n)
  {}

  /** Half-open edges: walking from vertex 0 along k edges, the number of crossings is odd
      exactly when the two ends are on different sides of the scanline. */
  lemma {:induction false} CrossingParity(pts: seq<Point>, y: real, k: nat)
    requires 0 < k <= |pts|
    ensures Odd(|CrossedEdges(pts, y, k)|) <==> Above(pts[0], y) != Above(EndOf(pts, k - 1), y)
  {
    CrossesIff(pts[k - 1], EndOf(pts, k - 1), y);
    OddStep(|CrossedEdges(pts, y, k - 1)|);
    if k > 1 {
      CrossingParity(pts, y, k - 1);
      EndInside(pts, k - 2);
    } else {
      assert CrossedEdges(pts, y, 0) == [];
    }
  }

  /** Every scanline meets a closed polygon an even number of times. */
  lemma EvenCrossings(pts: seq<Point>, y: real)
    ensures |AllCrossings(pts, y)| % 2 == 0
  {
    if pts != [] {
      CrossingParity(pts, y, |pts|);
      EndInside(pts, |pts| - 1);
    }
  }

  // ---------- Sorting the crossings ----------

  ghost predicate Ascending(xs: seq<real>) {
    forall i, j :: 0 <= i < j < |xs| ==> xs[i] <= xs[j]
  }

  function Self(): real -> real {
    (x: real) => x
  }

  function Sorted(xs: seq<real>): (r: seq<real>)
    ensures multiset(r) == multiset(xs) && |r| == |xs|
  {
    Sort(xs, Self())
  }

  lemma SortedAscends(xs: seq<real>)
    ensures Ascending(Sorted(xs))
  {
    SortSorts(xs, Self());
    var r := Sorted(xs);
    forall i, j | 0 <= i < j < |r| ensures r[i] <= r[j] {
      assert Self()(r[i]) <= Self()(r[j]);
    }
  }

  // ---------- Spans ----------

  predicate InSpan(a: real, b: real, x: int, w: nat) {
    Max(0, Int(a)) <= x < Min(w, Int(b) + 1)
  }

  /** A span covers the columns whose pixel it reaches: those that begin at or before its right
      end and end behind its left end; column 0 also if it ends less than a pixel before it. */
  lemma InSpanIff(a: real, b: real, x: int, w: nat)
    ensures InSpan(a, b, x, w) <==>
              0 <= x < w && a < (x + 1) as real && (x as real <= b || (x == 0 && b > -1.0))
  {
    TruncationIs(a, x);
    TruncationIs(b, x);
  }

  lemma TruncationIs(r: real, x: int)
    ensures 0 <= x ==> (Int(r) <= x <==> r < (x + 1) as real)
    ensures 0 <= x ==> (x <= Int(r) <==> x as real <= r || (x == 0 && r > -1.0))
  {}

  /** How many of the spans [xs0, xs1], [xs2, xs3], ... cover column x. */
  function SpanCount(xs: seq<real>, x: int, w: nat): nat {
    if |xs| < 2 then 0
    else
      var rest := SpanCount(xs[2..], x, w);
      if InSpan(xs[0], xs[1], x, w) then rest + 1 else rest
  }

  /** How often the fill adds the colour to a pixel: once per span of its scanline. */
  ghost function FillTimes(pts: seq<Point>, w: nat): Times {
    (x, y) => SpanCount(Sorted(AllCrossings(pts, y as real)), x, w)
  }

  // ---------- The fill is the even-odd rule ----------

  function CountLeft(xs: seq<real>, x: real): nat {
    if xs == [] then 0
    else
      var rest := CountLeft(xs[1..], x);
      if xs[0] < x then rest + 1 else rest
  }

  lemma {:induction false} CountLeftSorted(xs: seq<real>, x: real)
    requires Ascending(xs) && xs != [] && xs[0] >= x
    ensures CountLeft(xs, x) == 0
  {
    if |xs| > 1 { CountLeftSorted(xs[1..], x); }
  }

  /** On a sorted list: an odd number of crossings left of x puts x inside a span. */
  lemma {:induction false} OddIsCovered(xs: seq<real>, x: int, w: nat)
    requires Ascending(xs) && |xs| % 2 == 0 && 0 <= x < w && CountLeft(xs, x as real) % 2 == 1
    ensures SpanCount(xs, x, w) >= 1
    decreases |xs|
  {
    assert |xs| >= 2;
    if xs[0] >= x as real {
      CountLeftSorted(xs, x as real);
    } else if xs[1] >= x as real {
      CountLeftSorted(xs[1..], x as real);
      assert InSpan(xs[0], xs[1], x, w);
    } else {
      assert xs[1..][1..] == xs[2..];
      OddIsCovered(xs[2..], x, w);
    }
  }

  lemma WithoutOne(xs: seq<real>, ys: seq<real>) returns (j: nat)
    requires xs != [] && multiset(xs) == multiset(ys)
    ensures j < |ys| && ys[j] == xs[0] && multiset(xs[1..]) == multiset(ys[..j] + ys[j + 1..])
  {
    assert xs == [xs[0]] + xs[1..];
    assert xs[0] in multiset(ys);
    j :| 0 <= j < |ys| && ys[j] == xs[0];
    assert ys == ys[..j] + [ys[j]] + ys[j + 1..];
    assert multiset(ys[..j] + ys[j + 1..]) == multiset(ys) - multiset{ys[j]};
    assert multiset(xs[1..]) == multiset(xs) - multiset{xs[0]};
  }

  lemma {:induction false} CountLeftByMultiset(xs: seq<real>, ys: seq<real>, x: real)
    requires multiset(xs) == multiset(ys)
    ensures CountLeft(xs, x) == CountLeft(ys, x)
  {
    if xs == [] {
      assert |multiset(ys)| == 0;
    } else {
      var j := WithoutOne(xs, ys);
      CountLeftByMultiset(xs[1..], ys[..j] + ys[j + 1..], x);
      CountLeftRemove(ys, j, x);
    }
  }

  lemma {:induction false} CountLeftRemove(ys: seq<real>, j: nat, x: real)
    requires j < |ys|
    ensures CountLeft(ys, x) == CountLeft(ys[..j] + ys[j + 1..], x) + if ys[j] < x then 1 else 0
  {
    if j == 0 {
      assert ys[..0] + ys[1..] == ys[1..];
    } else {
      CountLeftRemove(ys[1..], j - 1, x);
      var rest := ys[..j] + ys[j + 1..];
      assert rest[1..] == ys[1..][..j - 1] + ys[1..][j..];
      assert ys[1..][j..] == ys[j + 1..];
    }
  }

  /** A canvas pixel with an odd number of polygon crossings to its left is painted. */
  lemma InteriorIsPainted(pts: seq<Point>, x: int, y: int, w: nat)
    requires 0 <= x < w && CountLeft(AllCrossings(pts, y as real), x as real) % 2 == 1
    ensures FillTimes(pts, w)(x, y) >= 1
  {
    var xs := AllCrossings(pts, y as real);
    EvenCrossings(pts, y as real);
    CountLeftByMultiset(xs, Sorted(xs), x as real);
    SortedAscends(xs);
    OddIsCovered(Sorted(xs), x, w);
  }

  /** Some of the list is left of x, so its least element is. */
  lemma {:induction false} SomeLeft(xs: seq<real>, x: real)
    requires Ascending(xs) && CountLeft(xs, x) > 0
    ensures xs != [] && xs[0] < x
  {
    if xs != [] && xs[0] >= x {
      CountLeftSorted(xs, x);
    }
  }

  /** A column that a span covers lies less than a pixel from a crossing or from a point
      with an odd number of crossings to its left. */
  lemma {:induction false} CoveredIsNear(xs: seq<real>, x: int, w: nat) returns (r: real)
    requires Ascending(xs) && SpanCount(xs, x, w) >= 1
    ensures (x - 1) as real < r < (x + 1) as real
    ensures r in xs || CountLeft(xs, r) % 2 == 1
    decreases |xs|
  {
    var a, b := xs[0], xs[1];
    if InSpan(a, b, x, w) {
      if x as real <= a {
        r := a;
      } else if b < x as real {
        r := b;
      } else {
        r := x as real;
        CountLeftSorted(xs[1..], r);
      }
    } else {
      r := CoveredIsNear(xs[2..], x, w);
      if CountLeft(xs[2..], r) % 2 == 1 {
        SomeLeft(xs[2..], r);
        assert xs[1..][1..] == xs[2..];
        assert xs[0] <= xs[1] <= xs[2];
      }
    }
  }

  /** And nothing is painted farther than that from the inside of the polygon. */
  lemma PaintedIsNearInterior(pts: seq<Point>, x: int, y: int, w: nat) returns (r: real)
    requires FillTimes(pts, w)(x, y) >= 1
    ensures (x - 1) as real < r < (x + 1) as real
    ensures r in AllCrossings(pts, y as real) || CountLeft(AllCrossings(pts, y as real), r) % 2 == 1
  {
    var xs := AllCrossings(pts, y as real);
    SortedAscends(xs);
    r := CoveredIsNear(Sorted(xs), x, w);
    CountLeftByMultiset(xs, Sorted(xs), r);
    if r in Sorted(xs) {
      assert r in multiset(Sorted(xs));
    }
  }

  // ---------- The fill as a program ----------

  method MinMaxY(pts: seq<Point>) returns (lo: real, hi: real)
    requires pts != []
    ensures forall i :: 0 <= i < |pts| ==> lo <= pts[i].y <= hi
    ensures (exists i :: 0 <= i < |pts| && pts[i].y == lo) && exists i :: 0 <= i < |pts| && pts[i].y == hi
  {
    lo, hi := pts[0].y, pts[0].y;
    for i := 1 to |pts|
      invariant forall j :: 0 <= j < i ==> lo <= pts[j].y <= hi
      invariant (exists j :: 0 <= j < i && pts[j].y == lo) && exists j :: 0 <= j < i && pts[j].y == hi
    {
      if pts[i].y < lo { lo := pts[i].y; }
      if pts[i].y > hi { hi := pts[i].y; }
    }
  }

  ghost predicate RowEmpty(pts: seq<Point>, y: int) {
    AllCrossings(pts, y as real) == []
  }

  /** Outside the bounding rows no edge crosses the scanline. */
  lemma {:induction false} NoEdgesOutside(pts: seq<Point>, lo: real, hi: real, y: real, k: nat)
    requires k <= |pts| && forall i :: 0 <= i < |pts| ==> lo <= pts[i].y <= hi
    requires y <= lo || y > hi
    ensures CrossedEdges(pts, y, k) == []
  {
    if k > 0 { NoEdgesOutside(pts, lo, hi, y, k - 1); }
  }

  lemma RowsOutsideAreEmpty(pts: seq<Point>, lo: real, hi: real)
    requires forall i :: 0 <= i < |pts| ==> lo <= pts[i].y <= hi
    ensures forall y :: 0 <= y && (y < Max(0, Int(lo)) || y >= Int(hi) + 1) ==> RowEmpty(pts, y)
  {
    forall y | 0 <= y && (y < Max(0, Int(lo)) || y >= Int(hi) + 1) ensures RowEmpty(pts, y) {
      NoEdgesOutside(pts, lo, hi, y as real, |pts|);
    }
  }

  method FindCrossings(pts: seq<Point>, y: int) returns (xs: seq<real>)
    ensures xs == AllCrossings(pts, y as real)
  {
    xs := [];
    for i := 0 to |pts|
      invariant xs == CrossingsOn(pts, y as real, CrossedEdges(pts, y as real, i))
    {
      var p, q := pts[i], pts[(i + 1) % |pts|];
      if (p.y < y as real <= q.y) || (q.y < y as real <= p.y) {
        xs := xs + [CrossingX(p, q, y as real)];
      }
    }
  }

  /** Counts on the rows before `y`, and on row `y` the spans among the first `k` crossings
      together with columns left of `x0` of the next span. */
  ghost function FillBefore(pts: seq<Point>, w: nat, y0: int): Times {
    (x, y) => if y < y0 then SpanCount(Sorted(AllCrossings(pts, y as real)), x, w) else 0
  }

  ghost function SpanRow(a: real, b: real, w: nat, y0: int, x0: int): Times {
    (x, y) => if y == y0 && InSpan(a, b, x, w) && x < x0 then 1 else 0
  }

  /** One span of one scanline. */
  method FillSpan(pixels: array<Byte>, w: nat, h: nat, a: real, b: real, y: int, color: Color)
    requires pixels.Length == w * h * 3 && 0 <= y < h
    modifies pixels
    ensures Painted(old(pixels[..]), pixels[..], w, h, color, SpanRow(a, b, w, y, w))
  {
    ghost var start := pixels[..];
    var xStart, xEnd := Max(0, Int(a)), Min(w, Int(b) + 1);
    NothingPainted(start, w, h, color, SpanRow(a, b, w, y, xStart));
    var x := xStart;
    while x < xEnd
      invariant xStart <= x
      invariant Painted(start, pixels[..], w, h, color, SpanRow(a, b, w, y, x))
    {
      ghost var before := pixels[..];
      AddPixel(pixels, w, h, x, y, color);
      PaintedThen(start, before, pixels[..], w, h, color,
                  SpanRow(a, b, w, y, x), One(x, y), SpanRow(a, b, w, y, x + 1));
      x := x + 1;
    }
    Repainted(start, pixels[..], w, h, color, SpanRow(a, b, w, y, x), SpanRow(a, b, w, y, w));
  }

  ghost function RowTimes(xs: seq<real>, w: nat, y0: int): Times {
    (x, y) => if y == y0 then SpanCount(xs, x, w) else 0
  }

  /** The pairing loop of one scanline; on an even list no crossing is left over. */
  method FillRow(pixels: array<Byte>, w: nat, h: nat, xs: seq<real>, y: int, color: Color)
    requires pixels.Length == w * h * 3 && 0 <= y < h && |xs| % 2 == 0
    modifies pixels
    ensures Painted(old(pixels[..]), pixels[..], w, h, color, RowTimes(xs, w, y))
  {
    ghost var start := pixels[..];
    NothingPainted(start, w, h, color, RowTimes(xs[..0], w, y));
    var i := 0;
    while i < |xs|
      invariant i <= |xs| && i % 2 == 0
      invariant Painted(start, pixels[..], w, h, color, RowTimes(xs[..i], w, y))
    {
      assert i + 1 < |xs|;
      ghost var before := pixels[..];
      FillSpan(pixels, w, h, xs[i], xs[i + 1], y, color);
      forall x { SpanCountSnoc(xs, i, x, w); }
      PaintedThen(start, before, pixels[..], w, h, color,
                  RowTimes(xs[..i], w, y), SpanRow(xs[i], xs[i + 1], w, y, w), RowTimes(xs[..i + 2], w, y));
      i := i + 2;
    }
    assert xs[..i] == xs;
  }

  lemma {:induction false} SpanCountSnoc(xs: seq<real>, i: nat, x: int, w: nat)
    requires i + 1 < |xs| && i % 2 == 0
    ensures SpanCount(xs[..i + 2], x, w) == SpanCount(xs[..i], x, w) + if InSpan(xs[i], xs[i + 1], x, w) then 1 else 0
    decreases |xs|
  {
    if i == 0 {
      assert xs[..2][2..] == [];
    } else {
      SpanCountSnoc(xs[2..], i - 2, x, w);
      assert xs[..i + 2][2..] == xs[2..][..i];
      assert xs[..i][2..] == xs[2..][..i - 2];
    }
  }

  /** The whole fill: every canvas pixel gets one saturating add per span covering it, on
      every scanline that meets the polygon, and nothing else is touched. */
  method FillPolygon(pixels: array<Byte>, w: nat, h: nat, pts: seq<Point>, color: Color)
    requires pixels.Length == w * h * 3 && pts != []
    modifies pixels
    ensures Painted(old(pixels[..]), pixels[..], w, h, color, FillTimes(pts, w))
  {
    ghost var start := pixels[..];
    var lo, hi := MinMaxY(pts);
    var minY, maxY := Max(0, Int(lo)), Min(h, Int(hi) + 1);
    RowsOutsideAreEmpty(pts, lo, hi);
    forall x, y | 0 <= y && (y < minY || y >= Int(hi) + 1) ensures FillTimes(pts, w)(x, y) == 0 {
      assert RowEmpty(pts, y);
      assert Sorted(AllCrossings(pts, y as real)) == [];
    }
    forall x, y | OnCanvas(w, h, x, y) ensures FillBefore(pts, w, minY)(x, y) == 0 {
      assert y < minY ==> FillTimes(pts, w)(x, y) == 0;
    }
    NothingPainted(start, w, h, color, FillBefore(pts, w, minY));
    var y := minY;
    while y < maxY
      invariant minY <= y
      invariant Painted(start, pixels[..], w, h, color, FillBefore(pts, w, y))
    {
      ghost var before := pixels[..];
      var xs := FindCrossings(pts, y);
      EvenCrossings(pts, y as real);
      FillRow(pixels, w, h, Sorted(xs), y, color);
      PaintedThen(start, before, pixels[..], w, h, color,
                  FillBefore(pts, w, y), RowTimes(Sorted(xs), w, y), FillBefore(pts, w, y + 1));
      y := y + 1;
    }
    Repainted(start, pixels[..], w, h, color, FillBefore(pts, w, y), FillTimes(pts, w));
  }
}
