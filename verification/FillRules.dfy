/** Fill tests of flattened shapes: the crossing count and the winding number of a point. */
module FillRules {

  datatype Point = Point(x: real, y: real)
  datatype FillRule = NonZero | EvenOdd

  type Polygon = seq<Point>

  // Twice the signed area of the triangle from the edge's start to its end to the point.
  function Side(a: Point, b: Point, p: Point): real {
    (b.x - a.x) * (p.y - a.y) - (p.x - a.x) * (b.y - a.y)
  }

  // An edge crosses the ray to the right of the point upwards (+1), downwards (-1), or not (0).
  function Crossing(a: Point, b: Point, p: Point): int {
    if a.y <= p.y && b.y > p.y then (if Side(a, b, p) > 0.0 then 1 else 0)
    else if a.y > p.y && b.y <= p.y then (if Side(a, b, p) < 0.0 then -1 else 0)
    else 0
  }

  function Next(polygon: Polygon, i: nat): Point
    requires i < |polygon|
  {
    polygon[(i + 1) % |polygon|]
  }

  function Abs(n: int): nat { if n < 0 then -n else n }

  // Winding and crossings over the first `n` edges.
  function EdgeWinding(polygon: Polygon, p: Point, n: nat): int
    requires n <= |polygon|
  {
    if n == 0 then 0 else EdgeWinding(polygon, p, n - 1) + Crossing(polygon[n - 1], Next(polygon, n - 1), p)
  }

  function EdgeCrossings(polygon: Polygon, p: Point, n: nat): nat
    requires n <= |polygon|
  {
    if n == 0 then 0 else EdgeCrossings(polygon, p, n - 1) + Abs(Crossing(polygon[n - 1], Next(polygon, n - 1), p))
  }

  function Winding(polygons: seq<Polygon>, p: Point): int {
    if polygons == [] then 0
    else
      var last := polygons[|polygons| - 1];
      Winding(polygons[..|polygons| - 1], p) + EdgeWinding(last, p, |last|)
  }

  function Crossings(polygons: seq<Polygon>, p: Point): nat {
    if polygons == [] then 0
    else
      var last := polygons[|polygons| - 1];
      Crossings(polygons[..|polygons| - 1], p) + EdgeCrossings(last, p, |last|)
  }

  predicate Painted(polygons: seq<Polygon>, p: Point, rule: FillRule) {
    match rule
    case NonZero => Winding(polygons, p) != 0
    case EvenOdd => Crossings(polygons, p) % 2 == 1
  }

  /** `containsPoint`. */
  method ContainsPoint(polygons: seq<Polygon>, p: Point, rule: FillRule) returns (painted: bool)
    ensures painted == Painted(polygons, p, rule)
  {
    var winding, crossings := 0, 0;
    for k := 0 to |polygons|
      invariant winding == Winding(polygons[..k], p) && crossings == Crossings(polygons[..k], p)
    {
      var polygon := polygons[k];
      for index := 0 to |polygon|
        invariant winding == Winding(polygons[..k], p) + EdgeWinding(polygon, p, index)
        invariant crossings == Crossings(polygons[..k], p) + EdgeCrossings(polygon, p, index)
      {
        var a, b := polygon[index], polygon[(index + 1) % |polygon|];
        if a.y <= p.y && b.y > p.y {
          if Side(a, b, p) > 0.0 {
            winding := winding + 1;
            crossings := crossings + 1;
          }
        } else if a.y > p.y && b.y <= p.y {
          if Side(a, b, p) < 0.0 {
            winding := winding - 1;
            crossings := crossings + 1;
          }
        }
      }
      assert polygons[..k + 1][..k] == polygons[..k];
    }
    assert polygons[..|polygons|] == polygons;
    return if rule == EvenOdd then crossings % 2 == 1 else winding != 0;
  }

  /* ---------- Parity ---------- */

  predicate SameParity(a: int, b: int) {
    (a - b) % 2 == 0
  }

  lemma {:induction false} EdgeParity(polygon: Polygon, p: Point, n: nat)
    requires n <= |polygon|
    ensures SameParity(EdgeCrossings(polygon, p, n), EdgeWinding(polygon, p, n))
  {
    if n > 0 { EdgeParity(polygon, p, n - 1); }
  }

  /** The crossing count and the winding number have the same parity, for every shape and point. */
  lemma {:induction false} CrossingsMatchWinding(polygons: seq<Polygon>, p: Point)
    ensures SameParity(Crossings(polygons, p), Winding(polygons, p))
  {
    if polygons != [] {
      var last := polygons[|polygons| - 1];
      CrossingsMatchWinding(polygons[..|polygons| - 1], p);
      EdgeParity(last, p, |last|);
    }
  }

  /** Whatever evenodd paints, nonzero paints. */
  lemma EvenOddInsideNonZero(polygons: seq<Polygon>, p: Point)
    ensures Painted(polygons, p, EvenOdd) ==> Painted(polygons, p, NonZero)
  {
    CrossingsMatchWinding(polygons, p);
  }

  lemma {:induction false} CrossingsConcat(a: seq<Polygon>, b: seq<Polygon>, p: Point)
    ensures Crossings(a + b, p) == Crossings(a, p) + Crossings(b, p)
  {
    if b == [] {
      assert a + b == a;
    } else {
      CrossingsConcat(a, b[..|b| - 1], p);
      assert (a + b)[..|a + b| - 1] == a + b[..|b| - 1];
    }
  }

  /** Evenodd over two shapes drawn together is the exclusive or of the shapes. */
  lemma EvenOddIsExclusiveOr(a: seq<Polygon>, b: seq<Polygon>, p: Point)
    ensures Painted(a + b, p, EvenOdd) <==> (Painted(a, p, EvenOdd) != Painted(b, p, EvenOdd))
  {
    CrossingsConcat(a, b, p);
  }

  // The rectangle with these opposite corners, clockwise on the page.
  function Rect(a: Point, b: Point): Polygon {
    [a, Point(b.x, a.y), b, Point(a.x, b.y)]
  }

  predicate InRect(a: Point, b: Point, p: Point) {
    a.x <= p.x < b.x && a.y <= p.y < b.y
  }

  lemma ProductSign(u: real, v: real)
    requires v > 0.0
    ensures u * v > 0.0 <==> u > 0.0
  {
  }

  // A vertical edge crosses the ray of a point to its left, when their heights meet.
  lemma VerticalCrossing(x: real, low: real, high: real, p: Point)
    requires low < high
    ensures Abs(Crossing(Point(x, low), Point(x, high), p)) == if low <= p.y < high && p.x < x then 1 else 0
    ensures Abs(Crossing(Point(x, high), Point(x, low), p)) == if low <= p.y < high && p.x < x then 1 else 0
  {
    ProductSign(x - p.x, high - low);
    assert Side(Point(x, low), Point(x, high), p) == (x - p.x) * (high - low);
    assert Side(Point(x, high), Point(x, low), p) == -((x - p.x) * (high - low));
  }

  /** Evenodd paints a rectangle on its lower and left edges and inside, and nowhere else. */
  lemma RectPaint(a: Point, b: Point, p: Point)
    requires a.x < b.x && a.y < b.y
    ensures Painted([Rect(a, b)], p, EvenOdd) <==> InRect(a, b, p)
  {
    var r: Polygon := Rect(a, b);
    VerticalCrossing(b.x, a.y, b.y, p);
    VerticalCrossing(a.x, a.y, b.y, p);
    assert Crossings([r][..0], p) == 0;
    assert Crossings([r], p) == EdgeCrossings(r, p, 4);
    hide Crossing;
    assert EdgeCrossings(r, p, 0) == 0;
    assert EdgeCrossings(r, p, 1) == Abs(Crossing(r[0], r[1], p));
    assert EdgeCrossings(r, p, 2) == EdgeCrossings(r, p, 1) + Abs(Crossing(r[1], r[2], p));
    assert EdgeCrossings(r, p, 3) == EdgeCrossings(r, p, 2) + Abs(Crossing(r[2], r[3], p));
    assert EdgeCrossings(r, p, 4) == EdgeCrossings(r, p, 3) + Abs(Crossing(r[3], r[0], p));
    HorizontalCrossing(r[0], r[1], p);
    HorizontalCrossing(r[2], r[3], p);
  }

  lemma HorizontalCrossing(a: Point, b: Point, p: Point)
    requires a.y == b.y
    ensures Crossing(a, b, p) == 0
  {
  }

  // The rectangle the outside clips are cut from, "M-2 -2H26V26H-2Z" flattened.
  const BOX: Polygon := Rect(Point(-2.0, -2.0), Point(26.0, 26.0))

  /** Evenodd paints the box where a point has x in [-2, 26) and y in [-2, 26), and nowhere else. */
  lemma BoxPaint(p: Point)
    ensures Painted([BOX], p, EvenOdd) <==> -2.0 <= p.x < 26.0 && -2.0 <= p.y < 26.0
  {
    RectPaint(Point(-2.0, -2.0), Point(26.0, 26.0), p);
  }

  /** A box-plus-cut clip paints, inside the box, exactly what evenodd does not paint of the cut. */
  lemma OutsideClipIsComplement(cut: seq<Polygon>, p: Point)
    requires -2.0 <= p.x < 26.0 && -2.0 <= p.y < 26.0
    ensures Painted([BOX] + cut, p, EvenOdd) <==> !Painted(cut, p, EvenOdd)
  {
    BoxPaint(p);
    EvenOddIsExclusiveOr([BOX], cut, p);
  }
}
