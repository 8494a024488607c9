/**
The geometry of the fill test: an edge crosses the ray of exactly the points to its left, and a
triangle is painted exactly where its three half-planes meet (SVG 2, section 13.4.2).
*/
module FillGeometry {
  import opened FillRules

  /* ---------- One edge ---------- */

  /** The edge from `a` to `b` at the height of `p` is at `x`: it is crossed when `p` lies to the left of it. */
  lemma CrossingIsToTheRight(a: Point, b: Point, p: Point, x: real)
    ensures a.y <= p.y < b.y && (x - a.x) * (b.y - a.y) == (b.x - a.x) * (p.y - a.y) ==>
      Crossing(a, b, p) == if p.x < x then 1 else 0
    ensures b.y <= p.y < a.y && (x - a.x) * (b.y - a.y) == (b.x - a.x) * (p.y - a.y) ==>
      Crossing(a, b, p) == if p.x < x then -1 else 0
    ensures !(a.y <= p.y < b.y) && !(b.y <= p.y < a.y) ==> Crossing(a, b, p) == 0
  {
    if a.y <= p.y < b.y && (x - a.x) * (b.y - a.y) == (b.x - a.x) * (p.y - a.y) {
      SideOfLevel(a, b, p, x);
      ProductSign(x - p.x, b.y - a.y);
    }
    if b.y <= p.y < a.y && (x - a.x) * (b.y - a.y) == (b.x - a.x) * (p.y - a.y) {
      SideOfLevel(a, b, p, x);
      ProductSign(x - p.x, a.y - b.y);
      assert (x - p.x) * (a.y - b.y) == -((x - p.x) * (b.y - a.y));
    }
  }

  lemma SideOfLevel(a: Point, b: Point, p: Point, x: real)
    requires (x - a.x) * (b.y - a.y) == (b.x - a.x) * (p.y - a.y)
    ensures Side(a, b, p) == (x - p.x) * (b.y - a.y)
  {
    assert (x - p.x) * (b.y - a.y) == (x - a.x) * (b.y - a.y) - (p.x - a.x) * (b.y - a.y);
  }

  /** An edge run the other way crosses the other way. */
  lemma ReversedCrossing(a: Point, b: Point, p: Point)
    ensures Crossing(b, a, p) == -Crossing(a, b, p)
  {
    SideReversed(a, b, p);
  }

  lemma SideReversed(a: Point, b: Point, p: Point)
    ensures Side(b, a, p) == -Side(a, b, p)
  {
  }

  /* ---------- A triangle ---------- */

  // `p` is inside the edge from `a` to `b`, or on an edge that belongs to the shape: one that runs
  // towards smaller y, or level towards greater x.
  predicate InHalfPlane(a: Point, b: Point, p: Point) {
    Side(a, b, p) > 0.0 || (Side(a, b, p) == 0.0 && (b.y < a.y || (b.y == a.y && a.x < b.x)))
  }

  predicate InTriangle(a: Point, b: Point, c: Point, p: Point) {
    InHalfPlane(a, b, p) && InHalfPlane(b, c, p) && InHalfPlane(c, a, p)
  }

  function Turns(a: Point, b: Point, c: Point, p: Point): int {
    Crossing(a, b, p) + Crossing(b, c, p) + Crossing(c, a, p)
  }

  function Hits(a: Point, b: Point, c: Point, p: Point): nat {
    Abs(Crossing(a, b, p)) + Abs(Crossing(b, c, p)) + Abs(Crossing(c, a, p))
  }

  predicate Agree(a: Point, b: Point, c: Point, p: Point) {
    (Hits(a, b, c, p) % 2 == 1 <==> InTriangle(a, b, c, p)) && (Turns(a, b, c, p) != 0 <==> InTriangle(a, b, c, p))
  }

  lemma Positive(u: real, v: real)
    ensures u > 0.0 && v > 0.0 ==> u * v > 0.0
    ensures u >= 0.0 && v >= 0.0 ==> u * v >= 0.0
    ensures u >= 0.0 && u * v > 0.0 ==> v > 0.0
    ensures u * v == 0.0 ==> u == 0.0 || v == 0.0
    ensures (-u) * v == -(u * v)
  {
  }

  // Weighted by the sides of `p`, the heights of the corners balance at the height of `p`.
  lemma Balance(a: Point, b: Point, c: Point, p: Point)
    ensures Side(b, c, p) * (a.y - p.y) + Side(c, a, p) * (b.y - p.y) + Side(a, b, p) * (c.y - p.y) == 0.0
    ensures Side(a, b, p) + Side(b, c, p) + Side(c, a, p) == Side(a, b, c)
    ensures Side(b, c, a) == Side(a, b, c) && Side(c, a, b) == Side(a, b, c)
  {
  }

  lemma Rotated(a: Point, b: Point, c: Point, p: Point)
    ensures Agree(b, c, a, p) <==> Agree(a, b, c, p)
    ensures InTriangle(b, c, a, p) <==> InTriangle(a, b, c, p)
  {
    hide Crossing, InHalfPlane;
  }

  // Weights and heights: what the balance says when the signs of the heights are known.
  lemma OneLowBalance(s1: real, s2: real, s3: real, u: real, v: real, w: real)
    requires s2 * u == s3 * v + s1 * w && u >= 0.0 && v > 0.0 && w > 0.0 && s1 + s2 + s3 > 0.0
    ensures s1 > 0.0 && s3 >= 0.0 ==> s2 > 0.0
    ensures !(s1 <= 0.0 && s3 < 0.0)
  {
    Positive(w, s1);
    Positive(v, s3);
    Positive(u, s2);
    Positive(v, -s3);
    Positive(w, -s1);
    Positive(u, -s2);
    assert v * (-s3) == -(s3 * v) && w * (-s1) == -(s1 * w) && u * (-s2) == -(s2 * u);
  }

  lemma OneLow(a: Point, b: Point, c: Point, p: Point)
    requires Side(a, b, c) > 0.0 && a.y <= p.y < b.y && p.y < c.y
    ensures Agree(a, b, c, p)
  {
    Balance(a, b, c, p);
    var s1, s2, s3 := Side(a, b, p), Side(b, c, p), Side(c, a, p);
    var u, v, w := p.y - a.y, b.y - p.y, c.y - p.y;
    assert s2 * (a.y - p.y) == -(s2 * u);
    OneLowBalance(s1, s2, s3, u, v, w);
    hide Side;
  }

  lemma TwoLowBalance(s1: real, s2: real, s3: real, u: real, v: real, w: real)
    requires s1 * w == s2 * u + s3 * v && u >= 0.0 && v >= 0.0 && w > 0.0 && s1 + s2 + s3 > 0.0
    ensures s2 > 0.0 && s3 >= 0.0 ==> s1 > 0.0 || (s1 == 0.0 && u == 0.0)
    ensures !(s2 <= 0.0 && s3 < 0.0)
  {
    Positive(u, s2);
    Positive(v, s3);
    Positive(w, s1);
    Positive(u, -s2);
    Positive(v, -s3);
    Positive(w, -s1);
    assert u * (-s2) == -(s2 * u) && v * (-s3) == -(s3 * v) && w * (-s1) == -(s1 * w);
  }

  lemma LevelArea(a: Point, b: Point, c: Point)
    requires a.y == b.y
    ensures Side(a, b, c) == (b.x - a.x) * (c.y - a.y)
  {
  }

  lemma TwoLow(a: Point, b: Point, c: Point, p: Point)
    requires Side(a, b, c) > 0.0 && a.y <= p.y && b.y <= p.y < c.y
    ensures Agree(a, b, c, p)
  {
    Balance(a, b, c, p);
    var s1, s2, s3 := Side(a, b, p), Side(b, c, p), Side(c, a, p);
    var u, v, w := p.y - a.y, p.y - b.y, c.y - p.y;
    assert s2 * (a.y - p.y) == -(s2 * u) && s3 * (b.y - p.y) == -(s3 * v);
    TwoLowBalance(s1, s2, s3, u, v, w);
    if a.y == b.y {
      LevelArea(a, b, c);
      ProductSign(b.x - a.x, c.y - a.y);
    }
    hide Side;
  }

  lemma AllHigh(a: Point, b: Point, c: Point, p: Point)
    requires Side(a, b, c) > 0.0 && p.y < a.y && p.y < b.y && p.y < c.y
    ensures Agree(a, b, c, p)
  {
    Balance(a, b, c, p);
    Positive(Side(b, c, p), a.y - p.y);
    Positive(Side(c, a, p), b.y - p.y);
    Positive(Side(a, b, p), c.y - p.y);
    hide Side;
  }

  // The corner opposite to an edge that `p` is strictly inside is at the height of `p`.
  lemma AllLowCorner(a: Point, b: Point, c: Point, p: Point)
    requires Side(a, b, c) > 0.0 && a.y <= p.y && b.y <= p.y && c.y <= p.y && Side(b, c, p) > 0.0
    ensures !InTriangle(a, b, c, p)
  {
    Positive(b.x - a.x, a.y - c.y);
    Positive(a.x - c.x, c.y - b.y);
    assert (b.x - a.x) * (c.y - a.y) == -((b.x - a.x) * (a.y - c.y));
    assert (a.x - c.x) * (b.y - c.y) == -((a.x - c.x) * (c.y - b.y));
    if InTriangle(a, b, c, p) {
      Balance(a, b, c, p);
      var s1, s2, s3 := Side(a, b, p), Side(b, c, p), Side(c, a, p);
      Positive(s2, p.y - a.y);
      Positive(s3, p.y - b.y);
      Positive(s1, p.y - c.y);
      assert s2 * (a.y - p.y) == -(s2 * (p.y - a.y)) && s3 * (b.y - p.y) == -(s3 * (p.y - b.y)) &&
             s1 * (c.y - p.y) == -(s1 * (p.y - c.y));
      assert a.y == p.y;
      if s3 > 0.0 {
        LevelArea(a, b, c);
      } else {
        LevelArea(c, a, b);
      }
      assert false;
    }
  }

  lemma AllLow(a: Point, b: Point, c: Point, p: Point)
    requires Side(a, b, c) > 0.0 && a.y <= p.y && b.y <= p.y && c.y <= p.y
    ensures Agree(a, b, c, p)
  {
    Balance(a, b, c, p);
    if Side(b, c, p) > 0.0 { AllLowCorner(a, b, c, p); }
    if Side(c, a, p) > 0.0 { AllLowCorner(b, c, a, p); }
    if Side(a, b, p) > 0.0 { AllLowCorner(c, a, b, p); }
    hide Side;
  }

  lemma TriangleAgrees(a: Point, b: Point, c: Point, p: Point)
    requires Side(a, b, c) > 0.0
    ensures Agree(a, b, c, p)
  {
    Balance(a, b, c, p);
    Rotated(a, b, c, p);
    Rotated(b, c, a, p);
    var low := (if a.y <= p.y then 1 else 0) + (if b.y <= p.y then 1 else 0) + if c.y <= p.y then 1 else 0;
    hide Agree, Side;
    if low == 3 {
      AllLow(a, b, c, p);
    } else if low == 0 {
      AllHigh(a, b, c, p);
    } else if low == 1 {
      if a.y <= p.y { OneLow(a, b, c, p); } else if b.y <= p.y { OneLow(b, c, a, p); } else { OneLow(c, a, b, p); }
    } else {
      if p.y < c.y { TwoLow(a, b, c, p); } else if p.y < a.y { TwoLow(b, c, a, p); } else { TwoLow(c, a, b, p); }
    }
  }

  lemma TriangleCounts(a: Point, b: Point, c: Point, p: Point)
    ensures Winding([[a, b, c]], p) == Turns(a, b, c, p)
    ensures Crossings([[a, b, c]], p) == Hits(a, b, c, p)
  {
    var t: Polygon := [a, b, c];
    hide Crossing;
    assert Winding([t][..0], p) == 0 && Crossings([t][..0], p) == 0;
    assert Winding([t], p) == EdgeWinding(t, p, 3) && Crossings([t], p) == EdgeCrossings(t, p, 3);
    assert EdgeWinding(t, p, 1) == Crossing(a, b, p) && EdgeCrossings(t, p, 1) == Abs(Crossing(a, b, p));
    assert EdgeWinding(t, p, 2) == EdgeWinding(t, p, 1) + Crossing(b, c, p);
    assert EdgeCrossings(t, p, 2) == EdgeCrossings(t, p, 1) + Abs(Crossing(b, c, p));
    assert EdgeWinding(t, p, 3) == EdgeWinding(t, p, 2) + Crossing(c, a, p);
    assert EdgeCrossings(t, p, 3) == EdgeCrossings(t, p, 2) + Abs(Crossing(c, a, p));
  }

  /** Both rules paint a triangle exactly where its three half-planes meet, whichever way it is drawn. */
  lemma TrianglePaint(a: Point, b: Point, c: Point, p: Point, rule: FillRule)
    requires Side(a, b, c) > 0.0
    ensures Painted([[a, b, c]], p, rule) <==> InTriangle(a, b, c, p)
    ensures Painted([[c, b, a]], p, rule) <==> InTriangle(a, b, c, p)
  {
    TriangleAgrees(a, b, c, p);
    TriangleCounts(a, b, c, p);
    TriangleCounts(c, b, a, p);
    ReversedCrossing(a, b, p);
    ReversedCrossing(b, c, p);
    ReversedCrossing(c, a, p);
    hide Crossing, Winding, Crossings, InTriangle;
  }

  /* ---------- A flat triangle ---------- */

  predicate Unhit(a: Point, b: Point, c: Point, p: Point) {
    Hits(a, b, c, p) % 2 == 0 && Turns(a, b, c, p) == 0
  }

  lemma RotatedUnhit(a: Point, b: Point, c: Point, p: Point)
    ensures Unhit(b, c, a, p) <==> Unhit(a, b, c, p)
  {
    hide Crossing;
  }

  lemma FlatBalance(s1: real, s2: real, s3: real, u: real, v: real, w: real)
    requires s1 + s2 + s3 == 0.0 && w > 0.0
    ensures s2 * u == s3 * v + s1 * w && u >= 0.0 && v > 0.0 ==> (s1 > 0.0 <==> s3 < 0.0)
    ensures s1 * w == s2 * u + s3 * v && u >= 0.0 && v >= 0.0 ==> (s2 > 0.0 <==> s3 < 0.0)
  {
    Positive(u, s2);
    Positive(v, s3);
    Positive(w, s1);
    Positive(u, -s2);
    Positive(v, -s3);
    Positive(w, -s1);
    assert u * (-s2) == -(s2 * u) && v * (-s3) == -(s3 * v) && w * (-s1) == -(s1 * w);
  }

  lemma FlatSlice(a: Point, b: Point, c: Point, p: Point)
    requires Side(a, b, c) == 0.0 && a.y <= p.y < c.y
    ensures Unhit(a, b, c, p)
  {
    Balance(a, b, c, p);
    var s1, s2, s3 := Side(a, b, p), Side(b, c, p), Side(c, a, p);
    assert s2 * (a.y - p.y) == -(s2 * (p.y - a.y)) && s3 * (b.y - p.y) == -(s3 * (p.y - b.y));
    if p.y < b.y {
      FlatBalance(s1, s2, s3, p.y - a.y, b.y - p.y, c.y - p.y);
    } else {
      FlatBalance(s1, s2, s3, p.y - a.y, p.y - b.y, c.y - p.y);
    }
    hide Side;
  }

  /** A triangle without area paints nothing. */
  lemma FlatTrianglePaintsNothing(a: Point, b: Point, c: Point, p: Point, rule: FillRule)
    requires Side(a, b, c) == 0.0
    ensures !Painted([[a, b, c]], p, rule)
  {
    Balance(a, b, c, p);
    TriangleCounts(a, b, c, p);
    RotatedUnhit(a, b, c, p);
    RotatedUnhit(b, c, a, p);
    hide Side, Winding, Crossings;
    if a.y <= p.y < c.y {
      FlatSlice(a, b, c, p);
    } else if b.y <= p.y < a.y {
      FlatSlice(b, c, a, p);
    } else if c.y <= p.y < b.y {
      FlatSlice(c, a, b, p);
    }
  }
}
