/**
Outside clips: a cut drawn after a box in one evenodd path, meant to paint the box without the cut.
*/
module OutsideClips {
  import opened Wrappers
  import opened FillRules
  import opened Paths
  import opened PathCommands
  import opened PathShapes

  const CORNER: Point := Point(-2.0, -2.0)

  // "M-2 -2H26V26H-2Z"
  const BOX_TOKENS: seq<Token> := [
    Letter('M'), Number(-2.0), Number(-2.0), Letter('H'), Number(26.0), Letter('V'), Number(26.0),
    Letter('H'), Number(-2.0), Letter('Z')]

  const BOX_SEGMENTS: seq<Segment> := RectSegments(CORNER, Point(26.0, 26.0))

  /* ---------- The box ---------- */

  // Another command in front of tokens that are read to `done` and whatever `r` is.
  lemma Before(
    c: char, args: seq<real>, rest: seq<Token>, pen: Pen, done: seq<Segment>, r: Result<seq<Segment>, PathFault>)
    requires ArgumentCount(Lower(c)) == Some(|args|)
    requires Segments(rest, Draw(pen.(command := c), args).1) == Prepend(done, r)
    ensures Segments([Letter(c)] + Numbered(args) + rest, pen) == Prepend([Draw(pen.(command := c), args).0] + done, r)
  {
    ReadCommand(c, args, rest, pen);
    if r.Ok? {
      var segment := Draw(pen.(command := c), args).0;
      assert [segment] + (done + r.value) == [segment] + done + r.value;
    }
  }

  // "Hx Vy Hz Z" in either case: the three other sides of a rectangle and the closepath.
  function Sides(h: char, v: char, z: char, across: real, down: real, back: real): seq<Token> {
    [Letter(h), Number(across), Letter(v), Number(down), Letter(h), Number(back), Letter(z)]
  }

  function RectSegments(a: Point, b: Point): seq<Segment> {
    [MoveTo(a)] + SideSegments(a, b)
  }

  function SideSegments(a: Point, b: Point): seq<Segment> {
    [LineTo(Point(b.x, a.y)), LineTo(b), LineTo(Point(a.x, b.y)), Close]
  }

  // After a closepath the parser stands at the start of the subpath, whatever it read before.
  function ClosedPen(command: char, start: Point): Pen {
    Pen(command, start, start, None, None)
  }

  lemma LastSide(h: char, z: char, back: real, a: Point, b: Point, pen: Pen, rest: seq<Token>)
    requires (h == 'H' && back == a.x) || (h == 'h' && back == a.x - b.x)
    requires Lower(z) == 'z' && pen.current == b && pen.start == a
    ensures Segments([Letter(h), Number(back), Letter(z)] + rest, pen) ==
            Prepend([LineTo(Point(a.x, b.y)), Close], Segments(rest, ClosedPen(z, a)))
  {
    var after := Draw(pen.(command := h), [back]).1;
    var r := Segments(rest, ClosedPen(z, a));
    PrependNothing(r);
    assert Draw(after.(command := z), []) == (Close, ClosedPen(z, a));
    assert Draw(pen.(command := h), [back]).0 == LineTo(Point(a.x, b.y));
    hide Segments, Prepend, Draw;
    Before(z, [], rest, after, [], r);
    assert [Letter(z)] + Numbered([]) + rest == [Letter(z)] + rest;
    assert [Close] + [] == [Close];
    Before(h, [back], [Letter(z)] + rest, pen, [Close], r);
    assert [Letter(h)] + Numbered([back]) + ([Letter(z)] + rest) == [Letter(h), Number(back), Letter(z)] + rest;
    assert [LineTo(Point(a.x, b.y))] + [Close] == [LineTo(Point(a.x, b.y)), Close];
  }

  lemma ReadSides(absolute: bool, across: real, down: real, back: real, a: Point, b: Point, pen: Pen, rest: seq<Token>)
    requires pen.current == a && pen.start == a
    requires if absolute then across == b.x && down == b.y && back == a.x
             else across == b.x - a.x && down == b.y - a.y && back == a.x - b.x
    ensures var h, v, z := if absolute then 'H' else 'h', if absolute then 'V' else 'v', if absolute then 'Z' else 'z';
      Segments(Sides(h, v, z, across, down, back) + rest, pen) ==
      Prepend(SideSegments(a, b), Segments(rest, ClosedPen(z, a)))
  {
    var h, v, z := if absolute then 'H' else 'h', if absolute then 'V' else 'v', if absolute then 'Z' else 'z';
    var first := Draw(pen.(command := h), [across]).1;
    var second := Draw(first.(command := v), [down]).1;
    var r := Segments(rest, ClosedPen(z, a));
    var tail := [Letter(h), Number(back), Letter(z)] + rest;
    assert Draw(pen.(command := h), [across]).0 == LineTo(Point(b.x, a.y));
    assert first.current == Point(b.x, a.y) && first.start == a;
    assert Draw(first.(command := v), [down]).0 == LineTo(b);
    assert second.current == b && second.start == a;
    hide Segments, Prepend, Draw;
    LastSide(h, z, back, a, b, second, rest);
    Before(v, [down], tail, first, [LineTo(Point(a.x, b.y)), Close], r);
    var done := [LineTo(b), LineTo(Point(a.x, b.y)), Close];
    assert [LineTo(b)] + [LineTo(Point(a.x, b.y)), Close] == done;
    Before(h, [across], [Letter(v)] + Numbered([down]) + tail, pen, done, r);
    assert [LineTo(Point(b.x, a.y))] + done == SideSegments(a, b);
    SidesSplit(h, v, z, across, down, back, rest);
  }

  lemma SidesSplit(h: char, v: char, z: char, across: real, down: real, back: real, rest: seq<Token>)
    ensures Sides(h, v, z, across, down, back) + rest ==
            [Letter(h)] + Numbered([across]) +
            ([Letter(v)] + Numbered([down]) + ([Letter(h), Number(back), Letter(z)] + rest))
  {
  }

  // A whole rectangle, from a moveto with these numbers.
  lemma ReadRect(absolute: bool, args: seq<real>, across: real, down: real, back: real, a: Point, b: Point, pen: Pen, rest: seq<Token>)
    requires |args| == 2
    requires if absolute then a == Point(args[0], args[1]) && across == b.x && down == b.y && back == a.x
             else a == Point(pen.current.x + args[0], pen.current.y + args[1]) &&
                  across == b.x - a.x && down == b.y - a.y && back == a.x - b.x
    ensures var m, h, v, z := if absolute then 'M' else 'm', if absolute then 'H' else 'h', if absolute then 'V' else 'v',
                              if absolute then 'Z' else 'z';
      Segments([Letter(m)] + Numbered(args) + (Sides(h, v, z, across, down, back) + rest), pen) ==
      Prepend(RectSegments(a, b), Segments(rest, ClosedPen(z, a)))
  {
    var m, h, v, z := if absolute then 'M' else 'm', if absolute then 'H' else 'h', if absolute then 'V' else 'v',
                      if absolute then 'Z' else 'z';
    var moved := Draw(pen.(command := m), args).1;
    ReadSides(absolute, across, down, back, a, b, moved, rest);
    Before(m, args, Sides(h, v, z, across, down, back) + rest, pen, SideSegments(a, b), Segments(rest, ClosedPen(z, a)));
  }

  // After the box the parser reads the cut from the box's corner.
  lemma BoxThen(cut: seq<Token>)
    ensures Segments(BOX_TOKENS + cut, START) == Prepend(BOX_SEGMENTS, Segments(cut, ClosedPen('Z', CORNER)))
  {
    ReadRect(true, [-2.0, -2.0], 26.0, 26.0, -2.0, CORNER, Point(26.0, 26.0), START, cut);
    assert BOX_TOKENS + cut ==
           [Letter('M')] + Numbered([-2.0, -2.0]) + (Sides('H', 'V', 'Z', 26.0, 26.0, -2.0) + cut);
  }

  lemma BoxIsFlattened(sample: Sampler)
    ensures Flatten(sample, BOX_SEGMENTS) == [BOX]
  {
    RectIsFlattened(sample, CORNER, Point(26.0, 26.0));
  }

  /* ---------- The cut after the box ---------- */

  // A leading absolute moveto leaves nothing of the parser's state before it.
  lemma AbsoluteStart(cut: seq<Token>, pen: Pen)
    requires cut != [] && cut[0] == Letter('M') && pen.lastCubic.None? && pen.lastQuad.None?
    ensures Segments(cut, pen) == Segments(cut, START)
  {
  }

  /**
  The clip path of an outside cut draws the box and then exactly the polygons of the cut alone,
  when the cut starts with an absolute moveto.
  */
  lemma ClipIsBoxAndCut(sample: Sampler, cut: seq<Token>, segments: seq<Segment>)
    requires cut != [] && cut[0] == Letter('M') && Segments(cut, START) == Ok(segments)
    ensures Segments(BOX_TOKENS + cut, START) == Ok(BOX_SEGMENTS + segments)
    ensures Flatten(sample, BOX_SEGMENTS + segments) == [BOX] + Flatten(sample, segments)
  {
    BoxThen(cut);
    AbsoluteStart(cut, ClosedPen('Z', CORNER));
    FirstIsMoveTo(cut, segments);
    FlatConcat(sample, BOX_SEGMENTS, segments, [], ORIGIN, ORIGIN);
    BoxIsFlattened(sample);
  }

  lemma FirstIsMoveTo(cut: seq<Token>, segments: seq<Segment>)
    requires cut != [] && cut[0] == Letter('M') && Segments(cut, START) == Ok(segments)
    ensures segments != [] && segments[0].MoveTo?
  {
  }

  // A leading moveto draws where its argument is, counted from the current point when it is relative.
  lemma LeadingMoveTo(cut: seq<Token>, pen: Pen, segments: seq<Segment>)
    requires cut != [] && cut[0] == Letter('m') && Segments(cut, START) == Ok(segments)
    ensures segments != [] && segments[0].MoveTo?
    ensures Segments(cut, pen).Ok? ==>
      Segments(cut, pen).value != [] &&
      Segments(cut, pen).value[0] == MoveTo(Point(pen.current.x + segments[0].to.x, pen.current.y + segments[0].to.y))
  {
  }

  lemma PrefixCancels(done: seq<Segment>, r: Result<seq<Segment>, PathFault>, segments: seq<Segment>)
    ensures Prepend(done, r) == Ok(done + segments) <==> r == Ok(segments)
  {
    if r.Ok? && done + r.value == done + segments {
      assert (done + r.value)[|done|..] == r.value && (done + segments)[|done|..] == segments;
    }
  }

  /** The clip keeps the segments of its cut exactly when the cut starts with an absolute moveto. */
  lemma ClipKeepsTheCutIff(cut: seq<Token>, segments: seq<Segment>)
    requires cut != [] && (cut[0] == Letter('M') || cut[0] == Letter('m')) && Segments(cut, START) == Ok(segments)
    ensures Segments(BOX_TOKENS + cut, START) == Ok(BOX_SEGMENTS + segments) <==> cut[0] == Letter('M')
  {
    BoxThen(cut);
    if cut[0] == Letter('M') {
      AbsoluteStart(cut, ClosedPen('Z', CORNER));
    } else {
      LeadingMoveTo(cut, ClosedPen('Z', CORNER), segments);
      PrefixCancels(BOX_SEGMENTS, Segments(cut, ClosedPen('Z', CORNER)), segments);
    }
  }

  /* ---------- A relative cut ---------- */

  // "m x y h w v t h -w z": a rectangle drawn with relative commands only.
  function RelativeRect(x: real, y: real, w: real, t: real): seq<Token> {
    [Letter('m'), Number(x), Number(y), Letter('h'), Number(w), Letter('v'), Number(t), Letter('h'), Number(-w), Letter('z')]
  }

  lemma RectIsFlattened(sample: Sampler, a: Point, b: Point)
    ensures Flatten(sample, RectSegments(a, b)) == [Rect(a, b)]
  {
    var s := RectSegments(a, b);
    assert s == [MoveTo(a), LineTo(Point(b.x, a.y)), LineTo(b), LineTo(Point(a.x, b.y)), Close];
    var top, right := Point(b.x, a.y), Point(a.x, b.y);
    assert Flat(sample, s[4..], [a, top, b, right], right, a) == [Rect(a, b)] by {
      assert s[4..][1..] == [];
      assert Flat(sample, [], [], a, a) == [];
    }
    assert Flat(sample, s[3..], [a, top, b], b, a) == [Rect(a, b)] by {
      assert s[3..][1..] == s[4..];
      assert [a, top, b] + [right] == [a, top, b, right];
    }
    assert Flat(sample, s[2..], [a, top], top, a) == [Rect(a, b)] by {
      assert s[2..][1..] == s[3..];
      assert [a, top] + [b] == [a, top, b];
    }
    assert Flat(sample, s[1..], [a], a, a) == [Rect(a, b)] by {
      assert s[1..][1..] == s[2..];
      assert [a] + [top] == [a, top];
    }
  }

  lemma RectFrom(x: real, y: real, w: real, t: real, pen: Pen)
    ensures var a := Point(pen.current.x + x, pen.current.y + y);
      Segments(RelativeRect(x, y, w, t), pen) == Ok(RectSegments(a, Point(a.x + w, a.y + t)))
  {
    var a := Point(pen.current.x + x, pen.current.y + y);
    var b := Point(a.x + w, a.y + t);
    ReadRect(false, [x, y], w, t, -w, a, b, pen, []);
    assert RelativeRect(x, y, w, t) == [Letter('m')] + Numbered([x, y]) + (Sides('h', 'v', 'z', w, t, -w) + []);
    assert RectSegments(a, b) + [] == RectSegments(a, b);
  }

  /**
  A relative rectangle used as an outside cut is cut out two units up and to the left of where it
  draws alone, so at a point of the box the clip is the complement of the cut only when the point
  lies in both rectangles or in neither.
  */
  lemma RelativeCutIsShifted(sample: Sampler, x: real, y: real, w: real, t: real, p: Point)
    requires w > 0.0 && t > 0.0 && -2.0 <= p.x < 26.0 && -2.0 <= p.y < 26.0
    ensures var a, b := Point(x, y), Point(x + w, y + t);
            var shiftedA, shiftedB := Point(x - 2.0, y - 2.0), Point(x - 2.0 + w, y - 2.0 + t);
            var cut := RelativeRect(x, y, w, t);
      && Segments(cut, START) == Ok(RectSegments(a, b))
      && Segments(BOX_TOKENS + cut, START) == Ok(BOX_SEGMENTS + RectSegments(shiftedA, shiftedB))
      && (Painted(Flatten(sample, RectSegments(a, b)), p, EvenOdd) <==> InRect(a, b, p))
      && (Painted(Flatten(sample, BOX_SEGMENTS + RectSegments(shiftedA, shiftedB)), p, EvenOdd) <==>
            !InRect(shiftedA, shiftedB, p))
  {
    var a, b := Point(x, y), Point(x + w, y + t);
    var shiftedA, shiftedB := Point(x - 2.0, y - 2.0), Point(x - 2.0 + w, y - 2.0 + t);
    RectFrom(x, y, w, t, START);
    RectFrom(x, y, w, t, ClosedPen('Z', CORNER));
    BoxThen(RelativeRect(x, y, w, t));
    RectIsFlattened(sample, a, b);
    RectIsFlattened(sample, shiftedA, shiftedB);
    BoxIsFlattened(sample);
    FlatConcat(sample, BOX_SEGMENTS, RectSegments(shiftedA, shiftedB), [], ORIGIN, ORIGIN);
    RectPaint(a, b, p);
    RectPaint(shiftedA, shiftedB, p);
    OutsideClipIsComplement([Rect(shiftedA, shiftedB)], p);
  }

  /** One such cut, "m4 4h2v2h-2z", at one point: the cut paints (5, 5), and so does the clip outside it. */
  lemma RelativeCutOverlapsItsOutside(sample: Sampler)
    ensures var cut, p := RelativeRect(4.0, 4.0, 2.0, 2.0), Point(5.0, 5.0);
      && Segments(cut, START).Ok? && Painted(Flatten(sample, Segments(cut, START).value), p, EvenOdd)
      && Segments(BOX_TOKENS + cut, START).Ok?
      && Painted(Flatten(sample, Segments(BOX_TOKENS + cut, START).value), p, EvenOdd)
  {
    RelativeCutIsShifted(sample, 4.0, 4.0, 2.0, 2.0, Point(5.0, 5.0));
  }

  /* ---------- Two parts sharing a cut ---------- */

  /**
  Two parts that share a cut, one inside it by nonzero and one outside it by evenodd, split every
  point of the box without overlap or gap exactly where both rules agree about the cut.
  */
  lemma PartsSplitIff(cut: seq<Polygon>, p: Point)
    requires -2.0 <= p.x < 26.0 && -2.0 <= p.y < 26.0
    ensures Painted(cut, p, NonZero) != Painted([BOX] + cut, p, EvenOdd) <==>
            (Winding(cut, p) == 0 || Crossings(cut, p) % 2 == 1)
    ensures Painted(cut, p, NonZero) || Painted([BOX] + cut, p, EvenOdd)
  {
    OutsideClipIsComplement(cut, p);
    EvenOddInsideNonZero(cut, p);
  }

  lemma {:induction false} WindingConcat(a: seq<Polygon>, b: seq<Polygon>, p: Point)
    ensures Winding(a + b, p) == Winding(a, p) + Winding(b, p)
  {
    if b == [] {
      assert a + b == a;
    } else {
      WindingConcat(a, b[..|b| - 1], p);
      assert (a + b)[..|a + b| - 1] == a + b[..|b| - 1];
    }
  }

  /**
  A cut that winds twice around a point leaves both parts painting it: the box drawn twice is a cut
  whose inside clip and whose outside clip both paint all of the box.
  */
  lemma DoubleCutOverlaps(sample: Sampler, p: Point)
    requires -2.0 <= p.x < 26.0 && -2.0 <= p.y < 26.0
    ensures var cut := BOX_TOKENS + BOX_TOKENS;
      && Segments(cut, START).Ok? && Painted(Flatten(sample, Segments(cut, START).value), p, NonZero)
      && Segments(BOX_TOKENS + cut, START).Ok?
      && Painted(Flatten(sample, Segments(BOX_TOKENS + cut, START).value), p, EvenOdd)
  {
    BoxAlone();
    BoxIsFlattened(sample);
    ClipIsBoxAndCut(sample, BOX_TOKENS, BOX_SEGMENTS);
    ClipIsBoxAndCut(sample, BOX_TOKENS + BOX_TOKENS, BOX_SEGMENTS + BOX_SEGMENTS);
    BoxPaint(p);
    EvenOddInsideNonZero([BOX], p);
    WindingConcat([BOX], [BOX], p);
    EvenOddIsExclusiveOr([BOX], [BOX], p);
    OutsideClipIsComplement([BOX] + [BOX], p);
  }

  lemma BoxAlone()
    ensures Segments(BOX_TOKENS, START) == Ok(BOX_SEGMENTS)
  {
    BoxThen([]);
    assert BOX_TOKENS + [] == BOX_TOKENS;
    assert BOX_SEGMENTS + [] == BOX_SEGMENTS;
  }
}
