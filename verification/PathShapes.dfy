/**
Splitting a path into self-contained subpaths, and flattening a path into polygons: the parts of
a split draw the same polygons as the whole.
*/
module PathShapes {
  import opened Wrappers
  import opened FillRules
  import opened Paths

  /* ---------- Splitting ---------- */

  function Concat(groups: seq<seq<Segment>>): seq<Segment> {
    if groups == [] then [] else Concat(groups[..|groups| - 1]) + groups[|groups| - 1]
  }

  // A path that does not start with a moveto is drawn from the origin.
  function Started(segments: seq<Segment>): seq<Segment> {
    if segments == [] || segments[0].MoveTo? then segments else [MoveTo(ORIGIN)] + segments
  }

  // One moveto, at the front; commands after a close belong to the subpath they continue.
  predicate IsSubpath(group: seq<Segment>) {
    group != [] && group[0].MoveTo? && forall i :: 0 < i < |group| ==> !group[i].MoveTo?
  }

  ghost predicate IsSplit(segments: seq<Segment>, groups: seq<seq<Segment>>) {
    Concat(groups) == Started(segments) && forall i :: 0 <= i < |groups| ==> IsSubpath(groups[i])
  }

  lemma ConcatSnoc(groups: seq<seq<Segment>>, g: seq<Segment>)
    ensures Concat(groups + [g]) == Concat(groups) + g
  {
    assert (groups + [g])[..|groups|] == groups;
  }

  lemma StartedSnoc(segments: seq<Segment>, segment: Segment)
    ensures segments != [] ==> Started(segments + [segment]) == Started(segments) + [segment]
  {
    if segments != [] {
      assert (segments + [segment])[0] == segments[0];
      assert [MoveTo(ORIGIN)] + (segments + [segment]) == [MoveTo(ORIGIN)] + segments + [segment];
    }
  }

  lemma ConcatOne(g: seq<Segment>)
    ensures Concat([g]) == g
  {
    ConcatSnoc([], g);
    assert [] + [g] == [g] && [] + g == g;
  }

  // What the segments so far have been split into, after one more.
  lemma PushSegment(segments: seq<Segment>, groups: seq<seq<Segment>>, segment: Segment)
    requires IsSplit(segments, groups) && (groups == [] <==> segments == [])
    ensures segment.MoveTo? ==> IsSplit(segments + [segment], groups + [[segment]])
    ensures !segment.MoveTo? && groups == [] ==> IsSplit(segments + [segment], [[MoveTo(ORIGIN), segment]])
    ensures !segment.MoveTo? && groups != [] ==>
      IsSplit(segments + [segment], groups[..|groups| - 1] + [groups[|groups| - 1] + [segment]])
  {
    StartedSnoc(segments, segment);
    if segment.MoveTo? {
      ConcatSnoc(groups, [segment]);
    } else if groups == [] {
      ConcatOne([MoveTo(ORIGIN), segment]);
      assert segments + [segment] == [segment];
      assert [MoveTo(ORIGIN)] + [segment] == [MoveTo(ORIGIN), segment];
    } else {
      var before, open := groups[..|groups| - 1], groups[|groups| - 1];
      ConcatSnoc(before, open + [segment]);
      assert Concat(before) + (open + [segment]) == Concat(groups) + [segment];
    }
  }

  /** `splitSubpaths`, before printing: adds at most one moveto, at the very front, and loses nothing. */
  method SplitSegments(segments: seq<Segment>) returns (groups: seq<seq<Segment>>)
    ensures IsSplit(segments, groups)
  {
    groups := [];
    for i := 0 to |segments|
      invariant groups == [] <==> segments[..i] == []
      invariant IsSplit(segments[..i], groups)
    {
      var segment := segments[i];
      assert segments[..i + 1] == segments[..i] + [segment];
      PushSegment(segments[..i], groups, segment);
      hide IsSplit;
      if segment.MoveTo? {
        groups := groups + [[segment]];
      } else if groups == [] {
        groups := [[MoveTo(ORIGIN), segment]];
      } else {
        groups := groups[..|groups| - 1] + [groups[|groups| - 1] + [segment]];
      }
    }
    assert segments[..|segments|] == segments;
  }

  /* ---------- Flattening ---------- */

  // The points a curve or arc is sampled at, from the current point; any function will do.
  type Sampler = (Point, Segment) -> seq<Point>

  function Flushed(polygon: Polygon): seq<Polygon> {
    if |polygon| > 1 then [polygon] else []
  }

  function Opened(polygon: Polygon, current: Point): Polygon {
    if |polygon| == 0 then [current] else polygon
  }

  function Drawn(sample: Sampler, current: Point, s: Segment): seq<Point> {
    match s
    case MoveTo(to) => [to]
    case LineTo(to) => [to]
    case ArcTo(rx, ry, _, _, _, to) => if rx == 0.0 || ry == 0.0 then [to] else sample(current, s)
    case _ => sample(current, s)
  }

  function Flat(sample: Sampler, segments: seq<Segment>, polygon: Polygon, current: Point, start: Point): seq<Polygon>
    decreases |segments|
  {
    if segments == [] then Flushed(polygon)
    else
      var s, rest := segments[0], segments[1..];
      match s
      case MoveTo(to) => Flushed(polygon) + Flat(sample, rest, [to], to, to)
      case Close => Flushed(polygon) + Flat(sample, rest, [], start, start)
      case _ => Flat(sample, rest, Opened(polygon, current) + Drawn(sample, current, s), s.to, start)
  }

  function Flatten(sample: Sampler, segments: seq<Segment>): seq<Polygon> {
    Flat(sample, segments, [], ORIGIN, ORIGIN)
  }

  /** `flattenPath`, given the sampler. */
  method FlattenPath(sample: Sampler, segments: seq<Segment>) returns (polygons: seq<Polygon>)
    ensures polygons == Flatten(sample, segments)
  {
    polygons := [];
    var polygon: Polygon := [];
    var current, start := ORIGIN, ORIGIN;
    assert segments[0..] == segments;
    assert [] + Flatten(sample, segments) == Flatten(sample, segments);
    for i := 0 to |segments|
      invariant Flatten(sample, segments) == polygons + Flat(sample, segments[i..], polygon, current, start)
    {
      var segment := segments[i];
      assert segments[i..][1..] == segments[i + 1..];
      if segment.MoveTo? {
        polygons := polygons + Flushed(polygon);
        polygon, current, start := [segment.to], segment.to, segment.to;
      } else if segment.Close? {
        polygons := polygons + Flushed(polygon);
        polygon, current := [], start;
      } else {
        polygon := Opened(polygon, current) + Drawn(sample, current, segment);
        current := segment.to;
      }
    }
    polygons := polygons + Flushed(polygon);
  }

  /* ---------- What curves draw ---------- */

  function Lines(points: seq<Point>): seq<Segment> {
    if points == [] then [] else [LineTo(points[0])] + Lines(points[1..])
  }

  lemma {:induction false} LinesFlatten(
    sample: Sampler, points: seq<Point>, rest: seq<Segment>, polygon: Polygon, current: Point, start: Point)
    requires points != []
    ensures Flat(sample, Lines(points) + rest, polygon, current, start) ==
            Flat(sample, rest, Opened(polygon, current) + points, points[|points| - 1], start)
    decreases |points|
  {
    var first, more := points[0], points[1..];
    var drawn := Opened(polygon, current) + [first];
    OneLine(sample, first, Lines(more) + rest, polygon, current, start);
    LinesSplit(points, rest, Opened(polygon, current));
    OpenedStays(drawn, first);
    hide Flat, Opened, Lines;
    if more != [] {
      LinesFlatten(sample, more, rest, drawn, first, start);
    }
  }

  lemma LinesSplit(points: seq<Point>, rest: seq<Segment>, polygon: Polygon)
    requires points != []
    ensures Lines(points) + rest == [LineTo(points[0])] + (Lines(points[1..]) + rest)
    ensures polygon + [points[0]] + points[1..] == polygon + points
    ensures points[1..] == [] ==> Lines(points[1..]) + rest == rest && points == [points[0]]
  {
  }

  lemma OpenedStays(polygon: Polygon, current: Point)
    requires polygon != []
    ensures Opened(polygon, current) == polygon
  {
  }

  lemma OneLine(sample: Sampler, to: Point, rest: seq<Segment>, polygon: Polygon, current: Point, start: Point)
    ensures Flat(sample, [LineTo(to)] + rest, polygon, current, start) ==
            Flat(sample, rest, Opened(polygon, current) + [to], to, start)
  {
    assert ([LineTo(to)] + rest)[1..] == rest;
  }

  /** A curve draws what straight lines through its sampled points draw, and a degenerate arc one line. */
  lemma CurveIsItsPolyline(
    sample: Sampler, curve: Segment, rest: seq<Segment>, polygon: Polygon, current: Point, start: Point)
    requires curve.CubicTo? || curve.QuadTo? || curve.ArcTo?
    requires sample(current, curve) != [] && sample(current, curve)[|sample(current, curve)| - 1] == curve.to
    ensures !(curve.ArcTo? && (curve.rx == 0.0 || curve.ry == 0.0)) ==>
      Flat(sample, [curve] + rest, polygon, current, start) ==
      Flat(sample, Lines(sample(current, curve)) + rest, polygon, current, start)
    ensures curve.ArcTo? && (curve.rx == 0.0 || curve.ry == 0.0) ==>
      Flat(sample, [curve] + rest, polygon, current, start) ==
      Flat(sample, [LineTo(curve.to)] + rest, polygon, current, start)
  {
    assert ([curve] + rest)[1..] == rest && ([LineTo(curve.to)] + rest)[1..] == rest;
    LinesFlatten(sample, sample(current, curve), rest, polygon, current, start);
  }

  /** A command after a close starts a new polygon where the closed one started. */
  lemma CloseReturnsToTheStart(sample: Sampler, a: Point, b: Point, c: Point)
    ensures Flatten(sample, [MoveTo(a), LineTo(b), Close, LineTo(c)]) == [[a, b], [a, c]]
  {
    var s := [MoveTo(a), LineTo(b), Close, LineTo(c)];
    assert Flat(sample, s[4..], [a, c], c, a) == [[a, c]];
    assert s[3..][1..] == s[4..] && [a] + [c] == [a, c];
    assert Flat(sample, s[3..], [], a, a) == [[a, c]];
    assert s[2..][1..] == s[3..];
    assert Flat(sample, s[2..], [a, b], b, a) == [[a, b]] + [[a, c]];
    assert s[1..][1..] == s[2..] && [a] + [b] == [a, b];
    assert Flat(sample, s[1..], [a], a, a) == [[a, b], [a, c]];
  }

  /* ---------- The parts draw the whole ---------- */

  lemma {:induction false} FlatConcat(
    sample: Sampler, a: seq<Segment>, b: seq<Segment>, polygon: Polygon, current: Point, start: Point)
    requires b != [] && b[0].MoveTo?
    ensures Flat(sample, a + b, polygon, current, start) == Flat(sample, a, polygon, current, start) + Flatten(sample, b)
    decreases |a|
  {
    if a == [] {
      assert a + b == b;
      FlatFromMove(sample, b, polygon, current, start);
    } else {
      var s := a[0];
      assert (a + b)[1..] == a[1..] + b;
      match s
      case MoveTo(to) => FlatConcat(sample, a[1..], b, [to], to, to);
      case Close => FlatConcat(sample, a[1..], b, [], start, start);
      case _ => FlatConcat(sample, a[1..], b, Opened(polygon, current) + Drawn(sample, current, s), s.to, start);
    }
  }

  // A moveto only flushes what came before it.
  lemma FlatFromMove(sample: Sampler, b: seq<Segment>, polygon: Polygon, current: Point, start: Point)
    requires b != [] && b[0].MoveTo?
    ensures Flat(sample, b, polygon, current, start) == Flushed(polygon) + Flatten(sample, b)
  {
  }

  function FlattenAll(sample: Sampler, groups: seq<seq<Segment>>): seq<Polygon> {
    if groups == [] then []
    else FlattenAll(sample, groups[..|groups| - 1]) + Flatten(sample, groups[|groups| - 1])
  }

  lemma {:induction false} FlattenConcat(sample: Sampler, groups: seq<seq<Segment>>)
    requires forall i :: 0 <= i < |groups| ==> IsSubpath(groups[i])
    ensures Flatten(sample, Concat(groups)) == FlattenAll(sample, groups)
  {
    if groups != [] {
      var last := |groups| - 1;
      FlattenConcat(sample, groups[..last]);
      FlatConcat(sample, Concat(groups[..last]), groups[last], [], ORIGIN, ORIGIN);
    }
  }

  /** The synthetic moveto at the front draws nothing. */
  lemma StartedDrawsTheSame(sample: Sampler, segments: seq<Segment>)
    ensures Flatten(sample, Started(segments)) == Flatten(sample, segments)
  {
    if segments != [] && !segments[0].MoveTo? {
      assert Started(segments)[1..] == segments;
      assert Opened([ORIGIN], ORIGIN) == Opened([], ORIGIN);
      assert Flushed([ORIGIN]) == Flushed([]);
      assert Flatten(sample, Started(segments)) == Flushed([]) + Flat(sample, segments, [ORIGIN], ORIGIN, ORIGIN);
      assert Flat(sample, segments, [ORIGIN], ORIGIN, ORIGIN) == Flat(sample, segments, [], ORIGIN, ORIGIN);
    }
  }

  /** The polygons of the parts, in order, are the polygons of the whole, commands after a close included. */
  lemma SplitDrawsTheSame(sample: Sampler, segments: seq<Segment>, groups: seq<seq<Segment>>)
    requires IsSplit(segments, groups)
    ensures FlattenAll(sample, groups) == Flatten(sample, segments)
  {
    FlattenConcat(sample, groups);
    StartedDrawsTheSame(sample, segments);
  }

  /* ---------- Through the printed strings ---------- */

  lemma {:induction false} ParsedRadii(tokens: seq<Token>, pen: Pen)
    ensures Segments(tokens, pen).Ok? ==> forall s :: s in Segments(tokens, pen).value ==> HasRadii(s)
    decreases |tokens|
  {
    if tokens != [] {
      var command := NextCommand(tokens, pen);
      if command.Ok? {
        ParsedRadii(tokens[command.value.0..], command.value.2);
      }
    }
  }

  lemma InConcat(groups: seq<seq<Segment>>, i: nat, s: Segment)
    requires i < |groups| && s in groups[i]
    ensures s in Concat(groups)
  {
    if i < |groups| - 1 { InConcat(groups[..|groups| - 1], i, s); }
  }

  /**
  `splitSubpaths` preserves the drawing: parsing each printed subpath again gives exactly its
  segments, and concatenated they are the whole path, after at most one synthetic moveto, whenever
  the path's numbers are whole thousandths.
  */
  lemma SplitStringsRedraw(tokens: seq<Token>, segments: seq<Segment>, groups: seq<seq<Segment>>, i: nat)
    requires Segments(tokens, START) == Ok(segments) && IsSplit(segments, groups) && i < |groups|
    requires forall s :: s in segments ==> SegmentInThousandths(s)
    ensures Segments(Serialize(groups[i]), START) == Ok(groups[i])
  {
    ParsedRadii(tokens, START);
    forall s | s in groups[i] ensures HasRadii(s) && SegmentInThousandths(s) {
      InConcat(groups, i, s);
      if s !in segments { assert s == MoveTo(ORIGIN); }
    }
    ReparseIsExactIff(groups[i], START);
  }

  /* ---------- Whole thousandths stay whole ---------- */

  lemma SumInThousandths(x: real, y: real)
    requires InThousandths(x) && InThousandths(y)
    ensures InThousandths(x + y) && InThousandths(2.0 * x - y) && InThousandths(AbsReal(x))
  {
    var m, n := (x * 1000.0).Floor, (y * 1000.0).Floor;
    assert (m + n) as real == (x + y) * 1000.0;
    assert (2 * m - n) as real == (2.0 * x - y) * 1000.0;
    assert (-m) as real == -x * 1000.0;
    FloorOfWhole(m + n);
    FloorOfWhole(2 * m - n);
    FloorOfWhole(-m);
  }

  predicate OptionInThousandths(p: Option<Point>) {
    p.Some? ==> PointInThousandths(p.value)
  }

  predicate PenInThousandths(pen: Pen) {
    PointInThousandths(pen.current) && PointInThousandths(pen.start) &&
    OptionInThousandths(pen.lastCubic) && OptionInThousandths(pen.lastQuad)
  }

  lemma PointSum(o: Point, x: real, y: real)
    requires PointInThousandths(o) && InThousandths(x) && InThousandths(y)
    ensures PointInThousandths(Point(o.x + x, o.y + y)) && InThousandths(AbsReal(x))
  {
    SumInThousandths(o.x, x);
    SumInThousandths(o.y, y);
    SumInThousandths(x, x);
  }

  lemma ReflectInThousandths(p: Point, control: Option<Point>)
    requires PointInThousandths(p) && OptionInThousandths(control)
    ensures PointInThousandths(Reflect(p, control))
  {
    if control.Some? {
      SumInThousandths(p.x, control.value.x);
      SumInThousandths(p.y, control.value.y);
    }
  }

  lemma OriginInThousandths()
    ensures PointInThousandths(ORIGIN)
  {
    FloorOfWhole(0);
  }

  lemma DrawInThousandths(pen: Pen, args: seq<real>)
    requires ArgumentCount(Lower(pen.command)) == Some(|args|) && PenInThousandths(pen)
    requires forall i :: 0 <= i < |args| ==> InThousandths(args[i])
    ensures SegmentInThousandths(Draw(pen, args).0) && PenInThousandths(Draw(pen, args).1)
  {
    OriginInThousandths();
    var o := if IsRelative(pen.command) then pen.current else ORIGIN;
    hide InThousandths;
    forall i, j | 0 <= i < |args| && 0 <= j < |args|
      ensures PointInThousandths(Point(o.x + args[i], o.y + args[j])) && InThousandths(AbsReal(args[i]))
    {
      PointSum(o, args[i], args[j]);
    }
    ReflectInThousandths(pen.current, pen.lastCubic);
    ReflectInThousandths(pen.current, pen.lastQuad);
    if Lower(pen.command) in {'h', 'v'} {
      assert PointInThousandths(Point(o.x + args[0], o.y + args[0]));
    }
    if Lower(pen.command) == 'a' {
      assert PointInThousandths(Point(o.x + args[5], o.y + args[6]));
      assert InThousandths(AbsReal(args[0])) && InThousandths(AbsReal(args[1]));
    }
  }

  ghost predicate TokensInThousandths(tokens: seq<Token>) {
    forall i :: 0 <= i < |tokens| && tokens[i].Number? ==> InThousandths(tokens[i].v)
  }

  lemma {:induction false} NumbersInThousandths(tokens: seq<Token>)
    requires TokensInThousandths(tokens)
    ensures Numbers(tokens).Some? ==> forall i :: 0 <= i < |Numbers(tokens).value| ==> InThousandths(Numbers(tokens).value[i])
  {
    if tokens != [] { NumbersInThousandths(tokens[1..]); }
  }

  /** Path data in thousandths parses to segments in thousandths: sums and reflections stay whole. */
  lemma {:induction false} ParsedInThousandths(tokens: seq<Token>, pen: Pen)
    requires TokensInThousandths(tokens) && PenInThousandths(pen)
    ensures Segments(tokens, pen).Ok? ==> forall s :: s in Segments(tokens, pen).value ==> SegmentInThousandths(s)
    decreases |tokens|
  {
    if tokens != [] {
      var command := NextCommand(tokens, pen);
      if command.Ok? {
        var (taken, segment, next) := command.value;
        NextInThousandths(tokens, pen);
        ParsedInThousandths(tokens[taken..], next);
      }
    }
  }

  lemma NextInThousandths(tokens: seq<Token>, pen: Pen)
    requires tokens != [] && TokensInThousandths(tokens) && PenInThousandths(pen) && NextCommand(tokens, pen).Ok?
    ensures SegmentInThousandths(NextCommand(tokens, pen).value.1) && PenInThousandths(NextCommand(tokens, pen).value.2)
  {
    var taken := if tokens[0].Letter? then 1 else 0;
    var held := if tokens[0].Letter? then pen.(command := tokens[0].c) else pen;
    var count := ArgumentCount(Lower(held.command)).value;
    NumbersInThousandths(tokens[taken..taken + count]);
    DrawInThousandths(held, Numbers(tokens[taken..taken + count]).value);
  }

  /** For path data in thousandths the printed subpaths redraw the path exactly, polygons included. */
  lemma SplitPreservesTheDrawing(sample: Sampler, tokens: seq<Token>, segments: seq<Segment>, groups: seq<seq<Segment>>)
    requires TokensInThousandths(tokens) && Segments(tokens, START) == Ok(segments) && IsSplit(segments, groups)
    ensures forall i :: 0 <= i < |groups| ==> Segments(Serialize(groups[i]), START) == Ok(groups[i])
    ensures Concat(groups) == segments || (segments[0] != MoveTo(ORIGIN) && Concat(groups) == [MoveTo(ORIGIN)] + segments)
    ensures segments == [] || segments[0].MoveTo? ==> Concat(groups) == segments
    ensures FlattenAll(sample, groups) == Flatten(sample, segments)
  {
    OriginInThousandths();
    ParsedInThousandths(tokens, START);
    forall i | 0 <= i < |groups| ensures Segments(Serialize(groups[i]), START) == Ok(groups[i]) {
      SplitStringsRedraw(tokens, segments, groups, i);
    }
    SplitDrawsTheSame(sample, segments, groups);
  }
}
