/**
SVG path data as a stream of command letters and numbers: parsing to absolute segments, printing
them back in thousandths, splitting into subpaths and flattening into polygons (SVG 2, section 9.3).
*/
module Paths {
  import opened Wrappers
  import opened FillRules

  datatype Segment =
    | MoveTo(to: Point)
    | LineTo(to: Point)
    | CubicTo(c1: Point, c2: Point, to: Point)
    | QuadTo(c: Point, to: Point)
    | ArcTo(rx: real, ry: real, rotation: real, large: bool, sweep: bool, to: Point)
    | Close

  datatype Token = Letter(c: char) | Number(v: real)

  // UnsupportedCommand is the parser's throw. OutOfScope streams are the ones without full argument
  // lists or with a number right after a closepath, which the parser does not diagnose.
  datatype PathFault = UnsupportedCommand(c: char) | OutOfScope

  // The parser's variables between two commands.
  datatype Pen = Pen(command: char, current: Point, start: Point, lastCubic: Option<Point>, lastQuad: Option<Point>)

  const ORIGIN: Point := Point(0.0, 0.0)
  const START: Pen := Pen('\0', ORIGIN, ORIGIN, None, None)

  /* ---------- Commands ---------- */

  function Lower(c: char): char {
    if 'A' <= c <= 'Z' then ((c as int) + 32) as char else c
  }

  predicate IsRelative(c: char) {
    'a' <= c <= 'z'
  }

  function ArgumentCount(lower: char): Option<nat> {
    match lower
    case 'm' => Some(2)
    case 'l' => Some(2)
    case 'h' => Some(1)
    case 'v' => Some(1)
    case 'c' => Some(6)
    case 's' => Some(4)
    case 'q' => Some(4)
    case 't' => Some(2)
    case 'a' => Some(7)
    case 'z' => Some(0)
    case _ => None
  }

  function AbsReal(x: real): real { if x < 0.0 then -x else x }

  function Reflect(about: Point, control: Option<Point>): Point {
    match control
    case None => about
    case Some(c) => Point(2.0 * about.x - c.x, 2.0 * about.y - c.y)
  }

  // One command with its arguments: the segment it draws and the pen afterwards.
  function Draw(pen: Pen, args: seq<real>): (r: (Segment, Pen))
    requires ArgumentCount(Lower(pen.command)) == Some(|args|)
  {
    var relative := IsRelative(pen.command);
    var o := if relative then pen.current else ORIGIN;
    var moved := pen.(lastCubic := None, lastQuad := None);
    match Lower(pen.command)
    case 'm' =>
      var to := Point(o.x + args[0], o.y + args[1]);
      (MoveTo(to), moved.(command := if relative then 'l' else 'L', current := to, start := to))
    case 'l' =>
      var to := Point(o.x + args[0], o.y + args[1]);
      (LineTo(to), moved.(current := to))
    case 'h' =>
      var to := Point(o.x + args[0], pen.current.y);
      (LineTo(to), moved.(current := to))
    case 'v' =>
      var to := Point(pen.current.x, o.y + args[0]);
      (LineTo(to), moved.(current := to))
    case 'c' =>
      var c2, to := Point(o.x + args[2], o.y + args[3]), Point(o.x + args[4], o.y + args[5]);
      (CubicTo(Point(o.x + args[0], o.y + args[1]), c2, to), moved.(current := to, lastCubic := Some(c2)))
    case 's' =>
      var c2, to := Point(o.x + args[0], o.y + args[1]), Point(o.x + args[2], o.y + args[3]);
      (CubicTo(Reflect(pen.current, pen.lastCubic), c2, to), moved.(current := to, lastCubic := Some(c2)))
    case 'q' =>
      var c, to := Point(o.x + args[0], o.y + args[1]), Point(o.x + args[2], o.y + args[3]);
      (QuadTo(c, to), moved.(current := to, lastQuad := Some(c)))
    case 't' =>
      var c, to := Reflect(pen.current, pen.lastQuad), Point(o.x + args[0], o.y + args[1]);
      (QuadTo(c, to), moved.(current := to, lastQuad := Some(c)))
    case 'a' =>
      var to := Point(o.x + args[5], o.y + args[6]);
      (ArcTo(AbsReal(args[0]), AbsReal(args[1]), args[2], args[3] == 1.0, args[4] == 1.0, to), moved.(current := to))
    case 'z' =>
      (Close, moved.(current := pen.start))
  }

  function Numbers(tokens: seq<Token>): Option<seq<real>> {
    if tokens == [] then Some([])
    else
      match Numbers(tokens[1..])
      case None => None
      case Some(rest) => if tokens[0].Number? then Some([tokens[0].v] + rest) else None
  }

  // The next command: how many tokens it takes, what it draws, and the pen afterwards.
  function NextCommand(tokens: seq<Token>, pen: Pen): (r: Result<(nat, Segment, Pen), PathFault>)
    requires tokens != []
    ensures r.Ok? ==> 0 < r.value.0 <= |tokens|
  {
    var taken := if tokens[0].Letter? then 1 else 0;
    var held := if tokens[0].Letter? then pen.(command := tokens[0].c) else pen;
    match ArgumentCount(Lower(held.command))
    case None => Err(UnsupportedCommand(held.command))
    case Some(count) =>
      if taken + count == 0 || taken + count > |tokens| then Err(OutOfScope)
      else
        var args := Numbers(tokens[taken..taken + count]);
        if args.None? || |args.value| != count then Err(OutOfScope)
        else
          var (segment, next) := Draw(held, args.value);
          Ok((taken + count, segment, next))
  }

  function Segments(tokens: seq<Token>, pen: Pen): Result<seq<Segment>, PathFault>
    decreases |tokens|
  {
    if tokens == [] then Ok([])
    else
      match NextCommand(tokens, pen)
      case Err(fault) => Err(fault)
      case Ok((taken, segment, next)) =>
        Prepend([segment], Segments(tokens[taken..], next))
  }

  function Prepend(done: seq<Segment>, r: Result<seq<Segment>, PathFault>): Result<seq<Segment>, PathFault> {
    match r
    case Err(fault) => Err(fault)
    case Ok(rest) => Ok(done + rest)
  }

  lemma PrependNothing(r: Result<seq<Segment>, PathFault>)
    ensures Prepend([], r) == r
  {
    if r.Ok? { assert [] + r.value == r.value; }
  }

  lemma PrependStep(done: seq<Segment>, segment: Segment, r: Result<seq<Segment>, PathFault>)
    ensures Prepend(done, Prepend([segment], r)) == Prepend(done + [segment], r)
  {
    if r.Ok? { assert done + ([segment] + r.value) == (done + [segment]) + r.value; }
  }

  // The whole reading, when `done` is read and this position and pen come next.
  function ReadFrom(done: seq<Segment>, tokens: seq<Token>, index: nat, pen: Pen): Result<seq<Segment>, PathFault>
    requires index <= |tokens|
  {
    Prepend(done, Segments(tokens[index..], pen))
  }

  lemma ReadStep(done: seq<Segment>, tokens: seq<Token>, index: nat, pen: Pen)
    requires index < |tokens|
    ensures match NextCommand(tokens[index..], pen)
            case Err(fault) => ReadFrom(done, tokens, index, pen) == Err(fault)
            case Ok((taken, segment, next)) =>
              ReadFrom(done, tokens, index, pen) == ReadFrom(done + [segment], tokens, index + taken, next)
  {
    var command := NextCommand(tokens[index..], pen);
    hide NextCommand;
    if command.Ok? {
      var (taken, segment, next) := command.value;
      assert tokens[index..][taken..] == tokens[index + taken..];
      PrependStep(done, segment, Segments(tokens[index + taken..], next));
    }
  }

  lemma ReadEnds(done: seq<Segment>, tokens: seq<Token>, pen: Pen)
    ensures ReadFrom(done, tokens, |tokens|, pen) == Ok(done)
    ensures ReadFrom([], tokens, 0, pen) == Segments(tokens, pen)
  {
    assert done + [] == done && tokens[0..] == tokens;
    PrependNothing(Segments(tokens, pen));
  }

  method ParsePath(tokens: seq<Token>) returns (r: Result<seq<Segment>, PathFault>)
    ensures r == Segments(tokens, START)
  {
    var segments: seq<Segment> := [];
    var index := 0;
    var pen := START;
    ReadEnds([], tokens, START);
    hide ReadFrom, Segments, NextCommand;
    while index < |tokens|
      invariant 0 <= index <= |tokens|
      invariant Segments(tokens, START) == ReadFrom(segments, tokens, index, pen)
    {
      ReadStep(segments, tokens, index, pen);
      var command := NextCommand(tokens[index..], pen);
      if command.Err? {
        return Err(command.error);
      }
      var (taken, segment, next) := command.value;
      segments := segments + [segment];
      pen := next;
      index := index + taken;
    }
    ReadEnds(segments, tokens, pen);
    return Ok(segments);
  }

  /* ---------- Printing ---------- */

  // Math.round(value * 1000) / 1000
  function Round(x: real): real {
    (x * 1000.0 + 0.5).Floor as real / 1000.0
  }

  predicate InThousandths(x: real) {
    (x * 1000.0).Floor as real == x * 1000.0
  }

  lemma FloorIs(x: real, n: int)
    requires n as real <= x < n as real + 1.0
    ensures x.Floor == n
  {
    var m := x.Floor;
    assert m as real <= x < m as real + 1.0;
    assert (m - n) as real == m as real - n as real;
  }

  lemma FloorOfWhole(n: int)
    ensures (n as real).Floor == n
  {
    FloorIs(n as real, n);
  }

  lemma Nearest(y: real)
    ensures y.Floor as real == y <==> (y + 0.5).Floor as real == y
    ensures y >= 0.0 ==> (y + 0.5).Floor >= 0
  {
    var n := (y + 0.5).Floor;
    if n as real == y {
      FloorIs(y, n);
    }
    if y.Floor as real == y {
      FloorIs(y + 0.5, y.Floor);
    }
  }

  /** Printing keeps a number exactly when it is a whole number of thousandths. */
  lemma RoundKeepsThousandths(x: real)
    ensures InThousandths(x) <==> Round(x) == x
    ensures InThousandths(Round(x))
    ensures x >= 0.0 ==> Round(x) >= 0.0
  {
    var y := x * 1000.0;
    var n := (y + 0.5).Floor;
    Nearest(y);
    assert Round(x) * 1000.0 == n as real;
    FloorOfWhole(n);
  }

  /** Printing takes the nearest thousandth, the greater of two that are equally near. */
  lemma RoundIsNearest(x: real)
    ensures InThousandths(Round(x)) && -0.0005 < Round(x) - x <= 0.0005
  {
    RoundKeepsThousandths(x);
    var y := x * 1000.0 + 0.5;
    assert y.Floor as real <= y < y.Floor as real + 1.0;
    assert Round(x) * 1000.0 == y.Floor as real;
  }

  function RoundPoint(p: Point): Point {
    Point(Round(p.x), Round(p.y))
  }

  function RoundSegment(s: Segment): Segment {
    match s
    case MoveTo(to) => MoveTo(RoundPoint(to))
    case LineTo(to) => LineTo(RoundPoint(to))
    case CubicTo(c1, c2, to) => CubicTo(RoundPoint(c1), RoundPoint(c2), RoundPoint(to))
    case QuadTo(c, to) => QuadTo(RoundPoint(c), RoundPoint(to))
    case ArcTo(rx, ry, rotation, large, sweep, to) =>
      ArcTo(Round(rx), Round(ry), Round(rotation), large, sweep, RoundPoint(to))
    case Close => Close
  }

  predicate PointInThousandths(p: Point) {
    InThousandths(p.x) && InThousandths(p.y)
  }

  predicate SegmentInThousandths(s: Segment) {
    match s
    case MoveTo(to) => PointInThousandths(to)
    case LineTo(to) => PointInThousandths(to)
    case CubicTo(c1, c2, to) => PointInThousandths(c1) && PointInThousandths(c2) && PointInThousandths(to)
    case QuadTo(c, to) => PointInThousandths(c) && PointInThousandths(to)
    case ArcTo(rx, ry, rotation, _, _, to) =>
      InThousandths(rx) && InThousandths(ry) && InThousandths(rotation) && PointInThousandths(to)
    case Close => true
  }

  function PointTokens(p: Point): seq<Token> {
    [Number(Round(p.x)), Number(Round(p.y))]
  }

  function Flag(b: bool): Token { Number(if b then 1.0 else 0.0) }

  function SegmentTokens(s: Segment): seq<Token> {
    match s
    case MoveTo(to) => [Letter('M')] + PointTokens(to)
    case LineTo(to) => [Letter('L')] + PointTokens(to)
    case CubicTo(c1, c2, to) => [Letter('C')] + PointTokens(c1) + PointTokens(c2) + PointTokens(to)
    case QuadTo(c, to) => [Letter('Q')] + PointTokens(c) + PointTokens(to)
    case ArcTo(rx, ry, rotation, large, sweep, to) =>
      [Letter('A'), Number(Round(rx)), Number(Round(ry)), Number(Round(rotation)), Flag(large), Flag(sweep)] + PointTokens(to)
    case Close => [Letter('Z')]
  }

  function Serialize(segments: seq<Segment>): seq<Token> {
    if segments == [] then [] else SegmentTokens(segments[0]) + Serialize(segments[1..])
  }

  function RoundAll(segments: seq<Segment>): seq<Segment> {
    if segments == [] then [] else [RoundSegment(segments[0])] + RoundAll(segments[1..])
  }

  // Arc radii the parser produces are never negative.
  predicate HasRadii(s: Segment) {
    s.ArcTo? ==> s.rx >= 0.0 && s.ry >= 0.0
  }

  lemma NumbersOf(tokens: seq<Token>, n: nat, args: seq<real>)
    requires n <= |tokens| && |args| == n
    requires forall i :: 0 <= i < n ==> tokens[i] == Number(args[i])
    ensures Numbers(tokens[..n]) == Some(args)
    decreases n
  {
    if n > 0 {
      NumbersOf(tokens[1..], n - 1, args[1..]);
      assert tokens[..n][1..] == tokens[1..][..n - 1];
      assert args == [args[0]] + args[1..];
    }
  }

  function Arguments(s: Segment): seq<real> {
    match s
    case MoveTo(to) => [Round(to.x), Round(to.y)]
    case LineTo(to) => [Round(to.x), Round(to.y)]
    case CubicTo(c1, c2, to) => [Round(c1.x), Round(c1.y), Round(c2.x), Round(c2.y), Round(to.x), Round(to.y)]
    case QuadTo(c, to) => [Round(c.x), Round(c.y), Round(to.x), Round(to.y)]
    case ArcTo(rx, ry, rotation, large, sweep, to) =>
      [Round(rx), Round(ry), Round(rotation), Flag(large).v, Flag(sweep).v, Round(to.x), Round(to.y)]
    case Close => []
  }

  function LetterOf(s: Segment): char {
    match s
    case MoveTo(_) => 'M'
    case LineTo(_) => 'L'
    case CubicTo(_, _, _) => 'C'
    case QuadTo(_, _) => 'Q'
    case ArcTo(_, _, _, _, _, _) => 'A'
    case Close => 'Z'
  }

  lemma TokensAreLetterAndArguments(s: Segment)
    ensures |SegmentTokens(s)| == 1 + |Arguments(s)| && SegmentTokens(s)[0] == Letter(LetterOf(s))
    ensures forall i :: 0 <= i < |Arguments(s)| ==> SegmentTokens(s)[1 + i] == Number(Arguments(s)[i])
    ensures ArgumentCount(Lower(LetterOf(s))) == Some(|Arguments(s)|)
  {
  }

  // A printed segment is read back, rounded, whatever came before it.
  lemma ReadPrinted(s: Segment, rest: seq<Token>, pen: Pen)
    requires HasRadii(s)
    ensures NextCommand(SegmentTokens(s) + rest, pen).Ok?
    ensures NextCommand(SegmentTokens(s) + rest, pen).value.0 == |SegmentTokens(s)|
    ensures NextCommand(SegmentTokens(s) + rest, pen).value.1 == RoundSegment(s)
  {
    var tokens := SegmentTokens(s) + rest;
    var n := |Arguments(s)|;
    TokensAreLetterAndArguments(s);
    NumbersOf(tokens[1..], n, Arguments(s));
    assert tokens[1..1 + n] == tokens[1..][..n];
    if s.ArcTo? {
      RoundKeepsThousandths(s.rx);
      RoundKeepsThousandths(s.ry);
    }
  }

  /** Printing and parsing again gives the rounded segments, from any state of the parser. */
  lemma {:induction false} ReparseRounds(segments: seq<Segment>, pen: Pen)
    requires forall s :: s in segments ==> HasRadii(s)
    ensures Segments(Serialize(segments), pen) == Ok(RoundAll(segments))
    decreases |segments|
  {
    if segments != [] {
      var rest := Serialize(segments[1..]);
      var tokens := SegmentTokens(segments[0]) + rest;
      ReadPrinted(segments[0], rest, pen);
      var (taken, segment, next) := NextCommand(tokens, pen).value;
      assert tokens[taken..] == rest;
      ReparseRounds(segments[1..], next);
    }
  }

  /** The round trip is exact if and only if every number is a whole number of thousandths. */
  lemma {:induction false} ReparseIsExactIff(segments: seq<Segment>, pen: Pen)
    requires forall s :: s in segments ==> HasRadii(s)
    ensures Segments(Serialize(segments), pen) == Ok(segments) <==>
            forall s :: s in segments ==> SegmentInThousandths(s)
  {
    ReparseRounds(segments, pen);
    RoundAllIsIdentityIff(segments);
  }

  lemma RoundSegmentIsIdentityIff(s: Segment)
    ensures RoundSegment(s) == s <==> SegmentInThousandths(s)
  {
    forall x: real { RoundKeepsThousandths(x); }
  }

  lemma {:induction false} RoundAllIsIdentityIff(segments: seq<Segment>)
    ensures RoundAll(segments) == segments <==> forall s :: s in segments ==> SegmentInThousandths(s)
  {
    if segments != [] {
      RoundSegmentIsIdentityIff(segments[0]);
      RoundAllIsIdentityIff(segments[1..]);
      assert segments == [segments[0]] + segments[1..];
      assert RoundAll(segments)[0] == RoundSegment(segments[0]);
      assert RoundAll(segments)[1..] == RoundAll(segments[1..]);
    }
  }
}
