/**
Where path commands draw, letter by letter: relative commands against absolute ones, the absolute
ones against their coordinates, smooth curves against the segment before (SVG 2, section 9.3).
*/
module PathCommands {
  import opened Wrappers
  import opened FillRules
  import opened Paths

  function Upper(c: char): char {
    if 'a' <= c <= 'z' then ((c as int) - 32) as char else c
  }

  // The arguments of the absolute command that draws what the relative one draws from this point:
  // coordinates are shifted by it; radii, rotation and flags are not coordinates.
  function Shifted(lower: char, args: seq<real>, at: Point): (shifted: seq<real>)
    requires ArgumentCount(lower) == Some(|args|)
    ensures |shifted| == |args|
  {
    match lower
    case 'h' => [args[0] + at.x]
    case 'v' => [args[0] + at.y]
    case 'a' => args[..5] + [args[5] + at.x, args[6] + at.y]
    case _ => seq(|args|, i requires 0 <= i < |args| => args[i] + if i % 2 == 0 then at.x else at.y)
  }

  predicate SamePen(a: Pen, b: Pen) {
    a.(command := b.command) == b
  }

  /** A relative command draws what the absolute one draws at the shifted coordinates, and leaves the same pen. */
  lemma RelativeIsShiftedAbsolute(c: char, args: seq<real>, pen: Pen)
    requires 'a' <= c <= 'z' && ArgumentCount(c) == Some(|args|)
    ensures ArgumentCount(Lower(Upper(c))) == Some(|args|)
    ensures var relative := Draw(pen.(command := c), args);
            var absolute := Draw(pen.(command := Upper(c)), Shifted(c, args, pen.current));
      && relative.0 == absolute.0 && SamePen(relative.1, absolute.1)
      && relative.1.command == (if c == 'm' then 'l' else c)
      && absolute.1.command == (if c == 'm' then 'L' else Upper(c))
  {
  }

  /** What the absolute commands draw. */
  lemma AbsoluteCommands(pen: Pen, x1: real, y1: real, x2: real, y2: real, x: real, y: real)
    ensures Draw(pen.(command := 'M'), [x, y]).0 == MoveTo(Point(x, y))
    ensures Draw(pen.(command := 'L'), [x, y]).0 == LineTo(Point(x, y))
    ensures Draw(pen.(command := 'H'), [x]).0 == LineTo(Point(x, pen.current.y))
    ensures Draw(pen.(command := 'V'), [y]).0 == LineTo(Point(pen.current.x, y))
    ensures Draw(pen.(command := 'C'), [x1, y1, x2, y2, x, y]).0 == CubicTo(Point(x1, y1), Point(x2, y2), Point(x, y))
    ensures Draw(pen.(command := 'Q'), [x1, y1, x, y]).0 == QuadTo(Point(x1, y1), Point(x, y))
    ensures Draw(pen.(command := 'Z'), []).0 == Close
    ensures var smooth := Draw(pen.(command := 'S'), [x2, y2, x, y]).0;
      smooth.CubicTo? && smooth.c2 == Point(x2, y2) && smooth.to == Point(x, y)
    ensures var smooth := Draw(pen.(command := 'T'), [x, y]).0;
      smooth.QuadTo? && smooth.to == Point(x, y)
  {
  }

  /** An absolute arc takes its radii without their signs; a flag is set by 1 only. */
  lemma AbsoluteArc(pen: Pen, args: seq<real>)
    requires |args| == 7
    ensures var arc := Draw(pen.(command := 'A'), args).0;
      && arc.ArcTo? && arc.rotation == args[2] && arc.to == Point(args[5], args[6])
      && arc.rx >= 0.0 && (arc.rx == args[0] || arc.rx == -args[0])
      && arc.ry >= 0.0 && (arc.ry == args[1] || arc.ry == -args[1])
      && (arc.large <==> args[3] == 1.0) && (arc.sweep <==> args[4] == 1.0)
  {
  }

  /** After a command the pen stands where the segment ends, or at the subpath's start after a close. */
  lemma PenFollowsTheSegment(pen: Pen, args: seq<real>)
    requires ArgumentCount(Lower(pen.command)) == Some(|args|)
    ensures var (segment, next) := Draw(pen, args);
      && next.current == (if segment.Close? then pen.start else segment.to)
      && next.start == (if segment.MoveTo? then segment.to else pen.start)
      && (segment.MoveTo? <==> Lower(pen.command) == 'm')
      && (segment.Close? <==> Lower(pen.command) == 'z')
  {
  }

  predicate IsMidpoint(m: Point, a: Point, b: Point) {
    a.x + b.x == 2.0 * m.x && a.y + b.y == 2.0 * m.y
  }

  /**
  A smooth curve continues the curve before it: the point where they meet is the midpoint of the
  last control of a cubic (for S) or quadratic (for T) and the new first control; after any other
  segment, and at the start, that control is the current point itself.
  */
  lemma SmoothReflectsThePrevious(pen: Pen, args: seq<real>, c: char, more: seq<real>)
    requires ArgumentCount(Lower(pen.command)) == Some(|args|)
    requires ArgumentCount(Lower(c)) == Some(|more|)
    ensures var (before, next) := Draw(pen, args);
            var drawn := Draw(next.(command := c), more).0;
      && (Lower(c) == 's' ==>
            drawn.CubicTo? &&
            if before.CubicTo? then IsMidpoint(next.current, before.c2, drawn.c1) else drawn.c1 == next.current)
      && (Lower(c) == 't' ==>
            drawn.QuadTo? &&
            if before.QuadTo? then IsMidpoint(next.current, before.c, drawn.c) else drawn.c == next.current)
    ensures var first := Draw(START.(command := c), more).0;
      && (Lower(c) == 's' ==> first.CubicTo? && first.c1 == ORIGIN)
      && (Lower(c) == 't' ==> first.QuadTo? && first.c == ORIGIN)
  {
  }

  /* ---------- In a stream ---------- */

  function Numbered(args: seq<real>): (tokens: seq<Token>)
    ensures |tokens| == |args| && forall i :: 0 <= i < |args| ==> tokens[i] == Number(args[i])
  {
    seq(|args|, i requires 0 <= i < |args| => Number(args[i]))
  }

  // One command with these numbers, read by a pen.
  lemma ReadCommand(c: char, args: seq<real>, rest: seq<Token>, pen: Pen)
    requires ArgumentCount(Lower(c)) == Some(|args|)
    ensures var (segment, next) := Draw(pen.(command := c), args);
      Segments([Letter(c)] + Numbered(args) + rest, pen) == Prepend([segment], Segments(rest, next))
  {
    var tokens := [Letter(c)] + Numbered(args) + rest;
    NumbersOf(tokens[1..], |args|, args);
    assert tokens[1..1 + |args|] == tokens[1..][..|args|];
    assert tokens[1 + |args|..] == rest;
  }

  /** Numbers without a letter repeat the last command, a moveto as a lineto of the same kind. */
  lemma RepeatedCommand(args: seq<real>, rest: seq<Token>, pen: Pen)
    requires ArgumentCount(Lower(pen.command)) == Some(|args|) && args != []
    ensures Segments(Numbered(args) + rest, pen) == Segments([Letter(pen.command)] + Numbered(args) + rest, pen)
  {
    var tokens := Numbered(args) + rest;
    NumbersOf(tokens, |args|, args);
    assert tokens[0..0 + |args|] == tokens[..|args|];
    assert tokens[0 + |args|..] == rest;
    ReadCommand(pen.command, args, rest, pen);
    assert pen.(command := pen.command) == pen;
  }

  // Where a letter comes next, or nothing, the command the pen repeats does not matter.
  lemma LetterForgetsCommand(rest: seq<Token>, a: Pen, b: Pen)
    requires SamePen(a, b) && (rest == [] || rest[0].Letter?)
    ensures Segments(rest, a) == Segments(rest, b)
  {
    if rest != [] {
      assert a.(command := rest[0].c) == b.(command := rest[0].c);
      assert NextCommand(rest, a) == NextCommand(rest, b);
    }
  }

  /** Anywhere in a path, a relative command may be written absolutely with its coordinates shifted. */
  lemma RelativeMayBeWrittenAbsolutely(c: char, args: seq<real>, rest: seq<Token>, pen: Pen)
    requires 'a' <= c <= 'z' && ArgumentCount(c) == Some(|args|) && (rest == [] || rest[0].Letter?)
    ensures Segments([Letter(c)] + Numbered(args) + rest, pen) ==
            Segments([Letter(Upper(c))] + Numbered(Shifted(c, args, pen.current)) + rest, pen)
  {
    RelativeIsShiftedAbsolute(c, args, pen);
    ReadCommand(c, args, rest, pen);
    ReadCommand(Upper(c), Shifted(c, args, pen.current), rest, pen);
    hide Segments, Draw;
    LetterForgetsCommand(rest, Draw(pen.(command := c), args).1, Draw(pen.(command := Upper(c)), Shifted(c, args, pen.current)).1);
  }
}
