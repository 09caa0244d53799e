/**
  The shape record of the editor (src/components/Canvas.js) and the small
  numeric helpers the geometry kernel is built from.

  Coordinates are exact `real`s. The few values the editor obtains from
  transcendental or browser functions (`Math.hypot` for a circle or pentagon
  radius, `Math.cos`/`Math.sin` for the pentagon vertices, `Math.atan2` for
  rotation, `isPointInStroke` for line hit-testing) come from a `Host` value
  that the caller supplies.
 */
module Shapes {

  datatype Point = Point(x: real, y: real)

  /** The tool names of the toolbar; a committed shape keeps the tool it was drawn with. */
  datatype Tool =
    | Select     // "select"
    | Line       // "line"
    | Square     // "square": rectangle, or square when isSquare
    | Circle     // "circle": ellipse, or circle when isCircle
    | Triangle   // "triangle"
    | Polygon    // "polygon": regular pentagon
    | PolyLine   // "poly-line"
    | Curve      // "curve"

  /** A shape either has two anchors (x0,y0)-(x1,y1) or a `points` list. */
  datatype Geom =
    | Anchors(x0: real, y0: real, x1: real, y1: real)
    | Points(pts: seq<Point>)

  datatype Shape = Shape(
    tool: Tool,
    geom: Geom,
    isSquare: bool,
    isCircle: bool,
    lineColor: string,
    fillColor: string,
    strokeWidth: real,
    rotation: real,
    selected: bool)

  /** The five unit vertex directions (cos a, sin a) of the pentagon, a = i*2pi/5 - pi/2. */
  datatype Pentagon = Pentagon(d0: Point, d1: Point, d2: Point, d3: Point, d4: Point)

  /** Functions the editor takes from its host environment. */
  datatype Host = Host(
    hypot: (real, real) -> real,
    atan2: (real, real) -> real,        // atan2(y, x)
    pentagon: Pentagon,
    inStroke: (Shape, real, Point) -> bool)  // shape, stroke width, query point

  /** Axis-aligned box. `Void` is the box {+inf, +inf, -inf, -inf} that
      Math.min/Math.max produce over an empty point list: it contains nothing. */
  datatype Box =
    | Void
    | Rect(xMin: real, yMin: real, xMax: real, yMax: real)

  function Min(a: real, b: real): (m: real)
    ensures m <= a && m <= b
    ensures m == a || m == b
  {
    if a <= b then a else b
  }

  function Max(a: real, b: real): (m: real)
    ensures a <= m && b <= m
    ensures m == a || m == b
  {
    if a >= b then a else b
  }

  function Abs(a: real): (r: real)
    ensures 0.0 <= r
    ensures r == a || r == -a
  {
    if a < 0.0 then -a else a
  }

  /** Inclusive containment, the test at src/components/Canvas.js:113. */
  predicate Contains(b: Box, p: Point)
  {
    b.Rect? && b.xMin <= p.x <= b.xMax && b.yMin <= p.y <= b.yMax
  }

  predicate WellOrdered(b: Box)
  {
    b.Rect? && b.xMin <= b.xMax && b.yMin <= b.yMax
  }

  function ShiftBox(b: Box, dx: real, dy: real): Box
  {
    match b
    case Void => Void
    case Rect(x0, y0, x1, y1) => Rect(x0 + dx, y0 + dy, x1 + dx, y1 + dy)
  }

  function ShiftPoint(p: Point, dx: real, dy: real): Point
  {
    Point(p.x + dx, p.y + dy)
  }

  /** Adds (dx, dy) to every coordinate: the translation used by drag, snap and paste. */
  function Translate(g: Geom, dx: real, dy: real): (r: Geom)
    ensures r.Points? <==> g.Points?
    ensures r.Points? ==> |r.pts| == |g.pts|
  {
    match g
    case Anchors(x0, y0, x1, y1) => Anchors(x0 + dx, y0 + dy, x1 + dx, y1 + dy)
    case Points(ps) => Points(seq(|ps|, i requires 0 <= i < |ps| => ShiftPoint(ps[i], dx, dy)))
  }

  /** Translations compose by adding their offsets. */
  lemma TranslateTwice(g: Geom, dx1: real, dy1: real, dx2: real, dy2: real)
    ensures Translate(Translate(g, dx1, dy1), dx2, dy2) == Translate(g, dx1 + dx2, dy1 + dy2)
  {
    match g
    case Anchors(_, _, _, _) =>
    case Points(ps) =>
      var a := Translate(Translate(g, dx1, dy1), dx2, dy2).pts;
      var b := Translate(g, dx1 + dx2, dy1 + dy2).pts;
      assert |a| == |b|;
      forall i | 0 <= i < |a| ensures a[i] == b[i] { }
  }
}
