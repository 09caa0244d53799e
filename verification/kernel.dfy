/**
  Geometry kernel of src/components/Canvas.js: `getBBox` (lines 29-100),
  the non-line branch of `hitTest` (lines 103-115) and the handle positions
  used by the select tool (lines 568-605).
 */
module Kernel {
  import opened Shapes

  /** A corner handle index: 0 = (xMin,yMin), 1 = (xMax,yMin), 2 = (xMax,yMax), 3 = (xMin,yMax). */
  type Handle = k: nat | k < 4

  /** Grid cell and grip constants of the editor. */
  const HandleRadius: real := 6.0
  const GripOffset: real := 20.0

  // ---------------------------------------------------------------------------
  // Minimum and maximum of a non-empty list (Math.min(...xs), Math.max(...xs))
  // ---------------------------------------------------------------------------

  function MinOf(xs: seq<real>): real
    requires |xs| > 0
  {
    if |xs| == 1 then xs[0] else Min(MinOf(xs[..|xs| - 1]), xs[|xs| - 1])
  }

  function MaxOf(xs: seq<real>): real
    requires |xs| > 0
  {
    if |xs| == 1 then xs[0] else Max(MaxOf(xs[..|xs| - 1]), xs[|xs| - 1])
  }

  /** The minimum is a lower bound of the list and is one of its elements. */
  lemma {:induction false} MinOfBounds(xs: seq<real>)
    requires |xs| > 0
    ensures forall i :: 0 <= i < |xs| ==> MinOf(xs) <= xs[i]
    ensures exists i :: 0 <= i < |xs| && MinOf(xs) == xs[i]
    decreases |xs|
  {
    if |xs| > 1 {
      var init := xs[..|xs| - 1];
      MinOfBounds(init);
      var m := MinOf(xs);
      assert m == Min(MinOf(init), xs[|xs| - 1]);
      forall i | 0 <= i < |xs| ensures m <= xs[i] {
        if i < |xs| - 1 {
          assert init[i] == xs[i];
        }
      }
      var j :| 0 <= j < |init| && MinOf(init) == init[j];
      assert init[j] == xs[j];
      assert m == xs[j] || m == xs[|xs| - 1];
    } else {
      assert MinOf(xs) == xs[0];
    }
  }

  /** The maximum is an upper bound of the list and is one of its elements. */
  lemma {:induction false} MaxOfBounds(xs: seq<real>)
    requires |xs| > 0
    ensures forall i :: 0 <= i < |xs| ==> xs[i] <= MaxOf(xs)
    ensures exists i :: 0 <= i < |xs| && MaxOf(xs) == xs[i]
    decreases |xs|
  {
    if |xs| > 1 {
      var init := xs[..|xs| - 1];
      MaxOfBounds(init);
      var m := MaxOf(xs);
      assert m == Max(MaxOf(init), xs[|xs| - 1]);
      forall i | 0 <= i < |xs| ensures xs[i] <= m {
        if i < |xs| - 1 {
          assert init[i] == xs[i];
        }
      }
      var j :| 0 <= j < |init| && MaxOf(init) == init[j];
      assert init[j] == xs[j];
      assert m == xs[j] || m == xs[|xs| - 1];
    } else {
      assert MaxOf(xs) == xs[0];
    }
  }

  /** A lower bound that is attained is the minimum. */
  lemma MinOfIsLeast(xs: seq<real>, m: real)
    requires |xs| > 0
    requires forall i :: 0 <= i < |xs| ==> m <= xs[i]
    requires exists i :: 0 <= i < |xs| && m == xs[i]
    ensures MinOf(xs) == m
  {
    MinOfBounds(xs);
  }

  /** An upper bound that is attained is the maximum. */
  lemma MaxOfIsGreatest(xs: seq<real>, m: real)
    requires |xs| > 0
    requires forall i :: 0 <= i < |xs| ==> xs[i] <= m
    requires exists i :: 0 <= i < |xs| && m == xs[i]
    ensures MaxOf(xs) == m
  {
    MaxOfBounds(xs);
  }

  function Xs(ps: seq<Point>): (xs: seq<real>)
    ensures |xs| == |ps|
    ensures forall i :: 0 <= i < |ps| ==> xs[i] == ps[i].x
  {
    seq(|ps|, i requires 0 <= i < |ps| => ps[i].x)
  }

  function Ys(ps: seq<Point>): (ys: seq<real>)
    ensures |ys| == |ps|
    ensures forall i :: 0 <= i < |ps| ==> ys[i] == ps[i].y
  {
    seq(|ps|, i requires 0 <= i < |ps| => ps[i].y)
  }

  // ---------------------------------------------------------------------------
  // Bounding boxes
  // ---------------------------------------------------------------------------

  /** The box of a point list: [min x, max x] x [min y, max y]; Void for no points. */
  function PointsBox(ps: seq<Point>): (b: Box)
    ensures b.Void? <==> |ps| == 0
  {
    if |ps| == 0 then Void
    else Rect(MinOf(Xs(ps)), MinOf(Ys(ps)), MaxOf(Xs(ps)), MaxOf(Ys(ps)))
  }

  /** The points box is well ordered, holds every point, and each of its sides is touched
      by some point. */
  lemma PointsBoxBounds(ps: seq<Point>)
    ensures var b := PointsBox(ps);
      && (b.Rect? ==> b.xMin <= b.xMax && b.yMin <= b.yMax)
      && (forall i :: 0 <= i < |ps| ==> Contains(b, ps[i]))
      && (b.Rect? ==> exists i :: 0 <= i < |ps| && ps[i].x == b.xMin)
      && (b.Rect? ==> exists i :: 0 <= i < |ps| && ps[i].x == b.xMax)
      && (b.Rect? ==> exists i :: 0 <= i < |ps| && ps[i].y == b.yMin)
      && (b.Rect? ==> exists i :: 0 <= i < |ps| && ps[i].y == b.yMax)
  {
    if |ps| > 0 {
      var xs, ys := Xs(ps), Ys(ps);
      var b := PointsBox(ps);
      MinOfBounds(xs);
      MaxOfBounds(xs);
      MinOfBounds(ys);
      MaxOfBounds(ys);
      assert b.xMin == MinOf(xs) && b.xMax == MaxOf(xs);
      assert b.yMin == MinOf(ys) && b.yMax == MaxOf(ys);
    }
  }

  /** The least box holding every point and touched by a point on each side is the points box. */
  lemma PointsBoxUnique(ps: seq<Point>, b: Box)
    requires b.Rect? && |ps| > 0
    requires forall i :: 0 <= i < |ps| ==> Contains(b, ps[i])
    requires exists i :: 0 <= i < |ps| && ps[i].x == b.xMin
    requires exists i :: 0 <= i < |ps| && ps[i].x == b.xMax
    requires exists i :: 0 <= i < |ps| && ps[i].y == b.yMin
    requires exists i :: 0 <= i < |ps| && ps[i].y == b.yMax
    ensures PointsBox(ps) == b
  {
    var xs, ys := Xs(ps), Ys(ps);
    var i0 :| 0 <= i0 < |ps| && ps[i0].x == b.xMin;
    var i1 :| 0 <= i1 < |ps| && ps[i1].x == b.xMax;
    var j0 :| 0 <= j0 < |ps| && ps[j0].y == b.yMin;
    var j1 :| 0 <= j1 < |ps| && ps[j1].y == b.yMax;
    MinOfIsLeast(xs, b.xMin);
    MaxOfIsGreatest(xs, b.xMax);
    assert xs[i0] == b.xMin && xs[i1] == b.xMax;
    assert ys[j0] == b.yMin && ys[j1] == b.yMax;
    MinOfIsLeast(ys, b.yMin);
    MaxOfIsGreatest(ys, b.yMax);
  }

  /** One vertex coordinate: centre + radius * direction. */
  function Along(c: real, r: real, d: real): real
  {
    c + r * d
  }

  /** The five vertices of the pentagon of radius r centred at (cx, cy). */
  function PentagonVertices(cx: real, cy: real, r: real, pg: Pentagon): (vs: seq<Point>)
    ensures |vs| == 5
  {
    [ Point(Along(cx, r, pg.d0.x), Along(cy, r, pg.d0.y)),
      Point(Along(cx, r, pg.d1.x), Along(cy, r, pg.d1.y)),
      Point(Along(cx, r, pg.d2.x), Along(cy, r, pg.d2.y)),
      Point(Along(cx, r, pg.d3.x), Along(cy, r, pg.d3.y)),
      Point(Along(cx, r, pg.d4.x), Along(cy, r, pg.d4.y)) ]
  }

  /** The far corner of a constrained square: side min(|dx|,|dy|), signed like the drag. */
  function SquareCorner(x0: real, y0: real, x1: real, y1: real): Point
  {
    var dx := x1 - x0;
    var dy := y1 - y0;
    var side := Min(Abs(dx), Abs(dy));
    var w := if dx < 0.0 then -side else side;
    var h := if dy < 0.0 then -side else side;
    Point(x0 + w, y0 + h)
  }

  /** The box of two corners. */
  function SpanBox(ax: real, ay: real, bx: real, bY: real): Box
  {
    Rect(Min(ax, bx), Min(ay, bY), Max(ax, bx), Max(ay, bY))
  }

  /** True when `getBBox` takes its last (two-anchor) branch for a shape with anchors. */
  predicate UsesAnchorSpan(s: Shape)
  {
    s.tool != Circle && s.tool != Polygon && !(s.tool == Square && s.isSquare)
  }

  /** The host-measured radius of a circle or pentagon: Math.hypot(x1 - x0, y1 - y0). */
  function Radius(g: Geom, h: Host): real
    requires g.Anchors?
  {
    h.hypot(g.x1 - g.x0, g.y1 - g.y0)
  }

  /** The box of the ellipse (or, with isCircle, circle) centred at (x0, y0). */
  function EllipseBox(g: Geom, isCircle: bool, h: Host): (b: Box)
    requires g.Anchors?
    ensures b.Rect?
  {
    if isCircle then
      var r := Radius(g, h);
      Rect(g.x0 - r, g.y0 - r, g.x0 + r, g.y0 + r)
    else
      var rx := Abs(g.x1 - g.x0);
      var ry := Abs(g.y1 - g.y0);
      Rect(g.x0 - rx, g.y0 - ry, g.x0 + rx, g.y0 + ry)
  }

  /** The box of the pentagon centred at (x0, y0) through its five vertices. */
  function PentagonBox(g: Geom, h: Host): (b: Box)
    requires g.Anchors?
    ensures b.Rect?
  {
    PointsBox(PentagonVertices(g.x0, g.y0, Radius(g, h), h.pentagon))
  }

  /** getBBox, src/components/Canvas.js:29-100. A point list is looked at first,
      whatever the tool; rotation is ignored. */
  function BBox(s: Shape, h: Host): (b: Box)
    ensures b.Void? <==> s.geom == Points([])
  {
    match s.geom
    case Points(ps) => PointsBox(ps)
    case Anchors(x0, y0, x1, y1) =>
      if s.tool == Circle then EllipseBox(s.geom, s.isCircle, h)
      else if s.tool == Polygon then PentagonBox(s.geom, h)
      else if s.tool == Square && s.isSquare then
        var c := SquareCorner(x0, y0, x1, y1);
        SpanBox(x0, y0, c.x, c.y)
      else
        SpanBox(x0, y0, x1, y1)
  }

  /** The stroke width a shape is hit-tested with: `shape.strokeWidth || defaultStroke`. */
  function StrokeOr(w: real, defaultStroke: real): real
  {
    if w == 0.0 then defaultStroke else w
  }

  /** hitTest, src/components/Canvas.js:103-115: a line asks the host whether the point is
      on its widened stroke; every other shape uses the inclusive box test. */
  function HitTest(s: Shape, p: Point, defaultStroke: real, h: Host): (r: bool)
    ensures s.tool != Line && r ==> s.geom != Points([]) && WellOrdered(BBox(s, h)) && Contains(BBox(s, h), p)
    ensures s.tool != Line && s.geom == Points([]) ==> !r
  {
    if s.tool == Line then h.inStroke(s, StrokeOr(s.strokeWidth, defaultStroke) + 15.0, p)
    else Contains(BBox(s, h), p)
  }

  // ---------------------------------------------------------------------------
  // Handles (src/components/Canvas.js:568-605)
  // ---------------------------------------------------------------------------

  function Corner(b: Box, k: Handle): (c: Point)
    requires b.Rect?
  {
    match k
    case 0 => Point(b.xMin, b.yMin)
    case 1 => Point(b.xMax, b.yMin)
    case 2 => Point(b.xMax, b.yMax)
    case 3 => Point(b.xMin, b.yMax)
  }

  function Opposite(k: Handle): (o: Handle)
    ensures o != k && (o + 2) % 4 == k
  {
    (k + 2) % 4
  }

  /** The rotation grip: 20 units above the top edge, horizontally centred. */
  function Grip(b: Box): Point
    requires b.Rect?
  {
    Point((b.xMin + b.xMax) / 2.0, b.yMin - GripOffset)
  }

  /** The pivot of a rotation: the box centre. */
  function Centre(b: Box): Point
    requires b.Rect?
  {
    Point((b.xMin + b.xMax) / 2.0, (b.yMin + b.yMax) / 2.0)
  }

  /** `Math.hypot(p.x - q.x, p.y - q.y) < 6`, stated without a square root. */
  predicate Near(p: Point, q: Point)
  {
    (p.x - q.x) * (p.x - q.x) + (p.y - q.y) * (p.y - q.y) < HandleRadius * HandleRadius
  }

  // ---------------------------------------------------------------------------
  // Properties of the kernel
  // ---------------------------------------------------------------------------

  /** Every box but that of an empty point list is well ordered, given that the host's
      hypot is not negative for a circle's radius, as Math.hypot never is. */
  lemma BBoxWellOrdered(s: Shape, h: Host)
    requires s.geom.Points? ==> |s.geom.pts| > 0
    requires s.geom.Anchors? && s.tool == Circle && s.isCircle ==> Radius(s.geom, h) >= 0.0
    ensures WellOrdered(BBox(s, h))
  {
    if s.geom.Anchors? && s.tool == Polygon {
      var g := s.geom;
      PointsBoxBounds(PentagonVertices(g.x0, g.y0, Radius(g, h), h.pentagon));
    }
  }

  /** For a shape that is not a line, a hit is exactly a point inside the box, edges included. */
  lemma HitTestIsBoxTest(s: Shape, p: Point, defaultStroke: real, h: Host)
    requires s.tool != Line
    ensures HitTest(s, p, defaultStroke, h) <==>
      var b := BBox(s, h); b.Rect? && b.xMin <= p.x <= b.xMax && b.yMin <= p.y <= b.yMax
  {
  }

  /** A poly-line or curve is hit at p exactly when some vertex is at or left of p, some at or
      right of it, some at or above and some at or below it. */
  lemma HitTestPoints(s: Shape, p: Point, defaultStroke: real, h: Host)
    requires s.tool != Line && s.geom.Points?
    ensures HitTest(s, p, defaultStroke, h) <==>
      var ps := s.geom.pts;
      (exists i :: 0 <= i < |ps| && ps[i].x <= p.x) &&
      (exists i :: 0 <= i < |ps| && p.x <= ps[i].x) &&
      (exists i :: 0 <= i < |ps| && ps[i].y <= p.y) &&
      (exists i :: 0 <= i < |ps| && p.y <= ps[i].y)
  {
    var ps := s.geom.pts;
    var b := PointsBox(ps);
    PointsBoxBounds(ps);
    if (exists i :: 0 <= i < |ps| && ps[i].x <= p.x) &&
       (exists i :: 0 <= i < |ps| && p.x <= ps[i].x) &&
       (exists i :: 0 <= i < |ps| && ps[i].y <= p.y) &&
       (exists i :: 0 <= i < |ps| && p.y <= ps[i].y)
    {
      var a :| 0 <= a < |ps| && ps[a].x <= p.x;
      var c :| 0 <= c < |ps| && p.x <= ps[c].x;
      var d :| 0 <= d < |ps| && ps[d].y <= p.y;
      var e :| 0 <= e < |ps| && p.y <= ps[e].y;
      assert Contains(b, ps[a]) && Contains(b, ps[c]) && Contains(b, ps[d]) && Contains(b, ps[e]);
      assert Contains(b, p);
    }
  }

  /** Every vertex of a poly-line or curve hit-tests true. */
  lemma VerticesHit(s: Shape, i: nat, defaultStroke: real, h: Host)
    requires s.tool != Line && s.geom.Points? && i < |s.geom.pts|
    ensures HitTest(s, s.geom.pts[i], defaultStroke, h)
  {
    PointsBoxBounds(s.geom.pts);
  }

  /** A rectangle, triangle or other two-anchor shape is hit exactly between its anchors, in
      whichever order they were drawn. */
  lemma HitTestAnchors(s: Shape, p: Point, defaultStroke: real, h: Host)
    requires s.tool != Line && s.geom.Anchors? && UsesAnchorSpan(s)
    ensures HitTest(s, p, defaultStroke, h) <==>
      var g := s.geom;
      (g.x0 <= p.x <= g.x1 || g.x1 <= p.x <= g.x0) && (g.y0 <= p.y <= g.y1 || g.y1 <= p.y <= g.y0)
  {
  }

  /** An ellipse is hit exactly within its per-axis radii of the centre (x0, y0). */
  lemma HitTestEllipse(s: Shape, p: Point, defaultStroke: real, h: Host)
    requires s.tool == Circle && !s.isCircle && s.geom.Anchors?
    ensures HitTest(s, p, defaultStroke, h) <==>
      var g := s.geom;
      Abs(p.x - g.x0) <= Abs(g.x1 - g.x0) && Abs(p.y - g.y0) <= Abs(g.y1 - g.y0)
  {
  }

  /** A constrained square's box has equal sides min(|dx|,|dy|), has (x0, y0) as a corner and
      extends from it in the direction of the original drag. */
  lemma SquareBoxShape(s: Shape, h: Host)
    requires s.tool == Square && s.isSquare && s.geom.Anchors?
    ensures var g, b := s.geom, BBox(s, h);
      var side := Min(Abs(g.x1 - g.x0), Abs(g.y1 - g.y0));
      && b.Rect?
      && b.xMax - b.xMin == side && b.yMax - b.yMin == side
      && (if g.x1 - g.x0 < 0.0 then b.xMax == g.x0 else b.xMin == g.x0)
      && (if g.y1 - g.y0 < 0.0 then b.yMax == g.y0 else b.yMin == g.y0)
  {
  }

  /** An ellipse or circle box is centred at (x0, y0); an ellipse's half-extents are |dx| and |dy|,
      a circle's are the host's hypot of (dx, dy). */
  lemma EllipseBoxShape(s: Shape, h: Host)
    requires s.tool == Circle && s.geom.Anchors?
    ensures var g, b := s.geom, BBox(s, h);
      var rx := if s.isCircle then Radius(g, h) else Abs(g.x1 - g.x0);
      var ry := if s.isCircle then Radius(g, h) else Abs(g.y1 - g.y0);
      && b.Rect?
      && (b.xMin + b.xMax) / 2.0 == g.x0 && (b.yMin + b.yMax) / 2.0 == g.y0
      && b.xMax - g.x0 == rx && b.yMax - g.y0 == ry
  {
  }

  /** The two-anchor box does not depend on which anchor came first. */
  lemma AnchorSpanSymmetric(s: Shape, h: Host)
    requires s.geom.Anchors? && UsesAnchorSpan(s)
    ensures var g := s.geom;
      BBox(s, h) == BBox(s.(geom := Anchors(g.x1, g.y1, g.x0, g.y0)), h)
      && BBox(s, h) == SpanBox(g.x0, g.y0, g.x1, g.y1)
      && Contains(BBox(s, h), Point(g.x0, g.y0)) && Contains(BBox(s, h), Point(g.x1, g.y1))
  {
  }

  /** Translating a point list translates its box. */
  lemma PointsBoxTranslate(ps: seq<Point>, dx: real, dy: real)
    ensures PointsBox(Translate(Points(ps), dx, dy).pts) == ShiftBox(PointsBox(ps), dx, dy)
  {
    var qs := Translate(Points(ps), dx, dy).pts;
    if |ps| > 0 {
      var b := ShiftBox(PointsBox(ps), dx, dy);
      var b0 := PointsBox(ps);
      PointsBoxBounds(ps);
      assert forall i :: 0 <= i < |qs| ==> Contains(b, qs[i]) by {
        forall i | 0 <= i < |qs| ensures Contains(b, qs[i]) {
          assert Contains(b0, ps[i]);
        }
      }
      var i0 :| 0 <= i0 < |ps| && ps[i0].x == b0.xMin;
      var i1 :| 0 <= i1 < |ps| && ps[i1].x == b0.xMax;
      var j0 :| 0 <= j0 < |ps| && ps[j0].y == b0.yMin;
      var j1 :| 0 <= j1 < |ps| && ps[j1].y == b0.yMax;
      assert qs[i0].x == b.xMin && qs[i1].x == b.xMax && qs[j0].y == b.yMin && qs[j1].y == b.yMax;
      PointsBoxUnique(qs, b);
    }
  }

  lemma PentagonTranslate(x0: real, y0: real, r: real, pg: Pentagon, dx: real, dy: real)
    ensures PentagonVertices(x0 + dx, y0 + dy, r, pg) == Translate(Points(PentagonVertices(x0, y0, r, pg)), dx, dy).pts
  {
  }

  lemma SquareCornerTranslate(x0: real, y0: real, x1: real, y1: real, dx: real, dy: real)
    ensures SquareCorner(x0 + dx, y0 + dy, x1 + dx, y1 + dy) == ShiftPoint(SquareCorner(x0, y0, x1, y1), dx, dy)
  {
    assert (x1 + dx) - (x0 + dx) == x1 - x0;
    assert (y1 + dy) - (y0 + dy) == y1 - y0;
  }

  /** The box is translation-equivariant: moving every coordinate by (dx, dy) moves the box by
      (dx, dy). This holds for every kind, the host-measured circle and pentagon included. */
  lemma BBoxTranslate(s: Shape, dx: real, dy: real, h: Host)
    ensures BBox(s.(geom := Translate(s.geom, dx, dy)), h) == ShiftBox(BBox(s, h), dx, dy)
  {
    if s.geom.Points? {
      PointsBoxTranslate(s.geom.pts, dx, dy);
    } else if s.tool == Circle {
      CircleTranslate(s, dx, dy, h);
    } else if s.tool == Polygon {
      PolygonTranslate(s, dx, dy, h);
    } else {
      SpanTranslate(s, dx, dy, h);
    }
  }

  lemma CircleTranslate(s: Shape, dx: real, dy: real, h: Host)
    requires s.tool == Circle && s.geom.Anchors?
    ensures BBox(s.(geom := Translate(s.geom, dx, dy)), h) == ShiftBox(BBox(s, h), dx, dy)
  {
    var g := s.geom;
    var tg := Translate(g, dx, dy);
    assert tg.x1 - tg.x0 == g.x1 - g.x0;
    assert tg.y1 - tg.y0 == g.y1 - g.y0;
    assert Radius(tg, h) == Radius(g, h);
  }

  lemma PolygonTranslate(s: Shape, dx: real, dy: real, h: Host)
    requires s.tool == Polygon && s.geom.Anchors?
    ensures BBox(s.(geom := Translate(s.geom, dx, dy)), h) == ShiftBox(BBox(s, h), dx, dy)
  {
    var g := s.geom;
    var tg := Translate(g, dx, dy);
    assert tg.x1 - tg.x0 == g.x1 - g.x0;
    assert tg.y1 - tg.y0 == g.y1 - g.y0;
    var r := Radius(g, h);
    assert Radius(tg, h) == r;
    PentagonTranslate(g.x0, g.y0, r, h.pentagon, dx, dy);
    PointsBoxTranslate(PentagonVertices(g.x0, g.y0, r, h.pentagon), dx, dy);
  }

  lemma SpanTranslate(s: Shape, dx: real, dy: real, h: Host)
    requires s.tool != Circle && s.tool != Polygon && s.geom.Anchors?
    ensures BBox(s.(geom := Translate(s.geom, dx, dy)), h) == ShiftBox(BBox(s, h), dx, dy)
  {
    var g := s.geom;
    SquareCornerTranslate(g.x0, g.y0, g.x1, g.y1, dx, dy);
  }

  /** The box ignores rotation, colours, stroke width and the selection flag. */
  lemma BBoxIgnoresStyle(s: Shape, t: Shape, h: Host)
    requires s.tool == t.tool && s.geom == t.geom && s.isSquare == t.isSquare && s.isCircle == t.isCircle
    ensures BBox(s, h) == BBox(t, h)
  {
  }
}
