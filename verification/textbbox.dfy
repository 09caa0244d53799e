/**
  text.js, a stand-alone copy of `getBBox` (text.js:2-67). It is modelled
  here with JavaScript's own reading of `Math.min(...xs)` and
  `Math.max(...xs)`: a fold that starts from +Infinity (resp. -Infinity), so
  an empty list gives an infinite bound. `AgreesWithCanvas` proves that this
  copy returns the same box as the kernel's `BBox` for every shape.
 */
module TextBBox {
  import opened Shapes
  import Kernel

  /** A real extended with the two infinities. */
  datatype Ext = NegInf | Fin(v: real) | PosInf

  function ExtMin(a: Ext, b: Ext): Ext
  {
    match (a, b)
    case (NegInf, _) => NegInf
    case (_, NegInf) => NegInf
    case (PosInf, _) => b
    case (_, PosInf) => a
    case (Fin(x), Fin(y)) => Fin(Min(x, y))
  }

  function ExtMax(a: Ext, b: Ext): Ext
  {
    match (a, b)
    case (PosInf, _) => PosInf
    case (_, PosInf) => PosInf
    case (NegInf, _) => b
    case (_, NegInf) => a
    case (Fin(x), Fin(y)) => Fin(Max(x, y))
  }

  datatype ExtBox = ExtBox(xMin: Ext, yMin: Ext, xMax: Ext, yMax: Ext)

  function MinFrom(acc: Ext, xs: seq<real>): Ext
    decreases |xs|
  {
    if xs == [] then acc else MinFrom(ExtMin(acc, Fin(xs[0])), xs[1..])
  }

  function MaxFrom(acc: Ext, xs: seq<real>): Ext
    decreases |xs|
  {
    if xs == [] then acc else MaxFrom(ExtMax(acc, Fin(xs[0])), xs[1..])
  }

  /** Math.min(...xs) */
  function MathMin(xs: seq<real>): Ext
  {
    MinFrom(PosInf, xs)
  }

  /** Math.max(...xs) */
  function MathMax(xs: seq<real>): Ext
  {
    MaxFrom(NegInf, xs)
  }

  /** getBBox of text.js:2-67, branch for branch. Only an empty point list gives an
      infinite bound, and then all four are: {+inf, +inf, -inf, -inf}. */
  function GetBBox(s: Shape, h: Host): (b: ExtBox)
    ensures s.geom == Points([]) ==> b == ExtBox(PosInf, PosInf, NegInf, NegInf)
    ensures s.geom != Points([]) ==> b.xMin.Fin? && b.yMin.Fin? && b.xMax.Fin? && b.yMax.Fin?
  {
    match s.geom
    case Points(ps) =>
      var xs := seq(|ps|, i requires 0 <= i < |ps| => ps[i].x);
      var ys := seq(|ps|, i requires 0 <= i < |ps| => ps[i].y);
      MathFin(xs); MathFin(ys);
      ExtBox(MathMin(xs), MathMin(ys), MathMax(xs), MathMax(ys))
    case Anchors(x0, y0, x1, y1) =>
      if s.tool == Circle then
        var cx, cy := x0, y0;
        if s.isCircle then
          var r := h.hypot(x1 - x0, y1 - y0);
          ExtBox(Fin(cx - r), Fin(cy - r), Fin(cx + r), Fin(cy + r))
        else
          var rx := Abs(x1 - x0);
          var ry := Abs(y1 - y0);
          ExtBox(Fin(cx - rx), Fin(cy - ry), Fin(cx + rx), Fin(cy + ry))
      else if s.tool == Polygon then
        var radius := h.hypot(x1 - x0, y1 - y0);
        var pg := h.pentagon;
        var xs := [Kernel.Along(x0, radius, pg.d0.x), Kernel.Along(x0, radius, pg.d1.x), Kernel.Along(x0, radius, pg.d2.x),
                   Kernel.Along(x0, radius, pg.d3.x), Kernel.Along(x0, radius, pg.d4.x)];
        var ys := [Kernel.Along(y0, radius, pg.d0.y), Kernel.Along(y0, radius, pg.d1.y), Kernel.Along(y0, radius, pg.d2.y),
                   Kernel.Along(y0, radius, pg.d3.y), Kernel.Along(y0, radius, pg.d4.y)];
        MathFin(xs); MathFin(ys);
        ExtBox(MathMin(xs), MathMin(ys), MathMax(xs), MathMax(ys))
      else if s.tool == Square && s.isSquare then
        var dx := x1 - x0;
        var dy := y1 - y0;
        var side := Min(Abs(dx), Abs(dy));
        var w := if dx < 0.0 then -side else side;
        var hh := if dy < 0.0 then -side else side;
        var xA, yA := x0, y0;
        var xB, yB := x0 + w, y0 + hh;
        MathFin([xA, xB]); MathFin([yA, yB]);
        ExtBox(MathMin([xA, xB]), MathMin([yA, yB]), MathMax([xA, xB]), MathMax([yA, yB]))
      else
        MathFin([x0, x1]); MathFin([y0, y1]);
        ExtBox(MathMin([x0, x1]), MathMin([y0, y1]), MathMax([x0, x1]), MathMax([y0, y1]))
  }

  /** The kernel's box read as JavaScript numbers: `Void` is {+inf, +inf, -inf, -inf}. */
  function Embed(b: Box): ExtBox
  {
    match b
    case Void => ExtBox(PosInf, PosInf, NegInf, NegInf)
    case Rect(a, c, d, e) => ExtBox(Fin(a), Fin(c), Fin(d), Fin(e))
  }

  /** Splitting the minimum of a list of two or more at its head. */
  lemma MinOfCons(xs: seq<real>)
    requires |xs| >= 2
    ensures Kernel.MinOf(xs) == Min(xs[0], Kernel.MinOf(xs[1..]))
  {
    var t := xs[1..];
    var m := Min(xs[0], Kernel.MinOf(t));
    assert forall i :: 1 <= i < |xs| ==> xs[i] == t[i - 1];
    Kernel.MinOfBounds(t);
    var j :| 0 <= j < |t| && Kernel.MinOf(t) == t[j];
    assert m == xs[0] || m == xs[j + 1];
    Kernel.MinOfIsLeast(xs, m);
  }

  lemma MaxOfCons(xs: seq<real>)
    requires |xs| >= 2
    ensures Kernel.MaxOf(xs) == Max(xs[0], Kernel.MaxOf(xs[1..]))
  {
    var t := xs[1..];
    var m := Max(xs[0], Kernel.MaxOf(t));
    assert forall i :: 1 <= i < |xs| ==> xs[i] == t[i - 1];
    Kernel.MaxOfBounds(t);
    var j :| 0 <= j < |t| && Kernel.MaxOf(t) == t[j];
    assert m == xs[0] || m == xs[j + 1];
    Kernel.MaxOfIsGreatest(xs, m);
  }

  /** A fold of Math.min over a non-empty list is the list's minimum, met with the accumulator. */
  lemma {:induction false} MinFromIsMinOf(acc: Ext, xs: seq<real>)
    requires |xs| > 0
    ensures MinFrom(acc, xs) == ExtMin(acc, Fin(Kernel.MinOf(xs)))
    decreases |xs|
  {
    if |xs| == 1 {
      assert xs[1..] == [];
    } else {
      MinFromIsMinOf(ExtMin(acc, Fin(xs[0])), xs[1..]);
      MinOfCons(xs);
    }
  }

  lemma {:induction false} MaxFromIsMaxOf(acc: Ext, xs: seq<real>)
    requires |xs| > 0
    ensures MaxFrom(acc, xs) == ExtMax(acc, Fin(Kernel.MaxOf(xs)))
    decreases |xs|
  {
    if |xs| == 1 {
      assert xs[1..] == [];
    } else {
      MaxFromIsMaxOf(ExtMax(acc, Fin(xs[0])), xs[1..]);
      MaxOfCons(xs);
    }
  }

  /** Math.min/Math.max over the x and y lists of a point list give the kernel's points box. */
  lemma MathBoxIsPointsBox(ps: seq<Point>)
    ensures ExtBox(MathMin(Kernel.Xs(ps)), MathMin(Kernel.Ys(ps)), MathMax(Kernel.Xs(ps)), MathMax(Kernel.Ys(ps)))
         == Embed(Kernel.PointsBox(ps))
  {
    if |ps| > 0 {
      MinFromIsMinOf(PosInf, Kernel.Xs(ps));
      MinFromIsMinOf(PosInf, Kernel.Ys(ps));
      MaxFromIsMaxOf(NegInf, Kernel.Xs(ps));
      MaxFromIsMaxOf(NegInf, Kernel.Ys(ps));
    }
  }

  /** Math.min and Math.max of an empty list are +Infinity and -Infinity, and of any other
      list a finite number. */
  lemma MathFin(xs: seq<real>)
    ensures xs == [] ==> MathMin(xs) == PosInf && MathMax(xs) == NegInf
    ensures xs != [] ==> MathMin(xs).Fin? && MathMax(xs).Fin?
  {
    if xs != [] {
      MinFromIsMinOf(PosInf, xs);
      MaxFromIsMaxOf(NegInf, xs);
    }
  }

  /** Math.min(a, b) and Math.max(a, b) are the two-argument minimum and maximum. */
  lemma MathPair(a: real, b: real)
    ensures MathMin([a, b]) == Fin(Min(a, b)) && MathMax([a, b]) == Fin(Max(a, b))
  {
    assert [a, b][1..] == [b];
    assert [b][1..] == [];
    assert MathMin([a, b]) == MinFrom(Fin(a), [b]) == MinFrom(Fin(Min(a, b)), []);
    assert MathMax([a, b]) == MaxFrom(Fin(a), [b]) == MaxFrom(Fin(Max(a, b)), []);
  }

  lemma PentagonAgrees(s: Shape, h: Host)
    requires s.geom.Anchors? && s.tool == Polygon
    ensures GetBBox(s, h) == Embed(Kernel.BBox(s, h))
  {
    var g := s.geom;
    var radius := Kernel.Radius(g, h);
    var pg := h.pentagon;
    var vs := Kernel.PentagonVertices(g.x0, g.y0, radius, pg);
    var xs := [Kernel.Along(g.x0, radius, pg.d0.x), Kernel.Along(g.x0, radius, pg.d1.x), Kernel.Along(g.x0, radius, pg.d2.x),
               Kernel.Along(g.x0, radius, pg.d3.x), Kernel.Along(g.x0, radius, pg.d4.x)];
    var ys := [Kernel.Along(g.y0, radius, pg.d0.y), Kernel.Along(g.y0, radius, pg.d1.y), Kernel.Along(g.y0, radius, pg.d2.y),
               Kernel.Along(g.y0, radius, pg.d3.y), Kernel.Along(g.y0, radius, pg.d4.y)];
    assert xs == Kernel.Xs(vs);
    assert ys == Kernel.Ys(vs);
    assert GetBBox(s, h) == ExtBox(MathMin(xs), MathMin(ys), MathMax(xs), MathMax(ys));
    MathBoxIsPointsBox(vs);
  }

  lemma SquareAgrees(s: Shape, h: Host)
    requires s.geom.Anchors? && s.tool == Square && s.isSquare
    ensures GetBBox(s, h) == Embed(Kernel.BBox(s, h))
  {
    var g := s.geom;
    var c := Kernel.SquareCorner(g.x0, g.y0, g.x1, g.y1);
    MathPair(g.x0, c.x);
    MathPair(g.y0, c.y);
  }

  lemma SpanAgrees(s: Shape, h: Host)
    requires s.geom.Anchors? && Kernel.UsesAnchorSpan(s)
    ensures GetBBox(s, h) == Embed(Kernel.BBox(s, h))
  {
    var g := s.geom;
    MathPair(g.x0, g.x1);
    MathPair(g.y0, g.y1);
  }

  lemma PointsAgree(s: Shape, h: Host)
    requires s.geom.Points?
    ensures GetBBox(s, h) == Embed(Kernel.BBox(s, h))
  {
    var ps := s.geom.pts;
    assert seq(|ps|, i requires 0 <= i < |ps| => ps[i].x) == Kernel.Xs(ps);
    assert seq(|ps|, i requires 0 <= i < |ps| => ps[i].y) == Kernel.Ys(ps);
    MathBoxIsPointsBox(ps);
  }

  /** text.js's getBBox returns the same box as the editor's getBBox, for every shape. */
  lemma AgreesWithCanvas(s: Shape, h: Host)
    ensures GetBBox(s, h) == Embed(Kernel.BBox(s, h))
  {
    if s.geom.Points? {
      PointsAgree(s, h);
    } else if s.tool == Circle {
    } else if s.tool == Polygon {
      PentagonAgrees(s, h);
    } else if s.tool == Square && s.isSquare {
      SquareAgrees(s, h);
    } else {
      SpanAgrees(s, h);
    }
  }
}
