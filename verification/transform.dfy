/**
  The transforms applied while a select-tool gesture is in flight
  (src/components/Canvas.js:645-753). Each one recomputes the target from
  the snapshot taken when the gesture started, never from the target's
  current geometry, so earlier pointer moves of the same gesture leave no
  trace.
 */
module Transform {
  import opened Shapes
  import opened Kernel
  import opened Arith

  /** Side of a grid cell (src/components/Canvas.js:321). */
  const GridSize: real := 100.0

  // ---------------------------------------------------------------------------
  // Grid snap (src/components/Canvas.js:322-325)
  // ---------------------------------------------------------------------------

  /** Math.round: the nearest integer, a half rounded up. */
  function Round(v: real): (n: int)
    ensures v - 0.5 < n as real <= v + 0.5
  {
    (v + 0.5).Floor
  }

  /** A whole number of grid cells. */
  predicate OnGrid(v: real)
  {
    (v / GridSize).Floor as real * GridSize == v
  }

  /** snap() on one coordinate: the nearest multiple of the grid size. */
  function SnapCoord(v: real): (r: real)
    ensures OnGrid(r)
    ensures v - GridSize / 2.0 < r <= v + GridSize / 2.0
  {
    var n := Round(v / GridSize);
    var r := n as real * GridSize;
    assert r / GridSize == n as real;
    r
  }

  /** Only the geometry of a shape differs. */
  predicate SameButGeom(a: Shape, b: Shape)
  {
    a == b.(geom := a.geom)
  }

  /** The fields getBBox reads besides the geometry agree. */
  predicate SameKind(a: Shape, b: Shape)
  {
    a.tool == b.tool && a.isSquare == b.isSquare && a.isCircle == b.isCircle
  }

  // ---------------------------------------------------------------------------
  // Drag (src/components/Canvas.js:715-753)
  // ---------------------------------------------------------------------------

  /** The offset that moves a box's min corner onto the grid. An empty point list
      has no corner and nothing to move. */
  function SnapOffset(b: Box): Point
  {
    match b
    case Void => Point(0.0, 0.0)
    case Rect(x0, y0, _, _) => Point(SnapCoord(x0) - x0, SnapCoord(y0) - y0)
  }

  /** The snapshot `orig` translated by the pointer's travel since `start`; only the target's
      geometry is written. */
  function DragMove(target: Shape, orig: Shape, start: Point, pos: Point): (r: Shape)
    ensures SameButGeom(r, target)
  {
    target.(geom := Translate(orig.geom, pos.x - start.x, pos.y - start.y))
  }

  /** Moves a shape so that its box's min corner lands on the grid. */
  function SnapStep(m: Shape, h: Host): (r: Shape)
    ensures SameButGeom(r, m)
  {
    var off := SnapOffset(BBox(m, h));
    m.(geom := Translate(m.geom, off.x, off.y))
  }

  /** The drag step: the translated snapshot, snapped when the grid is shown and shift held. */
  function Drag(target: Shape, orig: Shape, start: Point, pos: Point, snap: bool, h: Host): (r: Shape)
    ensures SameButGeom(r, target)
  {
    var moved := DragMove(target, orig, start, pos);
    if snap then SnapStep(moved, h) else moved
  }

  /** Without snap, every coordinate is the snapshot's plus the pointer's travel, and the
      box moves by exactly that travel. */
  lemma DragTranslates(target: Shape, orig: Shape, start: Point, pos: Point, h: Host)
    requires SameKind(target, orig)
    ensures var r := Drag(target, orig, start, pos, false, h);
      var dx, dy := pos.x - start.x, pos.y - start.y;
      && r.geom == Translate(orig.geom, dx, dy)
      && BBox(r, h) == ShiftBox(BBox(orig, h), dx, dy)
  {
    DragMoveBox(target, orig, start, pos, h);
  }

  /** b is b0 moved by about (dx, dy): its min corner is on the grid, no more than half a
      cell from b0's min corner moved by (dx, dy), and its width and height are b0's. */
  predicate SnappedFrom(b0: Box, b: Box, dx: real, dy: real)
  {
    && b0.Rect? && b.Rect? && OnGrid(b.xMin) && OnGrid(b.yMin)
    && b.xMax - b.xMin == b0.xMax - b0.xMin && b.yMax - b.yMin == b0.yMax - b0.yMin
    && b0.xMin + dx - GridSize / 2.0 < b.xMin <= b0.xMin + dx + GridSize / 2.0
    && b0.yMin + dy - GridSize / 2.0 < b.yMin <= b0.yMin + dy + GridSize / 2.0
  }

  /** With snap, the box's min corner lands on a grid multiple no more than half a cell from
      where the unsnapped drag put it, and the box keeps its size; the geometry is still the
      snapshot's, every coordinate moved by the pointer's travel plus one common offset. */
  lemma DragSnapsToGrid(target: Shape, orig: Shape, start: Point, pos: Point, h: Host) returns (off: Point)
    requires SameKind(target, orig)
    requires orig.geom != Points([])
    ensures var r := Drag(target, orig, start, pos, true, h);
      var dx, dy := pos.x - start.x, pos.y - start.y;
      && SnappedFrom(BBox(orig, h), BBox(r, h), dx, dy)
      && r.geom == Translate(orig.geom, dx + off.x, dy + off.y)
  {
    off := SnapMoveTranslates(target, orig, start, pos, h);
    SnapMoveSnaps(target, orig, start, pos, h);
  }

  /** The snapped drag is the snapshot translated as a whole. */
  lemma SnapMoveTranslates(target: Shape, orig: Shape, start: Point, pos: Point, h: Host) returns (off: Point)
    requires orig.geom != Points([])
    ensures SnapStep(DragMove(target, orig, start, pos), h).geom
         == Translate(orig.geom, pos.x - start.x + off.x, pos.y - start.y + off.y)
  {
    var m := DragMove(target, orig, start, pos);
    assert m.geom != Points([]);
    off := SnapStepSnaps(m, h);
    TranslateTwice(orig.geom, pos.x - start.x, pos.y - start.y, off.x, off.y);
  }

  /** The snapped drag's box is snapped from the snapshot's box moved by the travel. */
  lemma SnapMoveSnaps(target: Shape, orig: Shape, start: Point, pos: Point, h: Host)
    requires SameKind(target, orig)
    requires orig.geom != Points([])
    ensures SnappedFrom(BBox(orig, h), BBox(SnapStep(DragMove(target, orig, start, pos), h), h),
                        pos.x - start.x, pos.y - start.y)
  {
    var m := DragMove(target, orig, start, pos);
    assert m.geom != Points([]);
    DragMoveBox(target, orig, start, pos, h);
    var off := SnapStepSnaps(m, h);
    SnappedFromShift(BBox(orig, h), BBox(SnapStep(m, h), h), pos.x - start.x, pos.y - start.y);
  }

  /** The box of the unsnapped move is the snapshot's box moved by the pointer's travel. */
  lemma DragMoveBox(target: Shape, orig: Shape, start: Point, pos: Point, h: Host)
    requires SameKind(target, orig)
    ensures BBox(DragMove(target, orig, start, pos), h) == ShiftBox(BBox(orig, h), pos.x - start.x, pos.y - start.y)
  {
    var dx, dy := pos.x - start.x, pos.y - start.y;
    assert DragMove(target, orig, start, pos) == target.(geom := Translate(orig.geom, dx, dy));
    var bm := MovedBox(target, orig, dx, dy, h);
  }

  /** The snap step translates a shape as a whole, putting its box on the grid. */
  lemma SnapStepSnaps(m: Shape, h: Host) returns (off: Point)
    requires m.geom != Points([])
    ensures SnapStep(m, h).geom == Translate(m.geom, off.x, off.y)
    ensures SnappedFrom(BBox(m, h), BBox(SnapStep(m, h), h), 0.0, 0.0)
  {
    var b := BBox(m, h);
    off := SnapOffset(b);
    BBoxTranslate(m, off.x, off.y, h);
    SnapBox(b);
  }

  /** A box moved by its own snap offset is snapped from it. */
  lemma SnapBox(b: Box)
    requires b.Rect?
    ensures var off := SnapOffset(b);
      SnappedFrom(b, ShiftBox(b, off.x, off.y), 0.0, 0.0)
  {
    var sx, sy := SnapCoord(b.xMin), SnapCoord(b.yMin);
    assert ShiftBox(b, sx - b.xMin, sy - b.yMin).xMin == sx;
    assert ShiftBox(b, sx - b.xMin, sy - b.yMin).yMin == sy;
  }

  /** Snapping from a box already moved by (dx, dy) is snapping from the original by (dx, dy). */
  lemma SnappedFromShift(b0: Box, b: Box, dx: real, dy: real)
    requires SnappedFrom(ShiftBox(b0, dx, dy), b, 0.0, 0.0)
    ensures SnappedFrom(b0, b, dx, dy)
  {
  }

  /** The box of the translated target is the snapshot's box, translated. */
  lemma MovedBox(target: Shape, orig: Shape, dx: real, dy: real, h: Host) returns (bm: Box)
    requires SameKind(target, orig)
    ensures bm == BBox(target.(geom := Translate(orig.geom, dx, dy)), h)
    ensures bm == ShiftBox(BBox(orig, h), dx, dy)
  {
    BBoxTranslate(orig, dx, dy, h);
    BBoxIgnoresStyle(orig.(geom := Translate(orig.geom, dx, dy)), target.(geom := Translate(orig.geom, dx, dy)), h);
    bm := BBox(target.(geom := Translate(orig.geom, dx, dy)), h);
  }

  /** A drag's result depends only on the snapshot and the latest pointer: a move that
      follows an earlier move of the same gesture overwrites it completely. */
  lemma DragForgetsEarlierMoves(target: Shape, orig: Shape, start: Point, p1: Point, p2: Point,
                                snap1: bool, snap2: bool, h: Host)
    ensures Drag(Drag(target, orig, start, p1, snap1, h), orig, start, p2, snap2, h)
         == Drag(target, orig, start, p2, snap2, h)
  {
  }

  // ---------------------------------------------------------------------------
  // Resize (src/components/Canvas.js:661-713)
  // ---------------------------------------------------------------------------

  /** One coordinate scaled about `off` by (p - off) / (hc - off). A zero-extent axis
      (hc == off) keeps the snapshot coordinate. */
  function AxisScale(o: real, off: real, hc: real, p: real): (r: real)
    ensures o == off ==> r == o
    ensures o == hc ==> r == p || hc == off
    ensures p == hc ==> r == o
  {
    if hc == off then o else off + (o - off) * ((p - off) / (hc - off))
  }

  function ScalePoint(q: Point, opp: Point, hc: Point, pos: Point): Point
  {
    Point(AxisScale(q.x, opp.x, hc.x, pos.x), AxisScale(q.y, opp.y, hc.y, pos.y))
  }

  /** Every coordinate of the snapshot geometry scaled about the opposite corner. */
  function ScaleGeom(g: Geom, opp: Point, hc: Point, pos: Point): (r: Geom)
    ensures r.Anchors? <==> g.Anchors?
    ensures r.Points? ==> |r.pts| == |g.pts|
    ensures pos == hc ==> r == g
  {
    match g
    case Anchors(x0, y0, x1, y1) =>
      Anchors(AxisScale(x0, opp.x, hc.x, pos.x), AxisScale(y0, opp.y, hc.y, pos.y),
              AxisScale(x1, opp.x, hc.x, pos.x), AxisScale(y1, opp.y, hc.y, pos.y))
    case Points(ps) =>
      var qs := seq(|ps|, i requires 0 <= i < |ps| => ScalePoint(ps[i], opp, hc, pos));
      assert pos == hc ==> qs == ps;
      Points(qs)
  }

  /** Moves one end of a two-anchor geometry to p: the first end when `first`. */
  function MoveEnd(g: Geom, first: bool, p: Point): Geom
  {
    match g
    case Points(_) => g
    case Anchors(x0, y0, x1, y1) =>
      if first then Anchors(p.x, p.y, x1, y1) else Anchors(x0, y0, p.x, p.y)
  }

  /** True when resizing `s` scales it about the opposite corner (not a line, circle or pentagon). */
  predicate Scales(s: Shape)
  {
    s.tool != Line && s.tool != Circle && s.tool != Polygon
  }

  /** The resize step for handle k of the snapshot's box with the pointer at pos.
      A line moves its first end for handle 0 and its second end otherwise; a circle or
      pentagon takes the pointer as its second anchor; every other shape is scaled about
      the corner opposite the handle. */
  function Resize(target: Shape, orig: Shape, k: Handle, pos: Point, h: Host): (r: Shape)
    ensures SameButGeom(r, target)
  {
    if orig.tool == Line then
      target.(geom := MoveEnd(target.geom, k == 0, pos))
    else if orig.tool == Circle || orig.tool == Polygon then
      target.(geom := MoveEnd(target.geom, false, pos))
    else
      var b := BBox(orig, h);
      if b.Void? then
        // only an empty point list has no box, and scaling it leaves it empty
        target.(geom := orig.geom)
      else
        target.(geom := ScaleGeom(orig.geom, Corner(b, Opposite(k)), Corner(b, k), pos))
  }

  /** Scaling leaves every snapshot coordinate that lies on the opposite corner's lines
      where it was, and with the pointer on the grabbed corner it reproduces the snapshot. */
  lemma ResizeFixesOpposite(target: Shape, orig: Shape, k: Handle, pos: Point, h: Host)
    requires Scales(orig) && orig.geom != Points([])
    ensures var b := BBox(orig, h);
      var opp := Corner(b, Opposite(k));
      var g, r := orig.geom, Resize(target, orig, k, pos, h).geom;
      && (pos == Corner(b, k) ==> r == g)
      && (g.Anchors? ==>
            (&& r.Anchors?
             && (g.x0 == opp.x ==> r.x0 == g.x0) && (g.y0 == opp.y ==> r.y0 == g.y0)
             && (g.x1 == opp.x ==> r.x1 == g.x1) && (g.y1 == opp.y ==> r.y1 == g.y1)))
      && (g.Points? ==>
            (&& r.Points? && |r.pts| == |g.pts|
             && forall i :: 0 <= i < |g.pts| ==>
                  (g.pts[i].x == opp.x ==> r.pts[i].x == g.pts[i].x) &&
                  (g.pts[i].y == opp.y ==> r.pts[i].y == g.pts[i].y)))
  {
  }

  /** A line's resize moves only the end the handle selects: handle 0 the first end,
      any other handle the second. */
  lemma ResizeLineMovesOneEnd(target: Shape, orig: Shape, k: Handle, pos: Point, h: Host)
    requires orig.tool == Line && target.geom.Anchors?
    ensures var g, r := target.geom, Resize(target, orig, k, pos, h).geom;
      if k == 0 then r == Anchors(pos.x, pos.y, g.x1, g.y1)
      else r == Anchors(g.x0, g.y0, pos.x, pos.y)
  {
  }

  /** A circle or pentagon keeps its centre and takes the pointer as its second anchor. */
  lemma ResizeRoundKeepsCentre(target: Shape, orig: Shape, k: Handle, pos: Point, h: Host)
    requires (orig.tool == Circle || orig.tool == Polygon) && target.geom.Anchors?
    ensures var g, r := target.geom, Resize(target, orig, k, pos, h).geom;
      r == Anchors(g.x0, g.y0, pos.x, pos.y)
  {
  }

  /** On one axis, the scaled snapshot interval [lo, hi] (with lo < hi, and `off`, `hc` its two
      ends) lands between `off` and `p`. */
  lemma AxisScaleSpans(v: real, lo: real, hi: real, off: real, hc: real, p: real)
    requires lo < hi && lo <= v <= hi
    requires (off == lo && hc == hi) || (off == hi && hc == lo)
    ensures Min(off, p) <= AxisScale(v, off, hc, p) <= Max(off, p)
  {
    var r := AxisScale(v, off, hc, p);
    assert r == off + (v - off) * ((p - off) / (hc - off));
    ScaleBetween(v, lo, hi, off, hc, p, r);
  }

  /** The anchor case of ResizeSpansToPointer. */
  lemma ResizeAnchorsSpans(target: Shape, orig: Shape, k: Handle, pos: Point, h: Host)
    requires Scales(orig) && SameKind(target, orig) && orig.geom.Anchors? && UsesAnchorSpan(orig)
    requires var b := BBox(orig, h); b.Rect? && b.xMin < b.xMax && b.yMin < b.yMax
    ensures var b := BBox(orig, h);
      var opp := Corner(b, Opposite(k));
      BBox(Resize(target, orig, k, pos, h), h) == SpanBox(opp.x, opp.y, pos.x, pos.y)
  {
    var b := BBox(orig, h);
    var g := orig.geom;
    assert b == SpanBox(g.x0, g.y0, g.x1, g.y1);
    var opp, hc := Corner(b, Opposite(k)), Corner(b, k);
    assert (opp.x == b.xMin && hc.x == b.xMax) || (opp.x == b.xMax && hc.x == b.xMin);
    assert (opp.y == b.yMin && hc.y == b.yMax) || (opp.y == b.yMax && hc.y == b.yMin);
    var r := Resize(target, orig, k, pos, h);
    assert r.geom == ScaleGeom(g, opp, hc, pos);
    assert BBox(r, h) == SpanBox(r.geom.x0, r.geom.y0, r.geom.x1, r.geom.y1);
  }

  /** `opp` and `hc` are diagonally opposite corners of b. */
  predicate Diagonal(b: Box, opp: Point, hc: Point)
  {
    && b.Rect?
    && ((opp.x == b.xMin && hc.x == b.xMax) || (opp.x == b.xMax && hc.x == b.xMin))
    && ((opp.y == b.yMin && hc.y == b.yMax) || (opp.y == b.yMax && hc.y == b.yMin))
  }

  /** Every scaled point lies between the fixed corner and the pointer. */
  lemma ScaledPointsInSpan(ps: seq<Point>, opp: Point, hc: Point, pos: Point)
    requires var b := PointsBox(ps); Diagonal(b, opp, hc) && b.xMin < b.xMax && b.yMin < b.yMax
    ensures var qs := ScaleGeom(Points(ps), opp, hc, pos).pts;
      forall i :: 0 <= i < |qs| ==> Contains(SpanBox(opp.x, opp.y, pos.x, pos.y), qs[i])
  {
    var b := PointsBox(ps);
    PointsBoxBounds(ps);
    var qs := ScaleGeom(Points(ps), opp, hc, pos).pts;
    forall i | 0 <= i < |qs| ensures Contains(SpanBox(opp.x, opp.y, pos.x, pos.y), qs[i]) {
      assert qs[i] == ScalePoint(ps[i], opp, hc, pos);
      assert Contains(b, ps[i]);
      AxisScaleSpans(ps[i].x, b.xMin, b.xMax, opp.x, hc.x, pos.x);
      AxisScaleSpans(ps[i].y, b.yMin, b.yMax, opp.y, hc.y, pos.y);
    }
  }

  /** The points that sat on the box's sides land on the fixed corner's lines and on the pointer's. */
  lemma ScaledPointsReachSpan(ps: seq<Point>, opp: Point, hc: Point, pos: Point)
    requires var b := PointsBox(ps); Diagonal(b, opp, hc) && b.xMin < b.xMax && b.yMin < b.yMax
    ensures var qs := ScaleGeom(Points(ps), opp, hc, pos).pts;
      var span := SpanBox(opp.x, opp.y, pos.x, pos.y);
      && (exists i :: 0 <= i < |qs| && qs[i].x == span.xMin)
      && (exists i :: 0 <= i < |qs| && qs[i].x == span.xMax)
      && (exists i :: 0 <= i < |qs| && qs[i].y == span.yMin)
      && (exists i :: 0 <= i < |qs| && qs[i].y == span.yMax)
  {
    var b := PointsBox(ps);
    PointsBoxBounds(ps);
    var qs := ScaleGeom(Points(ps), opp, hc, pos).pts;
    var span := SpanBox(opp.x, opp.y, pos.x, pos.y);
    var i0 :| 0 <= i0 < |ps| && ps[i0].x == b.xMin;
    var i1 :| 0 <= i1 < |ps| && ps[i1].x == b.xMax;
    var j0 :| 0 <= j0 < |ps| && ps[j0].y == b.yMin;
    var j1 :| 0 <= j1 < |ps| && ps[j1].y == b.yMax;
    assert qs[i0] == ScalePoint(ps[i0], opp, hc, pos) && qs[i1] == ScalePoint(ps[i1], opp, hc, pos);
    assert qs[j0] == ScalePoint(ps[j0], opp, hc, pos) && qs[j1] == ScalePoint(ps[j1], opp, hc, pos);
    assert {qs[i0].x, qs[i1].x} == {opp.x, pos.x};
    assert {qs[j0].y, qs[j1].y} == {opp.y, pos.y};
  }

  /** The point-list case of ResizeSpansToPointer. */
  lemma ResizePointsSpans(target: Shape, orig: Shape, k: Handle, pos: Point, h: Host)
    requires Scales(orig) && SameKind(target, orig) && orig.geom.Points?
    requires var b := BBox(orig, h); b.Rect? && b.xMin < b.xMax && b.yMin < b.yMax
    ensures var b := BBox(orig, h);
      var opp := Corner(b, Opposite(k));
      BBox(Resize(target, orig, k, pos, h), h) == SpanBox(opp.x, opp.y, pos.x, pos.y)
  {
    var ps := orig.geom.pts;
    var b := PointsBox(ps);
    PointsBoxBounds(ps);
    var opp, hc := Corner(b, Opposite(k)), Corner(b, k);
    assert Diagonal(b, opp, hc);
    var qs := ScaleGeom(Points(ps), opp, hc, pos).pts;
    assert Resize(target, orig, k, pos, h).geom == Points(qs);
    ScaledPointsInSpan(ps, opp, hc, pos);
    ScaledPointsReachSpan(ps, opp, hc, pos);
    PointsBoxUnique(qs, SpanBox(opp.x, opp.y, pos.x, pos.y));
  }

  /** For a rectangle, triangle or free-form shape whose snapshot box has non-zero width and
      height, the resized box spans exactly from the fixed opposite corner to the pointer. */
  lemma ResizeSpansToPointer(target: Shape, orig: Shape, k: Handle, pos: Point, h: Host)
    requires Scales(orig) && SameKind(target, orig)
    requires orig.geom.Anchors? ==> UsesAnchorSpan(orig)
    requires var b := BBox(orig, h); b.Rect? && b.xMin < b.xMax && b.yMin < b.yMax
    ensures var b := BBox(orig, h);
      var opp := Corner(b, Opposite(k));
      BBox(Resize(target, orig, k, pos, h), h) == SpanBox(opp.x, opp.y, pos.x, pos.y)
  {
    if orig.geom.Anchors? {
      ResizeAnchorsSpans(target, orig, k, pos, h);
    } else {
      ResizePointsSpans(target, orig, k, pos, h);
    }
  }

  // ---------------------------------------------------------------------------
  // Rotate (src/components/Canvas.js:648-658)
  // ---------------------------------------------------------------------------

  /** The rotate step: the snapshot rotation plus the angle the pointer has swept about the
      pivot since the gesture started. */
  function Rotate(target: Shape, origRotation: real, pivot: Point, startAngle: real, pos: Point, h: Host): (r: Shape)
    ensures r == target.(rotation := r.rotation)
  {
    target.(rotation := origRotation + (h.atan2(pos.y - pivot.y, pos.x - pivot.x) - startAngle))
  }

  /** Rotation depends only on the gesture's start data and the latest pointer; a pointer back
      at the starting position restores the snapshot rotation; the box is unaffected. */
  lemma RotateFromSnapshot(target: Shape, origRotation: real, pivot: Point, start: Point, p1: Point,
                           p2: Point, h: Host)
    ensures var a0 := h.atan2(start.y - pivot.y, start.x - pivot.x);
      && Rotate(Rotate(target, origRotation, pivot, a0, p1, h), origRotation, pivot, a0, p2, h)
         == Rotate(target, origRotation, pivot, a0, p2, h)
      && Rotate(target, origRotation, pivot, a0, start, h).rotation == origRotation
      && BBox(Rotate(target, origRotation, pivot, a0, p1, h), h) == BBox(target, h)
  {
  }
}
