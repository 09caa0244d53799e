/**
  The pointer and keyboard handlers of src/components/Canvas.js:556-1010:
  a press either starts a rotate, resize or drag gesture on the topmost shape
  under the pointer (select tool) or starts a new shape; a move applies the
  gesture's transform to its target; a release ends the gesture or commits
  the new shape; a double click finishes a poly-line or a curve; and the
  keyboard shortcuts run the document operations.

  The editor state is the document plus what the handlers keep between
  events: `dragRef.current` (the gesture), the React state `isDrawing` and
  `startPos`, and the point lists `polyRef` and `curveRef`. The toolbar's
  props (tool, colours, stroke width, grid) and the host functions form an
  `Env` that the caller passes to every event.
 */
module Interaction {
  import opened Shapes
  import opened Seqs
  import opened Kernel
  import opened Document
  import Transform

  datatype Option<T> = None | Some(value: T)

  /** What a select-mode press at one position does to one shape, in the handler's order:
      the rotation grip is looked at first (it lies outside the shape), then the body test,
      then the four corner handles. */
  datatype Hit = Miss | OnGrip | OnCorner(k: Handle) | OnBody

  /** The contents of `dragRef.current`: the gesture in progress and the scene index of
      its target, with the data captured when it started. */
  datatype Gesture =
    | Idle
    | Rotating(index: nat, origRotation: real, pivot: Point, startAngle: real)
    | Resizing(index: nat, handle: Handle, orig: Shape)
    | Dragging(index: nat, startPos: Point, orig: Shape)

  datatype Editor = Editor(
    doc: Doc,
    gesture: Gesture,
    drawing: bool,       // isDrawing
    start: Point,        // startPos
    poly: seq<Point>,    // polyRef.current
    curve: seq<Point>)   // curveRef.current

  /** The canvas's props and the host functions. */
  datatype Env = Env(tool: Tool, lineColor: string, fillColor: string, strokeWidth: real,
                     showGrid: bool, host: Host)

  /** The editor as mounted: nothing drawn, `startPos` at the origin. */
  function Initial(): (ed: Editor)
    ensures Valid(ed.doc) && Count(ed.doc) == 0 && !ed.drawing && ed.gesture == Idle
  {
    Editor(Doc([], [], [], [], []), Idle, false, Point(0.0, 0.0), [], [])
  }

  // ---------------------------------------------------------------------------
  // Press (src/components/Canvas.js:557-642)
  // ---------------------------------------------------------------------------

  /** The first of the four corner handles, in order, that the pointer is near. */
  function CornerAt(b: Box, pos: Point): (r: Option<Handle>)
    requires b.Rect?
    ensures r.Some? ==> Near(pos, Corner(b, r.value)) && forall j: Handle :: j < r.value ==> !Near(pos, Corner(b, j))
    ensures r.None? ==> forall j: Handle :: !Near(pos, Corner(b, j))
  {
    if Near(pos, Corner(b, 0)) then Some(0)
    else if Near(pos, Corner(b, 1)) then Some(1)
    else if Near(pos, Corner(b, 2)) then Some(2)
    else if Near(pos, Corner(b, 3)) then Some(3)
    else None
  }

  /** A shape with an empty point list has no box: its grip and corners lie at infinity
      and are never near the pointer. */
  function Probe(s: Shape, pos: Point, strokeWidth: real, h: Host): (r: Hit)
    ensures r == OnGrip <==> BBox(s, h).Rect? && Near(pos, Grip(BBox(s, h)))
    ensures r != Miss <==> r == OnGrip || HitTest(s, pos, strokeWidth, h)
    ensures r.OnCorner? ==> BBox(s, h).Rect? && Near(pos, Corner(BBox(s, h), r.k))
    ensures r.OnCorner? <==>
      && BBox(s, h).Rect? && !Near(pos, Grip(BBox(s, h))) && HitTest(s, pos, strokeWidth, h)
      && CornerAt(BBox(s, h), pos).Some?
    ensures r.OnCorner? ==> r.k == CornerAt(BBox(s, h), pos).value
  {
    var b := BBox(s, h);
    if b.Rect? && Near(pos, Grip(b)) then OnGrip
    else if !HitTest(s, pos, strokeWidth, h) then Miss
    else if b.Void? then OnBody
    else
      match CornerAt(b, pos)
      case Some(k) => OnCorner(k)
      case None => OnBody
  }

  datatype Target = Target(index: nat, hit: Hit)

  /** What the press does to each shape of a list. */
  function Probes(shapes: seq<Shape>, pos: Point, w: real, h: Host): (hs: seq<Hit>)
    ensures |hs| == |shapes| && forall i :: 0 <= i < |shapes| ==> hs[i] == Probe(shapes[i], pos, w, h)
  {
    seq(|shapes|, i requires 0 <= i < |shapes| => Probe(shapes[i], pos, w, h))
  }

  /** The top-down walk of the press handler: the highest index the press reaches, or
      nothing when it reaches none. */
  function TopHit(hs: seq<Hit>): (r: Option<Target>)
    ensures r.None? <==> forall i :: 0 <= i < |hs| ==> hs[i] == Miss
    ensures r.Some? ==>
      && r.value.index < |hs| && r.value.hit != Miss && hs[r.value.index] == r.value.hit
      && forall j :: r.value.index < j < |hs| ==> hs[j] == Miss
    decreases |hs|
  {
    if hs == [] then None
    else
      var i := |hs| - 1;
      if hs[i] != Miss then Some(Target(i, hs[i])) else TopHit(hs[..i])
  }

  /** The scene's shapes, bottom to top. */
  function SceneShapes(d: Doc): (ss: seq<Shape>)
    requires Valid(d)
    ensures |ss| == |d.scene| && forall i :: 0 <= i < |d.scene| ==> ss[i] == d.heap[SceneAt(d, i)]
  {
    Values(d.heap, d.scene)
  }

  /** The identity at scene index i, which names a heap object. */
  function SceneAt(d: Doc, i: nat): (id: Id)
    requires Valid(d) && i < |d.scene|
    ensures id == d.scene[i] && id < |d.heap|
  {
    assert d.scene[i] in d.scene;
    d.scene[i]
  }

  /** Every shape keeps everything but its `selected` flag. */
  predicate SameShapes(a: seq<Shape>, b: seq<Shape>)
  {
    |a| == |b| && forall id :: 0 <= id < |a| ==> a[id].(selected := b[id].selected) == b[id]
  }

  /** The document after `shapes.forEach(sh => sh.selected = false)`. */
  function Cleared(d: Doc): (r: Doc)
    requires Valid(d)
    ensures r == d.(heap := r.heap) && Valid(r) && SameShapes(r.heap, d.heap)
    ensures forall id :: id in d.scene ==> !r.heap[id].selected
  {
    d.(heap := Deselect(d.heap, d.scene))
  }

  /** `s.selected = true` on the object with identity id. */
  function Mark(heap: seq<Shape>, id: Id): (r: seq<Shape>)
    requires id < |heap|
    ensures SameShapes(r, heap) && r[id].selected
    ensures forall j :: 0 <= j < |heap| && j != id ==> r[j] == heap[j]
  {
    heap[id := heap[id].(selected := true)]
  }

  /** The gesture a press starts on shape s at scene index i: a rotation about the box
      centre from the grip, a resize from a corner, a drag from the body. Resize and drag
      keep a copy of the shape as it is at the press, selected. */
  function Grab(s: Shape, i: nat, hit: Hit, pos: Point, h: Host): (g: Gesture)
    requires hit == OnGrip ==> BBox(s, h).Rect?
    ensures !g.Idle? && g.index == i
    ensures g.Rotating? <==> hit == OnGrip
    ensures g.Resizing? <==> hit.OnCorner?
    ensures hit.OnCorner? ==> g.handle == hit.k
    ensures g.Rotating? ==> g.origRotation == s.rotation && g.pivot == Centre(BBox(s, h))
    ensures g.Resizing? || g.Dragging? ==> g.orig == s.(selected := true)
    ensures g.Dragging? ==> g.startPos == pos
  {
    match hit
    case OnGrip =>
      var c := Centre(BBox(s, h));
      Rotating(i, s.rotation, c, h.atan2(pos.y - c.y, pos.x - c.x))
    case OnCorner(k) => Resizing(i, k, s.(selected := true))
    case _ => Dragging(i, pos, s.(selected := true))
  }

  /** The select tool's press: clear the selection, then select the topmost shape the
      press reaches and start the gesture its grip, corner or body calls for. */
  function SelectPress(ed: Editor, env: Env, pos: Point): (r: Editor)
    requires Valid(ed.doc)
    ensures r.doc == ed.doc.(heap := r.doc.heap) && Valid(r.doc)
    ensures SameShapes(r.doc.heap, ed.doc.heap)
    ensures r == ed.(doc := r.doc, gesture := r.gesture)
  {
    var clean := Cleared(ed.doc);
    match TopHit(Probes(SceneShapes(clean), pos, env.strokeWidth, env.host))
    case None => ed.(doc := clean)
    case Some(t) =>
      var id := SceneAt(clean, t.index);
      ed.(doc := clean.(heap := Mark(clean.heap, id)),
          gesture := Grab(clean.heap[id], t.index, t.hit, pos, env.host))
  }

  /** mousedown. */
  function Down(ed: Editor, env: Env, pos: Point): (r: Editor)
    requires Valid(ed.doc)
    ensures r.doc == ed.doc.(heap := r.doc.heap) && Valid(r.doc)
    ensures SameShapes(r.doc.heap, ed.doc.heap)
    ensures env.tool != Select ==> r.doc == ed.doc && r.gesture == ed.gesture
  {
    match env.tool
    case Select => SelectPress(ed, env, pos)
    case PolyLine => ed.(poly := ed.poly + [pos], drawing := true)
    case Curve => ed.(curve := ed.curve + [pos], drawing := true)
    case _ => ed.(start := pos, drawing := true)
  }

  // ---------------------------------------------------------------------------
  // Move (src/components/Canvas.js:645-811)
  // ---------------------------------------------------------------------------

  /** The identity of the shape a gesture acts on, when its index is still in the scene. */
  predicate Targets(ed: Editor, id: Id)
  {
    !ed.gesture.Idle? && ed.gesture.index < |ed.doc.scene| && ed.doc.scene[ed.gesture.index] == id
  }

  /** The scene shape at index i replaced by s. */
  function Retarget(ed: Editor, i: nat, s: Shape): (r: Editor)
    requires Valid(ed.doc) && i < |ed.doc.scene|
  {
    ed.(doc := ed.doc.(heap := ed.doc.heap[SceneAt(ed.doc, i) := s]))
  }

  /** mousemove: the gesture's transform on its target; without a gesture the handler
      only draws a preview. A drag step runs with the select tool only, and snaps when
      the grid is shown and shift is held. */
  function Move(ed: Editor, env: Env, pos: Point, shift: bool): (r: Editor)
    requires Valid(ed.doc)
    ensures r == ed.(doc := ed.doc.(heap := r.doc.heap)) && Valid(r.doc)
    ensures |r.doc.heap| == |ed.doc.heap|
    ensures forall id :: 0 <= id < |ed.doc.heap| && !Targets(ed, id) ==> r.doc.heap[id] == ed.doc.heap[id]
    ensures ed.gesture.Idle? ==> r == ed
  {
    var d := ed.doc;
    match ed.gesture
    case Idle => ed
    case Rotating(i, r0, c, a0) =>
      if i < |d.scene| then Retarget(ed, i, Transform.Rotate(d.heap[SceneAt(d, i)], r0, c, a0, pos, env.host))
      else ed
    case Resizing(i, k, orig) =>
      if i < |d.scene| then Retarget(ed, i, Transform.Resize(d.heap[SceneAt(d, i)], orig, k, pos, env.host))
      else ed
    case Dragging(i, p0, orig) =>
      if env.tool == Select && i < |d.scene| then
        Retarget(ed, i, Transform.Drag(d.heap[SceneAt(d, i)], orig, p0, pos, env.showGrid && shift, env.host))
      else ed
  }

  // ---------------------------------------------------------------------------
  // Release (src/components/Canvas.js:814-856)
  // ---------------------------------------------------------------------------

  /** The shape a shape tool commits: anchors at the press and the release, the toolbar's
      style, shift making a square or a circle. */
  function Drawn(env: Env, start: Point, pos: Point, shift: bool): (s: Shape)
    ensures s.tool == env.tool && s.geom == Anchors(start.x, start.y, pos.x, pos.y)
    ensures s.isSquare <==> env.tool == Square && shift
    ensures s.isCircle <==> env.tool == Circle && shift
  {
    Shape(env.tool, Anchors(start.x, start.y, pos.x, pos.y), env.tool == Square && shift,
          env.tool == Circle && shift, env.lineColor, env.fillColor, env.strokeWidth, 0.0, false)
  }

  /** mouseup. */
  function Up(ed: Editor, env: Env, pos: Point, shift: bool): (r: Editor)
    requires Valid(ed.doc)
    ensures Valid(r.doc)
  {
    if ed.gesture.Rotating? || ed.gesture.Resizing? || (ed.gesture.Dragging? && env.tool == Select) then
      ed.(gesture := Idle)
    else if env.tool == PolyLine || env.tool == Curve || !ed.drawing then ed
    else if pos == ed.start then ed.(drawing := false)
    else ed.(doc := Commit(ed.doc, Drawn(env, ed.start, pos, shift)), drawing := false)
  }

  // ---------------------------------------------------------------------------
  // Double click (src/components/Canvas.js:859-910)
  // ---------------------------------------------------------------------------

  /** A finished point list as a shape with the toolbar's style. */
  function Traced(tool: Tool, pts: seq<Point>, env: Env): (s: Shape)
    ensures s.tool == tool && s.geom == Points(pts) && !s.isSquare && !s.isCircle
  {
    Shape(tool, Points(pts), false, false, env.lineColor, env.fillColor, env.strokeWidth, 0.0, false)
  }

  /** finishPoly as the handler is written: `isDrawing` stays set. */
  function FinishPolyAsWritten(ed: Editor, env: Env): (r: Editor)
    requires Valid(ed.doc)
    ensures Valid(r.doc) && r.drawing == ed.drawing
  {
    if env.tool != PolyLine || |ed.poly| < 2 then ed
    else ed.(doc := Commit(ed.doc, Traced(PolyLine, ed.poly, env)), poly := [])
  }

  /** finishPoly ending the drawing, as finishCurve and the release handler do: the
      corrected handler the rest of the model uses. */
  function FinishPoly(ed: Editor, env: Env): (r: Editor)
    requires Valid(ed.doc)
    ensures Valid(r.doc)
    ensures env.tool == PolyLine && |ed.poly| >= 2 ==>
      Count(r.doc) == Count(ed.doc) + 1 && r.poly == [] && !r.drawing && r.curve == ed.curve
    ensures !(env.tool == PolyLine && |ed.poly| >= 2) ==> r == ed
  {
    if env.tool != PolyLine || |ed.poly| < 2 then ed
    else ed.(doc := Commit(ed.doc, Traced(PolyLine, ed.poly, env)), poly := [], drawing := false)
  }

  /** finishCurve: the double click's position is the curve's last point. */
  function FinishCurve(ed: Editor, env: Env, pos: Point): (r: Editor)
    requires Valid(ed.doc)
    ensures Valid(r.doc)
    ensures env.tool == Curve && |ed.curve| >= 2 ==>
      Count(r.doc) == Count(ed.doc) + 1 && r.curve == [] && !r.drawing && r.poly == ed.poly
    ensures !(env.tool == Curve && |ed.curve| >= 2) ==> r == ed
  {
    if env.tool != Curve || |ed.curve| < 2 then ed
    else ed.(doc := Commit(ed.doc, Traced(Curve, ed.curve + [pos], env)), curve := [], drawing := false)
  }

  /** dblclick as the handler is written: both listeners run, finishPoly first, and a
      finished poly-line leaves `isDrawing` as it was. */
  function DblClickAsWritten(ed: Editor, env: Env, pos: Point): (r: Editor)
    requires Valid(ed.doc)
    ensures Valid(r.doc) && r.drawing == (ed.drawing && !(env.tool == Curve && |ed.curve| >= 2))
  {
    FinishCurve(FinishPolyAsWritten(ed, env), env, pos)
  }

  /** dblclick with the corrected finishPoly, which ends the drawing: at most one of the
      two listeners finishes a shape, since the tool is either the poly-line or the curve. */
  function DblClick(ed: Editor, env: Env, pos: Point): (r: Editor)
    requires Valid(ed.doc)
    ensures Valid(r.doc)
    ensures Count(r.doc) == Count(ed.doc) + (if Finishes(ed, env) then 1 else 0)
    ensures Finishes(ed, env) ==> !r.drawing
  {
    FinishCurve(FinishPoly(ed, env), env, pos)
  }

  /** The double click finishes a poly-line or a curve of at least two points. */
  predicate Finishes(ed: Editor, env: Env)
  {
    (env.tool == PolyLine && |ed.poly| >= 2) || (env.tool == Curve && |ed.curve| >= 2)
  }

  // ---------------------------------------------------------------------------
  // Keyboard (src/components/Canvas.js:913-1001)
  // ---------------------------------------------------------------------------

  /** `toLowerCase` on the ASCII letters. */
  function LowerChar(c: char): (l: char)
    ensures !('A' <= l <= 'Z')
    ensures 'a' <= l <= 'z' <==> 'a' <= c <= 'z' || 'A' <= c <= 'Z'
  {
    if 'A' <= c <= 'Z' then (c as int - 'A' as int + 'a' as int) as char else c
  }

  function Lower(s: string): (l: string)
    ensures |l| == |s| && forall i :: 0 <= i < |s| ==> l[i] == LowerChar(s[i])
  {
    seq(|s|, i requires 0 <= i < |s| => LowerChar(s[i]))
  }

  /** keydown: ctrl+z undoes, ctrl+shift+z redoes, Delete deletes the selection, ctrl+c
      copies it and ctrl+v pastes; the first test that matches wins. */
  function Key(d: Doc, key: string, ctrl: bool, shift: bool): (r: Doc)
    ensures Valid(d) ==> Valid(r)
  {
    var k := Lower(key);
    if ctrl && !shift && k == "z" then Undo(d)
    else if ctrl && shift && k == "z" then Redo(d)
    else if key == "Delete" then DeleteSelected(d)
    else if ctrl && k == "c" then Copy(d)
    else if ctrl && k == "v" then Paste(d)
    else d
  }

  // ---------------------------------------------------------------------------
  // Properties of the handlers
  // ---------------------------------------------------------------------------

  /** After a select-mode press at most one scene shape is selected: none when the press
      reaches no shape, and otherwise the topmost one it reaches, which is also the
      gesture's target. A press that reaches nothing leaves the gesture as it was. */
  lemma PressSelectsTopmost(ed: Editor, env: Env, pos: Point)
    requires Valid(ed.doc) && env.tool == Select
    ensures var r := Down(ed, env, pos); var ss := SceneShapes(Cleared(ed.doc)); var sel := SelectedIds(r.doc);
      && (forall a, b :: a in sel && b in sel ==> a == b)
      && (sel == [] <==> forall i :: 0 <= i < |ss| ==> Probe(ss[i], pos, env.strokeWidth, env.host) == Miss)
      && (sel == [] ==> r.gesture == ed.gesture)
      && (sel != [] ==>
            && !r.gesture.Idle? && r.gesture.index < |ss|
            && (forall x :: x in sel ==> x == ed.doc.scene[r.gesture.index])
            && Probe(ss[r.gesture.index], pos, env.strokeWidth, env.host) != Miss
            && (forall j :: r.gesture.index < j < |ss| ==> Probe(ss[j], pos, env.strokeWidth, env.host) == Miss))
  {
    var d := ed.doc;
    var clean := Cleared(d);
    var r := Down(ed, env, pos);
    var sel := SelectedIds(r.doc);
    var ss := SceneShapes(clean);
    var hs := Probes(ss, pos, env.strokeWidth, env.host);
    match TopHit(hs)
    case None =>
      assert r.doc == clean;
      OnlyNone(d.scene, Picked(r.doc));
    case Some(t) =>
      var id := SceneAt(clean, t.index);
      assert r.doc == clean.(heap := Mark(clean.heap, id));
      assert r.gesture.index == t.index;
      MarkSelectsOne(clean, id);
  }

  /** Marking one scene shape of a document with no selection selects exactly that one. */
  lemma MarkSelectsOne(d: Doc, id: Id)
    requires Valid(d) && id in d.scene
    requires forall x :: x in d.scene ==> !d.heap[x].selected
    ensures var sel := SelectedIds(d.(heap := Mark(d.heap, id)));
      id in sel && forall x :: x in sel ==> x == id
  {
  }

  /** The gesture a select-mode press starts is the one that the topmost shape it reaches
      calls for: a rotation from the grip, a resize from the first near corner, a drag from
      anywhere else on the shape. */
  lemma PressStartsGesture(ed: Editor, env: Env, pos: Point, i: nat)
    requires Valid(ed.doc) && env.tool == Select
    requires var ss := SceneShapes(Cleared(ed.doc));
      && i < |ss| && Probe(ss[i], pos, env.strokeWidth, env.host) != Miss
      && forall j :: i < j < |ss| ==> Probe(ss[j], pos, env.strokeWidth, env.host) == Miss
    ensures var ss := SceneShapes(Cleared(ed.doc)); var hit := Probe(ss[i], pos, env.strokeWidth, env.host);
      Down(ed, env, pos).gesture == Grab(ss[i], i, hit, pos, env.host)
  {
    var clean := Cleared(ed.doc);
    var hs := Probes(SceneShapes(clean), pos, env.strokeWidth, env.host);
    var t := TopHit(hs);
    assert hs[i] != Miss;
    assert t.Some? && t.value.index == i;
  }

  /** A press that starts a drag snapshots the shape it reaches, as it is but selected. */
  lemma PressGrabs(ed: Editor, env: Env, pos: Point) returns (id: Id)
    requires Valid(ed.doc) && env.tool == Select && ed.gesture == Idle
    requires Down(ed, env, pos).gesture.Dragging?
    ensures var p := Down(ed, env, pos);
      && p.gesture.index < |ed.doc.scene| && id == ed.doc.scene[p.gesture.index] && id < |ed.doc.heap|
      && p.gesture.startPos == pos && p.doc.heap[id] == p.gesture.orig
      && p.gesture.orig.geom == ed.doc.heap[id].geom
      && Transform.SameKind(p.gesture.orig, ed.doc.heap[id])
      && BBox(p.gesture.orig, env.host) == BBox(ed.doc.heap[id], env.host)
  {
    var clean := Cleared(ed.doc);
    var t := TopHit(Probes(SceneShapes(clean), pos, env.strokeWidth, env.host));
    assert t.Some?;
    id := SceneAt(clean, t.value.index);
    var orig := clean.heap[id].(selected := true);
    assert Down(ed, env, pos).gesture == Dragging(t.value.index, pos, orig);
    BBoxIgnoresStyle(orig, ed.doc.heap[id], env.host);
  }

  /** A move during a drag with the select tool runs the drag step on the target. */
  lemma MoveDrags(p: Editor, env: Env, to: Point, shift: bool, id: Id)
    requires Valid(p.doc) && env.tool == Select && p.gesture.Dragging?
    requires p.gesture.index < |p.doc.scene| && id == p.doc.scene[p.gesture.index]
    ensures var m := Move(p, env, to, shift); var g := p.gesture;
      && id < |p.doc.heap| && |m.doc.heap| == |p.doc.heap|
      && m.doc.heap[id] == Transform.Drag(p.doc.heap[id], g.orig, g.startPos, to, env.showGrid && shift, env.host)
  {
    assert id == SceneAt(p.doc, p.gesture.index);
  }

  /** A press on a shape's body followed by a move drags it: without snap its box moves
      by exactly the pointer's travel; with the grid shown and shift held the box's min
      corner lands on the grid, within half a cell of that, and the box keeps its size.
      No other shape changes. */
  lemma PressThenDrag(ed: Editor, env: Env, pos: Point, to: Point, shift: bool)
    requires Valid(ed.doc) && env.tool == Select && ed.gesture == Idle
    requires Down(ed, env, pos).gesture.Dragging?
    ensures var p := Down(ed, env, pos); var i := p.gesture.index;
      && i < |ed.doc.scene|
      && var id := ed.doc.scene[i]; var m := Move(p, env, to, shift);
      var b0 := BBox(ed.doc.heap[id], env.host);
      var dx, dy := to.x - pos.x, to.y - pos.y;
      && (forall j :: 0 <= j < |ed.doc.heap| && j != id ==> m.doc.heap[j] == p.doc.heap[j])
      && (!(env.showGrid && shift) ==>
            m.doc.heap[id].geom == Translate(ed.doc.heap[id].geom, dx, dy)
            && BBox(m.doc.heap[id], env.host) == ShiftBox(b0, dx, dy))
      && (env.showGrid && shift && b0.Rect? ==>
            Transform.SnappedFrom(b0, BBox(m.doc.heap[id], env.host), dx, dy))
  {
    var p := Down(ed, env, pos);
    var id := PressGrabs(ed, env, pos);
    var orig := p.gesture.orig;
    MoveDrags(p, env, to, shift, id);
    if env.showGrid && shift {
      if BBox(orig, env.host).Rect? {
        var off := Transform.DragSnapsToGrid(orig, orig, pos, to, env.host);
      }
    } else {
      Transform.DragTranslates(orig, orig, pos, to, env.host);
    }
  }

  /** A release commits a new shape exactly when a shape tool is drawing, no gesture is
      ending, and the pointer has left the press position. The new shape spans the press
      and release positions, sits on top and is the only selected shape; one `add` entry
      naming it is pushed, the redo stack is emptied, and one undo takes it away again.
      Otherwise the document is unchanged. */
  lemma ReleaseCommits(ed: Editor, env: Env, pos: Point, shift: bool)
    requires Valid(ed.doc)
    ensures var r := Up(ed, env, pos, shift); var n := |ed.doc.heap|;
      var ends := ed.gesture.Rotating? || ed.gesture.Resizing? || (ed.gesture.Dragging? && env.tool == Select);
      var commits := !ends && env.tool != PolyLine && env.tool != Curve && ed.drawing && pos != ed.start;
      && (ends ==> r == ed.(gesture := Idle))
      && (commits ==>
            && r.doc.scene == ed.doc.scene + [n]
            && r.doc.heap[n] == Drawn(env, ed.start, pos, shift).(selected := true)
            && SelectedIds(r.doc) == [n] && !r.drawing
            && r.doc.undo == ed.doc.undo + [Add([n])] && r.doc.redo == []
            && Undo(r.doc).scene == ed.doc.scene && Redo(Undo(r.doc)) == r.doc)
      && (!commits ==> r.doc == ed.doc)
  {
    var ends := ed.gesture.Rotating? || ed.gesture.Resizing? || (ed.gesture.Dragging? && env.tool == Select);
    if !ends && env.tool != PolyLine && env.tool != Curve && ed.drawing && pos != ed.start {
      var s := Drawn(env, ed.start, pos, shift);
      CommitAddsOne(ed.doc, s);
      CommitSelectsNew(ed.doc, s);
      UndoCommit(ed.doc, s);
    }
  }

  /** The corrected double click finishes a poly-line of at least two points, or a curve of
      at least two points extended by the click position, as one new shape on top that is
      the only selected one, recorded as one `add` entry with the redo stack emptied; the
      point list is emptied and the drawing ends. Otherwise
      nothing changes. The handler as written differs only in leaving `isDrawing` as it was
      after a poly-line. */
  lemma DblClickFinishes(ed: Editor, env: Env, pos: Point)
    requires Valid(ed.doc)
    ensures var r := DblClick(ed, env, pos); var n := |ed.doc.heap|;
      && (env.tool == PolyLine && |ed.poly| >= 2 ==>
            && r.doc.scene == ed.doc.scene + [n] && r.doc.heap[n] == Traced(PolyLine, ed.poly, env).(selected := true)
            && SelectedIds(r.doc) == [n] && r.poly == [] && !r.drawing
            && r.doc.undo == ed.doc.undo + [Add([n])] && r.doc.redo == [])
      && (env.tool == Curve && |ed.curve| >= 2 ==>
            && r.doc.scene == ed.doc.scene + [n] && r.doc.heap[n] == Traced(Curve, ed.curve + [pos], env).(selected := true)
            && SelectedIds(r.doc) == [n] && r.curve == [] && !r.drawing
            && r.doc.undo == ed.doc.undo + [Add([n])] && r.doc.redo == [])
      && (!(env.tool == PolyLine && |ed.poly| >= 2) && !(env.tool == Curve && |ed.curve| >= 2) ==> r == ed)
      && DblClickAsWritten(ed, env, pos) == (if env.tool == PolyLine && |ed.poly| >= 2 then r.(drawing := ed.drawing) else r)
  {
    if env.tool == PolyLine && |ed.poly| >= 2 {
      CommitAddsOne(ed.doc, Traced(PolyLine, ed.poly, env));
      CommitSelectsNew(ed.doc, Traced(PolyLine, ed.poly, env));
    } else if env.tool == Curve && |ed.curve| >= 2 {
      CommitAddsOne(ed.doc, Traced(Curve, ed.curve + [pos], env));
      CommitSelectsNew(ed.doc, Traced(Curve, ed.curve + [pos], env));
    }
  }

  /** With no drawing under way, a select-mode click adds no shape. */
  lemma SelectClickAddsNothing(ed: Editor, env: Env, p: Point, q: Point, shift: bool)
    requires Valid(ed.doc) && !ed.drawing && env.tool == Select
    ensures Up(Down(ed, env, p), env, q, shift).doc.scene == ed.doc.scene
  {
  }

  /** Finishing a poly-line ends the drawing, so a select-mode click afterwards adds no
      shape: the document holds just the poly-line. */
  lemma PolyLineThenSelectClick(ed: Editor, env: Env, sel: Env, pos: Point, p: Point, q: Point, shift: bool)
    requires Valid(ed.doc) && env.tool == PolyLine && |ed.poly| >= 2 && sel.tool == Select
    ensures var e := DblClick(ed, env, pos);
      && Count(e.doc) == Count(ed.doc) + 1
      && Count(Up(Down(e, sel, p), sel, q, shift).doc) == Count(e.doc)
  {
    DblClickFinishes(ed, env, pos);
    var e := DblClick(ed, env, pos);
    SelectClickAddsNothing(e, sel, p, q, shift);
  }

  /** Two poly-line presses and a double click, as the handler is written: one poly-line,
      selected, and `isDrawing` still set, with `startPos` never moved from the origin. */
  lemma PolyLineAsWritten(env: Env, p: Point, q: Point)
    requires env.tool == PolyLine
    ensures var e := Down(Down(Initial(), env, p), env, q);
      var f := DblClickAsWritten(e, env, q);
      && f.doc == Commit(Initial().doc, Traced(PolyLine, [p, q], env))
      && f.drawing && f.start == Point(0.0, 0.0) && f.gesture == Idle
  {
    var e := Down(Down(Initial(), env, p), env, q);
    assert e.poly == [p, q] && e.drawing && e.doc == Initial().doc;
  }

  /** The poly-line through (1, 1) and (2, 2) has the box [1, 2] x [1, 2]. */
  lemma SmallLineBox(s: Shape, h: Host)
    requires s.geom == Points([Point(1.0, 1.0), Point(2.0, 2.0)])
    ensures BBox(s, h) == Rect(1.0, 1.0, 2.0, 2.0)
  {
    var ps := s.geom.pts;
    assert Xs(ps) == [1.0, 2.0] && Ys(ps) == [1.0, 2.0];
    assert [1.0, 2.0][1..] == [2.0];
  }

  /** The handler as written: two poly-line presses and a double click draw one shape, but
      `isDrawing` stays set, so a select-mode click on empty canvas then commits a second,
      invisible shape of tool "select" spanning the origin and the click. */
  lemma PhantomShapeAsWritten(h: Host)
    ensures var env := Env(PolyLine, "black", "transparent", 1.0, false, h);
      var sel := env.(tool := Select);
      var p, q, c := Point(1.0, 1.0), Point(2.0, 2.0), Point(300.0, 300.0);
      var e := Down(Down(Initial(), env, p), env, q);
      var f := DblClickAsWritten(e, env, q);
      var g := Up(Down(f, sel, c), sel, c, false);
      && Count(f.doc) == 1 && f.drawing
      && Count(g.doc) == 2 && g.doc.heap[1].tool == Select
  {
    var env := Env(PolyLine, "black", "transparent", 1.0, false, h);
    var sel := env.(tool := Select);
    var p, q, c := Point(1.0, 1.0), Point(2.0, 2.0), Point(300.0, 300.0);
    PolyLineAsWritten(env, p, q);
    var f := DblClickAsWritten(Down(Down(Initial(), env, p), env, q), env, q);
    assert f.doc.scene == [0];
    var clean := Cleared(f.doc);
    var ss := SceneShapes(clean);
    assert ss == [clean.heap[0]];
    SmallLineBox(clean.heap[0], h);
    assert Probe(ss[0], c, sel.strokeWidth, h) == Miss;
    var d := Down(f, sel, c);
    assert d.doc == clean && d.gesture == Idle && d.drawing && d.start == Point(0.0, 0.0);
  }

  /** The shortcuts, upper or lower case: ctrl+z undoes, ctrl+shift+z redoes, Delete deletes
      with or without modifiers, ctrl+c copies and ctrl+v pastes with or without shift, and
      no other key without ctrl changes anything. */
  lemma KeyShortcuts(d: Doc, ctrl: bool, shift: bool, key: string)
    ensures Key(d, "z", true, false) == Undo(d) && Key(d, "Z", true, false) == Undo(d)
    ensures Key(d, "z", true, true) == Redo(d) && Key(d, "Z", true, true) == Redo(d)
    ensures Key(d, "Delete", ctrl, shift) == DeleteSelected(d)
    ensures Key(d, "c", true, shift) == Copy(d) && Key(d, "C", true, shift) == Copy(d)
    ensures Key(d, "v", true, shift) == Paste(d) && Key(d, "V", true, shift) == Paste(d)
    ensures key != "Delete" ==> Key(d, key, false, shift) == d
  {
    assert Lower("z") == "z" && Lower("Z") == "z";
    assert Lower("c") == "c" && Lower("C") == "c";
    assert Lower("v") == "v" && Lower("V") == "v";
    assert Lower("Delete") != "z" by {
      assert |Lower("Delete")| == 6;
    }
  }

  /** Delete, ctrl+z, ctrl+shift+z: the undo brings the deleted shapes back at their places,
      and the redo deletes them again. */
  lemma KeyDeleteUndoRedo(d: Doc)
    requires NoDup(d.scene) && SelectedIds(d) != []
    ensures var r := Key(d, "Delete", false, false); var u := Key(r, "z", true, false);
      && r.scene != d.scene
      && u.scene == d.scene && u.undo == d.undo && u.heap == d.heap
      && Key(u, "Z", true, true) == r
  {
    var r := Key(d, "Delete", false, false);
    KeyShortcuts(d, false, false, "Delete");
    KeyShortcuts(r, false, false, "Delete");
    var u := Key(r, "z", true, false);
    KeyShortcuts(u, false, false, "Delete");
    DeleteUndo(d);
    DeleteUndoRedo(d);
    var id := SelectedIds(d)[0];
    assert id in d.scene && id !in r.scene;
  }
}
