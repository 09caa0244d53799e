# Shape editor core in Dafny

A model of the drawing canvas of the Shape-Editor web application
(`src/components/Canvas.js`) and of its stand-alone bounding-box routine
(`text.js`). The canvas holds a list of shapes: lines, rectangles or squares,
ellipses or circles, triangles, regular pentagons, poly-lines and curves. The
user draws them with a tool, selects them with the select tool, and then
drags, resizes or rotates them. Undo, redo, delete, copy and paste work from
the keyboard.

The model has these modules:

- `Shapes` (shapes.dfy): the shape record, points, boxes and translation.
- `Kernel` (kernel.dfy): the geometry kernel. It has `getBBox`, the box test
  of `hitTest`, the four corner handles, the rotation grip, and the 6-unit
  "near" test.
- `TextBBox` (textbbox.dfy): `text.js`'s copy of `getBBox`. It reads
  `Math.min`/`Math.max` as JavaScript does, with infinite bounds for an empty
  list.
- `Transform` (transform.dfy): the three gesture steps (drag with optional
  grid snap, resize, rotate), each computed from the snapshot taken when the
  gesture began. `Arith` (arith.dfy) holds the arithmetic facts these steps
  need.
- `Seqs` (seqs.dfy): the array operations the history is built from:
  `filter`, `indexOf` and `splice`.
- `Document` (document.dfy): the shape list, the undo and redo stacks, and
  the clipboard, with commit, undo, redo, delete, copy, paste, load, clear,
  count and the style-sync effect. JavaScript compares shapes by reference.
  The model therefore keeps a heap of shape objects; the scene and the
  history hold identities.
- `Interaction` (interaction.dfy): the mouse-down, mouse-move, mouse-up,
  double-click and key-down handlers over an editor state. That state is the
  document plus the gesture in `dragRef`, `isDrawing`, `startPos` and the
  poly-line and curve point lists.

Coordinates are exact reals. The values the editor takes from transcendental
or browser functions come from a `Host` value that the caller supplies:

- `Math.hypot` for a circle or pentagon radius (the 6-unit "near" test is decided exactly, as a squared distance);
- the pentagon's cosines and sines;
- `Math.atan2`;
- `isPointInStroke`.

## Model

| member | source | states |
|---|---|---|
| Kernel.BBox | src/components/Canvas.js:29-100 | The box is empty (+inf/-inf, `Void`) exactly for an empty point list. |
| Kernel.BBoxWellOrdered | src/components/Canvas.js:29-100 | Every box except that of an empty point list has min <= max on both axes. This includes pentagons, and circles given that the host's hypot is not negative, as Math.hypot never is. |
| Kernel.PointsBoxBounds | src/components/Canvas.js:30-39 | A points box holds every point, and some point touches each of its four sides. |
| Kernel.PointsBoxUnique | src/components/Canvas.js:30-39 | Any box that holds every point and is touched on all four sides is the points box: it is the min/max box. |
| Kernel.MinOfBounds | src/components/Canvas.js:35-36 | `Math.min` over a non-empty list is a lower bound of the list and one of its elements. |
| Kernel.MaxOfBounds | src/components/Canvas.js:37-38 | `Math.max` over a non-empty list is an upper bound of the list and one of its elements. |
| Kernel.HitTest | src/components/Canvas.js:103-115 | A shape that is not a line is hit only inside its box, which is then well ordered. A shape with an empty point list is never hit. |
| Kernel.HitTestIsBoxTest | src/components/Canvas.js:103-115 | A shape that is not a line is hit exactly at the points inside its box, edges included. |
| Kernel.HitTestPoints | src/components/Canvas.js:111-113 | A poly-line or curve is hit at p exactly when some vertex lies at or left of p, some at or right, some at or above and some at or below. |
| Kernel.VerticesHit | src/components/Canvas.js:111-113 | Every vertex of a poly-line or curve is a hit. |
| Kernel.HitTestAnchors | src/components/Canvas.js:111-113 | A rectangle or triangle is hit exactly between its two anchors, in either drawing order. |
| Kernel.HitTestEllipse | src/components/Canvas.js:111-113 | An ellipse is hit exactly within its two per-axis radii of its centre. |
| Kernel.SquareBoxShape | src/components/Canvas.js:74-92 | A shift-drawn square's box has equal sides of min(abs dx, abs dy), has (x0, y0) as a corner, and extends in the drag's direction. |
| Kernel.EllipseBoxShape | src/components/Canvas.js:42-52 | An ellipse or circle box is centred at the anchor (x0, y0), with half-extents abs dx and abs dy, or the host's hypot for a circle. |
| Kernel.AnchorSpanSymmetric | src/components/Canvas.js:94-99 | The two-anchor box is the same with the anchors swapped, and it holds both anchors. |
| Kernel.BBoxTranslate | src/components/Canvas.js:29-100 | Moving every coordinate of a shape by (dx, dy) moves its box by (dx, dy), for every kind of shape. |
| Kernel.BBoxIgnoresStyle | src/components/Canvas.js:29-100 | The box depends only on the tool, the geometry and the square and circle flags. It ignores colours, stroke, rotation and selection. |
| Kernel.Opposite | src/components/Canvas.js:672 | The opposite handle `(h + 2) % 4` differs from h, and h is the opposite of it. |
| TextBBox.GetBBox | text.js:2-67 | `text.js`'s getBBox gives +inf, +inf, -inf, -inf for an empty point list, and four finite bounds for every other shape. |
| TextBBox.AgreesWithCanvas | text.js:2-67 | `text.js`'s getBBox returns the same four bounds as the editor's getBBox for every shape. An empty point list gives +inf, +inf, -inf, -inf in both. |
| TextBBox.MathBoxIsPointsBox | text.js:3-11 | The `Math.min`/`Math.max` fold over a point list's coordinates gives the kernel's points box. |
| TextBBox.MinFromIsMinOf | text.js:7-8 | A `Math.min` fold over a non-empty list is the list's minimum, met with the starting value. |
| TextBBox.MaxFromIsMaxOf | text.js:9-10 | A `Math.max` fold over a non-empty list is the list's maximum, joined with the starting value. |
| Transform.SnapCoord | src/components/Canvas.js:321-325 | A snapped coordinate is a multiple of 100 that lies within half a cell of the original. |
| Transform.Round | src/components/Canvas.js:323-324 | `Math.round` gives the integer within half of v, a half rounded up. |
| Transform.DragTranslates | src/components/Canvas.js:715-732 | Without snap, the dragged geometry is the snapshot translated by the pointer's travel, and its box moves by that travel. |
| Transform.DragSnapsToGrid | src/components/Canvas.js:734-749 | With snap, every coordinate of the snapshot moves by the pointer's travel plus one common offset. The box's min corner lands on the grid within half a cell of the unsnapped position, and the box keeps its width and height. |
| Transform.DragForgetsEarlierMoves | src/components/Canvas.js:715-732 | A drag step depends only on the snapshot and the latest pointer: a later move overwrites an earlier one completely. |
| Transform.Drag | src/components/Canvas.js:715-753 | A drag step changes only the target's geometry. |
| Transform.Resize | src/components/Canvas.js:661-708 | A resize step changes only the target's geometry. |
| Transform.ResizeFixesOpposite | src/components/Canvas.js:689-705 | Scaling keeps every coordinate that lies on the opposite corner's lines. With the pointer on the grabbed handle, it reproduces the snapshot. |
| Transform.ResizeLineMovesOneEnd | src/components/Canvas.js:675-680 | Resizing a line moves its first end for handle 0 and its second end for any other handle. The other end stays. |
| Transform.ResizeRoundKeepsCentre | src/components/Canvas.js:681-688 | Resizing a circle or pentagon keeps its centre anchor and puts the second anchor at the pointer. |
| Transform.ResizeSpansToPointer | src/components/Canvas.js:689-705 | For a rectangle, triangle, poly-line or curve with a non-degenerate snapshot box, the new box spans exactly from the fixed opposite corner to the pointer. |
| Transform.AxisScale | src/components/Canvas.js:689-705 | A coordinate on the fixed corner stays, a coordinate on the grabbed handle goes to the pointer, and the pointer on the handle changes nothing. |
| Transform.Rotate | src/components/Canvas.js:648-656 | A rotate step changes only the target's rotation. |
| Transform.RotateFromSnapshot | src/components/Canvas.js:648-656 | Rotation depends only on the gesture's start data and the latest pointer. The start position gives back the snapshot rotation, and the box is unchanged. |
| Seqs.Without | src/components/Canvas.js:921-923 | `filter(x => !drop.includes(x))` keeps exactly the elements not dropped and is no longer than its input; the order is kept by Seqs.WithoutAppend. |
| Seqs.IndexOf | src/components/Canvas.js:958 | `indexOf` is -1 exactly when the element is absent; otherwise it is the position of the first occurrence. |
| Seqs.InsertAt | src/components/Canvas.js:928 | `splice(i, 0, x)` puts x at position i with the prefix and suffix unchanged; an index past the end appends. |
| Seqs.WithoutAppend | src/components/Canvas.js:921-923 | Filtering distributes over concatenation, so the kept elements stay in order. |
| Seqs.OnlyOne | src/components/Canvas.js:955 | Filtering a duplicate-free list by a set that holds just one of its elements gives that element alone. |
| Document.SelectedIds | src/components/Canvas.js:955 | `shapes.filter(s => s.selected)` holds exactly the selected scene shapes. |
| Document.Deselect | src/components/Canvas.js:851 | Clearing the selection clears every scene shape's flag, touches nothing else, and leaves shapes outside the scene as they are. |
| Document.Commit | src/components/Canvas.js:843-855 | A commit keeps the document's identities valid. |
| Document.CommitAddsOne | src/components/Canvas.js:843-855 | A commit adds exactly one fresh shape on top, records one `add` entry naming it, and empties the redo stack. Every other shape keeps all but its selection. |
| Document.CommitSelectsNew | src/components/Canvas.js:851-852 | After a commit, the new shape is the only selected scene shape. |
| Document.Undo | src/components/Canvas.js:915-933 | Undo on an empty undo stack changes nothing. Otherwise it pops the top entry, pushes it on the redo stack and reverses it on the scene. Identities stay valid; heap and clipboard are kept. |
| Document.Redo | src/components/Canvas.js:936-951 | Redo on an empty redo stack changes nothing. Otherwise it pops the top entry, pushes it on the undo stack and replays it on the scene. Identities stay valid; heap and clipboard are kept. |
| Document.UndoCommit | src/components/Canvas.js:915-951 | Undo after a commit gives back the scene and undo stack from before the commit, with the `add` on the redo stack. Redo then gives exactly the committed document. |
| Document.UndoRedoAdd | src/components/Canvas.js:915-951 | Undo of an `add` whose shapes sit on top of the scene takes off exactly those shapes, and redo restores the document. |
| Document.EmptyStacks | src/components/Canvas.js:916-917 | Undo with an empty undo stack and redo with an empty redo stack change nothing. |
| Document.Reinsert | src/components/Canvas.js:925-930 | Splicing the removed shapes back in adds exactly them. |
| Document.Removals | src/components/Canvas.js:955-958 | The recorded indices point, in the scene before the delete, at the deleted shapes, in order. |
| Document.DeleteSelected | src/components/Canvas.js:954-963 | Delete removes exactly the selected scene shapes. It changes nothing at all exactly when none is selected. |
| Document.ReinsertRestores | src/components/Canvas.js:925-930 | Splicing each removed shape back at its recorded index rebuilds a duplicate-free list from what the filter kept. |
| Document.DeleteUndo | src/components/Canvas.js:915-963 | Delete then undo gives back the document: the shapes return to their old places, and only the redo stack holds the delete entry. |
| Document.DeleteUndoRedo | src/components/Canvas.js:915-963 | Redo after undoing a delete deletes the same shapes again. |
| Document.Copy | src/components/Canvas.js:966-969 | Copy changes only the clipboard. Entry i of the clipboard is the value of the i-th selected scene shape, in scene order. |
| Document.Values | src/components/Canvas.js:967-968 | The clipboard copies are the values of the named objects, in order. |
| Document.Pasted | src/components/Canvas.js:974-990 | A pasted copy is the original's geometry moved by (10, 10), then selected. Its rotation and style are kept. |
| Document.Paste | src/components/Canvas.js:972-1001 | Paste keeps identities valid. With an empty clipboard it changes nothing. |
| Document.PasteAdds | src/components/Canvas.js:972-1001 | Paste puts fresh copies on top, each the clipboard shape moved and selected, records one `add` naming them, and empties the redo stack. |
| Document.PasteMovesBoxes | src/components/Canvas.js:977-986 | Every pasted copy's box is its original's box moved by (10, 10). |
| Document.PasteSelectsCopies | src/components/Canvas.js:986-994 | After a paste, the selected scene shapes are exactly the copies. |
| Document.UndoPaste | src/components/Canvas.js:915-1001 | Undo of a paste takes the copies off again, and redo puts them back. |
| Document.CopyPaste | src/components/Canvas.js:966-1001 | Copy then paste adds the selected scene shapes, each moved by (10, 10) and selected, on top. |
| Document.Load | src/components/Canvas.js:502 | Loading keeps identities valid. |
| Document.LoadReplaces | src/components/Canvas.js:502 | After a load, the count is the number of shapes given. Each scene shape is a fresh object equal to the given shape, unselected. History and clipboard are kept. |
| Document.LoadSelectsNothing | src/components/Canvas.js:502 | After a load, no scene shape is selected. |
| Document.Clear | src/components/Canvas.js:505-506 | After clear the count is 0. Heap, history and clipboard are kept. |
| Document.CountTracksEdits | src/components/Canvas.js:503-504 | The count goes up by one on a commit and by the clipboard's length on a paste, and down by the number of selected scene shapes on a delete. An undo of a commit gives it back, and a load sets it to the number of shapes loaded. |
| Document.SyncStyle | src/components/Canvas.js:526-538 | The style sync keeps identities valid. |
| Document.SyncStyleRestyles | src/components/Canvas.js:526-538 | The sync restyles exactly the selected scene shapes and keeps the selection. |
| Document.SyncStyleKeepsBoxes | src/components/Canvas.js:526-538 | The style sync moves no box. |
| Document.SyncStyleIdempotent | src/components/Canvas.js:526-538 | A second sync with the same style changes nothing. |
| Interaction.Initial | src/components/Canvas.js:277-284 | The mounted editor holds no shapes, no gesture and no drawing. |
| Interaction.CornerAt | src/components/Canvas.js:595-613 | The handle found is the first of the four corners, in order, that the pointer is near. |
| Interaction.Probe | src/components/Canvas.js:566-628 | A press reaches a shape exactly on its grip or on a hit, and the grip is tested first. A hit off the grip is on corner k exactly when the box is non-empty and k is the first corner near the pointer; any other hit is on the body. |
| Interaction.Grab | src/components/Canvas.js:572-627 | A press starts a rotation exactly from the grip, from the snapshot's rotation about the box centre. It starts a resize from the reached corner exactly on a corner, and a drag from the press position otherwise. Resize and drag keep a selected copy of the shape. |
| Interaction.TopHit | src/components/Canvas.js:565-632 | The walk finds the highest-index shape the press reaches, with none above it, or finds nothing exactly when no shape is reached. |
| Interaction.SelectPress | src/components/Canvas.js:559-632 | A select-mode press changes only selection flags and the gesture. |
| Interaction.Down | src/components/Canvas.js:557-642 | A press keeps identities valid and changes no shape beyond selection flags. With a drawing tool, it leaves the document and the gesture alone. |
| Interaction.PressSelectsTopmost | src/components/Canvas.js:562-632 | After a select-mode click, no two different scene shapes are selected. The selected one is the topmost shape the press reaches and the gesture's target; with none reached, none is selected and the gesture is kept. |
| Interaction.PressStartsGesture | src/components/Canvas.js:562-627 | The gesture a select-mode press starts is the one that the topmost shape it reaches calls for, from its grip, corner or body. |
| Interaction.PressGrabs | src/components/Canvas.js:617-625 | A press that starts a drag snapshots the reached shape, selected, with its box unchanged. |
| Interaction.Move | src/components/Canvas.js:645-753 | A move changes no shape except the gesture's target, and with no gesture it changes nothing. |
| Interaction.MoveDrags | src/components/Canvas.js:715-753 | A move during a select-mode drag applies the drag step to the target. |
| Interaction.PressThenDrag | src/components/Canvas.js:617-749 | A press on a body and then a move: without snap, the box moves by the pointer's travel; with snap, it lands on the grid at the same size. No other shape changes. |
| Interaction.Up | src/components/Canvas.js:804-856 | A release keeps identities valid. |
| Interaction.Drawn | src/components/Canvas.js:831-842 | The committed shape has the tool, the press and release anchors, and shift's square or circle flag. |
| Interaction.ReleaseCommits | src/components/Canvas.js:804-856 | A release ends a gesture, or commits one shape exactly when a shape tool is drawing and the pointer has moved. The new shape is on top and the only one selected, one `add` entry is pushed and the redo stack emptied, and undo removes it. A release at the press position commits nothing. |
| Interaction.DblClickFinishes | src/components/Canvas.js:859-910 | The corrected double click (see Findings) finishes a poly-line or curve of two or more points as one selected shape on top, with one `add` entry pushed and the redo stack emptied. It then empties the point list and ends the drawing; otherwise it changes nothing. The handler as written gives the same editor except that after a poly-line `isDrawing` keeps its value. |
| Interaction.Traced | src/components/Canvas.js:862-867 | A finished poly-line or curve is a point-list shape with neither the square nor the circle flag. |
| Interaction.SelectClickAddsNothing | src/components/Canvas.js:557-632 | With no drawing under way, a select-mode click adds no shape. |
| Interaction.PolyLineThenSelectClick | src/components/Canvas.js:859-878 | Finishing a poly-line adds one shape, and a later select-mode click adds none. |
| Interaction.FinishPolyAsWritten | src/components/Canvas.js:859-878 | finishPoly as written keeps `isDrawing`. |
| Interaction.FinishPoly | src/components/Canvas.js:859-878 | The corrected finishPoly (see Findings) adds one shape for a poly-line of two or more points, empties the list and ends the drawing; otherwise nothing changes. |
| Interaction.FinishCurve | src/components/Canvas.js:881-910 | finishCurve adds one shape for a curve of two or more points, empties the list and ends the drawing; otherwise nothing changes. |
| Interaction.DblClickAsWritten | src/components/Canvas.js:1008-1009 | The double click as written runs finishPoly then finishCurve; only a finished curve ends the drawing. |
| Interaction.DblClick | src/components/Canvas.js:1008-1009 | The corrected double click (see Findings) adds one shape exactly when a poly-line or curve of two or more points is finished, and then ends the drawing. |
| Interaction.PhantomShapeAsWritten | src/components/Canvas.js:859-878 | As written, two poly-line presses, a double click and a select-mode click on empty canvas end with two shapes, the second of tool "select". |
| Interaction.LowerChar | src/components/Canvas.js:915 | `toLowerCase` leaves no upper-case ASCII letter, and a letter stays a letter. |
| Interaction.Key | src/components/Canvas.js:913-1001 | A key keeps the document's identities valid. |
| Interaction.KeyShortcuts | src/components/Canvas.js:913-1001 | ctrl+z undoes and ctrl+shift+z redoes, in either case. Delete deletes whatever the modifiers. ctrl+c copies and ctrl+v pastes. No other key without ctrl changes anything. |
| Interaction.KeyDeleteUndoRedo | src/components/Canvas.js:913-963 | Delete, ctrl+z, ctrl+shift+z: the undo brings the scene and undo stack back, and the redo deletes again. |

## Left out

- Rendering is not modelled: `drawShape`, `redrawAll`, the grid, the selection handles, and the overlay previews of the move handler (src/components/Canvas.js:756-802). They draw and change no state.
- Export to PNG, PDF and JSON is not modelled: it is file and browser I/O.
- `isPointInStroke` is not modelled, nor the line branch of `hitTest`. A line's hit test is the host's `inStroke` answer.
- `Math.hypot`, `Math.cos`, `Math.sin` and `Math.atan2` are not computed; they are host functions. The exception is `Math.hypot(..) < 6` for the handles, which `Kernel.Near` decides exactly as a squared distance below 36. Floating-point rounding is not modelled: coordinates are exact reals.
- Interaction.LowerChar: lower-cases ASCII letters only, where `toLowerCase` follows Unicode. The results compare the same against "z", "c" and "v".
- Transform.AxisScale: on a snapshot box of zero width or height the source divides by zero and writes `Infinity` or `NaN` coordinates. The model keeps the snapshot coordinate on that axis.
- Interaction.Move: a gesture whose index has left the scene (a delete during a drag) makes the source throw on the undefined target. The model changes nothing.
- React's effect lifecycle is not modelled: the listeners are re-registered whenever a prop changes. The model passes the current props (`Env`) to every event instead.
- The `snapToGrid` prop is not modelled because the handlers never read it: snapping follows `showGrid` and the shift key.
- Deep copies (`JSON.parse(JSON.stringify(...))`) are value copies.
- Load takes shape values: JSON parsing and missing fields are not modelled.
- Objects are never freed from the heap, because the history can still refer to them.
- Document.DeleteUndo: stated for scenes in which no shape object occurs twice. Whether every reachable scene has this property is not proved. The same precondition holds for Document.DeleteUndoRedo and Interaction.KeyDeleteUndoRedo.
- Document.Pasted: `copy.rotation || 0` keeps the rotation, since a missing rotation is 0 in the model.
- Interaction.Traced: a finished poly-line or curve has rotation 0, where the source leaves it undefined; the renderer reads undefined as 0.

## Findings

| source | as written | input that shows it | evidently intended | confidence | as-written member | corrected member |
|---|---|---|---|---|---|---|
| src/components/Canvas.js:859-878 | `finishPoly` commits the poly-line but never clears `isDrawing`. `finishCurve` (line 909) and the release handler (line 855) both clear it. | With the poly-line tool: press at (1, 1), press at (2, 2), double click. With the select tool: press and release at (300, 300) on empty canvas. The release sees `isDrawing` still set and `startPos` at (0, 0), and commits a second shape of tool "select" from (0, 0) to (300, 300). | Finishing a poly-line ends the drawing, so a later select-mode click adds nothing. The model's `FinishPoly` and `DblClick` are this corrected handler; `FinishPolyAsWritten` and `DblClickAsWritten` are the code as written. | medium; not executed | Interaction.PhantomShapeAsWritten | Interaction.PolyLineThenSelectClick |
