/**
  The editor's document: the shape list `shapesRef`, the `undoStack` and
  `redoStack`, and the `clipboardRef` of src/components/Canvas.js, with the
  operations that change them outside a pointer gesture (commit of a new shape,
  undo, redo, delete, copy, paste, load, clear, count, style sync).

  JavaScript compares shapes by reference: undo of an `add` filters out the
  very objects it recorded, and a delete records the objects it took out.
  Reference identity is modelled with a heap: `heap[id]` is the shape object
  with identity `id`, the scene and the history entries hold identities, and
  a new object is appended to the heap. The clipboard holds deep copies,
  that is, plain shape values.
 */
module Document {
  import opened Shapes
  import opened Seqs
  import Kernel

  /** The offset a paste moves its copies by, src/components/Canvas.js:977. */
  const PasteOffset: real := 10.0

  /** One shape taken out by a delete, with the index `indexOf` gave it before the removal. */
  datatype Removed = Removed(id: Id, index: nat)

  /** A history entry: `{type: 'add', shapes}` or `{type: 'delete', shapes, indices}`. The
      source keeps the delete's shapes and indices as two lists of equal length; here they
      are one list of pairs. */
  datatype Entry =
    | Add(ids: seq<Id>)
    | Delete(removed: seq<Removed>)

  /** `heap[id]` is the shape object with identity `id`; objects are never freed, and a new
      object takes the next identity, `|heap|`. */
  datatype Doc = Doc(
    heap: seq<Shape>,
    scene: seq<Id>,        // shapesRef.current, bottom to top
    undo: seq<Entry>,      // undoStack.current, top at the end
    redo: seq<Entry>,      // redoStack.current, top at the end
    clipboard: seq<Shape>) // clipboardRef.current

  /** The identities a delete entry names. */
  function RemovedIds(rs: seq<Removed>): (ids: seq<Id>)
    ensures |ids| == |rs| && forall i :: 0 <= i < |rs| ==> ids[i] == rs[i].id
  {
    seq(|rs|, i requires 0 <= i < |rs| => rs[i].id)
  }

  /** The shape objects an entry refers to. */
  function EntryIds(e: Entry): seq<Id>
  {
    match e
    case Add(ids) => ids
    case Delete(rs) => RemovedIds(rs)
  }

  /** Every identity in the list names an object of the heap. */
  predicate Named(heap: seq<Shape>, ids: seq<Id>)
  {
    forall id :: id in ids ==> id < |heap|
  }

  /** Every identity in use names an object. */
  predicate Valid(d: Doc)
  {
    && Named(d.heap, d.scene)
    && (forall e :: e in d.undo ==> Named(d.heap, EntryIds(e)))
    && (forall e :: e in d.redo ==> Named(d.heap, EntryIds(e)))
  }

  /** The objects whose `selected` flag is set. */
  function Picked(d: Doc): set<Id>
  {
    set id: Id | id < |d.heap| && d.heap[id].selected
  }

  /** The selected shapes of the scene, in scene order: `shapes.filter(s => s.selected)`. */
  function SelectedIds(d: Doc): (ids: seq<Id>)
    ensures forall id :: id in ids <==> id in d.scene && id < |d.heap| && d.heap[id].selected
  {
    Only(d.scene, Picked(d))
  }

  /** `shapes.forEach(s => s.selected = false)`: clears the flag of every scene shape and
      of nothing else. */
  function Deselect(heap: seq<Shape>, scene: seq<Id>): (r: seq<Shape>)
    ensures |r| == |heap|
    ensures forall id :: 0 <= id < |heap| ==> r[id].(selected := heap[id].selected) == heap[id]
    ensures forall id :: 0 <= id < |heap| ==> (r[id].selected <==> heap[id].selected && id !in scene)
  {
    seq(|heap|, id requires 0 <= id < |heap| => if id in scene then heap[id].(selected := false) else heap[id])
  }

  /** n identities from `next` on. */
  function Fresh(next: Id, n: nat): (ids: seq<Id>)
    ensures |ids| == n && forall i :: 0 <= i < n ==> ids[i] == next + i
  {
    seq(n, i requires 0 <= i < n => next + i)
  }

  // ---------------------------------------------------------------------------
  // Commit (src/components/Canvas.js:823-855, 859-910)
  // ---------------------------------------------------------------------------

  /** Push a new shape, record `add`, clear the redo stack, and make the new shape the only
      selected one. */
  function Commit(d: Doc, s: Shape): (r: Doc)
    ensures Valid(d) ==> Valid(r)
  {
    var id := |d.heap|;
    Doc(Deselect(d.heap, d.scene) + [s.(selected := true)], d.scene + [id],
        d.undo + [Add([id])], [], d.clipboard)
  }

  /** A commit adds exactly one shape, on top and fresh; the history gains one `add` entry
      naming it and the redo stack is emptied; every other shape keeps everything but its
      selection. */
  lemma CommitAddsOne(d: Doc, s: Shape)
    requires Valid(d)
    ensures var r := Commit(d, s); var n := |d.heap|;
      && r.scene == d.scene + [n] && n !in d.scene
      && r.heap[n] == s.(selected := true)
      && r.undo == d.undo + [Add([n])] && r.redo == []
      && forall id :: 0 <= id < n ==> r.heap[id].(selected := d.heap[id].selected) == d.heap[id]
  {
  }

  /** After a commit the new shape is the one selected shape of the scene. */
  lemma CommitSelectsNew(d: Doc, s: Shape)
    requires Valid(d)
    ensures SelectedIds(Commit(d, s)) == [|d.heap|]
  {
    var r := Commit(d, s);
    var n := |d.heap|;
    assert forall x :: x in d.scene ==> x !in Picked(r) by {
      forall x | x in d.scene ensures x !in Picked(r) {
        assert x < n;
      }
    }
    assert n in Picked(r);
    OnlyNone(d.scene, Picked(r));
    OnlySnoc(d.scene, n, Picked(r));
  }

  // ---------------------------------------------------------------------------
  // Undo and redo (src/components/Canvas.js:915-952)
  // ---------------------------------------------------------------------------

  /** Undoing a delete: `shapes.forEach((s, i) => scene.splice(indices[i], 0, s))`, written
      from the last removal backwards. */
  function Reinsert(s: seq<Id>, rs: seq<Removed>): (r: seq<Id>)
    ensures |r| == |s| + |rs|
    ensures forall x :: x in r <==> x in s || x in RemovedIds(rs)
    decreases |rs|
  {
    if rs == [] then s
    else
      var init, last := rs[..|rs| - 1], rs[|rs| - 1];
      assert RemovedIds(rs) == RemovedIds(init) + [last.id];
      InsertAt(Reinsert(s, init), last.index, last.id)
  }

  /** An entry reversed on the scene: an `add` filters its shapes out, a `delete` splices
      them back in. */
  function Unapply(scene: seq<Id>, e: Entry): (r: seq<Id>)
    ensures forall x :: x in r ==> x in scene || x in EntryIds(e)
  {
    match e
    case Add(ids) => Without(scene, set x | x in ids)
    case Delete(rs) => Reinsert(scene, rs)
  }

  /** An entry replayed on the scene: an `add` pushes its shapes, a `delete` filters them out. */
  function Apply(scene: seq<Id>, e: Entry): (r: seq<Id>)
    ensures forall x :: x in r ==> x in scene || x in EntryIds(e)
  {
    match e
    case Add(ids) => scene + ids
    case Delete(rs) => Without(scene, set x | x in RemovedIds(rs))
  }

  /** Pop the undo stack, reverse the entry on the scene, push it on the redo stack; an empty
      undo stack changes nothing. */
  function Undo(d: Doc): (r: Doc)
    ensures Valid(d) ==> Valid(r)
    ensures r.heap == d.heap && r.clipboard == d.clipboard
    ensures |r.undo| + |r.redo| == |d.undo| + |d.redo|
    ensures d.undo == [] ==> r == d
    ensures d.undo != [] ==>
      && r.undo + [d.undo[|d.undo| - 1]] == d.undo
      && r.redo == d.redo + [d.undo[|d.undo| - 1]]
      && r.scene == Unapply(d.scene, d.undo[|d.undo| - 1])
  {
    if d.undo == [] then d
    else
      var n := |d.undo|;
      var e := d.undo[n - 1];
      assert forall x :: x in d.undo[..n - 1] ==> x in d.undo;
      d.(scene := Unapply(d.scene, e), undo := d.undo[..n - 1], redo := d.redo + [e])
  }

  /** Pop the redo stack, replay the entry on the scene, push it on the undo stack; an empty
      redo stack changes nothing. */
  function Redo(d: Doc): (r: Doc)
    ensures Valid(d) ==> Valid(r)
    ensures r.heap == d.heap && r.clipboard == d.clipboard
    ensures |r.undo| + |r.redo| == |d.undo| + |d.redo|
    ensures d.redo == [] ==> r == d
    ensures d.redo != [] ==>
      && r.redo + [d.redo[|d.redo| - 1]] == d.redo
      && r.undo == d.undo + [d.redo[|d.redo| - 1]]
      && r.scene == Apply(d.scene, d.redo[|d.redo| - 1])
  {
    if d.redo == [] then d
    else
      var n := |d.redo|;
      var e := d.redo[n - 1];
      assert forall x :: x in d.redo[..n - 1] ==> x in d.redo;
      d.(scene := Apply(d.scene, e), undo := d.undo + [e], redo := d.redo[..n - 1])
  }

  /** Undoing an `add` whose shapes sit on top of the scene, above none of their own, takes
      exactly them off; redo then restores the document. */
  lemma UndoRedoAdd(c: Doc, below: seq<Id>, ids: seq<Id>)
    requires c.undo != [] && c.undo[|c.undo| - 1] == Add(ids)
    requires c.scene == below + ids
    requires forall x :: x in below ==> x !in ids
    ensures Undo(c) == c.(scene := below, undo := c.undo[..|c.undo| - 1], redo := c.redo + [Add(ids)])
    ensures Redo(Undo(c)) == c
  {
    var gone := set x | x in ids;
    WithoutAppend(below, ids, gone);
    WithoutAll(ids, gone);
    WithoutNone(below, gone);
    assert Unapply(c.scene, Add(ids)) == below;
    var u := Undo(c);
    assert u.redo[..|u.redo| - 1] == c.redo;
    StackPop(c.undo);
  }

  /** Popping the top entry and pushing it back gives the stack back. */
  lemma StackPop(st: seq<Entry>)
    requires st != []
    ensures st[..|st| - 1] + [st[|st| - 1]] == st
  {
  }

  /** Undo of a commit takes the new shape off the scene again, and redo puts it back: the
      document is then exactly what the commit made. */
  lemma UndoCommit(d: Doc, s: Shape)
    requires Valid(d)
    ensures var u := Undo(Commit(d, s));
      && u.scene == d.scene && u.undo == d.undo && u.redo == [Add([|d.heap|])]
      && Redo(u) == Commit(d, s)
  {
    var c := Commit(d, s);
    assert c.undo[..|c.undo| - 1] == d.undo;
    UndoRedoAdd(c, d.scene, [|d.heap|]);
  }

  // ---------------------------------------------------------------------------
  // Delete (src/components/Canvas.js:954-963)
  // ---------------------------------------------------------------------------

  /** `deleted.map(s => shapes.indexOf(s))`, paired with the shapes. */
  function Removals(s: seq<Id>, gone: seq<Id>): (rs: seq<Removed>)
    requires forall x :: x in gone ==> x in s
    ensures RemovedIds(rs) == gone
    ensures forall i :: 0 <= i < |rs| ==> rs[i].index < |s| && s[rs[i].index] == gone[i]
  {
    seq(|gone|, i requires 0 <= i < |gone| => Removed(gone[i], IndexOf(s, gone[i]) as nat))
  }

  /** Delete takes every selected shape off the scene and records them with their indices;
      with nothing selected it changes nothing. */
  function DeleteSelected(d: Doc): (r: Doc)
    ensures Valid(d) ==> Valid(r)
    ensures r.heap == d.heap
    ensures forall id :: id in r.scene <==> id in d.scene && id !in Picked(d)
    ensures r == d <==> SelectedIds(d) == []
  {
    var gone := SelectedIds(d);
    if gone == [] then d
    else
      var rs := Removals(d.scene, gone);
      Doc(d.heap, Without(d.scene, Picked(d)), d.undo + [Delete(rs)], [], d.clipboard)
  }

  /** Appending an element below which every removal index stays in range commutes with
      reinserting. */
  lemma {:induction false} ReinsertAppend(w: seq<Id>, x: Id, rs: seq<Removed>)
    requires forall j :: 0 <= j < |rs| ==> rs[j].index <= |w| + j
    ensures Reinsert(w + [x], rs) == Reinsert(w, rs) + [x]
    decreases |rs|
  {
    if rs != [] {
      var init, last := rs[..|rs| - 1], rs[|rs| - 1];
      assert forall j :: 0 <= j < |init| ==> init[j] == rs[j];
      ReinsertAppend(w, x, init);
      InsertAtAppend(Reinsert(w, init), last.index, last.id, x);
    }
  }

  /** An element appended after all deleted ones does not move their indices. */
  lemma RemovalsSnocKept(p: seq<Id>, x: Id, gone: seq<Id>)
    requires forall y :: y in gone ==> y in p
    ensures Removals(p + [x], gone) == Removals(p, gone)
  {
    forall i | 0 <= i < |gone| ensures IndexOf(p + [x], gone[i]) == IndexOf(p, gone[i]) {
      IndexOfAppend(p, [x], gone[i]);
    }
  }

  /** A deleted element appended to the list is recorded at the old length. */
  lemma RemovalsSnocGone(p: seq<Id>, x: Id, gone: seq<Id>)
    requires forall y :: y in gone ==> y in p
    requires x !in p
    ensures Removals(p + [x], gone + [x]) == Removals(p, gone) + [Removed(x, |p|)]
  {
    var g := gone + [x];
    forall i | 0 <= i < |g| ensures IndexOf(p + [x], g[i]) == if i < |gone| then IndexOf(p, gone[i]) else |p| {
      if i < |gone| {
        IndexOfAppend(p, [x], gone[i]);
      } else {
        IndexOfLast(p, x);
      }
    }
  }

  /** Reinserting the removals of the filter by `sel` into what the filter kept gives back
      the list, and every removal index is in range when its turn comes. */
  predicate Restores(s: seq<Id>, sel: set<Id>)
  {
    var rs := Removals(s, Only(s, sel));
    && Reinsert(Without(s, sel), rs) == s
    && forall j :: 0 <= j < |rs| ==> rs[j].index <= |Without(s, sel)| + j
  }

  /** The inductive step when the appended element is deleted: it is reinserted last, at the
      end. */
  lemma RestoresGone(p: seq<Id>, x: Id, sel: set<Id>)
    requires x !in p && x in sel && Restores(p, sel)
    ensures Restores(p + [x], sel)
  {
    var s := p + [x];
    var gone, w := Only(p, sel), Without(p, sel);
    var rs := Removals(p, gone);
    assert Only(s, sel) == gone + [x] by {
      OnlySnoc(p, x, sel);
    }
    assert Without(s, sel) == w by {
      WithoutSnoc(p, x, sel);
    }
    var rs' := Removals(s, gone + [x]);
    assert rs' == rs + [Removed(x, |p|)] by {
      RemovalsSnocGone(p, x, gone);
    }
    assert Reinsert(w, rs') == s by {
      assert rs'[..|rs|] == rs;
      assert Reinsert(w, rs') == InsertAt(Reinsert(w, rs), |p|, x);
    }
    assert forall j :: 0 <= j < |rs'| ==> rs'[j].index <= |w| + j by {
      FilterLengths(p, sel);
      forall j | 0 <= j < |rs'| ensures rs'[j].index <= |w| + j {
        if j < |rs| {
          assert rs'[j] == rs[j];
        }
      }
    }
  }

  /** The inductive step when the appended element is kept: it stays on top throughout. */
  lemma RestoresKept(p: seq<Id>, x: Id, sel: set<Id>)
    requires x !in sel && Restores(p, sel)
    ensures Restores(p + [x], sel)
  {
    var s := p + [x];
    OnlySnoc(p, x, sel);
    WithoutSnoc(p, x, sel);
    var gone, w := Only(p, sel), Without(p, sel);
    var rs := Removals(p, gone);
    assert Only(s, sel) == gone;
    assert Without(s, sel) == w + [x];
    RemovalsSnocKept(p, x, gone);
    assert Removals(s, gone) == rs;
    ReinsertAppend(w, x, rs);
  }

  /** Reinserting what a delete removed undoes it, when no shape occurs twice. */
  lemma {:induction false} ReinsertRestores(s: seq<Id>, sel: set<Id>)
    requires NoDup(s)
    ensures Restores(s, sel)
    decreases |s|
  {
    if s != [] {
      var p, x := s[..|s| - 1], s[|s| - 1];
      assert s == p + [x];
      NoDupInit(s);
      ReinsertRestores(p, sel);
      if x in sel {
        RestoresGone(p, x, sel);
      } else {
        RestoresKept(p, x, sel);
      }
    }
  }

  /** Delete followed by undo restores the document, the deleted shapes back at their
      places; only the redo stack now holds the delete entry. */
  lemma DeleteUndo(d: Doc)
    requires NoDup(d.scene) && SelectedIds(d) != []
    ensures var r := DeleteSelected(d);
      && r.undo != [] && Undo(r) == d.(redo := [r.undo[|r.undo| - 1]])
  {
    ReinsertRestores(d.scene, Picked(d));
  }

  /** Redo after undoing a delete deletes the same shapes again. */
  lemma DeleteUndoRedo(d: Doc)
    requires NoDup(d.scene) && SelectedIds(d) != []
    ensures Redo(Undo(DeleteSelected(d))) == DeleteSelected(d)
  {
    DeleteUndo(d);
    var gone := SelectedIds(d);
    var rs := Removals(d.scene, gone);
    assert RemovedIds(rs) == gone;
    WithoutAgree(d.scene, (set x | x in gone), Picked(d));
  }

  /** Undo and redo on an empty stack change nothing. */
  lemma EmptyStacks(d: Doc)
    ensures d.undo == [] ==> Undo(d) == d
    ensures d.redo == [] ==> Redo(d) == d
  {
  }

  // ---------------------------------------------------------------------------
  // Copy and paste (src/components/Canvas.js:966-1001)
  // ---------------------------------------------------------------------------

  /** Copy replaces the clipboard by the selected scene shapes, in scene order; nothing else
      changes. */
  function Copy(d: Doc): (r: Doc)
    ensures r == d.(clipboard := r.clipboard)
    ensures |r.clipboard| == |SelectedIds(d)|
    ensures forall i :: 0 <= i < |r.clipboard| ==> r.clipboard[i].selected
    ensures forall i :: 0 <= i < |r.clipboard| ==> SelectedIds(d)[i] in d.scene && r.clipboard[i] == d.heap[SelectedIds(d)[i]]
  {
    d.(clipboard := Values(d.heap, SelectedIds(d)))
  }

  /** The shape values the identities name, in order: the deep copy of the clipboard. */
  function Values(heap: seq<Shape>, ids: seq<Id>): (vs: seq<Shape>)
    requires Named(heap, ids)
    ensures |vs| == |ids| && forall i :: 0 <= i < |ids| ==> ids[i] in ids && vs[i] == heap[ids[i]]
  {
    seq(|ids|, i requires 0 <= i < |ids| => assert ids[i] in ids; heap[ids[i]])
  }

  /** A pasted copy: moved by the paste offset and selected. `copy.rotation || 0` keeps the
      rotation. */
  function Pasted(s: Shape): (c: Shape)
    ensures c.selected && c.(geom := s.geom, selected := s.selected) == s
    ensures c.geom == Translate(s.geom, PasteOffset, PasteOffset)
  {
    s.(geom := Translate(s.geom, PasteOffset, PasteOffset), selected := true)
  }

  /** The copies a paste makes of the clipboard, in clipboard order. */
  function PastedAll(clip: seq<Shape>): (cs: seq<Shape>)
    ensures |cs| == |clip| && forall i :: 0 <= i < |clip| ==> cs[i] == Pasted(clip[i])
  {
    seq(|clip|, i requires 0 <= i < |clip| => Pasted(clip[i]))
  }

  /** Paste adds a moved, selected copy of every clipboard shape on top, deselects the rest
      and records one `add` entry; an empty clipboard changes nothing. */
  function Paste(d: Doc): (r: Doc)
    ensures Valid(d) ==> Valid(r)
    ensures d.clipboard == [] ==> r == d
  {
    var n := |d.clipboard|;
    if n == 0 then d
    else
      var ids := Fresh(|d.heap|, n);
      Doc(Deselect(d.heap, d.scene) + PastedAll(d.clipboard), d.scene + ids, d.undo + [Add(ids)], [],
          d.clipboard)
  }

  /** After a paste the copies are on top and fresh, each the clipboard shape moved by
      (10, 10) and selected; the history gains one `add` entry naming them and the redo stack
      is emptied. */
  lemma PasteAdds(d: Doc)
    requires d.clipboard != []
    ensures var r := Paste(d); var n := |d.clipboard|; var ids := Fresh(|d.heap|, n);
      && r.scene == d.scene + ids
      && (forall id :: id in ids ==> id >= |d.heap|)
      && (forall i :: 0 <= i < n ==> r.heap[ids[i]] == Pasted(d.clipboard[i]))
      && r.undo == d.undo + [Add(ids)] && r.redo == []
  {
    var n := |d.clipboard|;
    var ids := Fresh(|d.heap|, n);
    PasteHeap(d);
    forall i | 0 <= i < n ensures Paste(d).heap[ids[i]] == Pasted(d.clipboard[i]) {
      assert ids[i] == |d.heap| + i;
      assert Paste(d).heap[|d.heap| + i] == Pasted(d.clipboard[|d.heap| + i - |d.heap|]);
    }
    forall id | id in ids ensures id >= |d.heap| {
      assert |d.heap| <= id;
    }
  }

  /** The document after a paste: the old objects, deselected, then the copies; the fresh
      identities on top of the scene; one `add` entry; an empty redo stack. */
  lemma PasteHeap(d: Doc)
    requires d.clipboard != []
    ensures var r := Paste(d); var ids := Fresh(|d.heap|, |d.clipboard|);
      && r.scene == d.scene + ids && r.undo == d.undo + [Add(ids)] && r.redo == []
      && |r.heap| == |d.heap| + |d.clipboard|
      && forall k :: |d.heap| <= k < |r.heap| ==> r.heap[k] == Pasted(d.clipboard[k - |d.heap|])
  {
    var copies := PastedAll(d.clipboard);
    var base := Deselect(d.heap, d.scene);
    var heap := Paste(d).heap;
    assert heap == base + copies;
    forall k | |d.heap| <= k < |heap| ensures heap[k] == Pasted(d.clipboard[k - |d.heap|]) {
      assert heap[k] == copies[k - |base|];
    }
  }

  /** Every pasted copy's box is its original's box moved by (10, 10). */
  lemma PasteMovesBoxes(d: Doc, h: Host)
    requires Valid(d) && d.clipboard != []
    ensures var r := Paste(d);
      forall i :: 0 <= i < |d.clipboard| ==>
        Kernel.BBox(r.heap[|d.heap| + i], h) == ShiftBox(Kernel.BBox(d.clipboard[i], h), PasteOffset, PasteOffset)
  {
    var r := Paste(d);
    forall i | 0 <= i < |d.clipboard|
      ensures Kernel.BBox(r.heap[|d.heap| + i], h) == ShiftBox(Kernel.BBox(d.clipboard[i], h), PasteOffset, PasteOffset)
    {
      var c := d.clipboard[i];
      assert r.heap[|d.heap| + i] == Pasted(c);
      Kernel.BBoxTranslate(c, PasteOffset, PasteOffset, h);
      Kernel.BBoxIgnoresStyle(Pasted(c), c.(geom := Translate(c.geom, PasteOffset, PasteOffset)), h);
    }
  }

  /** After a paste the copies are exactly the selected shapes of the scene. */
  lemma PasteSelectsCopies(d: Doc)
    requires Valid(d) && d.clipboard != []
    ensures SelectedIds(Paste(d)) == Fresh(|d.heap|, |d.clipboard|)
  {
    var r := Paste(d);
    var ids := Fresh(|d.heap|, |d.clipboard|);
    var sel := Picked(r);
    assert r.scene == d.scene + ids;
    assert Only(d.scene, sel) == [] by {
      forall x | x in d.scene ensures x !in sel {
        assert x < |d.heap|;
      }
      OnlyNone(d.scene, sel);
    }
    assert Only(ids, sel) == ids by {
      forall x | x in ids ensures x in sel {
        assert r.heap[x] == Pasted(d.clipboard[x - |d.heap|]);
      }
      OnlyAll(ids, sel);
    }
    OnlyAppend(d.scene, ids, sel);
  }

  /** Undo of a paste takes the copies off again, and redo puts them back. */
  lemma UndoPaste(d: Doc)
    requires Valid(d) && d.clipboard != []
    ensures var u := Undo(Paste(d));
      && u.scene == d.scene && u.undo == d.undo && u.redo == [Add(Fresh(|d.heap|, |d.clipboard|))]
      && Redo(u) == Paste(d)
  {
    var ids := Fresh(|d.heap|, |d.clipboard|);
    var p := Paste(d);
    PasteAdds(d);
    assert p.undo[..|p.undo| - 1] == d.undo;
    assert forall x :: x in d.scene ==> x !in ids by {
      forall x | x in d.scene ensures x !in ids {
        assert x < |d.heap|;
      }
    }
    UndoRedoAdd(p, d.scene, ids);
  }

  /** Copy then paste: the pasted shapes are the selected scene shapes moved by (10, 10). */
  lemma CopyPaste(d: Doc)
    requires Valid(d) && SelectedIds(d) != []
    ensures var sel := SelectedIds(d); var r := Paste(Copy(d));
      && r.scene == d.scene + Fresh(|d.heap|, |sel|)
      && forall i :: 0 <= i < |sel| ==> r.heap[|d.heap| + i] == Pasted(d.heap[sel[i]])
  {
    var sel := SelectedIds(d);
    assert Copy(d) == d.(clipboard := Values(d.heap, sel));
    PasteValues(d, sel);
  }

  /** Pasting the values of some identities puts their moved copies on top, in order. */
  lemma PasteValues(d: Doc, ids: seq<Id>)
    requires Named(d.heap, ids) && ids != []
    ensures var r := Paste(d.(clipboard := Values(d.heap, ids)));
      && r.scene == d.scene + Fresh(|d.heap|, |ids|)
      && forall i :: 0 <= i < |ids| ==> r.heap[|d.heap| + i] == Pasted(d.heap[ids[i]])
  {
    var clip := Values(d.heap, ids);
    var c := d.(clipboard := clip);
    PasteHeap(c);
    var heap := Paste(c).heap;
    forall i | 0 <= i < |ids| ensures heap[|d.heap| + i] == Pasted(d.heap[ids[i]]) {
      var k := |d.heap| + i;
      assert k - |d.heap| == i;
      assert heap[k] == Pasted(clip[i]);
    }
  }

  // ---------------------------------------------------------------------------
  // Load, clear, count, style sync (src/components/Canvas.js:502-506, 530-537)
  // ---------------------------------------------------------------------------

  /** `arr.map(s => ({...s, selected: false}))` */
  function Unselected(arr: seq<Shape>): (r: seq<Shape>)
    ensures |r| == |arr| && forall i :: 0 <= i < |arr| ==> r[i] == arr[i].(selected := false)
  {
    seq(|arr|, i requires 0 <= i < |arr| => arr[i].(selected := false))
  }

  /** `loadShapes`: the scene becomes fresh objects equal to the given shapes, unselected.
      The history and the clipboard are kept. */
  function Load(d: Doc, arr: seq<Shape>): (r: Doc)
    ensures Valid(d) ==> Valid(r)
  {
    var n := |arr|;
    d.(heap := d.heap + Unselected(arr), scene := Fresh(|d.heap|, n))
  }

  /** `clearShapes` */
  function Clear(d: Doc): (r: Doc)
    ensures Valid(d) ==> Valid(r)
    ensures Count(r) == 0
    ensures r.heap == d.heap && r.undo == d.undo && r.redo == d.redo && r.clipboard == d.clipboard
  {
    d.(scene := [])
  }

  /** `getShapeCount` */
  function Count(d: Doc): nat
  {
    |d.scene|
  }

  /** After a load the count is the number of shapes given, each scene shape is a fresh
      object equal to the given one unselected, and the history and clipboard are as before. */
  lemma LoadReplaces(d: Doc, arr: seq<Shape>)
    ensures var r := Load(d, arr);
      && Count(r) == |arr| && NoDup(r.scene)
      && (forall id :: id in r.scene ==> |d.heap| <= id < |r.heap|)
      && (forall i :: 0 <= i < |arr| ==> r.heap[r.scene[i]] == arr[i].(selected := false))
      && r.undo == d.undo && r.redo == d.redo && r.clipboard == d.clipboard
  {
    var r := Load(d, arr);
    var vs := Unselected(arr);
    forall i | 0 <= i < |arr| ensures r.heap[r.scene[i]] == arr[i].(selected := false) {
      assert r.scene[i] == |d.heap| + i;
      assert r.heap[|d.heap| + i] == vs[i];
    }
  }

  /** After a load nothing is selected. */
  lemma LoadSelectsNothing(d: Doc, arr: seq<Shape>)
    ensures SelectedIds(Load(d, arr)) == []
  {
    var r := Load(d, arr);
    var vs := Unselected(arr);
    forall x | x in r.scene ensures x !in Picked(r) {
      assert r.heap[x] == vs[x - |d.heap|];
    }
    OnlyNone(r.scene, Picked(r));
  }

  /** How the edits change the count: a commit adds one, a paste adds the clipboard's
      length, a delete takes off the selected scene shapes, an undo of a commit gives the
      count back, and a load gives the number of shapes loaded. */
  lemma CountTracksEdits(d: Doc, s: Shape, arr: seq<Shape>)
    requires Valid(d)
    ensures Count(Commit(d, s)) == Count(d) + 1
    ensures Count(Paste(d)) == Count(d) + |d.clipboard|
    ensures Count(DeleteSelected(d)) == Count(d) - |SelectedIds(d)|
    ensures Count(Undo(Commit(d, s))) == Count(d)
    ensures Count(Load(d, arr)) == |arr|
  {
    FilterLengths(d.scene, Picked(d));
    UndoCommit(d, s);
  }

  /** The style-sync effect: every selected scene shape takes the current stroke width, line
      colour and fill colour. */
  function SyncStyle(d: Doc, width: real, line: string, fill: string): (r: Doc)
    ensures Valid(d) ==> Valid(r)
  {
    d.(heap := seq(|d.heap|, id requires 0 <= id < |d.heap| =>
      if id in d.scene && d.heap[id].selected
      then d.heap[id].(strokeWidth := width, lineColor := line, fillColor := fill)
      else d.heap[id]))
  }

  /** Style sync restyles exactly the selected scene shapes, changes nothing else about
      them or about any other shape, and keeps the selection. */
  lemma SyncStyleRestyles(d: Doc, width: real, line: string, fill: string)
    ensures var r := SyncStyle(d, width, line, fill);
      && |r.heap| == |d.heap| && r == d.(heap := r.heap)
      && Picked(r) == Picked(d)
      && forall id :: 0 <= id < |d.heap| ==>
           var s := d.heap[id];
           r.heap[id] == if id in d.scene && s.selected then s.(strokeWidth := width, lineColor := line, fillColor := fill) else s
  {
  }

  /** Style sync keeps every shape's box. */
  lemma SyncStyleKeepsBoxes(d: Doc, width: real, line: string, fill: string, h: Host)
    ensures var r := SyncStyle(d, width, line, fill);
      forall id :: 0 <= id < |d.heap| ==> Kernel.BBox(r.heap[id], h) == Kernel.BBox(d.heap[id], h)
  {
    var r := SyncStyle(d, width, line, fill);
    forall id | 0 <= id < |d.heap| ensures Kernel.BBox(r.heap[id], h) == Kernel.BBox(d.heap[id], h) {
      Kernel.BBoxIgnoresStyle(r.heap[id], d.heap[id], h);
    }
  }

  /** A second sync with the same style changes nothing. */
  lemma SyncStyleIdempotent(d: Doc, width: real, line: string, fill: string)
    ensures var r := SyncStyle(d, width, line, fill);
      SyncStyle(r, width, line, fill) == r
  {
    var r := SyncStyle(d, width, line, fill);
    var r2 := SyncStyle(r, width, line, fill);
    assert r2.heap == r.heap;
  }
}
