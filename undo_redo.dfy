/**
 * The drawing window's undo and redo stacks as values. Both are Python lists used as
 * LIFO stacks (top at the end) of whole-image snapshots. There is one history for the
 * whole window, not one per layer: every operation acts on whichever layer is active
 * when it runs.
 */
module UndoRedo {
  import opened Raster
  import opened LayerStack
  import PyList

  datatype History = History(layers: seq<Layer>, undo: seq<Image>, redo: seq<Image>)

  /** The layers with the image of the layer at position `k` replaced. */
  function WithImage(layers: seq<Layer>, k: nat, im: Image): (r: seq<Layer>)
    requires k < |layers|
    ensures |r| == |layers| && r[k] == Layer(layers[k].name, im)
    ensures forall i :: 0 <= i < |layers| && i != k ==> r[i] == layers[i]
  {
    layers[k := layers[k].(image := im)]
  }

  /** The active layer's image, for the active index `active`. */
  function ActiveImage(layers: seq<Layer>, active: int): Image
    requires PyList.InRange(active, |layers|)
  {
    layers[PyList.Resolve(active, |layers|)].image
  }

  /** `_save_state_for_undo`: a copy of the active image is pushed on the undo stack and
      the redo stack is emptied. */
  function SaveForUndo(h: History, active: int): (r: History)
    requires PyList.InRange(active, |h.layers|)
    ensures r.layers == h.layers && r.redo == []
    ensures |r.undo| == |h.undo| + 1 && r.undo[..|h.undo|] == h.undo
    ensures r.undo[|h.undo|] == ActiveImage(h.layers, active)
  {
    History(h.layers, h.undo + [ActiveImage(h.layers, active)], [])
  }

  /** `undo_action`: when the undo stack is not empty, the active image goes on the redo
      stack and the top undo snapshot replaces it. */
  function Undo(h: History, active: int): (r: History)
    requires PyList.InRange(active, |h.layers|)
    ensures |r.layers| == |h.layers| && |r.undo| + |r.redo| == |h.undo| + |h.redo|
    ensures forall i :: 0 <= i < |h.layers| ==> r.layers[i].name == h.layers[i].name
    ensures forall i :: 0 <= i < |h.layers| && i != PyList.Resolve(active, |h.layers|) ==>
              r.layers[i] == h.layers[i]
    ensures h.undo == [] <==> r == h
    ensures h.undo != [] ==> ActiveImage(r.layers, active) == h.undo[|h.undo| - 1]
  {
    if h.undo != [] then
      var k := PyList.Resolve(active, |h.layers|);
      var current := h.layers[k].image;
      History(WithImage(h.layers, k, h.undo[|h.undo| - 1]), h.undo[..|h.undo| - 1], h.redo + [current])
    else
      h
  }

  /** `redo_action`: the mirror image of `Undo`, with the two stacks exchanged. */
  function Redo(h: History, active: int): (r: History)
    requires PyList.InRange(active, |h.layers|)
    ensures |r.layers| == |h.layers| && |r.undo| + |r.redo| == |h.undo| + |h.redo|
    ensures forall i :: 0 <= i < |h.layers| ==> r.layers[i].name == h.layers[i].name
    ensures forall i :: 0 <= i < |h.layers| && i != PyList.Resolve(active, |h.layers|) ==>
              r.layers[i] == h.layers[i]
    ensures h.redo == [] <==> r == h
    ensures h.redo != [] ==> ActiveImage(r.layers, active) == h.redo[|h.redo| - 1]
  {
    if h.redo != [] then
      var k := PyList.Resolve(active, |h.layers|);
      var current := h.layers[k].image;
      History(WithImage(h.layers, k, h.redo[|h.redo| - 1]), h.undo + [current], h.redo[..|h.redo| - 1])
    else
      h
  }

  /** The active image replaced by the result of an edit. */
  function Edit(h: History, active: int, edited: Image): History
    requires PyList.InRange(active, |h.layers|)
  {
    h.(layers := WithImage(h.layers, PyList.Resolve(active, |h.layers|), edited))
  }

  /** Redo undoes an undo, with the same active index. */
  lemma {:induction false} RedoAfterUndo(h: History, active: int)
    requires PyList.InRange(active, |h.layers|) && h.undo != []
    ensures Redo(Undo(h, active), active) == h
  {
    var k := PyList.Resolve(active, |h.layers|);
    var u := Undo(h, active);
    assert u.redo != [];
    assert Redo(u, active).layers == h.layers;
    assert Redo(u, active).undo == h.undo;
    assert Redo(u, active).redo == h.redo;
  }

  /** Undo undoes a redo, with the same active index. */
  lemma {:induction false} UndoAfterRedo(h: History, active: int)
    requires PyList.InRange(active, |h.layers|) && h.redo != []
    ensures Undo(Redo(h, active), active) == h
  {
    var r := Redo(h, active);
    assert r.undo != [];
    assert Undo(r, active).layers == h.layers;
    assert Undo(r, active).undo == h.undo;
    assert Undo(r, active).redo == h.redo;
  }

  /** A snapshot taken before an edit brings the layers back exactly, and the edited
      image is what redo will restore. */
  lemma {:induction false} UndoRevertsEdit(h: History, active: int, edited: Image)
    requires PyList.InRange(active, |h.layers|)
    ensures var after := Undo(Edit(SaveForUndo(h, active), active, edited), active);
            && after.layers == h.layers
            && after.undo == h.undo
            && after.redo == [edited]
            && Redo(after, active) == Edit(SaveForUndo(h, active), active, edited)
  {
    var k := PyList.Resolve(active, |h.layers|);
    var edit := Edit(SaveForUndo(h, active), active, edited);
    var after := Undo(edit, active);
    assert edit.undo == h.undo + [h.layers[k].image];
    assert after.layers == h.layers;
    RedoAfterUndo(edit, active);
  }

  /** The history is shared by all layers: a snapshot of one layer, undone after another
      layer was made active, lands on the newly active layer. */
  lemma {:induction false} UndoLandsOnCurrentLayer(h: History, before: int, after: int)
    requires PyList.InRange(before, |h.layers|) && PyList.InRange(after, |h.layers|)
    ensures var u := Undo(SaveForUndo(h, before), after);
            && ActiveImage(u.layers, after) == ActiveImage(h.layers, before)
            && u.redo == [ActiveImage(h.layers, after)]
  {
  }
}
