/**
 * The drawing window: an ordered stack of named layers (index 0 on top) with an active
 * index, undo and redo stacks of image snapshots, and the press/drag/release controller
 * that turns mouse events into drawing calls on the active layer.
 *
 * A handler that raises in diary.py (a brush colour that is not valid hex, a shape
 * released without a press point) is modelled by an `ok` result of false; the state is
 * then what it was when the exception was raised.
 */
module Drawing {
  import opened Wrappers
  import opened Raster
  import PyList
  import opened LayerStack
  import UndoRedo
  import Compositor
  import HexColor
  import opened Tools
  import Diary

  const InitialWidth := 600
  const InitialHeight := 400

  /** Every layer's image resized to `w` by `h`, names kept. */
  function ResizeAll(layers: seq<Layer>, resize: (Image, nat, nat) -> Image, w: nat, h: nat): (r: seq<Layer>)
    ensures |r| == |layers|
    ensures forall i :: 0 <= i < |layers| ==> r[i] == Layer(layers[i].name, resize(layers[i].image, w, h))
  {
    seq(|layers|, i requires 0 <= i < |layers| => Layer(layers[i].name, resize(layers[i].image, w, h)))
  }

  /** After `resize_layers`, with a library whose `resize` keeps its promise, every layer
      has the canvas size. */
  lemma ResizedLayersHaveCanvasSize(layers: seq<Layer>, lib: Library, w: nat, h: nat)
    requires ResizeHasRequestedSize(lib)
    ensures forall i :: 0 <= i < |layers| ==>
              ResizeAll(layers, lib.resize, w, h)[i].image.width == w &&
              ResizeAll(layers, lib.resize, w, h)[i].image.height == h
  {
  }

  /** The snapshots are not resized with the layers: undoing right after a resize puts
      back an image of the old size. */
  lemma UndoAfterResizeRestoresOldSize(h: UndoRedo.History, active: int, lib: Library, w: nat, ht: nat)
    requires PyList.InRange(active, |h.layers|) && h.undo != []
    requires h.undo[|h.undo| - 1].width != w
    ensures var resized := h.(layers := ResizeAll(h.layers, lib.resize, w, ht));
            UndoRedo.ActiveImage(UndoRedo.Undo(resized, active).layers, active).width != w
  {
  }

  /** The layers with `command` drawn on the active layer's image. */
  function DrawnOn(layers: seq<Layer>, active: int, draw: (Image, DrawCommand) -> Image, command: DrawCommand): seq<Layer>
    requires PyList.InRange(active, |layers|)
  {
    UndoRedo.WithImage(layers, PyList.Resolve(active, |layers|), draw(UndoRedo.ActiveImage(layers, active), command))
  }

  /** Whatever was done to the active layer after its image was saved, undo puts the
      saved image back and every layer is as it was. */
  lemma UndoRestoresSavedImage(before: seq<Layer>, after: seq<Layer>, active: int, undo: seq<Image>, redo: seq<Image>)
    requires PyList.InRange(active, |before|) && |after| == |before|
    requires forall i :: 0 <= i < |before| && i != PyList.Resolve(active, |before|) ==> after[i] == before[i]
    requires after[PyList.Resolve(active, |before|)].name == before[PyList.Resolve(active, |before|)].name
    requires undo != [] && undo[|undo| - 1] == UndoRedo.ActiveImage(before, active)
    ensures UndoRedo.Undo(UndoRedo.History(after, undo, redo), active).layers == before
  {
    var r := UndoRedo.Undo(UndoRedo.History(after, undo, redo), active).layers;
    var k := PyList.Resolve(active, |before|);
    assert r[k] == before[k];
    assert forall i :: 0 <= i < |before| ==> r[i] == before[i];
  }

  class DrawingWindow {
    const app: Diary.DiaryApp
    const lib: Library
    var canvasWidth: nat
    var canvasHeight: nat
    var layers: seq<Layer>
    var activeIndex: int
    var undoStack: seq<Image>
    var redoStack: seq<Image>
    /** `(start_x, start_y)`: the press point, or the last point of a brush stroke. */
    var anchor: Option<(int, int)>
    /** The opacity slider's value. */
    var opacity: int

    ghost predicate Valid()
      reads this
    {
      LayerStack.Valid(Stack(layers, activeIndex)) && 0 <= opacity <= 255
    }

    /** The layers and history as one value, for the undo and redo functions. */
    function History(): UndoRedo.History
      reads this
    {
      UndoRedo.History(layers, undoStack, redoStack)
    }

    /** The window opens with one layer: the day's saved drawing, when there is one, as
        "Loaded Drawing", otherwise a transparent "Background"; the brush tool is selected. */
    constructor (app: Diary.DiaryApp, lib: Library, saved: Option<Image>)
      modifies app`currentTool
      ensures Valid()
      ensures this.app == app && this.lib == lib
      ensures canvasWidth == InitialWidth && canvasHeight == InitialHeight
      ensures saved.Some? ==> layers == [Layer("Loaded Drawing", saved.value)]
      ensures saved.None? ==> layers == [Background(InitialWidth, InitialHeight)]
      ensures activeIndex == 0 && undoStack == [] && redoStack == []
      ensures anchor == None && opacity == 255
      ensures app.currentTool == Brush
    {
      this.app := app;
      this.lib := lib;
      canvasWidth, canvasHeight := InitialWidth, InitialHeight;
      var first := if saved.Some? then Layer("Loaded Drawing", saved.value)
                   else Background(InitialWidth, InitialHeight);
      layers := PyList.Insert([], 0, first);
      activeIndex := 0;
      undoStack, redoStack := [], [];
      anchor := None;
      opacity := 255;
      new;
      app.currentTool := Brush;
    }

    /** `get_brush_color`: the brush colour with the slider's opacity, `None` where
        diary.py raises. */
    function GetBrushColor(): (r: Option<Rgba>)
      reads this, app
      ensures r.Some? ==> r.value.a == opacity
      ensures (app.brushColor == [] || app.brushColor[0] != '#') ==> r == Some(Rgba(0, 0, 0, opacity))
      ensures HexColor.IsHexColor(app.brushColor) ==>
                r == Some(Rgba(HexColor.HexValue(app.brushColor[1..3]), HexColor.HexValue(app.brushColor[3..5]),
                               HexColor.HexValue(app.brushColor[5..7]), opacity))
      ensures app.brushColor != [] && app.brushColor[0] == '#' ==>
                (r.Some? <==> HexColor.ParseChannels(app.brushColor).Some?)
      ensures app.brushColor != [] && app.brushColor[0] == '#' && |app.brushColor| <= 5 ==> r == None
      ensures app.brushColor != [] && app.brushColor[0] == '#' ==>
                forall i :: 1 <= i < 7 && i < |app.brushColor| && !HexColor.MayOccurInHex(app.brushColor[i]) ==> r.None?
    {
      HexColor.BrushColor(app.brushColor, opacity)
    }

    /** `on_canvas_configure`: a new canvas size is recorded and every layer resized to it. */
    method OnCanvasConfigure(w: nat, h: nat)
      requires Valid()
      modifies this`canvasWidth, this`canvasHeight, this`layers
      ensures Valid()
      ensures canvasWidth == w && canvasHeight == h
      ensures (w, h) != (old(canvasWidth), old(canvasHeight)) ==> layers == ResizeAll(old(layers), lib.resize, w, h)
      ensures (w, h) == (old(canvasWidth), old(canvasHeight)) ==> layers == old(layers)
    {
      if w != canvasWidth || h != canvasHeight {
        canvasWidth, canvasHeight := w, h;
        ResizeLayers();
      }
    }

    /** `resize_layers`: each layer's image is replaced by its resized copy, in order. */
    method ResizeLayers()
      requires Valid()
      modifies this`layers
      ensures Valid()
      ensures layers == ResizeAll(old(layers), lib.resize, canvasWidth, canvasHeight)
    {
      var i := 0;
      while i < |layers|
        invariant 0 <= i <= |layers| == |old(layers)|
        invariant forall j :: 0 <= j < i ==>
                    layers[j] == Layer(old(layers)[j].name, lib.resize(old(layers)[j].image, canvasWidth, canvasHeight))
        invariant forall j :: i <= j < |layers| ==> layers[j] == old(layers)[j]
      {
        layers := layers[i := layers[i].(image := lib.resize(layers[i].image, canvasWidth, canvasHeight))];
        i := i + 1;
      }
    }

    /** `_save_state_for_undo`: a copy of the active image goes on the undo stack and the
        redo stack is emptied. */
    method SaveStateForUndo()
      requires Valid()
      modifies this`undoStack, this`redoStack
      ensures Valid()
      ensures History() == UndoRedo.SaveForUndo(old(History()), activeIndex)
    {
      var k := PyList.Resolve(activeIndex, |layers|);
      undoStack := undoStack + [layers[k].image];
      redoStack := [];
    }

    /** `undo_action`. */
    method UndoAction()
      requires Valid()
      modifies this`layers, this`undoStack, this`redoStack
      ensures Valid()
      ensures History() == UndoRedo.Undo(old(History()), activeIndex)
    {
      if undoStack != [] {
        var k := PyList.Resolve(activeIndex, |layers|);
        redoStack := redoStack + [layers[k].image];
        layers := layers[k := layers[k].(image := undoStack[|undoStack| - 1])];
        undoStack := undoStack[..|undoStack| - 1];
      }
    }

    /** `redo_action`. */
    method RedoAction()
      requires Valid()
      modifies this`layers, this`undoStack, this`redoStack
      ensures Valid()
      ensures History() == UndoRedo.Redo(old(History()), activeIndex)
    {
      if redoStack != [] {
        var k := PyList.Resolve(activeIndex, |layers|);
        undoStack := undoStack + [layers[k].image];
        layers := layers[k := layers[k].(image := redoStack[|redoStack| - 1])];
        redoStack := redoStack[..|redoStack| - 1];
      }
    }

    /** The active layer's image replaced by `lib.draw` applied to it. */
    method DrawOnActive(command: DrawCommand)
      requires Valid()
      modifies this`layers
      ensures Valid()
      ensures layers == DrawnOn(old(layers), activeIndex, lib.draw, command)
    {
      var k := PyList.Resolve(activeIndex, |layers|);
      layers := layers[k := layers[k].(image := lib.draw(layers[k].image, command))];
    }

    /** `fill`: a flood fill with the brush colour from the pressed point. */
    method Fill(x: int, y: int) returns (ok: bool)
      requires Valid()
      modifies this`layers
      ensures Valid()
      ensures ok <==> GetBrushColor().Some?
      ensures ok ==> layers == DrawnOn(old(layers), activeIndex, lib.draw, FloodFill(x, y, GetBrushColor().value))
      ensures !ok ==> layers == old(layers)
    {
      var ink := GetBrushColor();
      ok := ink.Some?;
      if ok {
        DrawOnActive(FloodFill(x, y, ink.value));
      }
    }

    /** `on_press`: the active image is saved for undo before anything else, the press
        point becomes the anchor, and the fill tool fills from it. */
    method OnPress(x: int, y: int) returns (ok: bool)
      requires Valid()
      modifies this`layers, this`undoStack, this`redoStack, this`anchor
      ensures Valid()
      ensures undoStack == old(undoStack) + [UndoRedo.ActiveImage(old(layers), activeIndex)] && redoStack == []
      ensures anchor == Some((x, y))
      ensures app.currentTool.Fill? ==>
                (ok <==> GetBrushColor().Some?) &&
                layers == if ok then DrawnOn(old(layers), activeIndex, lib.draw, FloodFill(x, y, GetBrushColor().value))
                          else old(layers)
      ensures !app.currentTool.Fill? ==> ok && layers == old(layers)
    {
      SaveStateForUndo();
      anchor := Some((x, y));
      ok := true;
      if app.currentTool.Fill? {
        ok := Fill(x, y);
      }
    }

    /** The ink of a brush or eraser stroke: the brush colour, or transparent for the eraser. */
    function StrokeInk(): (r: Option<Rgba>)
      reads this, app
      ensures app.currentTool.Eraser? ==> r == Some(Rgba(0, 0, 0, 0))
      ensures app.currentTool.Brush? ==> r == GetBrushColor()
      ensures app.currentTool.Brush? && r.Some? ==> r.value.a == opacity
    {
      if app.currentTool.Brush? then GetBrushColor() else Some(Transparent)
    }

    /** The width of a brush or eraser stroke. */
    function StrokeWidth(): (w: int)
      reads app
      ensures app.currentTool.Brush? ==> w == app.brushWidth
      ensures app.currentTool.Eraser? ==> w == app.eraserWidth
    {
      if app.currentTool.Brush? then app.brushWidth else app.eraserWidth
    }

    /** `paint`: a segment from the anchor to the pointer, when there is an anchor, in the
        stroke's ink and width; the pointer becomes the anchor. */
    method Paint(x: int, y: int) returns (ok: bool)
      requires Valid()
      modifies this`layers, this`anchor
      ensures Valid()
      ensures ok <==> StrokeInk().Some?
      ensures ok && old(anchor).Some? ==>
                layers == DrawnOn(old(layers), activeIndex, lib.draw,
                          Stroke(LineShape, old(anchor).value.0, old(anchor).value.1, x, y, StrokeInk().value, StrokeWidth()))
      ensures !ok || old(anchor).None? ==> layers == old(layers)
      ensures anchor == if ok then Some((x, y)) else old(anchor)
    {
      var ink := StrokeInk();
      ok := ink.Some?;
      if !ok {
        return;
      }
      var width := StrokeWidth();
      if anchor.Some? {
        DrawOnActive(Stroke(LineShape, anchor.value.0, anchor.value.1, x, y, ink.value, width));
      }
      anchor := Some((x, y));
    }

    /** `on_drag`: the brush and the eraser paint; the shape tools only move their preview. */
    method OnDrag(x: int, y: int) returns (ok: bool)
      requires Valid()
      modifies this`layers, this`anchor
      ensures Valid()
      ensures !(app.currentTool.Brush? || app.currentTool.Eraser?) ==>
                ok && layers == old(layers) && anchor == old(anchor)
      ensures app.currentTool.Brush? || app.currentTool.Eraser? ==>
                && (ok <==> StrokeInk().Some?)
                && (ok && old(anchor).Some? ==>
                      layers == DrawnOn(old(layers), activeIndex, lib.draw,
                                  Stroke(LineShape, old(anchor).value.0, old(anchor).value.1, x, y, StrokeInk().value, StrokeWidth())))
                && (!ok || old(anchor).None? ==> layers == old(layers))
                && anchor == if ok then Some((x, y)) else old(anchor)
      ensures app.currentTool.Eraser? ==> ok && anchor == Some((x, y))
    {
      ok := true;
      if app.currentTool.Brush? || app.currentTool.Eraser? {
        ok := Paint(x, y);
      }
    }

    /** `draw_shape`: for a shape tool, one outline of that shape between the two corners,
        in the brush colour and the brush width. */
    method DrawShape(x1: int, y1: int, x2: int, y2: int) returns (ok: bool)
      requires Valid()
      modifies this`layers
      ensures Valid()
      ensures ok <==> GetBrushColor().Some?
      ensures ok && IsShapeTool(app.currentTool) ==>
                layers == DrawnOn(old(layers), activeIndex, lib.draw,
                          Stroke(ShapeOf(app.currentTool), x1, y1, x2, y2, GetBrushColor().value, app.brushWidth))
      ensures !ok || !IsShapeTool(app.currentTool) ==> layers == old(layers)
    {
      var ink := GetBrushColor();
      ok := ink.Some?;
      if ok && IsShapeTool(app.currentTool) {
        DrawOnActive(Stroke(ShapeOf(app.currentTool), x1, y1, x2, y2, ink.value, app.brushWidth));
      }
    }

    /** `on_release`: a shape tool commits one shape from the anchor to the release point;
        then the anchor is cleared. A shape released with no anchor raises in diary.py. */
    method OnRelease(x: int, y: int) returns (ok: bool)
      requires Valid()
      modifies this`layers, this`anchor
      ensures Valid()
      ensures !IsShapeTool(app.currentTool) ==> ok && layers == old(layers)
      ensures IsShapeTool(app.currentTool) ==>
                (ok <==> old(anchor).Some? && GetBrushColor().Some?)
      ensures IsShapeTool(app.currentTool) && ok ==>
                layers == DrawnOn(old(layers), activeIndex, lib.draw,
                          Stroke(ShapeOf(app.currentTool), old(anchor).value.0, old(anchor).value.1,
                                 x, y, GetBrushColor().value, app.brushWidth))
      ensures ok ==> anchor == None
      ensures !ok ==> layers == old(layers) && anchor == old(anchor)
    {
      ok := true;
      if IsShapeTool(app.currentTool) {
        if anchor.None? || GetBrushColor().None? {
          return false;
        }
        ok := DrawShape(anchor.value.0, anchor.value.1, x, y);
      }
      anchor := None;
    }

    /** A press and a release with a shape tool: the active image is saved for undo once,
        exactly one shape is drawn from the press point to the release point, the anchor
        is cleared, and an undo then gives back the layers as they were before the press. */
    method ShapeGesture(x1: int, y1: int, x2: int, y2: int) returns (ok: bool)
      requires Valid() && IsShapeTool(app.currentTool)
      modifies this`layers, this`undoStack, this`redoStack, this`anchor
      ensures Valid()
      ensures ok <==> GetBrushColor().Some?
      ensures undoStack == old(undoStack) + [UndoRedo.ActiveImage(old(layers), activeIndex)] && redoStack == []
      ensures ok ==> anchor == None &&
                     layers == DrawnOn(old(layers), activeIndex, lib.draw,
                                 Stroke(ShapeOf(app.currentTool), x1, y1, x2, y2, GetBrushColor().value, app.brushWidth))
      ensures UndoRedo.Undo(History(), activeIndex).layers == old(layers)
    {
      var pressed := OnPress(x1, y1);
      ok := OnRelease(x2, y2);
      UndoRestoresSavedImage(old(layers), layers, activeIndex, undoStack, redoStack);
    }

    /** `clear_action`: the rectangle from (0, 0) to the canvas size, both corners
        included, is made transparent on the active layer. */
    method ClearAction()
      requires Valid()
      modifies this`layers
      ensures Valid()
      ensures layers == UndoRedo.WithImage(old(layers), PyList.Resolve(activeIndex, |old(layers)|),
                          ClearRegion(UndoRedo.ActiveImage(old(layers), activeIndex), canvasWidth, canvasHeight))
    {
      var k := PyList.Resolve(activeIndex, |layers|);
      layers := layers[k := layers[k].(image := ClearRegion(layers[k].image, canvasWidth, canvasHeight))];
    }

    /** `add_layer(name, image)`: a layer named "Layer n+1" and a transparent canvas-size
        image unless given, inserted at the active index. */
    method AddLayer(name: Option<string>, image: Option<Image>)
      requires Valid()
      modifies this`layers, this`activeIndex
      ensures Valid()
      ensures Stack(layers, activeIndex) ==
              LayerStack.Add(Stack(old(layers), old(activeIndex)),
                             Layer(if name.Some? then name.value else DefaultName(|old(layers)|),
                                   if image.Some? then image.value else Blank(canvasWidth, canvasHeight, Transparent)))
    {
      var n := if name.Some? then name.value else DefaultName(|layers|);
      var im := if image.Some? then image.value else Blank(canvasWidth, canvasHeight, Transparent);
      var insertIndex := activeIndex;
      layers := PyList.Insert(layers, insertIndex, Layer(n, im));
      activeIndex := insertIndex;
    }

    /** `remove_layer`. */
    method RemoveLayer()
      requires Valid()
      modifies this`layers, this`activeIndex
      ensures Valid()
      ensures Stack(layers, activeIndex) == LayerStack.Remove(Stack(old(layers), old(activeIndex)), canvasWidth, canvasHeight)
    {
      var (_, rest) := PyList.Pop(layers, activeIndex);
      layers := rest;
      if activeIndex >= |layers| {
        activeIndex := |layers| - 1;
      }
      if layers == [] {
        layers := PyList.Insert(layers, activeIndex, Background(canvasWidth, canvasHeight));
      }
    }

    /** `move_layer_up`. */
    method MoveLayerUp()
      requires Valid()
      modifies this`layers, this`activeIndex
      ensures Valid()
      ensures Stack(layers, activeIndex) == LayerStack.MoveUp(Stack(old(layers), old(activeIndex)))
    {
      if activeIndex > 0 {
        var (layer, rest) := PyList.Pop(layers, activeIndex);
        layers := PyList.Insert(rest, activeIndex - 1, layer);
        activeIndex := activeIndex - 1;
      }
    }

    /** `move_layer_down`. */
    method MoveLayerDown()
      requires Valid()
      modifies this`layers, this`activeIndex
      ensures Valid()
      ensures Stack(layers, activeIndex) == LayerStack.MoveDown(Stack(old(layers), old(activeIndex)))
    {
      if activeIndex < |layers| - 1 {
        var (layer, rest) := PyList.Pop(layers, activeIndex);
        layers := PyList.Insert(rest, activeIndex + 1, layer);
        activeIndex := activeIndex + 1;
      }
    }

    /** `on_layer_select`: the row picked in the layer list becomes the active index. */
    method OnLayerSelect(selection: Option<int>)
      requires Valid()
      requires selection.Some? ==> 0 <= selection.value < |layers|
      modifies this`activeIndex
      ensures Valid()
      ensures activeIndex == if selection.Some? then selection.value else old(activeIndex)
    {
      if selection.Some? {
        activeIndex := selection.value;
      }
    }

    /** `select_tool`. */
    method SelectTool(tool: Tool)
      modifies app`currentTool
      ensures app.currentTool == tool
    {
      app.currentTool := tool;
    }

    /** `set_size`: the size goes to the brush width for the brush and the shape tools, to
        the eraser width for the eraser, and nowhere for the fill tool. */
    method SetSize(size: int)
      modifies app`brushWidth, app`eraserWidth
      ensures UsesBrushWidth(app.currentTool) ==> app.brushWidth == size && app.eraserWidth == old(app.eraserWidth)
      ensures app.currentTool.Eraser? ==> app.eraserWidth == size && app.brushWidth == old(app.brushWidth)
      ensures app.currentTool.Fill? ==> app.brushWidth == old(app.brushWidth) && app.eraserWidth == old(app.eraserWidth)
    {
      if UsesBrushWidth(app.currentTool) {
        app.brushWidth := size;
      } else if app.currentTool.Eraser? {
        app.eraserWidth := size;
      }
    }

    /** `choose_color`: a colour picked in the chooser becomes the brush colour; closing the
        chooser without a pick (no colour, or an empty one) keeps the old one. */
    method ChooseColor(picked: Option<string>)
      modifies app`brushColor
      ensures app.brushColor == if picked.Some? && picked.value != "" then picked.value else old(app.brushColor)
    {
      if picked.Some? && picked.value != "" {
        app.brushColor := picked.value;
      }
    }

    /** The opacity slider, which runs from 0 to 255. */
    method SetOpacity(value: int)
      requires 0 <= value <= 255
      requires Valid()
      modifies this`opacity
      ensures Valid() && opacity == value
    {
      opacity := value;
    }

    /** `composite_layers`: starting from opaque white, the layers are alpha-composited
        from the last (bottom) to the first (top). */
    method CompositeLayers() returns (image: Image)
      ensures image == Compositor.Composite(layers, Compositor.Backdrop(canvasWidth, canvasHeight), lib.alphaComposite)
    {
      image := Compositor.Backdrop(canvasWidth, canvasHeight);
      var i := |layers|;
      while i > 0
        invariant 0 <= i <= |layers|
        invariant image == Compositor.Composite(layers[i..], Compositor.Backdrop(canvasWidth, canvasHeight), lib.alphaComposite)
      {
        i := i - 1;
        assert layers[i..][1..] == layers[i + 1..];
        image := lib.alphaComposite(image, layers[i].image);
      }
      assert layers[0..] == layers;
    }

    /** `save_drawing`: the same composite as the display, with the alpha channel dropped
        for the RGB file. */
    method SaveDrawing() returns (image: Image)
      ensures image == DropAlpha(Compositor.Composite(layers, Compositor.Backdrop(canvasWidth, canvasHeight), lib.alphaComposite))
    {
      var composite := Compositor.Backdrop(canvasWidth, canvasHeight);
      var i := |layers|;
      while i > 0
        invariant 0 <= i <= |layers|
        invariant composite == Compositor.Composite(layers[i..], Compositor.Backdrop(canvasWidth, canvasHeight), lib.alphaComposite)
      {
        i := i - 1;
        assert layers[i..][1..] == layers[i + 1..];
        composite := lib.alphaComposite(composite, layers[i].image);
      }
      assert layers[0..] == layers;
      image := DropAlpha(composite);
    }
  }
}
