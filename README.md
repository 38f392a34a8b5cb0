# Diaryapp in Dafny

A model of the logic in `diary.py` of Diaryapp, a Tk diary with a calendar, one text
entry per day and a "drawing of the day" window. The model covers the drawing window's
in-memory state:

- the ordered layer stack with its active index;
- the shared undo and redo stacks of image snapshots;
- the press/drag/release controller that turns mouse events into drawing calls;
- the compositing of the layers.

It also covers the diary's small helpers:

- `_darken_hex`;
- month navigation;
- saving and loading the day's entry.

Modules, one file each:

| file | module | models |
|---|---|---|
| `wrappers.dfy` | `Wrappers` | `Option` and `Result` |
| `decimals.dfy` | `Decimals` | `str()` of a natural number and the value of a digit string |
| `pylist.dfy` | `PyList` | Python's `list.insert`, `list.pop` and negative indices |
| `raster.dfy` | `Raster` | RGBA pixels and images, the transparent clear, dropping alpha, and the drawing calls |
| `layer_stack.dfy` | `LayerStack` | `add_layer`, `remove_layer`, `move_layer_up` and `move_layer_down` as functions on a `(layers, active)` value |
| `undo_redo.dfy` | `UndoRedo` | `_save_state_for_undo`, `undo_action` and `redo_action` as functions on a `(layers, undo, redo)` value |
| `compositor.dfy` | `Compositor` | the alpha-composite fold of `composite_layers` and `save_drawing` |
| `hex_color.dfy` | `HexColor` | `int(s, 16)`, `get_brush_color`'s decoding, and `_darken_hex` |
| `calendar.dfy` | `Calendar` | dates, `datetime.replace`, next and previous month, and the `%Y-%m-%d` key |
| `entries.dfy` | `Entries` | the entry dictionary and the save and load of one day |
| `tools.dfy` | `Tools` | the eight drawing tools |
| `diary_app.dfy` | `Diary` | the class `DiaryApp`, whose methods update the selected date and the data in place |
| `drawing_window.dfy` | `Drawing` | the class `DrawingWindow`, whose methods update layers, index, stacks and anchor in place |

Each class method is tied to the pure function of the same operation by its `ensures`.
The properties are proved as lemmas about those functions.

## Design decisions

- The PIL calls (drawing, flood fill, `resize`, `alpha_composite`) are not looked into.
  The window holds a `Library` value of three functions: `draw`, `resize` and `alphaComposite`.
  A drawing call is a `DrawCommand` value, so a contract can say exactly which command,
  colour, width and points an event produces.
- The active index is an `int` and is resolved as Python resolves it.
- Removing the only layer leaves the index at -1. The model keeps the following
  consequences, each stated as a lemma:
  - `add_layer` then inserts the new layer just above the bottom one without making it active;
  - `move_layer_down` at -1 moves the bottom layer to the top.
- The window's invariant is `-1 <= active < len(layers)`. It holds because indices come
  from the list rows and from `remove_layer`.
- An exception raised inside a Tk callback ends that callback. Examples are a `ValueError`
  from `int(s, 16)` on a malformed brush colour, and a shape released with no press point.
  Such a handler returns `ok == false`, with the state as it was when the exception was raised.
- `_darken_hex`'s float `amount` is the rational `num / den`. `int()` truncates toward zero,
  which the model writes out for negative products.
- `int(s, 16)` is modelled on ASCII:
  - surrounding white space is ignored: the space and the controls tab to carriage return
    (0x09 to 0x0d), which is what `int()` strips. The separators 0x1c to 0x1f, which
    `str.isspace` also counts, are not stripped, so `int()` raises on them;
  - an optional sign is allowed;
  - then one or more hexadecimal digits follow.
  This is exact for the two-character slices the program takes.

## Model

| member | source | states |
|---|---|---|
| LayerStack.Add | diary.py:677-687 | the new layer goes where Python's `insert` at the active index puts it; the layers before and after keep their order; the multiset grows by exactly that layer; the stored index is unchanged; the invariant is kept |
| LayerStack.Remove | diary.py:689-697 | the active layer is removed and the others keep their order; with two or more layers the new index is `len - 2` when the old one was the last, and the old one otherwise; removing the only layer leaves one transparent "Background" layer at index -1; the stack is never empty |
| LayerStack.MoveUp | diary.py:699-704 | for a positive index, the active layer is swapped with the one above and the index follows it; otherwise nothing changes; the multiset and the active layer are kept |
| LayerStack.MoveDown | diary.py:706-711 | below the last index, the active layer is swapped with the one below and the index follows it; at the last index nothing changes; at -1 the bottom layer moves to the top; the multiset and the active layer are kept |
| LayerStack.DefaultName | diary.py:679 | the default name is "Layer " followed by the decimal digits, without a leading zero, of the layer count plus one |
| Decimals.Decimal | diary.py:679 | `str(n)` is a non-empty digit string without a leading zero whose value is n |
| PyList.Insert | diary.py:685 | the list grows by one; the element sits at the clamped, end-relative insert position; the elements before and after it are kept in order |
| PyList.InsertAddsOne | diary.py:685 | `insert` adds exactly one occurrence of the element |
| PyList.Pop | diary.py:691 | the element at the resolved index is returned and removed; the rest keep their order |
| PyList.PopRemovesOne | diary.py:691 | `pop` removes exactly one occurrence of the element it returns |
| LayerStack.AddActivatesNewLayer | diary.py:684-686 | with a non-negative index, the added layer becomes the active layer |
| LayerStack.AddAtMinusOneKeepsBottomActive | diary.py:684-686 | at index -1 the new layer lands just above the bottom, and the old bottom layer stays active |
| LayerStack.RemoveOnlyThenAdd | diary.py:689-697 | removing the only layer and pressing "+" gives ["Layer 2", "Background"] with "Background" active; moving down then puts "Background" on top |
| UndoRedo.SaveForUndo | diary.py:635-639 | exactly one snapshot, the active image, is pushed; the redo stack is emptied; the layers are unchanged |
| UndoRedo.Undo | diary.py:641-646 | it is a no-op exactly when the undo stack is empty; otherwise the top snapshot becomes the active image; the layer count, the names, the other layers and `len(undo) + len(redo)` are kept |
| UndoRedo.Redo | diary.py:648-653 | the same as Undo with the two stacks exchanged |
| UndoRedo.RedoAfterUndo | diary.py:641-653 | an undo followed by a redo at the same index restores the whole history |
| UndoRedo.UndoAfterRedo | diary.py:641-653 | a redo followed by an undo at the same index restores the whole history |
| UndoRedo.UndoRevertsEdit | diary.py:635-646 | save, edit, undo gives back the layers and the undo stack, with the edited image as the only redo entry |
| UndoRedo.UndoLandsOnCurrentLayer | diary.py:641-646 | a snapshot taken on one layer and undone after another layer was selected is written into the newly selected layer |
| Compositor.FoldOverAppend | diary.py:727-728 | one more loop step blends the next image over the accumulated one |
| Compositor.Reverse | diary.py:727 | `reversed(layers)`: position i holds the element at position len - 1 - i |
| Compositor.Composite | diary.py:725-729 | the composite is the loop that blends the images of `reversed(layers)` one by one onto the backdrop |
| Compositor.CompositeSplit | diary.py:725-729 | compositing a stack is compositing its upper part over the composite of its lower part |
| Compositor.BottomLayerFirst | diary.py:727-728 | the bottom (last) layer is the first one blended onto the white backdrop |
| Compositor.CompositeIgnoresNames | diary.py:725-729 | only the images and their order matter for the composite |
| HexColor.ParseInt16 | diary.py:188-190 | a non-empty string of hex digits parses to its value; an empty slice raises; a string holding a character other than a hex digit, white space or a sign raises (the program's slices have at most two characters, where this is exactly Python's behaviour) |
| HexColor.ParseSigned | diary.py:188-190 | once the white space is stripped: a string of hex digits parses to its value; "-" before the digits negates it and "+" keeps it; an accepted string holds only hex digits after at most one leading sign |
| HexColor.ParseInt16OfShort | diary.py:188-190 | on a string of at most two characters, `int(s, 16)` is this case table: two digits; one digit alone, beside white space (space or 0x09 to 0x0d), or after "+"; one digit after "-" negated; everything else raises |
| HexColor.SignedAndPaddedPairs | diary.py:188-190 | "-d" gives minus the digit, and "+d" gives the digit, as do the digit with a space or a control from 0x09 to 0x0d before or after it |
| HexColor.DigitPadding | diary.py:188-190 | beside one digit, exactly a sign, a space or a control from 0x09 to 0x0d is accepted before it, and exactly that white space after it; any other non-digit, such as 0x1c to 0x1f, raises |
| HexColor.Slice | diary.py:188-190 | Python's `s[i:j]` clamps both bounds: the length is `j - i`, or what is left of the string after `i`, or 0; each position of the string within the range is kept in order |
| HexColor.MalformedPairsRaise | diary.py:188-190 | pairs of allowed characters in the wrong order raise: "d-", "+-", "- ", " -", two spaces, a lone sign |
| HexColor.ParseChannels | diary.py:478-480 | a "#rrggbb" string gives the values of its three digit pairs; a character that `int(s, 16)` never accepts in positions 1 to 6 raises; a string of at most five characters raises, because its last slice is empty |
| HexColor.ParseChannelsIsInt16 | diary.py:478-480 | decoding the channels is `int(s, 16)` on each of the three slices: it succeeds exactly when all three parse, and the channels are their values |
| HexColor.ParseHexColor | diary.py:477-481 | a "#rrggbb" string decodes to the values of its three digit pairs |
| HexColor.FormatColorRoundTrip | diary.py:194 | decoding the formatted `#rrggbb` string of three channels gives back the channels |
| HexColor.HexByte | diary.py:194 | `f"{v:02x}"` of a channel value is two lower-case hex digits whose value is v |
| HexColor.FormatColor | diary.py:194 | the formatted string is "#" plus six lower-case hex digits |
| HexColor.BrushColor | diary.py:475-482 | the alpha is the opacity; a colour not starting with "#" reads as black; a "#" colour succeeds exactly when its three slices parse; a "#" colour of at most five characters raises |
| HexColor.SixCharChannels | diary.py:478-480 | with no length check, a six-character colour whose characters 1 to 5 are hex digits decodes, its blue channel from a single digit |
| HexColor.BrushColorRejectsNonHex | diary.py:477-480 | a "#" colour with a character that is not a hex digit, white space or a sign in positions 1 to 6 raises |
| HexColor.BrushColorOfHexColor | diary.py:475-482 | a well-formed "#rrggbb" gives exactly its channels with the slider's alpha |
| HexColor.ChosenColorIsDrawn | diary.py:629-633 | a colour produced as "#rrggbb" from three channels is drawn with those channels |
| HexColor.Scale | diary.py:191-193 | for `0 <= amount <= 1` the scaled channel `int(v * amount)` is in 0..v; for amount 1 it is v |
| HexColor.ScaleTruncatesTowardZero | diary.py:191-193 | `int(v * amount)` is the whole part of `v * amount`, rounded toward zero for negative products as well |
| HexColor.Clamp | diary.py:191-193 | `max(0, min(255, v))` is in 0..255, is the identity on 0..255, and never exceeds a non-negative input |
| HexColor.DarkenHex | diary.py:181-196 | anything other than "#" plus six characters with parsable pairs comes back unchanged; otherwise the result is a lower-case "#rrggbb" whose channels are the scaled and clamped input channels |
| HexColor.DarkenHexRejectsNonHex | diary.py:181-196 | a colour with a character that is not a hex digit, white space or a sign in positions 1 to 6 comes back unchanged |
| HexColor.DarkenHexKeepsMalformedPairs | diary.py:181-196 | a seven-character colour with a pair `int(s, 16)` rejects, such as "1-" in "#1-2-3-", comes back unchanged |
| HexColor.DarkenNeverBrightens | diary.py:191-194 | for `0 <= amount <= 1`, every channel of a darkened well-formed colour is at most the original's |
| HexColor.DarkenByOneKeepsColor | diary.py:181-196 | with amount 1 a lower-case colour string is returned as it is |
| Calendar.Replace | diary.py:232-234 | `datetime.replace` succeeds exactly for a valid Gregorian date in years 1..9999; a bad day in a good month is reported as a day error |
| Calendar.NextMonth | diary.py:230-235 | on success the day is kept, the month number grows by one with the year carried at December, and the date is valid; it succeeds exactly when the target year is in range and the day exists in the target month |
| Calendar.PrevMonth | diary.py:237-242 | the mirror of NextMonth, with the year carried at January |
| Calendar.SelectDay | diary.py:244-247 | picking a day succeeds exactly when it exists in the selected month, and only the day changes |
| Calendar.PrevAfterNext | diary.py:230-242 | when the next month exists, going back from it gives the original date |
| Calendar.NextAfterPrev | diary.py:230-242 | when the previous month exists, going forward from it gives the original date |
| Calendar.ThirtyFirstOfJanuary | diary.py:230-235 | 31 January has no next month: `next_month` raises |
| Calendar.Pad2 | diary.py:251 | `%02d` (`%m`, `%d`) of a number below 100 is two decimal digits |
| Calendar.Pad2Value | diary.py:251 | those two digits read back as the number |
| Calendar.Pad4 | diary.py:251 | `%04d` (`%Y`) of a number below 10000 is four decimal digits |
| Calendar.Pad4Value | diary.py:251 | those four digits read back as the number |
| Calendar.DateKey | diary.py:251 | the key is ten characters with dashes at positions 4 and 7; its three digit groups read back as the year, the month and the day |
| Calendar.DateKeyInjective | diary.py:251 | distinct dates have distinct keys |
| Entries.SaveEntry | diary.py:250-259 | the day's entry is created when missing; its text and colour are set; its other fields, such as `image_path`, and all other days are kept |
| Entries.Field | diary.py:265-266 | `entry.get(field, "")`: the field's value when present, "" when missing |
| Entries.LoadEntry | diary.py:261-266 | a missing day loads as empty text and empty colour; a present day loads each of its two fields, or "" where the field is missing |
| Entries.AttachImage | diary.py:302-304 | the day's entry is created when missing and its `image_path` set; its other fields and all other days are kept |
| Entries.AttachImageKeepsEntry | diary.py:302-304 | attaching a picture changes no day's loaded text and colour; a day with only a picture loads as empty text and colour |
| Entries.LoadAfterSave | diary.py:250-266 | loading a saved day gives back the saved text and colour |
| Entries.SaveKeepsOtherDays | diary.py:250-266 | saving one day does not change what another day loads |
| Entries.SaveWhatWasLoaded | diary.py:250-266 | saving back what was loaded changes nothing |
| Entries.SaveIdempotent | diary.py:250-259 | saving the same text and colour twice equals saving once |
| Diary.DiaryApp.constructor | diary.py:26-33 | today's date, the stored data, a black brush of width 5, an eraser of width 20 and the brush tool |
| Diary.DiaryApp.NextMonth | diary.py:230-235 | the date becomes `Calendar.NextMonth` of the old one, or stays when that raises |
| Diary.DiaryApp.PrevMonth | diary.py:237-242 | the date becomes `Calendar.PrevMonth` of the old one, or stays when that raises |
| Diary.DiaryApp.SelectDate | diary.py:244-247 | the day is replaced when it exists, and that day's entry is loaded |
| Diary.DiaryApp.SaveEntry | diary.py:250-259 | the data becomes `Entries.SaveEntry` of the old data under the selected date's key |
| Diary.DiaryApp.AttachImage | diary.py:292-305 | a chosen path becomes `Entries.AttachImage` of the data under the selected date's key; a cancelled dialog changes nothing |
| Diary.DiaryApp.LoadEntry | diary.py:261-266 | it returns `Entries.LoadEntry` for the selected date and changes nothing |
| Diary.SaveThenLoad | diary.py:250-266 | saving then loading the selected day gives back the saved text and colour |
| Drawing.DrawingWindow.constructor | diary.py:359-367 | the window opens on a 600 by 400 canvas with one layer, either the saved drawing as "Loaded Drawing" or a transparent "Background"; the index is 0, both stacks are empty, there is no anchor, the opacity is 255 and the brush tool is selected |
| Drawing.DrawingWindow.OnCanvasConfigure | diary.py:428-434 | the canvas size is recorded; the layers are resized only when the size changed |
| Drawing.DrawingWindow.ResizeLayers | diary.py:436-439 | every layer's image is replaced by its resized copy, names and order kept |
| Drawing.ResizedLayersHaveCanvasSize | diary.py:436-439 | after resizing, every layer has the canvas size |
| Drawing.UndoAfterResizeRestoresOldSize | diary.py:436-439 | snapshots are not resized, so an undo after a resize can bring back an image of the old size |
| Drawing.DrawingWindow.SaveStateForUndo | diary.py:635-639 | the history becomes `UndoRedo.SaveForUndo` of the old one; the window's invariant is kept |
| Drawing.DrawingWindow.UndoAction | diary.py:641-646 | the history becomes `UndoRedo.Undo` of the old one |
| Drawing.DrawingWindow.RedoAction | diary.py:648-653 | the history becomes `UndoRedo.Redo` of the old one |
| Drawing.UndoRestoresSavedImage | diary.py:635-646 | whatever was drawn on the active layer after its snapshot, an undo gives back every layer as it was |
| Drawing.DrawingWindow.DrawOnActive | diary.py:486-487 | only the active layer's image changes, and it becomes the drawing call applied to it |
| Drawing.DrawingWindow.GetBrushColor | diary.py:475-482 | the alpha is the opacity; a colour not starting with "#" reads as black; a "#rrggbb" colour gives its three channels; a "#" colour succeeds exactly when its three slices parse, raises when it has at most five characters, and raises with a character `int(s, 16)` never accepts among its digits |
| Drawing.DrawingWindow.Fill | diary.py:500-505 | a flood fill from the point with the brush colour; it raises, changing nothing, when the colour does not decode |
| Drawing.DrawingWindow.OnPress | diary.py:441-455 | the pre-press active image is pushed once on the undo stack and redo is emptied; the press point becomes the anchor; only the fill tool draws, with a flood fill from that point |
| Drawing.DrawingWindow.StrokeInk | diary.py:490 | the eraser's ink is transparent (0, 0, 0, 0); the brush's ink is `get_brush_color`, with the slider's opacity as its alpha |
| Drawing.DrawingWindow.StrokeWidth | diary.py:491 | the brush strokes with the brush width and the eraser with the eraser width |
| Drawing.DrawingWindow.Paint | diary.py:484-498 | a segment from the anchor to the pointer is drawn only when there is an anchor; the brush uses its colour and width and the eraser transparent ink and its width; the pointer becomes the anchor |
| Drawing.DrawingWindow.OnDrag | diary.py:457-464 | the brush and the eraser paint; the other tools change no state |
| Drawing.DrawingWindow.DrawShape | diary.py:507-523 | for a shape tool, exactly one outline of that shape between the corners, in the brush colour and width |
| Drawing.DrawingWindow.OnRelease | diary.py:466-473 | a shape tool commits exactly one shape from the anchor to the release point; the anchor is then cleared; with no anchor or a bad colour it raises and changes nothing |
| Drawing.DrawingWindow.ShapeGesture | diary.py:441-473 | a shape-tool press and release saves one snapshot, draws one shape from the press point to the release point, and can be undone exactly |
| Drawing.DrawingWindow.ClearAction | diary.py:655-661 | the rectangle from (0, 0) to the canvas size, corners included, is made transparent on the active layer only |
| Raster.Blank | diary.py:681 | `Image.new` of a size and colour is well formed, has that size and holds that colour at every pixel |
| Raster.ClearRegion | diary.py:660 | pixels inside the inclusive rectangle become transparent and the others are kept |
| Raster.ClearedCanvasIsTransparent | diary.py:655-661 | on a canvas-sized image the clear leaves every pixel transparent |
| Drawing.DrawingWindow.AddLayer | diary.py:677-687 | the stack becomes `LayerStack.Add` with the given or default name ("Layer n+1") and image (a transparent canvas-size image) |
| Drawing.DrawingWindow.RemoveLayer | diary.py:689-697 | the stack becomes `LayerStack.Remove` of the old stack |
| Drawing.DrawingWindow.MoveLayerUp | diary.py:699-704 | the stack becomes `LayerStack.MoveUp` of the old stack |
| Drawing.DrawingWindow.MoveLayerDown | diary.py:706-711 | the stack becomes `LayerStack.MoveDown` of the old stack |
| Drawing.DrawingWindow.OnLayerSelect | diary.py:713-715 | the selected row becomes the active index; with no selection nothing changes |
| Drawing.DrawingWindow.SelectTool | diary.py:594-599 | the current tool becomes the chosen one |
| Drawing.DrawingWindow.SetSize | diary.py:621-627 | the size goes to the brush width for the brush and shape tools, to the eraser width for the eraser, and nowhere for fill |
| Drawing.DrawingWindow.ChooseColor | diary.py:629-633 | a picked colour becomes the brush colour; no pick keeps it |
| Drawing.DrawingWindow.SetOpacity | diary.py:403-407 | the slider sets the opacity within 0..255 |
| Drawing.DrawingWindow.CompositeLayers | diary.py:725-729 | the loop from the last layer to the first gives `Compositor.Composite` of the layers over opaque white |
| Raster.DropAlpha | diary.py:668 | `convert("RGB")` keeps the size and every pixel's colour and drops its alpha |
| Drawing.DrawingWindow.SaveDrawing | diary.py:663-668 | the saved image is the same composite as the display, with the alpha channel dropped |

## Left out

- Tk widgets are not modelled: the listbox refresh, the preview shapes and circle, the size frame, the text tags, the emoji menu and the calendar grid. The model keeps only the state they read or write.
- The pixels drawn by PIL are not modelled: lines, rectangles, ellipses, polygons, flood fill, resampling in `resize` and rounding in `alpha_composite`. They are the functions of `Library`. For `resize` only its documented size is stated (`ResizeHasRequestedSize`).
- The star and heart vertices use floating-point trigonometry, so they are not modelled. A star or heart is one `Stroke` command between the two corners.
- JSON and PNG file I/O is not modelled: `load_data`, `save_data_to_file`, the file write of `save_drawing`, `load_drawing`, and the picture window of `open_image_window` apart from the path it stores (`DiaryApp.AttachImage`). The constructor takes the saved drawing, if any, as a parameter. An image file that exists but cannot be decoded is not modelled.
- The clock is a parameter: `datetime.now()` becomes the constructor's `today` argument.
- HexColor.ParseInt16: non-ASCII Unicode digits and white space are not accepted. On strings longer than two characters, Python's `0x` prefix and underscores between digits are rejected although `int(s, 16)` accepts them ("0x1f" gives 31). Neither can occur in the slices of at most two characters that the program passes, where `ParseInt16OfShort` states the exact behaviour.
- Diary.DiaryApp.AttachImage: `load_image` uses the key of the date selected when the picture window opened; the model uses the date selected at the call. Opening, thumbnailing and showing the picture and writing the file are not modelled.
- HexColor.Scale: `amount` is an exact rational, not a binary float. A product that lands within one float rounding of an integer may truncate differently.
- Calendar.DateKey: the year is always written with four digits. For years before 1000 the platform's `strftime` may not pad it.
- Drawing.DrawingWindow.RemoveLayer: the guard `len(self.layers) > 0 and self.active_layer_index is not None` always holds, so it is not modelled. The same goes for the `if self.layers` guards of `fill`, `draw_shape`, `clear_action` and `_save_state_for_undo`.
- `update_calendar` is not modelled: it recomputes the grid, and only its display uses `_darken_hex`.
- `select_shape_tool` (diary.py:601-602) lower-cases the menu name; here a `Tool` value is passed to `SelectTool`.
- `composite_layers` is called after most actions only to refresh the display. Those calls are not modelled; `CompositeLayers` returns the image instead.
