# LiteViz core in Dafny

LiteViz is a Jupyter viewer for CT volumes stored as DICOM. This project models its deterministic core and proves properties of that model. The core has four parts:

- **Windowing and the slice compositor** (`DicomUtils`).
  - `wl2range` and `HU_to_gray` turn window/level settings and Hounsfield values into gray levels.
  - `DicomSlicer` holds the volume, an optional label volume, the label → organ → colour tables and the view-state dictionary.
  - Its `get_image` builds the frame for the current state. It can return an opaque black placeholder, the windowed gray slice, or that slice with a per-label RGBA overlay drawn over it. The overlay alpha is scaled by the mask opacity.
  - `get_image` is the method `DicomSlicer.GetImage`. It keeps the source's in-place overlay buffer (an `array2`), and it is proved equal to the specification function `Render`, about which the lemmas speak.
- **Widget value fitting** (`DicomWidget`). This is the `fit` helper of `DicomWidget.set_widget_value`: it clamps a value into a slider's range, snaps it to the step grid, and orders range-slider pairs.
- **The interactive viewer** (`Interactive`).
  - `InteractiveViewer` and its subclass `InteractiveSlicer` are merged into one class, whose handlers update the pointer, drag, crosshair and window snapshot fields and write the slicer's state.
  - The handlers cover coordinate scaling, wheel and arrow-key slice stepping, the absolute right-drag window/level update, the `m` mask toggle, and the re-entrancy guard of `refresh_display`.
- **The annotation canvas** (`CanvasUtils`).
  - `get_bounded_slice` is box arithmetic. `draw_rect` and `save_mask` write labels into a 3-D label array in place, and `load_mask` builds the RGBA image of a slice.
  - Around them sits the canvas's flag state machine: drawing, drawing-on-click, IJK mode, zooming and the last position.
- **The SAROS label scheme** (`Saros`). It holds the body-region and body-part enumerations, their colours, and the label → name tables built from them.

The imaging library is foreign code. `Image.new`, `Image.fromarray`, `convert` and `alpha_composite` are constructors of the `Raster.Image` datatype, so a frame is the term that says how it was built. The layer of the annotation canvas is represented the same way (`CanvasUtils.Layer`).

Python semantics are written out in `PyMath`:

- `int()` on a float truncates toward zero (`Trunc`).
- `round()` rounds half to even (`RoundHalfEven`).
- `max(lo, min(hi, x))` is `Clamp`.
- Negative sequence indices count from the end, and other out-of-range indices raise IndexError (`PyIndex`).

NumPy's slice normalisation is `CanvasUtils.NumpyRange`. Exceptions the code can raise are `Result` errors.

Five places where the model departs from the code are deliberate:

- `DicomSlicer.state` never defines `z_index_min` and `z_index_max`, which the wheel and key handlers read. The model carries them as explicit `ViewState` fields. The constructor and `set_data` set them to 0 and depth − 1, and the finding below shows what the code does without them.
- The comment on the right-drag update says the horizontal motion widens the window. The code shifts both ends with it and widens the window with the vertical motion. The model follows the code (`Interactive.WindowLevelDrag`).
- The canvas writes into `self.w.mask`, an attribute the viewer widget does not define. The model gives the canvas its own label array.
- `set_widget_value` fits slider values with the corrected `DicomWidget.Fit`, not the code's `fit`, which can round past max (first finding below). The two agree wherever the code's value is in range, and `DicomWidget.FitAsWritten` keeps the code's version.
- The hover status of `InteractiveSlicer.OnDragMove` reports the voxel value from the bounds-checked `DicomUtils.ValueAtJk`. The code's lookup always fails and shows 'N/A' (second finding below, kept as `Interactive.HoverLookupAsWritten`).

## Model

| member | source | states |
|---|---|---|
| DicomUtils.Wl2Range | dicom_utils/dicom_utils.py:10-12 | each end is within 1 of `l ∓ w/2`; for even widths it is exactly `l ∓ w/2`; for a non-negative width the pair is ordered and spans w − 1 or w |
| DicomUtils.PresetWindows | dicom_utils/dicom_utils.py:197-199 | the lung, mediastinum and bone presets are (-1350, 150), (-160, 240) and (-500, 1300) |
| DicomUtils.HuToGray | dicom_utils/dicom_utils.py:14-19 | the gray level is in 0..255; it is 0 at or below the window and 255 at or above it; inside the window it is the floor of `255·(v − low)/(high − low)`; an inverted window maps the other way round |
| DicomUtils.ScaledQuotient | dicom_utils/dicom_utils.py:18 | strictly inside the window the scaled value is below 255 and is the floor of the exact quotient |
| DicomUtils.HuToGrayMonotone | dicom_utils/dicom_utils.py:14-19 | for a proper window a brighter sample never gets a darker gray level |
| DicomUtils.HuToGrayTruncates | dicom_utils/dicom_utils.py:18 | the uint8 cast truncates: halfway through a window of width 2 gives 127, not 128 |
| DicomUtils.GrayOf | dicom_utils/dicom_utils.py:14-19 | windowing a slice keeps its shape and maps every sample by `HU_to_gray` |
| DicomUtils.DefaultState | dicom_utils/dicom_utils.py:50-56 | the initial state is slice 0, window (-130, 600), opacity 50, mask off, "only mask" off |
| DicomUtils.Merge | dicom_utils/dicom_utils.py:61-63 | `update_state` overwrites exactly the given keys and keeps every other one |
| DicomUtils.SliceRoundTrip | dicom_utils/dicom_utils.py:61-63 | moving to another slice and back restores the state and the rendered frame |
| DicomUtils.ReboundIndex | dicom_utils/dicom_utils.py:69-71 | an index at or past the new depth becomes 0, any other index is kept; a non-negative result is inside a non-empty volume |
| DicomUtils.OverlayPixelRule | dicom_utils/dicom_utils.py:108-112 | label 0 and labels with no organ colour stay transparent; every other label gets exactly its organ's colour |
| DicomUtils.OverlayOf | dicom_utils/dicom_utils.py:106-112 | the overlay has the mask slice's shape and follows the overlay pixel rule everywhere |
| DicomUtils.ScaledAlphaBounds | dicom_utils/dicom_utils.py:119-122 | the integer division by 100 is the floor of alpha·opacity/100, and for a byte alpha and opacity in 0..100 the result lies between 0 and the original alpha |
| DicomUtils.ScaleAlpha | dicom_utils/dicom_utils.py:119-122 | RGB is kept; alpha becomes `trunc(alpha·opacity/100)`, which for opacity in 0..100 is a byte no larger than the original |
| DicomUtils.ScaleAlphaGrid | dicom_utils/dicom_utils.py:119-122 | the opacity scaling applies to every overlay pixel and keeps the shape |
| DicomUtils.Render | dicom_utils/dicom_utils.py:77-126 | the frame `get_image` returns; it raises IndexError exactly when a drawn slice index is outside the image or the mask, raises ValueError only when an overlay is composited over a slice of another size, and otherwise succeeds; the mask-off, only-mask case never fails; a composited frame is produced whenever the mask is drawn over the slice |
| DicomUtils.RenderBlank | dicom_utils/dicom_utils.py:88-90 | mask off with "only mask" on gives an opaque black frame of the slice size, independent of slice, window, mask and tables |
| DicomUtils.RenderIgnoresMaskWhenOff | dicom_utils/dicom_utils.py:92-104 | with the mask off the frame does not depend on the mask's contents or the colour tables |
| DicomUtils.RenderGrayWithoutOverlay | dicom_utils/dicom_utils.py:93-98 | without an overlay, and outside "only mask" mode, the frame is the windowed current slice |
| DicomUtils.RenderOverlayOpacity | dicom_utils/dicom_utils.py:103-124 | with the mask on, the overlay drawn over the RGBA slice has the pixel rule's colours and alpha scaled by opacity/100 (unscaled at 100 or more); in "only mask" mode the frame is the unscaled overlay; otherwise the composite succeeds exactly when the mask slice and the image slice have the same size, and raises ValueError when they differ |
| DicomUtils.HalfOpacityExample | dicom_utils/dicom_utils.py:77-126 | one labelled voxel at opacity 50 with the default tables is drawn as (255, 0, 0, 64), and unlabelled pixels are clear |
| DicomUtils.RenderSize | dicom_utils/dicom_utils.py:88-124 | frames have the volume's (columns, rows) size, and the two operands of `alpha_composite` agree in size when the mask has the image's shape |
| DicomUtils.OrDefault | dicom_utils/dicom_utils.py:58-59 | a missing or empty table falls back to the default, and any other table is kept |
| DicomUtils.FrameIndices | dicom_utils/dicom_utils.py:133-134 | the animation renders the given indices, or every slice from 0 to depth − 1 |
| DicomUtils.PaintLabel | dicom_utils/dicom_utils.py:111-112 | the masked assignment writes the colour exactly where the slice holds the label and keeps every other pixel |
| DicomUtils.NewOverlay | dicom_utils/dicom_utils.py:106-112 | the loop over the label table fills a fresh buffer with exactly the overlay pixel rule |
| DicomUtils.ScaleAlphaInPlace | dicom_utils/dicom_utils.py:119-122 | the in-place alpha rewrite turns every pixel into its opacity-scaled value |
| DicomUtils.DicomSlicer.constructor | dicom_utils/dicom_utils.py:41-59 | the slicer keeps the arrays, starts in the default state, and uses the given tables or the defaults 1 → "mask" → (255, 0, 0, 128) |
| DicomUtils.DicomSlicer.UpdateState | dicom_utils/dicom_utils.py:61-63 | the new state is the old state merged with the given keys |
| DicomUtils.DicomSlicer.SetData | dicom_utils/dicom_utils.py:65-71 | both arrays are replaced; the slice index is reset to 0 exactly when it is at or past the new depth; the slice bounds become 0 and the new depth − 1 |
| DicomUtils.DicomSlicer.SetMaskMappings | dicom_utils/dicom_utils.py:73-75 | both tables are replaced |
| DicomUtils.DicomSlicer.GetImage | dicom_utils/dicom_utils.py:77-126 | the frame built with the in-place overlay buffer equals `Render` of the current state, including the IndexError of a bad slice index and the ValueError of `alpha_composite` for operands of different sizes |
| DicomUtils.DicomSlicer.SaveAnimation | dicom_utils/dicom_utils.py:128-147 | one frame per requested index, each rendered with the rest of the state unchanged; afterwards the state is as before; the first failing frame raises its error, every frame before it rendered, and the index is left at that frame's value |
| DicomUtils.AddMask | dicom_utils/dicom_utils.py:303-309 | a mask of a different shape raises ValueError and changes nothing; otherwise the slicer gets the mask and the tables and keeps its image, with the slice index and bounds as `set_data` leaves them |
| DicomUtils.ValueAtJk | dicom_utils/interactive_slicer.py:268 | the hover lookup finds the voxel at (slice, row, column) exactly when all three indices are in range |
| DicomWidget.FitAsWritten | dicom_utils/dicom_utils.py:224-229 | `fit` as written is at least min; it lies on the step grid and within half a step of the clamped value; with step 1 it is the clamp |
| DicomWidget.FitAsWrittenOvershoots | dicom_utils/dicom_utils.py:224-229 | on a 0..11 slider with step 4, fitting 11 gives 12, which is past max |
| DicomWidget.Fit | dicom_utils/dicom_utils.py:224-229 | the fitted value is in [min, max] and on the grid `min + k·step`; it agrees with the code wherever the code stays in range; with step 1 it is the clamp |
| DicomWidget.FitIdempotent | dicom_utils/dicom_utils.py:224-229 | fitting a fitted value changes nothing |
| DicomWidget.GridPointFixed | dicom_utils/dicom_utils.py:227-228 | a grid point in range is its own rounding |
| DicomWidget.SetWidgetValue | dicom_utils/dicom_utils.py:213-249 | sliders get a fitted value in range, equal to the code's `fit` whenever that is at most max; range sliders get an ordered pair of fitted ends; toggles get the truth value; values of the wrong form leave the widget unchanged; bounds and step never change |
| Interactive.ScaledCoord | dicom_utils/interactive_slicer.py:149-155 | the scaled coordinate is the buffer pixel under the pointer, clamped into the buffer (0 before the frame, the last pixel past it) |
| Interactive.Pointer | dicom_utils/interactive_slicer.py:145-155 | when the event carries a position and both display sizes are positive (a missing size defaults to the buffer size), each axis becomes the scaled buffer coordinate; otherwise the pointer is unchanged |
| Interactive.PointerInBuffer | dicom_utils/interactive_slicer.py:153-155 | whatever the event, a pointer inside the buffer stays inside it |
| Interactive.ScaledCoordNative | dicom_utils/interactive_slicer.py:149-152 | at native display size a pixel offset maps to itself |
| Interactive.PointerAtNativeSize | dicom_utils/interactive_slicer.py:145-152 | at native display size the pointer is the pixel the event points at |
| Interactive.InteractiveSlicer.MovePointer | dicom_utils/interactive_slicer.py:144-155 | the pointer becomes the rescaled event position, and a pointer inside the buffer stays inside it |
| Interactive.WheelTarget | dicom_utils/interactive_slicer.py:229-230 | a positive delta steps forward and any other delta steps back; the result is clamped into [z_min, z_max] |
| Interactive.WheelForwardBack | dicom_utils/interactive_slicer.py:229-230 | inside the range, a step forward and a step back return to the same slice |
| Interactive.KeyTarget | dicom_utils/interactive_slicer.py:282-285 | ArrowUp steps up to at most z_max; ArrowDown steps down to at least 0, not z_min; other keys keep the slice |
| Interactive.KeyTargetInSlices | dicom_utils/interactive_slicer.py:282-285 | arrow stepping keeps an index inside [0, z_max] |
| Interactive.WheelAsWritten | dicom_utils/interactive_slicer.py:224-230 | the wheel handler's reads fail with KeyError unless both bounds and the index are in the state dictionary |
| Interactive.KeydownAsWritten | dicom_utils/interactive_slicer.py:277-290 | the key handler reads the index and the upper bound before looking at the key, so a missing bound fails every key |
| Interactive.SliceStepsAsWrittenRaise | dicom_utils/dicom_utils.py:50-56 | on the dictionary the slicer builds, every wheel event and key press raises KeyError |
| Interactive.WheelStaysInVolume | dicom_utils/interactive_slicer.py:225-230 | with the bounds 0 and depth − 1 present, wheel stepping stays inside the volume |
| Interactive.WindowLevelDrag | dicom_utils/interactive_slicer.py:249-256 | the width changes by 2·s·dy and the sum of the ends by 2·s·dx, both from the drag-start snapshot |
| Interactive.WindowLevelDragInverse | dicom_utils/interactive_slicer.py:253-256 | dragging back by the same displacement from the new snapshot restores the window |
| Interactive.WindowLevelDragAxes | dicom_utils/interactive_slicer.py:253-256 | a horizontal drag keeps the width and a vertical drag keeps the centre |
| Interactive.HoverLookupAsWritten | dicom_utils/interactive_slicer.py:266-270 | the lookup as written always falls back to 'N/A' |
| Interactive.HoverLookupAsWrittenMissesVoxel | dicom_utils/interactive_slicer.py:266-270 | a voxel that exists is reported as 'N/A', while the bounds-checked lookup finds it |
| Interactive.InteractiveSlicer.constructor | dicom_utils/interactive_slicer.py:197-215 | the viewer takes its size from the first frame; it starts idle with the pointer at (0, 0), the placeholder shown, the RGB frame as base, and the slicer's window as snapshot |
| Interactive.InteractiveSlicer.UpdateStatus | dicom_utils/interactive_slicer.py:70-72 | the status changes only when the status line is enabled |
| Interactive.InteractiveSlicer.RefreshDisplay | dicom_utils/interactive_slicer.py:76-101 | a call during a refresh changes nothing; otherwise the base is replaced only when fetching (by the RGB frame), the widget gets the base, and the guard flag ends as it started |
| Interactive.InteractiveSlicer.ClearCross | dicom_utils/interactive_slicer.py:125-128 | the crosshair is removed and the display redrawn without fetching |
| Interactive.InteractiveSlicer.BaseDragStart | dicom_utils/interactive_slicer.py:167-176 | a press starts a drag at the pointer, records the button and puts the crosshair there |
| Interactive.InteractiveSlicer.OnDragStart | dicom_utils/interactive_slicer.py:237-243 | the slicer also snapshots the window, but only for button 2 |
| Interactive.InteractiveSlicer.BaseDragMove | dicom_utils/interactive_slicer.py:178-184 | a move reports the drag or the hover position and redraws without fetching |
| Interactive.InteractiveSlicer.OnDragMove | dicom_utils/interactive_slicer.py:245-274 | a right-drag sets the window from the snapshot and the total displacement, and the base becomes the newly rendered RGB frame of that state and is shown (a failing render raises and keeps base and widget); any other drag or a hover changes no slicer state and redraws the unchanged base; a drag reports its positions, a hover the voxel value from the corrected lookup |
| Interactive.InteractiveSlicer.OnDragEnd | dicom_utils/interactive_slicer.py:186-188 | release and leave only stop the drag |
| Interactive.InteractiveSlicer.OnWheel | dicom_utils/interactive_slicer.py:223-235 | the slice moves to the wheel target; when it moves, the base becomes the newly rendered RGB frame of the new state and is shown (a failing render raises and keeps base and widget); when it does not, state, status, base and widget are unchanged |
| Interactive.InteractiveSlicer.OnKeydown | dicom_utils/interactive_slicer.py:276-296 | 'm' flips the mask and always re-renders: the base becomes the new RGB frame and is shown; arrows move to the key target and re-render the same way only when the slice moved; any other key changes nothing |
| Interactive.InteractiveSlicer.HandleEvent | dicom_utils/interactive_slicer.py:141-163 | a context-menu event changes nothing; every other event rescales the pointer and dispatches: a wheel step, a key that moves the slice or 'm', and a right-drag move re-render the base from the new state and show it; presses, releases, other moves and keys that change nothing redraw or keep the unchanged base; each handler's effect on the slicer state and on the status line is carried over; only a press moves the drag start, button, crosshair and window snapshot, and only a press, release or leave changes the dragging flag |
| Interactive.RightDrag | dicom_utils/interactive_slicer.py:237-256 | a right-button press followed by a move sets the window to the drag update of the window at the press, by the displacement from the press point, and re-renders and shows the base for it |
| Interactive.NewInteractiveSlicer | dicom_utils/interactive_slicer.py:197-211 | construction renders the first frame and fails exactly when that render fails |
| CanvasUtils.Bound | dicom_utils/canvas_utils.py:15-17 | the clipped box starts at or above 0, ends at or below the shape, spans at most 2d + 1, contains an in-range centre, and is unclipped when it fits |
| CanvasUtils.GetBoundedSlice | dicom_utils/canvas_utils.py:8-20 | all three axes are bounded, and for an in-range point each contains the point and spans at most 2d + 1 |
| CanvasUtils.NumpyRange | dicom_utils/canvas_utils.py:124 | a NumPy slice selects a range inside [0, n]; in-range bounds are kept, and a negative stop counts from the end |
| CanvasUtils.Selection | dicom_utils/canvas_utils.py:123-124 | for an in-range centre the voxels written are exactly the bounded box |
| CanvasUtils.NegativeCentreWraps | dicom_utils/canvas_utils.py:123-124 | a centre far before the start makes the clipped stop negative, and the write then covers most of the axis |
| CanvasUtils.LabelImage | dicom_utils/canvas_utils.py:112-114 | the loaded image is opaque red where the slice holds the label and clear elsewhere |
| CanvasUtils.RedChannel | dicom_utils/canvas_utils.py:105 | the red channel has the image's shape and each pixel's red value |
| CanvasUtils.Stamp | dicom_utils/canvas_utils.py:107 | the slice gets the label where the red channel is positive and keeps its value elsewhere |
| CanvasUtils.SaveOfLoadedIsIdentity | dicom_utils/canvas_utils.py:102-116 | saving the image that loading pasted leaves the slice unchanged |
| CanvasUtils.StampIdempotent | dicom_utils/canvas_utils.py:107 | saving the same strokes twice is saving them once |
| CanvasUtils.MaskImage | dicom_utils/canvas_utils.py:112-114 | the image built row by row from the label array is the label image of the slice |
| CanvasUtils.AnnotationCanvas.constructor | dicom_utils/canvas_utils.py:38-47 | all flags start false, the zoom at 1.0, the last position at (0, 0), and the mask label at 1 |
| CanvasUtils.AnnotationCanvas.DrawRect | dicom_utils/canvas_utils.py:119-124 | exactly the voxels of the radius-2 box, as NumPy selects them, get the label; every other voxel is unchanged; without a mask nothing happens |
| CanvasUtils.AnnotationCanvas.SaveMask | dicom_utils/canvas_utils.py:101-107 | the current slice becomes its stamp by the red channel, and other slices are unchanged; a bad index or a wrongly shaped channel raises IndexError and writes nothing |
| CanvasUtils.AnnotationCanvas.LoadMask | dicom_utils/canvas_utils.py:108-118 | the layer becomes the label image of the current slice; with no mask nothing happens; a bad index raises IndexError |
| CanvasUtils.ClampZoom | dicom_utils/canvas_utils.py:130-131 | the clamped zoom lies in [0.5, 4.0]; an in-range zoom is kept, a smaller one becomes 0.5 and a larger one 4.0 |
| CanvasUtils.AnnotationCanvas.ZoomBy | dicom_utils/canvas_utils.py:127-146 | the new zoom is the clamp of the old zoom times the factor, so 0.5 ≤ zoom ≤ 4.0 and an in-range product is kept exactly; the message reports the scaled size |
| CanvasUtils.AnnotationCanvas.ShowZoomSize | dicom_utils/canvas_utils.py:144 | the message reports the buffer width and height scaled by the zoom, each truncated toward zero |
| CanvasUtils.AnnotationCanvas.OnKeyboardEvent | dicom_utils/canvas_utils.py:74-99 | '.' zooms in by 1.1 and ',' out by 0.9, clamped into [0.5, 4.0]; 'd' toggles drawing on click; 'p' toggles IJK mode; 's' stops drawing and saves, with `save_mask`'s effect on the mask and its IndexError cases; 'l' loads the current slice into the layer, as `load_mask` does; 'c' clears the layer; other keys change no flag, no zoom and no mask |
| CanvasUtils.AnnotationCanvas.OnMouseDown | dicom_utils/canvas_utils.py:148-169 | a press records the position and sets zooming; drawing is armed iff drawing on click; otherwise IJK mode paints the box at (slice, round(y), round(x)); the 'Click at' branch is unreachable |
| CanvasUtils.AnnotationCanvas.OnMouseMove | dicom_utils/canvas_utils.py:171-183 | while drawing, a line is stroked and the position advances; otherwise only the hover message changes |
| CanvasUtils.AnnotationCanvas.OnMouseUp | dicom_utils/canvas_utils.py:187-190 | release stops drawing and zooming and records the position |
| CanvasUtils.AnnotationCanvas.OnMouseOut | dicom_utils/canvas_utils.py:192-193 | `_on_mouse_out` clears the drawing flag; the canvas never registers it as a handler (dicom_utils/canvas_utils.py:57-65), so in the running widget a stroke that leaves the canvas stays active until the next mouse-up |
| Saros.Comprehend | dicom_utils/label_schemes/saros.py:53-54 | a table built from the members has only positive keys |
| Saros.ComprehendKeys | dicom_utils/label_schemes/saros.py:53-54 | its keys are exactly the positive member values |
| Saros.ComprehendValue | dicom_utils/label_schemes/saros.py:53-54 | with distinct values, every member with a positive value is listed under its own name |
| Saros.RegionValue | dicom_utils/label_schemes/saros.py:3-17 | region values are in 0..13 |
| Saros.RegionFromValue | dicom_utils/label_schemes/saros.py:3-17 | a region exists for exactly the values 0..13, and it has that value |
| Saros.RegionValueRoundTrip | dicom_utils/label_schemes/saros.py:3-17 | looking a region up by its value gives it back |
| Saros.RegionValuesDistinct | dicom_utils/label_schemes/saros.py:3-17 | no two regions share a value |
| Saros.RegionAtPosition | dicom_utils/label_schemes/saros.py:3-17 | the i-th region in declaration order has value i |
| Saros.BodyRegionsDictContents | dicom_utils/label_schemes/saros.py:53 | the region table has exactly the keys 1..13, with background excluded, each under its member's name |
| Saros.RegionColorsComplete | dicom_utils/label_schemes/saros.py:29-43 | every region but background has a colour, and every colour is an opaque byte quadruple |
| Saros.RegionLabelsPainted | dicom_utils/label_schemes/saros.py:29-53 | with the region tables the compositor paints labels 1..13 opaquely in their colour, and other labels not at all |
| Saros.PartValue | dicom_utils/label_schemes/saros.py:20-27 | part values are in 0..6 |
| Saros.PartFromValue | dicom_utils/label_schemes/saros.py:20-27 | a part exists for exactly the values 0..6, and it has that value |
| Saros.PartValueRoundTrip | dicom_utils/label_schemes/saros.py:20-27 | looking a part up by its value gives it back |
| Saros.PartValuesDistinct | dicom_utils/label_schemes/saros.py:20-27 | no two parts share a value |
| Saros.PartAtPosition | dicom_utils/label_schemes/saros.py:20-27 | the i-th part in declaration order has value i |
| Saros.BodyPartsDictContents | dicom_utils/label_schemes/saros.py:54 | the part table has exactly the keys 1..6, each under its member's name |
| Saros.PartColorsComplete | dicom_utils/label_schemes/saros.py:44-51 | every part but background has a colour, and every colour is an opaque byte quadruple |
| Saros.PartLabelsPainted | dicom_utils/label_schemes/saros.py:44-54 | with the part tables the compositor paints labels 1..6 opaquely in their colour, and other labels not at all |

## Left out

- **Widget plumbing is not modelled.** This covers `DicomWidget`'s observers, `_on_change`, `_update_image`, `update_case` and `ignore_updates`, and the display helpers. It is ipywidgets wiring around the modelled calls.
- **Encoding and file output are not modelled** (`save_PILlst_webp`, `_pil_to_bytes`, the WebP buffers). They are I/O, so `SaveAnimation` returns the frames instead of writing them.
- **The imaging library is not modelled.** `Image.new`, `fromarray`, `convert`, `alpha_composite` and the canvas drawing calls are uninterpreted constructors. Their pixel arithmetic is foreign code.
- Interactive.InteractiveSlicer.RefreshDisplay: does not draw the debug shapes. The hover circle, drag line and crosshair of `_draw_overlays` are ImageDraw calls on a copy, so the widget is given the base image itself.
- **The crosshair timer is not modelled.** The thread and its sleep become `ClearCross`, which the environment may call at any time. The sleeps in `save_mask` are timing only.
- Interactive.InteractiveSlicer.HandleEvent: does not model missing dictionary keys. An event without `type`, `button`, `deltaY` or `key` raises KeyError in the code, and the model assumes these keys are present.
- DicomUtils.HuToGray: computes with exact rationals, while the code uses float32 arithmetic that can round a value on a gray-level boundary differently.
- DicomUtils.ScaleAlpha: does not model float32 arithmetic or uint8 wrap-around. Its contract covers opacities in 0..100, which are the slider's range. A negative or huge opacity would wrap in the uint8 cast.
- CanvasUtils.AnnotationCanvas.ZoomBy: uses exact reals instead of floating point. The canvas layout strings it builds are reduced to the scaled size.
- DicomWidget.SetWidgetValue: models only integer values and tuples of integers. Tuples of other types, and the pass-through branch for widgets without min/max, are not modelled.
- DicomWidget.SetWidgetValue: fits with the corrected `Fit`, so where the code's `fit` rounds past max (0..11, step 4, value 11 gives 12) the model stores the grid point below it (8) instead.
- Interactive.InteractiveSlicer.OnDragMove: the hover status carries the voxel value, where the code always shows 'N/A'. `HandleEvent` inherits this for mouse moves.
- CanvasUtils.AnnotationCanvas.OnMouseOut: is a method the environment may call, but the canvas never registers `_on_mouse_out` as a handler, so in the running widget leaving the canvas does not stop a stroke.
- Interactive.InteractiveSlicer.OnWheel: reads the slice bounds from `ViewState` fields, where the code raises KeyError on every wheel event (third finding below). `OnKeydown` does the same for the upper bound.
- Interactive.ScaledCoord: computes `relativeX * (width / disp_w)` with exact reals instead of floating point, so a product that lands just below a whole number in floating point can truncate to a different pixel.
- CanvasUtils.AnnotationCanvas.DrawRect: stores labels as unbounded integers. The label array's dtype, and any truncation of a label on store, are not modelled. The same holds for `SaveMask`.
- **Some unused state is left out.** This covers the slicer's `origin` and `spacing`, the canvas's touch handlers, its `msg` text widget (reduced to `Message`), and `w.controls.update()`.
- **Exception reporting is not modelled.** The canvas methods wrapped in `log_out.capture()` report exceptions in an output widget. The model returns the error as a `Result`.

## Findings

| source | as written | input that shows it | evidently intended | confidence | as-written member | corrected member |
|---|---|---|---|---|---|---|
| dicom_utils/dicom_utils.py:224-229 | `fit` clamps first and snaps to the step grid afterwards, so the rounding can step past `max` | IntSlider min 0, max 11, step 4, value 11: the fitted value is 12 | a value on the grid and inside [min, max] | high (not executed) | DicomWidget.FitAsWrittenOvershoots | DicomWidget.Fit |
| dicom_utils/interactive_slicer.py:266-270 | the hover calls `get_value_at_jk`, which `DicomSlicer` does not define; the AttributeError is caught, so the value is always 'N/A' | hovering over slice 3, row 1, column 2 of a 10×4×4 volume of zeros shows 'N/A' instead of 0 | the voxel value under the pointer | high (not executed) | Interactive.HoverLookupAsWrittenMissesVoxel | DicomUtils.ValueAtJk |
| dicom_utils/interactive_slicer.py:225-226 | the wheel and key handlers read `z_index_min`/`z_index_max`, which the slicer's state dictionary (dicom_utils/dicom_utils.py:50-56) never contains | any wheel event, or any key press including 'm', raises KeyError before anything changes | slice stepping clamped to the volume, and the mask toggle | high (not executed) | Interactive.SliceStepsAsWrittenRaise | Interactive.WheelStaysInVolume |
