/** The pointer/keyboard state machine of the interactive viewer
    (`InteractiveViewer` and its slicer subclass `InteractiveSlicer`).

    One class holds the fields of both: the generic viewer state (pointer,
    drag, crosshair, re-entrancy flag, base image) and the slicer-specific
    window/level snapshot. The slicer backend is a `DicomUtils.DicomSlicer`
    whose `state` the handlers write. */
module Interactive {
  import opened Wrappers
  import opened PyMath
  import opened Raster
  import opened DicomUtils

  datatype EventType = ContextMenu | Wheel | MouseDown | MouseUp | MouseLeave | MouseMove | KeyDown

  /** A DOM event as the event source delivers it. `relative` is present when the
      event carries `relativeX`/`relativeY`; the bounding-rectangle sizes may be
      missing, in which case the buffer size stands in for them. */
  datatype Event = Event(
    kind: EventType,
    relative: Option<(real, real)>,
    rectWidth: Option<real>,
    rectHeight: Option<real>,
    button: int,
    deltaY: real,
    key: string)

  /** The status line's text, by the handler that wrote it. */
  datatype Status =
    | Ready
    | DragStarted(pos: (int, int))
    | Dragging(from: (int, int), to: (int, int))
    | Hovering(pos: (int, int))
    /** The slicer's hover line; `None` is the 'N/A' fallback. */
    | HoverValue(pos: (int, int), value: Option<int>)
    | SliceOf(z: int, last: int)
    | SliceAt(z: int)
    | WindowLevel(low: int, high: int)
    | MaskShown(on: bool)

  /** The fill of the RGB placeholder frame shown before the first refresh (its
      alpha is not used). */
  const PlaceholderGray := Color(100, 100, 100, 255)

  // ---------------------------------------------------------------------------
  // Coordinate scaling
  // ---------------------------------------------------------------------------

  lemma ScaleFacts(rel: real, size: int, disp: real)
    requires disp > 0.0 && size > 0
    ensures rel <= 0.0 ==> rel * (size as real / disp) <= 0.0
    ensures 0.0 <= rel < disp ==> 0.0 <= rel * (size as real / disp) < size as real
    ensures disp <= rel ==> size as real <= rel * (size as real / disp)
  {
    var q := size as real / disp;
    assert q > 0.0;
    assert disp * q == size as real;
    if rel <= 0.0 {
      assert rel * q - 0.0 * q == rel * q;
      assert (0.0 - rel) * q >= 0.0;
    }
    if 0.0 <= rel < disp {
      assert (disp - rel) * q > 0.0;
      assert rel * q >= 0.0;
    }
    if disp <= rel {
      assert (rel - disp) * q >= 0.0;
    }
  }

  /** One axis of the display-to-buffer scaling: the display offset times
      buffer/display size, truncated, then clamped into the buffer. The result is
      the buffer pixel under the pointer. */
  function ScaledCoord(rel: real, size: int, disp: real): (r: int)
    requires disp > 0.0
    ensures 0 < size ==> 0 <= r < size
    ensures rel <= 0.0 ==> r == 0
    ensures 0 < size && 0.0 <= rel < disp ==>
      r as real <= rel * (size as real / disp) < r as real + 1.0
    ensures 0 < size && disp <= rel ==> r == size - 1
  {
    if size > 0 then ScaleFacts(rel, size, disp); Clamp(Trunc(rel * (size as real / disp)), 0, size - 1)
    else Clamp(Trunc(rel * (size as real / disp)), 0, size - 1)
  }

  /** The pointer position after an event: rescaled when the event carries a
      position and both display sizes are positive, unchanged otherwise. */
  function Pointer(e: Event, width: int, height: int, x: int, y: int): (p: (int, int))
    ensures e.relative.None? ==> p == (x, y)
    ensures e.relative.Some? && e.rectWidth.Some? && e.rectWidth.value <= 0.0 ==> p == (x, y)
    ensures e.relative.Some? && e.rectHeight.Some? && e.rectHeight.value <= 0.0 ==> p == (x, y)
    ensures e.relative.Some? && e.rectWidth.GetOr(width as real) > 0.0 && e.rectHeight.GetOr(height as real) > 0.0 ==>
      p == (ScaledCoord(e.relative.value.0, width, e.rectWidth.GetOr(width as real)),
            ScaledCoord(e.relative.value.1, height, e.rectHeight.GetOr(height as real)))
    ensures e.relative.Some? && e.rectWidth.None? && e.rectHeight.None? && 0 < width && 0 < height ==>
      p == (ScaledCoord(e.relative.value.0, width, width as real),
            ScaledCoord(e.relative.value.1, height, height as real))
  {
    if e.relative.Some? then
      var dw := e.rectWidth.GetOr(width as real);
      var dh := e.rectHeight.GetOr(height as real);
      if dw > 0.0 && dh > 0.0 then
        (ScaledCoord(e.relative.value.0, width, dw), ScaledCoord(e.relative.value.1, height, dh))
      else (x, y)
    else (x, y)
  }

  /** Whatever the event, a pointer inside the buffer stays inside it. */
  lemma PointerInBuffer(e: Event, width: int, height: int, x: int, y: int)
    requires 0 <= x < width && 0 <= y < height
    ensures var p := Pointer(e, width, height, x, y);
      0 <= p.0 < width && 0 <= p.1 < height
  {
  }

  /** At native size (display size equal to the buffer size) a pixel offset maps to
      itself. */
  lemma ScaledCoordNative(i: int, size: int)
    requires 0 <= i < size
    ensures ScaledCoord(i as real, size, size as real) == i
  {
    var one := size as real / size as real;
    assert one == 1.0;
    assert i as real * one == i as real;
  }

  /** When the display shows the buffer at its own size, a pointer offset inside the
      frame maps to the pixel it is on. */
  lemma PointerAtNativeSize(e: Event, width: int, height: int, x: int, y: int, i: int, j: int)
    requires e.relative == Some((i as real, j as real)) && e.rectWidth.None? && e.rectHeight.None?
    requires 0 <= i < width && 0 <= j < height
    ensures Pointer(e, width, height, x, y) == (i, j)
  {
    ScaledCoordNative(i, width);
    ScaledCoordNative(j, height);
  }

  // ---------------------------------------------------------------------------
  // Slice stepping and window/level
  // ---------------------------------------------------------------------------

  /** The wheel's target slice: one step forward for a positive delta, one back
      otherwise (a zero delta included), clamped into [zMin, zMax]. */
  function WheelTarget(z: int, deltaY: real, zMin: int, zMax: int): (r: int)
    ensures zMin <= zMax ==> zMin <= r <= zMax
    ensures deltaY > 0.0 && zMin <= z < zMax ==> r == z + 1
    ensures deltaY <= 0.0 && zMin < z <= zMax ==> r == z - 1
    ensures deltaY > 0.0 && zMin <= zMax <= z ==> r == zMax
    ensures deltaY <= 0.0 && z <= zMin <= zMax ==> r == zMin
  {
    Clamp(z + (if deltaY > 0.0 then 1 else -1), zMin, zMax)
  }

  /** Inside the range, a wheel step forward and one back return to the same slice. */
  lemma WheelForwardBack(z: int, up: real, down: real, zMin: int, zMax: int)
    requires zMin <= z < zMax && up > 0.0 && down <= 0.0
    ensures WheelTarget(WheelTarget(z, up, zMin, zMax), down, zMin, zMax) == z
  {
  }

  /** The arrow keys' target slice: up stops at zMax, down stops at 0 (not at
      zMin); any other key keeps the slice. */
  function KeyTarget(key: string, z: int, zMax: int): (r: int)
    ensures key == "ArrowUp" ==> r <= zMax && (z < zMax ==> r == z + 1) && (zMax <= z ==> r == zMax)
    ensures key == "ArrowDown" ==> 0 <= r && (0 < z ==> r == z - 1) && (z <= 0 ==> r == 0)
    ensures key != "ArrowUp" && key != "ArrowDown" ==> r == z
  {
    if key == "ArrowUp" then Min(zMax, z + 1)
    else if key == "ArrowDown" then Max(0, z - 1)
    else z
  }

  /** Arrow stepping keeps a slice index inside [0, zMax]. */
  lemma KeyTargetInSlices(key: string, z: int, zMax: int)
    requires 0 <= z <= zMax
    ensures 0 <= KeyTarget(key, z, zMax) <= zMax
  {
  }

  /** The keys of the slicer's state dictionary as its constructor builds it. The
      slice bounds the wheel and key handlers read are not among them. */
  const SlicerStateKeys: set<string> := {"z_index", "hu", "mask_opacity", "mask_on", "only_mask"}

  /** The wheel handler's reads as written, on a state dictionary with the given
      keys: the new slice, or the KeyError of the first missing key. */
  function WheelAsWritten(keys: set<string>, s: ViewState, deltaY: real): (r: Result<int, PyError>)
    ensures r.Ok? <==> {"z_index_min", "z_index_max", "z_index"} <= keys
    ensures r.Ok? ==> r.value == WheelTarget(s.zIndex, deltaY, s.zIndexMin, s.zIndexMax)
  {
    if "z_index_min" !in keys || "z_index_max" !in keys || "z_index" !in keys then Err(KeyError)
    else Ok(WheelTarget(s.zIndex, deltaY, s.zIndexMin, s.zIndexMax))
  }

  /** The key handler's reads as written: the slice and its upper bound are read
      before the key is looked at, so a missing bound fails every key, 'm' too. */
  function KeydownAsWritten(keys: set<string>, s: ViewState, key: string): (r: Result<ViewState, PyError>)
    ensures r.Ok? <==> {"z_index", "z_index_max"} <= keys
    ensures r.Ok? && key == "m" ==> r.value == s.(maskOn := !s.maskOn)
    ensures r.Ok? && key != "m" ==> r.value == s.(zIndex := KeyTarget(key, s.zIndex, s.zIndexMax))
  {
    if "z_index" !in keys || "z_index_max" !in keys then Err(KeyError)
    else if key == "m" then Ok(s.(maskOn := !s.maskOn))
    else Ok(s.(zIndex := KeyTarget(key, s.zIndex, s.zIndexMax)))
  }

  /** On the dictionary the slicer really builds, every wheel event and every key
      press raises KeyError: the slice never moves and the mask never toggles. */
  lemma SliceStepsAsWrittenRaise(s: ViewState, deltaY: real, key: string)
    ensures WheelAsWritten(SlicerStateKeys, s, deltaY) == Err(KeyError)
    ensures KeydownAsWritten(SlicerStateKeys, s, key) == Err(KeyError)
  {
    assert "z_index_min" !in SlicerStateKeys;
    assert "z_index_max" !in SlicerStateKeys;
  }

  /** With the bounds present (as the slicer's default state provides them: 0 and
      the last slice), wheel stepping stays inside the volume. */
  lemma WheelStaysInVolume(depth: nat, s: ViewState, deltaY: real)
    requires depth > 0 && s.zIndexMin == 0 && s.zIndexMax == depth - 1
    ensures 0 <= WheelTarget(s.zIndex, deltaY, s.zIndexMin, s.zIndexMax) < depth
    ensures WheelAsWritten(SlicerStateKeys + {"z_index_min", "z_index_max"}, s, deltaY).Ok?
  {
  }

  /** The right-drag window/level update, absolute from the snapshot `hu0` taken at
      drag start and the total displacement since then: the horizontal motion
      shifts both ends, the vertical motion moves them apart. */
  function WindowLevelDrag(hu0: (int, int), s: int, dx: int, dy: int): (r: (int, int))
    ensures r.1 - r.0 == (hu0.1 - hu0.0) + 2 * s * dy
    ensures r.0 + r.1 == (hu0.0 + hu0.1) + 2 * s * dx
  {
    (hu0.0 + s * dx - s * dy, hu0.1 + s * dx + s * dy)
  }

  /** Dragging back by the same displacement from the new snapshot restores the
      range: the update has no drift. */
  lemma WindowLevelDragInverse(hu0: (int, int), s: int, dx: int, dy: int)
    ensures WindowLevelDrag(WindowLevelDrag(hu0, s, dx, dy), s, -dx, -dy) == hu0
  {
    var r := WindowLevelDrag(hu0, s, dx, dy);
    var q := WindowLevelDrag(r, s, -dx, -dy);
    assert q.1 - q.0 == hu0.1 - hu0.0;
    assert q.0 + q.1 == hu0.0 + hu0.1;
  }

  /** A horizontal drag keeps the window width; a vertical one keeps the centre. */
  lemma WindowLevelDragAxes(hu0: (int, int), s: int, dx: int, dy: int)
    ensures WindowLevelDrag(hu0, s, dx, 0).1 - WindowLevelDrag(hu0, s, dx, 0).0 == hu0.1 - hu0.0
    ensures WindowLevelDrag(hu0, s, 0, dy).0 + WindowLevelDrag(hu0, s, 0, dy).1 == hu0.0 + hu0.1
  {
  }

  // ---------------------------------------------------------------------------
  // Hover lookup
  // ---------------------------------------------------------------------------

  /** The hover lookup as the viewer writes it: it calls a `get_value_at_jk` that
      the slicer class does not define, the AttributeError is caught, and the
      value shown is always 'N/A'. */
  function HoverLookupAsWritten(img: Volume, z: int, j: int, k: int): (r: Option<int>)
    ensures r.None?
  {
    None
  }

  /** A voxel that exists is still reported as 'N/A' by the lookup as written,
      while the bounds-checked lookup finds it. */
  lemma HoverLookupAsWrittenMissesVoxel()
    ensures HoverLookupAsWritten(ExampleImage, 3, 1, 2) == None
    ensures ValueAtJk(ExampleImage, 3, 1, 2) == Some(0)
  {
    assert ExampleImage.slices[3][1][2] == 0;
  }

  // ---------------------------------------------------------------------------
  // The viewer
  // ---------------------------------------------------------------------------

  class InteractiveSlicer {
    const slicer: DicomSlicer
    const width: int
    const height: int
    const showStatus: bool
    var wlSens: int
    var mouseX: int
    var mouseY: int
    var isDragging: bool
    var dragStartPos: (int, int)
    /** `None` until the first button press. */
    var dragButton: Option<int>
    var crossPos: Option<(int, int)>
    /** The window snapshot a right-drag starts from. */
    var hu0: (int, int)
    var isUpdating: bool
    var baseImage: Image
    /** The frame the image widget holds (debug shapes are not drawn in this model). */
    var shown: Image
    var status: Status

    ghost predicate Valid()
      reads this, slicer
    {
      slicer.Valid()
    }

    /** The frame a refresh that fetches a new base would show now. */
    ghost function Fetched(): Result<Image, PyError>
      reads this, slicer
    {
      Render(slicer.img, slicer.mask, slicer.labelToOrgan, slicer.organToColor, slicer.state)
    }

    /** What a refresh that fetches a new base leaves behind. During a refresh nothing
        changes; otherwise a successful render, converted to RGB, becomes the base and
        is shown, and a failing render raises its error with the base and the widget
        as they were. */
    twostate predicate Refetched(new r: Result<(), PyError>)
      reads this, slicer
    {
      && (old(isUpdating) ==> r.Ok? && baseImage == old(baseImage) && shown == old(shown))
      && (!old(isUpdating) ==>
            && (r.Ok? <==> Fetched().Ok?)
            && (r.Ok? ==> baseImage == Converted(RGB, Fetched().value) && shown == baseImage)
            && (r.Err? ==> r.error == Fetched().error && baseImage == old(baseImage) && shown == old(shown)))
    }

    /** What a redraw without fetching leaves behind: the base is kept and, outside a
        refresh, shown again. */
    twostate predicate Redrawn(new r: Result<(), PyError>)
      reads this
    {
      && r.Ok? && baseImage == old(baseImage)
      && (!old(isUpdating) ==> shown == baseImage)
      && (old(isUpdating) ==> shown == old(shown))
    }

    /** The pointer is over the frame. */
    ghost predicate InBuffer()
      reads this
    {
      0 <= mouseX < width && 0 <= mouseY < height
    }

    constructor (slicer: DicomSlicer, initial: Image, showStatus: bool)
      requires slicer.Valid()
      ensures Valid()
      ensures this.slicer == slicer && this.showStatus == showStatus
      ensures (width, height) == Size(initial)
      ensures mouseX == 0 && mouseY == 0 && !isDragging && dragStartPos == (0, 0)
      ensures dragButton.None? && crossPos.None? && !isUpdating
      ensures wlSens == 1 && hu0 == slicer.state.hu
      ensures baseImage == Converted(RGB, initial)
      ensures shown == Filled(RGB, Size(initial).0, Size(initial).1, PlaceholderGray)
      ensures status == Ready
    {
      this.slicer := slicer;
      width := Size(initial).0;
      height := Size(initial).1;
      this.showStatus := showStatus;
      mouseX := 0;
      mouseY := 0;
      isDragging := false;
      dragStartPos := (0, 0);
      dragButton := None;
      crossPos := None;
      isUpdating := false;
      shown := Filled(RGB, Size(initial).0, Size(initial).1, PlaceholderGray);
      status := Ready;
      baseImage := Converted(RGB, initial);
      wlSens := 1;
      hu0 := slicer.state.hu;
    }

    /** `update_status`: only when the status line is enabled. */
    method UpdateStatus(s: Status)
      modifies this`status
      ensures status == (if showStatus then s else old(status))
    {
      if showStatus {
        status := s;
      }
    }

    /** `refresh_display`. A call made while a refresh is in progress does nothing,
        so the flag keeps the value it had on entry. Otherwise the base image is
        replaced by a freshly rendered frame (converted to RGB) only when asked to,
        and the widget is given the base image. A failing render raises; the flag is
        still reset and nothing else changes. */
    method RefreshDisplay(fetchNewBase: bool) returns (r: Result<(), PyError>)
      requires Valid()
      modifies this`isUpdating, this`baseImage, this`shown
      ensures isUpdating == old(isUpdating)
      ensures old(isUpdating) ==> r.Ok? && baseImage == old(baseImage) && shown == old(shown)
      ensures !old(isUpdating) && !fetchNewBase ==> r.Ok? && baseImage == old(baseImage) && shown == baseImage
      ensures !old(isUpdating) && fetchNewBase ==>
        (&& (r.Ok? <==> Fetched().Ok?)
         && (r.Ok? ==> baseImage == Converted(RGB, Fetched().value) && shown == baseImage)
         && (r.Err? ==> r.error == Fetched().error && baseImage == old(baseImage) && shown == old(shown)))
    {
      if isUpdating {
        return Ok(());
      }
      isUpdating := true;
      r := Ok(());
      if fetchNewBase {
        var f := slicer.GetImage();
        if f.Err? {
          isUpdating := false;
          return Err(f.error);
        }
        baseImage := Converted(RGB, f.value);
      }
      shown := baseImage;
      isUpdating := false;
    }

    /** The crosshair timer's action once it fires: drop the cross and redraw. */
    method ClearCross() returns (r: Result<(), PyError>)
      requires Valid()
      modifies this`crossPos, this`isUpdating, this`shown, this`baseImage
      ensures crossPos.None? && r.Ok?
      ensures baseImage == old(baseImage) && isUpdating == old(isUpdating)
      ensures !old(isUpdating) ==> shown == baseImage
    {
      crossPos := None;
      r := RefreshDisplay(false);
    }

    /** The generic press: start dragging from the current pointer, remember the
        button, put the crosshair there and redraw without fetching. */
    method BaseDragStart(e: Event) returns (r: Result<(), PyError>)
      requires Valid()
      modifies this`isDragging, this`dragStartPos, this`dragButton, this`crossPos, this`status
      modifies this`isUpdating, this`baseImage, this`shown
      ensures isDragging && dragStartPos == (mouseX, mouseY) && crossPos == Some((mouseX, mouseY))
      ensures dragButton == Some(e.button)
      ensures status == (if showStatus then DragStarted((mouseX, mouseY)) else old(status))
      ensures r.Ok? && baseImage == old(baseImage) && isUpdating == old(isUpdating)
      ensures !old(isUpdating) ==> shown == baseImage
      ensures old(isUpdating) ==> shown == old(shown)
    {
      isDragging := true;
      dragStartPos := (mouseX, mouseY);
      dragButton := Some(e.button);
      crossPos := Some((mouseX, mouseY));
      UpdateStatus(DragStarted(dragStartPos));
      r := RefreshDisplay(false);
    }

    /** The slicer's press: the generic press, and for the right button a snapshot
        of the current window. */
    method OnDragStart(e: Event) returns (r: Result<(), PyError>)
      requires Valid()
      modifies this`isDragging, this`dragStartPos, this`dragButton, this`crossPos, this`status
      modifies this`isUpdating, this`baseImage, this`shown, this`hu0
      ensures isDragging && dragStartPos == (mouseX, mouseY) && crossPos == Some((mouseX, mouseY))
      ensures dragButton == Some(e.button)
      ensures hu0 == (if e.button == 2 then slicer.state.hu else old(hu0))
      ensures status == (if showStatus then DragStarted((mouseX, mouseY)) else old(status))
      ensures r.Ok? && baseImage == old(baseImage) && isUpdating == old(isUpdating)
      ensures !old(isUpdating) ==> shown == baseImage
      ensures old(isUpdating) ==> shown == old(shown)
    {
      r := BaseDragStart(e);
      if dragButton == Some(2) {
        hu0 := slicer.state.hu;
      }
    }

    /** The generic move: report the drag or the hover position and redraw. */
    method BaseDragMove() returns (r: Result<(), PyError>)
      requires Valid()
      modifies this`status, this`isUpdating, this`baseImage, this`shown
      ensures status == (if !showStatus then old(status)
                         else if isDragging then Dragging(dragStartPos, (mouseX, mouseY))
                         else Hovering((mouseX, mouseY)))
      ensures r.Ok? && baseImage == old(baseImage) && isUpdating == old(isUpdating)
      ensures !old(isUpdating) ==> shown == baseImage
      ensures old(isUpdating) ==> shown == old(shown)
    {
      if isDragging {
        UpdateStatus(Dragging(dragStartPos, (mouseX, mouseY)));
      } else {
        UpdateStatus(Hovering((mouseX, mouseY)));
      }
      r := RefreshDisplay(false);
    }

    /** The slicer's move. A right-drag sets the window from the snapshot and the
        total displacement, then fetches a new frame; any other drag is the generic
        move; a hover reports the voxel under the pointer and only redraws. The hover
        uses the bounds-checked `ValueAtJk`, where the code's lookup always fails and
        reports 'N/A' (`HoverLookupAsWritten`). */
    method OnDragMove() returns (r: Result<(), PyError>)
      requires Valid()
      modifies this`status, this`isUpdating, this`baseImage, this`shown, slicer`state
      ensures isDragging && dragButton == Some(2) ==>
        (&& slicer.state == old(slicer.state).(hu := WindowLevelDrag(hu0, wlSens, mouseX - dragStartPos.0, mouseY - dragStartPos.1))
         && status == (if showStatus then WindowLevel(slicer.state.hu.0, slicer.state.hu.1) else old(status))
         && Refetched(r))
      ensures !(isDragging && dragButton == Some(2)) ==> slicer.state == old(slicer.state) && Redrawn(r)
      ensures isDragging && dragButton != Some(2) ==>
        status == (if showStatus then Dragging(dragStartPos, (mouseX, mouseY)) else old(status))
      ensures !isDragging ==>
        status == (if showStatus then HoverValue((mouseX, mouseY), ValueAtJk(slicer.img, slicer.state.zIndex, mouseY, mouseX))
                   else old(status))
      ensures isUpdating == old(isUpdating)
    {
      if isDragging {
        if dragButton == Some(2) {
          var hu := WindowLevelDrag(hu0, wlSens, mouseX - dragStartPos.0, mouseY - dragStartPos.1);
          slicer.state := slicer.state.(hu := hu);
          UpdateStatus(WindowLevel(hu.0, hu.1));
          r := RefreshDisplay(true);
        } else {
          r := BaseDragMove();
        }
      } else {
        var val := ValueAtJk(slicer.img, slicer.state.zIndex, mouseY, mouseX);
        UpdateStatus(HoverValue((mouseX, mouseY), val));
        r := RefreshDisplay(false);
      }
    }

    /** Release or leave: stop dragging and redraw; nothing else changes. */
    method OnDragEnd() returns (r: Result<(), PyError>)
      requires Valid()
      modifies this`isDragging, this`isUpdating, this`baseImage, this`shown
      ensures !isDragging
      ensures r.Ok? && baseImage == old(baseImage) && isUpdating == old(isUpdating)
      ensures !old(isUpdating) ==> shown == baseImage
      ensures old(isUpdating) ==> shown == old(shown)
    {
      isDragging := false;
      r := RefreshDisplay(false);
    }

    /** The wheel steps the slice within [zIndexMin, zIndexMax]; the state, the
        status and the frame change only when the slice does. */
    method OnWheel(e: Event) returns (r: Result<(), PyError>)
      requires Valid()
      modifies this`status, this`isUpdating, this`baseImage, this`shown, slicer`state
      ensures var s := old(slicer.state);
        var z := WheelTarget(s.zIndex, e.deltaY, s.zIndexMin, s.zIndexMax);
        && slicer.state == s.(zIndex := z)
        && (z == s.zIndex ==> r.Ok? && status == old(status) && baseImage == old(baseImage) && shown == old(shown))
        && (z != s.zIndex ==> status == (if showStatus then SliceOf(z, s.zIndexMax) else old(status)))
        && (z != s.zIndex ==> Refetched(r))
      ensures isUpdating == old(isUpdating)
    {
      var minZ := slicer.state.zIndexMin;
      var maxZ := slicer.state.zIndexMax;
      var currentZ := slicer.state.zIndex;
      var newZ := WheelTarget(currentZ, e.deltaY, minZ, maxZ);
      r := Ok(());
      if newZ != currentZ {
        slicer.UpdateState(ZPatch(newZ));
        UpdateStatus(SliceOf(newZ, maxZ));
        r := RefreshDisplay(true);
      }
    }

    /** Keys: 'm' flips the mask and always fetches a frame; the arrows step the
        slice and fetch only when it moved; any other key changes nothing. */
    method OnKeydown(e: Event) returns (r: Result<(), PyError>)
      requires Valid()
      modifies this`status, this`isUpdating, this`baseImage, this`shown, slicer`state
      ensures var s := old(slicer.state);
        && (e.key == "m" ==>
              (&& slicer.state == s.(maskOn := !s.maskOn)
               && status == (if showStatus then MaskShown(!s.maskOn) else old(status))
               && Refetched(r)))
        && (e.key != "m" ==>
              var z := KeyTarget(e.key, s.zIndex, s.zIndexMax);
              && slicer.state == s.(zIndex := z)
              && (z == s.zIndex ==> r.Ok? && status == old(status) && baseImage == old(baseImage) && shown == old(shown))
              && (z != s.zIndex ==> status == (if showStatus then SliceAt(z) else old(status)))
              && (z != s.zIndex ==> Refetched(r)))
      ensures isUpdating == old(isUpdating)
    {
      var key := e.key;
      var currentZ := slicer.state.zIndex;
      var maxZ := slicer.state.zIndexMax;
      r := Ok(());
      if key == "m" {
        slicer.state := slicer.state.(maskOn := !slicer.state.maskOn);
        UpdateStatus(MaskShown(slicer.state.maskOn));
        r := RefreshDisplay(true);
        return;
      }
      var newZ := KeyTarget(key, currentZ, maxZ);
      if newZ != currentZ {
        slicer.UpdateState(ZPatch(newZ));
        UpdateStatus(SliceAt(newZ));
        r := RefreshDisplay(true);
      }
    }

    /** The rescaling step of `handle_event`: the pointer moves to the event's
        position in buffer pixels, and stays inside the buffer if it was. */
    method MovePointer(e: Event)
      modifies this`mouseX, this`mouseY
      ensures (mouseX, mouseY) == Pointer(e, width, height, old(mouseX), old(mouseY))
      ensures old(InBuffer()) ==> InBuffer()
    {
      var p := Pointer(e, width, height, mouseX, mouseY);
      if 0 <= mouseX < width && 0 <= mouseY < height {
        PointerInBuffer(e, width, height, mouseX, mouseY);
      }
      mouseX, mouseY := p.0, p.1;
    }

    /** `handle_event`: a context-menu event is swallowed with no effect; any other
        event first rescales the pointer, then goes to its handler. */
    method HandleEvent(e: Event) returns (r: Result<(), PyError>)
      requires Valid()
      modifies this`mouseX, this`mouseY, this`isDragging, this`dragStartPos, this`dragButton
      modifies this`crossPos, this`hu0, this`status, this`isUpdating, this`baseImage, this`shown
      modifies slicer`state
      ensures Valid()
      ensures e.kind == ContextMenu ==> r.Ok? && unchanged(this) && unchanged(slicer)
      ensures e.kind != ContextMenu ==> (mouseX, mouseY) == Pointer(e, width, height, old(mouseX), old(mouseY))
      ensures old(InBuffer()) ==> InBuffer()
      ensures isUpdating == old(isUpdating)
      ensures e.kind != MouseDown ==>
        && dragStartPos == old(dragStartPos) && dragButton == old(dragButton)
        && crossPos == old(crossPos) && hu0 == old(hu0)
      ensures e.kind !in {MouseDown, MouseUp, MouseLeave} ==> isDragging == old(isDragging)
      ensures e.kind in {MouseUp, MouseLeave} ==>
        !isDragging && slicer.state == old(slicer.state) && status == old(status) && Redrawn(r)
      ensures e.kind == MouseDown ==>
        && isDragging && dragStartPos == (mouseX, mouseY) && crossPos == Some((mouseX, mouseY))
        && dragButton == Some(e.button) && slicer.state == old(slicer.state)
        && hu0 == (if e.button == 2 then slicer.state.hu else old(hu0))
        && status == (if showStatus then DragStarted((mouseX, mouseY)) else old(status))
        && Redrawn(r)
      ensures e.kind == Wheel ==>
        var s := old(slicer.state);
        var z := WheelTarget(s.zIndex, e.deltaY, s.zIndexMin, s.zIndexMax);
        && slicer.state == s.(zIndex := z)
        && (z == s.zIndex ==> r.Ok? && status == old(status) && baseImage == old(baseImage) && shown == old(shown))
        && (z != s.zIndex ==> status == (if showStatus then SliceOf(z, s.zIndexMax) else old(status)))
        && (z != s.zIndex ==> Refetched(r))
      ensures e.kind == KeyDown ==>
        var s := old(slicer.state);
        var z := KeyTarget(e.key, s.zIndex, s.zIndexMax);
        && slicer.state == (if e.key == "m" then s.(maskOn := !s.maskOn) else s.(zIndex := z))
        && (e.key != "m" && z == s.zIndex ==> r.Ok? && status == old(status) && baseImage == old(baseImage) && shown == old(shown))
        && (e.key == "m" ==> status == (if showStatus then MaskShown(!s.maskOn) else old(status)))
        && (e.key != "m" && z != s.zIndex ==> status == (if showStatus then SliceAt(z) else old(status)))
        && (e.key == "m" || z != s.zIndex ==> Refetched(r))
      ensures e.kind == MouseMove && !(old(isDragging) && old(dragButton) == Some(2)) ==>
        slicer.state == old(slicer.state) && Redrawn(r)
      ensures e.kind == MouseMove && old(isDragging) && old(dragButton) != Some(2) ==>
        status == (if showStatus then Dragging(dragStartPos, (mouseX, mouseY)) else old(status))
      ensures e.kind == MouseMove && !old(isDragging) ==>
        status == (if showStatus then HoverValue((mouseX, mouseY), ValueAtJk(slicer.img, slicer.state.zIndex, mouseY, mouseX))
                   else old(status))
      ensures e.kind == MouseMove && old(isDragging) && old(dragButton) == Some(2) ==>
        && slicer.state == old(slicer.state).(hu := WindowLevelDrag(hu0, wlSens, mouseX - dragStartPos.0, mouseY - dragStartPos.1))
        && status == (if showStatus then WindowLevel(slicer.state.hu.0, slicer.state.hu.1) else old(status))
        && Refetched(r)
    {
      if e.kind == ContextMenu {
        return Ok(());
      }
      MovePointer(e);
      match e.kind {
        case Wheel => r := OnWheel(e);
        case MouseDown => r := OnDragStart(e);
        case MouseUp => r := OnDragEnd();
        case MouseLeave => r := OnDragEnd();
        case MouseMove => r := OnDragMove();
        case KeyDown => r := OnKeydown(e);
      }
    }
  }

  /** A right-button press followed by a move: the window becomes the drag update of
      the window at the press, by the displacement from the press point, and the base
      is re-rendered for that window. */
  method RightDrag(v: InteractiveSlicer, press: Event, move: Event) returns (r: Result<(), PyError>)
    requires v.Valid() && press.kind == MouseDown && press.button == 2 && move.kind == MouseMove
    modifies v`mouseX, v`mouseY, v`isDragging, v`dragStartPos, v`dragButton
    modifies v`crossPos, v`hu0, v`status, v`isUpdating, v`baseImage, v`shown
    modifies v.slicer`state
    ensures v.isDragging && v.dragButton == Some(2)
    ensures v.slicer.state == old(v.slicer.state).(hu := WindowLevelDrag(old(v.slicer.state.hu), v.wlSens,
              v.mouseX - v.dragStartPos.0, v.mouseY - v.dragStartPos.1))
    ensures v.isUpdating == old(v.isUpdating)
    ensures !old(v.isUpdating) ==>
      && (r.Ok? <==> v.Fetched().Ok?)
      && (r.Ok? ==> v.baseImage == Converted(RGB, v.Fetched().value) && v.shown == v.baseImage)
  {
    var r0 := v.HandleEvent(press);
    assert v.isDragging && v.dragButton == Some(2);
    assert v.hu0 == old(v.slicer.state.hu) && v.slicer.state == old(v.slicer.state);
    r := v.HandleEvent(move);
  }

  /** `InteractiveSlicer(dicom_slicer)`: renders the first frame to size the view;
      a render that raises aborts the construction. */
  method NewInteractiveSlicer(slicer: DicomSlicer, showStatus: bool) returns (r: Result<InteractiveSlicer, PyError>)
    requires slicer.Valid()
    ensures var f := Render(slicer.img, slicer.mask, slicer.labelToOrgan, slicer.organToColor, slicer.state);
      && (r.Ok? <==> f.Ok?)
      && (r.Err? ==> r.error == f.error)
      && (r.Ok? ==>
            (&& fresh(r.value) && r.value.Valid() && r.value.slicer == slicer
             && (r.value.width, r.value.height) == Size(f.value)
             && r.value.baseImage == Converted(RGB, f.value)
             && r.value.hu0 == slicer.state.hu))
  {
    var f := slicer.GetImage();
    if f.Err? {
      return Err(f.error);
    }
    var v := new InteractiveSlicer(slicer, f.value, showStatus);
    r := Ok(v);
  }
}
