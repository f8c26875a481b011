/** The annotation canvas: a drawing layer over the viewer's frame whose
    strokes can be written into, and read back from, a 3-D label volume. */
module CanvasUtils {
  import opened Wrappers
  import opened PyMath
  import opened Raster

  // ---------------------------------------------------------------------------
  // Box arithmetic
  // ---------------------------------------------------------------------------

  /** One axis of `get_bounded_slice`: the half-open range [c - d, c + d + 1)
      clipped to [0, n). */
  function Bound(c: int, d: int, n: nat): (r: (int, int))
    ensures 0 <= r.0 && r.1 <= n
    ensures 0 <= d ==> r.1 - r.0 <= 2 * d + 1
    ensures 0 <= d && 0 <= c < n ==> 0 <= r.0 <= c < r.1 <= n
    ensures 0 <= c - d && c + d + 1 <= n ==> r == (c - d, c + d + 1)
  {
    (Max(0, c - d), Min(n, c + d + 1))
  }

  /** `get_bounded_slice` on all three axes of a volume of the given shape. */
  function GetBoundedSlice(p: (int, int, int), d: int, shape: (nat, nat, nat)): (r: ((int, int), (int, int), (int, int)))
    ensures 0 <= r.0.0 && r.0.1 <= shape.0
    ensures 0 <= r.1.0 && r.1.1 <= shape.1
    ensures 0 <= r.2.0 && r.2.1 <= shape.2
    ensures 0 <= d && 0 <= p.0 < shape.0 && 0 <= p.1 < shape.1 && 0 <= p.2 < shape.2 ==>
      && r.0.0 <= p.0 < r.0.1 && r.0.1 - r.0.0 <= 2 * d + 1
      && r.1.0 <= p.1 < r.1.1 && r.1.1 - r.1.0 <= 2 * d + 1
      && r.2.0 <= p.2 < r.2.1 && r.2.1 - r.2.0 <= 2 * d + 1
  {
    (Bound(p.0, d, shape.0), Bound(p.1, d, shape.1), Bound(p.2, d, shape.2))
  }

  /** The indices NumPy's `a[start:stop]` selects on an axis of length n (step 1):
      negative bounds count from the end, everything is clipped to [0, n], and an
      empty selection is reported as an empty range. */
  function NumpyRange(start: int, stop: int, n: nat): (r: (int, int))
    ensures 0 <= r.0 <= r.1 <= n
    ensures 0 <= start <= stop <= n ==> r == (start, stop)
    ensures 0 <= start && stop < 0 ==> r.1 == Max(r.0, Max(0, stop + n))
  {
    var s := if start < 0 then Max(0, start + n) else Min(start, n);
    var e := if stop < 0 then Max(0, stop + n) else Min(stop, n);
    (s, Max(s, e))
  }

  /** The indices one axis of `mask[*get_bounded_slice(...)]` actually covers. */
  function Selection(c: int, d: int, n: nat): (r: (int, int))
    ensures 0 <= r.0 <= r.1 <= n
    ensures 0 <= d && 0 <= c ==> r == Bound(c, d, n) || (r.0 == r.1 && Bound(c, d, n).0 >= Bound(c, d, n).1)
    ensures 0 <= d && 0 <= c < n ==> r == Bound(c, d, n) && r.0 <= c < r.1
  {
    var b := Bound(c, d, n);
    NumpyRange(b.0, b.1, n)
  }

  /** A centre more than d + 1 before the start makes the clipped stop negative,
      and NumPy reads a negative stop from the end: the box then spans most of the
      axis instead of nothing. */
  lemma NegativeCentreWraps()
    ensures Bound(-5, 2, 10) == (0, -2)
    ensures Selection(-5, 2, 10) == (0, 8)
  {
  }

  predicate InSelection(x: int, c: int, d: int, n: nat) {
    Selection(c, d, n).0 <= x < Selection(c, d, n).1
  }

  /** The size of the brush `draw_rect` paints with. */
  const BrushRadius := 2

  // ---------------------------------------------------------------------------
  // Slices and the drawing layer
  // ---------------------------------------------------------------------------

  const MaskRed := Color(255, 0, 0, 255)

  /** What `load_mask` pastes for a slice: opaque red where the slice holds the
      label, fully transparent elsewhere. */
  function LabelImage(s: seq<seq<int>>, mark: int): (g: seq<seq<Color>>)
    ensures |g| == |s|
    ensures forall y :: 0 <= y < |s| ==> |g[y]| == |s[y]|
    ensures forall y, x :: 0 <= y < |s| && 0 <= x < |s[y]| ==>
      g[y][x] == (if s[y][x] == mark then MaskRed else Transparent)
  {
    seq(|s|, y requires 0 <= y < |s| =>
      seq(|s[y]|, x requires 0 <= x < |s[y]| => if s[y][x] == mark then MaskRed else Transparent))
  }

  /** The red channel of an RGBA image. */
  function RedChannel(g: seq<seq<Color>>): (red: seq<seq<int>>)
    ensures |red| == |g|
    ensures forall y :: 0 <= y < |g| ==> |red[y]| == |g[y]|
    ensures forall y, x :: 0 <= y < |g| && 0 <= x < |g[y]| ==> red[y][x] == g[y][x].r
  {
    seq(|g|, y requires 0 <= y < |g| => seq(|g[y]|, x requires 0 <= x < |g[y]| => g[y][x].r))
  }

  /** What `save_mask` does to a slice: the label wherever the red channel is
      positive, the old value elsewhere. */
  function Stamp(s: seq<seq<int>>, red: seq<seq<int>>, mark: int): (t: seq<seq<int>>)
    requires |red| == |s| && forall y :: 0 <= y < |s| ==> |red[y]| == |s[y]|
    ensures |t| == |s|
    ensures forall y :: 0 <= y < |s| ==> |t[y]| == |s[y]|
    ensures forall y, x :: 0 <= y < |s| && 0 <= x < |s[y]| ==>
      t[y][x] == (if red[y][x] > 0 then mark else s[y][x])
  {
    seq(|s|, y requires 0 <= y < |s| =>
      seq(|s[y]|, x requires 0 <= x < |s[y]| => if red[y][x] > 0 then mark else s[y][x]))
  }

  /** Saving what loading pasted changes nothing: the pasted image is red exactly
      where the slice already holds the label. */
  lemma SaveOfLoadedIsIdentity(s: seq<seq<int>>, mark: int)
    ensures var red := RedChannel(LabelImage(s, mark));
      Stamp(s, red, mark) == s
  {
    var red := RedChannel(LabelImage(s, mark));
    var t := Stamp(s, red, mark);
    forall y | 0 <= y < |s|
      ensures t[y] == s[y]
    {
      forall x | 0 <= x < |s[y]|
        ensures t[y][x] == s[y][x]
      {
        assert red[y][x] == LabelImage(s, mark)[y][x].r;
      }
    }
  }

  /** Saving is idempotent: stamping twice with the same strokes is stamping once. */
  lemma StampIdempotent(s: seq<seq<int>>, red: seq<seq<int>>, mark: int)
    requires |red| == |s| && forall y :: 0 <= y < |s| ==> |red[y]| == |s[y]|
    ensures Stamp(Stamp(s, red, mark), red, mark) == Stamp(s, red, mark)
  {
    var t := Stamp(s, red, mark);
    var u := Stamp(t, red, mark);
    forall y | 0 <= y < |s|
      ensures u[y] == t[y]
    {
    }
  }

  /** The foreground layer, as the sequence of canvas calls that produced it (the
      canvas's own rasterisation is not modelled). */
  datatype Layer =
    | Blank
    | Pasted(pixels: seq<seq<Color>>)
    | Line(under: Layer, from: (real, real), to: (real, real))

  /** `min(max(zoom, 0.5), 4.0)`: the zoom after a step, kept between half and
      four times the buffer size. */
  function ClampZoom(z: real): (r: real)
    ensures 0.5 <= r <= 4.0
    ensures 0.5 <= z <= 4.0 ==> r == z
    ensures z < 0.5 ==> r == 0.5
    ensures 4.0 < z ==> r == 4.0
  {
    MinReal(MaxReal(z, 0.5), 4.0)
  }

  /** The canvas's message line. */
  datatype Message =
    | NoMessage
    | KeyPressed(key: string)
    | ZoomSize(width: int, height: int)
    | HoverOn(x: int, y: int, z: int)

  /** The slice `z` of a volume as rows of columns. */
  function SliceOf(m: array3<int>, z: int): (s: seq<seq<int>>)
    requires 0 <= z < m.Length0
    reads m
    ensures |s| == m.Length1
    ensures forall y :: 0 <= y < m.Length1 ==> |s[y]| == m.Length2
    ensures forall y, x :: 0 <= y < m.Length1 && 0 <= x < m.Length2 ==> s[y][x] == m[z, y, x]
  {
    seq(m.Length1, y requires 0 <= y < m.Length1 reads m =>
      seq(m.Length2, x requires 0 <= x < m.Length2 reads m => m[z, y, x]))
  }

  predicate IsPlane(g: seq<seq<int>>, rows: nat, cols: nat) {
    |g| == rows && forall y :: 0 <= y < rows ==> |g[y]| == cols
  }

  /** The slice a label volume shows at z, as the image `load_mask` pastes. */
  method MaskImage(m: array3<int>, z: int, mark: int) returns (g: seq<seq<Color>>)
    requires 0 <= z < m.Length0
    ensures g == LabelImage(SliceOf(m, z), mark)
  {
    var s := SliceOf(m, z);
    g := [];
    for y := 0 to m.Length1
      invariant |g| == y
      invariant forall r :: 0 <= r < y ==> |g[r]| == m.Length2
      invariant forall r, x :: 0 <= r < y && 0 <= x < m.Length2 ==>
        g[r][x] == (if m[z, r, x] == mark then MaskRed else Transparent)
    {
      var row: seq<Color> := [];
      for x := 0 to m.Length2
        invariant |row| == x
        invariant forall c :: 0 <= c < x ==> row[c] == (if m[z, y, c] == mark then MaskRed else Transparent)
      {
        var px := if m[z, y, x] == mark then MaskRed else Transparent;
        row := row + [px];
      }
      g := g + [row];
    }
    var want := LabelImage(s, mark);
    assert |g| == |want|;
    forall y | 0 <= y < |g|
      ensures g[y] == want[y]
    {
    }
  }

  // ---------------------------------------------------------------------------
  // The canvas
  // ---------------------------------------------------------------------------

  class AnnotationCanvas {
    /** The label volume being edited (depth, rows, columns); `null` when the
        viewer has no mask. */
    var mask: array3?<int>
    /** The viewer's current slice. */
    var zIndex: int
    const width: int
    const height: int
    var layer: Layer
    var message: Message
    var isDrawing: bool
    var startDrawingOnClick: bool
    var runIjk: bool
    var zoom: real
    var isZooming: bool
    var lastPos: (real, real)
    var maskLabel: int

    constructor (mask: array3?<int>, zIndex: int, width: int, height: int)
      ensures this.mask == mask && this.zIndex == zIndex
      ensures this.width == width && this.height == height
      ensures layer == Blank && message == NoMessage
      ensures !isDrawing && !startDrawingOnClick && !runIjk && !isZooming
      ensures zoom == 1.0 && lastPos == (0.0, 0.0) && maskLabel == 1
    {
      this.mask := mask;
      this.zIndex := zIndex;
      this.width := width;
      this.height := height;
      layer := Blank;
      message := NoMessage;
      isDrawing := false;
      startDrawingOnClick := false;
      runIjk := false;
      zoom := 1.0;
      isZooming := false;
      lastPos := (0.0, 0.0);
      maskLabel := 1;
    }

    /** The zoom is kept between half and four times the buffer size. */
    ghost predicate ZoomInRange()
      reads this`zoom
    {
      0.5 <= zoom <= 4.0
    }

    /** `draw_rect`: the label goes into every voxel of the brush box around
        (i, j, k), as NumPy's slicing selects it; every other voxel keeps its value.
        Without a mask nothing happens. */
    method DrawRect(i: int, j: int, k: int, mark: int)
      modifies mask
      ensures mask != null ==>
        forall x, y, z :: 0 <= x < mask.Length0 && 0 <= y < mask.Length1 && 0 <= z < mask.Length2 ==>
          mask[x, y, z] == (if && InSelection(x, i, BrushRadius, mask.Length0)
                               && InSelection(y, j, BrushRadius, mask.Length1)
                               && InSelection(z, k, BrushRadius, mask.Length2)
                            then mark else old(mask[x, y, z]))
    {
      if mask == null {
        return;
      }
      var m := mask;
      var si := Selection(i, BrushRadius, m.Length0);
      var sj := Selection(j, BrushRadius, m.Length1);
      var sk := Selection(k, BrushRadius, m.Length2);
      for a := si.0 to si.1
        invariant forall x, y, z :: 0 <= x < m.Length0 && 0 <= y < m.Length1 && 0 <= z < m.Length2 ==>
          m[x, y, z] == (if si.0 <= x < a && sj.0 <= y < sj.1 && sk.0 <= z < sk.1 then mark else old(m[x, y, z]))
      {
        for b := sj.0 to sj.1
          invariant forall x, y, z :: 0 <= x < m.Length0 && 0 <= y < m.Length1 && 0 <= z < m.Length2 ==>
            m[x, y, z] == (if (si.0 <= x < a || (x == a && y < b)) && sj.0 <= y < sj.1 && sk.0 <= z < sk.1
                           then mark else old(m[x, y, z]))
        {
          for c := sk.0 to sk.1
            invariant forall x, y, z :: 0 <= x < m.Length0 && 0 <= y < m.Length1 && 0 <= z < m.Length2 ==>
              m[x, y, z] == (if (|| (si.0 <= x < a && sj.0 <= y < sj.1)
                                 || (x == a && sj.0 <= y < b)
                                 || (x == a && y == b && z < c)) && sk.0 <= z < sk.1
                             then mark else old(m[x, y, z]))
          {
            m[a, b, c] := mark;
          }
        }
      }
    }

    /** `save_mask`: writes the label into the current slice wherever the drawing
        layer's red channel (as the canvas reports it) is positive. A slice index
        out of range or a red channel of the wrong shape raises IndexError before
        anything is written. Without a mask nothing happens. */
    method SaveMask(red: seq<seq<int>>, mark: int) returns (r: Result<(), PyError>)
      modifies mask
      ensures mask == null ==> r.Ok?
      ensures mask != null && (PyIndex(zIndex, mask.Length0).None? || !IsPlane(red, mask.Length1, mask.Length2)) ==>
        r == Err(IndexError) && unchanged(mask)
      ensures mask != null && r.Ok? ==>
        var z := PyIndex(zIndex, mask.Length0).value;
        && SliceOf(mask, z) == Stamp(old(SliceOf(mask, z)), red, mark)
        && forall x, y, c :: 0 <= x < mask.Length0 && x != z && 0 <= y < mask.Length1 && 0 <= c < mask.Length2 ==>
             mask[x, y, c] == old(mask[x, y, c])
      ensures mask != null && PyIndex(zIndex, mask.Length0).Some? && IsPlane(red, mask.Length1, mask.Length2) ==> r.Ok?
    {
      if mask == null {
        return Ok(());
      }
      var m := mask;
      var zi := PyIndex(zIndex, m.Length0);
      if zi.None? || !IsPlane(red, m.Length1, m.Length2) {
        return Err(IndexError);
      }
      var z := zi.value;
      ghost var before := SliceOf(m, z);
      for y := 0 to m.Length1
        invariant forall x, b, c :: 0 <= x < m.Length0 && 0 <= b < m.Length1 && 0 <= c < m.Length2 ==>
          m[x, b, c] == (if x == z && b < y && red[b][c] > 0 then mark else old(m[x, b, c]))
      {
        for c := 0 to m.Length2
          invariant forall x, b, e :: 0 <= x < m.Length0 && 0 <= b < m.Length1 && 0 <= e < m.Length2 ==>
            m[x, b, e] == (if x == z && (b < y || (b == y && e < c)) && red[b][e] > 0 then mark else old(m[x, b, e]))
        {
          if red[y][c] > 0 {
            m[z, y, c] := mark;
          }
        }
      }
      var after := SliceOf(m, z);
      var want := Stamp(before, red, mark);
      forall y | 0 <= y < m.Length1
        ensures after[y] == want[y]
      {
      }
      r := Ok(());
    }

    /** `load_mask`: clears the drawing layer and pastes the current slice's label
        image into it. Without a mask nothing happens; a slice index out of range
        raises IndexError and leaves the layer as it was. */
    method LoadMask(mark: int) returns (r: Result<(), PyError>)
      modifies this`layer
      ensures mask == null ==> r.Ok? && layer == old(layer)
      ensures mask != null && PyIndex(zIndex, mask.Length0).None? ==> r == Err(IndexError) && layer == old(layer)
      ensures mask != null && PyIndex(zIndex, mask.Length0).Some? ==>
        r.Ok? && layer == Pasted(LabelImage(SliceOf(mask, PyIndex(zIndex, mask.Length0).value), mark))
    {
      if mask == null {
        return Ok(());
      }
      var zi := PyIndex(zIndex, mask.Length0);
      if zi.None? {
        return Err(IndexError);
      }
      var g := MaskImage(mask, zi.value, mark);
      layer := Pasted(g);
      r := Ok(());
    }

    /** `zoom_by`: multiply the zoom and clamp it into [0.5, 4.0]; the message
        reports the scaled size. */
    method ZoomBy(factor: real)
      modifies this`zoom, this`message
      ensures zoom == ClampZoom(old(zoom) * factor)
      ensures ZoomInRange()
      ensures 0.5 <= old(zoom) * factor <= 4.0 ==> zoom == old(zoom) * factor
      ensures message == ZoomSize(Trunc(width as real * zoom), Trunc(height as real * zoom))
    {
      zoom := ClampZoom(zoom * factor);
      ShowZoomSize();
    }

    /** The message `zoom_by` writes: the buffer size scaled by the zoom, each
        side truncated to whole pixels. */
    method ShowZoomSize()
      modifies this`message
      ensures message == ZoomSize(Trunc(width as real * zoom), Trunc(height as real * zoom))
    {
      var w, h := Trunc(width as real * zoom), Trunc(height as real * zoom);
      message := ZoomSize(w, h);
    }

    /** `_on_keyboard_event`. The red channel the canvas would report is passed
        in for 's'. */
    method OnKeyboardEvent(key: string, red: seq<seq<int>>) returns (r: Result<(), PyError>)
      modifies this`message, this`zoom, this`startDrawingOnClick, this`isDrawing, this`runIjk, this`layer, mask
      ensures startDrawingOnClick == (if key == "d" then !old(startDrawingOnClick) else old(startDrawingOnClick))
      ensures runIjk == (if key == "p" then !old(runIjk) else old(runIjk))
      ensures isDrawing == (if key == "s" then false else old(isDrawing))
      ensures key !in {".", ","} ==> zoom == old(zoom)
      ensures key in {".", ","} ==> ZoomInRange()
      ensures key == "." ==> zoom == ClampZoom(old(zoom) * 1.1)
      ensures key == "," ==> zoom == ClampZoom(old(zoom) * 0.9)
      ensures key != "s" ==> mask == null || unchanged(mask)
      ensures key == "c" ==> layer == Blank
      ensures key !in {"l", "c"} ==> layer == old(layer)
      ensures key != "s" && key != "l" ==> r.Ok?
      ensures key !in {".", ","} ==> message == KeyPressed(key)
      ensures key == "s" && mask == null ==> r.Ok?
      ensures key == "s" && mask != null && (PyIndex(zIndex, mask.Length0).None? || !IsPlane(red, mask.Length1, mask.Length2)) ==>
        r == Err(IndexError) && unchanged(mask)
      ensures key == "s" && mask != null && PyIndex(zIndex, mask.Length0).Some? && IsPlane(red, mask.Length1, mask.Length2) ==>
        var z := PyIndex(zIndex, mask.Length0).value;
        && r.Ok?
        && SliceOf(mask, z) == Stamp(old(SliceOf(mask, z)), red, maskLabel)
        && forall x, y, c :: 0 <= x < mask.Length0 && x != z && 0 <= y < mask.Length1 && 0 <= c < mask.Length2 ==>
             mask[x, y, c] == old(mask[x, y, c])
      ensures key == "l" && mask == null ==> r.Ok? && layer == old(layer)
      ensures key == "l" && mask != null && PyIndex(zIndex, mask.Length0).None? ==>
        r == Err(IndexError) && layer == old(layer)
      ensures key == "l" && mask != null && PyIndex(zIndex, mask.Length0).Some? ==>
        r.Ok? && layer == Pasted(LabelImage(SliceOf(mask, PyIndex(zIndex, mask.Length0).value), maskLabel))
    {
      message := KeyPressed(key);
      r := Ok(());
      if key == "." {
        ZoomBy(1.1);
      } else if key == "," {
        ZoomBy(0.9);
      } else if key == "d" {
        startDrawingOnClick := !startDrawingOnClick;
      } else if key == "s" {
        isDrawing := false;
        r := SaveMask(red, maskLabel);
      } else if key == "l" {
        r := LoadMask(maskLabel);
      } else if key == "c" {
        layer := Blank;
      } else if key == "p" {
        runIjk := !runIjk;
      }
    }

    /** `_on_mouse_down`: remembers the position and starts zooming; then either
        arms drawing (when drawing on click) or, in IJK mode, paints the brush box
        at the clicked voxel. The fall-through branch that reports the click cannot
        be reached, because the zooming flag was just set. */
    method OnMouseDown(x: real, y: real)
      modifies this`lastPos, this`isZooming, this`isDrawing, mask
      ensures lastPos == (x, y) && isZooming
      ensures isDrawing == (old(isDrawing) || startDrawingOnClick)
      ensures (startDrawingOnClick || !runIjk) ==> mask == null || unchanged(mask)
      ensures !startDrawingOnClick && runIjk && mask != null ==>
        forall a, b, c :: 0 <= a < mask.Length0 && 0 <= b < mask.Length1 && 0 <= c < mask.Length2 ==>
          mask[a, b, c] == (if && InSelection(a, zIndex, BrushRadius, mask.Length0)
                               && InSelection(b, RoundHalfEven(y), BrushRadius, mask.Length1)
                               && InSelection(c, RoundHalfEven(x), BrushRadius, mask.Length2)
                            then maskLabel else old(mask[a, b, c]))
    {
      lastPos := (x, y);
      isZooming := true;
      if startDrawingOnClick {
        isDrawing := true;
      } else if runIjk {
        DrawRect(zIndex, RoundHalfEven(y), RoundHalfEven(x), maskLabel);
      } else if isZooming {
      } else {
        assert false;
      }
    }

    /** `_on_mouse_move`: while drawing, a line from the last position is stroked
        and the position advances; otherwise only the hover message changes. */
    method OnMouseMove(x: real, y: real)
      modifies this`layer, this`lastPos, this`message
      ensures old(isDrawing) ==> layer == Line(old(layer), old(lastPos), (x, y)) && lastPos == (x, y)
      ensures old(isDrawing) ==> message == old(message)
      ensures !old(isDrawing) ==>
        layer == old(layer) && lastPos == old(lastPos) && message == HoverOn(Trunc(x), Trunc(y), zIndex)
    {
      if isDrawing {
        layer := Line(layer, lastPos, (x, y));
        lastPos := (x, y);
      } else {
        message := HoverOn(Trunc(x), Trunc(y), zIndex);
      }
    }

    /** `_on_mouse_up`: stops drawing and zooming and records the position. */
    method OnMouseUp(x: real, y: real)
      modifies this`isDrawing, this`lastPos, this`isZooming
      ensures !isDrawing && !isZooming && lastPos == (x, y)
    {
      isDrawing := false;
      lastPos := (x, y);
      isZooming := false;
    }

    /** `_on_mouse_out`: stops drawing only. */
    method OnMouseOut()
      modifies this`isDrawing
      ensures !isDrawing
    {
      isDrawing := false;
    }
  }
}
