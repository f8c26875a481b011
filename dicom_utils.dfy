/** Windowing, slice compositing and the slicer's view state (dicom_utils.py). */
module DicomUtils {
  import opened Wrappers
  import opened PyMath
  import opened Raster

  // ---------------------------------------------------------------------------
  // Window/level and intensity windowing
  // ---------------------------------------------------------------------------

  /** `wl2range(w, l)`: window width and level to the (min, max) pair; each end is
      `l -+ w/2` computed in floating point and cut toward zero by `int()`. */
  function Wl2Range(w: int, l: int): (r: (int, int))
    ensures w % 2 == 0 ==> r == (l - w / 2, l + w / 2)
    ensures 0 <= w ==> r.0 <= r.1 && w - 1 <= r.1 - r.0 <= w
    ensures -1.0 < r.0 as real - (l as real - w as real / 2.0) < 1.0
    ensures -1.0 < r.1 as real - (l as real + w as real / 2.0) < 1.0
  {
    (Trunc(l as real - w as real / 2.0), Trunc(l as real + w as real / 2.0))
  }

  /** The viewer's three preset windows (lung, mediastinum, bone). */
  lemma PresetWindows()
    ensures Wl2Range(1500, -600) == (-1350, 150)
    ensures Wl2Range(400, 40) == (-160, 240)
    ensures Wl2Range(1800, 400) == (-500, 1300)
  {
  }

  /** `HU_to_gray` on one sample: `clip(255 * (v - low) / (high - low), 0, 255)`,
      then cut to uint8 (truncation, not rounding). An inverted window (`high < low`)
      maps the other way round. For `high == low` NumPy divides by zero: the sample
      becomes +inf (255) above the level and -inf (0) below it; at the level itself
      the NaN it produces is cast to 0. */
  function HuToGray(v: int, low: int, high: int): (r: int)
    ensures 0 <= r <= 255
    ensures low < high && v <= low ==> r == 0
    ensures low < high && high <= v ==> r == 255
    ensures low < high && low < v < high ==>
      r * (high - low) <= 255 * (v - low) < (r + 1) * (high - low)
    ensures high < low && low <= v ==> r == 0
    ensures high < low && v <= high ==> r == 255
  {
    if low < high then
      if v <= low then 0
      else if high <= v then 255
      else ScaledQuotient(v - low, high - low)
    else if high < low then
      if low <= v then 0
      else if v <= high then 255
      else ScaledQuotient(low - v, low - high)
    else if v > low then 255
    else 0
  }

  /** `floor(255 * num / den)` for `0 < num < den`: a gray level strictly below 255. */
  function ScaledQuotient(num: int, den: int): (q: int)
    requires 0 < num < den
    ensures 0 <= q < 255
    ensures q * den <= 255 * num < (q + 1) * den
  {
    var q := (255 * num) / den;
    assert q * den <= 255 * num < (q + 1) * den;
    QuotientBelow(num, den, q);
    q
  }

  lemma QuotientBelow(num: int, den: int, q: int)
    requires 0 < num < den
    requires q * den <= 255 * num < (q + 1) * den
    ensures 0 <= q < 255
  {
    if q < 0 {
      MulNonneg(-q - 1, den);
    }
    if q >= 255 {
      MulNonneg(q - 255, den);
    }
  }

  lemma MulNonneg(x: int, y: int)
    requires 0 <= x && 0 <= y
    ensures 0 <= x * y
  {
  }

  lemma {:induction false} DivMonotone(a: int, b: int, d: int)
    requires a <= b && 0 < d
    ensures a / d <= b / d
  {
    var qa, qb := a / d, b / d;
    assert a == d * qa + a % d && 0 <= a % d;
    assert b == d * qb + b % d && b % d < d;
    if qa > qb {
      MulNonneg(qa - qb - 1, d);
    }
  }

  /** For a proper window, a brighter sample never gets a darker gray level. */
  lemma {:induction false} HuToGrayMonotone(v1: int, v2: int, low: int, high: int)
    requires low < high && v1 <= v2
    ensures HuToGray(v1, low, high) <= HuToGray(v2, low, high)
  {
    if low < v1 && v2 < high {
      DivMonotone(255 * (v1 - low), 255 * (v2 - low), high - low);
    }
  }

  /** The gray level is cut, not rounded: halfway through a window of width 2 gives 127. */
  lemma HuToGrayTruncates()
    ensures HuToGray(1, 0, 2) == 127
  {
    assert 127 * 2 <= 255 * 1 < 128 * 2;
  }

  /** `HU_to_gray` over a whole 2-D slice. */
  function GrayOf(slice: seq<seq<int>>, hu: (int, int)): (g: seq<seq<int>>)
    ensures |g| == |slice|
    ensures forall i :: 0 <= i < |slice| ==> |g[i]| == |slice[i]|
    ensures forall i, j :: 0 <= i < |slice| && 0 <= j < |slice[i]| ==>
      0 <= g[i][j] <= 255 && g[i][j] == HuToGray(slice[i][j], hu.0, hu.1)
  {
    seq(|slice|, i requires 0 <= i < |slice| =>
      seq(|slice[i]|, j requires 0 <= j < |slice[i]| => HuToGray(slice[i][j], hu.0, hu.1)))
  }

  // ---------------------------------------------------------------------------
  // Volumes and the view state
  // ---------------------------------------------------------------------------

  predicate IsGrid<T>(g: seq<seq<T>>, rows: nat, cols: nat) {
    |g| == rows && forall i :: 0 <= i < rows ==> |g[i]| == cols
  }

  /** A 3-D NumPy array indexed (slice, row, column). */
  datatype Volume = Volume(rows: nat, cols: nat, slices: seq<seq<seq<int>>>) {
    function Depth(): nat {
      |slices|
    }

    function Shape(): (nat, nat, nat) {
      (|slices|, rows, cols)
    }

    predicate WellShaped() {
      forall z :: 0 <= z < |slices| ==> IsGrid(slices[z], rows, cols)
    }
  }

  /** The slicer's `state` dictionary. `zIndexMin`/`zIndexMax` are the bounds the
      interactive viewer reads for wheel and key stepping. */
  datatype ViewState = ViewState(
    zIndex: int,
    hu: (int, int),
    maskOpacity: int,
    maskOn: bool,
    onlyMask: bool,
    zIndexMin: int,
    zIndexMax: int)

  function DefaultState(depth: nat): (s: ViewState)
    ensures s.zIndex == 0 && s.hu == (-130, 600) && s.maskOpacity == 50
    ensures !s.maskOn && !s.onlyMask
    ensures s.zIndexMin == 0 && s.zIndexMax == depth - 1
  {
    ViewState(0, (-130, 600), 50, false, false, 0, depth - 1)
  }

  /** The keyword arguments of one `update_state(**kwargs)` call. */
  datatype StatePatch = StatePatch(
    zIndex: Option<int>,
    hu: Option<(int, int)>,
    maskOpacity: Option<int>,
    maskOn: Option<bool>,
    onlyMask: Option<bool>)

  function ZPatch(z: int): StatePatch {
    StatePatch(Some(z), None, None, None, None)
  }

  /** `dict.update`: every given key overwrites, every other key keeps its value. */
  function Merge(s: ViewState, p: StatePatch): (r: ViewState)
    ensures r.zIndexMin == s.zIndexMin && r.zIndexMax == s.zIndexMax
    ensures p.zIndex.None? ==> r.zIndex == s.zIndex
    ensures p.zIndex.Some? ==> r.zIndex == p.zIndex.value
    ensures p.hu.None? ==> r.hu == s.hu
    ensures p.hu.Some? ==> r.hu == p.hu.value
    ensures p.maskOpacity.None? ==> r.maskOpacity == s.maskOpacity
    ensures p.maskOpacity.Some? ==> r.maskOpacity == p.maskOpacity.value
    ensures p.maskOn.None? ==> r.maskOn == s.maskOn
    ensures p.maskOn.Some? ==> r.maskOn == p.maskOn.value
    ensures p.onlyMask.None? ==> r.onlyMask == s.onlyMask
    ensures p.onlyMask.Some? ==> r.onlyMask == p.onlyMask.value
  {
    s.(zIndex := p.zIndex.GetOr(s.zIndex),
       hu := p.hu.GetOr(s.hu),
       maskOpacity := p.maskOpacity.GetOr(s.maskOpacity),
       maskOn := p.maskOn.GetOr(s.maskOn),
       onlyMask := p.onlyMask.GetOr(s.onlyMask))
  }

  /** Moving to another slice and back restores the state exactly (no hysteresis),
      so the composited frame is the same as before. */
  lemma SliceRoundTrip(img: Volume, mask: Option<Volume>, l2o: map<int, string>,
                       o2c: map<string, Color>, s: ViewState, k: int)
    ensures Merge(Merge(s, ZPatch(k)), ZPatch(s.zIndex)) == s
    ensures Render(img, mask, l2o, o2c, Merge(Merge(s, ZPatch(k)), ZPatch(s.zIndex)))
         == Render(img, mask, l2o, o2c, s)
  {
  }

  /** `set_data`'s bound check: an index at or past the new depth goes back to 0,
      anything else (a negative index included) is kept. */
  function ReboundIndex(z: int, depth: nat): (r: int)
    ensures z >= depth ==> r == 0
    ensures z < depth ==> r == z
    ensures 0 <= z ==> 0 <= r && (depth > 0 ==> r < depth)
  {
    if z >= depth then 0 else z
  }

  // ---------------------------------------------------------------------------
  // The compositor
  // ---------------------------------------------------------------------------

  /** The colour one overlay pixel gets: the colour of its label's organ, when the
      label is non-zero, mapped to an organ, and that organ has a colour. */
  function OverlayPixel(v: int, l2o: map<int, string>, o2c: map<string, Color>): Color {
    if v != 0 && v in l2o && l2o[v] in o2c then o2c[l2o[v]] else Transparent
  }

  /** Label 0 and labels without an organ colour are never painted; every other
      label is painted with exactly its organ's colour. */
  lemma OverlayPixelRule(v: int, l2o: map<int, string>, o2c: map<string, Color>)
    ensures v == 0 ==> OverlayPixel(v, l2o, o2c) == Transparent
    ensures v !in l2o || l2o[v] !in o2c ==> OverlayPixel(v, l2o, o2c) == Transparent
    ensures v != 0 && v in l2o && l2o[v] in o2c ==> OverlayPixel(v, l2o, o2c) == o2c[l2o[v]]
  {
  }

  function OverlayOf(slice: seq<seq<int>>, l2o: map<int, string>, o2c: map<string, Color>): (o: seq<seq<Color>>)
    ensures |o| == |slice|
    ensures forall i :: 0 <= i < |slice| ==> |o[i]| == |slice[i]|
    ensures forall i, j :: 0 <= i < |slice| && 0 <= j < |slice[i]| ==> o[i][j] == OverlayPixel(slice[i][j], l2o, o2c)
  {
    seq(|slice|, i requires 0 <= i < |slice| =>
      seq(|slice[i]|, j requires 0 <= j < |slice[i]| => OverlayPixel(slice[i][j], l2o, o2c)))
  }

  /** One overlay pixel after `overlay[..., 3] *= opacity / 100` and the uint8 cast:
      the alpha is scaled and cut toward zero, red, green and blue are kept. */
  function ScaleAlpha(c: Color, opacity: int): (r: Color)
    ensures r.r == c.r && r.g == c.g && r.b == c.b
    ensures 0 <= c.a && 0 <= opacity ==> r.a * 100 <= c.a * opacity < (r.a + 1) * 100
    ensures WellFormed(c) && 0 <= opacity <= 100 ==> WellFormed(r) && r.a <= c.a
  {
    var a := (c.a * opacity) / 100;
    ScaledAlphaBounds(c, opacity, a);
    c.(a := a)
  }

  lemma ScaledAlphaBounds(c: Color, opacity: int, a: int)
    requires a == (c.a * opacity) / 100
    ensures 0 <= c.a && 0 <= opacity ==> a * 100 <= c.a * opacity < (a + 1) * 100
    ensures WellFormed(c) && 0 <= opacity <= 100 ==> 0 <= a <= c.a
  {
    var p := c.a * opacity;
    assert p == 100 * a + p % 100 && 0 <= p % 100 < 100;
    if WellFormed(c) && 0 <= opacity <= 100 {
      MulNonneg(c.a, opacity);
      MulNonneg(c.a, 100 - opacity);
      assert p <= c.a * 100;
    }
  }

  function ScaleAlphaGrid(g: seq<seq<Color>>, opacity: int): (r: seq<seq<Color>>)
    ensures |r| == |g|
    ensures forall i :: 0 <= i < |g| ==> |r[i]| == |g[i]|
    ensures forall i, j :: 0 <= i < |g| && 0 <= j < |g[i]| ==> r[i][j] == ScaleAlpha(g[i][j], opacity)
  {
    seq(|g|, i requires 0 <= i < |g| =>
      seq(|g[i]|, j requires 0 <= j < |g[i]| => ScaleAlpha(g[i][j], opacity)))
  }

  /** The image under the overlay: the windowed slice (converted to RGBA when an
      overlay follows), or a transparent placeholder in "only mask" mode. */
  function BaseLayer(img: Volume, mask: Option<Volume>, st: ViewState): Result<Image, PyError> {
    if !st.onlyMask then
      match PyIndex(st.zIndex, img.Depth())
      case None => Err(IndexError)
      case Some(z) =>
        var gray := FromGray(GrayOf(img.slices[z], st.hu));
        Ok(if mask.Some? && st.maskOn then Converted(RGBA, gray) else gray)
    else
      Ok(Filled(RGBA, img.cols, img.rows, Transparent))
  }

  /** What `get_image` returns for a slicer in the given state. It raises IndexError
      for a slice index outside the image (when the slice is drawn) or outside the
      mask (when the overlay is drawn), and ValueError when the overlay drawn over
      the slice has a different size; nothing else fails. */
  function Render(img: Volume, mask: Option<Volume>, l2o: map<int, string>,
                  o2c: map<string, Color>, st: ViewState): (r: Result<Image, PyError>)
    ensures !st.maskOn && st.onlyMask ==> r.Ok?
    ensures r.Err? ==> r.error == IndexError || r.error == ValueError
    ensures r == Err(IndexError) <==>
      && !(!st.maskOn && st.onlyMask)
      && ((!st.onlyMask && PyIndex(st.zIndex, img.Depth()).None?)
          || (mask.Some? && st.maskOn && PyIndex(st.zIndex, mask.value.Depth()).None?))
    ensures r == Err(ValueError) ==> mask.Some? && st.maskOn && !st.onlyMask
    ensures r.Ok? && mask.Some? && st.maskOn && !st.onlyMask ==> r.value.AlphaComposited?
  {
    if !st.maskOn && st.onlyMask then
      Ok(Filled(RGBA, img.cols, img.rows, OpaqueBlack))
    else
      match BaseLayer(img, mask, st)
      case Err(e) => Err(e)
      case Ok(base) =>
        if mask.Some? && st.maskOn then
          match PyIndex(st.zIndex, mask.value.Depth())
          case None => Err(IndexError)
          case Some(mz) =>
            var overlay := OverlayOf(mask.value.slices[mz], l2o, o2c);
            if st.onlyMask then Ok(FromRgba(overlay))
            else if Size(base) != Size(FromRgba(overlay)) then Err(ValueError)
            else if st.maskOpacity < 100 then
              Ok(AlphaComposited(base, FromRgba(ScaleAlphaGrid(overlay, st.maskOpacity))))
            else Ok(AlphaComposited(base, FromRgba(overlay)))
        else Ok(base)
  }

  /** Mask off but "only mask" on: an opaque black frame of the slice's size,
      whatever the slice, the window, the mask or the colour tables. */
  lemma RenderBlank(img: Volume, m1: Option<Volume>, m2: Option<Volume>,
                    l1: map<int, string>, l2: map<int, string>,
                    c1: map<string, Color>, c2: map<string, Color>, s1: ViewState, s2: ViewState)
    requires !s1.maskOn && s1.onlyMask && !s2.maskOn && s2.onlyMask
    ensures Render(img, m1, l1, c1, s1) == Ok(Filled(RGBA, img.cols, img.rows, OpaqueBlack))
    ensures Render(img, m1, l1, c1, s1) == Render(img, m2, l2, c2, s2)
  {
  }

  /** With the mask switched off the frame does not depend on the mask's contents
      or the colour tables. */
  lemma RenderIgnoresMaskWhenOff(img: Volume, m1: Option<Volume>, m2: Option<Volume>,
                                 l1: map<int, string>, l2: map<int, string>,
                                 c1: map<string, Color>, c2: map<string, Color>, st: ViewState)
    requires !st.maskOn
    ensures Render(img, m1, l1, c1, st) == Render(img, m2, l2, c2, st)
  {
  }

  /** Without an overlay (no mask, or mask off) and outside "only mask" mode, the
      frame is exactly the windowed slice at the current index. */
  lemma RenderGrayWithoutOverlay(img: Volume, mask: Option<Volume>, l2o: map<int, string>,
                                 o2c: map<string, Color>, st: ViewState)
    requires !st.onlyMask && (mask.None? || !st.maskOn)
    requires 0 <= st.zIndex < img.Depth()
    ensures Render(img, mask, l2o, o2c, st) == Ok(FromGray(GrayOf(img.slices[st.zIndex], st.hu)))
  {
  }

  /** With an overlay and opacity below 100, the overlay drawn over the slice has every
      alpha scaled by opacity/100 (cut toward zero) and its colours untouched; in
      "only mask" mode the overlay is the frame, unscaled. Outside that mode the
      composite succeeds exactly when the mask slice has the image slice's size, and
      raises ValueError otherwise. */
  lemma RenderOverlayOpacity(img: Volume, m: Volume, l2o: map<int, string>,
                             o2c: map<string, Color>, st: ViewState, i: nat, j: nat)
    requires st.maskOn && 0 <= st.zIndex < img.Depth() && st.zIndex < m.Depth()
    requires i < |m.slices[st.zIndex]| && j < |m.slices[st.zIndex][i]|
    requires 0 <= st.maskOpacity
    ensures var r := Render(img, Some(m), l2o, o2c, st);
      var c := OverlayPixel(m.slices[st.zIndex][i][j], l2o, o2c);
      var sameSize := Size(FromGray(img.slices[st.zIndex])) == Size(FromGray(m.slices[st.zIndex]));
      && (st.onlyMask ==> r == Ok(FromRgba(OverlayOf(m.slices[st.zIndex], l2o, o2c))))
      && (!st.onlyMask && !sameSize ==> r == Err(ValueError))
      && (!st.onlyMask && sameSize ==>
            (&& r.Ok? && r.value.AlphaComposited? && r.value.src.FromRgba?
             && r.value.dst == Converted(RGBA, FromGray(GrayOf(img.slices[st.zIndex], st.hu)))
             && i < |r.value.src.pixels| && j < |r.value.src.pixels[i]|
             && var p := r.value.src.pixels[i][j];
                p.r == c.r && p.g == c.g && p.b == c.b
                && (st.maskOpacity < 100 && 0 <= c.a ==> p.a * 100 <= c.a * st.maskOpacity < (p.a + 1) * 100)
                && (100 <= st.maskOpacity ==> p.a == c.a)))
  {
    var z := st.zIndex;
    assert Size(Converted(RGBA, FromGray(GrayOf(img.slices[z], st.hu)))) == Size(FromGray(img.slices[z]));
    assert Size(FromRgba(OverlayOf(m.slices[z], l2o, o2c))) == Size(FromGray(m.slices[z]));
  }

  const ExampleImage := Volume(4, 4, seq(10, z => seq(4, r => seq(4, c => 0))))
  const ExampleMask := Volume(4, 4, seq(10, z => seq(4, r => seq(4, c => if z == 3 && r == 1 && c == 2 then 1 else 0))))
  const ExampleState := ViewState(3, (-130, 600), 50, true, false, 0, 9)

  /** The worked example: a (10, 4, 4) volume of zeros, one voxel labelled 1 on slice 3,
      the default table 1 -> "mask" -> (255, 0, 0, 128), mask on at opacity 50: the
      overlay pixel drawn over the slice is (255, 0, 0, 64), every other one clear. */
  lemma HalfOpacityExample()
    ensures var out := Render(ExampleImage, Some(ExampleMask), DefaultLabelToOrgan, DefaultOrganToColor, ExampleState);
      && out.Ok? && out.value.AlphaComposited? && out.value.src.FromRgba?
      && |out.value.src.pixels| == 4 && |out.value.src.pixels[1]| == 4 && |out.value.src.pixels[0]| == 4
      && out.value.src.pixels[1][2] == Color(255, 0, 0, 64)
      && out.value.src.pixels[0][0] == Transparent
  {
    var slice := ExampleMask.slices[3];
    assert |slice| == 4 && |slice[1]| == 4 && |slice[0]| == 4;
    assert slice[1][2] == 1 && slice[0][0] == 0;
    var base := Converted(RGBA, FromGray(GrayOf(ExampleImage.slices[3], ExampleState.hu)));
    assert Size(base) == (4, 4);
    assert BaseLayer(ExampleImage, Some(ExampleMask), ExampleState) == Ok(base);
    var ov := OverlayOf(slice, DefaultLabelToOrgan, DefaultOrganToColor);
    var scaled := ScaleAlphaGrid(ov, 50);
    assert Size(FromRgba(ov)) == (4, 4);
    assert Render(ExampleImage, Some(ExampleMask), DefaultLabelToOrgan, DefaultOrganToColor, ExampleState)
        == Ok(AlphaComposited(base, FromRgba(scaled)));
    assert ov[1][2] == Color(255, 0, 0, 128) && ov[0][0] == Transparent;
    assert ScaleAlpha(Color(255, 0, 0, 128), 50) == Color(255, 0, 0, 64);
    assert ScaleAlpha(Transparent, 50) == Transparent;
  }

  /** The pixel size (width, height) of an image term; `alpha_composite` keeps the
      size of its operands (the library refuses operands of different sizes). */
  function Size(im: Image): (nat, nat) {
    match im
    case Filled(_, w, h, _) => (w, h)
    case FromGray(g) => (if |g| == 0 then 0 else |g[0]|, |g|)
    case FromRgba(p) => (if |p| == 0 then 0 else |p[0]|, |p|)
    case Converted(_, s) => Size(s)
    case AlphaComposited(d, _) => Size(d)
  }

  /** Frames come out in the volume's row/column size, and when the mask has the
      image's shape the two operands of `alpha_composite` always agree in size. */
  lemma RenderSize(img: Volume, mask: Option<Volume>, l2o: map<int, string>,
                   o2c: map<string, Color>, st: ViewState)
    requires img.WellShaped() && img.rows > 0
    requires mask.Some? ==> mask.value.WellShaped() && mask.value.Shape() == img.Shape()
    requires Render(img, mask, l2o, o2c, st).Ok?
    ensures var im := Render(img, mask, l2o, o2c, st).value;
      && Size(im) == (img.cols, img.rows)
      && (im.AlphaComposited? ==> Size(im.src) == Size(im.dst))
  {
    if !(!st.maskOn && st.onlyMask) {
      if !st.onlyMask {
        var z := PyIndex(st.zIndex, img.Depth()).value;
        assert IsGrid(img.slices[z], img.rows, img.cols);
        var g := GrayOf(img.slices[z], st.hu);
        assert Size(FromGray(g)) == (img.cols, img.rows);
      }
      if mask.Some? && st.maskOn {
        var mz := PyIndex(st.zIndex, mask.value.Depth()).value;
        assert IsGrid(mask.value.slices[mz], img.rows, img.cols);
        var o := OverlayOf(mask.value.slices[mz], l2o, o2c);
        assert Size(FromRgba(o)) == (img.cols, img.rows);
        assert Size(FromRgba(ScaleAlphaGrid(o, st.maskOpacity))) == (img.cols, img.rows);
      }
    }
  }

  /** A bounds-checked voxel lookup on a slice: the value at (row j, column k), or
      nothing when any index is outside the volume. */
  function ValueAtJk(img: Volume, z: int, j: int, k: int): (r: Option<int>)
    ensures r.Some? <==> 0 <= z < img.Depth() && 0 <= j < |img.slices[z]| && 0 <= k < |img.slices[z][j]|
    ensures r.Some? ==> r.value == img.slices[z][j][k]
  {
    if 0 <= z < img.Depth() && 0 <= j < |img.slices[z]| && 0 <= k < |img.slices[z][j]|
    then Some(img.slices[z][j][k])
    else None
  }

  // ---------------------------------------------------------------------------
  // The slicer object
  // ---------------------------------------------------------------------------

  /** `x if x else default` for a dictionary argument: None and {} both fall back. */
  function OrDefault<K, V>(m: Option<map<K, V>>, default: map<K, V>): (r: map<K, V>)
    ensures m.Some? && |m.value| > 0 ==> r == m.value
    ensures m.None? || |m.value| == 0 ==> r == default
  {
    if m.Some? && |m.value| > 0 then m.value else default
  }

  const DefaultLabelToOrgan: map<int, string> := map[1 := "mask"]
  const DefaultOrganToColor: map<string, Color> := map["mask" := Color(255, 0, 0, 128)]

  /** The indices `save_animation` renders: the given list, or every slice in order. */
  function FrameIndices(zList: Option<seq<int>>, depth: nat): (zs: seq<int>)
    ensures zList.Some? ==> zs == zList.value
    ensures zList.None? ==> |zs| == depth && forall k :: 0 <= k < depth ==> zs[k] == k
  {
    if zList.Some? then zList.value else seq(depth, k => k)
  }

  /** An H x W overlay buffer read back as rows of pixels. */
  function Grid(a: array2<Color>): (g: seq<seq<Color>>)
    reads a
    ensures IsGrid(g, a.Length0, a.Length1)
    ensures forall i, j :: 0 <= i < a.Length0 && 0 <= j < a.Length1 ==> g[i][j] == a[i, j]
  {
    seq(a.Length0, i requires 0 <= i < a.Length0 reads a =>
      seq(a.Length1, j requires 0 <= j < a.Length1 reads a => a[i, j]))
  }

  /** An overlay pixel after the labels in `done` have been painted. */
  function PaintedBy(v: int, done: set<int>, l2o: map<int, string>, o2c: map<string, Color>): Color {
    if v in done then OverlayPixel(v, l2o, o2c) else Transparent
  }

  lemma NonEmptyHasMember(s: set<int>)
    requires s != {}
    ensures exists x :: x in s
  {
    if forall x :: x !in s {
      assert false;
    }
  }

  lemma GridIs(a: array2<Color>, g: seq<seq<Color>>)
    requires IsGrid(g, a.Length0, a.Length1)
    requires forall i, j :: 0 <= i < a.Length0 && 0 <= j < a.Length1 ==> g[i][j] == a[i, j]
    ensures Grid(a) == g
  {
    var h := Grid(a);
    forall i | 0 <= i < a.Length0
      ensures h[i] == g[i]
    {
      assert |h[i]| == |g[i]|;
    }
  }

  /** `overlay[mask_slice == label] = rgba`. */
  method PaintLabel(ov: array2<Color>, slice: seq<seq<int>>, target: int, rgba: Color)
    requires IsGrid(slice, ov.Length0, ov.Length1)
    modifies ov
    ensures forall i, j :: 0 <= i < ov.Length0 && 0 <= j < ov.Length1 ==>
      ov[i, j] == if slice[i][j] == target then rgba else old(ov[i, j])
  {
    for i := 0 to ov.Length0
      invariant forall a, b :: 0 <= a < ov.Length0 && 0 <= b < ov.Length1 ==>
        ov[a, b] == if a < i && slice[a][b] == target then rgba else old(ov[a, b])
    {
      for j := 0 to ov.Length1
        invariant forall a, b :: 0 <= a < ov.Length0 && 0 <= b < ov.Length1 ==>
          ov[a, b] == if (a < i || (a == i && b < j)) && slice[a][b] == target then rgba else old(ov[a, b])
      {
        if slice[i][j] == target {
          ov[i, j] := rgba;
        }
      }
    }
  }

  /** Builds the overlay the way `get_image` does: a transparent buffer, then one
      masked assignment per (label, organ) entry that is non-zero and has a colour.
      The labels are distinct, so the order of the entries does not matter. */
  method NewOverlay(slice: seq<seq<int>>, rows: nat, cols: nat, l2o: map<int, string>, o2c: map<string, Color>)
    returns (ov: array2<Color>)
    requires IsGrid(slice, rows, cols)
    ensures fresh(ov) && ov.Length0 == rows && ov.Length1 == cols
    ensures forall i, j :: 0 <= i < rows && 0 <= j < cols ==> ov[i, j] == OverlayPixel(slice[i][j], l2o, o2c)
  {
    ov := new Color[rows, cols]((i, j) => Transparent);
    var remaining := l2o.Keys;
    ghost var done: set<int> := {};
    while remaining != {}
      invariant remaining !! done && remaining + done == l2o.Keys
      invariant forall i, j :: 0 <= i < rows && 0 <= j < cols ==> ov[i, j] == PaintedBy(slice[i][j], done, l2o, o2c)
      decreases remaining
    {
      NonEmptyHasMember(remaining);
      var v :| v in remaining;
      if v != 0 && l2o[v] in o2c {
        PaintLabel(ov, slice, v, o2c[l2o[v]]);
      }
      remaining := remaining - {v};
      done := done + {v};
    }
  }

  /** `overlay[..., 3] *= opacity_factor` followed by the uint8 cast, in place. */
  method ScaleAlphaInPlace(ov: array2<Color>, opacity: int)
    modifies ov
    ensures forall i, j :: 0 <= i < ov.Length0 && 0 <= j < ov.Length1 ==>
      ov[i, j] == ScaleAlpha(old(ov[i, j]), opacity)
  {
    for i := 0 to ov.Length0
      invariant forall a, b :: 0 <= a < ov.Length0 && 0 <= b < ov.Length1 ==>
        ov[a, b] == if a < i then ScaleAlpha(old(ov[a, b]), opacity) else old(ov[a, b])
    {
      for j := 0 to ov.Length1
        invariant forall a, b :: 0 <= a < ov.Length0 && 0 <= b < ov.Length1 ==>
          ov[a, b] == if a < i || (a == i && b < j) then ScaleAlpha(old(ov[a, b]), opacity) else old(ov[a, b])
      {
        ov[i, j] := ScaleAlpha(ov[i, j], opacity);
      }
    }
  }

  /** The DICOM data, its optional label volume, the label -> organ -> colour tables
      and the view state. */
  class DicomSlicer {
    var img: Volume
    var mask: Option<Volume>
    var state: ViewState
    var labelToOrgan: map<int, string>
    var organToColor: map<string, Color>

    /** NumPy arrays are rectangular. */
    ghost predicate Valid()
      reads this`img, this`mask
    {
      img.WellShaped() && (mask.Some? ==> mask.value.WellShaped())
    }

    constructor (image: Volume, mask: Option<Volume>,
                 labelToOrgan: Option<map<int, string>>, organToColor: Option<map<string, Color>>)
      requires image.WellShaped() && (mask.Some? ==> mask.value.WellShaped())
      ensures Valid()
      ensures img == image && this.mask == mask
      ensures state == DefaultState(image.Depth())
      ensures this.labelToOrgan == OrDefault(labelToOrgan, DefaultLabelToOrgan)
      ensures this.organToColor == OrDefault(organToColor, DefaultOrganToColor)
    {
      img := image;
      this.mask := mask;
      state := DefaultState(image.Depth());
      this.labelToOrgan := OrDefault(labelToOrgan, DefaultLabelToOrgan);
      this.organToColor := OrDefault(organToColor, DefaultOrganToColor);
    }

    method UpdateState(patch: StatePatch)
      modifies this`state
      ensures state == Merge(old(state), patch)
    {
      state := Merge(state, patch);
    }

    /** Replaces both arrays; an index at or past the new depth goes back to 0. The
        slice bounds follow the new depth, as the constructor sets them. */
    method SetData(image: Volume, mask: Option<Volume>)
      requires image.WellShaped() && (mask.Some? ==> mask.value.WellShaped())
      modifies this`img, this`mask, this`state
      ensures Valid()
      ensures img == image && this.mask == mask
      ensures state == old(state).(zIndex := ReboundIndex(old(state).zIndex, image.Depth()),
                                   zIndexMin := 0, zIndexMax := image.Depth() - 1)
    {
      img := image;
      this.mask := mask;
      if state.zIndex >= img.Depth() {
        state := state.(zIndex := 0);
      }
      state := state.(zIndexMin := 0, zIndexMax := img.Depth() - 1);
    }

    method SetMaskMappings(labelToOrgan: map<int, string>, organToColor: map<string, Color>)
      modifies this`labelToOrgan, this`organToColor
      ensures this.labelToOrgan == labelToOrgan && this.organToColor == organToColor
    {
      this.labelToOrgan := labelToOrgan;
      this.organToColor := organToColor;
    }

    /** `get_image`: the frame for the current state, built with a per-label fill of
        an overlay buffer and an in-place alpha rewrite. */
    method GetImage() returns (r: Result<Image, PyError>)
      requires Valid()
      ensures r == Render(img, mask, labelToOrgan, organToColor, state)
    {
      var st := state;
      if !st.maskOn && st.onlyMask {
        return Ok(Filled(RGBA, img.cols, img.rows, OpaqueBlack));
      }
      var base: Image;
      if !st.onlyMask {
        var z := PyIndex(st.zIndex, img.Depth());
        if z.None? {
          return Err(IndexError);
        }
        var gray := FromGray(GrayOf(img.slices[z.value], st.hu));
        base := if mask.Some? && st.maskOn then Converted(RGBA, gray) else gray;
      } else {
        base := Filled(RGBA, img.cols, img.rows, Transparent);
      }
      assert BaseLayer(img, mask, st) == Ok(base);
      if mask.Some? && st.maskOn {
        var m := mask.value;
        var mz := PyIndex(st.zIndex, m.Depth());
        if mz.None? {
          return Err(IndexError);
        }
        var slice := m.slices[mz.value];
        assert IsGrid(slice, m.rows, m.cols);
        var ov := NewOverlay(slice, m.rows, m.cols, labelToOrgan, organToColor);
        ghost var overlay := OverlayOf(slice, labelToOrgan, organToColor);
        if st.onlyMask {
          GridIs(ov, overlay);
          r := Ok(FromRgba(Grid(ov)));
        } else {
          if st.maskOpacity < 100 {
            ScaleAlphaInPlace(ov, st.maskOpacity);
            GridIs(ov, ScaleAlphaGrid(overlay, st.maskOpacity));
          } else {
            GridIs(ov, overlay);
          }
          // `alpha_composite` refuses operands of different sizes
          var overlaySize: (nat, nat) := (if ov.Length0 == 0 then 0 else ov.Length1, ov.Length0);
          assert overlaySize == Size(FromRgba(overlay));
          if Size(base) != overlaySize {
            return Err(ValueError);
          }
          r := Ok(AlphaComposited(base, FromRgba(Grid(ov))));
        }
      } else {
        r := Ok(base);
      }
    }

    /** `save_animation` without the file write: one frame per index, rendered with
        the rest of the state as it was; the index is put back afterwards. A failing
        frame raises out of the loop, leaving the index at the failing value. */
    method SaveAnimation(zList: Option<seq<int>>) returns (r: Result<seq<Image>, PyError>)
      requires Valid()
      modifies this`state
      ensures var zs := FrameIndices(zList, img.Depth());
        && (r.Ok? <==> forall k :: 0 <= k < |zs| ==>
              Render(img, mask, labelToOrgan, organToColor, old(state).(zIndex := zs[k])).Ok?)
        && (r.Ok? ==>
              (&& state == old(state) && |r.value| == |zs|
               && forall k :: 0 <= k < |zs| ==>
                    Ok(r.value[k]) == Render(img, mask, labelToOrgan, organToColor, old(state).(zIndex := zs[k]))))
        && (r.Err? ==>
              exists k :: (&& 0 <= k < |zs| && state == old(state).(zIndex := zs[k])
                           && Render(img, mask, labelToOrgan, organToColor, state) == Err(r.error)
                           && forall m :: 0 <= m < k ==>
                                Render(img, mask, labelToOrgan, organToColor, old(state).(zIndex := zs[m])).Ok?))
    {
      var zs := FrameIndices(zList, img.Depth());
      var frames: seq<Image> := [];
      var originalZ := state.zIndex;
      for k := 0 to |zs|
        invariant state.(zIndex := old(state).zIndex) == old(state)
        invariant |frames| == k
        invariant forall m :: 0 <= m < k ==>
          Ok(frames[m]) == Render(img, mask, labelToOrgan, organToColor, old(state).(zIndex := zs[m]))
      {
        UpdateState(ZPatch(zs[k]));
        assert state == old(state).(zIndex := zs[k]);
        var f := GetImage();
        if f.Err? {
          assert forall m :: 0 <= m < k ==>
            Render(img, mask, labelToOrgan, organToColor, old(state).(zIndex := zs[m])).Ok?;
          return Err(f.error);
        }
        frames := frames + [f.value];
      }
      UpdateState(ZPatch(originalZ));
      r := Ok(frames);
    }
  }

  /** `DicomWidget.add_mask` without the redraw: a mask whose shape differs from the
      image's is refused before anything changes; otherwise the slicer gets the mask
      (keeping its image) and the new colour tables. */
  method AddMask(slicer: DicomSlicer, maskArray: Volume, labelToOrgan: map<int, string>,
                 organToColor: map<string, Color>) returns (r: Result<(), PyError>)
    requires slicer.Valid() && maskArray.WellShaped()
    modifies slicer
    ensures maskArray.Shape() != old(slicer.img).Shape() ==> r == Err(ValueError) && unchanged(slicer)
    ensures maskArray.Shape() == old(slicer.img).Shape() ==>
      && r == Ok(())
      && slicer.Valid()
      && slicer.img == old(slicer.img) && slicer.mask == Some(maskArray)
      && slicer.labelToOrgan == labelToOrgan && slicer.organToColor == organToColor
      && slicer.state == old(slicer.state).(zIndex := ReboundIndex(old(slicer.state).zIndex, slicer.img.Depth()),
                                            zIndexMin := 0, zIndexMax := slicer.img.Depth() - 1)
  {
    if maskArray.Shape() != slicer.img.Shape() {
      return Err(ValueError);
    }
    slicer.SetData(slicer.img, Some(maskArray));
    slicer.SetMaskMappings(labelToOrgan, organToColor);
    r := Ok(());
  }
}
