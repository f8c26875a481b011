/** Programmatic updates of the viewer's sliders and toggles (`DicomWidget.set_widget_value`). */
module DicomWidget {
  import opened Wrappers
  import opened PyMath

  /** The three kinds of control the viewer builds; only the value part changes. */
  datatype Widget =
    | IntSlider(min: int, max: int, step: int, value: int)
    | IntRangeSlider(min: int, max: int, step: int, lower: int, upper: int)
    | ToggleButton(on: bool)

  /** The value handed in: an integer or a tuple of integers. */
  datatype PyValue = PyInt(n: int) | PyTuple(items: seq<int>)

  /** Python's `bool(v)`. */
  function Truthy(v: PyValue): bool {
    match v
    case PyInt(n) => n != 0
    case PyTuple(items) => |items| > 0
  }

  lemma MulRealMono(a: real, b: real, s: real)
    requires a <= b && 0.0 <= s
    ensures a * s <= b * s
  {
    assert b * s - a * s == (b - a) * s;
  }

  /** Scaling "k is within one half of x" by the step. */
  lemma NearestMultiple(x: real, step: int, k: int)
    requires 0 < step && x - 0.5 <= k as real <= x + 0.5
    ensures x * step as real - step as real / 2.0 <= (k * step) as real <= x * step as real + step as real / 2.0
  {
    var s := step as real;
    assert (k * step) as real == k as real * s;
    MulRealMono(k as real, x + 0.5, s);
    MulRealMono(x - 0.5, k as real, s);
  }

  /** Rounding `d / step` to the nearest integer `k` puts `k * step` within half a
      step of `d`, and keeps `k` non-negative when `d` is. */
  lemma HalfStepOfRounding(d: int, step: int, k: int)
    requires 0 < step
    requires d as real / step as real - 0.5 <= k as real <= d as real / step as real + 0.5
    ensures 2 * (k * step - d) <= step && 2 * (d - k * step) <= step
    ensures 0 <= d ==> 0 <= k
  {
    var x := d as real / step as real;
    NearestMultiple(x, step, k);
    assert x * step as real == d as real;
  }

  lemma MulAtLeast(a: int, s: int)
    requires 1 <= a && 0 < s
    ensures s <= a * s
  {
    assert a * s == (a - 1) * s + s;
    assert 0 <= (a - 1) * s;
  }

  /** A multiple of the step leaves no remainder. */
  lemma {:induction false} ModOfMultiple(k: int, step: int)
    requires 0 < step
    ensures (k * step) % step == 0
  {
    var q := (k * step) / step;
    var m := (k * step) % step;
    assert k * step == q * step + m;
    assert (k - q) * step == m;
    if k - q >= 1 {
      MulAtLeast(k - q, step);
    } else if q - k >= 1 {
      MulAtLeast(q - k, step);
    }
  }

  /** `fit` as the source writes it: clamp into [min, max], then, for a step above 1,
      round (half to even) to the nearest point `min + k * step`. The rounding comes
      after the clamp, so it can step past `max`. */
  function FitAsWritten(val: int, lo: int, hi: int, step: int): (r: int)
    ensures lo <= hi && step <= 1 ==> r == Clamp(val, lo, hi)
    ensures lo <= hi ==> lo <= r
    ensures step > 1 ==> (r - lo) % step == 0
    ensures lo <= hi && step > 1 ==>
      2 * (r - Clamp(val, lo, hi)) <= step && 2 * (Clamp(val, lo, hi) - r) <= step
  {
    var v := Min(hi, Max(lo, val));
    if step > 1 then
      var k := RoundHalfEven((v - lo) as real / step as real);
      HalfStepOfRounding(v - lo, step, k);
      ModOfMultiple(k, step);
      k * step + lo
    else v
  }

  /** The rounding overshoots: on a slider 0..11 with step 4, fitting 11 gives 12. */
  lemma FitAsWrittenOvershoots()
    ensures FitAsWritten(11, 0, 11, 4) == 12 && 12 > 11
  {
    assert (11 - 0) as real / 4 as real == 2.75;
    assert RoundHalfEven(2.75) == 3;
  }

  /** `fit` as intended: in range and on the step grid. When the rounded point lies
      past `max` the point one step below is taken, which is the nearest grid point
      that is still in range. */
  function Fit(val: int, lo: int, hi: int, step: int): (r: int)
    ensures lo <= hi ==> lo <= r <= hi
    ensures step > 1 ==> (r - lo) % step == 0
    ensures lo <= hi && step <= 1 ==> r == Clamp(val, lo, hi)
    ensures FitAsWritten(val, lo, hi, step) <= hi ==> r == FitAsWritten(val, lo, hi, step)
  {
    var w := FitAsWritten(val, lo, hi, step);
    if w > hi && step > 1 && lo <= hi then
      SnapBack(w, lo, hi, step);
      w - step
    else w
  }

  lemma {:induction false} SnapBack(w: int, lo: int, hi: int, step: int)
    requires lo <= hi < w && step > 1 && (w - lo) % step == 0
    requires 2 * (w - hi) <= step
    ensures lo <= w - step <= hi && (w - step - lo) % step == 0
  {
    var k := (w - lo) / step;
    assert w - lo == k * step;
    if k < 1 {
      MulAtLeast(1 - k, step);
    }
    assert w - step - lo == (k - 1) * step;
    ModOfMultiple(k - 1, step);
  }

  /** Fitting is idempotent: a fitted value is already a grid point in range, so
      writing the control's own value back does not move it. */
  lemma FitIdempotent(val: int, lo: int, hi: int, step: int)
    requires lo <= hi
    ensures Fit(Fit(val, lo, hi, step), lo, hi, step) == Fit(val, lo, hi, step)
  {
    var g := Fit(val, lo, hi, step);
    if step > 1 {
      GridPointFixed(g, lo, hi, step);
    }
  }

  /** A grid point in range is its own rounding. */
  lemma GridPointFixed(g: int, lo: int, hi: int, step: int)
    requires lo <= g <= hi && step > 1 && (g - lo) % step == 0
    ensures FitAsWritten(g, lo, hi, step) == g
  {
    var k := (g - lo) / step;
    assert g - lo == k * step;
    var x := (g - lo) as real / step as real;
    assert x == k as real by {
      assert (g - lo) as real == k as real * step as real;
    }
    var r := RoundHalfEven(x);
    assert r == k;
    assert Min(hi, Max(lo, g)) == g;
  }

  /** `set_widget_value`: the value the control holds afterwards. Integer sliders take
      a fitted integer, range sliders an ordered pair of fitted ends, toggles the truth
      value; a value of the wrong form raises TypeError or ValueError, which is caught,
      and the control is left as it was. Values are fitted with the corrected `Fit`,
      which agrees with the code's `fit` except where that one rounds past max. */
  function SetWidgetValue(w: Widget, v: PyValue): (r: Widget)
    ensures w.IntSlider? ==> r.IntSlider? && r.min == w.min && r.max == w.max && r.step == w.step
    ensures w.IntSlider? && v.PyTuple? ==> r == w
    ensures w.IntSlider? && v.PyInt? && w.min <= w.max ==>
      && w.min <= r.value <= w.max
      && (w.step > 1 ==> (r.value - w.min) % w.step == 0)
      && (w.step <= 1 ==> r.value == Clamp(v.n, w.min, w.max))
    ensures w.IntSlider? && v.PyInt? && FitAsWritten(v.n, w.min, w.max, w.step) <= w.max ==>
      r.value == FitAsWritten(v.n, w.min, w.max, w.step)
    ensures w.IntRangeSlider? ==> r.IntRangeSlider? && r.min == w.min && r.max == w.max && r.step == w.step
    ensures w.IntRangeSlider? && (v.PyInt? || |v.items| != 2) ==> r == w
    ensures w.IntRangeSlider? && v.PyTuple? && |v.items| == 2 ==>
      && r.lower <= r.upper
      && {r.lower, r.upper} == {Fit(v.items[0], w.min, w.max, w.step), Fit(v.items[1], w.min, w.max, w.step)}
      && (w.min <= w.max ==> w.min <= r.lower && r.upper <= w.max)
    ensures w.ToggleButton? ==> r == ToggleButton(Truthy(v))
  {
    match w
    case IntSlider(lo, hi, step, _) =>
      (match v
       case PyInt(n) => w.(value := Fit(n, lo, hi, step))
       case PyTuple(_) => w)
    case IntRangeSlider(lo, hi, step, _, _) =>
      (match v
       case PyTuple(items) =>
         if |items| == 2 then
           var a := Fit(items[0], lo, hi, step);
           var b := Fit(items[1], lo, hi, step);
           w.(lower := Min(a, b), upper := Max(a, b))
         else w
       case PyInt(_) => w)
    case ToggleButton(_) => ToggleButton(Truthy(v))
  }
}
