/** The progress bar, whose filled width is its value clamped into a percentage. */
module ProgressBar {
  import JsBuiltins

  /** The filled width, `Math.min(100, Math.max(0, value))`. */
  function Width(value: real): (w: real)
    ensures 0.0 <= w <= 100.0
    ensures 0.0 <= value <= 100.0 ==> w == value
    ensures value < 0.0 ==> w == 0.0
    ensures value > 100.0 ==> w == 100.0
  {
    JsBuiltins.Min(100.0, JsBuiltins.Max(0.0, value))
  }

  /** Clamping an already clamped width changes nothing. */
  lemma WidthIdempotent(value: real)
    ensures Width(Width(value)) == Width(value)
  {
  }

  /** A larger value never draws a narrower bar. */
  lemma WidthMonotone(a: real, b: real)
    requires a <= b
    ensures Width(a) <= Width(b)
  {
  }
}
