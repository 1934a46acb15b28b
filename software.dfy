/** The software reference RGB2YCbCr_sw and its `clamp` helper. The
    reference computes in `float`; here it is modelled in exact real
    arithmetic, so IEEE rounding is not captured. */
module Software {
  import opened Pixel

  /** `clamp`: `std::min(255.0f, value)`, then `std::max(0.0f, ...)`, then a
      `static_cast<uint8_t>` that drops the fraction. The result is the
      integer part of the value saturated to [0, 255]. */
  function Clamp(value: real): (b: int)
    ensures 0 <= b <= 255
    ensures value <= 0.0 ==> b == 0
    ensures value >= 255.0 ==> b == 255
    ensures 0.0 <= value <= 255.0 ==> b as real <= value < b as real + 1.0
  {
    var upper := if value < 255.0 then value else 255.0;
    var lower := if 0.0 < upper then upper else 0.0;
    lower.Floor
  }

  /** Every byte passes through `clamp` unchanged. */
  lemma ClampKeepsBytes(n: int)
    requires 0 <= n <= 255
    ensures Clamp(n as real) == n
  {
  }

  /** `clamp` never decreases when its argument grows. */
  lemma ClampMonotone(x: real, y: real)
    requires x <= y
    ensures Clamp(x) <= Clamp(y)
  {
  }

  /** The three expressions of RGB2YCbCr_sw before `clamp`. */
  function ExactY(r: int, g: int, b: int): real
  {
    0.299 * r as real + 0.587 * g as real + 0.114 * b as real
  }

  function ExactCb(r: int, g: int, b: int): real
  {
    -0.169 * r as real - 0.332 * g as real + 0.5 * b as real + 128.0
  }

  function ExactCr(r: int, g: int, b: int): real
  {
    0.5 * r as real - 0.419 * g as real - 0.0813 * b as real + 128.0
  }

  /** RGB2YCbCr_sw in exact arithmetic. */
  function Reference(p: RGB): YCbCr
  {
    YCbCr(Clamp(ExactY(p.R, p.G, p.B)), Clamp(ExactCb(p.R, p.G, p.B)), Clamp(ExactCr(p.R, p.G, p.B)))
  }

  /** Black maps to luma 0 and neutral chroma 128. */
  lemma ReferenceZero()
    ensures Reference(RGB(0, 0, 0)) == YCbCr(0, 128, 128)
  {
  }

  /** White maps to full luma. */
  lemma ReferenceWhite()
    ensures Reference(RGB(255, 255, 255)).Y == 255
  {
  }
}
