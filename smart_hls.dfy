/** The arithmetic of the synthesized block RGB2YCbCr_smarthls: three
    weighted sums of R, G, B in Q12.6, each divided by 256 with a right shift,
    offset, and assigned to an 8-bit output channel. The FIFO reads and writes
    around it are not part of this model. */
module SmartHls {
  import opened Pixel
  import opened FixedPoint

  /** The nine Q12.6 weights, in units of 1/64. Each is the magnitude of a
      coefficient; the signs are those of the expressions in Y, Cb and Cr. */
  datatype Weights = Weights(
    yr: int, yg: int, yb: int,
    cbr: int, cbg: int, cbb: int,
    crr: int, crg: int, crb: int)

  predicate NonNegative(w: Weights)
  {
    w.yr >= 0 && w.yg >= 0 && w.yb >= 0 &&
    w.cbr >= 0 && w.cbg >= 0 && w.cbb >= 0 &&
    w.crr >= 0 && w.crg >= 0 && w.crb >= 0
  }

  /** The Q12.6 numerators of the constants of the source, 65.738, 129.057,
      25.064 for Y, 37.945, 74.494, 112.439 for Cb and 112.439, 94.154,
      18.285 for Cr; lemma SourceWeightsQuantize derives them. */
  function SourceWeights(q: Quantization): (w: Weights)
    ensures NonNegative(w)
  {
    match q
    case Truncate => Weights(4207, 8259, 1604, 2428, 4767, 7196, 7196, 6025, 1170)
    case RoundHalfUp => Weights(4207, 8260, 1604, 2428, 4768, 7196, 7196, 6026, 1170)
  }

  /** `fixpt_t(4)`, `fixpt_t(128)` and `fixpt_t(0.5)` in units. */
  const Four: int := 256
  const Bias128: int := 8192
  const Half: int := 32

  /** The sums under the `>> 8`, in units. */
  function LumaSum(w: Weights, r: int, g: int, b: int): int
  {
    w.yr * r + w.yg * g + w.yb * b
  }

  function BlueSum(w: Weights, r: int, g: int, b: int): int
  {
    w.cbr * r + w.cbg * g - w.cbb * b
  }

  function RedSum(w: Weights, r: int, g: int, b: int): int
  {
    w.crr * r - w.crg * g - w.crb * b
  }

  /** The fixed-point values assigned to Y, Cb and Cr, before narrowing. */
  function YUnits(w: Weights, r: int, g: int, b: int): int
  {
    Four + ShiftRight8(LumaSum(w, r, g, b)) + Half
  }

  function CbUnits(w: Weights, r: int, g: int, b: int): int
  {
    Bias128 - ShiftRight8(BlueSum(w, r, g, b)) + Half
  }

  function CrUnits(w: Weights, r: int, g: int, b: int): int
  {
    Bias128 + ShiftRight8(RedSum(w, r, g, b)) + Half
  }

  /** One call of the block with weights w: the YCbCr written to the output
      FIFO for the RGB read from the input FIFO. The block itself uses
      SourceWeights(q). */
  function Convert(w: Weights, ov: Overflow, p: RGB): YCbCr
  {
    YCbCr(
      ToByte(YUnits(w, p.R, p.G, p.B), ov),
      ToByte(CbUnits(w, p.R, p.G, p.B), ov),
      ToByte(CrUnits(w, p.R, p.G, p.B), ov))
  }

  /** Each weight is its decimal constant brought to six fractional bits. */
  lemma SourceWeightsQuantize(q: Quantization)
    ensures SourceWeights(q) == Weights(
      Quantize(65738, q), Quantize(129057, q), Quantize(25064, q),
      Quantize(37945, q), Quantize(74494, q), Quantize(112439, q),
      Quantize(112439, q), Quantize(94154, q), Quantize(18285, q))
  {
  }

  /** Black in: only the offsets remain, 4.5 for Y and 128.5 for Cb and Cr,
      whatever the weights, so the block writes (4, 128, 128). */
  lemma ZeroInput(w: Weights, ov: Overflow)
    ensures YUnits(w, 0, 0, 0) == 288
    ensures CbUnits(w, 0, 0, 0) == 8224 && CrUnits(w, 0, 0, 0) == 8224
    ensures Convert(w, ov, RGB(0, 0, 0)) == YCbCr(4, 128, 128)
  {
    ToByteInRange(288, ov);
    ToByteInRange(8224, ov);
  }

  lemma MulMonotone(k: int, x: int, y: int)
    requires k >= 0 && x <= y
    ensures k * x <= k * y
  {
  }

  /** Y is nondecreasing in each of R, G and B as long as the three luma
      weights are non-negative, whatever their values. */
  lemma LumaMonotone(w: Weights, r: int, g: int, b: int, r2: int, g2: int, b2: int)
    requires w.yr >= 0 && w.yg >= 0 && w.yb >= 0
    requires r <= r2 && g <= g2 && b <= b2
    ensures YUnits(w, r, g, b) <= YUnits(w, r2, g2, b2)
  {
    MulMonotone(w.yr, r, r2);
    MulMonotone(w.yg, g, g2);
    MulMonotone(w.yb, b, b2);
    ShiftRight8Monotone(LumaSum(w, r, g, b), LumaSum(w, r2, g2, b2));
  }

  /** Cb rises with B and falls with R and G. */
  lemma BlueMonotone(w: Weights, r: int, g: int, b: int, r2: int, g2: int, b2: int)
    requires w.cbr >= 0 && w.cbg >= 0 && w.cbb >= 0
    requires r2 <= r && g2 <= g && b <= b2
    ensures CbUnits(w, r, g, b) <= CbUnits(w, r2, g2, b2)
  {
    MulMonotone(w.cbr, r2, r);
    MulMonotone(w.cbg, g2, g);
    MulMonotone(w.cbb, b, b2);
    ShiftRight8Monotone(BlueSum(w, r2, g2, b2), BlueSum(w, r, g, b));
  }

  /** Cr rises with R and falls with G and B. */
  lemma RedMonotone(w: Weights, r: int, g: int, b: int, r2: int, g2: int, b2: int)
    requires w.crr >= 0 && w.crg >= 0 && w.crb >= 0
    requires r <= r2 && g2 <= g && b2 <= b
    ensures CrUnits(w, r, g, b) <= CrUnits(w, r2, g2, b2)
  {
    MulMonotone(w.crr, r, r2);
    MulMonotone(w.crg, g2, g);
    MulMonotone(w.crb, b2, b);
    ShiftRight8Monotone(RedSum(w, r, g, b), RedSum(w, r2, g2, b2));
  }

  /** A 23-bit signed two's-complement value: 17 integer and 6 fractional
      bits when the value is in units. */
  predicate FitsSigned23(u: int)
  {
    -4194304 <= u < 4194304
  }

  /** On 8-bit inputs the three sums fit a 23-bit signed accumulator (the
      full-precision product of `fixpt_t` and `ap_uint<8>` is wider), and
      the values assigned to Y, Cb, Cr fit `fixpt_t` itself. */
  lemma SumWidths(w: Weights, q: Quantization, p: RGB)
    requires w == SourceWeights(q)
    ensures FitsSigned23(LumaSum(w, p.R, p.G, p.B))
    ensures FitsSigned23(BlueSum(w, p.R, p.G, p.B))
    ensures FitsSigned23(RedSum(w, p.R, p.G, p.B))
    ensures FitsQ12_6(YUnits(w, p.R, p.G, p.B))
    ensures FitsQ12_6(CbUnits(w, p.R, p.G, p.B))
    ensures FitsQ12_6(CrUnits(w, p.R, p.G, p.B))
  {
    UnitsRange(w, q, p);
  }

  /** The fixed-point values the block assigns, on 8-bit inputs. */
  lemma UnitsRange(w: Weights, q: Quantization, p: RGB)
    requires w == SourceWeights(q)
    ensures 288 <= YUnits(w, p.R, p.G, p.B) <= 14304
    ensures 1057 <= CbUnits(w, p.R, p.G, p.B) <= 15392
    ensures 1056 <= CrUnits(w, p.R, p.G, p.B) <= 15391
  {
  }

  /** On 8-bit inputs the block never leaves the byte range: Y stays in
      [4, 223] and Cb, Cr in [16, 240], so the narrowing only drops the
      fraction and the overflow mode of `ap_uint<8>` makes no difference. */
  lemma OutputRange(w: Weights, q: Quantization, ov: Overflow, p: RGB)
    requires w == SourceWeights(q)
    ensures var out := Convert(w, ov, p);
      4 <= out.Y <= 223 && 16 <= out.Cb <= 240 && 16 <= out.Cr <= 240
    ensures Convert(w, ov, p) == Convert(w, Wrap, p) == Convert(w, Saturate, p)
  {
    var r, g, b := p.R, p.G, p.B;
    UnitsRange(w, q, p);
    ToByteInRange(YUnits(w, r, g, b), ov);
    ToByteInRange(CbUnits(w, r, g, b), ov);
    ToByteInRange(CrUnits(w, r, g, b), ov);
    ToByteInRange(YUnits(w, r, g, b), Wrap);
    ToByteInRange(CbUnits(w, r, g, b), Wrap);
    ToByteInRange(CrUnits(w, r, g, b), Wrap);
    ToByteInRange(YUnits(w, r, g, b), Saturate);
    ToByteInRange(CbUnits(w, r, g, b), Saturate);
    ToByteInRange(CrUnits(w, r, g, b), Saturate);
  }

  /** The bytes the block writes inherit the monotonicity of the fixed-point
      values: brighter R, G or B never gives a smaller Y. */
  lemma OutputMonotone(w: Weights, q: Quantization, ov: Overflow, p: RGB, p2: RGB)
    requires w == SourceWeights(q)
    ensures p.R <= p2.R && p.G <= p2.G && p.B <= p2.B ==>
      Convert(w, ov, p).Y <= Convert(w, ov, p2).Y
    ensures p2.R <= p.R && p2.G <= p.G && p.B <= p2.B ==>
      Convert(w, ov, p).Cb <= Convert(w, ov, p2).Cb
    ensures p.R <= p2.R && p2.G <= p.G && p2.B <= p.B ==>
      Convert(w, ov, p).Cr <= Convert(w, ov, p2).Cr
  {
    OutputRange(w, q, ov, p);
    OutputRange(w, q, ov, p2);
    if p.R <= p2.R && p.G <= p2.G && p.B <= p2.B {
      LumaMonotone(w, p.R, p.G, p.B, p2.R, p2.G, p2.B);
      ToByteMonotone(YUnits(w, p.R, p.G, p.B), YUnits(w, p2.R, p2.G, p2.B), ov);
    }
    if p2.R <= p.R && p2.G <= p.G && p.B <= p2.B {
      BlueMonotone(w, p.R, p.G, p.B, p2.R, p2.G, p2.B);
      ToByteMonotone(CbUnits(w, p.R, p.G, p.B), CbUnits(w, p2.R, p2.G, p2.B), ov);
    }
    if p.R <= p2.R && p2.G <= p.G && p2.B <= p.B {
      RedMonotone(w, p.R, p.G, p.B, p2.R, p2.G, p2.B);
      ToByteMonotone(CrUnits(w, p.R, p.G, p.B), CrUnits(w, p2.R, p2.G, p2.B), ov);
    }
  }
}
