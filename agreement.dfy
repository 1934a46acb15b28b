/** What the testbench establishes: on the swept cube [0, 63]^3 the block
    and the software reference never differ by more than THRESHOLD on any
    channel, so `main` returns 0. */
module Agreement {
  import opened Pixel
  import opened FixedPoint
  import opened SmartHls
  import opened Software
  import opened Testbench

  /** An input of the sweep: every channel in [0, 63]. */
  predicate InSweep(p: RGB)
  {
    p.R < Side && p.G < Side && p.B < Side
  }

  /** The luma weights of either quantization of the constants. */
  predicate LumaWeights(w: Weights)
  {
    w.yr == 4207 && 8259 <= w.yg <= 8260 && w.yb == 1604
  }

  predicate BlueWeights(w: Weights)
  {
    w.cbr == 2428 && 4767 <= w.cbg <= 4768 && w.cbb == 7196
  }

  predicate RedWeights(w: Weights)
  {
    w.crr == 7196 && 6025 <= w.crg <= 6026 && w.crb == 1170
  }

  /** The arithmetic behind each channel's agreement: the block's value, as
      the two floors of `>> 8` and of the narrowing leave it, against the
      reference's value, as the floor of `clamp` leaves it, scaled by 1000
      (10000 for Cr, whose constant 0.0813 has four decimals). */
  lemma LumaArith(r: int, g: int, b: int, sum: int, s: int, y: int, ys: int)
    requires 0 <= r < 64 && 0 <= g < 64 && 0 <= b < 64
    requires 4207 * r + 8259 * g + 1604 * b <= sum <= 4207 * r + 8260 * g + 1604 * b
    requires s * 256 <= sum < s * 256 + 256
    requires y * 64 <= 288 + s < y * 64 + 64
    requires 1000 * ys <= 299 * r + 587 * g + 114 * b < 1000 * ys + 1000
    ensures -5 <= y - ys <= 5
  {
  }

  lemma BlueArith(r: int, g: int, b: int, sum: int, s: int, y: int, ys: int)
    requires 0 <= r < 64 && 0 <= g < 64 && 0 <= b < 64
    requires 2428 * r + 4767 * g - 7196 * b <= sum <= 2428 * r + 4768 * g - 7196 * b
    requires s * 256 <= sum < s * 256 + 256
    requires y * 64 <= 8224 - s < y * 64 + 64
    requires 1000 * ys <= 128000 - 169 * r - 332 * g + 500 * b < 1000 * ys + 1000
    ensures -5 <= y - ys <= 5
  {
  }

  lemma RedArith(r: int, g: int, b: int, sum: int, s: int, y: int, ys: int)
    requires 0 <= r < 64 && 0 <= g < 64 && 0 <= b < 64
    requires 7196 * r - 6026 * g - 1170 * b <= sum <= 7196 * r - 6025 * g - 1170 * b
    requires s * 256 <= sum < s * 256 + 256
    requires y * 64 <= 8224 + s < y * 64 + 64
    requires 10000 * ys <= 1280000 + 5000 * r - 4190 * g - 813 * b < 10000 * ys + 10000
    ensures -5 <= y - ys <= 5
  {
  }

  /** The reference's channels are the floors of its three expressions,
      written over the common denominators 1000 and 10000. */
  lemma ReferenceFloors(p: RGB)
    requires InSweep(p)
    ensures var ys := Reference(p);
      1000 * ys.Y <= 299 * p.R + 587 * p.G + 114 * p.B < 1000 * ys.Y + 1000
      && 1000 * ys.Cb <= 128000 - 169 * p.R - 332 * p.G + 500 * p.B < 1000 * ys.Cb + 1000
      && 10000 * ys.Cr <= 1280000 + 5000 * p.R - 4190 * p.G - 813 * p.B < 10000 * ys.Cr + 10000
  {
    assert ExactY(p.R, p.G, p.B) == (299 * p.R + 587 * p.G + 114 * p.B) as real / 1000.0;
    assert ExactCb(p.R, p.G, p.B) == (128000 - 169 * p.R - 332 * p.G + 500 * p.B) as real / 1000.0;
    assert ExactCr(p.R, p.G, p.B) == (1280000 + 5000 * p.R - 4190 * p.G - 813 * p.B) as real / 10000.0;
  }

  /** Y of the block is within the threshold of the reference's Y. */
  lemma LumaAgrees(w: Weights, ov: Overflow, p: RGB)
    requires LumaWeights(w) && InSweep(p)
    ensures -Threshold <= Convert(w, ov, p).Y - Reference(p).Y <= Threshold
  {
    MulMonotone(p.G, 8259, w.yg);
    MulMonotone(p.G, w.yg, 8260);
    var sum := LumaSum(w, p.R, p.G, p.B);
    var u := YUnits(w, p.R, p.G, p.B);
    ToByteInRange(u, ov);
    ReferenceFloors(p);
    LumaArith(p.R, p.G, p.B, sum, ShiftRight8(sum), Convert(w, ov, p).Y, Reference(p).Y);
  }

  /** Cb of the block is within the threshold of the reference's Cb. */
  lemma BlueAgrees(w: Weights, ov: Overflow, p: RGB)
    requires BlueWeights(w) && InSweep(p)
    ensures -Threshold <= Convert(w, ov, p).Cb - Reference(p).Cb <= Threshold
  {
    MulMonotone(p.G, 4767, w.cbg);
    MulMonotone(p.G, w.cbg, 4768);
    var sum := BlueSum(w, p.R, p.G, p.B);
    var u := CbUnits(w, p.R, p.G, p.B);
    ToByteInRange(u, ov);
    ReferenceFloors(p);
    BlueArith(p.R, p.G, p.B, sum, ShiftRight8(sum), Convert(w, ov, p).Cb, Reference(p).Cb);
  }

  /** Cr of the block is within the threshold of the reference's Cr. */
  lemma RedAgrees(w: Weights, ov: Overflow, p: RGB)
    requires RedWeights(w) && InSweep(p)
    ensures -Threshold <= Convert(w, ov, p).Cr - Reference(p).Cr <= Threshold
  {
    MulMonotone(p.G, 6025, w.crg);
    MulMonotone(p.G, w.crg, 6026);
    var sum := RedSum(w, p.R, p.G, p.B);
    var u := CrUnits(w, p.R, p.G, p.B);
    ToByteInRange(u, ov);
    ReferenceFloors(p);
    RedArith(p.R, p.G, p.B, sum, ShiftRight8(sum), Convert(w, ov, p).Cr, Reference(p).Cr);
  }

  /** Either quantization of the source's constants gives weights of the
      three kinds above. */
  lemma SourceWeightsKinds(q: Quantization)
    ensures var w := SourceWeights(q);
      LumaWeights(w) && BlueWeights(w) && RedWeights(w)
  {
  }

  /** The block, with the constants as either quantization gives them, is
      within THRESHOLD of the reference on every channel of every input of
      the sweep. */
  lemma BlockAgrees(q: Quantization, ov: Overflow, p: RGB)
    requires InSweep(p)
    ensures forall c | c in Channels ::
      -Threshold <= Component(Convert(SourceWeights(q), ov, p), c) - Component(Reference(p), c) <= Threshold
  {
    var w := SourceWeights(q);
    SourceWeightsKinds(q);
    LumaAgrees(w, ov, p);
    BlueAgrees(w, ov, p);
    RedAgrees(w, ov, p);
    var out, expected := Convert(w, ov, p), Reference(p);
    forall c | c in Channels
      ensures -Threshold <= Component(out, c) - Component(expected, c) <= Threshold
    {
    }
  }

  /** Hence `main`, run on the block and the reference, counts no mismatch
      and returns 0 (RunTestbench returns Count of the whole sweep). */
  lemma TestbenchPasses(q: Quantization, ov: Overflow)
    ensures Count(p => Convert(SourceWeights(q), ov, p), Reference, Triples) == 0
  {
    var hls := p => Convert(SourceWeights(q), ov, p);
    forall p: RGB | p.R < Side && p.G < Side && p.B < Side
      ensures forall c | c in Channels ::
        -Threshold <= Component(hls(p), c) - Component(Reference(p), c) <= Threshold
    {
      BlockAgrees(q, ov, p);
    }
    assert AllAgree(hls, Reference);
    SweepPassesIff(hls, Reference);
  }

  /** The agreement is confined to the sweep: on white the block writes
      Y = 223 where the reference gives 255, a mismatch of 32. */
  lemma WhiteMismatch(q: Quantization, ov: Overflow)
    ensures Convert(SourceWeights(q), ov, RGB(255, 255, 255)).Y == 223
    ensures Reference(RGB(255, 255, 255)).Y == 255
    ensures CompareAndReport(223, 255, Threshold) == 1
  {
    var w := SourceWeights(q);
    ToByteInRange(YUnits(w, 255, 255, 255), ov);
  }
}
