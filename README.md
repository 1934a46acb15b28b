# RGB2YCbCr in Dafny

A model of `RGB2YCbCr.cpp`: a pixel converter from 8-bit RGB to 8-bit YCbCr
written for SmartHLS synthesis, with its software testbench.

- **The synthesized block** `RGB2YCbCr_smarthls` computes Y, Cb and Cr with
  the Q12.6 type `fixpt_t`. Each value is a weighted sum of R, G and B,
  shifted right by 8 in place of a division by 256. An offset and 0.5 are
  then added, and the result is assigned to an 8-bit field. The weights are
  the BT.601 studio-range coefficients. The Y offset is 4, as the code has
  it, not the standard's 16.
- **The software reference** `RGB2YCbCr_sw` computes the same three channels
  with full-range coefficients and passes each through `clamp`.
- **`main`** sweeps R, G and B over [0, 63]. For each triple it compares
  every channel of the two conversions with `compareAndReport` and
  THRESHOLD = 5. It returns the number of mismatches.

Modules, one file each:

- `Pixel` (`pixel.dfy`): the RGB and YCbCr structs and their channels.
- `FixedPoint` (`fixed_point.dfy`): Q12.6 values, held as integer counts of
  1/64.
  - The quantization of the decimal constants is a parameter, truncation or
    round-half-up. The library's mode is not visible.
  - `>> 8` is floor division by 256.
  - The assignment to `ap_uint<8>` drops the fraction, then wraps or
    saturates. This overflow mode is also a parameter.
- `SmartHls` (`smart_hls.dfy`): the three expressions of the block over any
  weights, and the weights the source's constants give.
- `Software` (`software.dfy`): `clamp`, and the reference in exact real
  arithmetic.
- `Testbench` (`testbench.dfy`): `compareAndReport` and the sweep of `main`.
  - The sweep is a method over two conversion functions given as
    parameters.
  - It is proved against `Count`, the running total of `err` over iterations
    in loop order. The lemmas about `Count` tie it to the set of mismatching
    (iteration, channel) pairs and to agreement on the whole cube.
- `Agreement` (`agreement.dfy`): proves that on [0, 63]³ the block and the
  exact reference never differ by more than THRESHOLD. So `main`, run on the
  two, counts no mismatch. Outside the sweep they do differ: white gives Y =
  223 against 255.

Every property of the block is proved for both quantizations of the
constants and both overflow modes. `SmartHls.OutputRange` shows that the
overflow mode never matters on 8-bit inputs, because Y stays in [4, 223] and
Cb and Cr in [16, 240].

## Model

| member | source | states |
|---|---|---|
| FixedPoint.Quantize | RGB2YCbCr.cpp:42-44 | `fixpt_t(c)` of a constant c: its units lie within one unit below c·64 when truncating, within half a unit of it when rounding |
| FixedPoint.ShiftRight8 | RGB2YCbCr.cpp:41-44 | `>> 8` gives the s with s·256 ≤ u < s·256 + 256, i.e. division by 256 rounded toward minus infinity |
| FixedPoint.ShiftRight8Monotone | RGB2YCbCr.cpp:41-44 | the shift never reverses the order of two sums |
| FixedPoint.IntegerPart | RGB2YCbCr.cpp:42-44 | dropping the six fractional bits gives the n with n·64 ≤ u < n·64 + 64 |
| FixedPoint.ToByte | RGB2YCbCr.cpp:42-44 | the assignment to an `ap_uint<8>` field gives a byte: the integer part inside [0, 256), 0 or 255 when saturating below or above, the integer part modulo 256 when wrapping |
| FixedPoint.ToByteInRange | RGB2YCbCr.cpp:42-44 | inside [0, 256) both overflow modes give the integer part |
| FixedPoint.ToByteMonotone | RGB2YCbCr.cpp:42-44 | inside [0, 256) the narrowing keeps order |
| SmartHls.SourceWeights | RGB2YCbCr.cpp:42-44 | the nine weights of the block are non-negative magnitudes, the signs being those written in the three expressions |
| SmartHls.SourceWeightsQuantize | RGB2YCbCr.cpp:42-44 | each weight is the Q12.6 quantization of the decimal constant written in the source (65.738, 129.057, 25.064, 37.945, 74.494, 112.439, 112.439, 94.154, 18.285) |
| SmartHls.ZeroInput | RGB2YCbCr.cpp:42-44 | for black, whatever the weights, the values before narrowing are 4.5 and 128.5 (288 and 8224 units) and the block writes (4, 128, 128) |
| SmartHls.LumaMonotone | RGB2YCbCr.cpp:42 | with non-negative luma weights, Y before narrowing is nondecreasing in each of R, G and B |
| SmartHls.BlueMonotone | RGB2YCbCr.cpp:43 | with non-negative weights, Cb before narrowing is nondecreasing in B and nonincreasing in R and G |
| SmartHls.RedMonotone | RGB2YCbCr.cpp:44 | with non-negative weights, Cr before narrowing is nondecreasing in R and nonincreasing in G and B |
| SmartHls.UnitsRange | RGB2YCbCr.cpp:42-44 | on 8-bit inputs Y before narrowing lies in [288, 14304] units, Cb in [1057, 15392] and Cr in [1056, 15391] |
| SmartHls.SumWidths | RGB2YCbCr.cpp:26-44 | on 8-bit inputs the three weighted sums fit a signed 23-bit accumulator and the values assigned fit `fixpt_t` (ap_fixpt<18, 12>) |
| SmartHls.OutputRange | RGB2YCbCr.cpp:42-44 | the block writes Y in [4, 223] and Cb, Cr in [16, 240], and the same bytes under both overflow modes |
| SmartHls.OutputMonotone | RGB2YCbCr.cpp:42-44 | the bytes written keep the monotonicity of the values: Y rises with R, G, B; Cb with B against R, G; Cr with R against G, B |
| SmartHls.LumaSum | RGB2YCbCr.cpp:42 | the weighted sum of R, G, B under the `>> 8` of Y, in units; no contract of its own: SmartHls.LumaMonotone and SmartHls.SumWidths state its behaviour |
| SmartHls.BlueSum | RGB2YCbCr.cpp:43 | the weighted sum under the `>> 8` of Cb, with B subtracted; no contract of its own: SmartHls.BlueMonotone and SmartHls.SumWidths state its behaviour |
| SmartHls.RedSum | RGB2YCbCr.cpp:44 | the weighted sum under the `>> 8` of Cr, with G and B subtracted; no contract of its own: SmartHls.RedMonotone and SmartHls.SumWidths state its behaviour |
| SmartHls.YUnits | RGB2YCbCr.cpp:42 | the Q12.6 value assigned to Y, before narrowing; no contract of its own: SmartHls.ZeroInput, SmartHls.LumaMonotone and SmartHls.UnitsRange state its behaviour |
| SmartHls.CbUnits | RGB2YCbCr.cpp:43 | the Q12.6 value assigned to Cb, before narrowing; no contract of its own: SmartHls.ZeroInput, SmartHls.BlueMonotone and SmartHls.UnitsRange state its behaviour |
| SmartHls.CrUnits | RGB2YCbCr.cpp:44 | the Q12.6 value assigned to Cr, before narrowing; no contract of its own: SmartHls.ZeroInput, SmartHls.RedMonotone and SmartHls.UnitsRange state its behaviour |
| SmartHls.Convert | RGB2YCbCr.cpp:37-46 | one call of `RGB2YCbCr_smarthls`: the YCbCr written for the RGB read; no contract of its own: SmartHls.ZeroInput, SmartHls.OutputRange, SmartHls.OutputMonotone and Agreement.BlockAgrees state its behaviour |
| Software.ExactY | RGB2YCbCr.cpp:68 | the Y expression of `RGB2YCbCr_sw` in exact arithmetic; no contract of its own: Agreement.ReferenceFloors states it over denominator 1000 |
| Software.ExactCb | RGB2YCbCr.cpp:69 | the Cb expression in exact arithmetic; no contract of its own: Agreement.ReferenceFloors states it over denominator 1000 |
| Software.ExactCr | RGB2YCbCr.cpp:70 | the Cr expression in exact arithmetic; no contract of its own: Agreement.ReferenceFloors states it over denominator 10000 |
| Software.Reference | RGB2YCbCr.cpp:66-73 | `RGB2YCbCr_sw`: `clamp` of each expression; no contract of its own: Software.ReferenceZero, Software.ReferenceWhite and Agreement.ReferenceFloors state its behaviour |
| Software.Clamp | RGB2YCbCr.cpp:50-52 | `clamp` returns a value in [0, 255]; 0 for inputs ≤ 0, 255 for inputs ≥ 255, and the integer part of any input in between |
| Software.ClampKeepsBytes | RGB2YCbCr.cpp:50-52 | every integer in [0, 255] passes through `clamp` unchanged |
| Software.ClampMonotone | RGB2YCbCr.cpp:50-52 | `clamp` is nondecreasing |
| Software.ReferenceZero | RGB2YCbCr.cpp:66-73 | the reference maps black to (0, 128, 128) |
| Software.ReferenceWhite | RGB2YCbCr.cpp:66-73 | the reference maps white to Y = 255 |
| Testbench.CompareAndReport | RGB2YCbCr.cpp:75-83 | returns 0 or 1, and 1 exactly when the two bytes differ by more than the threshold |
| Testbench.CompareSymmetric | RGB2YCbCr.cpp:75-83 | swapping actual and expected does not change the result |
| Testbench.CompareEqual | RGB2YCbCr.cpp:75-83 | equal bytes give 0 under any non-negative threshold |
| Testbench.Flags | RGB2YCbCr.cpp:113-115 | one iteration adds 0 to 3 to `err`, and 0 exactly when no channel differs by more than THRESHOLD |
| Testbench.TripleAt | RGB2YCbCr.cpp:97-103 | the t-th iteration of the three loops reads R, G, B in [0, 63] with t = 4096·R + 64·G + B |
| Testbench.TripleAtIndex | RGB2YCbCr.cpp:97-103 | every triple of [0, 63]³ is the input of exactly the iteration 4096·R + 64·G + B |
| Testbench.Count | RGB2YCbCr.cpp:94-118 | the running `err` after n iterations in loop order; no contract of its own: Testbench.CountBounds, Testbench.CountIsMismatches, Testbench.CountZero and Testbench.SweepPassesIff state its behaviour, and Testbench.RunTestbench is proved against it |
| Testbench.CountStep | RGB2YCbCr.cpp:99-116 | the iteration for triple p adds the three flags of p to the running `err` |
| Testbench.CountBounds | RGB2YCbCr.cpp:94-118 | after n iterations 0 ≤ err ≤ 3·n |
| Testbench.MismatchesAtSize | RGB2YCbCr.cpp:113-115 | the flags one iteration adds are the number of its channels that mismatch |
| Testbench.MismatchesStep | RGB2YCbCr.cpp:97-118 | the mismatching (iteration, channel) pairs of the first n iterations number those of the first n − 1 plus those of iteration n − 1 |
| Testbench.CountIsMismatches | RGB2YCbCr.cpp:94-118 | `err` after n iterations is the number of (iteration, channel) pairs among them whose bytes differ by more than THRESHOLD |
| Testbench.CountZero | RGB2YCbCr.cpp:94-118 | `err` is 0 after n iterations exactly when each of them added 0 |
| Testbench.SweepPassesIff | RGB2YCbCr.cpp:94-128 | the final `err` is 0 exactly when the two conversions agree within THRESHOLD on every channel of every triple of [0, 63]³ |
| Testbench.RunTestbench | RGB2YCbCr.cpp:86-128 | `main` returns the final `err`, 0 ≤ err ≤ 3·64³, and 0 exactly when the two conversions agree within THRESHOLD on the whole sweep |
| Agreement.LumaArith | RGB2YCbCr.cpp:42 | the floors of the block's Y (shift, narrowing) and of the reference's Y stay within 5 of each other on [0, 63]³ |
| Agreement.BlueArith | RGB2YCbCr.cpp:43 | the same for Cb |
| Agreement.RedArith | RGB2YCbCr.cpp:44 | the same for Cr |
| Agreement.ReferenceFloors | RGB2YCbCr.cpp:66-73 | on [0, 63]³ the reference's channels are the floors of its three expressions, over denominators 1000 and 10000 |
| Agreement.LumaAgrees | RGB2YCbCr.cpp:42 | with either quantization of the luma weights, the block's Y is within THRESHOLD of the reference's on [0, 63]³ |
| Agreement.BlueAgrees | RGB2YCbCr.cpp:43 | the same for Cb |
| Agreement.RedAgrees | RGB2YCbCr.cpp:44 | the same for Cr |
| Agreement.SourceWeightsKinds | RGB2YCbCr.cpp:42-44 | both quantizations of the constants give weights covered by the three agreement lemmas |
| Agreement.BlockAgrees | RGB2YCbCr.cpp:42-73 | on every input of the sweep, every channel the block writes is within THRESHOLD of the reference's |
| Agreement.TestbenchPasses | RGB2YCbCr.cpp:86-128 | `main` run on the block and the reference counts no mismatch, so it returns 0 |
| Agreement.WhiteMismatch | RGB2YCbCr.cpp:42-72 | outside the sweep the two disagree: for white the block writes Y = 223 and the reference gives 255, which `compareAndReport` flags |

## Left out

- FIFO streaming (`hls::FIFO` reads and writes, and the FIFO objects of `main`) is not modelled. A call of the block is the function `SmartHls.Convert` from the RGB read to the YCbCr written.
- HLS pragmas and pipelining are not modelled. The block has no registers or clocked state to model.
- `printf` diagnostics and the PASS/FAIL lines are left out, including the message of `compareAndReport` and its `label` argument. They are output only.
- The software reference computes in `float` and `double`. It is modelled in exact real arithmetic, so IEEE rounding and NaN are not captured. Where a channel is an exact integer in real arithmetic (Y of a gray input, say), the float result may fall just below it, and `clamp` would then truncate to one less.
- Agreement.BlockAgrees: proved against the exact-real reference, not the float computation. Float rounding can lower a reference channel by one at the points described above.
- Agreement.TestbenchPasses: likewise holds for the exact-real reference, not the float one.
- Agreement.LumaAgrees: likewise against the exact-real reference's Y.
- Agreement.BlueAgrees: likewise against the exact-real reference's Cb.
- Agreement.RedAgrees: likewise against the exact-real reference's Cr.
- Agreement.WhiteMismatch: the reference's 255 is that of the exact-real reference.
- Software.Clamp: the argument is a real, not a `float`, so NaN and the float rounding of the argument are not modelled.
- The `ap_fixpt` library's semantics are not visible, so three of its choices are parameters rather than facts:
  - the quantization of the decimal constants (truncate or round half up);
  - the overflow behaviour of the assignment to `ap_uint<8>` (wrap or saturate);
  - the width of intermediate products and sums, which are taken at full precision. SmartHls.SumWidths states the width they need.
  - the rounding direction when a negative value is narrowed: FixedPoint.IntegerPart drops the fraction by rounding toward minus infinity, where the library might round toward zero. The block never narrows a negative value (SmartHls.UnitsRange), so its bytes do not depend on this.
- `RGB2YCbCr_smarthls` does not saturate. Saturation appears only in `clamp`, which is used by the software reference alone.
- The exit status: `main` returns `err`, and RunTestbench models that value. A POSIX host keeps only `err` modulo 256 as the process status, so a multiple of 256 mismatches would read as success there; that truncation is not modelled.
