/** The Q12.6 fixed-point type `fixpt_t` (ap_fixpt<18, 12>), represented by
    the integer number of 1/64 units it holds. */
module FixedPoint {
  // One integer unit is 2^6 = 64 fixed-point units throughout.

  /** The signed 18-bit range of a Q12.6 value, in units. */
  const MinQ12_6: int := -131072
  const MaxQ12_6: int := 131071

  predicate FitsQ12_6(u: int)
  {
    MinQ12_6 <= u <= MaxQ12_6
  }

  /** How a decimal constant is brought to 6 fractional bits. The library's
      quantization mode is not visible, so both usual choices are kept. */
  datatype Quantization = Truncate | RoundHalfUp

  /** The units of `fixpt_t(c)` for a non-negative constant c = milli / 1000:
      within one unit of c * 64, below it when truncating and within half a
      unit when rounding. */
  function Quantize(milli: nat, q: Quantization): (u: int)
    ensures u >= 0
    ensures q == Truncate ==> u * 1000 <= milli * 64 < u * 1000 + 1000
    ensures q == RoundHalfUp ==> u * 1000 - 500 <= milli * 64 < u * 1000 + 500
  {
    match q
    case Truncate => milli * 64 / 1000
    case RoundHalfUp => (milli * 64 + 500) / 1000
  }

  /** `x >> 8` on a fixed-point value: the units are divided by 256 and the
      bits shifted out are dropped, rounding toward minus infinity also for
      negative sums. */
  function ShiftRight8(u: int): (s: int)
    ensures s * 256 <= u < s * 256 + 256
  {
    u / 256
  }

  lemma {:induction false} ShiftRight8Monotone(u: int, v: int)
    requires u <= v
    ensures ShiftRight8(u) <= ShiftRight8(v)
  {
  }

  /** What happens to the integer part when a value leaves [0, 255] on the
      assignment to `ap_uint<8>`; the library's mode is not visible. */
  datatype Overflow = Wrap | Saturate

  /** The integer part of a value: its fractional bits dropped, which is
      rounding toward minus infinity. For a negative value the library may
      round toward zero instead; the block never narrows a negative value
      (SmartHls.UnitsRange), so the two agree wherever the model uses it. */
  function IntegerPart(u: int): (n: int)
    ensures n * 64 <= u < n * 64 + 64
  {
    u / 64
  }

  /** The assignment of a fixed-point value to an `ap_uint<8>` field: the six
      fractional bits are dropped (IntegerPart), then the integer part is
      wrapped modulo 256 or saturated to [0, 255]. */
  function ToByte(u: int, ov: Overflow): (b: int)
    ensures 0 <= b < 256
    ensures 0 <= u < 256 * 64 ==> b * 64 <= u < b * 64 + 64
    ensures ov == Saturate && u < 0 ==> b == 0
    ensures ov == Saturate && u >= 256 * 64 ==> b == 255
    ensures ov == Wrap ==> (IntegerPart(u) - b) % 256 == 0
  {
    var n := IntegerPart(u);
    match ov
    case Wrap => n % 256
    case Saturate => if n < 0 then 0 else if n > 255 then 255 else n
  }

  /** Inside [0, 256) both overflow modes give the integer part. */
  lemma ToByteInRange(u: int, ov: Overflow)
    requires 0 <= u < 256 * 64
    ensures ToByte(u, ov) == IntegerPart(u)
  {
  }

  lemma {:induction false} ToByteMonotone(u: int, v: int, ov: Overflow)
    requires 0 <= u <= v < 256 * 64
    ensures ToByte(u, ov) <= ToByte(v, ov)
  {
  }
}
