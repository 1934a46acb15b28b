/** Pixel formats shared by the fixed-point block, the software reference and
    the testbench: three 8-bit channels in and three 8-bit channels out. */
module Pixel {

  /** An `ap_uint<8>` / `uint8_t` sample. */
  type Byte = x: int | 0 <= x < 256

  /** The input pixel (struct RGB, three `ap_uint<RGB_BITWIDTH>` fields). */
  datatype RGB = RGB(R: Byte, G: Byte, B: Byte)

  /** The output pixel (struct YCbCr, three `ap_uint<YCBCR_BITWIDTH>` fields). */
  datatype YCbCr = YCbCr(Y: Byte, Cb: Byte, Cr: Byte)

  /** The three output channels, in the order the testbench compares them. */
  datatype Channel = LumaY | ChromaB | ChromaR

  const Channels: set<Channel> := {LumaY, ChromaB, ChromaR}

  function Component(p: YCbCr, c: Channel): Byte
  {
    match c
    case LumaY => p.Y
    case ChromaB => p.Cb
    case ChromaR => p.Cr
  }
}
