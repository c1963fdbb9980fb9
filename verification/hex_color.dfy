/** The channel extraction of `Color(hex:alpha:)`: red, green and blue are the
    three low bytes of a 64-bit unsigned `hex`, each taken as
    `(hex >> k) & 0xff`.  All arithmetic here is on 64-bit unsigned values,
    as in the source. */
module HexColor {

  /** Swift's `UInt` on the app's 64-bit targets. */
  type UInt = bv64

  type Byte = bv8

  datatype Rgb = Rgb(red: Byte, green: Byte, blue: Byte)

  /** One byte of `hex`: `(hex >> shift) & 0xff`. */
  function Channel(hex: UInt, shift: nat): (c: Byte)
    requires shift <= 56
  {
    ((hex >> shift) & 0xff) as Byte
  }

  /** The three channel values before the division by 255: red is the byte
      at bits 16-23, green at bits 8-15 and blue at bits 0-7. */
  function Channels(hex: UInt): (c: Rgb)
    ensures c.red as UInt == (hex / 0x1_0000) % 0x100
    ensures c.green as UInt == (hex / 0x100) % 0x100
    ensures c.blue as UInt == hex % 0x100
  {
    Rgb(Channel(hex, 16), Channel(hex, 8), Channel(hex, 0))
  }

  /** Bits above the low 24 do not influence the colour. */
  lemma HighBitsIgnored(hex: UInt)
    ensures Channels(hex) == Channels(hex % 0x100_0000)
  {
  }

  /** The three channels reassemble the low 24 bits of `hex`. */
  lemma Reassemble(hex: UInt)
    ensures var c := Channels(hex);
            (c.red as UInt) * 0x1_0000 + (c.green as UInt) * 0x100 + c.blue as UInt == hex % 0x100_0000
  {
  }

  /** Packing three bytes as `0xRRGGBB` and extracting the channels gives
      the bytes back. */
  lemma PackRoundTrip(red: Byte, green: Byte, blue: Byte)
    ensures Channels((red as UInt) * 0x1_0000 + (green as UInt) * 0x100 + blue as UInt) == Rgb(red, green, blue)
  {
  }
}
