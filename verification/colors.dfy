/** YColor: an 8-bit-per-channel colour. On the little-endian platforms the
    engine targets, the four channels are laid out B, G, R, A in memory,
    so the colour read as one 32-bit word is its ARGB packing. */
module Colors {
  import opened IntTypes

  /** A 32-bit word made of four bytes, `b3` the most significant. The
      engine writes this as shifts joined by `|`; the shifted bytes do not
      overlap, so `|` adds them. */
  function Pack(b3: u8, b2: u8, b1: u8, b0: u8): u32 {
    (b3 as int * 0x100_0000 + b2 as int * 0x1_0000 + b1 as int * 0x100 + b0 as int) as u32
  }

  /** Byte `k` (0 is the least significant) of a word: `(p >> 8k) & 0xff`. */
  function Byte(p: u32, k: nat): u8
    requires k < 4
  {
    (if k == 0 then p as int % 0x100
     else if k == 1 then p as int / 0x100 % 0x100
     else if k == 2 then p as int / 0x1_0000 % 0x100
     else p as int / 0x100_0000) as u8
  }

  /** Each byte of a packed word is recovered by shift and mask. */
  lemma UnpackPack(b3: u8, b2: u8, b1: u8, b0: u8)
    ensures Byte(Pack(b3, b2, b1, b0), 3) == b3 && Byte(Pack(b3, b2, b1, b0), 2) == b2
    ensures Byte(Pack(b3, b2, b1, b0), 1) == b1 && Byte(Pack(b3, b2, b1, b0), 0) == b0
  {
    var p := Pack(b3, b2, b1, b0) as int;
    var lo := b2 as int * 0x1_0000 + b1 as int * 0x100 + b0 as int;
    assert p == b3 as int * 0x100_0000 + lo && lo < 0x100_0000;
    assert p / 0x100_0000 == b3 as int;
    var mid := b1 as int * 0x100 + b0 as int;
    assert p == (b3 as int * 0x100 + b2 as int) * 0x1_0000 + mid && mid < 0x1_0000;
    assert p / 0x1_0000 == b3 as int * 0x100 + b2 as int;
    assert p == ((b3 as int * 0x100 + b2 as int) * 0x100 + b1 as int) * 0x100 + b0 as int;
    assert p / 0x100 == (b3 as int * 0x100 + b2 as int) * 0x100 + b1 as int;
  }

  /** A word is the packing of its own bytes. */
  lemma PackUnpack(p: u32)
    ensures Pack(Byte(p, 3), Byte(p, 2), Byte(p, 1), Byte(p, 0)) == p
  {
    var x := p as int;
    assert x == (x / 0x100) * 0x100 + x % 0x100;
    assert x / 0x100 == (x / 0x1_0000) * 0x100 + x / 0x100 % 0x100;
    assert x / 0x1_0000 == (x / 0x100_0000) * 0x100 + x / 0x1_0000 % 0x100;
  }

  /** The word with its byte order reversed. */
  function ByteSwap(p: u32): u32 {
    Pack(Byte(p, 0), Byte(p, 1), Byte(p, 2), Byte(p, 3))
  }

  /** The word rotated left by eight bits. */
  function RotateLeft8(p: u32): u32 {
    Pack(Byte(p, 2), Byte(p, 1), Byte(p, 0), Byte(p, 3))
  }

  /** The word with bytes 0 and 2 exchanged. */
  function SwapRedBlue(p: u32): u32 {
    Pack(Byte(p, 3), Byte(p, 0), Byte(p, 1), Byte(p, 2))
  }

  /** The channel sum `a + b` clamped at 255. */
  function SaturatingAdd(a: u8, b: u8): (r: u8)
    ensures r as int == if a as int + b as int > MAX_UINT8 then MAX_UINT8 else a as int + b as int
  {
    if a as int + b as int < MAX_UINT8 then a + b else MAX_UINT8 as u8
  }

  datatype Color = Color(r: u8, g: u8, b: u8, a: u8)
  {
    /** The colour read as one 32-bit word: alpha in the high byte, then
        red, green and blue. */
    function DWColor(): (p: u32)
      ensures Byte(p, 3) == a && Byte(p, 2) == r && Byte(p, 1) == g && Byte(p, 0) == b
    {
      ToPackedARGB()
    }

    function ToPackedARGB(): (p: u32)
      ensures Byte(p, 3) == a && Byte(p, 2) == r && Byte(p, 1) == g && Byte(p, 0) == b
    {
      UnpackPack(a, r, g, b);
      Pack(a, r, g, b)
    }

    function ToPackedABGR(): (p: u32)
      ensures p == SwapRedBlue(ToPackedARGB())
    {
      UnpackPack(a, b, g, r);
      Pack(a, b, g, r)
    }

    function ToPackedRGBA(): (p: u32)
      ensures p == RotateLeft8(ToPackedARGB())
    {
      UnpackPack(r, g, b, a);
      Pack(r, g, b, a)
    }

    function ToPackedBGRA(): (p: u32)
      ensures p == ByteSwap(ToPackedARGB())
    {
      UnpackPack(b, g, r, a);
      Pack(b, g, r, a)
    }

    /** The same colour with alpha `alpha`. */
    function WithAlpha(alpha: u8): (c: Color)
      ensures c.a == alpha && c.r == r && c.g == g && c.b == b
    {
      Color(r, g, b, alpha)
    }

    /** `operator==` compares the two words, which agree exactly when all
        four channels do. */
    function Equals(other: Color): (same: bool)
      ensures same <==> this == other
    {
      DWColorDistinguishes(this, other);
      DWColor() == other.DWColor()
    }

    /** `operator+=`: each channel is the sum clamped at 255. */
    function Plus(other: Color): (c: Color)
      ensures c.r as int == if r as int + other.r as int > MAX_UINT8 then MAX_UINT8 else r as int + other.r as int
      ensures c.g as int == if g as int + other.g as int > MAX_UINT8 then MAX_UINT8 else g as int + other.g as int
      ensures c.b as int == if b as int + other.b as int > MAX_UINT8 then MAX_UINT8 else b as int + other.b as int
      ensures c.a as int == if a as int + other.a as int > MAX_UINT8 then MAX_UINT8 else a as int + other.a as int
    {
      Color(SaturatingAdd(r, other.r), SaturatingAdd(g, other.g), SaturatingAdd(b, other.b), SaturatingAdd(a, other.a))
    }
  }

  /** The colour whose word is `p` (the constructor taking a uint32). */
  function FromDWColor(p: u32): (c: Color)
    ensures c.DWColor() == p
  {
    PackUnpack(p);
    Color(Byte(p, 2), Byte(p, 1), Byte(p, 0), Byte(p, 3))
  }

  /** Colours with the same word are the same colour. */
  lemma DWColorDistinguishes(c: Color, d: Color)
    ensures c.DWColor() == d.DWColor() ==> c == d
  {
    if c.DWColor() == d.DWColor() {
      assert Byte(c.DWColor(), 3) == Byte(d.DWColor(), 3);
    }
  }

  const White: Color := Color(255, 255, 255, 255)
  const Black: Color := Color(0, 0, 0, 255)
}
