/** Pixel conversion and hex dumping (lib/src/loupedeck/mod.rs):
    `convert_argb888_to_rgb565`, `convert_draw_target_to_rgb565` over the
    draw target's plain pixel array, and `to_hex`. */
module Pixels {
  import opened Wrappers
  import opened Bytes

  // ---------------------------------------------------------------------
  // ARGB8888 -> RGB565
  // ---------------------------------------------------------------------

  /** The channels of an `AARRGGBB` pixel: `Rgb` is its low 24 bits, from
      which `(argb >> 16) & 0xff`, `(argb >> 8) & 0xff` and `argb & 0xff`
      take red, green and blue. */
  function Rgb(argb: u32): nat { argb % 0x100_0000 }
  function Red(argb: u32): u8 { Rgb(argb) / 0x1_0000 }
  function Green(argb: u32): u8 { (Rgb(argb) / 0x100) % 0x100 }
  function Blue(argb: u32): u8 { Rgb(argb) % 0x100 }

  /** Three fields of 5, 6 and 5 bits packed high to low can be read back. */
  lemma PackFields(r: nat, g: nat, b: nat)
    requires r < 0x20 && g < 0x40 && b < 0x20
    ensures (r * 0x800 + g * 0x20 + b) / 0x800 == r
    ensures ((r * 0x800 + g * 0x20 + b) / 0x20) % 0x40 == g
    ensures (r * 0x800 + g * 0x20 + b) % 0x20 == b
  {
    var p := r * 0x800 + g * 0x20 + b;
    assert p == (r * 0x40 + g) * 0x20 + b;
    assert p / 0x20 == r * 0x40 + g;
  }

  /** `convert_argb888_to_rgb565`: the top five bits of red in bits 15-11,
      the top six of green in bits 10-5 and the top five of blue in bits
      4-0. The fields do not overlap, so the source's `|` is a sum. */
  function Rgb565(argb: u32): (p: u16)
    ensures p / 0x800 == Red(argb) / 8
    ensures (p / 0x20) % 0x40 == Green(argb) / 4
    ensures p % 0x20 == Blue(argb) / 8
  {
    var r, g, b := Red(argb) / 8, Green(argb) / 4, Blue(argb) / 8;
    PackFields(r, g, b);
    r * 0x800 + g * 0x20 + b
  }

  /** The alpha byte plays no part in the conversion. */
  lemma Rgb565IgnoresAlpha(argb: u32, alpha: u8)
    ensures Rgb565(alpha * 0x100_0000 + argb % 0x100_0000) == Rgb565(argb)
  {
    var other := alpha * 0x100_0000 + argb % 0x100_0000;
    assert Rgb(other) == Rgb(argb);
  }

  /** An opaque pixel whose channels are the 16-bit colour's fields shifted
      back up, with the low bits zero. */
  function Rgb888(p: u16): u32
  {
    0xFF00_0000 + ((p / 0x800) * 8) * 0x1_0000 + (((p / 0x20) % 0x40) * 4) * 0x100 + (p % 0x20) * 8
  }

  /** The channels of an opaque pixel assembled from three bytes. */
  lemma OpaqueChannels(r: u8, g: u8, b: u8)
    ensures var q := 0xFF00_0000 + r * 0x1_0000 + g * 0x100 + b;
            Red(q) == r && Green(q) == g && Blue(q) == b
  {
    var q := 0xFF00_0000 + r * 0x1_0000 + g * 0x100 + b;
    var low := r * 0x1_0000 + g * 0x100 + b;
    assert q == 0xFF * 0x100_0000 + low;
    assert Rgb(q) == low;
    assert low == r * 0x1_0000 + (g * 0x100 + b);
    assert low / 0x100 == r * 0x100 + g;
  }

  /** A 16-bit value is its three fields packed together. */
  lemma UnpackFields(p: u16)
    ensures p == (p / 0x800) * 0x800 + ((p / 0x20) % 0x40) * 0x20 + p % 0x20
  {
    var q := p / 0x20;
    assert p == q * 0x20 + p % 0x20;
    assert q == (q / 0x40) * 0x40 + q % 0x40;
    assert q / 0x40 == p / 0x800;
  }

  /** Every 16-bit colour is the conversion of some pixel: converting the
      widened pixel gives the colour back. */
  lemma Rgb565OfRgb888(p: u16)
    ensures Rgb565(Rgb888(p)) == p
  {
    var r5, g6, b5 := p / 0x800, (p / 0x20) % 0x40, p % 0x20;
    OpaqueChannels(r5 * 8, g6 * 4, b5 * 8);
    assert Rgb888(p) == 0xFF00_0000 + (r5 * 8) * 0x1_0000 + (g6 * 4) * 0x100 + b5 * 8;
    UnpackFields(p);
  }

  /** The conversions the source's own tests expect. */
  lemma Rgb565Examples()
    ensures Rgb565(0xFF00_0000) == 0
    ensures Rgb565(0xFFFF_FFFF) == 0xffff
    ensures Rgb565(0xFF00_00FF) == 0x001f
    ensures Rgb565(0xFFFF_0000) == 0xf800
    ensures Rgb565(0xFF00_FF00) == 0x07e0
  {
    assert Rgb(0xFF00_0000) == 0;
    assert Rgb(0xFFFF_FFFF) == 0xFF_FFFF;
    assert Rgb(0xFF00_00FF) == 0xFF;
    assert Rgb(0xFFFF_0000) == 0xFF_0000;
    assert Rgb(0xFF00_FF00) == 0xFF00;
  }

  /** One-pixel draw targets in red, green and blue become these bytes. */
  lemma PixelBytesExamples()
    ensures LE16(Rgb565(0xFFFF_0000)) == [0x00, 0xF8]
    ensures LE16(Rgb565(0xFF00_FF00)) == [0xE0, 0x07]
    ensures LE16(Rgb565(0xFF00_00FF)) == [0x1F, 0x00]
  {
    Rgb565Examples();
  }

  /** `convert_draw_target_to_rgb565`: each pixel in order becomes its
      16-bit colour, low byte first. */
  method ConvertDrawTarget(pixels: seq<u32>) returns (bytes: seq<u8>)
    ensures |bytes| == 2 * |pixels|
    ensures forall k :: 0 <= k < |pixels| ==>
              bytes[2 * k] == Rgb565(pixels[k]) % 0x100 && bytes[2 * k + 1] == Rgb565(pixels[k]) / 0x100
  {
    bytes := [];
    var i := 0;
    while i < |pixels|
      invariant 0 <= i <= |pixels|
      invariant |bytes| == 2 * i
      invariant forall k :: 0 <= k < i ==>
                  bytes[2 * k] == Rgb565(pixels[k]) % 0x100 && bytes[2 * k + 1] == Rgb565(pixels[k]) / 0x100
    {
      bytes := bytes + LE16(Rgb565(pixels[i]));
      i := i + 1;
    }
  }

  // ---------------------------------------------------------------------
  // to_hex
  // ---------------------------------------------------------------------

  function HexDigit(n: nat): (c: char)
    requires n < 16
  {
    "0123456789abcdef"[n]
  }

  /** The value of a lower-case hex digit; the reference `HexDigit` inverts. */
  function HexValue(c: char): (r: Option<nat>)
    ensures r.Some? ==> r.value < 16
  {
    if '0' <= c <= '9' then Some(c as int - '0' as int)
    else if 'a' <= c <= 'f' then Some(c as int - 'a' as int + 10)
    else None
  }

  lemma HexDigitValue(n: nat)
    requires n < 16
    ensures HexValue(HexDigit(n)) == Some(n)
  {
  }

  /** `format!("{:02x}", b)`. */
  function HexByte(b: u8): (s: string)
    ensures |s| == 2
  {
    [HexDigit(b / 16), HexDigit(b % 16)]
  }

  /** `to_hex`: each byte as two lower-case hex digits, joined by spaces. */
  function ToHex(bytes: seq<u8>): (s: string)
    ensures |s| == if |bytes| == 0 then 0 else 3 * |bytes| - 1
    decreases |bytes|
  {
    if |bytes| == 0 then ""
    else if |bytes| == 1 then HexByte(bytes[0])
    else HexByte(bytes[0]) + " " + ToHex(bytes[1..])
  }

  /** Reads a space-separated hex dump back into bytes. */
  function FromHex(s: string): Option<seq<u8>>
    decreases |s|
  {
    if |s| == 0 then Some([])
    else if |s| < 2 || HexValue(s[0]).None? || HexValue(s[1]).None? then None
    else
      var b := HexValue(s[0]).value * 16 + HexValue(s[1]).value;
      if |s| == 2 then Some([b])
      else if s[2] != ' ' || |s| == 3 then None
      else match FromHex(s[3..])
        case None => None
        case Some(rest) => Some([b] + rest)
  }

  /** The two digits of a byte read back as that byte. */
  lemma HexByteReads(b: u8)
    ensures var h := HexByte(b);
            HexValue(h[0]).Some? && HexValue(h[1]).Some? && HexValue(h[0]).value * 16 + HexValue(h[1]).value == b
  {
    HexDigitValue(b / 16);
    HexDigitValue(b % 16);
  }

  /** `to_hex` loses nothing: the dump reads back as the original bytes. */
  lemma {:induction false} HexRoundTrip(bytes: seq<u8>)
    ensures FromHex(ToHex(bytes)) == Some(bytes)
    decreases |bytes|
  {
    if |bytes| > 0 {
      var b := bytes[0];
      var s := ToHex(bytes);
      HexByteReads(b);
      assert s[0] == HexByte(b)[0] && s[1] == HexByte(b)[1];
      if |bytes| > 1 {
        HexRoundTrip(bytes[1..]);
        assert s[2] == ' ' && s[3..] == ToHex(bytes[1..]);
        assert [b] + bytes[1..] == bytes;
      } else {
        assert |s| == 2;
        assert bytes == [b];
      }
    }
  }
}
