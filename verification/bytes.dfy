/** Fixed-width unsigned integers and their byte encodings. Rust's `u8`, `u16`
    and `u32` are modelled as bounded mathematical integers; every place where
    the source can overflow writes the wrap-around out explicitly. */
module Bytes {

  type u8 = x: int | 0 <= x < 0x100
  type u16 = x: int | 0 <= x < 0x1_0000
  type u32 = x: int | 0 <= x < 0x1_0000_0000

  /** `u16::to_be_bytes`: most significant byte first. */
  function BE16(v: u16): (r: seq<u8>)
    ensures |r| == 2
    ensures FromBE16(r[0], r[1]) == v
  {
    [v / 0x100, v % 0x100]
  }

  /** `u16::from_be_bytes([hi, lo])`. */
  function FromBE16(hi: u8, lo: u8): (v: u16)
    ensures v / 0x100 == hi && v % 0x100 == lo
  {
    hi as int * 0x100 + lo
  }

  /** `u16::to_le_bytes`: least significant byte first. */
  function LE16(v: u16): (r: seq<u8>)
    ensures |r| == 2
    ensures FromBE16(r[1], r[0]) == v
  {
    [v % 0x100, v / 0x100]
  }

  /** `u32::to_be_bytes`. */
  function BE32(v: u32): (r: seq<u8>)
    ensures |r| == 4
    ensures FromBE32(r) == v
  {
    var q1 := v / 0x100;
    var q2 := q1 / 0x100;
    assert v == q1 * 0x100 + v % 0x100;
    assert q1 == q2 * 0x100 + q1 % 0x100;
    assert q2 == (q2 / 0x100) * 0x100 + q2 % 0x100;
    [q2 / 0x100, q2 % 0x100, q1 % 0x100, v % 0x100]
  }

  /** Reads four bytes, most significant first. */
  function FromBE32(b: seq<u8>): (v: u32)
    requires |b| == 4
  {
    var hi: int := b[0] as int * 0x100 + b[1];
    (hi * 0x100 + b[2]) * 0x100 + b[3]
  }

  /** `b as i8`: the two's-complement reading of a byte. */
  function AsI8(b: u8): (v: int)
    ensures -0x80 <= v < 0x80
    ensures (v + 0x100) % 0x100 == b
  {
    if b < 0x80 then b else b - 0x100
  }
}
