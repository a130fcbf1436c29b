/** Machine integers and the fixed-width byte layouts used on the wire. */
module Bytes {

  const I32_MAX := 0x7FFF_FFFF
  const USIZE_MAX := 0xFFFF_FFFF_FFFF_FFFF

  type byte = x: int | 0 <= x < 0x100
  type u16 = x: int | 0 <= x < 0x1_0000
  type u24 = x: int | 0 <= x < 0x100_0000
  type u32 = x: int | 0 <= x < 0x1_0000_0000
  type u64 = x: int | 0 <= x <= USIZE_MAX
  type i32 = x: int | -0x8000_0000 <= x <= I32_MAX
  type usize = x: int | 0 <= x <= USIZE_MAX

  type bytes = seq<byte>

  function Max(a: int, b: int): int { if a < b then b else a }

  function Min(a: int, b: int): int { if a < b then a else b }

  function SaturatingAdd(a: nat, b: nat): usize { Min(a + b, USIZE_MAX) }

  function SaturatingSub(a: int, b: int): (r: nat) { if a < b then 0 else a - b }

  /** The same 32 bits read as unsigned, and back. */
  function FromI32(v: i32): u32 { if v < 0 then v + 0x1_0000_0000 else v }

  function ToI32(v: u32): i32 { if v > I32_MAX then v - 0x1_0000_0000 else v }

  function LE24(v: u24): (r: bytes)
    ensures |r| == 3
  {
    [v % 0x100, v / 0x100 % 0x100, v / 0x1_0000]
  }

  function FromLE24(s: bytes): u24
    requires |s| == 3
  {
    s[0] as int + 0x100 * (s[1] as int) + 0x1_0000 * (s[2] as int)
  }

  function BE16(v: u16): (r: bytes)
    ensures |r| == 2
  {
    [v / 0x100, v % 0x100]
  }

  function FromBE16(s: bytes): u16
    requires |s| == 2
  {
    0x100 * (s[0] as int) + s[1] as int
  }

  function BE32(v: u32): (r: bytes)
    ensures |r| == 4
  {
    [v / 0x100_0000, v / 0x1_0000 % 0x100, v / 0x100 % 0x100, v % 0x100]
  }

  function FromBE32(s: bytes): u32
    requires |s| == 4
  {
    0x100_0000 * (s[0] as int) + 0x1_0000 * (s[1] as int) + 0x100 * (s[2] as int) + s[3] as int
  }

  lemma LE24RoundTrip(v: u24)
    ensures FromLE24(LE24(v)) == v
  {
  }

  lemma BE16RoundTrip(v: u16)
    ensures FromBE16(BE16(v)) == v
  {
  }

  lemma BE32RoundTrip(v: u32)
    ensures FromBE32(BE32(v)) == v
  {
    var high, low := v / 0x1_0000, v % 0x1_0000;
    assert v / 0x100_0000 == high / 0x100;
    assert v / 0x100 % 0x100 == low / 0x100;
  }

  /** A two-part concatenation splits back where it was joined. */
  lemma Split<T>(a: seq<T>, b: seq<T>)
    ensures (a + b)[..|a|] == a && (a + b)[|a|..] == b
  {
  }

  lemma Assoc<T>(a: seq<T>, b: seq<T>, c: seq<T>)
    ensures (a + b) + c == a + (b + c)
  {
  }
}
