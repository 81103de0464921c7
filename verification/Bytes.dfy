/** Bytes, 32-bit words and their little-endian layout in memory. */
module Bytes {
  type byte = x: int | 0 <= x < 0x100
  type u32 = x: int | 0 <= x < 0x1_0000_0000

  /** A C conversion of any integer to an unsigned 32-bit one. */
  function ToU32(x: int): (r: u32) {
    x % 0x1_0000_0000
  }

  /** Counting up with wrap-around. */
  lemma ToU32Next(x: nat)
    ensures ToU32(ToU32(x) + 1) == ToU32(x + 1)
  {
  }

  /** A C conversion of an unsigned 32-bit integer to a signed one. */
  function ToS32(x: int): (r: int) {
    if ToU32(x) < 0x8000_0000 then ToU32(x) else ToU32(x) - 0x1_0000_0000
  }

  /** The four bytes a `u32` store leaves in memory. */
  function LE32(v: u32): (b: seq<byte>)
    ensures |b| == 4
  {
    [v % 0x100, v / 0x100 % 0x100, v / 0x1_0000 % 0x100, v / 0x100_0000]
  }

  /** The value a `u32` load at offset `p` yields. */
  function U32At(s: seq<byte>, p: nat): (v: u32)
    requires p + 4 <= |s|
  {
    s[p] as int + 0x100 * (s[p + 1] as int) + 0x1_0000 * (s[p + 2] as int) + 0x100_0000 * (s[p + 3] as int)
  }

  lemma LoadOfStore(v: u32)
    ensures U32At(LE32(v), 0) == v
  {
    assert v / 0x1_0000 == v / 0x100 / 0x100;
    assert v / 0x100_0000 == v / 0x100 / 0x100 / 0x100;
  }

  /** A load sees a store wherever the store's bytes sit. */
  lemma LoadAt(s: seq<byte>, p: nat, v: u32)
    requires p + 4 <= |s|
    requires s[p..p + 4] == LE32(v)
    ensures U32At(s, p) == v
  {
    LoadOfStore(v);
    var w := s[p..p + 4];
    assert w[0] == s[p] && w[1] == s[p + 1] && w[2] == s[p + 2] && w[3] == s[p + 3];
  }
}
