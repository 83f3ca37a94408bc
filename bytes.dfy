/** Fixed-width unsigned integers and their little-endian byte encoding (the x64 memory layout). */
module Bytes {

  type byte = x: int | 0 <= x < 0x100
  type u16 = x: int | 0 <= x < 0x1_0000
  type u32 = x: int | 0 <= x < 0x1_0000_0000
  type u64 = x: int | 0 <= x < 0x1_0000_0000_0000_0000

  /** 256 to the power n: one more than the largest value n bytes can hold. */
  function Pow256(n: nat): (r: nat)
    ensures r >= 1
  {
    if n == 0 then 1 else 256 * Pow256(n - 1)
  }

  /** The bounds of the 16-, 32- and 64-bit types. */
  lemma PowersOf256()
    ensures Pow256(2) == 0x1_0000 && Pow256(4) == 0x1_0000_0000 && Pow256(8) == 0x1_0000_0000_0000_0000
  {
  }

  /** The unsigned value stored little-endian in the bytes of s. */
  function LittleEndian(s: seq<byte>): (r: nat)
    ensures r < Pow256(|s|)
  {
    if s == [] then 0 else s[0] + 256 * LittleEndian(s[1..])
  }

  /** The n bytes that store x little-endian. */
  function ToLittleEndian(x: nat, n: nat): (r: seq<byte>)
    requires x < Pow256(n)
    ensures |r| == n
  {
    if n == 0 then [] else [x % 256] + ToLittleEndian(x / 256, n - 1)
  }

  /** Reading back what was written gives the value written. */
  lemma {:induction false} ReadWritten(x: nat, n: nat)
    requires x < Pow256(n)
    ensures LittleEndian(ToLittleEndian(x, n)) == x
  {
    if n > 0 {
      ReadWritten(x / 256, n - 1);
      var s := ToLittleEndian(x, n);
      assert s[1..] == ToLittleEndian(x / 256, n - 1);
    }
  }

  /** Writing back what was read gives the bytes read. */
  lemma {:induction false} WriteRead(s: seq<byte>)
    ensures ToLittleEndian(LittleEndian(s), |s|) == s
  {
    if s != [] {
      WriteRead(s[1..]);
      var x := LittleEndian(s);
      assert x % 256 == s[0] && x / 256 == LittleEndian(s[1..]);
    }
  }
}
