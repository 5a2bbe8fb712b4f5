/** Fixed-width integers and their little-endian byte layout, as the Borsh
    binary format writes them. */
module Bytes {

  type byte = x: int | 0 <= x < 0x100
  type u32 = x: int | 0 <= x < 0x1_0000_0000
  type u64 = x: int | 0 <= x < 0x1_0000_0000_0000_0000
  type i64 = x: int | -0x8000_0000_0000_0000 <= x < 0x8000_0000_0000_0000

  const U64_MODULUS: int := 0x1_0000_0000_0000_0000
  const I64_MIN: int := -0x8000_0000_0000_0000

  predicate InI64(x: int) {
    I64_MIN <= x < -I64_MIN
  }

  /** Rust's `x as u64` on an `i64`: the same 64 bits read as unsigned. */
  function AsU64(x: i64): (r: u64)
    ensures x >= 0 ==> r == x
    ensures x < 0 ==> r == x + U64_MODULUS
  {
    x % U64_MODULUS
  }

  function Pow256(n: nat): (p: nat)
    ensures p >= 1
  {
    if n == 0 then 1 else 256 * Pow256(n - 1)
  }

  lemma Pow256Eight()
    ensures Pow256(8) == U64_MODULUS
  {
    calc {
      Pow256(8);
      256 * Pow256(7);
      256 * 256 * Pow256(6);
      256 * 256 * 256 * 256 * Pow256(4);
      256 * 256 * 256 * 256 * 256 * 256 * 256 * 256 * Pow256(0);
    }
  }

  /** The `n`-byte little-endian representation of `v`, least significant byte first. */
  function LittleEndian(v: nat, n: nat): (bs: seq<byte>)
    requires v < Pow256(n)
    ensures |bs| == n
  {
    if n == 0 then [] else [v % 256] + LittleEndian(v / 256, n - 1)
  }

  /** The number a little-endian byte string denotes; it fits in `|bs|` bytes. */
  function FromLittleEndian(bs: seq<byte>): (v: nat)
    ensures v < Pow256(|bs|)
  {
    if |bs| == 0 then 0 else bs[0] + 256 * FromLittleEndian(bs[1..])
  }

  lemma {:induction false} FromLittleEndianOfLittleEndian(v: nat, n: nat)
    requires v < Pow256(n)
    ensures FromLittleEndian(LittleEndian(v, n)) == v
  {
    if n > 0 {
      var bs := LittleEndian(v, n);
      FromLittleEndianOfLittleEndian(v / 256, n - 1);
      assert bs[1..] == LittleEndian(v / 256, n - 1);
    }
  }

  lemma {:induction false} LittleEndianOfFromLittleEndian(bs: seq<byte>)
    ensures LittleEndian(FromLittleEndian(bs), |bs|) == bs
  {
    if |bs| > 0 {
      var v := FromLittleEndian(bs);
      LittleEndianOfFromLittleEndian(bs[1..]);
      assert v % 256 == bs[0] && v / 256 == FromLittleEndian(bs[1..]);
    }
  }

  /** Borsh `i64`: eight little-endian bytes of the two's-complement value. */
  function EncodeI64(v: i64): (bs: seq<byte>)
    ensures |bs| == 8
  {
    Pow256Eight();
    LittleEndian(AsU64(v), 8)
  }

  function DecodeI64(bs: seq<byte>): (v: i64)
    requires |bs| == 8
  {
    var u := FromLittleEndian(bs);
    Pow256Eight();
    if u < -I64_MIN then u else u - U64_MODULUS
  }

  /** Every `i64`, negative ones included, survives the byte layout. */
  lemma DecodeEncodeI64(v: i64)
    ensures DecodeI64(EncodeI64(v)) == v
  {
    Pow256Eight();
    FromLittleEndianOfLittleEndian(AsU64(v), 8);
  }

  /** Every 8-byte string is the layout of exactly one `i64`. */
  lemma EncodeDecodeI64(bs: seq<byte>)
    requires |bs| == 8
    ensures EncodeI64(DecodeI64(bs)) == bs
  {
    Pow256Eight();
    LittleEndianOfFromLittleEndian(bs);
  }
}
