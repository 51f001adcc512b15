/** C#'s 32-bit `int` operators on values in [-2^31, 2^31): wrapping `+`, `*` and `<<`,
    arithmetic `>>`, two's-complement `&` and `~`. */
module Int32 {

  import opened Numerics
  import opened Bytes
  import opened Bits

  /** The int32 congruent to `v` modulo 2^32: what an unchecked C# expression yields. */
  function Wrap32(v: int): (r: int)
    ensures IsInt32(r)
    ensures IsInt32(v) ==> r == v
  {
    var u := v % TWO_32;
    if u >= TWO_31 then u - TWO_32 else u
  }

  /** The wrapped value differs from `v` by a multiple of 2^32. */
  lemma Wrap32Congruent(v: int)
    ensures (Wrap32(v) - v) % TWO_32 == 0
  {
    var u := v % TWO_32;
    assert v == (v / TWO_32) * TWO_32 + u;
    if u >= TWO_31 {
      assert Wrap32(v) - v == (-(v / TWO_32) - 1) * TWO_32;
    } else {
      assert Wrap32(v) - v == (-(v / TWO_32)) * TWO_32;
    }
  }

  /** The 32 bits of `a` modulo 2^32. */
  function ToBv(a: int): bv32
  {
    if 0 <= a < TWO_32 then a as bv32 else (a % TWO_32) as bv32
  }

  /** The int32 whose two's-complement bits are `b`. */
  function FromBv(b: bv32): (r: int)
    ensures IsInt32(r)
  {
    var u := b as int;
    if u >= TWO_31 then u - TWO_32 else u
  }

  /** `a << n` on the bits of an int: C# uses the low five bits of the count and drops
      what leaves the word. */
  function Shl(a: bv32, n: bv32): bv32
  {
    a << (n & 31)
  }

  /** `a >> n` on the bits of an int: arithmetic, copies of the sign bit enter from the left. */
  function Sar(a: bv32, n: bv32): bv32
  {
    if a & 0x8000_0000 == 0 then a >> (n & 31) else !((!a) >> (n & 31))
  }
}
