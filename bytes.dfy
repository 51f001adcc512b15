/** Bytes and the fixed-width integer and string encodings the binary reader
    uses: little-endian by default, big-endian where a field overrides it. */
module Bytes {

  import opened Wrappers
  import opened Numerics

  type byte = b: int | 0 <= b < 256


  predicate IsInt32(v: int) { -TWO_31 <= v < TWO_31 }
  predicate IsInt16(v: int) { -0x8000 <= v < 0x8000 }

  /** `n` bytes starting at `off` lie inside `s`. */
  predicate InRange(s: seq<byte>, off: int, n: int) { 0 <= off && 0 <= n && off + n <= |s| }

  function Zeros(n: nat): (z: seq<byte>)
    ensures |z| == n && forall i :: 0 <= i < n ==> z[i] == 0
  {
    if n == 0 then [] else Zeros(n - 1) + [0]
  }

  function Reverse<T>(s: seq<T>): (r: seq<T>)
    ensures |r| == |s|
  {
    if s == [] then [] else Reverse(s[1..]) + [s[0]]
  }

  lemma {:induction false} ReverseAt<T>(s: seq<T>, k: int)
    requires 0 <= k < |s|
    ensures Reverse(s)[k] == s[|s| - 1 - k]
  {
    if k < |s| - 1 {
      ReverseAt(s[1..], k);
    }
  }

  /** Reversing twice gives the sequence back. */
  lemma ReverseReverse<T>(s: seq<T>)
    ensures Reverse(Reverse(s)) == s
  {
    forall k | 0 <= k < |s| ensures Reverse(Reverse(s))[k] == s[k] {
      ReverseAt(Reverse(s), k);
      ReverseAt(s, |s| - 1 - k);
    }
  }

  /** `s` with `piece` written over it from `off` on (a model of `Array.Copy` into `s`). */
  function Splice(s: seq<byte>, off: int, piece: seq<byte>): (r: seq<byte>)
    requires InRange(s, off, |piece|)
    ensures |r| == |s|
    ensures forall i :: 0 <= i < |s| ==> r[i] == if off <= i < off + |piece| then piece[i - off] else s[i]
  {
    s[..off] + piece + s[off + |piece|..]
  }

  /** Up to the end of the piece, a splice is the untouched prefix followed by the piece. */
  lemma SplicePrefix(s: seq<byte>, off: int, piece: seq<byte>)
    requires InRange(s, off, |piece|)
    ensures Splice(s, off, piece)[..off + |piece|] == s[..off] + piece
  {
    assert Splice(s, off, piece) == (s[..off] + piece) + s[off + |piece|..];
  }

  /** What `Array.Copy(src, srcIndex, dst, dstIndex, len)` leaves in `dst`: it throws
      ArgumentOutOfRangeException for a negative index or length and ArgumentException
      when either range runs past its array. */
  function ArrayCopy(src: seq<byte>, srcIndex: int, dst: seq<byte>, dstIndex: int, len: int): (r: Result<seq<byte>>)
    ensures r.Ok? <==> InRange(src, srcIndex, len) && InRange(dst, dstIndex, len)
    ensures r.Ok? ==> InRange(src, srcIndex, len) && InRange(dst, dstIndex, len)
                      && r.value == Splice(dst, dstIndex, src[srcIndex..srcIndex + len])
    ensures r.Err? ==> r.error == if srcIndex < 0 || dstIndex < 0 || len < 0 then ArgumentOutOfRange else ArgumentInvalid
  {
    if srcIndex < 0 || dstIndex < 0 || len < 0 then Err(ArgumentOutOfRange)
    else if srcIndex + len > |src| || dstIndex + len > |dst| then Err(ArgumentInvalid)
    else Ok(Splice(dst, dstIndex, src[srcIndex..srcIndex + len]))
  }

  /** Array.Copy(src, srcIndex, dst, dstIndex, len) for an in-range copy. */
  method CopyInto(src: seq<byte>, srcIndex: int, dst: array<byte>, dstIndex: int, len: int)
    requires InRange(src, srcIndex, len) && 0 <= dstIndex && dstIndex + len <= dst.Length
    modifies dst
    ensures dst[..] == Splice(old(dst[..]), dstIndex, src[srcIndex..srcIndex + len])
  {
    var k := 0;
    while k < len
      invariant 0 <= k <= len
      invariant forall i :: 0 <= i < dst.Length ==>
                  dst[i] == if dstIndex <= i < dstIndex + k then src[srcIndex + i - dstIndex] else old(dst[i])
    {
      dst[dstIndex + k] := src[srcIndex + k];
      k := k + 1;
    }
  }

  /** An Array.Copy to the end of what `dst` holds so far extends it by the copied bytes. */
  method AppendInto(src: seq<byte>, srcIndex: int, dst: array<byte>, dstIndex: int, len: int, ghost prefix: seq<byte>)
    requires InRange(src, srcIndex, len) && 0 <= dstIndex && dstIndex + len <= dst.Length
    requires dst[..dstIndex] == prefix
    modifies dst
    ensures dst[..dstIndex + len] == prefix + src[srcIndex..srcIndex + len]
  {
    ghost var before := dst[..];
    CopyInto(src, srcIndex, dst, dstIndex, len);
    SplicePrefix(before, dstIndex, src[srcIndex..srcIndex + len]);
    assert dst[..dstIndex + len] == dst[..][..dstIndex + len];
  }

  function Signed32(u: int): int { if u >= TWO_31 then u - TWO_32 else u }
  function Signed16(u: int): int { if u >= 0x8000 then u - 0x1_0000 else u }

  function UInt16LE(s: seq<byte>, off: int): int
    requires InRange(s, off, 2)
  {
    s[off] as int + 0x100 * s[off + 1] as int
  }

  function Int16LE(s: seq<byte>, off: int): int
    requires InRange(s, off, 2)
  {
    Signed16(UInt16LE(s, off))
  }

  function UInt32LE(s: seq<byte>, off: int): int
    requires InRange(s, off, 4)
  {
    s[off] as int + 0x100 * s[off + 1] as int + 0x1_0000 * s[off + 2] as int + 0x100_0000 * s[off + 3] as int
  }

  function Int32LE(s: seq<byte>, off: int): int
    requires InRange(s, off, 4)
  {
    Signed32(UInt32LE(s, off))
  }

  function Int32BE(s: seq<byte>, off: int): int
    requires InRange(s, off, 4)
  {
    Signed32(s[off + 3] as int + 0x100 * s[off + 2] as int + 0x1_0000 * s[off + 1] as int + 0x100_0000 * s[off] as int)
  }

  function Int16BE(s: seq<byte>, off: int): int
    requires InRange(s, off, 2)
  {
    Signed16(s[off + 1] as int + 0x100 * s[off] as int)
  }

  /** The little-endian bytes of a 16-bit value (signed or unsigned). */
  function Int16Bytes(v: int): seq<byte>
    requires -0x8000 <= v < 0x1_0000
  {
    var u := if v < 0 then v + 0x1_0000 else v;
    [u % 0x100, u / 0x100]
  }

  /** The little-endian bytes of an int32. */
  function Int32Bytes(v: int): seq<byte>
    requires IsInt32(v)
  {
    var u := if v < 0 then v + TWO_32 else v;
    [u % 0x100, (u / 0x100) % 0x100, (u / 0x1_0000) % 0x100, u / 0x100_0000]
  }

  lemma {:induction false} Int16RoundTrip(v: int)
    requires -0x8000 <= v < 0x1_0000
    ensures |Int16Bytes(v)| == 2
    ensures UInt16LE(Int16Bytes(v), 0) == if v < 0 then v + 0x1_0000 else v
    ensures IsInt16(v) ==> Int16LE(Int16Bytes(v), 0) == v
  {
    var u := if v < 0 then v + 0x1_0000 else v;
    assert u == u % 0x100 + 0x100 * (u / 0x100);
  }

  /** Encoding an int32 little-endian and reading it back gives the value. */
  lemma {:induction false} Int32RoundTrip(v: int)
    requires IsInt32(v)
    ensures |Int32Bytes(v)| == 4 && Int32LE(Int32Bytes(v), 0) == v
    ensures Int32BE(Reverse(Int32Bytes(v)), 0) == v
  {
    var u := if v < 0 then v + TWO_32 else v;
    var b := Int32Bytes(v);
    assert u == u % 0x100 + 0x100 * (u / 0x100);
    var u1 := u / 0x100;
    assert u1 == u1 % 0x100 + 0x100 * (u1 / 0x100);
    var u2 := u1 / 0x100;
    assert u2 == u / 0x1_0000;
    assert u2 == u2 % 0x100 + 0x100 * (u2 / 0x100);
    assert u2 / 0x100 == u / 0x100_0000;
    assert UInt32LE(b, 0) == u;
    var r := Reverse(b);
    ReverseAt(b, 0); ReverseAt(b, 1); ReverseAt(b, 2); ReverseAt(b, 3);
  }

  /** The bytes before the first NUL (all of `w` if it holds none). */
  function UntilNul(w: seq<byte>): (r: seq<byte>)
    ensures |r| <= |w| && r == w[..|r|] && 0 !in r
    ensures |r| < |w| ==> w[|r|] == 0
  {
    if w == [] || w[0] == 0 then [] else [w[0]] + UntilNul(w[1..])
  }

  /** A `[NullTerminated(Length = len)]` field: at most `len` bytes, cut at the first NUL. */
  function FixedString(s: seq<byte>, off: int, len: nat): seq<byte>
    requires InRange(s, off, len)
  {
    UntilNul(s[off..off + len])
  }

  /** The bytes of a NUL-free string padded with NULs to `len` bytes. */
  function FixedStringBytes(str: seq<byte>, len: nat): (b: seq<byte>)
    requires |str| <= len
    ensures |b| == len
  {
    str + Zeros(len - |str|)
  }

  lemma {:induction false} FixedStringRoundTrip(str: seq<byte>, len: nat)
    requires |str| <= len && 0 !in str
    ensures UntilNul(FixedStringBytes(str, len)) == str
  {
    if str != [] {
      assert FixedStringBytes(str, len)[1..] == FixedStringBytes(str[1..], len - 1);
      FixedStringRoundTrip(str[1..], len - 1);
    }
  }

  /** `ReadNullTerminatedString` from `off`: the bytes up to the next NUL, or
      `None` when the stream ends first or `off` is outside it. */
  function CString(s: seq<byte>, off: int): (r: Option<seq<byte>>)
    decreases |s| - off
  {
    if off < 0 || off >= |s| then None
    else if s[off] == 0 then Some([])
    else match CString(s, off + 1)
      case Some(t) => Some([s[off]] + t)
      case None => None
  }

  /** The string found is the run of non-NUL bytes from `off` up to a NUL; none is
      found exactly when no NUL follows `off`. */
  lemma {:induction false} CStringSpec(s: seq<byte>, off: int)
    decreases |s| - off
    ensures var r := CString(s, off);
            && (r.Some? ==> 0 <= off && off + |r.value| < |s| && r.value == s[off..off + |r.value|]
                            && s[off + |r.value|] == 0 && 0 !in r.value)
            && (r.None? ==> off < 0 || off >= |s| || 0 !in s[off..])
  {
    if 0 <= off < |s| && s[off] != 0 {
      CStringSpec(s, off + 1);
      assert s[off..] == [s[off]] + s[off + 1..];
    }
  }
}
