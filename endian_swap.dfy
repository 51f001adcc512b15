/** The big-endian swap of GetDds: every `unitSize`-byte unit of the payload is
    reversed in place with Array.Reverse. */
module EndianSwap {

  import opened Bytes
  import Numerics

  /** The payload with each whole `u`-byte unit reversed; a trailing partial unit is kept. */
  function ChunkReverse(s: seq<byte>, u: nat): (r: seq<byte>)
    requires u >= 1
    ensures |r| == |s|
    decreases |s|
  {
    if |s| < u then s else Reverse(s[..u]) + ChunkReverse(s[u..], u)
  }

  /** Splitting at a unit boundary commutes with the swap. */
  lemma {:induction false} ChunkReverseAppend(x: seq<byte>, y: seq<byte>, u: nat, c: nat)
    requires u >= 1 && |x| == c * u
    ensures ChunkReverse(x + y, u) == ChunkReverse(x, u) + ChunkReverse(y, u)
  {
    if c > 0 {
      assert (c - 1) * u == c * u - u;
      assert |x| >= u;
      assert (x + y)[..u] == x[..u];
      assert (x + y)[u..] == x[u..] + y;
      ChunkReverseAppend(x[u..], y, u, c - 1);
      assert ChunkReverse(x, u) == Reverse(x[..u]) + ChunkReverse(x[u..], u);
      assert ChunkReverse(x + y, u) == Reverse(x[..u]) + ChunkReverse(x[u..] + y, u);
    } else {
      assert x == [];
      assert x + y == y;
    }
  }

  lemma FirstUnitAt(s: seq<byte>, u: nat, t: nat)
    requires u >= 1 && u <= |s| && t < u
    ensures ChunkReverse(s, u)[t] == s[u - 1 - t]
  {
    assert ChunkReverse(s, u) == Reverse(s[..u]) + ChunkReverse(s[u..], u);
    ReverseAt(s[..u], t);
  }

  lemma LaterUnitAt(s: seq<byte>, u: nat, q: nat, t: nat)
    requires u >= 1 && q + u + u <= |s| && t < u
    requires ChunkReverse(s[u..], u)[q + t] == s[u..][q + u - 1 - t]
    ensures ChunkReverse(s, u)[u + q + t] == s[u + q + u - 1 - t]
  {
    assert ChunkReverse(s, u) == Reverse(s[..u]) + ChunkReverse(s[u..], u);
  }

  /** Byte `t` of the unit starting at `p == c * u` comes from byte `u - 1 - t` of the same unit. */
  lemma {:induction false} ChunkReverseAt(s: seq<byte>, u: nat, c: nat, p: nat, t: nat)
    requires u >= 1 && p == c * u && p + u <= |s| && t < u
    ensures ChunkReverse(s, u)[p + t] == s[p + u - 1 - t]
  {
    if c == 0 {
      FirstUnitAt(s, u, t);
    } else {
      var q := (c - 1) * u;
      assert p == q + u;
      ChunkReverseAt(s[u..], u, c - 1, q, t);
      LaterUnitAt(s, u, q, t);
    }
  }

  /** Bytes after the last whole unit are left as they are. */
  lemma {:induction false} ChunkReverseTail(s: seq<byte>, u: nat, k: nat)
    requires u >= 1 && (|s| / u) * u <= k < |s|
    ensures ChunkReverse(s, u)[k] == s[k]
  {
    if |s| >= u {
      assert |s| == (|s| - u) + u;
      assert |s[u..]| / u == |s| / u - 1 by {
        Numerics.DivUnique(|s| - u, u, |s| / u - 1);
      }
      assert (|s| / u - 1) * u == (|s| / u) * u - u;
      ChunkReverseTail(s[u..], u, k - u);
    }
  }

  /** Swapping twice restores the payload. */
  lemma {:induction false} ChunkReverseInvolution(s: seq<byte>, u: nat)
    requires u >= 1
    ensures ChunkReverse(ChunkReverse(s, u), u) == s
    decreases |s|
  {
    if |s| >= u {
      var r := ChunkReverse(s, u);
      assert r[..u] == Reverse(s[..u]);
      assert r[u..] == ChunkReverse(s[u..], u);
      ReverseReverse(s[..u]);
      ChunkReverseInvolution(s[u..], u);
      assert s == s[..u] + s[u..];
    }
  }

  /** Array.Reverse(a, lo, n). */
  method ReverseRange(a: array<byte>, lo: int, n: int)
    requires 0 <= lo && 0 <= n && lo + n <= a.Length
    modifies a
    ensures a[..] == old(a[..lo]) + Reverse(old(a[lo..lo + n])) + old(a[lo + n..])
  {
    var i, j := lo, lo + n - 1;
    while i < j
      invariant lo <= i && j < lo + n && i - lo == lo + n - 1 - j && (i <= j + 1)
      invariant forall k :: 0 <= k < lo || lo + n <= k < a.Length ==> a[k] == old(a[k])
      invariant forall k :: lo <= k < i || j < k < lo + n ==> a[k] == old(a[2 * lo + n - 1 - k])
      invariant forall k :: i <= k <= j ==> a[k] == old(a[k])
    {
      a[i], a[j] := a[j], a[i];
      i, j := i + 1, j - 1;
    }
    ReversedRange(a[..], old(a[..]), lo, n);
  }

  /** A sequence that mirrors `orig` on `[lo, lo + n)` and matches it elsewhere is
      `orig` with that range reversed. */
  lemma ReversedRange(t: seq<byte>, orig: seq<byte>, lo: int, n: int)
    requires 0 <= lo && 0 <= n && lo + n <= |orig| == |t|
    requires forall k :: 0 <= k < lo || lo + n <= k < |t| ==> t[k] == orig[k]
    requires forall k :: lo <= k < lo + n ==> t[k] == orig[2 * lo + n - 1 - k]
    ensures t == orig[..lo] + Reverse(orig[lo..lo + n]) + orig[lo + n..]
  {
    var mid := orig[lo..lo + n];
    var r := orig[..lo] + Reverse(mid) + orig[lo + n..];
    forall k | 0 <= k < |t|
      ensures t[k] == r[k]
    {
      if lo <= k < lo + n {
        ReverseAt(mid, k - lo);
      }
    }
  }

  /** Reversing the unit at `i` extends the swapped prefix by one unit. */
  lemma SwapStep(s: seq<byte>, i: int, u: nat, c: nat)
    requires u >= 1 && i == c * u && i + u <= |s|
    ensures ChunkReverse(s[..i], u) + Reverse(s[i..i + u]) + s[i + u..]
            == ChunkReverse(s[..i + u], u) + s[i + u..]
  {
    assert s[..i + u] == s[..i] + s[i..i + u];
    ChunkReverseAppend(s[..i], s[i..i + u], u, c);
    assert s[i..i + u][..u] == s[i..i + u];
    assert s[i..i + u][u..] == [];
  }

  /** Reversing the next unit in place of a partly swapped payload swaps one unit more. */
  lemma UnitStep(s: seq<byte>, before: seq<byte>, after: seq<byte>, i: int, u: nat, c: nat)
    requires u >= 1 && i == c * u && i + u <= |s|
    requires before == ChunkReverse(s[..i], u) + s[i..]
    requires after == before[..i] + Reverse(before[i..i + u]) + before[i + u..]
    ensures after == ChunkReverse(s[..i + u], u) + s[i + u..] && i + u == (c + 1) * u
  {
    var rest := s[i..];
    ReverseInside(ChunkReverse(s[..i], u), rest, before, after, u);
    SuffixParts(s, i, u);
    SwapStep(s, i, u, c);
    assert (c + 1) * u == c * u + u;
  }

  /** The head and the tail of a suffix are slices of the whole. */
  lemma SuffixParts<T>(s: seq<T>, i: int, u: nat)
    requires 0 <= i && i + u <= |s|
    ensures s[i..][..u] == s[i..i + u] && s[i..][u..] == s[i + u..]
  {
  }

  /** Reversing the `u` bytes right after a prefix `done` reverses the head of what follows it. */
  lemma ReverseInside(done: seq<byte>, rest: seq<byte>, before: seq<byte>, after: seq<byte>, u: nat)
    requires before == done + rest && u <= |rest|
    requires after == before[..|done|] + Reverse(before[|done|..|done| + u]) + before[|done| + u..]
    ensures after == done + Reverse(rest[..u]) + rest[u..]
  {
    var i := |done|;
    assert before[..i] == done;
    assert before[i..i + u] == rest[..u];
    assert before[i + u..] == rest[u..];
  }

  /** Once fewer than `u` bytes remain, the swapped prefix and the rest make up the whole swap. */
  lemma SwapFinish(s: seq<byte>, i: int, u: nat, c: nat)
    requires u >= 1 && i == c * u && i <= |s| < i + u
    ensures ChunkReverse(s[..i], u) + s[i..] == ChunkReverse(s, u)
    ensures |s| % u == |s| - i
  {
    Numerics.DivUnique(|s|, u, c);
    assert s == s[..i] + s[i..];
    ChunkReverseAppend(s[..i], s[i..], u, c);
  }

  /** The loop of GetDds that reverses every `unitSize`-byte unit in place
      (only entered when unitSize > 1).  It stops once fewer than two bytes are
      left; when two or more bytes of a partial unit remain, Array.Reverse
      throws, after every whole unit has been reversed: `ok` is false then. */
  method ReverseUnits(data: array<byte>, unitSize: int) returns (ok: bool)
    requires unitSize > 1
    modifies data
    ensures data[..] == ChunkReverse(old(data[..]), unitSize)
    ensures ok <==> data.Length % unitSize < 2
  {
    ghost var s := data[..];
    ghost var c: nat := 0;
    var i := 0;
    while i < data.Length - 1
      invariant i == c * unitSize && i <= data.Length
      invariant data[..] == ChunkReverse(s[..i], unitSize) + s[i..]
    {
      if i + unitSize > data.Length {
        SwapFinish(s, i, unitSize, c);
        return false;
      }
      ghost var before := data[..];
      ReverseRange(data, i, unitSize);
      UnitStep(s, before, data[..], i, unitSize, c);
      i := i + unitSize;
      c := c + 1;
    }
    SwapFinish(s, i, unitSize, c);
    ok := true;
  }
}
