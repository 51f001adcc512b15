/** The original Xbox swizzler (TextureUtils.MaskSet, SwizzleAxis and Swizzle):
    texel (x, y) of a linear image lives at the index whose bits interleave the
    bits of x and y, Morton (Z-order) style. */
module XboxSwizzle {

  import opened Wrappers
  import opened Numerics
  import opened Bytes
  import opened Bits

  /** The number of doublings of 1 that stay below `n`: the least `L` with `2^L >= n`. */
  function CeilLog2(n: int): nat
    decreases n
  {
    if n <= 1 then 0 else 1 + CeilLog2((n + 1) / 2)
  }

  lemma {:induction false} CeilLog2Spec(n: int, j: nat)
    ensures Pow2(j) < n <==> j < CeilLog2(n)
    decreases j
  {
    if j > 0 && n > 1 {
      CeilLog2Spec((n + 1) / 2, j - 1);
    } else if j > 0 {
      Pow2Monotone(1, j);
    }
  }

  /** The mask bits handed out by the first rounds of the MaskSet loop; `next` is
      the exponent of `index`. */
  datatype MaskState = MaskState(x: nat, y: nat, z: nat, next: nat)

  /** One round of the MaskSet loop: the next free index bit goes to x when `gx`
      (`2^r < w`), the one after it to y when `gy` (`2^r < h`), then one to z when `gz`. */
  function Round(m: MaskState, gx: bool, gy: bool, gz: bool): MaskState
  {
    var k1 := if gx then m.next + 1 else m.next;
    var k2 := if gy then k1 + 1 else k1;
    var k3 := if gz then k2 + 1 else k2;
    MaskState(if gx then m.x + Pow2(m.next) else m.x,
              if gy then m.y + Pow2(k1) else m.y,
              if gz then m.z + Pow2(k2) else m.z,
              k3)
  }

  /** The masks after `j` rounds of the MaskSet loop over a w × h × d volume. */
  function MaskRounds(w: int, h: int, d: int, j: nat): MaskState
  {
    if j == 0 then MaskState(0, 0, 0, 0)
    else
      var r := Pow2(j - 1);
      Round(MaskRounds(w, h, d, j - 1), r < w, r < h, r < d)
  }

  /** How many rounds the MaskSet loop runs: until `2^r` reaches all of w, h and d. */
  function Rounds(w: int, h: int, d: int): nat
  {
    Max(Max(CeilLog2(w), CeilLog2(h)), CeilLog2(d))
  }

  /** The masks MaskSet(w, h, d) computes. */
  function Masks(w: int, h: int, d: int): MaskState
  {
    MaskRounds(w, h, d, Rounds(w, h, d))
  }

  /** The index bits used: one per doubling for each of w, h and d. */
  function MaskBits(w: int, h: int, d: int): nat
  {
    CeilLog2(w) + CeilLog2(h) + CeilLog2(d)
  }

  /** Three masks that share out the bits below `k`, each bit to exactly one of them. */
  ghost predicate Partition(a: nat, b: nat, c: nat, k: nat)
  {
    && (forall q: nat :: (Bit(a, q) || Bit(b, q) || Bit(c, q)) <==> q < k)
    && (forall q: nat :: !(Bit(a, q) && Bit(b, q)) && !(Bit(a, q) && Bit(c, q)) && !(Bit(b, q) && Bit(c, q)))
  }

  /** Setting a bit above all the bits of `a` is adding it. */
  lemma {:induction false} OrFresh(a: nat, k: nat)
    requires a < Pow2(k)
    ensures Or(a, Pow2(k)) == a + Pow2(k)
  {
    if k > 0 {
      OrFresh(a / 2, k - 1);
    }
  }

  /** The bits of `a + 2^k` for an `a` below `2^k`. */
  lemma AddFresh(a: nat, k: nat)
    requires forall q: nat :: Bit(a, q) ==> q < k
    ensures a < Pow2(k)
    ensures forall q: nat :: Bit(a + Pow2(k), q) <==> Bit(a, q) || q == k
    ensures Rank(a + Pow2(k), k + 1) == Rank(a, k) + 1
  {
    BelowPow2(a, k);
    OrFresh(a, k);
    var a' := a + Pow2(k);
    forall q: nat
      ensures Bit(a', q) <==> Bit(a, q) || q == k
    {
      BitOr(a, Pow2(k), q);
      BitPow2(k, q);
    }
    RankAgrees(a, a', k);
    RankStep(a', k);
  }

  /** The bits of a mask that may gain bit `k`. */
  lemma GrowOne(a: nat, a': nat, k: nat, grow: bool)
    requires forall q: nat :: Bit(a, q) ==> q < k
    requires a' == if grow then a + Pow2(k) else a
    ensures forall q: nat :: Bit(a', q) <==> Bit(a, q) || (grow && q == k)
    ensures Rank(a', k + 1) == Rank(a, k) + (if grow then 1 else 0)
  {
    if grow {
      AddFresh(a, k);
      forall q: nat
        ensures Bit(a', q) <==> Bit(a, q) || q == k
      {
        assert a' == a + Pow2(k);
      }
    } else {
      RankStep(a, k);
    }
  }

  /** A mask with no bit at `k` or above counts the same up to `k + 1`. */
  lemma RankUnchanged(a: nat, k: nat)
    requires forall q: nat :: Bit(a, q) ==> q < k
    ensures Rank(a, k + 1) == Rank(a, k)
  {
    RankStep(a, k);
  }

  /** Handing out the round's bits keeps the masks a partition of the bits
      below `next`, and each mask that grew counts one bit more. */
  lemma RoundShape(m: MaskState, gx: bool, gy: bool, gz: bool)
    requires Partition(m.x, m.y, m.z, m.next)
    ensures var m' := Round(m, gx, gy, gz);
            && m'.next == m.next + (if gx then 1 else 0) + (if gy then 1 else 0) + (if gz then 1 else 0)
            && Partition(m'.x, m'.y, m'.z, m'.next)
            && Rank(m'.x, m'.next) == Rank(m.x, m.next) + (if gx then 1 else 0)
            && Rank(m'.y, m'.next) == Rank(m.y, m.next) + (if gy then 1 else 0)
            && Rank(m'.z, m'.next) == Rank(m.z, m.next) + (if gz then 1 else 0)
  {
    var k1 := if gx then m.next + 1 else m.next;
    var k2 := if gy then k1 + 1 else k1;
    var k3 := if gz then k2 + 1 else k2;
    var x := if gx then m.x + Pow2(m.next) else m.x;
    var y := if gy then m.y + Pow2(k1) else m.y;
    var z := if gz then m.z + Pow2(k2) else m.z;
    assert Round(m, gx, gy, gz) == MaskState(x, y, z, k3);
    GrowPartition(m.x, m.y, m.z, m.next, x, y, z, k1, k2, k3, gx, gy, gz);
    GrowRank(m.x, x, m.next, m.next, k1, k3, gx);
    GrowRank(m.y, y, m.next, k1, k2, k3, gy);
    GrowRank(m.z, z, m.next, k2, k3, k3, gz);
  }

  /** A mask whose bits lie below `k` that gains bit `j` or nothing, counted up to `n`. */
  lemma GrowRank(a: nat, a': nat, k: nat, j: nat, j1: nat, n: nat, grow: bool)
    requires forall q: nat :: Bit(a, q) ==> q < k
    requires k <= j && j1 == (if grow then j + 1 else j) && j1 <= n
    requires a' == if grow then a + Pow2(j) else a
    ensures forall q: nat :: Bit(a', q) ==> q < j1
    ensures Rank(a', n) == Rank(a, k) + (if grow then 1 else 0)
  {
    assert forall q: nat :: Bit(a, q) ==> q < j;
    RankPastTop(a, k, j);
    GrowOne(a, a', j, grow);
    if grow {
      RankPastTop(a', j + 1, n);
    } else {
      RankPastTop(a', j, n);
      RankPastTop(a, j, j + 1);
    }
  }

  /** Three masks partitioning the bits below `k` that each gain the next bit or nothing. */
  lemma GrowPartition(a: nat, b: nat, c: nat, k: nat, a': nat, b': nat, c': nat, k1: nat, k2: nat, k3: nat,
                      ga: bool, gb: bool, gc: bool)
    requires Partition(a, b, c, k)
    requires k1 == (if ga then k + 1 else k) && k2 == (if gb then k1 + 1 else k1) && k3 == (if gc then k2 + 1 else k2)
    requires a' == (if ga then a + Pow2(k) else a) && b' == (if gb then b + Pow2(k1) else b)
             && c' == (if gc then c + Pow2(k2) else c)
    ensures Partition(a', b', c', k3)
  {
    GrowOne(a, a', k, ga);
    GrowOne(b, b', k1, gb);
    GrowOne(c, c', k2, gc);
  }

  /** When every bit of `m` lies below `k`, counting further finds nothing new. */
  lemma {:induction false} RankPastTop(m: nat, k: nat, n: nat)
    requires k <= n && forall q: nat :: Bit(m, q) ==> q < k
    ensures Rank(m, n) == Rank(m, k)
    decreases n - k
  {
    if k < n {
      RankPastTop(m, k, n - 1);
      RankStep(m, n - 1);
    }
  }

  /** After `j` rounds the masks share out exactly the first `next` index bits,
      and each axis holds one bit per round in which it was still growing. */
  lemma {:induction false} MaskRoundsShape(w: int, h: int, d: int, j: nat)
    ensures var m := MaskRounds(w, h, d, j);
            && m.next == Min(j, CeilLog2(w)) + Min(j, CeilLog2(h)) + Min(j, CeilLog2(d))
            && Partition(m.x, m.y, m.z, m.next)
            && Rank(m.x, m.next) == Min(j, CeilLog2(w))
            && Rank(m.y, m.next) == Min(j, CeilLog2(h))
            && Rank(m.z, m.next) == Min(j, CeilLog2(d))
  {
    if j == 0 {
      forall q: nat ensures !Bit(0, q) { BitOfZero(q); }
    } else {
      MaskRoundsShape(w, h, d, j - 1);
      var prev := MaskRounds(w, h, d, j - 1);
      var r := Pow2(j - 1);
      var gx, gy, gz := r < w, r < h, r < d;
      assert MaskRounds(w, h, d, j) == Round(prev, gx, gy, gz);
      MinStep(w, j);
      MinStep(h, j);
      MinStep(d, j);
      RoundShape(prev, gx, gy, gz);
    }
  }

  function Min(a: int, b: int): int { if a <= b then a else b }

  /** Round `j` adds a bit for an axis exactly when `2^(j-1)` is still below its size. */
  lemma MinStep(n: int, j: nat)
    requires j > 0
    ensures Min(j, CeilLog2(n)) == Min(j - 1, CeilLog2(n)) + (if Pow2(j - 1) < n then 1 else 0)
  {
    CeilLog2Spec(n, j - 1);
  }

  /** MaskSet gives every index bit below MaskBits to exactly one axis, so the three
      masks are pairwise disjoint; the x mask holds CeilLog2(w) bits, y CeilLog2(h)
      and z CeilLog2(d). */
  lemma MasksPartition(w: int, h: int, d: int)
    ensures var m := Masks(w, h, d);
            && m.next == MaskBits(w, h, d)
            && Partition(m.x, m.y, m.z, MaskBits(w, h, d))
            && And(m.x, m.y) == 0 && And(m.x, m.z) == 0 && And(m.y, m.z) == 0
            && Or(Or(m.x, m.y), m.z) == Pow2(MaskBits(w, h, d)) - 1
            && Rank(m.x, m.next) == CeilLog2(w)
            && Rank(m.y, m.next) == CeilLog2(h)
            && Rank(m.z, m.next) == CeilLog2(d)
  {
    MaskRoundsShape(w, h, d, Rounds(w, h, d));
    var m := Masks(w, h, d);
    DisjointAnd(m.x, m.y);
    DisjointAnd(m.x, m.z);
    DisjointAnd(m.y, m.z);
    UnionOr(m.x, m.y, m.z, m.next);
  }

  /** Masks with no common bit have an empty `&`. */
  lemma DisjointAnd(a: nat, b: nat)
    requires forall q: nat :: !(Bit(a, q) && Bit(b, q))
    ensures And(a, b) == 0
  {
    forall q: nat
      ensures Bit(And(a, b), q) == Bit(0, q)
    {
      BitAnd(a, b, q);
      BitOfZero(q);
    }
    BitsDetermine(And(a, b), 0);
  }

  /** Masks whose bits together are those below `k` have `2^k - 1` as their `|`. */
  lemma UnionOr(a: nat, b: nat, c: nat, k: nat)
    requires forall q: nat :: (Bit(a, q) || Bit(b, q) || Bit(c, q)) <==> q < k
    ensures Or(Or(a, b), c) == Pow2(k) - 1
  {
    forall q: nat
      ensures Bit(Or(Or(a, b), c), q) == Bit(Pow2(k) - 1, q)
    {
      BitOr(Or(a, b), c, q);
      BitOr(a, b, q);
      AllOnes(k, q);
    }
    BitsDetermine(Or(Or(a, b), c), Pow2(k) - 1);
  }

  /** `2^k - 1` has exactly the bits below `k`. */
  lemma {:induction false} AllOnes(k: nat, q: nat)
    ensures Bit(Pow2(k) - 1, q) <==> q < k
  {
    if k == 0 {
      BitOfZero(q);
    } else if q > 0 {
      assert (Pow2(k) - 1) / 2 == Pow2(k - 1) - 1;
      AllOnes(k - 1, q - 1);
    }
  }

  /** `a | 2^k` for an `a` below `2^k0`, `k0 <= k`. */
  lemma OrFreshAbove(a: nat, k0: nat, k: nat)
    requires a < Pow2(k0) && k0 <= k
    ensures Or(a, Pow2(k)) == a + Pow2(k)
  {
    Pow2Monotone(k0, k);
    OrFresh(a, k);
  }

  lemma MasksBelow(m: MaskState)
    requires Partition(m.x, m.y, m.z, m.next)
    ensures m.x < Pow2(m.next) && m.y < Pow2(m.next) && m.z < Pow2(m.next)
  {
    BelowPow2(m.x, m.next);
    BelowPow2(m.y, m.next);
    BelowPow2(m.z, m.next);
  }

  /** One `if (bit < w) { x |= index; index <<= 1; }` step of the MaskSet loop,
      `index` being the fresh bit `2^k` above every bit of `mask`. */
  method Grow(mask: int, index: int, grow: bool, ghost k0: nat, ghost k: nat) returns (mask': int, index': int)
    requires 0 <= mask < Pow2(k0) && k0 <= k && index == Pow2(k)
    ensures mask' == (if grow then mask + Pow2(k) else mask)
    ensures index' == (if grow then Pow2(k + 1) else index)
  {
    mask', index' := mask, index;
    if grow {
      OrFreshAbove(mask, k0, k);
      mask' := Or(mask, index);
      index' := index * 2;
    }
  }

  /** The body of the MaskSet loop for one value of `bit`. */
  method GrowRound(x: int, y: int, z: int, index: int, gx: bool, gy: bool, gz: bool, ghost k: nat)
      returns (x': int, y': int, z': int, index': int)
    requires x >= 0 && y >= 0 && z >= 0 && Partition(x, y, z, k) && index == Pow2(k)
    ensures x' >= 0 && y' >= 0 && z' >= 0
    ensures MaskState(x', y', z', Round(MaskState(x, y, z, k), gx, gy, gz).next)
            == Round(MaskState(x, y, z, k), gx, gy, gz)
    ensures index' == Pow2(Round(MaskState(x, y, z, k), gx, gy, gz).next)
  {
    MasksBelow(MaskState(x, y, z, k));
    var k1 := if gx then k + 1 else k;
    var k2 := if gy then k1 + 1 else k1;
    x', index' := Grow(x, index, gx, k, k);
    y', index' := Grow(y, index', gy, k, k1);
    z', index' := Grow(z, index', gz, k, k2);
  }

  /** `private class MaskSet`: the x, y and z masks of a w × h × d volume. */
  class MaskSet {
    const x: int
    const y: int
    const z: int

    /** The masks fit in the 30 bits SwizzleAxis walks. */
    predicate Valid()
    {
      0 <= x < TWO_30 && 0 <= y < TWO_30 && 0 <= z < TWO_30
    }

    constructor (w: int, h: int, d: int)
      requires MaskBits(w, h, d) <= 30
      ensures x == Masks(w, h, d).x && y == Masks(w, h, d).y && z == Masks(w, h, d).z
      ensures Valid()
    {
      var bit, index := 1, 1;
      var mx, my, mz := 0, 0, 0;
      ghost var j, k := 0, 0;
      ghost var n := Rounds(w, h, d);
      while bit < w || bit < h || bit < d
        invariant j <= n && bit == Pow2(j) && index == Pow2(k)
        invariant mx >= 0 && my >= 0 && mz >= 0
        invariant MaskRounds(w, h, d, j) == MaskState(mx, my, mz, k)
        decreases n - j
      {
        assert j < n by {
          CeilLog2Spec(w, j);
          CeilLog2Spec(h, j);
          CeilLog2Spec(d, j);
        }
        assert Partition(mx, my, mz, k) by {
          MaskRoundsShape(w, h, d, j);
        }
        ghost var m0 := MaskState(mx, my, mz, k);
        mx, my, mz, index := GrowRound(mx, my, mz, index, bit < w, bit < h, bit < d, k);
        k := Round(m0, bit < w, bit < h, bit < d).next;
        bit := bit * 2;
        j := j + 1;
      }
      assert j == n by {
        CeilLog2Spec(w, j);
        CeilLog2Spec(h, j);
        CeilLog2Spec(d, j);
      }
      assert mx < Pow2(k) && my < Pow2(k) && mz < Pow2(k) && k == MaskBits(w, h, d) by {
        MasksPartition(w, h, d);
        MasksBelow(Masks(w, h, d));
      }
      Pow2Value32();
      Pow2Monotone(k, 30);
      x, y, z := mx, my, mz;
    }
  }

  /** `v` holds the bits of `v0` moved up by `shift` places (as a 32-bit pattern). */
  ghost predicate Shifted(v: nat, v0: nat, shift: nat)
  {
    forall q: nat :: q < 32 ==> (Bit(v, q) <==> q >= shift && Bit(v0, q - shift))
  }

  /** `result` is the deposit of `v0` into the bits of `mask` below `p`. */
  ghost predicate DepositedBelow(result: nat, v0: nat, mask: nat, p: nat)
  {
    forall q: nat :: Bit(result, q) <==> q < p && Bit(mask, q) && Bit(v0, Rank(mask, q))
  }

  /** A set mask bit takes the current bit of the shifted value. */
  lemma TakeStep(result: nat, v: nat, v0: nat, mask: nat, p: nat, shift: nat)
    requires p < 32 && Bit(mask, p) && shift + Rank(mask, p) == p
    requires Shifted(v, v0, shift) && DepositedBelow(result, v0, mask, p)
    ensures DepositedBelow(Or(result, And(v, Pow2(p))), v0, mask, p + 1)
    ensures shift + Rank(mask, p + 1) == p + 1
  {
    RankStep(mask, p);
    AndPow2(v, p);
    forall q: nat
      ensures Bit(Or(result, And(v, Pow2(p))), q) <==> q < p + 1 && Bit(mask, q) && Bit(v0, Rank(mask, q))
    {
      BitOr(result, And(v, Pow2(p)), q);
      BitPow2(p, q);
      BitOfZero(q);
    }
  }

  /** A clear mask bit shifts the value up by one. */
  lemma SkipStep(result: nat, v: nat, v0: nat, mask: nat, p: nat, shift: nat)
    requires !Bit(mask, p) && shift + Rank(mask, p) == p
    requires Shifted(v, v0, shift) && DepositedBelow(result, v0, mask, p)
    ensures Shifted((v * 2) % TWO_32, v0, shift + 1) && DepositedBelow(result, v0, mask, p + 1)
    ensures shift + 1 + Rank(mask, p + 1) == p + 1
  {
    RankStep(mask, p);
    forall q: nat | q < 32
      ensures Bit((v * 2) % TWO_32, q) <==> q >= shift + 1 && Bit(v0, q - (shift + 1))
    {
      ShiftLeft32(v, q);
    }
  }

  /** SwizzleAxis(val, mask): walk the bits of `mask` from the bottom; a set bit
      takes the current bit of `val`, a clear one shifts `val` up by one.  The
      result is the parallel bit deposit of `val` (as its 32-bit pattern) into `mask`. */
  method SwizzleAxis(value: int, mask: int) returns (result: int)
    requires 0 <= mask < TWO_30
    ensures result == Deposit(value % TWO_32, mask)
  {
    Pow2Value32();
    var v := value % TWO_32;
    ghost var v0: nat := v;
    var bit := 1;
    result := 0;
    ghost var p: nat, shift: nat := 0, 0;
    forall q: nat ensures !Bit(0, q) { BitOfZero(q); }
    while bit <= mask
      invariant p <= 30 && bit == Pow2(p) && 0 <= v < TWO_32 && result >= 0
      invariant shift + Rank(mask, p) == p
      invariant Shifted(v, v0, shift) && DepositedBelow(result, v0, mask, p)
      decreases 30 - p
    {
      assert p < 30;
      AndPow2(mask, p);
      var tmp := And(mask, bit);
      if tmp != 0 {
        TakeStep(result, v, v0, mask, p, shift);
        result := Or(result, And(v, bit));
      } else {
        SkipStep(result, v, v0, mask, p, shift);
        v := (v * 2) % TWO_32;
        shift := shift + 1;
      }
      bit := bit * 2;
      p := p + 1;
    }
    forall q: nat
      ensures Bit(result, q) == Bit(Deposit(v0, mask), q)
    {
      DepositBits(v0, mask, q);
      if q >= p {
        BitAbove(mask, p, q);
      }
    }
    BitsDetermine(result, Deposit(v0, mask));
  }

  /** `Swizzle(x, y, z, masks)`: the swizzled index of texel (x, y, z), the masks'
      deposits of the three coordinates or-ed together; `z == -1` leaves z out. */
  function Interleave(x: int, y: int, z: int, mx: nat, my: nat, mz: nat): nat
  {
    Or(Or(Deposit(x % TWO_32, mx), Deposit(y % TWO_32, my)),
       if z == -1 then 0 else Deposit(z % TWO_32, mz))
  }

  /** Bit `q` of the swizzled index comes from the one coordinate whose mask owns `q`. */
  lemma InterleaveBits(x: int, y: int, z: int, mx: nat, my: nat, mz: nat, q: nat)
    ensures Bit(Interleave(x, y, z, mx, my, mz), q) <==>
            || (Bit(mx, q) && Bit(x % TWO_32, Rank(mx, q)))
            || (Bit(my, q) && Bit(y % TWO_32, Rank(my, q)))
            || (z != -1 && Bit(mz, q) && Bit(z % TWO_32, Rank(mz, q)))
  {
    var dx, dy := Deposit(x % TWO_32, mx), Deposit(y % TWO_32, my);
    var dz := if z == -1 then 0 else Deposit(z % TWO_32, mz);
    BitOr(Or(dx, dy), dz, q);
    BitOr(dx, dy, q);
    DepositBits(x % TWO_32, mx, q);
    DepositBits(y % TWO_32, my, q);
    if z == -1 {
      BitOfZero(q);
    } else {
      DepositBits(z % TWO_32, mz, q);
    }
  }

  /** `private static int Swizzle(int x, int y, int z, MaskSet masks)`. */
  method SwizzleIndex(x: int, y: int, z: int, masks: MaskSet) returns (r: int)
    requires masks.Valid()
    ensures r == Interleave(x, y, z, masks.x, masks.y, masks.z)
  {
    var sx := SwizzleAxis(x, masks.x);
    var sy := SwizzleAxis(y, masks.y);
    var sz := 0;
    if z != -1 {
      sz := SwizzleAxis(z, masks.z);
    }
    r := Or(Or(sx, sy), sz);
  }

  /** The byte offsets (a, b) of texel (x, y): the texel is copied from `data[b..]`
      to `output[a..]`.  Deswizzling reads the swizzled offset and writes the linear
      one; swizzling the other way round.  The z coordinate is always `depth`. */
  function Offsets(width: int, depth: int, bpp: int, m: MaskState, deswizzle: bool, x: int, y: int): (int, int)
  {
    var linear := ((y * width) + x) * bpp;
    var swizzled := Interleave(x, y, depth, m.x, m.y, m.z) * bpp;
    if deswizzle then (linear, swizzled) else (swizzled, linear)
  }

  /** One texel: `null` when `a` or `b` is past the end, otherwise the `bpp`-byte copy,
      which throws when any byte of it falls outside either array. */
  function CopyTexel(output: seq<byte>, data: seq<byte>, a: int, b: int, bpp: int): (r: Result<Option<seq<byte>>>)
    ensures r.Ok? && r.value.Some? ==> |r.value.value| == |output|
  {
    if !(a < |output| && b < |data|) then Ok(None)
    else if bpp <= 0 then Ok(Some(output))
    else if a < 0 || b < 0 || a + bpp > |output| || b + bpp > |data| then Err(IndexOutOfRange)
    else Ok(Some(Splice(output, a, data[b..b + bpp])))
  }

  /** Texels 0..n-1 of row `y`, in order, applied to `output`; the first null or
      exception ends the run. */
  function RowTexels(data: seq<byte>, width: int, depth: int, bpp: int, m: MaskState, deswizzle: bool,
                     y: int, n: nat, output: seq<byte>): (r: Result<Option<seq<byte>>>)
    ensures r.Ok? && r.value.Some? ==> |r.value.value| == |output|
  {
    if n == 0 then Ok(Some(output))
    else match RowTexels(data, width, depth, bpp, m, deswizzle, y, n - 1, output)
      case Ok(Some(out)) =>
        var (a, b) := Offsets(width, depth, bpp, m, deswizzle, n - 1, y);
        CopyTexel(out, data, a, b, bpp)
      case stop => stop
  }

  /** Rows 0..n-1, in order, applied to `output`. */
  function GridRows(data: seq<byte>, width: int, depth: int, bpp: int, m: MaskState, deswizzle: bool,
                    n: nat, output: seq<byte>): (r: Result<Option<seq<byte>>>)
    ensures r.Ok? && r.value.Some? ==> |r.value.value| == |output|
  {
    if n == 0 then Ok(Some(output))
    else match GridRows(data, width, depth, bpp, m, deswizzle, n - 1, output)
      case Ok(Some(out)) => RowTexels(data, width, depth, bpp, m, deswizzle, n - 1, Max(width, 0), out)
      case stop => stop
  }

  /** What `Swizzle(data, width, height, depth, bpp, deswizzle)` returns: `Ok(Some(out))`
      for an array, `Ok(None)` for null, `Err` for an exception. */
  function SwizzleSpec(data: seq<byte>, width: int, height: int, depth: int, bpp: int, deswizzle: bool): Result<Option<seq<byte>>>
  {
    GridRows(data, width, depth, bpp, Masks(width, height, depth), deswizzle, Max(height * depth, 0), Zeros(|data|))
  }

  /** The `bpp`-byte copy of one texel, `for (i = 0; i < bpp; i++) output[a + i] = data[b + i]`. */
  method CopyTexelInto(output: array<byte>, data: seq<byte>, a: int, b: int, bpp: int) returns (r: Result<Option<seq<byte>>>)
    requires output.Length == |data| && a < output.Length && b < |data|
    modifies output
    ensures r == CopyTexel(old(output[..]), data, a, b, bpp)
    ensures r.Ok? ==> r.value.Some? && output[..] == r.value.value
  {
    ghost var before := output[..];
    if bpp > 0 && (a + bpp > output.Length || b + bpp > |data| || a < 0 || b < 0) {
      // The first byte out of range throws; the bytes written before it do not matter.
      var i := 0;
      while i < bpp && 0 <= a + i < output.Length && 0 <= b + i < |data|
        invariant 0 <= i <= bpp
        decreases bpp - i
      {
        output[a + i] := data[b + i];
        i := i + 1;
      }
      return Err(IndexOutOfRange);
    }
    var i := 0;
    while i < bpp
      invariant 0 <= i <= Max(bpp, 0)
      invariant forall k :: 0 <= k < output.Length ==>
                  output[k] == if a <= k < a + i then data[b + k - a] else before[k]
    {
      output[a + i] := data[b + i];
      i := i + 1;
    }
    if bpp > 0 {
      assert output[..] == Splice(before, a, data[b..b + bpp]);
    } else {
      assert output[..] == before;
    }
    r := Ok(Some(output[..]));
  }

  /** One row of the texel loop. */
  method SwizzleRow(data: seq<byte>, width: int, depth: int, bpp: int, masks: MaskSet, ghost m: MaskState,
                    deswizzle: bool, y: int, output: array<byte>) returns (r: Result<Option<seq<byte>>>)
    requires masks.Valid() && masks.x == m.x && masks.y == m.y && masks.z == m.z
    requires output.Length == |data|
    modifies output
    ensures r == RowTexels(data, width, depth, bpp, m, deswizzle, y, Max(width, 0), old(output[..]))
    ensures r.Ok? && r.value.Some? ==> output[..] == r.value.value
  {
    ghost var start := output[..];
    ghost var n := Max(width, 0);
    var x := 0;
    while x < width
      invariant 0 <= x <= n
      invariant RowTexels(data, width, depth, bpp, m, deswizzle, y, x, start) == Ok(Some(output[..]))
    {
      var a, b := TexelOffsets(width, depth, bpp, masks, m, deswizzle, x, y);
      if !(a < output.Length && b < |data|) {
        RowStep(data, width, depth, bpp, m, deswizzle, y, x, start, output[..]);
        assert RowTexels(data, width, depth, bpp, m, deswizzle, y, x + 1, start) == Ok(None);
        RowStops(data, width, depth, bpp, m, deswizzle, y, x + 1, n, start);
        return Ok(None);
      }
      ghost var before := output[..];
      r := CopyTexelInto(output, data, a, b, bpp);
      RowStep(data, width, depth, bpp, m, deswizzle, y, x, start, before);
      assert RowTexels(data, width, depth, bpp, m, deswizzle, y, x + 1, start) == r;
      if r.Err? {
        RowStops(data, width, depth, bpp, m, deswizzle, y, x + 1, n, start);
        return r;
      }
      x := x + 1;
    }
    assert x == n;
    r := Ok(Some(output[..]));
  }

  /** The offsets of texel (x, y) as the loop body computes them. */
  method TexelOffsets(width: int, depth: int, bpp: int, masks: MaskSet, ghost m: MaskState,
                      deswizzle: bool, x: int, y: int) returns (a: int, b: int)
    requires masks.Valid() && masks.x == m.x && masks.y == m.y && masks.z == m.z
    ensures (a, b) == Offsets(width, depth, bpp, m, deswizzle, x, y)
  {
    var t := SwizzleIndex(x, y, depth, masks);
    if deswizzle {
      a := ((y * width) + x) * bpp;
      b := t * bpp;
    } else {
      b := ((y * width) + x) * bpp;
      a := t * bpp;
    }
  }

  /** Texel `x` of the row run is the copy at its offsets, applied to the run so far. */
  lemma RowStep(data: seq<byte>, width: int, depth: int, bpp: int, m: MaskState, deswizzle: bool,
                y: int, x: nat, output: seq<byte>, out: seq<byte>)
    requires RowTexels(data, width, depth, bpp, m, deswizzle, y, x, output) == Ok(Some(out))
    ensures var (a, b) := Offsets(width, depth, bpp, m, deswizzle, x, y);
            RowTexels(data, width, depth, bpp, m, deswizzle, y, x + 1, output) == CopyTexel(out, data, a, b, bpp)
  {
  }

  /** Row `y` of the grid run is the row run applied to the rows before it. */
  lemma GridStep(data: seq<byte>, width: int, depth: int, bpp: int, m: MaskState, deswizzle: bool,
                 y: nat, output: seq<byte>, out: seq<byte>)
    requires GridRows(data, width, depth, bpp, m, deswizzle, y, output) == Ok(Some(out))
    ensures GridRows(data, width, depth, bpp, m, deswizzle, y + 1, output)
            == RowTexels(data, width, depth, bpp, m, deswizzle, y, Max(width, 0), out)
  {
  }

  /** Once a row run stops, longer runs stop the same way. */
  lemma {:induction false} RowStops(data: seq<byte>, width: int, depth: int, bpp: int, m: MaskState, deswizzle: bool,
                                    y: int, n: nat, n': nat, output: seq<byte>)
    requires n <= n' && !(RowTexels(data, width, depth, bpp, m, deswizzle, y, n, output).Ok?
                          && RowTexels(data, width, depth, bpp, m, deswizzle, y, n, output).value.Some?)
    ensures RowTexels(data, width, depth, bpp, m, deswizzle, y, n', output)
            == RowTexels(data, width, depth, bpp, m, deswizzle, y, n, output)
    decreases n' - n
  {
    if n < n' {
      RowStops(data, width, depth, bpp, m, deswizzle, y, n, n' - 1, output);
    }
  }

  /** Once the grid run stops, longer runs stop the same way. */
  lemma {:induction false} GridStops(data: seq<byte>, width: int, depth: int, bpp: int, m: MaskState, deswizzle: bool,
                                     n: nat, n': nat, output: seq<byte>)
    requires n <= n' && !(GridRows(data, width, depth, bpp, m, deswizzle, n, output).Ok?
                          && GridRows(data, width, depth, bpp, m, deswizzle, n, output).value.Some?)
    ensures GridRows(data, width, depth, bpp, m, deswizzle, n', output)
            == GridRows(data, width, depth, bpp, m, deswizzle, n, output)
    decreases n' - n
  {
    if n < n' {
      GridStops(data, width, depth, bpp, m, deswizzle, n, n' - 1, output);
    }
  }

  /** `Swizzle(data, width, height, depth, bpp, deswizzle)`.  A null `data` is not
      modelled: sequences are never null. */
  method Swizzle(data: seq<byte>, width: int, height: int, depth: int, bpp: int, deswizzle: bool)
      returns (r: Result<Option<seq<byte>>>)
    requires MaskBits(width, height, depth) <= 30
    ensures r == SwizzleSpec(data, width, height, depth, bpp, deswizzle)
  {
    var output := new byte[|data|](_ => 0);
    var masks := new MaskSet(width, height, depth);
    ghost var m := Masks(width, height, depth);
    var n := height * depth;
    ghost var rows := Max(n, 0);
    assert SwizzleSpec(data, width, height, depth, bpp, deswizzle)
           == GridRows(data, width, depth, bpp, m, deswizzle, rows, Zeros(|data|));
    assert output[..] == Zeros(|data|);
    var y := 0;
    while y < n
      invariant 0 <= y <= rows
      invariant GridRows(data, width, depth, bpp, m, deswizzle, y, Zeros(|data|)) == Ok(Some(output[..]))
    {
      ghost var before := output[..];
      r := SwizzleRow(data, width, depth, bpp, masks, m, deswizzle, y, output);
      GridStep(data, width, depth, bpp, m, deswizzle, y, Zeros(|data|), before);
      if !(r.Ok? && r.value.Some?) {
        GridStops(data, width, depth, bpp, m, deswizzle, y + 1, rows, Zeros(|data|));
        return r;
      }
      y := y + 1;
    }
    assert y == rows;
    r := Ok(Some(output[..]));
  }

  /** `Swizzle(data, width, height, depth, bpp)`: deswizzles. */
  method Deswizzle(data: seq<byte>, width: int, height: int, depth: int, bpp: int)
      returns (r: Result<Option<seq<byte>>>)
    requires MaskBits(width, height, depth) <= 30
    ensures r == SwizzleSpec(data, width, height, depth, bpp, true)
  {
    r := Swizzle(data, width, height, depth, bpp, true);
  }
}
