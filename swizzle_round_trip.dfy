/** What the original Xbox swizzler promises about whole images: which bytes land
    where, when it returns null, and that deswizzling undoes swizzling. */
module SwizzleRoundTrip {

  import opened Wrappers
  import opened Numerics
  import opened Bytes
  import opened Bits
  import opened XboxSwizzle
  import opened BlockCopies

  // ---------------------------------------------------------------------------
  // The swizzle loop as one flat run of (destination, source) placements.
  // ---------------------------------------------------------------------------

  /** The copies `ps`, in order, applied to `output`; the first null or exception ends the run. */
  function Copies(data: seq<byte>, ps: seq<(int, int)>, bpp: int, output: seq<byte>): (r: Result<Option<seq<byte>>>)
    ensures r.Ok? && r.value.Some? ==> |r.value.value| == |output|
  {
    if |ps| == 0 then Ok(Some(output))
    else match Copies(data, ps[..|ps| - 1], bpp, output)
      case Ok(Some(out)) => CopyTexel(out, data, ps[|ps| - 1].0, ps[|ps| - 1].1, bpp)
      case stop => stop
  }

  lemma {:induction false} CopiesAppend(data: seq<byte>, ps: seq<(int, int)>, qs: seq<(int, int)>, bpp: int, output: seq<byte>)
    ensures Copies(data, ps + qs, bpp, output) ==
            match Copies(data, ps, bpp, output)
            case Ok(Some(out)) => Copies(data, qs, bpp, out)
            case stop => stop
  {
    if |qs| > 0 {
      assert (ps + qs)[..|ps + qs| - 1] == ps + qs[..|qs| - 1];
      CopiesAppend(data, ps, qs[..|qs| - 1], bpp, output);
    } else {
      assert ps + qs == ps;
    }
  }

  /** The placements of texels 0..n-1 of row `y`. */
  function RowPlacements(width: int, depth: int, bpp: int, m: MaskState, deswizzle: bool, y: int, n: nat): (r: seq<(int, int)>)
    ensures |r| == n
  {
    if n == 0 then [] else RowPlacements(width, depth, bpp, m, deswizzle, y, n - 1) + [Offsets(width, depth, bpp, m, deswizzle, n - 1, y)]
  }

  /** The placements of rows 0..n-1. */
  function GridPlacements(width: nat, depth: int, bpp: int, m: MaskState, deswizzle: bool, n: nat): (r: seq<(int, int)>)
    ensures |r| == width * n
  {
    if n == 0 then [] else GridPlacements(width, depth, bpp, m, deswizzle, n - 1) + RowPlacements(width, depth, bpp, m, deswizzle, n - 1, width)
  }

  lemma {:induction false} RowIsCopies(data: seq<byte>, width: int, depth: int, bpp: int, m: MaskState, deswizzle: bool,
                                       y: int, n: nat, output: seq<byte>)
    ensures RowTexels(data, width, depth, bpp, m, deswizzle, y, n, output)
            == Copies(data, RowPlacements(width, depth, bpp, m, deswizzle, y, n), bpp, output)
  {
    if n > 0 {
      RowIsCopies(data, width, depth, bpp, m, deswizzle, y, n - 1, output);
      RowTexelIsCopy(data, width, depth, bpp, m, deswizzle, y, n, output);
    }
  }

  /** Texel `n - 1` of the row run is the last of its row placements. */
  lemma RowTexelIsCopy(data: seq<byte>, width: int, depth: int, bpp: int, m: MaskState, deswizzle: bool,
                       y: int, n: nat, output: seq<byte>)
    requires n > 0
    requires RowTexels(data, width, depth, bpp, m, deswizzle, y, n - 1, output)
             == Copies(data, RowPlacements(width, depth, bpp, m, deswizzle, y, n - 1), bpp, output)
    ensures RowTexels(data, width, depth, bpp, m, deswizzle, y, n, output)
            == Copies(data, RowPlacements(width, depth, bpp, m, deswizzle, y, n), bpp, output)
  {
    var ps := RowPlacements(width, depth, bpp, m, deswizzle, y, n);
    assert ps[..|ps| - 1] == RowPlacements(width, depth, bpp, m, deswizzle, y, n - 1);
    assert ps[|ps| - 1] == Offsets(width, depth, bpp, m, deswizzle, n - 1, y);
  }

  lemma {:induction false} GridIsCopies(data: seq<byte>, width: nat, depth: int, bpp: int, m: MaskState, deswizzle: bool,
                                        n: nat, output: seq<byte>)
    ensures GridRows(data, width, depth, bpp, m, deswizzle, n, output)
            == Copies(data, GridPlacements(width, depth, bpp, m, deswizzle, n), bpp, output)
  {
    if n > 0 {
      GridIsCopies(data, width, depth, bpp, m, deswizzle, n - 1, output);
      GridRowIsCopies(data, width, depth, bpp, m, deswizzle, n, output);
    }
  }

  /** Row `n - 1` of the grid run is the copies of its row placements. */
  lemma GridRowIsCopies(data: seq<byte>, width: nat, depth: int, bpp: int, m: MaskState, deswizzle: bool,
                        n: nat, output: seq<byte>)
    requires n > 0
    requires GridRows(data, width, depth, bpp, m, deswizzle, n - 1, output)
             == Copies(data, GridPlacements(width, depth, bpp, m, deswizzle, n - 1), bpp, output)
    ensures GridRows(data, width, depth, bpp, m, deswizzle, n, output)
            == Copies(data, GridPlacements(width, depth, bpp, m, deswizzle, n), bpp, output)
  {
    var ps := GridPlacements(width, depth, bpp, m, deswizzle, n - 1);
    var qs := RowPlacements(width, depth, bpp, m, deswizzle, n - 1, width);
    assert GridPlacements(width, depth, bpp, m, deswizzle, n) == ps + qs;
    CopiesAppend(data, ps, qs, bpp, output);
    var prev := GridRows(data, width, depth, bpp, m, deswizzle, n - 1, output);
    assert GridRows(data, width, depth, bpp, m, deswizzle, n, output)
           == match prev
              case Ok(Some(out)) => RowTexels(data, width, depth, bpp, m, deswizzle, n - 1, Max(width, 0), out)
              case stop => stop;
    if prev.Ok? && prev.value.Some? {
      RowIsCopies(data, width, depth, bpp, m, deswizzle, n - 1, width, prev.value.value);
    }
  }

  lemma {:induction false} RowPlacementAt(width: int, depth: int, bpp: int, m: MaskState, deswizzle: bool, y: int, n: nat, x: nat)
    requires x < n
    ensures RowPlacements(width, depth, bpp, m, deswizzle, y, n)[x] == Offsets(width, depth, bpp, m, deswizzle, x, y)
  {
    if x < n - 1 {
      RowPlacementAt(width, depth, bpp, m, deswizzle, y, n - 1, x);
    }
  }

  /** Placement `i` of the grid is texel `(i % width, i / width)`. */
  lemma {:induction false} GridPlacementAt(width: nat, depth: int, bpp: int, m: MaskState, deswizzle: bool, n: nat, i: nat)
    requires i < width * n
    ensures GridPlacements(width, depth, bpp, m, deswizzle, n)[i] == Offsets(width, depth, bpp, m, deswizzle, i % width, i / width)
  {
    var before := (n - 1) * width;
    assert width * n == before + width;
    if i < before {
      GridPlacementAt(width, depth, bpp, m, deswizzle, n - 1, i);
    } else {
      var x := i - before;
      DivUnique(i, width, n - 1);
      RowPlacementAt(width, depth, bpp, m, deswizzle, n - 1, width, x);
    }
  }

  /** Copies that fit are the plain splices: no null, no exception. */
  lemma {:induction false} CopiesAreSpliced(data: seq<byte>, ps: seq<(int, int)>, bpp: int, output: seq<byte>)
    requires |output| == |data| && Fits(ps, |data|, bpp)
    ensures Copies(data, ps, bpp, output) == Ok(Some(Spliced(data, ps, bpp, output)))
  {
    if |ps| > 0 {
      var init := ps[..|ps| - 1];
      assert Fits(init, |data|, bpp);
      CopiesAreSpliced(data, init, bpp, output);
    }
  }

  /** Copies that fit all succeed, and each leaves its source bytes at its destination. */
  lemma CopiesWrite(data: seq<byte>, ps: seq<(int, int)>, bpp: int, output: seq<byte>)
    requires |output| == |data| && Fits(ps, |data|, bpp)
    ensures var r := Copies(data, ps, bpp, output);
            r.Ok? && r.value.Some? && Wrote(r.value.value, data, ps, bpp)
  {
    CopiesAreSpliced(data, ps, bpp, output);
    SplicedWrites(data, ps, bpp, output);
  }

  // ---------------------------------------------------------------------------
  // The swizzled index of a 2^A × 2^B texture is a bijection of its texels.
  // ---------------------------------------------------------------------------

  lemma {:induction false} CeilLog2OfPow2(a: nat)
    ensures CeilLog2(Pow2(a)) == a
  {
    if a > 0 {
      CeilLog2OfPow2(a - 1);
      assert (Pow2(a) + 1) / 2 == Pow2(a - 1);
    }
  }

  /** The `i`-th set bit of `m` below `n` exists when fewer than Rank(m, n) come before it. */
  lemma {:induction false} RankHits(m: nat, i: nat, n: nat) returns (q: nat)
    requires i < Rank(m, n)
    ensures q < n && Bit(m, q) && Rank(m, q) == i
  {
    RankStep(m, n - 1);
    if i < Rank(m, n - 1) {
      q := RankHits(m, i, n - 1);
    } else {
      q := n - 1;
    }
  }

  /** A volume one texel deep gets no z bits. */
  lemma {:induction false} FlatHasNoZ(w: int, h: int, d: int, j: nat)
    requires d <= 1
    ensures MaskRounds(w, h, d, j).z == 0
  {
    if j > 0 {
      FlatHasNoZ(w, h, d, j - 1);
    }
  }

  /** The swizzled index the source computes for texel (x, y) of a one-deep texture:
      `Swizzle(x, y, depth, masks)` with depth 1. */
  function Swizzled(m: MaskState, x: int, y: int): nat
  {
    Interleave(x, y, 1, m.x, m.y, m.z)
  }

  /** The masks of a one-deep texture with CeilLog2 sizes `a` and `b`: x owns `a` of the
      low `a + b` bits, y the other `b`. */
  lemma FlatMasks(w: int, h: int, a: nat, b: nat)
    requires CeilLog2(w) == a && CeilLog2(h) == b
    ensures var m := Masks(w, h, 1);
            && m.z == 0 && MaskBits(w, h, 1) == a + b
            && Partition(m.x, m.y, m.z, a + b)
            && Rank(m.x, a + b) == a && Rank(m.y, a + b) == b
  {
    assert CeilLog2(1) == 0;
    FlatHasNoZ(w, h, 1, Rounds(w, h, 1));
    MasksPartition(w, h, 1);
  }

  lemma SquareMasks(a: nat, b: nat)
    ensures var m := Masks(Pow2(a), Pow2(b), 1);
            && m.z == 0 && MaskBits(Pow2(a), Pow2(b), 1) == a + b
            && Partition(m.x, m.y, m.z, a + b)
            && Rank(m.x, a + b) == a && Rank(m.y, a + b) == b
  {
    CeilLog2OfPow2(a);
    CeilLog2OfPow2(b);
    FlatMasks(Pow2(a), Pow2(b), a, b);
  }

  /** Bit `q` of the swizzled index is bit Rank(mx, q) of x where x owns `q`, and
      bit Rank(my, q) of y where y owns it. */
  lemma SwizzledBits(a: nat, b: nat, x: int, y: int, q: nat)
    requires a + b <= 30 && 0 <= x < Pow2(a) && 0 <= y < Pow2(b)
    ensures var m := Masks(Pow2(a), Pow2(b), 1);
            Bit(Swizzled(m, x, y), q) <==> (Bit(m.x, q) && Bit(x, Rank(m.x, q))) || (Bit(m.y, q) && Bit(y, Rank(m.y, q)))
  {
    var m := Masks(Pow2(a), Pow2(b), 1);
    assert m.z == 0 by { SquareMasks(a, b); }
    Unwrapped(x, a);
    Unwrapped(y, b);
    InterleaveBits(x, y, 1, m.x, m.y, m.z, q);
    BitOfZero(q);
  }

  /** A coordinate below 2^30 is its own 32-bit value. */
  lemma Unwrapped(x: int, a: nat)
    requires a <= 30 && 0 <= x < Pow2(a)
    ensures x % TWO_32 == x
  {
    Pow2Value32();
    Pow2Monotone(a, 30);
    ModOfSmall(x, TWO_32);
  }

  /** Every texel's swizzled index lies inside the texture. */
  lemma SwizzledBound(a: nat, b: nat, x: int, y: int)
    requires a + b <= 30 && 0 <= x < Pow2(a) && 0 <= y < Pow2(b)
    ensures Swizzled(Masks(Pow2(a), Pow2(b), 1), x, y) < Pow2(a) * Pow2(b)
  {
    var t := Swizzled(Masks(Pow2(a), Pow2(b), 1), x, y);
    assert t < Pow2(a + b) by {
      forall q: nat | Bit(t, q)
        ensures q < a + b
      {
        SwizzledBitBelow(a, b, x, y, q);
      }
      BelowPow2(t, a + b);
    }
    assert Pow2(a + b) == Pow2(a) * Pow2(b) by { Pow2Add(a, b); }
  }

  lemma SwizzledBitBelow(a: nat, b: nat, x: int, y: int, q: nat)
    requires a + b <= 30 && 0 <= x < Pow2(a) && 0 <= y < Pow2(b)
    requires Bit(Swizzled(Masks(Pow2(a), Pow2(b), 1), x, y), q)
    ensures q < a + b
  {
    var m := Masks(Pow2(a), Pow2(b), 1);
    SwizzledBits(a, b, x, y, q);
    SquareMasks(a, b);
    assert Bit(m.x, q) || Bit(m.y, q);
  }

  /** One coordinate is recovered from the swizzled index: the bits its mask owns. */
  lemma SwizzledDeterminesX(a: nat, b: nat, x: int, y: int, x': int, y': int)
    requires a + b <= 30 && 0 <= x < Pow2(a) && 0 <= y < Pow2(b) && 0 <= x' < Pow2(a) && 0 <= y' < Pow2(b)
    requires var m := Masks(Pow2(a), Pow2(b), 1); Swizzled(m, x, y) == Swizzled(m, x', y')
    ensures x == x'
  {
    var m := Masks(Pow2(a), Pow2(b), 1);
    SquareMasks(a, b);
    forall i: nat
      ensures Bit(x, i) == Bit(x', i)
    {
      if i < a {
        var q := RankHits(m.x, i, a + b);
        assert !Bit(m.y, q);
        SwizzledBits(a, b, x, y, q);
        SwizzledBits(a, b, x', y', q);
      } else {
        BitAbove(x, a, i);
        BitAbove(x', a, i);
      }
    }
    BitsDetermine(x, x');
  }

  lemma SwizzledDeterminesY(a: nat, b: nat, x: int, y: int, x': int, y': int)
    requires a + b <= 30 && 0 <= x < Pow2(a) && 0 <= y < Pow2(b) && 0 <= x' < Pow2(a) && 0 <= y' < Pow2(b)
    requires var m := Masks(Pow2(a), Pow2(b), 1); Swizzled(m, x, y) == Swizzled(m, x', y')
    ensures y == y'
  {
    var m := Masks(Pow2(a), Pow2(b), 1);
    SquareMasks(a, b);
    forall i: nat
      ensures Bit(y, i) == Bit(y', i)
    {
      if i < b {
        var q := RankHits(m.y, i, a + b);
        assert !Bit(m.x, q);
        SwizzledBits(a, b, x, y, q);
        SwizzledBits(a, b, x', y', q);
      } else {
        BitAbove(y, b, i);
        BitAbove(y', b, i);
      }
    }
    BitsDetermine(y, y');
  }

  // ---------------------------------------------------------------------------
  // Swizzling then deswizzling a 2^A × 2^B texture, and the other way round.
  // ---------------------------------------------------------------------------

  /** Linear index `i` of a `w`-wide grid of `n` texels is texel `(i % w, i / w)`. */
  lemma GridCell(i: nat, w: nat, h: nat)
    requires i < w * h
    ensures 0 < w && 0 <= i % w < w && 0 <= i / w < h && (i / w) * w + i % w == i
  {
    assert h * w == w * h;
    assert i / w < h by {
      if i / w >= h {
        MulLe(h, i / w, w);
      }
    }
  }

  /** The offsets of texel (x, y) of a one-deep grid whose linear index is `i`. */
  lemma OffsetsAt(w: int, bpp: int, m: MaskState, deswizzle: bool, x: int, y: int, i: int)
    requires y * w + x == i
    ensures Offsets(w, 1, bpp, m, deswizzle, x, y) ==
              if deswizzle then (i * bpp, Swizzled(m, x, y) * bpp) else (Swizzled(m, x, y) * bpp, i * bpp)
  {
  }

  /** The swizzled index of the texel with linear index `i` in a `w`-wide grid. */
  function SwizzledAt(m: MaskState, w: nat, i: int): nat
  {
    if w == 0 then 0 else Swizzled(m, i % w, i / w)
  }

  /** Masks under which the swizzled index maps the texels of a `w` × `h` grid one-to-one into it. */
  ghost predicate GoodMasks(m: MaskState, w: nat, h: nat)
  {
    && (forall x, y :: 0 <= x < w && 0 <= y < h ==> Swizzled(m, x, y) < w * h)
    && (forall x, y, x', y' :: 0 <= x < w && 0 <= y < h && 0 <= x' < w && 0 <= y' < h && Swizzled(m, x, y) == Swizzled(m, x', y') ==> x == x' && y == y')
  }

  lemma SquareMasksBound(a: nat, b: nat)
    requires a + b <= 30
    ensures var w, h := Pow2(a), Pow2(b);
            forall x, y :: 0 <= x < w && 0 <= y < h ==> Swizzled(Masks(w, h, 1), x, y) < w * h
  {
    forall x, y | 0 <= x < Pow2(a) && 0 <= y < Pow2(b)
      ensures Swizzled(Masks(Pow2(a), Pow2(b), 1), x, y) < Pow2(a) * Pow2(b)
    {
      SwizzledBound(a, b, x, y);
    }
  }

  lemma SquareMasksInjective(a: nat, b: nat)
    requires a + b <= 30
    ensures var w, h := Pow2(a), Pow2(b);
            var m := Masks(w, h, 1);
            forall x, y, x', y' :: 0 <= x < w && 0 <= y < h && 0 <= x' < w && 0 <= y' < h && Swizzled(m, x, y) == Swizzled(m, x', y') ==> x == x' && y == y'
  {
    var w, h := Pow2(a), Pow2(b);
    var m := Masks(w, h, 1);
    forall x, y, x', y' | 0 <= x < w && 0 <= y < h && 0 <= x' < w && 0 <= y' < h && Swizzled(m, x, y) == Swizzled(m, x', y')
      ensures x == x' && y == y'
    {
      SwizzledDeterminesX(a, b, x, y, x', y');
      SwizzledDeterminesY(a, b, x, y, x', y');
    }
  }

  /** The source's masks for a 2^a × 2^b texture are good. */
  lemma SquareMasksGood(a: nat, b: nat)
    requires a + b <= 30
    ensures GoodMasks(Masks(Pow2(a), Pow2(b), 1), Pow2(a), Pow2(b))
  {
    SquareMasksBound(a, b);
    SquareMasksInjective(a, b);
  }

  // Every cell is the swizzled index of some texel: an injection of w * h texels
  // into w * h cells misses none.

  function Below(n: nat): (r: set<int>)
    ensures forall c :: c in r <==> 0 <= c < n
  {
    if n == 0 then {} else Below(n - 1) + {n - 1}
  }

  function Image(m: MaskState, w: nat, n: nat): set<int>
  {
    if n == 0 then {} else Image(m, w, n - 1) + {SwizzledAt(m, w, n - 1)}
  }

  lemma {:induction false} BelowSize(n: nat)
    ensures |Below(n)| == n
  {
    if n > 0 {
      BelowSize(n - 1);
      AddNew(Below(n - 1), n - 1);
    }
  }

  lemma AddNew(a: set<int>, c: int)
    requires c !in a
    ensures |a + {c}| == |a| + 1
  {
  }

  lemma SubsetSize(a: set<int>, b: set<int>)
    requires a <= b
    ensures |a| <= |b|
  {
    assert a * b == a;
    assert |b - a| == |b| - |a * b|;
  }

  lemma {:induction false} ImageSize(m: MaskState, w: nat, h: nat, n: nat)
    requires GoodMasks(m, w, h) && n <= w * h
    ensures |Image(m, w, n)| == n && Image(m, w, n) <= Below(w * h)
  {
    if n > 0 {
      ImageSize(m, w, h, n - 1);
      ImageGrows(m, w, h, n - 1);
      ImageStep(m, w, n, w * h);
    }
  }

  /** A new index inside the grid grows the image by one and keeps it inside. */
  lemma ImageStep(m: MaskState, w: nat, n: nat, size: nat)
    requires n > 0 && |Image(m, w, n - 1)| == n - 1 && Image(m, w, n - 1) <= Below(size)
    requires SwizzledAt(m, w, n - 1) !in Image(m, w, n - 1) && SwizzledAt(m, w, n - 1) < size
    ensures |Image(m, w, n)| == n && Image(m, w, n) <= Below(size)
  {
    assert Image(m, w, n) == Image(m, w, n - 1) + {SwizzledAt(m, w, n - 1)};
  }

  /** The next texel's swizzled index is new, and inside the grid. */
  lemma ImageGrows(m: MaskState, w: nat, h: nat, n: nat)
    requires GoodMasks(m, w, h) && n < w * h
    ensures SwizzledAt(m, w, n) !in Image(m, w, n) && 0 <= SwizzledAt(m, w, n) < w * h
  {
    GridCell(n, w, h);
    forall i | 0 <= i < n
      ensures SwizzledAt(m, w, i) != SwizzledAt(m, w, n)
    {
      SwizzledInjective(w, h, m, i, n);
    }
    ImageMembers(m, w, n, SwizzledAt(m, w, n));
  }

  lemma {:induction false} ImageMembers(m: MaskState, w: nat, n: nat, c: int)
    requires forall i :: 0 <= i < n ==> SwizzledAt(m, w, i) != c
    ensures c !in Image(m, w, n)
  {
    if n > 0 {
      ImageMembers(m, w, n - 1, c);
    }
  }

  lemma {:induction false} ImageWitness(m: MaskState, w: nat, n: nat, c: int) returns (i: nat)
    requires c in Image(m, w, n)
    ensures i < n && SwizzledAt(m, w, i) == c
  {
    if c in Image(m, w, n - 1) {
      i := ImageWitness(m, w, n - 1, c);
    } else {
      i := n - 1;
    }
  }

  /** Every cell of the grid is the swizzled index of exactly one texel. */
  lemma Preimage(m: MaskState, w: nat, h: nat, c: int) returns (i: nat)
    requires GoodMasks(m, w, h) && 0 <= c < w * h
    ensures i < w * h && SwizzledAt(m, w, i) == c
  {
    ImageSize(m, w, h, w * h);
    BelowSize(w * h);
    var im := Image(m, w, w * h);
    if c !in im {
      SubsetSize(im, Below(w * h) - {c});
      assert false;
    }
    i := ImageWitness(m, w, w * h, c);
  }

  /** Placement `i` of the grid: texel `i` in linear order, and its swizzled index. */
  lemma PlacementValue(w: nat, h: nat, m: MaskState, bpp: int, deswizzle: bool, i: nat)
    requires GoodMasks(m, w, h) && i < w * h
    ensures var t := Swizzled(m, i % w, i / w);
            && 0 <= i % w < w && 0 <= i / w < h && t < w * h
            && GridPlacements(w, 1, bpp, m, deswizzle, h)[i] == if deswizzle then (i * bpp, t * bpp) else (t * bpp, i * bpp)
  {
    GridCell(i, w, h);
    GridPlacementAt(w, 1, bpp, m, deswizzle, h, i);
    OffsetsAt(w, bpp, m, deswizzle, i % w, i / w, i);
  }

  /** Different texels have different swizzled indices. */
  lemma SwizzledInjective(w: nat, h: nat, m: MaskState, i: nat, j: nat)
    requires GoodMasks(m, w, h) && i < w * h && j < w * h && i != j
    ensures Swizzled(m, i % w, i / w) != Swizzled(m, j % w, j / w) && SwizzledAt(m, w, i) != SwizzledAt(m, w, j)
  {
    GridCell(i, w, h);
    GridCell(j, w, h);
  }

  /** Every texel copies a whole cell, and no two write the same cell. */
  lemma PlacementsFit(w: nat, h: nat, m: MaskState, bpp: int, deswizzle: bool)
    requires GoodMasks(m, w, h) && bpp > 0
    ensures Fits(GridPlacements(w, 1, bpp, m, deswizzle, h), w * h * bpp, bpp)
  {
    var ps := GridPlacements(w, 1, bpp, m, deswizzle, h);
    forall i | 0 <= i < |ps|
      ensures 0 <= ps[i].0 && ps[i].0 + bpp <= w * h * bpp && 0 <= ps[i].1 && ps[i].1 + bpp <= w * h * bpp
    {
      PlacementValue(w, h, m, bpp, deswizzle, i);
      CellInside(i, w * h, bpp);
      CellInside(Swizzled(m, i % w, i / w), w * h, bpp);
    }
    forall i, j | 0 <= i < j < |ps|
      ensures Apart(ps[i].0, ps[j].0, bpp)
    {
      PlacementValue(w, h, m, bpp, deswizzle, i);
      PlacementValue(w, h, m, bpp, deswizzle, j);
      SwizzledInjective(w, h, m, i, j);
      if deswizzle {
        CellsApart(i, j, bpp);
      } else {
        CellsApart(Swizzled(m, i % w, i / w), Swizzled(m, j % w, j / w), bpp);
      }
    }
  }

  /** The copy loop over a texture of whole cells: it succeeds, and cell `i` in
      linear order and cell `Swizzled(i)` trade places. */
  lemma GoodSwizzle(data: seq<byte>, w: nat, h: nat, m: MaskState, bpp: int, deswizzle: bool)
    requires GoodMasks(m, w, h) && bpp > 0 && |data| == w * h * bpp
    ensures var r := GridRows(data, w, 1, bpp, m, deswizzle, h, Zeros(|data|));
            && r.Ok? && r.value.Some? && |r.value.value| == |data|
            && Wrote(r.value.value, data, GridPlacements(w, 1, bpp, m, deswizzle, h), bpp)
  {
    GridIsCopies(data, w, 1, bpp, m, deswizzle, h, Zeros(|data|));
    PlacementsFit(w, h, m, bpp, deswizzle);
    CopiesWrite(data, GridPlacements(w, 1, bpp, m, deswizzle, h), bpp, Zeros(|data|));
  }

  /** Texel `i`'s placements in the two passes are each other's mirror image. */
  lemma PlacementsMirror(w: nat, h: nat, m: MaskState, bpp: int, first: bool, i: nat)
    requires GoodMasks(m, w, h) && i < w * h
    ensures var ps, qs := GridPlacements(w, 1, bpp, m, first, h), GridPlacements(w, 1, bpp, m, !first, h);
            && i < |ps| && i < |qs| && ps[i].0 == qs[i].1 && ps[i].1 == qs[i].0
            && ps[i].1 == (if first then SwizzledAt(m, w, i) else i) * bpp
  {
    PlacementValue(w, h, m, bpp, first, i);
    PlacementValue(w, h, m, bpp, !first, i);
  }

  /** Two passes of the copy loop, the second with `deswizzle` flipped, give the input back. */
  lemma PassesCancel(data: seq<byte>, w: nat, h: nat, m: MaskState, bpp: int, first: bool)
    requires GoodMasks(m, w, h) && bpp > 0 && |data| == w * h * bpp
    ensures var r := GridRows(data, w, 1, bpp, m, first, h, Zeros(|data|));
            && r.Ok? && r.value.Some? && |r.value.value| == |data|
            && GridRows(r.value.value, w, 1, bpp, m, !first, h, Zeros(|data|)) == Ok(Some(data))
  {
    GoodSwizzle(data, w, h, m, bpp, first);
    var mid := GridRows(data, w, 1, bpp, m, first, h, Zeros(|data|)).value.value;
    GoodSwizzle(mid, w, h, m, bpp, !first);
    var back := GridRows(mid, w, 1, bpp, m, !first, h, Zeros(|data|)).value.value;
    forall c | 0 <= c < w * h
      ensures 0 <= c * bpp && c * bpp + bpp <= |back| && back[c * bpp..c * bpp + bpp] == data[c * bpp..c * bpp + bpp]
    {
      CellBack(data, mid, back, w, h, m, bpp, first, c);
    }
    CellsDetermine(back, data, bpp, w * h);
  }

  /** Cell `c` is where the second pass fetches back what the first pass put away. */
  lemma CellBack(data: seq<byte>, mid: seq<byte>, back: seq<byte>, w: nat, h: nat, m: MaskState, bpp: int,
                 first: bool, c: int)
    requires GoodMasks(m, w, h) && bpp > 0 && 0 <= c < w * h
    requires Wrote(mid, data, GridPlacements(w, 1, bpp, m, first, h), bpp)
    requires Wrote(back, mid, GridPlacements(w, 1, bpp, m, !first, h), bpp)
    ensures 0 <= c * bpp && c * bpp + bpp <= |back| && c * bpp + bpp <= |data| && back[c * bpp..c * bpp + bpp] == data[c * bpp..c * bpp + bpp]
  {
    var i := c;
    if first {
      i := Preimage(m, w, h, c);
    }
    PlacementsMirror(w, h, m, bpp, first, i);
    CellReturns(data, mid, back, GridPlacements(w, 1, bpp, m, first, h), GridPlacements(w, 1, bpp, m, !first, h),
                bpp, i, c * bpp);
  }

  /** Two passes over a 2^a × 2^b texture, the second with `deswizzle` flipped, give the input back. */
  lemma SwizzlePassesCancel(data: seq<byte>, a: nat, b: nat, bpp: int, first: bool)
    requires a + b <= 30 && bpp > 0 && |data| == Pow2(a) * Pow2(b) * bpp
    ensures var w, h := Pow2(a), Pow2(b);
            var r := SwizzleSpec(data, w, h, 1, bpp, first);
            r.Ok? && r.value.Some? && SwizzleSpec(r.value.value, w, h, 1, bpp, !first) == Ok(Some(data))
  {
    var w, h := Pow2(a), Pow2(b);
    assert Max(h * 1, 0) == h;
    SquareMasksGood(a, b);
    PassesCancel(data, w, h, Masks(w, h, 1), bpp, first);
  }

  /** Deswizzling a swizzled 2^a × 2^b texture gives it back. */
  lemma DeswizzleUndoesSwizzle(data: seq<byte>, a: nat, b: nat, bpp: int)
    requires a + b <= 30 && bpp > 0 && |data| == Pow2(a) * Pow2(b) * bpp
    ensures var r := SwizzleSpec(data, Pow2(a), Pow2(b), 1, bpp, false);
            r.Ok? && r.value.Some? && SwizzleSpec(r.value.value, Pow2(a), Pow2(b), 1, bpp, true) == Ok(Some(data))
  {
    SwizzlePassesCancel(data, a, b, bpp, false);
  }

  /** Swizzling a deswizzled 2^a × 2^b texture gives it back. */
  lemma SwizzleUndoesDeswizzle(data: seq<byte>, a: nat, b: nat, bpp: int)
    requires a + b <= 30 && bpp > 0 && |data| == Pow2(a) * Pow2(b) * bpp
    ensures var r := SwizzleSpec(data, Pow2(a), Pow2(b), 1, bpp, true);
            r.Ok? && r.value.Some? && SwizzleSpec(r.value.value, Pow2(a), Pow2(b), 1, bpp, false) == Ok(Some(data))
  {
    SwizzlePassesCancel(data, a, b, bpp, true);
  }

  // ---------------------------------------------------------------------------
  // When the swizzler returns null.
  // ---------------------------------------------------------------------------

  /** A run of copies ends in null exactly when one of its copies starts past the end
      of either array; when none does, it never does. */
  lemma {:induction false} CopiesNull(data: seq<byte>, ps: seq<(int, int)>, bpp: int, output: seq<byte>)
    ensures Copies(data, ps, bpp, output) == Ok(None) ==>
              exists i :: 0 <= i < |ps| && (ps[i].0 >= |output| || ps[i].1 >= |data|)
    ensures (forall i :: 0 <= i < |ps| ==> ps[i].0 < |output| && ps[i].1 < |data|) ==>
              Copies(data, ps, bpp, output) != Ok(None)
  {
    if |ps| > 0 {
      var init := ps[..|ps| - 1];
      CopiesNull(data, init, bpp, output);
      if Copies(data, init, bpp, output) == Ok(None) {
        var i :| 0 <= i < |init| && (init[i].0 >= |output| || init[i].1 >= |data|);
        assert ps[i] == init[i];
      }
      if forall i :: 0 <= i < |ps| ==> ps[i].0 < |output| && ps[i].1 < |data| {
        assert forall i :: 0 <= i < |init| ==> init[i] == ps[i];
      }
    }
  }

  /** `Swizzle` returns null only when some texel's source or destination offset is past the
      end of the data, and never when every texel's offsets are inside it. */
  lemma SwizzleNull(data: seq<byte>, width: int, height: int, depth: int, bpp: int, deswizzle: bool)
    requires width >= 0
    ensures var m := Masks(width, height, depth);
            SwizzleSpec(data, width, height, depth, bpp, deswizzle) == Ok(None) ==>
              exists x, y :: 0 <= x < width && 0 <= y < height * depth
                && (Offsets(width, depth, bpp, m, deswizzle, x, y).0 >= |data| || Offsets(width, depth, bpp, m, deswizzle, x, y).1 >= |data|)
    ensures var m := Masks(width, height, depth);
            (forall x, y :: 0 <= x < width && 0 <= y < height * depth ==>
               Offsets(width, depth, bpp, m, deswizzle, x, y).0 < |data| && Offsets(width, depth, bpp, m, deswizzle, x, y).1 < |data|) ==>
              SwizzleSpec(data, width, height, depth, bpp, deswizzle) != Ok(None)
  {
    var m := Masks(width, height, depth);
    var rows := Max(height * depth, 0);
    var ps := GridPlacements(width, depth, bpp, m, deswizzle, rows);
    GridIsCopies(data, width, depth, bpp, m, deswizzle, rows, Zeros(|data|));
    CopiesNull(data, ps, bpp, Zeros(|data|));
    if SwizzleSpec(data, width, height, depth, bpp, deswizzle) == Ok(None) {
      var i :| 0 <= i < |ps| && (ps[i].0 >= |data| || ps[i].1 >= |data|);
      GridCell(i, width, rows);
      GridPlacementAt(width, depth, bpp, m, deswizzle, rows, i);
      assert Offsets(width, depth, bpp, m, deswizzle, i % width, i / width).0 == ps[i].0;
    }
    if forall x, y :: 0 <= x < width && 0 <= y < height * depth ==>
         Offsets(width, depth, bpp, m, deswizzle, x, y).0 < |data| && Offsets(width, depth, bpp, m, deswizzle, x, y).1 < |data| {
      forall i | 0 <= i < |ps|
        ensures ps[i].0 < |data| && ps[i].1 < |data|
      {
        GridCell(i, width, rows);
        GridPlacementAt(width, depth, bpp, m, deswizzle, rows, i);
      }
    }
  }
}
