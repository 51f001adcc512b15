/** A texture the Xbox 360 tiler provably permutes: 32 by 32 blocks of 4 bytes,
    the A8R8G8B8 texture XTextureScramble aligns to a single 32-block tile. */
module X360Square {

  import opened Wrappers
  import opened Numerics
  import opened Bytes
  import opened Int32
  import opened Formats
  import opened X360Tiling

  /** The tiled x of block `o` of a 32-block-wide texture of 4-byte blocks, as
      bits: bits 0, 1 and 3 of `o` go to bits 0, 1 and 2, bit 4 to bit 3, and
      bit 5 xor bit 8 to bit 4. */
  function BitsX(o: bv32): bv32
  {
    (o & 3) | (((o >> 3) & 1) << 2) | (((o >> 4) & 1) << 3) | ((((o >> 5) ^ (o >> 8)) & 1) << 4)
  }

  /** The tiled y of the same block: bits 2, 6, 7, 8 and 9 of `o`. */
  function BitsY(o: bv32): bv32
  {
    ((o >> 2) & 1) | (((o >> 6) & 1) << 1) | (((o >> 7) & 1) << 2) | (((o >> 8) & 1) << 3) | (((o >> 9) & 1) << 4)
  }

  /** The block whose tiled coordinates are `(x, y)`: BitsX and
      BitsY read backwards. */
  function Untiled(x: bv32, y: bv32): bv32
  {
    var b8 := (y >> 3) & 1;
    (x & 3) | ((y & 1) << 2) | (((x >> 2) & 1) << 3) | (((x >> 3) & 1) << 4) | ((((x >> 4) ^ b8) & 1) << 5)
    | (((y >> 1) & 1) << 6) | (((y >> 2) & 1) << 7) | (b8 << 8) | (((y >> 4) & 1) << 9)
  }

  /** The offsets XGAddress2DTiledX and Y share, for the first 1024 blocks of
      4 bytes: `offsetM` is 0, so there is a single macro tile. */
  lemma SharedOffsets(o: bv32)
    requires o < 1024
    ensures Offsets(o, 4) == TiledOffsets(2, o << 2, (o & 448) + ((o & 15) << 2), 0)
  {
    assert LogBpp(4) == 2 by { LogBppOfPitches(); }
  }

  /** The bit formula of XGAddress2DTiledX with a zero macro tile gives BitsX. */
  lemma FormulaX(o: bv32)
    requires o < 1024
    ensures var b, t := o << 2, (o & 448) + ((o & 15) << 2);
            Shl(Shl(0, 2) + (((Sar(t, 7) & 2) + Sar(b, 6)) & 3), 3)
              + Sar(((Sar(t, 1) & !15) + (t & 15)) & (Shl(4, 3) - 1), 2) == BitsX(o)
  {
  }

  /** The bit formula of XGAddress2DTiledY with a zero macro tile gives BitsY. */
  lemma FormulaY(o: bv32)
    requires o < 1024
    ensures var b, t := o << 2, (o & 448) + ((o & 15) << 2);
            Shl(Shl(0, 2) + ((Sar(t, 8) & 1) + Sar(b & 2048, 10)), 3)
              + (Sar((t & ((Shl(4, 6) - 1) & !31)) + Shl(t & 15, 1), 5) & !1) + Sar(t & 16, 4) == BitsY(o)
  {
  }

  /** Both coordinates are below 32, and Untiled undoes them. */
  lemma Untiles(o: bv32)
    requires o < 1024
    ensures BitsX(o) < 32 && BitsY(o) < 32
    ensures Untiled(BitsX(o), BitsY(o)) == o
  {
  }

  /** Block `k` of the first 1024 of a 32-block-wide texture of 4-byte blocks
      has tiled coordinates BitsX and BitsY of its bits. */
  lemma TiledBits(k: int)
    requires 0 <= k < 1024
    ensures var o := k as bv32;
            TiledXY(k, 32, 4) == Ok((BitsX(o) as int, BitsY(o) as int))
  {
    TiledXBits(k);
    TiledYBits(k);
  }

  /** The facts XGAddress2DTiledX and Y share for such a block: a single
      macro column and a zero macro tile. */
  lemma TiledCommon(k: int)
    requires 0 <= k < 1024
    ensures var o := k as bv32;
            && ToBv(k) == o && ToBv(32) == 32 && ToBv(4) == 4
            && Offsets(o, 4) == TiledOffsets(2, o << 2, (o & 448) + ((o & 15) << 2), 0)
            && MacroColumns(32) == 1 && FromBv(0) == 0 && FromBv(1) == 1
            && CsRem(0, 1) == 0 && CsDiv(0, 1) == 0 && ToBv(0) == 0
  {
    SharedOffsets(k as bv32);
  }

  lemma TiledXBits(k: int)
    requires 0 <= k < 1024
    ensures TiledX(k, 32, 4) == Ok(BitsX(k as bv32) as int)
  {
    TiledCommon(k);
    FormulaX(k as bv32);
    Untiles(k as bv32);
  }

  lemma TiledYBits(k: int)
    requires 0 <= k < 1024
    ensures TiledY(k, 32, 4) == Ok(BitsY(k as bv32) as int)
  {
    TiledCommon(k);
    FormulaY(k as bv32);
    Untiles(k as bv32);
  }

  /** The geometry XTextureScramble computes for a 32-by-32 A8R8G8B8 texture. */
  const SQUARE_GEOMETRY := Geometry(32, 32, 4096, 32, 32, 4)

  lemma GeometryOfSquare()
    ensures ScrambleGeometry(32, 32, A8R8G8B8) == SQUARE_GEOMETRY
  {
  }

  /** The linear block whose tiled block index is `b`. */
  function FromBlock(b: int): int
  {
    Untiled(ToBv(b % 32), ToBv(b / 32)) as int
  }

  /** The tiled block index of block `k` determines `k`. */
  lemma BlockRecovers(k: int)
    requires 0 <= k < 1024
    ensures FromBlock(TiledBlock(Tiler(SQUARE_GEOMETRY), k, 32)) == k
  {
    var o := k as bv32;
    SmallAsBits(k);
    Untiles(o);
    BlockIndex(k);
    FromCoordinates(BitsX(o), BitsY(o));
  }

  /** The tiled block index of block `k`, from its tiled coordinates. */
  lemma BlockIndex(k: int)
    requires 0 <= k < 1024
    ensures var o := k as bv32;
            TiledBlock(Tiler(SQUARE_GEOMETRY), k, 32) == BitsY(o) as int * 32 + BitsX(o) as int
  {
    TiledBits(k);
    assert Tiler(SQUARE_GEOMETRY)(k) == TiledXY(k, 32, 4);
  }

  /** FromBlock of block index `y * 32 + x` is the block with tiled
      coordinates `(x, y)`. */
  lemma FromCoordinates(x: bv32, y: bv32)
    requires x < 32 && y < 32
    ensures FromBlock(y as int * 32 + x as int) == Untiled(x, y) as int
  {
    RowAndColumn(x as int, y as int);
    assert ToBv(x as int) == x && ToBv(y as int) == y;
  }

  /** The bits of `k`, counted up from zero one at a time. */
  function CountedBits(k: nat): bv32
  {
    if k == 0 then 0 else CountedBits(k - 1) + 1
  }

  /** Below 1023 adding one to the bits adds one to their value. */
  lemma IncrementBits(v: bv32)
    requires v < 1023
    ensures (v + 1) as int == v as int + 1
  {
  }

  lemma BitsBelow(v: bv32)
    requires v as int < 1023
    ensures v < 1023
  {
  }

  lemma {:induction false} CountedBitsValue(k: nat)
    requires k < 1024
    ensures CountedBits(k) as int == k
  {
    if k > 0 {
      CountedBitsValue(k - 1);
      BitsBelow(CountedBits(k - 1));
      IncrementBits(CountedBits(k - 1));
    }
  }

  /** A block index below 1024 converts to bits and back unchanged. */
  lemma SmallAsBits(k: int)
    requires 0 <= k < 1024
    ensures k as bv32 < 1024 && (k as bv32) as int == k
  {
    CountedBitsValue(k);
    var o := CountedBits(k);
    assert o < 1024;
    assert (o as int) as bv32 == o;
  }

  /** Block index `y * 32 + x` of a row of 32 blocks splits back into `x` and `y`. */
  lemma RowAndColumn(x: int, y: int)
    requires 0 <= x < 32 && 0 <= y
    ensures (y * 32 + x) % 32 == x && (y * 32 + x) / 32 == y
  {
  }

  /** The tiler permutes the blocks of a 32-by-32 A8R8G8B8 texture. */
  lemma TilerPermutes()
    ensures TilingPermutes(Tiler(ScrambleGeometry(32, 32, A8R8G8B8)), 32, 32, 4)
  {
    GeometryOfSquare();
    var tiler := Tiler(SQUARE_GEOMETRY);
    forall k | 0 <= k < 32 * 32
      ensures tiler(k).Ok? && 0 <= tiler(k).value.0 < 32 && 0 <= tiler(k).value.1 < 32
    {
      TiledBits(k);
      Untiles(k as bv32);
    }
    forall k, k' | 0 <= k < k' < 32 * 32
      ensures TiledBlock(tiler, k, 32) != TiledBlock(tiler, k', 32)
    {
      BlockRecovers(k);
      BlockRecovers(k');
    }
  }

  /** Any 4096 bytes of a 32-by-32 A8R8G8B8 texture survive tiling and untiling. */
  lemma SquareRoundTrip(data: seq<byte>)
    requires |data| == 4096
    ensures var mid := ScrambleSpec(data, 32, 32, A8R8G8B8, false);
            mid.Ok? && ScrambleSpec(mid.value, 32, 32, A8R8G8B8, true) == Ok(data)
  {
    GeometryOfSquare();
    TilerPermutes();
    ScrambleRoundTrip(data, 32, 32, A8R8G8B8);
  }
}
