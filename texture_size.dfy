/** Padded ("virtual") texture dimensions and the length of a raw texture
    payload (TextureUtils.GetVirtualSize and GetBitmapDataLength). */
module TextureSize {

  import opened Wrappers
  import opened Numerics
  import opened Formats
  import opened Bytes
  import opened Int32

  /** GetVirtualSize: round width and height up to the format's tile size,
      then up to its block size.  Unknown formats are rejected. */
  function VirtualSize(f: KnownTextureFormat, width: int, height: int): (r: Result<(int, int)>)
    ensures r.Err? <==> f == Unknown
    ensures r.Err? ==> r.error == UnknownFormat
    ensures r.Ok? ==> r.value.0 >= width && r.value.1 >= height
    ensures r.Ok? ==> r.value.0 % TileSize(f) == 0 && r.value.1 % TileSize(f) == 0
    ensures r.Ok? ==> r.value.0 % LinearBlockSize(f) == 0 && r.value.1 % LinearBlockSize(f) == 0
    ensures r.Ok? ==> r.value.0 < width + TileSize(f) && r.value.1 < height + TileSize(f)
  {
    if f == Unknown then Err(UnknownFormat)
    else
      LookupShapes(f);
      var block, tile := LinearBlockSize(f), TileSize(f);
      var tw, th := RoundUp(width, tile), RoundUp(height, tile);
      RoundUpBounds(width, tile);
      RoundUpBounds(height, tile);
      MultipleOfFactor(tw, block, tile / block);
      MultipleOfFactor(th, block, tile / block);
      RoundUpOfMultiple(tw, block);
      RoundUpOfMultiple(th, block);
      Ok((RoundUp(tw, block), RoundUp(th, block)))
  }

  /** Applying GetVirtualSize to its own output changes nothing. */
  lemma VirtualSizeIdempotent(f: KnownTextureFormat, width: int, height: int)
    requires f != Unknown
    ensures VirtualSize(f, VirtualSize(f, width, height).value.0, VirtualSize(f, width, height).value.1)
            == VirtualSize(f, width, height)
  {
    var (vw, vh) := VirtualSize(f, width, height).value;
    LookupShapes(f);
    RoundUpOfMultiple(vw, TileSize(f));
    RoundUpOfMultiple(vh, TileSize(f));
    RoundUpOfMultiple(vw, LinearBlockSize(f));
    RoundUpOfMultiple(vh, LinearBlockSize(f));
  }

  /** The dimensions the payload is stored at: padded when the descriptor uses padding. */
  function StoredSize(s: BitmapData): Result<(int, int)>
  {
    if !s.usesPadding then Ok((s.width, s.height)) else VirtualSize(s.format, s.width, s.height)
  }

  /** Bytes of one frame at the stored size: `virtualWidth * virtualHeight * bpp / 8`
      in C# `int` arithmetic, so both products wrap before the truncating division. */
  function FrameSize(vw: int, vh: int, f: KnownTextureFormat): (r: int)
    ensures IsInt32(r)
  {
    CsDiv(Wrap32(Wrap32(vw * vh) * Bpp(f)), 8)
  }

  /** Without overflow the frame is the exact `vw * vh * bpp / 8`. */
  lemma FrameSizeExact(vw: int, vh: int, f: KnownTextureFormat)
    requires vw >= 0 && vh >= 0 && vw * vh * Bpp(f) < TWO_31
    ensures 0 <= FrameSize(vw, vh, f) == vw * vh * Bpp(f) / 8
  {
    LookupShapes(f);
    assert 0 <= vw * vh <= vw * vh * Bpp(f);
  }

  /** The smallest mip a format can store: one block, `blockLen² * bpp / 8` bytes. */
  function MinMipUnit(f: KnownTextureFormat): (r: int)
    ensures r >= 0
  {
    LookupShapes(f);
    LinearBlockSize(f) * LinearBlockSize(f) * Bpp(f) / 8
  }

  /** Bytes of mip level `i`: `max(minUnit, (int)(frameSize * 0.25^i))`; the product
      is taken in double precision, where it is exact, and truncated toward zero. */
  function MipLevelSize(frameSize: int, minUnit: int, i: nat): int
  {
    Max(minUnit, CsDiv(frameSize, Pow4(i)))
  }

  /** Sum of MipLevelSize over levels 1..n, accumulated in an `int` that wraps. */
  function MipsSize(frameSize: int, minUnit: int, n: nat): (r: int)
    ensures IsInt32(r)
  {
    if n == 0 then 0 else Wrap32(MipsSize(frameSize, minUnit, n - 1) + MipLevelSize(frameSize, minUnit, n))
  }

  /** Each mip level costs at least the minimum unit and at most the frame size
      plus that unit, so while the chain's upper bound fits an `int` nothing wraps
      and the `n` levels lie between `n * minUnit` and `n * (minUnit + frameSize)`. */
  lemma {:induction false} MipsSizeBounds(frameSize: int, minUnit: int, n: nat)
    requires frameSize >= 0 && minUnit >= 0 && n * (minUnit + frameSize) < TWO_31
    ensures n * minUnit <= MipsSize(frameSize, minUnit, n) <= n * (minUnit + frameSize)
  {
    if n > 0 {
      assert n * (minUnit + frameSize) == (n - 1) * (minUnit + frameSize) + minUnit + frameSize;
      assert n * minUnit == (n - 1) * minUnit + minUnit;
      MipsSizeBounds(frameSize, minUnit, n - 1);
      DivBounds(frameSize, Pow4(n));
      assert CsDiv(frameSize, Pow4(n)) == frameSize / Pow4(n);
      var sum := MipsSize(frameSize, minUnit, n - 1) + MipLevelSize(frameSize, minUnit, n);
      assert 0 <= sum <= n * (minUnit + frameSize);
    }
  }

  /** Whether the mip chain is counted: it is requested and MipmapCount is not zero. */
  function CountsMips(s: BitmapData, includeMips: bool): bool
  {
    includeMips && s.mipmapCount != 0
  }

  /** What GetBitmapDataLength returns: `(frame + mips) * max(1, FrameCount)` in
      wrapping `int` arithmetic.  The result is always an `int`, and it is
      negative when the true length exceeds 2^31 - 1 by the right amount. */
  function BitmapDataLength(s: BitmapData, includeMips: bool): (r: Result<int>)
    ensures r.Err? <==> s.usesPadding && s.format == Unknown
    ensures r.Ok? ==> IsInt32(r.value)
  {
    match StoredSize(s)
    case Err(e) => Err(e)
    case Ok((vw, vh)) =>
      var frame := FrameSize(vw, vh, s.format);
      var total := if CountsMips(s, includeMips) && s.mipmapCount > 0
                   then Wrap32(frame + MipsSize(frame, MinMipUnit(s.format), s.mipmapCount)) else frame;
      Ok(Wrap32(total * Max(1, s.frameCount)))
  }

  /** GetBitmapDataLength. */
  method GetBitmapDataLength(s: BitmapData, includeMips: bool) returns (r: Result<int>)
    ensures r == BitmapDataLength(s, includeMips)
  {
    var useMips := includeMips;
    if s.mipmapCount == 0 {
      useMips := false;
    }
    var vw, vh;
    if !s.usesPadding {
      vw, vh := s.width, s.height;
    } else {
      var v := VirtualSize(s.format, s.width, s.height);
      if v.Err? {
        return Err(v.error);
      }
      vw, vh := v.value.0, v.value.1;
    }
    assert StoredSize(s) == Ok((vw, vh));
    var frameSize := FrameSize(vw, vh, s.format);
    ghost var frame := frameSize;
    if useMips {
      var mipsSize := MipChainSize(frameSize, MinMipUnit(s.format), s.mipmapCount);
      frameSize := Wrap32(frameSize + mipsSize);
    }
    assert frameSize == if CountsMips(s, includeMips) && s.mipmapCount > 0
                        then Wrap32(frame + MipsSize(frame, MinMipUnit(s.format), s.mipmapCount)) else frame;
    r := Ok(Wrap32(frameSize * Max(1, s.frameCount)));
  }

  /** The mip loop of GetBitmapDataLength: levels 1 to `count`, each added in
      int32 arithmetic. */
  method MipChainSize(frameSize: int, minUnit: int, count: int) returns (mipsSize: int)
    ensures mipsSize == MipsSize(frameSize, minUnit, Max(count, 0))
  {
    mipsSize := 0;
    var i := 1;
    while i <= count
      invariant 1 <= i <= Max(count, 0) + 1
      invariant mipsSize == MipsSize(frameSize, minUnit, i - 1)
      decreases count - i
    {
      mipsSize := Wrap32(mipsSize + MipLevelSize(frameSize, minUnit, i));
      i := i + 1;
    }
    assert i - 1 == Max(count, 0);
  }

  /** How many mip levels the length counts: MipmapCount when the chain is counted. */
  function MipLevels(s: BitmapData, includeMips: bool): nat
  {
    if CountsMips(s, includeMips) then Max(s.mipmapCount, 0) else 0
  }

  /** While the true length fits an `int`: the frame is the exact
      `vw * vh * bpp / 8`; without mips the length is exactly one stored frame
      per frame (at least one frame); with mips the chain of MipmapCount levels
      adds at least one block and at most one frame plus one block per level. */
  lemma DataLengthShape(s: BitmapData, includeMips: bool, vw: int, vh: int)
    requires StoredSize(s) == Ok((vw, vh))
    requires vw >= 0 && vh >= 0 && vw * vh * Bpp(s.format) < TWO_31
    requires var frame := FrameSize(vw, vh, s.format);
             (frame + MipLevels(s, includeMips) * (MinMipUnit(s.format) + frame)) * Max(1, s.frameCount) < TWO_31
    ensures FrameSize(vw, vh, s.format) == vw * vh * Bpp(s.format) / 8
    ensures MipLevels(s, includeMips) == 0 ==>
              BitmapDataLength(s, includeMips) == Ok(FrameSize(vw, vh, s.format) * Max(1, s.frameCount))
    ensures var frame := FrameSize(vw, vh, s.format);
            var n := MipLevels(s, includeMips);
            var unit := MinMipUnit(s.format);
            (frame + n * unit) * Max(1, s.frameCount)
              <= BitmapDataLength(s, includeMips).value
              <= (frame + n * (unit + frame)) * Max(1, s.frameCount)
  {
    var n := MipLevels(s, includeMips);
    var unit := MinMipUnit(s.format);
    var fc := Max(1, s.frameCount);
    var frame := FrameSize(vw, vh, s.format);
    FrameSizeExact(vw, vh, s.format);
    ChainBounds(frame, unit, n, fc);
    LengthUnfold(s, includeMips);
    var x := if n > 0 then frame + MipsSize(frame, unit, n) else frame;
    ScaledBounds(frame + n * unit, x, frame + n * (unit + frame), fc);
  }

  /** The frame plus a chain of `n` mip levels lies between one block and one
      frame plus one block per level, and below 2^31 when those bounds times a
      frame count are. */
  lemma ChainBounds(frame: int, unit: int, n: nat, fc: int)
    requires frame >= 0 && unit >= 0 && fc >= 1 && (frame + n * (unit + frame)) * fc < TWO_31
    ensures var x := if n > 0 then frame + MipsSize(frame, unit, n) else frame;
            0 <= frame + n * unit <= x <= frame + n * (unit + frame) < TWO_31
  {
    var hi := frame + n * (unit + frame);
    MulLe(0, unit, n);
    MulLe(unit, unit + frame, n);
    assert 0 <= n * unit <= n * (unit + frame);
    MulLe(1, fc, hi);
    assert hi <= hi * fc;
    if n > 0 {
      MipsSizeBounds(frame, unit, n);
    }
  }

  /** BitmapDataLength with the mip chain of `n` levels spelled out; while the
      chain is in range its sum with the frame does not wrap. */
  lemma LengthUnfold(s: BitmapData, includeMips: bool)
    requires !(s.usesPadding && s.format == Unknown)
    ensures var (vw, vh) := StoredSize(s).value;
            var frame := FrameSize(vw, vh, s.format);
            var n := MipLevels(s, includeMips);
            var x := if n > 0 then frame + MipsSize(frame, MinMipUnit(s.format), n) else frame;
            IsInt32(x) ==> BitmapDataLength(s, includeMips) == Ok(Wrap32(x * Max(1, s.frameCount)))
  {
  }

  /** Scaling by a frame count keeps an in-range chain of bounds, and nothing wraps. */
  lemma ScaledBounds(lo: int, x: int, hi: int, fc: int)
    requires lo <= x <= hi && fc >= 1 && 0 <= lo && hi * fc < TWO_31
    ensures lo * fc <= x * fc <= hi * fc && Wrap32(x * fc) == x * fc
  {
    MulLe(lo, x, fc);
    MulLe(x, hi, fc);
  }

  /** The length wraps: one 8192 x 8192 A8R8G8B8 frame is 2^31 bytes, which
      GetBitmapDataLength reports as -2^28 (2^26 pixels times 32 bits wraps to
      -2^31 before the division by 8). */
  lemma LengthOverflows()
    ensures BitmapDataLength(BitmapData(8192, 8192, 1, 0, 1, A8R8G8B8, Texture2D, LittleEndian, false, false), false)
            == Ok(-268435456)
  {
    assert Wrap32(8192 * 8192) == 0x400_0000;
    assert Wrap32(0x400_0000 * 32) == -TWO_31;
    assert CsDiv(-TWO_31, 8) == -268435456;
  }

  /** MipmapCount == 0 forces the mip chain off, whatever the caller asks. */
  lemma NoMipsWithoutMipmaps(s: BitmapData)
    requires s.mipmapCount == 0
    ensures BitmapDataLength(s, true) == BitmapDataLength(s, false)
  {
  }
}
