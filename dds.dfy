/** The two TextureUtils.GetDds entry points: the direct one, which only picks
    a DDS pixel format, and the pipeline over a submap descriptor, which
    byte-swaps, de-tiles and crops the payload before picking the format and
    filling in the cube-map, array and mip fields. */
module Dds {

  import opened Wrappers
  import opened Numerics
  import opened Bytes
  import opened Formats
  import opened TextureSize
  import Int32
  import DdsFormats
  import EndianSwap
  import Crop
  import X360Tiling

  /** The fields of the DdsImage the engine builds.  `arraySize` and
      `mipmapCount` are None where GetDds leaves the library's default. */
  datatype DdsImage = DdsImage(
    height: int,
    width: int,
    format: DdsFormats.DdsFormat,
    data: seq<byte>,
    cubemapAllFaces: bool,
    arraySize: Option<int>,
    mipmapCount: Option<int>)

  /** The pixel-format choice: dxgiLookup first, then xboxLookup, otherwise
      BitmapFormatNotSupported. */
  function DdsFormatOf(f: KnownTextureFormat): (r: Result<DdsFormats.DdsFormat>)
    ensures r.Err? ==> r.error == FormatNotSupported
    ensures r.Err? <==> f in {Unknown, ARGBFP32, RGBFP32, RGBFP16} || f.Other?
    ensures r.Ok? && r.value.Dxgi? ==> DxgiLookup(f) == Some(r.value.dxgi)
    ensures r.Ok? && r.value.Xbox? ==> DxgiLookup(f).None? && XboxLookup(f) == Some(r.value.xbox)
  {
    LookupDomains(f);
    if DxgiLookup(f).Some? then Ok(DdsFormats.Dxgi(DxgiLookup(f).value))
    else if XboxLookup(f).Some? then Ok(DdsFormats.Xbox(XboxLookup(f).value))
    else Err(FormatNotSupported)
  }

  /** GetDds(height, width, format, isCubemap, data, isPC): an unknown format
      is rejected, DXN on PC is written as the Xbox DXN_SNorm format, and the
      payload is passed through untouched. */
  function GetDdsOf(height: int, width: int, f: KnownTextureFormat, isCubemap: bool,
                    data: seq<byte>, isPC: bool): (r: Result<DdsImage>)
    ensures f == Unknown ==> r == Err(UnknownFormat)
    ensures f != Unknown && isPC && f == DXN ==> r.Ok? && r.value.format == DdsFormats.Xbox(DdsFormats.DXN_SNorm)
    ensures f != Unknown && !(isPC && f == DXN) ==>
              (r.Ok? <==> DdsFormatOf(f).Ok?) && (r.Ok? ==> r.value.format == DdsFormatOf(f).value)
                && (r.Err? ==> r == Err(FormatNotSupported))
    ensures r.Ok? ==> r.value.height == height && r.value.width == width && r.value.data == data
    ensures r.Ok? ==> r.value.cubemapAllFaces == isCubemap
                      && r.value.arraySize.None? && r.value.mipmapCount.None?
  {
    if f == Unknown then Err(UnknownFormat)
    else
      var fmt := if isPC && f == DXN then Ok(DdsFormats.Xbox(DdsFormats.DXN_SNorm)) else DdsFormatOf(f);
      match fmt
      case Err(e) => Err(e)
      case Ok(d) => Ok(DdsImage(height, width, d, data, isCubemap, None, None))
  }

  // ---------------------------------------------------------------------
  // The height handed to the tiler: every frame, plus the mip chain.
  // ---------------------------------------------------------------------

  /** `Math.Pow(0.25, i)`, exact as a real. */
  function Quarter(i: nat): (r: real)
    ensures 0.0 < r <= 1.0
    ensures i >= 1 ==> r <= 0.25
  {
    if i == 0 then 1.0 else Quarter(i - 1) / 4.0
  }

  /** `mipsHeight` after the loop: the sum of `arrayHeight * 0.25^i` for i in 1..n. */
  function MipsHeightSum(a: int, n: nat): real
  {
    if n == 0 then 0.0 else MipsHeightSum(a, n - 1) + (a as real) * Quarter(n)
  }

  /** The geometric series in closed form: `3 * sum == a * (1 - 0.25^n)`. */
  lemma {:induction false} MipsHeightClosedForm(a: int, n: nat)
    ensures 3.0 * MipsHeightSum(a, n) == (a as real) * (1.0 - Quarter(n))
  {
    if n > 0 {
      MipsHeightClosedForm(a, n - 1);
      var x, q := a as real, Quarter(n);
      assert Quarter(n - 1) == 4.0 * q;
      assert x * Quarter(n - 1) == 4.0 * (x * q);
    }
  }

  /** For a non-negative height the chain of n >= 1 levels is at least a
      quarter of it and at most a third. */
  lemma MipsHeightBounds(a: int, n: nat)
    requires a >= 0
    ensures 0.0 <= 3.0 * MipsHeightSum(a, n) <= a as real
    ensures n >= 1 ==> 4.0 * MipsHeightSum(a, n) >= a as real
  {
    MipsHeightClosedForm(a, n);
    var x, q := a as real, Quarter(n);
    assert 0.0 <= x * q <= x;
    if n >= 1 {
      assert x * q <= x * 0.25;
    }
  }

  /** The conversion `(int)` of a double: truncation toward zero. */
  function TruncReal(x: real): int
  {
    if x >= 0.0 then x.Floor else -((-x).Floor)
  }

  /** C#'s `%` on doubles: the remainder of the quotient truncated toward zero. */
  function CsFmod(x: real, y: real): real
    requires y != 0.0
  {
    x - y * (TruncReal(x / y) as real)
  }

  /** `m += (minUnit - (m % minUnit)) % minUnit`. */
  function RoundUpToUnit(m: real, u: int): real
    requires u > 0
  {
    var ur := u as real;
    m + CsFmod(ur - CsFmod(m, ur), ur)
  }

  /** The rounding step for a block edge of 4: the sum `m` is `4q + fr` with
      `0 <= fr < 4`, and the step adds `(4 - fr) % 4`. */
  lemma RoundUpToFour(m: real)
    requires m >= 0.0
    ensures var r := RoundUpToUnit(m, 4);
            && r == TruncReal(r) as real && TruncReal(r) % 4 == 0 && m <= r < m + 4.0
  {
    var q := (m / 4.0).Floor;
    assert TruncReal(m / 4.0) == q;
    var fr := m - 4.0 * (q as real);
    assert CsFmod(m, 4.0) == fr && 0.0 <= fr < 4.0;
    var k := if fr == 0.0 then q else q + 1;
    assert TruncReal((4.0 - fr) / 4.0) == if fr == 0.0 then 1 else 0;
    assert RoundUpToUnit(m, 4) == (4 * k) as real;
    assert TruncReal((4 * k) as real) == 4 * k;
  }

  /** The rounding step for a block edge of 1: `m` becomes its ceiling. */
  lemma RoundUpToOne(m: real)
    requires m >= 0.0
    ensures var r := RoundUpToUnit(m, 1);
            && r == TruncReal(r) as real && m <= r < m + 1.0
  {
    var q := m.Floor;
    assert TruncReal(m / 1.0) == q;
    var fr := m - (q as real);
    assert CsFmod(m, 1.0) == fr && 0.0 <= fr < 1.0;
    var k := if fr == 0.0 then q else q + 1;
    assert TruncReal((1.0 - fr) / 1.0) == if fr == 0.0 then 1 else 0;
    assert RoundUpToUnit(m, 1) == k as real;
    assert TruncReal(k as real) == k;
  }

  /** For a non-negative sum and a block edge of 1 or 4, the rounding step lands
      on the least multiple of the block edge that is not below the sum. */
  lemma RoundUpToUnitShape(m: real, u: int)
    requires m >= 0.0 && (u == 1 || u == 4)
    ensures var r := RoundUpToUnit(m, u);
            && r == TruncReal(r) as real
            && TruncReal(r) % u == 0
            && m <= r < m + u as real
  {
    if u == 1 {
      RoundUpToOne(m);
    } else {
      RoundUpToFour(m);
    }
  }

  /** `(int)mipsHeight` after rounding, for `n` mip levels of a stack `a` rows high. */
  function MipsRows(a: int, n: int, f: KnownTextureFormat): int
  {
    LookupShapes(f);
    TruncReal(RoundUpToUnit(MipsHeightSum(a, Max(n, 0)), LinearBlockSize(f)))
  }

  /** The mip rows are the sum rounded up to whole blocks: a multiple of the
      block edge, within one block above the exact sum, hence below a third of
      the stack plus one block and, with at least one level, at least a quarter
      of it. */
  lemma MipsRowsShape(a: int, n: int, f: KnownTextureFormat)
    requires a >= 0
    ensures var rows, u, m := MipsRows(a, n, f), LinearBlockSize(f), MipsHeightSum(a, Max(n, 0));
            && m <= rows as real < m + u as real
            && rows >= 0 && rows % u == 0
            && 3 * rows < a + 3 * u
            && (n >= 1 ==> 4 * rows >= a)
  {
    LookupShapes(f);
    var m := MipsHeightSum(a, Max(n, 0));
    MipsHeightBounds(a, Max(n, 0));
    RoundUpToUnitShape(m, LinearBlockSize(f));
  }

  /** `arrayHeight`: the stored height of one frame times `max(1, FrameCount)`,
      plus the rounded mip rows of every frame when mips are included, all in
      int32 arithmetic. */
  function ArrayHeight(vh: int, frameCount: int, mipmapCount: int, useMips: bool, f: KnownTextureFormat): int
  {
    var frames := Max(1, frameCount);
    var stack := Int32.Wrap32(vh * frames);
    if !useMips then stack
    else Int32.Wrap32(stack + Int32.Wrap32(MipsRows(stack, mipmapCount, f) * frames))
  }

  /** Without wrap-around the tiled height is the frame stack plus, with mips,
      `frames` times the rounded mip rows of the whole stack: a multiple of the
      block edge, at least a quarter and less than a third of the stack plus
      one block. */
  lemma ArrayHeightShape(vh: int, frameCount: int, mipmapCount: int, useMips: bool, f: KnownTextureFormat)
    requires vh >= 0
    requires var frames := Max(1, frameCount); vh * frames * (frames + 3) + 12 * frames < 3 * TWO_31
    ensures var frames, u := Max(1, frameCount), LinearBlockSize(f);
            var h := ArrayHeight(vh, frameCount, mipmapCount, useMips, f);
            && (!useMips ==> h == vh * frames)
            && (useMips ==>
                  var rows := MipsRows(vh * frames, mipmapCount, f);
                  && h == vh * frames + rows * frames
                  && rows % u == 0
                  && 3 * rows < vh * frames + 3 * u
                  && (mipmapCount >= 1 ==> 4 * rows >= vh * frames))
  {
    var frames := Max(1, frameCount);
    var stack := vh * frames;
    StackFits(stack, 0, frames);
    assert Int32.Wrap32(stack) == stack;
    if useMips {
      LookupShapes(f);
      var rows := MipsRows(stack, mipmapCount, f);
      MipsRowsShape(stack, mipmapCount, f);
      StackFits(stack, rows, frames);
      assert Int32.Wrap32(rows * frames) == rows * frames;
      assert Int32.Wrap32(stack + rows * frames) == stack + rows * frames;
    }
  }

  /** The int32 bound behind ArrayHeightShape: a stack plus `frames` times
      fewer than a third of it plus four rows. */
  lemma StackFits(stack: int, rows: int, frames: int)
    requires stack >= 0 && frames >= 1 && 0 <= rows && 3 * rows <= stack + 12
    requires stack * (frames + 3) + 12 * frames < 3 * TWO_31
    ensures 0 <= rows * frames && 0 <= stack + rows * frames < TWO_31
  {
    MulLe(4, frames + 3, stack);
    MulLe(3 * rows, stack + 12, frames);
    assert (stack + 12) * frames == stack * frames + 12 * frames;
    assert stack * (frames + 3) == stack * frames + 3 * stack;
    assert (3 * rows) * frames == 3 * (rows * frames);
  }

  // ---------------------------------------------------------------------
  // The payload stages.
  // ---------------------------------------------------------------------

  /** Whether the in-place endian swap runs: big-endian data with a unit of more than one byte. */
  predicate Swaps(s: BitmapData)
  {
    s.byteOrder == BigEndian && LinearUnitSize(s.format) > 1
  }

  /** The buffer after the swap loop, which reverses every whole unit. */
  function Swapped(s: BitmapData, data: seq<byte>): (r: seq<byte>)
    ensures |r| == |data|
  {
    if Swaps(s) then EndianSwap.ChunkReverse(data, LinearUnitSize(s.format)) else data
  }

  /** The swap loop throws (Array.Reverse past the end) when two or more
      bytes of a partial unit are left. */
  function SwapFails(s: BitmapData, data: seq<byte>): bool
  {
    Swaps(s) && |data| % LinearUnitSize(s.format) >= 2
  }

  /** The per-face crop geometry: the block rows and row strides of one face
      at the stored and at the logical size. */
  function FaceGeometry(f: KnownTextureFormat, inWidth: int, inHeight: int, outWidth: int, outHeight: int): (g: Crop.CropGeometry)
    ensures LinearBlockSize(f) > 0
    // the block rows are the fewest that cover each height
    ensures (g.inRows - 1) * LinearBlockSize(f) < inHeight <= g.inRows * LinearBlockSize(f)
    ensures (g.outRows - 1) * LinearBlockSize(f) < outHeight <= g.outRows * LinearBlockSize(f)
    // a stride is a whole number of blocks, enough for its width
    ensures g.inStride % LinearTexelPitch(f) == 0 && g.outStride % LinearTexelPitch(f) == 0
    ensures inWidth <= g.inStride / LinearTexelPitch(f) * LinearBlockSize(f)
    ensures outWidth <= g.outStride / LinearTexelPitch(f) * LinearBlockSize(f)
    // a face cropped to a logical size within its stored size never reads past a stored row
    ensures outHeight <= inHeight ==> g.outRows <= g.inRows
    ensures outWidth <= inWidth ==> g.outStride <= g.inStride
  {
    LookupShapes(f);
    var blockLen, blockSize := LinearBlockSize(f), LinearTexelPitch(f);
    var inBlocks, outBlocks := CeilDiv(inWidth, blockLen), CeilDiv(outWidth, blockLen);
    MulMod(inBlocks, blockSize);
    MulMod(outBlocks, blockSize);
    assert outHeight <= inHeight ==> CeilDiv(outHeight, blockLen) <= CeilDiv(inHeight, blockLen) by {
      if outHeight <= inHeight {
        CeilDivMono(outHeight, inHeight, blockLen);
      }
    }
    assert outWidth <= inWidth ==> outBlocks * blockSize <= inBlocks * blockSize by {
      if outWidth <= inWidth {
        CeilDivMono(outWidth, inWidth, blockLen);
        MulLe(outBlocks, inBlocks, blockSize);
      }
    }
    Crop.CropGeometry(CeilDiv(inHeight, blockLen), CeilDiv(outHeight, blockLen),
                      CeilDiv(inWidth, blockLen) * blockSize, CeilDiv(outWidth, blockLen) * blockSize)
  }

  /** The crop GetDds evidently intends: each of the `max(1, FrameCount)`
      faces keeps the block rows of its logical height, read from a face that
      is as high as the stored height. */
  function FaceCrop(data: seq<byte>, f: KnownTextureFormat, faces: int,
                    inWidth: int, inHeight: int, outWidth: int, outHeight: int): Result<seq<byte>>
  {
    if outWidth >= inWidth && outHeight >= inHeight then Ok(data)
    else if f == Unknown then Err(UnknownFormat)
    else Crop.CropCopy(data, FaceGeometry(f, inWidth, inHeight, outWidth, outHeight), Max(1, faces))
  }

  /** The crop as GetDds writes it: ApplyCrop is given the per-face heights
      together with FrameCount faces, and ApplyCrop divides the row counts by
      the number of faces. */
  function CropAsWritten(data: seq<byte>, f: KnownTextureFormat, faces: int,
                         inWidth: int, inHeight: int, outWidth: int, outHeight: int): Result<seq<byte>>
  {
    Crop.Crop(data, f, faces, inWidth, inHeight, outWidth, outHeight)
  }

  /** A padded DXT1 cube map stored at 128x128 for 100x100 faces: the crop
      as written keeps 4 of the 25 block rows of each face, and reads face 1
      from row 5 of face 0 instead of from the start of face 1 (row 32). */
  lemma CropAsWrittenLosesRows()
    ensures var g := Crop.Geometry(DXT1, 6, 128, 128, 100, 100);
            && g.inRows == 5 && g.outRows == 4
            && CeilDiv(128, 4) == 32 && CeilDiv(100, 4) == 25
            && Crop.RowSource(g, 1, 0) == 5 * g.inStride
            && g.inStride == 32 * 8
  {
    var g := Crop.Geometry(DXT1, 6, 128, 128, 100, 100);
    assert CeilDiv(128, 4) == 32;
    assert CeilDiv(100, 4) == 25;
    assert CsDiv(32, 6) == 5;
    assert CsDiv(25, 6) == 4;
  }

  /** With FrameCount 0 the crop as written divides by zero, while the
      corrected crop crops one face, as the length and the array height count it. */
  lemma CropAsWrittenZeroFaces(data: seq<byte>, f: KnownTextureFormat,
                               inWidth: int, inHeight: int, outWidth: int, outHeight: int)
    requires f != Unknown && !(outWidth >= inWidth && outHeight >= inHeight)
    ensures CropAsWritten(data, f, 0, inWidth, inHeight, outWidth, outHeight) == Err(DivideByZero)
    ensures FaceCrop(data, f, 0, inWidth, inHeight, outWidth, outHeight)
            == FaceCrop(data, f, 1, inWidth, inHeight, outWidth, outHeight)
  {
  }

  /** The corrected crop keeps every block row of every face: the output has
      `outRows * outStride` bytes per face, and row `s` of face `k` is the
      first `outStride` bytes of row `s` of the stored face `k`. */
  lemma FaceCropRows(data: seq<byte>, f: KnownTextureFormat, faces: int,
                     inWidth: int, inHeight: int, outWidth: int, outHeight: int)
    requires f != Unknown && !(outWidth >= inWidth && outHeight >= inHeight)
    requires outHeight > 0 && outWidth >= 0
    ensures var g := FaceGeometry(f, inWidth, inHeight, outWidth, outHeight);
            var n := Max(1, faces);
            var r := FaceCrop(data, f, faces, inWidth, inHeight, outWidth, outHeight);
            && g.outRows == CeilDiv(outHeight, LinearBlockSize(f)) > 0
            && (r.Ok? ==>
                  && |r.value| == g.outRows * g.outStride * n
                  && forall k, s {:trigger Crop.RowSource(g, k, s)} :: 0 <= k < n && 0 <= s < g.outRows ==>
                       && 0 <= Crop.RowSource(g, k, s) && Crop.RowSource(g, k, s) + g.outStride <= |data|
                       && 0 <= Crop.RowTarget(g, k, s) && Crop.RowTarget(g, k, s) + g.outStride <= |r.value|
                       && r.value[Crop.RowTarget(g, k, s)..Crop.RowTarget(g, k, s) + g.outStride]
                          == data[Crop.RowSource(g, k, s)..Crop.RowSource(g, k, s) + g.outStride])
  {
    var g := FaceGeometry(f, inWidth, inHeight, outWidth, outHeight);
    var n := Max(1, faces);
    LookupShapes(f);
    assert g.outRows > 0;
    assert g.outStride >= 0;
    assert g.outRows * g.outStride * n >= 0 by {
      assert g.outRows * g.outStride >= 0;
    }
    Crop.CropRows(data, g, n);
  }

  /** The corrected crop, with ApplyCrop's steps and FaceGeometry's row counts. */
  method CropFaces(data: seq<byte>, f: KnownTextureFormat, faces: int,
                   inWidth: int, inHeight: int, outWidth: int, outHeight: int) returns (r: Result<seq<byte>>)
    ensures r == FaceCrop(data, f, faces, inWidth, inHeight, outWidth, outHeight)
  {
    if outWidth >= inWidth && outHeight >= inHeight {
      return Ok(data);
    }
    if f == Unknown {
      return Err(UnknownFormat);
    }
    var g := FaceGeometry(f, inWidth, inHeight, outWidth, outHeight);
    var n := Max(1, faces);
    var total := g.outRows * g.outStride * n;
    if total < 0 {
      return Err(Overflow);
    }
    var output := new byte[total](_ => 0);
    if g.outRows <= 0 {
      assert output[..] == Zeros(total);
      return Ok(output[..]);
    }
    Crop.StrideNotNegative(g, n);
    r := Crop.CopyFaces(data, g, n, output);
  }

  /** The payload after the tiler (over the whole frame-and-mip stack, when
      swizzled) and the crop of each face (when the stored size exceeds the
      logical one). */
  function Reshaped(s: BitmapData, vw: int, vh: int, height: int, swapped: seq<byte>): Result<seq<byte>>
  {
    var tiled := if s.swizzled then X360Tiling.ScrambleSpec(swapped, vw, height, s.format, false) else Ok(swapped);
    match tiled
    case Err(e) => Err(e)
    case Ok(t) =>
      if vw > s.width || vh > s.height then FaceCrop(t, s.format, s.frameCount, vw, vh, s.width, s.height)
      else Ok(t)
  }

  /** The image around the final payload, or BitmapFormatNotSupported. */
  function ImageOf(s: BitmapData, useMips: bool, payload: seq<byte>): (r: Result<DdsImage>)
  {
    match DdsFormatOf(s.format)
    case Err(e) => Err(e)
    case Ok(fmt) =>
      Ok(DdsImage(s.height, s.width, fmt, payload, s.textureType == CubeMap,
                  if s.textureType == Array then Some(s.frameCount) else None,
                  if useMips then Some(s.mipmapCount + 1) else None))
  }

  /** What GetDds(submap, data, includeMips) returns for the payload `data`:
      the stored size (a padded unknown format throws), the endian swap, the
      tiler and the crop, and the format choice. */
  function DdsSpec(s: BitmapData, data: seq<byte>, includeMips: bool): (r: Result<DdsImage>)
    ensures r.Ok? ==> DdsFormatOf(s.format) == Ok(r.value.format)
    ensures r.Ok? ==> r.value.height == s.height && r.value.width == s.width
    ensures r.Ok? ==> (r.value.cubemapAllFaces <==> s.textureType == CubeMap)
    ensures r.Ok? ==> r.value.arraySize == (if s.textureType == Array then Some(s.frameCount) else None)
    ensures r.Ok? ==> (r.value.mipmapCount.Some? <==> includeMips && s.mipmapCount != 0)
    ensures r.Ok? && r.value.mipmapCount.Some? ==> r.value.mipmapCount.value == s.mipmapCount + 1
    ensures s.usesPadding && s.format == Unknown ==> r == Err(UnknownFormat)
    ensures StoredSize(s).Ok? && SwapFails(s, data) ==> r == Err(ArgumentInvalid)
  {
    var useMips := CountsMips(s, includeMips);
    match StoredSize(s)
    case Err(e) => Err(e)
    case Ok((vw, vh)) =>
      if SwapFails(s, data) then Err(ArgumentInvalid)
      else
        var height := ArrayHeight(vh, s.frameCount, s.mipmapCount, useMips, s.format);
        match Reshaped(s, vw, vh, height, Swapped(s, data))
        case Err(e) => Err(e)
        case Ok(c) => ImageOf(s, useMips, c)
  }

  /** The `arrayHeight` computation of GetDds, with its mip loop. */
  method StackHeight(vh: int, frameCount: int, mipmapCount: int, useMips: bool, f: KnownTextureFormat)
    returns (arrayHeight: int)
    ensures arrayHeight == ArrayHeight(vh, frameCount, mipmapCount, useMips, f)
  {
    var frames := Max(1, frameCount);
    arrayHeight := Int32.Wrap32(vh * frames);
    ghost var stack := arrayHeight;
    if useMips {
      var mipsHeight := 0.0;
      var i := 1;
      while i <= mipmapCount
        invariant 1 <= i <= Max(mipmapCount, 0) + 1
        invariant mipsHeight == MipsHeightSum(arrayHeight, i - 1)
        decreases mipmapCount - i
      {
        mipsHeight := mipsHeight + (arrayHeight as real) * Quarter(i);
        i := i + 1;
      }
      assert mipsHeight == MipsHeightSum(stack, Max(mipmapCount, 0));
      LookupShapes(f);
      mipsHeight := RoundUpToUnit(mipsHeight, LinearBlockSize(f));
      assert TruncReal(mipsHeight) == MipsRows(stack, mipmapCount, f);
      arrayHeight := Int32.Wrap32(arrayHeight + Int32.Wrap32(TruncReal(mipsHeight) * frames));
    }
  }

  /** The tiler and crop stages of GetDds. */
  method Reshape(s: BitmapData, vw: int, vh: int, height: int, swapped: seq<byte>) returns (r: Result<seq<byte>>)
    ensures r == Reshaped(s, vw, vh, height, swapped)
  {
    var payload := swapped;
    if s.swizzled {
      var t := X360Tiling.XTextureScramble(payload, vw, height, s.format, false);
      if t.Err? {
        return Err(t.error);
      }
      payload := t.value;
    }
    if vw > s.width || vh > s.height {
      r := CropFaces(payload, s.format, s.frameCount, vw, vh, s.width, s.height);
    } else {
      r := Ok(payload);
    }
  }

  /** The last stage of GetDds: the format choice and the three optional fields. */
  method MakeImage(s: BitmapData, useMips: bool, payload: seq<byte>) returns (r: Result<DdsImage>)
    ensures r == ImageOf(s, useMips, payload)
  {
    var fmt;
    if DxgiLookup(s.format).Some? {
      fmt := DdsFormats.Dxgi(DxgiLookup(s.format).value);
    } else if XboxLookup(s.format).Some? {
      fmt := DdsFormats.Xbox(XboxLookup(s.format).value);
    } else {
      return Err(FormatNotSupported);
    }
    var dds := DdsImage(s.height, s.width, fmt, payload, false, None, None);
    if s.textureType == CubeMap {
      dds := dds.(cubemapAllFaces := true);
    }
    if s.textureType == Array {
      dds := dds.(arraySize := Some(s.frameCount));
    }
    if useMips {
      dds := dds.(mipmapCount := Some(s.mipmapCount + 1));
    }
    r := Ok(dds);
  }

  /** GetDds(submap, data, includeMips).  The caller's buffer is byte-swapped in
      place once the stored size is known, whether or not a later stage throws. */
  method GetDds(s: BitmapData, data: array<byte>, includeMips: bool) returns (r: Result<DdsImage>)
    modifies data
    ensures r == DdsSpec(s, old(data[..]), includeMips)
    ensures data[..] == if StoredSize(s).Ok? then Swapped(s, old(data[..])) else old(data[..])
  {
    var useMips := includeMips;
    if s.mipmapCount == 0 {
      useMips := false;
    }
    var vw, vh;
    if !s.usesPadding {
      vw, vh := s.width, s.height;
    } else {
      var v := VirtualSize(s.format, s.width, s.height);
      if v.Err? {
        return Err(v.error);
      }
      vw, vh := v.value.0, v.value.1;
    }
    assert StoredSize(s) == Ok((vw, vh));
    ghost var input := data[..];
    if s.byteOrder == BigEndian {
      var unitSize := LinearUnitSize(s.format);
      if unitSize > 1 {
        var ok := EndianSwap.ReverseUnits(data, unitSize);
        if !ok {
          return Err(ArgumentInvalid);
        }
      }
    }
    assert !SwapFails(s, input) && data[..] == Swapped(s, input);
    assert useMips == CountsMips(s, includeMips);
    var arrayHeight := StackHeight(vh, s.frameCount, s.mipmapCount, useMips, s.format);
    var payload := Reshape(s, vw, vh, arrayHeight, data[..]);
    if payload.Err? {
      return Err(payload.error);
    }
    r := MakeImage(s, useMips, payload.value);
  }

  // ---------------------------------------------------------------------
  // Properties of the pipeline.
  // ---------------------------------------------------------------------

  /** A linear, unpadded, little-endian payload with a supported format is
      handed to the DDS image unchanged, and the pipeline then agrees with the
      direct GetDds for the same dimensions and cube-map flag. */
  lemma PlainPayloadPassesThrough(s: BitmapData, data: seq<byte>, includeMips: bool)
    requires s.byteOrder == LittleEndian && !s.swizzled && !s.usesPadding && DdsFormatOf(s.format).Ok?
    ensures DdsSpec(s, data, includeMips).Ok? && DdsSpec(s, data, includeMips).value.data == data
    ensures s.textureType != Array && !CountsMips(s, includeMips) ==>
              DdsSpec(s, data, includeMips) == GetDdsOf(s.height, s.width, s.format, s.textureType == CubeMap, data, false)
  {
  }

  /** A big-endian payload of whole units comes out with every unit reversed,
      and reversing the units of the result again gives back the input. */
  lemma BigEndianPayloadReversed(s: BitmapData, data: seq<byte>, includeMips: bool)
    requires s.byteOrder == BigEndian && !s.swizzled && !s.usesPadding && DdsFormatOf(s.format).Ok?
    requires |data| % LinearUnitSize(s.format) == 0
    ensures var r := DdsSpec(s, data, includeMips);
            && r.Ok?
            && (LinearUnitSize(s.format) > 1 ==>
                  && r.value.data == EndianSwap.ChunkReverse(data, LinearUnitSize(s.format))
                  && EndianSwap.ChunkReverse(r.value.data, LinearUnitSize(s.format)) == data)
            && (LinearUnitSize(s.format) == 1 ==> r.value.data == data)
  {
    LookupShapes(s.format);
    var u := LinearUnitSize(s.format);
    var useMips := CountsMips(s, includeMips);
    var height := ArrayHeight(s.height, s.frameCount, s.mipmapCount, useMips, s.format);
    assert StoredSize(s) == Ok((s.width, s.height));
    assert !SwapFails(s, data);
    assert Reshaped(s, s.width, s.height, height, Swapped(s, data)) == Ok(Swapped(s, data));
    assert DdsSpec(s, data, includeMips) == ImageOf(s, useMips, Swapped(s, data));
    if u > 1 {
      EndianSwap.ChunkReverseInvolution(data, u);
    }
  }

  /** The format choice never depends on the payload: two payloads either both
      fail the format lookup or both get the same DDS format. */
  lemma FormatIndependentOfPayload(s: BitmapData, d1: seq<byte>, d2: seq<byte>, includeMips: bool)
    requires DdsSpec(s, d1, includeMips).Ok? && DdsSpec(s, d2, includeMips).Ok?
    ensures DdsSpec(s, d1, includeMips).value.format == DdsSpec(s, d2, includeMips).value.format
    ensures DdsSpec(s, d1, includeMips).value.(data := DdsSpec(s, d2, includeMips).value.data) == DdsSpec(s, d2, includeMips).value
  {
  }
}
