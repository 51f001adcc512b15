/** The Xbox 360 block tiler: XGAddress2DTiledX/Y map a linear block index to tiled
    block coordinates, and XTextureScramble moves every block of a texture between
    its linear and its tiled position. */
module X360Tiling {

  import opened Wrappers
  import opened Numerics
  import opened Bytes
  import opened Int32
  import opened Formats
  import opened BlockCopies

  /** `logBPP = (texelPitch >> 2) + ((texelPitch >> 1) >> (texelPitch >> 2))`. */
  function LogBpp(pitch: bv32): bv32
  {
    Sar(pitch, 2) + Sar(Sar(pitch, 1), Sar(pitch, 2))
  }

  /** For the block sizes of the known formats logBPP is the base-2 logarithm. */
  lemma LogBppOfPitches()
    ensures LogBpp(1) == 0 && LogBpp(2) == 1 && LogBpp(4) == 2 && LogBpp(8) == 3 && LogBpp(16) == 4
  {
  }

  /** The part XGAddress2DTiledX and Y share: `logBPP`, `offsetB`, `offsetT` and `offsetM`. */
  datatype TiledOffsets = TiledOffsets(logBpp: bv32, offsetB: bv32, offsetT: bv32, offsetM: bv32)

  function Offsets(offset: bv32, pitch: bv32): TiledOffsets
  {
    var logBpp := LogBpp(pitch);
    var offsetB := Shl(offset, logBpp);
    var offsetT := Sar(offsetB & !4095, 3) + Sar(offsetB & 1792, 2) + (offsetB & 63);
    TiledOffsets(logBpp, offsetB, offsetT, Sar(offsetT, 7 + logBpp))
  }

  /** `alignedWidth >> 5`, the number of 32-block macro columns. */
  function MacroColumns(width: bv32): bv32
  {
    Sar((width + 31) & !31, 5)
  }

  /** The exception C# raises for `a % b` or `a / b` on ints, if any. */
  function DivisionFails(a: int, b: int): (r: Option<Failure>)
    ensures r.None? <==> b != 0 && !(a == -TWO_31 && b == -1)
  {
    if b == 0 then Some(DivideByZero)
    else if a == -TWO_31 && b == -1 then Some(Overflow)
    else None
  }

  /** XGAddress2DTiledX: the tiled x block coordinate of linear block `offset`
      in a texture `width` blocks wide. */
  function TiledX(offset: int, width: int, texelPitch: int): (r: Result<int>)
    ensures r.Ok? ==> IsInt32(r.value)
    ensures r.Err? <==> DivisionFails(FromBv(Offsets(ToBv(offset), ToBv(texelPitch)).offsetM),
                                      FromBv(MacroColumns(ToBv(width)))).Some?
  {
    var pitch := ToBv(texelPitch);
    var o := Offsets(ToBv(offset), pitch);
    var m, columns := FromBv(o.offsetM), FromBv(MacroColumns(ToBv(width)));
    match DivisionFails(m, columns)
    case Some(e) => Err(e)
    case None =>
      var macroX := Shl(ToBv(CsRem(m, columns)), 2);
      var tile := ((Sar(o.offsetT, 5 + o.logBpp) & 2) + Sar(o.offsetB, 6)) & 3;
      var macro := Shl(macroX + tile, 3);
      var micro := Sar(((Sar(o.offsetT, 1) & !15) + (o.offsetT & 15)) & (Shl(pitch, 3) - 1), o.logBpp);
      Ok(FromBv(macro + micro))
  }

  /** XGAddress2DTiledY: the tiled y block coordinate of linear block `offset`
      in a texture `width` blocks wide. */
  function TiledY(offset: int, width: int, texelPitch: int): (r: Result<int>)
    ensures r.Ok? ==> IsInt32(r.value)
    ensures r.Err? <==> DivisionFails(FromBv(Offsets(ToBv(offset), ToBv(texelPitch)).offsetM),
                                      FromBv(MacroColumns(ToBv(width)))).Some?
  {
    var pitch := ToBv(texelPitch);
    var o := Offsets(ToBv(offset), pitch);
    var m, columns := FromBv(o.offsetM), FromBv(MacroColumns(ToBv(width)));
    match DivisionFails(m, columns)
    case Some(e) => Err(e)
    case None =>
      var macroY := Shl(ToBv(CsDiv(m, columns)), 2);
      var tile := (Sar(o.offsetT, 6 + o.logBpp) & 1) + Sar(o.offsetB & 2048, 10);
      var macro := Shl(macroY + tile, 3);
      var micro := Sar((o.offsetT & ((Shl(pitch, 6) - 1) & !31)) + Shl(o.offsetT & 15, 1), 3 + o.logBpp) & !1;
      Ok(FromBv(macro + micro + Sar(o.offsetT & 16, 4)))
  }

  /** Block 37 of a 32-block-wide texture of 4-byte blocks lands at tiled (17, 1). */
  lemma TiledExample()
    ensures TiledX(37, 32, 4) == Ok(17) && TiledY(37, 32, 4) == Ok(1)
  {
    assert ToBv(37) == 37 && ToBv(32) == 32 && ToBv(4) == 4;
    assert LogBpp(4) == 2 by { LogBppOfPitches(); }
    assert Shl(37, 2) == 148;
    var b: bv32, a1: bv32, a2: bv32, t: bv32 := 148, 0, 0, 20;
    assert b & !4095 == a1 && b & 1792 == a2 && b & 63 == 20;
    assert Sar(a1, 3) == 0 && Sar(a2, 2) == 0 && Sar(t, 9) == 0;
    assert Offsets(37, 4) == TiledOffsets(2, 148, 20, 0);
    assert MacroColumns(32) == 1;
    assert FromBv(0) == 0 && FromBv(1) == 1;
    assert CsRem(0, 1) == 0 && CsDiv(0, 1) == 0 && ToBv(0) == 0;
  }

  /** The last block of a 32-by-32-block texture of 4-byte blocks stays in the last row. */
  lemma TiledLastExample()
    ensures TiledX(1023, 32, 4) == Ok(15) && TiledY(1023, 32, 4) == Ok(31)
  {
    assert ToBv(1023) == 1023 && ToBv(32) == 32 && ToBv(4) == 4;
    assert LogBpp(4) == 2 by { LogBppOfPitches(); }
    assert Shl(1023, 2) == 4092;
    var b: bv32, a1: bv32, a2: bv32, t: bv32 := 4092, 0, 1792, 508;
    assert b & !4095 == a1 && b & 1792 == a2 && b & 63 == 60;
    assert Sar(a1, 3) == 0 && Sar(a2, 2) == 448 && Sar(t, 9) == 0;
    assert Offsets(1023, 4) == TiledOffsets(2, 4092, 508, 0);
    assert MacroColumns(32) == 1;
    assert FromBv(0) == 0 && FromBv(1) == 1;
    assert CsRem(0, 1) == 0 && CsDiv(0, 1) == 0 && ToBv(0) == 0;
  }

  /** With 8-byte blocks block 100 of a 32-block-wide texture lands at tiled (6, 2). */
  lemma TiledWideExample()
    ensures TiledX(100, 32, 8) == Ok(6) && TiledY(100, 32, 8) == Ok(2)
  {
    assert ToBv(100) == 100 && ToBv(32) == 32 && ToBv(8) == 8;
    assert LogBpp(8) == 3 by { LogBppOfPitches(); }
    assert Shl(100, 3) == 800;
    var b: bv32, a1: bv32, a2: bv32, t: bv32 := 800, 0, 768, 224;
    assert b & !4095 == a1 && b & 1792 == a2 && b & 63 == 32;
    assert Sar(a1, 3) == 0 && Sar(a2, 2) == 192 && Sar(t, 10) == 0;
    assert Offsets(100, 8) == TiledOffsets(3, 800, 224, 0);
    assert MacroColumns(32) == 1;
    assert FromBv(0) == 0 && FromBv(1) == 1;
    assert CsRem(0, 1) == 0 && CsDiv(0, 1) == 0 && ToBv(0) == 0;
  }

  // ---------------------------------------------------------------------------
  // XTextureScramble
  // ---------------------------------------------------------------------------

  /** The sizes XTextureScramble works with: the dimensions rounded up to the tile
      size, `expectedSize`, the block counts and the bytes per block. */
  datatype Geometry = Geometry(width: int, height: int, expected: int, xBlocks: int, yBlocks: int, pitch: int)

  /** `(int)Math.Ceiling((float)v / tile) * tile`, with the single-precision
      conversion and division taken as exact: rounded up to the tile, wrapping
      on overflow. For |v| > 2^24 the float rounding can give another multiple. */
  function TileRound(v: int, tile: int): (r: int)
    requires tile > 0
    ensures IsInt32(r)
    ensures IsInt32(RoundUp(v, tile)) ==> r % tile == 0 && v <= r < v + tile
    ensures IsInt32(v) && v % tile == 0 ==> r == v
  {
    RoundUpBounds(v, tile);
    var r := Wrap32(CeilDiv(v, tile) * tile);
    if IsInt32(v) && v % tile == 0 then RoundUpOfMultiple(v, tile); r else r
  }

  function ScrambleGeometry(width: int, height: int, f: KnownTextureFormat): (g: Geometry)
    requires f != Unknown
    ensures IsInt32(g.width) && IsInt32(g.height) && IsInt32(g.expected) && IsInt32(g.xBlocks)
    ensures g.pitch == LinearTexelPitch(f)
  {
    LookupShapes(f);
    var w, h := TileRound(width, TileSize(f)), TileRound(height, TileSize(f));
    var expected := Wrap32(Wrap32(w * h) * Bpp(f));
    assert IsInt32(CsDiv(expected, 8));
    assert IsInt32(CsDiv(w, LinearBlockSize(f)));
    Geometry(w, h, CsDiv(expected, 8), CsDiv(w, LinearBlockSize(f)), CsDiv(h, LinearBlockSize(f)), LinearTexelPitch(f))
  }

  /** `Array.Resize(ref data, expected)` when `expected` exceeds the length: zeros are appended. */
  function Padded(data: seq<byte>, expected: int): (r: seq<byte>)
    ensures |r| == Max(|data|, expected) && r[..|data|] == data
    ensures forall i :: |data| <= i < |r| ==> r[i] == 0
  {
    if expected > |data| then data + Zeros(expected - |data|) else data
  }

  /** Both tiled coordinates `(x, y)` of linear block `offset`, as the loop computes them. */
  function TiledXY(offset: int, width: int, texelPitch: int): (r: Result<(int, int)>)
    ensures r.Ok? <==> TiledX(offset, width, texelPitch).Ok? && TiledY(offset, width, texelPitch).Ok?
    ensures r.Ok? ==> r.value == (TiledX(offset, width, texelPitch).value, TiledY(offset, width, texelPitch).value)
  {
    match TiledX(offset, width, texelPitch)
    case Err(e) => Err(e)
    case Ok(x) =>
      match TiledY(offset, width, texelPitch)
      case Err(e) => Err(e)
      case Ok(y) => Ok((x, y))
  }

  /** The tiled coordinates of the linear blocks of a texture of geometry `g`. */
  function Tiler(g: Geometry): int -> Result<(int, int)>
  {
    offset => TiledXY(offset, g.xBlocks, g.pitch)
  }

  /** The copy of block `(i, j)` as (destination, source) offsets in bytes: from linear
      `i * xBlocks + j` to tiled `y * xBlocks + x`, or back when `toLinear`, where
      `tiler` gives the tiled coordinates `(x, y)` of a linear block. */
  function BlockPlacement(g: Geometry, tiler: int -> Result<(int, int)>, toLinear: bool, i: int, j: int): Result<(int, int)>
  {
    var offset := Wrap32(Wrap32(i * g.xBlocks) + j);
    match tiler(offset)
    case Err(e) => Err(e)
    case Ok((x, y)) =>
      var source := Wrap32(Wrap32(Wrap32(i * g.xBlocks) * g.pitch) + Wrap32(j * g.pitch));
      var dest := Wrap32(Wrap32(Wrap32(y * g.xBlocks) * g.pitch) + Wrap32(x * g.pitch));
      if toLinear then Ok((source, dest)) else Ok((dest, source))
  }

  /** BlockPlacement as a function of the block. */
  function Placer(g: Geometry, tiler: int -> Result<(int, int)>, toLinear: bool): (int, int) -> Result<(int, int)>
  {
    (i, j) => BlockPlacement(g, tiler, toLinear, i, j)
  }

  /** The placements of blocks `0..n-1` of row `i`. */
  function RowPlacements(place: (int, int) -> Result<(int, int)>, i: int, n: nat): (r: seq<Result<(int, int)>>)
    ensures |r| == n
  {
    if n == 0 then [] else RowPlacements(place, i, n - 1) + [place(i, n - 1)]
  }

  /** The placements of rows `0..n-1`, `cols` blocks each, in loop order. */
  function GridPlacements(place: (int, int) -> Result<(int, int)>, cols: nat, n: nat): (r: seq<Result<(int, int)>>)
    ensures |r| == cols * n
  {
    if n == 0 then [] else GridPlacements(place, cols, n - 1) + RowPlacements(place, n - 1, cols)
  }

  lemma {:induction false} RowPrefix(place: (int, int) -> Result<(int, int)>, i: int, m: nat, n: nat)
    requires m <= n
    ensures RowPlacements(place, i, m) <= RowPlacements(place, i, n)
    decreases n
  {
    if m < n {
      RowPrefix(place, i, m, n - 1);
    }
  }

  lemma {:induction false} GridPrefix(place: (int, int) -> Result<(int, int)>, cols: nat, m: nat, n: nat)
    requires m <= n
    ensures GridPlacements(place, cols, m) <= GridPlacements(place, cols, n)
    decreases n
  {
    if m < n {
      GridPrefix(place, cols, m, n - 1);
    }
  }

  /** Placement `k` of the grid is block `(k / cols, k % cols)`. */
  lemma {:induction false} RowPlacementAt(place: (int, int) -> Result<(int, int)>, i: int, n: nat, j: nat)
    requires j < n
    ensures RowPlacements(place, i, n)[j] == place(i, j)
  {
    if j < n - 1 {
      RowPlacementAt(place, i, n - 1, j);
    }
  }

  lemma {:induction false} GridPlacementAt(place: (int, int) -> Result<(int, int)>, cols: nat, n: nat, k: nat)
    requires k < cols * n
    ensures GridPlacements(place, cols, n)[k] == place(k / cols, k % cols)
  {
    var before := cols * (n - 1);
    assert cols * n == before + cols;
    if k < before {
      GridPlacementAt(place, cols, n - 1, k);
    } else {
      assert before == (n - 1) * cols;
      DivUnique(k, cols, n - 1);
      RowPlacementAt(place, n - 1, cols, k - before);
    }
  }

  /** The block copies `ps`, in order, with `Array.Copy`; the first exception ends the run. */
  function Run(data: seq<byte>, ps: seq<Result<(int, int)>>, pitch: int, output: seq<byte>): (r: Result<seq<byte>>)
    ensures r.Ok? ==> |r.value| == |output|
  {
    if |ps| == 0 then Ok(output)
    else match Run(data, ps[..|ps| - 1], pitch, output)
      case Err(e) => Err(e)
      case Ok(out) =>
        match ps[|ps| - 1]
        case Err(e) => Err(e)
        case Ok(p) => ArrayCopy(data, p.1, out, p.0, pitch)
  }

  /** Once a copy has thrown, the rest of the run is not reached. */
  lemma {:induction false} RunStops(data: seq<byte>, ps: seq<Result<(int, int)>>, qs: seq<Result<(int, int)>>, pitch: int, output: seq<byte>)
    requires ps <= qs && Run(data, ps, pitch, output).Err?
    ensures Run(data, qs, pitch, output) == Run(data, ps, pitch, output)
    decreases |qs|
  {
    if |ps| < |qs| {
      assert ps <= qs[..|qs| - 1];
      RunStops(data, ps, qs[..|qs| - 1], pitch, output);
    } else {
      assert ps == qs;
    }
  }

  /** What XTextureScramble returns: the padded data with every block copied to its
      tiled place (or back to its linear place when `toLinear`) in a zeroed output. */
  function ScrambleSpec(data: seq<byte>, width: int, height: int, f: KnownTextureFormat, toLinear: bool): (r: Result<seq<byte>>)
    ensures f == Unknown ==> r == Err(UnknownFormat)
    ensures r.Ok? ==> f != Unknown && |r.value| == Max(|data|, ScrambleGeometry(width, height, f).expected)
  {
    if f == Unknown then Err(UnknownFormat)
    else
      var g := ScrambleGeometry(width, height, f);
      var padded := Padded(data, g.expected);
      var cols, rows := Max(g.xBlocks, 0), Max(g.yBlocks, 0);
      Run(padded, GridPlacements(Placer(g, Tiler(g), toLinear), cols, rows), g.pitch, Zeros(|padded|))
  }

  /** XTextureScramble(data, width, height, format, toLinear). */
  method XTextureScramble(data: seq<byte>, width: int, height: int, f: KnownTextureFormat, toLinear: bool)
    returns (r: Result<seq<byte>>)
    ensures r == ScrambleSpec(data, width, height, f, toLinear)
  {
    if f == Unknown {
      return Err(UnknownFormat);
    }
    var g := ScrambleGeometry(width, height, f);
    var padded := Padded(data, g.expected);
    r := MoveBlocks(padded, g.xBlocks, g.yBlocks, g.pitch, Placer(g, Tiler(g), toLinear));
  }

  /** The block loop of XTextureScramble: for each block `(i, j)` of `yBlocks` rows of
      `xBlocks`, `place` gives the copy's (destination, source) offsets, and `Array.Copy`
      moves `pitch` bytes of `data` into a zeroed output. */
  method MoveBlocks(data: seq<byte>, xBlocks: int, yBlocks: int, pitch: int, place: (int, int) -> Result<(int, int)>)
    returns (r: Result<seq<byte>>)
    ensures r == Run(data, GridPlacements(place, Max(xBlocks, 0), Max(yBlocks, 0)), pitch, Zeros(|data|))
  {
    var output := new byte[|data|](_ => 0);
    ghost var zeros := output[..];
    assert zeros == Zeros(|data|);
    ghost var cols, rows := Max(xBlocks, 0), Max(yBlocks, 0);
    ghost var all := GridPlacements(place, cols, rows);
    var i := 0;
    while i < yBlocks
      invariant 0 <= i <= rows
      invariant Run(data, GridPlacements(place, cols, i), pitch, zeros) == Ok(output[..])
    {
      ghost var before := GridPlacements(place, cols, i);
      GridPrefix(place, cols, i + 1, rows);
      assert before + RowPlacements(place, i, cols) == GridPlacements(place, cols, i + 1);
      var failure := MoveRow(data, output, i, xBlocks, pitch, place, before, zeros);
      if failure.Some? {
        RunStops(data, GridPlacements(place, cols, i + 1), all, pitch, zeros);
        return Err(failure.value);
      }
      i := i + 1;
    }
    assert i == rows;
    r := Ok(output[..]);
  }

  /** The inner loop of MoveBlocks: the blocks of row `i`, after the copies `before`. */
  method MoveRow(data: seq<byte>, output: array<byte>, i: int, xBlocks: int, pitch: int,
                 place: (int, int) -> Result<(int, int)>, ghost before: seq<Result<(int, int)>>, ghost zeros: seq<byte>)
    returns (failure: Option<Failure>)
    requires Run(data, before, pitch, zeros) == Ok(output[..])
    modifies output
    ensures var row := Run(data, before + RowPlacements(place, i, Max(xBlocks, 0)), pitch, zeros);
            if failure.None? then row == Ok(output[..]) else row == Err(failure.value)
  {
    ghost var cols := Max(xBlocks, 0);
    ghost var all := before + RowPlacements(place, i, cols);
    var j := 0;
    assert before + RowPlacements(place, i, 0) == before;
    while j < xBlocks
      invariant 0 <= j <= cols
      invariant Run(data, before + RowPlacements(place, i, j), pitch, zeros) == Ok(output[..])
    {
      ghost var done := before + RowPlacements(place, i, j + 1);
      assert done[..|done| - 1] == before + RowPlacements(place, i, j);
      RowPrefix(place, i, j + 1, cols);
      assert done <= all;
      var p := place(i, j);
      assert done[|done| - 1] == p;
      if p.Err? {
        RunStops(data, done, all, pitch, zeros);
        return Some(p.error);
      }
      var (dest, source) := p.value;
      ghost var prev := output[..];
      assert Run(data, done, pitch, zeros) == ArrayCopy(data, source, prev, dest, pitch);
      if !(InRange(data, source, pitch) && 0 <= dest && dest + pitch <= output.Length) {
        RunStops(data, done, all, pitch, zeros);
        return Some(ArrayCopy(data, source, output[..], dest, pitch).error);
      }
      CopyInto(data, source, output, dest, pitch);
      j := j + 1;
    }
    return None;
  }

  /** The overload without `toLinear`: linear data is tiled. */
  method XTextureScrambleTiled(data: seq<byte>, width: int, height: int, f: KnownTextureFormat)
    returns (r: Result<seq<byte>>)
    ensures r == ScrambleSpec(data, width, height, f, false)
  {
    r := XTextureScramble(data, width, height, f, false);
  }

  // ---------------------------------------------------------------------------
  // Where the blocks go
  // ---------------------------------------------------------------------------

  /** The linear block index `y * xBlocks + x` that linear block `k` is tiled to (-1 on an exception). */
  function TiledBlock(tiler: int -> Result<(int, int)>, k: int, xBlocks: int): int
  {
    match tiler(k)
    case Ok((x, y)) => y * xBlocks + x
    case Err(_) => -1
  }

  /** The hypothesis under which the tiler moves whole textures: every block of an
      `xBlocks` by `yBlocks` texture has tiled coordinates inside it, no two blocks
      share them, and no byte offset reaches 2^31. */
  ghost predicate TilingPermutes(tiler: int -> Result<(int, int)>, xBlocks: int, yBlocks: int, pitch: int)
  {
    && xBlocks > 0 && yBlocks > 0 && pitch > 0 && xBlocks * yBlocks * pitch < TWO_31
    && (forall k :: 0 <= k < xBlocks * yBlocks ==>
          tiler(k).Ok? && 0 <= tiler(k).value.0 < xBlocks && 0 <= tiler(k).value.1 < yBlocks)
    && (forall k, k' :: 0 <= k < k' < xBlocks * yBlocks ==> TiledBlock(tiler, k, xBlocks) != TiledBlock(tiler, k', xBlocks))
  }

  /** The (destination, source) byte offsets of the copy of each of the first `n` blocks:
      linear block `k` goes to tiled block `TiledBlock(k)`, or comes back from it when `toLinear`. */
  function BlockMoves(tiler: int -> Result<(int, int)>, n: nat, xBlocks: int, pitch: int, toLinear: bool): (r: seq<(int, int)>)
    ensures |r| == n
  {
    seq(n, k => var t := TiledBlock(tiler, k, xBlocks); if toLinear then (k * pitch, t * pitch) else (t * pitch, k * pitch))
  }

  /** Index arithmetic that stays below 2^31 does not wrap. */
  lemma NoWrap(a: int, b: int, w: int, pitch: int, n: int)
    requires 0 <= a && 0 <= b < w && a * w + b < n && pitch > 0 && n * pitch < TWO_31
    ensures Wrap32(Wrap32(a * w) + b) == a * w + b
    ensures Wrap32(Wrap32(Wrap32(a * w) * pitch) + Wrap32(b * pitch)) == (a * w + b) * pitch
    ensures 0 <= (a * w + b) * pitch && (a * w + b) * pitch + pitch <= n * pitch
  {
    var p := a * w;
    var c := p + b;
    var pp, bp := p * pitch, b * pitch;
    assert 0 <= p by { MulLe(0, a, w); }
    assert 0 <= c * pitch && c * pitch + pitch <= n * pitch by {
      MulLe(0, c, pitch);
      MulLe(c + 1, n, pitch);
      assert (c + 1) * pitch == c * pitch + pitch;
    }
    assert 0 <= pp <= c * pitch && 0 <= bp <= c * pitch && pp + bp == c * pitch by {
      MulLe(p, c, pitch);
      MulLe(b, c, pitch);
      MulLe(0, b, pitch);
      MulLe(0, p, pitch);
    }
    assert c < TWO_31 by { MulLe(1, pitch, c); }
    assert Wrap32(p) == p && Wrap32(p + b) == c;
    assert Wrap32(pp) == pp && Wrap32(bp) == bp && Wrap32(pp + bp) == pp + bp;
  }

  /** Cell `(a, b)` of an `h`-row grid of rows of `w` cells has index `a * w + b` below `w * h`. */
  lemma CellIndex(a: int, b: int, w: int, h: int)
    requires 0 <= a < h && 0 <= b < w
    ensures 0 <= a * w + b < w * h
  {
    MulLe(a + 1, h, w);
    MulLe(0, a, w);
  }

  /** Index `k` of such a grid is the cell `(k / w, k % w)`. */
  lemma CellOfIndex(k: int, w: int, h: int)
    requires 0 <= k < w * h && w > 0
    ensures 0 <= k / w < h && 0 <= k % w < w && k == (k / w) * w + k % w
  {
    if k / w >= h {
      MulLe(h, k / w, w);
    }
  }

  /** The tiled coordinates of block `k` under the hypothesis. */
  lemma TiledInside(tiler: int -> Result<(int, int)>, xb: int, yb: int, tp: int, k: int) returns (x: int, y: int)
    requires TilingPermutes(tiler, xb, yb, tp) && 0 <= k < xb * yb
    ensures 0 <= x < xb && 0 <= y < yb && tiler(k) == Ok((x, y))
    ensures TiledBlock(tiler, k, xb) == y * xb + x && 0 <= y * xb + x < xb * yb
  {
    x, y := tiler(k).value.0, tiler(k).value.1;
    CellIndex(y, x, xb, yb);
  }

  /** Block `(i, j)` whose tiled coordinates are `(x, y)` is copied between byte offsets
      `(i * xBlocks + j) * pitch` and `(y * xBlocks + x) * pitch` when nothing wraps. */
  lemma PlacementOfCell(g: Geometry, tiler: int -> Result<(int, int)>, toLinear: bool, i: int, j: int, x: int, y: int, n: int)
    requires 0 <= i && 0 <= j < g.xBlocks && i * g.xBlocks + j < n
    requires 0 <= y && 0 <= x < g.xBlocks && y * g.xBlocks + x < n
    requires g.pitch > 0 && n * g.pitch < TWO_31
    requires tiler(i * g.xBlocks + j) == Ok((x, y))
    ensures var k, t := i * g.xBlocks + j, y * g.xBlocks + x;
            BlockPlacement(g, tiler, toLinear, i, j) == Ok(if toLinear then (k * g.pitch, t * g.pitch) else (t * g.pitch, k * g.pitch))
  {
    NoWrap(i, j, g.xBlocks, g.pitch, n);
    NoWrap(y, x, g.xBlocks, g.pitch, n);
  }

  /** Under the hypothesis, block `k` is copied between byte offsets `k * pitch` and
      `TiledBlock(k) * pitch`, both whole blocks inside the texture. */
  lemma PlacementOfBlock(g: Geometry, tiler: int -> Result<(int, int)>, toLinear: bool, k: int)
    requires TilingPermutes(tiler, g.xBlocks, g.yBlocks, g.pitch) && 0 <= k < g.xBlocks * g.yBlocks
    ensures var t := TiledBlock(tiler, k, g.xBlocks);
            && 0 <= t < g.xBlocks * g.yBlocks
            && BlockPlacement(g, tiler, toLinear, k / g.xBlocks, k % g.xBlocks)
               == Ok(if toLinear then (k * g.pitch, t * g.pitch) else (t * g.pitch, k * g.pitch))
  {
    var xb, yb, tp := g.xBlocks, g.yBlocks, g.pitch;
    CellOfIndex(k, xb, yb);
    var x, y := TiledInside(tiler, xb, yb, tp, k);
    PlacementOfCell(g, tiler, toLinear, k / xb, k % xb, x, y, xb * yb);
  }

  /** Under the hypothesis the grid's placements are exactly BlockMoves, in order. */
  lemma PlacementsAreMoves(g: Geometry, tiler: int -> Result<(int, int)>, toLinear: bool)
    requires TilingPermutes(tiler, g.xBlocks, g.yBlocks, g.pitch)
    ensures var ps := GridPlacements(Placer(g, tiler, toLinear), g.xBlocks, g.yBlocks);
            var moves := BlockMoves(tiler, g.xBlocks * g.yBlocks, g.xBlocks, g.pitch, toLinear);
            |ps| == |moves| && forall k :: 0 <= k < |ps| ==> ps[k] == Ok(moves[k])
  {
    var ps := GridPlacements(Placer(g, tiler, toLinear), g.xBlocks, g.yBlocks);
    var moves := BlockMoves(tiler, g.xBlocks * g.yBlocks, g.xBlocks, g.pitch, toLinear);
    forall k | 0 <= k < |ps|
      ensures ps[k] == Ok(moves[k])
    {
      GridPlacementAt(Placer(g, tiler, toLinear), g.xBlocks, g.yBlocks, k);
      PlacementOfBlock(g, tiler, toLinear, k);
    }
  }

  /** Under the hypothesis the moves are whole blocks inside the texture with distinct destinations. */
  lemma MovesFit(tiler: int -> Result<(int, int)>, xb: int, yb: int, tp: int, toLinear: bool)
    requires TilingPermutes(tiler, xb, yb, tp)
    ensures Fits(BlockMoves(tiler, xb * yb, xb, tp, toLinear), xb * yb * tp, tp)
  {
    var n := xb * yb;
    var moves := BlockMoves(tiler, n, xb, tp, toLinear);
    forall k | 0 <= k < n
      ensures 0 <= moves[k].0 && moves[k].0 + tp <= n * tp && 0 <= moves[k].1 && moves[k].1 + tp <= n * tp
    {
      var x, y := TiledInside(tiler, xb, yb, tp, k);
      CellInside(k, n, tp);
      CellInside(y * xb + x, n, tp);
    }
    forall k, k' | 0 <= k < k' < n
      ensures Apart(moves[k].0, moves[k'].0, tp)
    {
      var x, y := TiledInside(tiler, xb, yb, tp, k);
      var x', y' := TiledInside(tiler, xb, yb, tp, k');
      if toLinear {
        CellsApart(k, k', tp);
      } else {
        CellsApart(y * xb + x, y' * xb + x', tp);
      }
    }
  }

  /** Copies that are all placed and fit are the plain splices. */
  lemma {:induction false} RunIsSpliced(data: seq<byte>, ps: seq<Result<(int, int)>>, moves: seq<(int, int)>, pitch: int, output: seq<byte>)
    requires |ps| == |moves| && (forall k :: 0 <= k < |ps| ==> ps[k] == Ok(moves[k]))
    requires |output| == |data| && Fits(moves, |data|, pitch)
    ensures Run(data, ps, pitch, output) == Ok(Spliced(data, moves, pitch, output))
  {
    if |ps| > 0 {
      var n := |ps| - 1;
      assert Fits(moves[..n], |data|, pitch);
      RunIsSpliced(data, ps[..n], moves[..n], pitch, output);
      assert ps[n] == Ok(moves[n]);
    }
  }

  /** Under the hypothesis the block loop moves every block as BlockMoves says. */
  lemma GridMoves(data: seq<byte>, g: Geometry, tiler: int -> Result<(int, int)>, toLinear: bool, output: seq<byte>)
    requires TilingPermutes(tiler, g.xBlocks, g.yBlocks, g.pitch)
    requires |data| == g.xBlocks * g.yBlocks * g.pitch && |output| == |data|
    ensures var moves := BlockMoves(tiler, g.xBlocks * g.yBlocks, g.xBlocks, g.pitch, toLinear);
            var r := Run(data, GridPlacements(Placer(g, tiler, toLinear), g.xBlocks, g.yBlocks), g.pitch, output);
            r.Ok? && |r.value| == |data| && Wrote(r.value, data, moves, g.pitch)
  {
    var moves := BlockMoves(tiler, g.xBlocks * g.yBlocks, g.xBlocks, g.pitch, toLinear);
    PlacementsAreMoves(g, tiler, toLinear);
    MovesFit(tiler, g.xBlocks, g.yBlocks, g.pitch, toLinear);
    RunIsSpliced(data, GridPlacements(Placer(g, tiler, toLinear), g.xBlocks, g.yBlocks), moves, g.pitch, output);
    SplicedWrites(data, moves, g.pitch, output);
  }

  /** XTextureScramble moves each `texelPitch`-byte block between linear block
      `i * xBlocks + j` and tiled block `y * xBlocks + x`: to the tiled one when tiling,
      back from it when `toLinear`, for a texture whose tiler is a permutation and whose
      data holds exactly its blocks. */
  lemma ScrambleMovesBlocks(data: seq<byte>, width: int, height: int, f: KnownTextureFormat, toLinear: bool)
    requires f != Unknown
    requires var g := ScrambleGeometry(width, height, f);
             TilingPermutes(Tiler(g), g.xBlocks, g.yBlocks, g.pitch)
             && |data| == g.xBlocks * g.yBlocks * g.pitch && g.expected <= |data|
    ensures var g := ScrambleGeometry(width, height, f);
            var r := ScrambleSpec(data, width, height, f, toLinear);
            r.Ok? && |r.value| == |data|
            && Wrote(r.value, data, BlockMoves(Tiler(g), g.xBlocks * g.yBlocks, g.xBlocks, g.pitch, toLinear), g.pitch)
  {
    var g := ScrambleGeometry(width, height, f);
    assert Padded(data, g.expected) == data;
    assert Max(g.xBlocks, 0) == g.xBlocks && Max(g.yBlocks, 0) == g.yBlocks;
    GridMoves(data, g, Tiler(g), toLinear, Zeros(|data|));
  }

  /** Moving every block to its tiled place and then fetching it back restores every block. */
  lemma MovesCancel(data: seq<byte>, mid: seq<byte>, back: seq<byte>, tiler: int -> Result<(int, int)>, n: nat, xb: int, tp: int)
    requires tp > 0 && |data| == n * tp && |back| == n * tp
    requires Wrote(mid, data, BlockMoves(tiler, n, xb, tp, false), tp)
    requires Wrote(back, mid, BlockMoves(tiler, n, xb, tp, true), tp)
    ensures back == data
  {
    var ps, qs := BlockMoves(tiler, n, xb, tp, false), BlockMoves(tiler, n, xb, tp, true);
    forall k | 0 <= k < n
      ensures 0 <= k * tp && k * tp + tp <= |back| && back[k * tp..k * tp + tp] == data[k * tp..k * tp + tp]
    {
      CellReturns(data, mid, back, ps, qs, tp, k, k * tp);
    }
    CellsDetermine(back, data, tp, n);
  }

  /** Tiling and then untiling a texture whose tiler is a permutation gives the data back. */
  lemma ScrambleRoundTrip(data: seq<byte>, width: int, height: int, f: KnownTextureFormat)
    requires f != Unknown
    requires var g := ScrambleGeometry(width, height, f);
             TilingPermutes(Tiler(g), g.xBlocks, g.yBlocks, g.pitch)
             && |data| == g.xBlocks * g.yBlocks * g.pitch && g.expected <= |data|
    ensures var mid := ScrambleSpec(data, width, height, f, false);
            mid.Ok? && ScrambleSpec(mid.value, width, height, f, true) == Ok(data)
  {
    var g := ScrambleGeometry(width, height, f);
    ScrambleMovesBlocks(data, width, height, f, false);
    var mid := ScrambleSpec(data, width, height, f, false).value;
    ScrambleMovesBlocks(mid, width, height, f, true);
    var back := ScrambleSpec(mid, width, height, f, true).value;
    MovesCancel(data, mid, back, Tiler(g), g.xBlocks * g.yBlocks, g.xBlocks, g.pitch);
  }
}
