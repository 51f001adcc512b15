/** TextureUtils.ApplyCrop: copy the logical rows of each face out of a padded
    payload, block row by block row. */
module Crop {

  import opened Wrappers
  import opened Numerics
  import opened Bytes
  import opened Formats

  /** Block rows per face and bytes per block row, before and after the crop. */
  datatype CropGeometry = CropGeometry(inRows: int, outRows: int, inStride: int, outStride: int)

  /** The row counts and strides ApplyCrop derives (the row counts divided by `faces`). */
  function Geometry(f: KnownTextureFormat, faces: int, inWidth: int, inHeight: int, outWidth: int, outHeight: int): CropGeometry
    requires faces != 0
  {
    LookupShapes(f);
    var blockLen, blockSize := LinearBlockSize(f), LinearTexelPitch(f);
    CropGeometry(
      CsDiv(CeilDiv(inHeight, blockLen), faces),
      CsDiv(CeilDiv(outHeight, blockLen), faces),
      CeilDiv(inWidth, blockLen) * blockSize,
      CeilDiv(outWidth, blockLen) * blockSize)
  }

  /** Where row `s` of face `f` starts in the padded input. */
  function RowSource(g: CropGeometry, f: int, s: int): int
  {
    g.inRows * g.inStride * f + g.inStride * s
  }

  /** Where row `s` of face `f` starts in the output. */
  function RowTarget(g: CropGeometry, f: int, s: int): int
  {
    g.outRows * g.outStride * f + g.outStride * s
  }

  /** The Array.Copy of one row: `outStride` bytes from RowSource, or the exception it throws. */
  function CopyRow(data: seq<byte>, g: CropGeometry, f: int, s: int): (r: Result<seq<byte>>)
    requires g.outStride >= 0
    ensures r.Ok? ==> InRange(data, RowSource(g, f, s), g.outStride)
                      && r.value == data[RowSource(g, f, s)..RowSource(g, f, s) + g.outStride]
    ensures r.Err? <==> !InRange(data, RowSource(g, f, s), g.outStride)
  {
    var src := RowSource(g, f, s);
    if src < 0 then Err(ArgumentOutOfRange)
    else if src + g.outStride > |data| then Err(ArgumentInvalid)
    else Ok(data[src..src + g.outStride])
  }

  /** Rows 0..n-1 of face `f`, one after the other, or the first failing copy. */
  function FaceRows(data: seq<byte>, g: CropGeometry, f: int, n: nat): (r: Result<seq<byte>>)
    requires g.outStride >= 0
    ensures r.Ok? ==> |r.value| == n * g.outStride
  {
    if n == 0 then Ok([])
    else match FaceRows(data, g, f, n - 1)
      case Err(e) => Err(e)
      case Ok(acc) =>
        match CopyRow(data, g, f, n - 1)
        case Err(e) => Err(e)
        case Ok(row) =>
          assert n * g.outStride == (n - 1) * g.outStride + g.outStride;
          Ok(acc + row)
  }

  /** Faces 0..n-1, one after the other, or the first failing copy. */
  function FacesCopied(data: seq<byte>, g: CropGeometry, n: nat): (r: Result<seq<byte>>)
    requires g.outStride >= 0 && g.outRows >= 0
    ensures r.Ok? ==> |r.value| == n * (g.outRows * g.outStride)
  {
    if n == 0 then Ok([])
    else match FacesCopied(data, g, n - 1)
      case Err(e) => Err(e)
      case Ok(acc) =>
        match FaceRows(data, g, n - 1, g.outRows)
        case Err(e) => Err(e)
        case Ok(rows) =>
          assert n * (g.outRows * g.outStride) == (n - 1) * (g.outRows * g.outStride) + g.outRows * g.outStride;
          Ok(acc + rows)
  }

  /** What ApplyCrop returns. */
  function Crop(data: seq<byte>, f: KnownTextureFormat, faces: int,
                inWidth: int, inHeight: int, outWidth: int, outHeight: int): Result<seq<byte>>
  {
    if outWidth >= inWidth && outHeight >= inHeight then Ok(data)
    else if f == Unknown then Err(UnknownFormat)
    else if faces == 0 then Err(DivideByZero)
    else CropCopy(data, Geometry(f, faces, inWidth, inHeight, outWidth, outHeight), faces)
  }

  /** The copying stage of ApplyCrop: allocate `outRows * outStride * faces` zero
      bytes (a negative length overflows) and copy every face's rows into it. */
  function CropCopy(data: seq<byte>, g: CropGeometry, faces: int): Result<seq<byte>>
  {
    var total := g.outRows * g.outStride * faces;
    if total < 0 then Err(Overflow)
    else if faces > 0 && g.outRows > 0 then
      StrideNotNegative(g, faces);
      FacesCopied(data, g, faces)
    else Ok(Zeros(total))
  }

  /** An error in a face's rows is the error of every longer run of rows. */
  lemma {:induction false} FaceRowsErrStays(data: seq<byte>, g: CropGeometry, f: int, n: nat, m: nat)
    requires g.outStride >= 0 && n <= m && FaceRows(data, g, f, n).Err?
    ensures FaceRows(data, g, f, m) == FaceRows(data, g, f, n)
    decreases m - n
  {
    if n < m {
      FaceRowsErrStays(data, g, f, n, m - 1);
    }
  }

  lemma {:induction false} FacesErrStays(data: seq<byte>, g: CropGeometry, n: nat, m: nat)
    requires g.outStride >= 0 && g.outRows >= 0 && n <= m && FacesCopied(data, g, n).Err?
    ensures FacesCopied(data, g, m) == FacesCopied(data, g, n)
    decreases m - n
  {
    if n < m {
      FacesErrStays(data, g, n, m - 1);
    }
  }

  /** One more row of a face is the rows so far followed by that row's copy. */
  lemma FaceRowsStep(data: seq<byte>, g: CropGeometry, f: int, n: nat)
    requires g.outStride >= 0 && FaceRows(data, g, f, n).Ok? && InRange(data, RowSource(g, f, n), g.outStride)
    ensures FaceRows(data, g, f, n + 1)
            == Ok(FaceRows(data, g, f, n).value + data[RowSource(g, f, n)..RowSource(g, f, n) + g.outStride])
  {
  }

  /** Consecutive rows of a face are `outStride` apart in the output. */
  lemma RowTargetStep(g: CropGeometry, f: int, s: int)
    ensures RowTarget(g, f, s + 1) == RowTarget(g, f, s) + g.outStride
  {
  }

  /** The row after a face's last row is the next face's first row. */
  lemma FaceTargetStep(g: CropGeometry, f: int)
    ensures RowTarget(g, f, g.outRows) == RowTarget(g, f + 1, 0)
  {
  }

  /** Every row of face `f < faces` at `s < outRows` ends inside the output. */
  lemma RowTargetBound(g: CropGeometry, faces: int, f: int, s: int)
    requires g.outStride >= 0 && 0 <= f < faces && 0 <= s < g.outRows
    ensures RowTarget(g, f, s + 1) <= RowTarget(g, faces, 0)
  {
    var rows, stride := g.outRows, g.outStride;
    var face := rows * stride;
    assert face >= 0;
    MulLe(s + 1, rows, stride);
    MulLe(f + 1, faces, face);
    assert face * f + stride * (s + 1) <= face * (f + 1) by {
      assert face * (f + 1) == face * f + face;
      assert stride * (s + 1) == (s + 1) * stride;
    }
  }

  /** Face `f <= faces` starts inside the output. */
  lemma FaceTargetBound(g: CropGeometry, faces: int, f: int)
    requires g.outStride >= 0 && g.outRows >= 0 && 0 <= f <= faces
    ensures 0 <= RowTarget(g, f, 0) <= RowTarget(g, faces, 0)
  {
    MulLe(f, faces, g.outRows * g.outStride);
  }

  /** When the output length `outRows * outStride * faces` is not negative for
      positive `faces` and `outRows`, the stride is not negative either. */
  lemma StrideNotNegative(g: CropGeometry, faces: int)
    requires faces > 0 && g.outRows > 0 && g.outRows * g.outStride * faces >= 0
    ensures g.outStride >= 0
    ensures RowTarget(g, faces, 0) == g.outRows * g.outStride * faces
  {
    var rows, stride := g.outRows, g.outStride;
    if stride < 0 {
      var k := rows * faces;
      MulLe(1, k, -stride);
    }
  }

  /** Row `s` of face `fc`, copied to its place right after the rows before it. */
  method CopyFaceRow(data: seq<byte>, g: CropGeometry, faces: int, fc: int, s: nat, output: array<byte>,
                     ghost done: seq<byte>)
    requires g.outStride >= 0 && 0 <= fc < faces && s < g.outRows
    requires output.Length == RowTarget(g, faces, 0)
    requires FaceRows(data, g, fc, s).Ok? && InRange(data, RowSource(g, fc, s), g.outStride)
    requires 0 <= RowTarget(g, fc, s) <= output.Length
    requires output[..RowTarget(g, fc, s)] == done + FaceRows(data, g, fc, s).value
    modifies output
    ensures FaceRows(data, g, fc, s + 1).Ok? && 0 <= RowTarget(g, fc, s + 1) <= output.Length
    ensures output[..RowTarget(g, fc, s + 1)] == done + FaceRows(data, g, fc, s + 1).value
  {
    var src := RowSource(g, fc, s);
    var dst := RowTarget(g, fc, s);
    RowTargetStep(g, fc, s);
    RowTargetBound(g, faces, fc, s);
    ghost var acc := FaceRows(data, g, fc, s).value;
    AppendInto(data, src, output, dst, g.outStride, done + acc);
    FaceRowsStep(data, g, fc, s);
    assert (done + acc) + data[src..src + g.outStride] == done + (acc + data[src..src + g.outStride]);
  }

  /** The rows of face `fc`, appended to the output after the faces before it;
      `Some(e)` when a row copy throws `e`. */
  method CopyFace(data: seq<byte>, g: CropGeometry, faces: int, fc: int, output: array<byte>)
      returns (e: Option<Failure>)
    requires g.outStride >= 0 && g.outRows > 0 && 0 <= fc < faces
    requires output.Length == RowTarget(g, faces, 0)
    modifies output
    ensures e.None? <==> FaceRows(data, g, fc, g.outRows).Ok?
    ensures e.Some? ==> e.value == FaceRows(data, g, fc, g.outRows).error
    ensures e.None? ==> output[..RowTarget(g, fc + 1, 0)]
                        == old(output[..RowTarget(g, fc, 0)]) + FaceRows(data, g, fc, g.outRows).value
  {
    FaceTargetBound(g, faces, fc);
    ghost var done := output[..RowTarget(g, fc, 0)];
    var s := 0;
    while s < g.outRows
      invariant 0 <= s <= g.outRows
      invariant FaceRows(data, g, fc, s).Ok?
      invariant 0 <= RowTarget(g, fc, s) <= output.Length
      invariant output[..RowTarget(g, fc, s)] == done + FaceRows(data, g, fc, s).value
    {
      var src := RowSource(g, fc, s);
      var dst := RowTarget(g, fc, s);
      if src < 0 || src + g.outStride > |data| {
        FaceRowsErrStays(data, g, fc, s + 1, g.outRows);
        if src < 0 {
          return Some(ArgumentOutOfRange);
        } else {
          return Some(ArgumentInvalid);
        }
      }
      CopyFaceRow(data, g, faces, fc, s, output, done);
      s := s + 1;
    }
    FaceTargetStep(g, fc);
    e := None;
  }

  /** The face loop of ApplyCrop over a fresh output of the right length. */
  method CopyFaces(data: seq<byte>, g: CropGeometry, faces: int, output: array<byte>)
      returns (r: Result<seq<byte>>)
    requires g.outStride >= 0 && g.outRows > 0 && faces > 0
    requires output.Length == RowTarget(g, faces, 0)
    modifies output
    ensures r == FacesCopied(data, g, faces)
  {
    var fc := 0;
    FaceTargetBound(g, faces, fc);
    while fc < faces
      invariant 0 <= fc <= faces
      invariant 0 <= RowTarget(g, fc, 0) <= output.Length
      invariant FacesCopied(data, g, fc).Ok?
      invariant output[..RowTarget(g, fc, 0)] == FacesCopied(data, g, fc).value
    {
      var e := CopyFace(data, g, faces, fc, output);
      if e.Some? {
        FacesErrStays(data, g, fc + 1, faces);
        return Err(e.value);
      }
      FaceTargetBound(g, faces, fc + 1);
      fc := fc + 1;
    }
    assert output[..] == output[..RowTarget(g, faces, 0)];
    r := Ok(output[..]);
  }

  /** ApplyCrop. */
  method ApplyCrop(data: seq<byte>, f: KnownTextureFormat, faces: int,
                   inWidth: int, inHeight: int, outWidth: int, outHeight: int) returns (r: Result<seq<byte>>)
    ensures r == Crop(data, f, faces, inWidth, inHeight, outWidth, outHeight)
  {
    if outWidth >= inWidth && outHeight >= inHeight {
      return Ok(data);
    }
    if f == Unknown {
      return Err(UnknownFormat);
    }
    if faces == 0 {
      return Err(DivideByZero);
    }
    var g := Geometry(f, faces, inWidth, inHeight, outWidth, outHeight);
    var total := g.outRows * g.outStride * faces;
    if total < 0 {
      return Err(Overflow);
    }
    var output := new byte[total](_ => 0);
    if !(faces > 0 && g.outRows > 0) {
      assert output[..] == Zeros(total);
      return Ok(output[..]);
    }
    StrideNotNegative(g, faces);
    r := CopyFaces(data, g, faces, output);
  }

  lemma SliceOfPrefix<T>(x: seq<T>, y: seq<T>, i: int, j: int)
    requires 0 <= i <= j <= |x|
    ensures (x + y)[i..j] == x[i..j]
  {
  }

  lemma SliceOfSuffix<T>(x: seq<T>, y: seq<T>, i: int, j: int)
    requires |x| <= i <= j <= |x| + |y|
    ensures (x + y)[i..j] == y[i - |x|..j - |x|]
  {
  }

  /** Row `s < n` of a face's rows is the input row RowSource(g, f, s). */
  lemma {:induction false} FaceRowsAt(data: seq<byte>, g: CropGeometry, f: int, n: nat, s: int)
    requires g.outStride >= 0 && FaceRows(data, g, f, n).Ok? && 0 <= s < n
    ensures InRange(data, RowSource(g, f, s), g.outStride)
    ensures var rows, o := FaceRows(data, g, f, n).value, g.outStride;
            0 <= o * s && o * s + o <= |rows|
            && rows[o * s..o * s + o] == data[RowSource(g, f, s)..RowSource(g, f, s) + o]
  {
    var o := g.outStride;
    var acc := FaceRows(data, g, f, n - 1).value;
    var row := CopyRow(data, g, f, n - 1).value;
    assert FaceRows(data, g, f, n).value == acc + row;
    if s < n - 1 {
      FaceRowsAt(data, g, f, n - 1, s);
      RowInPrefix(acc, row, data, RowSource(g, f, s), o, s, n - 1);
    } else {
      RowIsLast(acc, row, data, RowSource(g, f, s), o, s);
    }
  }

  /** Row `s` of the first `k` rows is still in place once another row is appended. */
  lemma RowInPrefix<T>(acc: seq<T>, row: seq<T>, data: seq<T>, src: int, o: int, s: int, k: int)
    requires o >= 0 && 0 <= s < k && |acc| == k * o
    requires 0 <= src && src + o <= |data|
    requires 0 <= o * s && o * s + o <= |acc| && acc[o * s..o * s + o] == data[src..src + o]
    ensures 0 <= o * s && o * s + o <= |acc + row| && (acc + row)[o * s..o * s + o] == data[src..src + o]
  {
    SliceOfPrefix(acc, row, o * s, o * s + o);
  }

  /** The appended row sits at `o * s` when `s` rows of `o` come before it. */
  lemma RowIsLast<T>(acc: seq<T>, row: seq<T>, data: seq<T>, src: int, o: int, s: int)
    requires o >= 0 && 0 <= s && |acc| == s * o
    requires 0 <= src && src + o <= |data| && row == data[src..src + o]
    ensures 0 <= o * s && o * s + o <= |acc + row| && (acc + row)[o * s..o * s + o] == data[src..src + o]
  {
    assert o * s == |acc|;
    SliceOfSuffix(acc, row, o * s, o * s + o);
  }

  /** A face's rows copy without error exactly when every one of its input rows is in range. */
  lemma {:induction false} FaceRowsOk(data: seq<byte>, g: CropGeometry, f: int, n: nat)
    requires g.outStride >= 0
    ensures FaceRows(data, g, f, n).Ok? <==>
            forall s :: 0 <= s < n ==> InRange(data, RowSource(g, f, s), g.outStride)
  {
    if n > 0 {
      FaceRowsOk(data, g, f, n - 1);
    }
  }

  /** All faces copy without error exactly when every input row of every face is in range. */
  lemma {:induction false} FacesOk(data: seq<byte>, g: CropGeometry, n: nat)
    requires g.outStride >= 0 && g.outRows >= 0
    ensures FacesCopied(data, g, n).Ok? <==>
            forall f, s :: 0 <= f < n && 0 <= s < g.outRows ==> InRange(data, RowSource(g, f, s), g.outStride)
  {
    if n > 0 {
      FacesOk(data, g, n - 1);
      FaceRowsOk(data, g, n - 1, g.outRows);
    }
  }

  /** The copied faces are those before the last followed by the last face's rows. */
  lemma FacesSplit(data: seq<byte>, g: CropGeometry, n: nat)
    requires g.outStride >= 0 && g.outRows >= 0 && n > 0 && FacesCopied(data, g, n).Ok?
    ensures FacesCopied(data, g, n - 1).Ok? && FaceRows(data, g, n - 1, g.outRows).Ok?
    ensures FacesCopied(data, g, n).value
            == FacesCopied(data, g, n - 1).value + FaceRows(data, g, n - 1, g.outRows).value
  {
  }

  /** Row `s` of the last face sits right after the faces before it. */
  lemma LastFaceAt(data: seq<byte>, g: CropGeometry, acc: seq<byte>, n: nat, s: int)
    requires g.outStride >= 0 && g.outRows >= 0 && n > 0 && 0 <= s < g.outRows
    requires |acc| == (n - 1) * (g.outRows * g.outStride) && FaceRows(data, g, n - 1, g.outRows).Ok?
    ensures var out, t, o := acc + FaceRows(data, g, n - 1, g.outRows).value, RowTarget(g, n - 1, s), g.outStride;
            0 <= t && t + o <= |out| && InRange(data, RowSource(g, n - 1, s), o)
            && out[t..t + o] == data[RowSource(g, n - 1, s)..RowSource(g, n - 1, s) + o]
  {
    var o := g.outStride;
    var face := g.outRows * o;
    var src := RowSource(g, n - 1, s);
    assert RowTarget(g, n - 1, s) == face * (n - 1) + o * s;
    assert face * (n - 1) == (n - 1) * face;
    FaceRowsAt(data, g, n - 1, g.outRows, s);
    SliceOfSuffixIs(acc, FaceRows(data, g, n - 1, g.outRows).value, RowTarget(g, n - 1, s), o * s, o,
                    data[src..src + o]);
  }

  /** Row `s` of face `f` sits at RowTarget(g, f, s) in the copied faces. */
  lemma {:induction false} FacesAt(data: seq<byte>, g: CropGeometry, n: nat, f: int, s: int)
    requires g.outStride >= 0 && g.outRows >= 0 && FacesCopied(data, g, n).Ok?
    requires 0 <= f < n && 0 <= s < g.outRows
    ensures var out, t, o := FacesCopied(data, g, n).value, RowTarget(g, f, s), g.outStride;
            0 <= t && t + o <= |out| && InRange(data, RowSource(g, f, s), o)
            && out[t..t + o] == data[RowSource(g, f, s)..RowSource(g, f, s) + o]
  {
    FacesSplit(data, g, n);
    var acc := FacesCopied(data, g, n - 1).value;
    if f < n - 1 {
      FacesAt(data, g, n - 1, f, s);
      var src := RowSource(g, f, s);
      SliceOfPrefixIs(acc, FaceRows(data, g, n - 1, g.outRows).value, RowTarget(g, f, s), g.outStride,
                      data[src..src + g.outStride]);
    } else {
      LastFaceAt(data, g, acc, n, s);
    }
  }

  lemma SliceOfPrefixIs<T>(x: seq<T>, y: seq<T>, t: int, o: int, z: seq<T>)
    requires 0 <= t && 0 <= o && t + o <= |x| && x[t..t + o] == z
    ensures t + o <= |x + y| && (x + y)[t..t + o] == z
  {
    SliceOfPrefix(x, y, t, t + o);
  }

  lemma SliceOfSuffixIs<T>(x: seq<T>, y: seq<T>, t: int, u: int, o: int, z: seq<T>)
    requires t == |x| + u && 0 <= u && 0 <= o && u + o <= |y| && y[u..u + o] == z
    ensures 0 <= t && t + o <= |x + y| && (x + y)[t..t + o] == z
  {
    SliceOfSuffix(x, y, t, t + o);
  }

  /** What ApplyCrop promises once it copies (at least one face and one row, and a
      non-negative output length): it succeeds exactly when every input row lies
      inside `data`, and then the output is `outRows * outStride * faces` bytes in
      which row `s` of face `f`, at RowTarget(g, f, s), is the `outStride` bytes
      that start at RowSource(g, f, s) in the input. */
  lemma CropRows(data: seq<byte>, g: CropGeometry, faces: int)
    requires faces > 0 && g.outRows > 0 && g.outRows * g.outStride * faces >= 0
    ensures var r := CropCopy(data, g, faces);
            && (r.Ok? <==> forall f, s :: 0 <= f < faces && 0 <= s < g.outRows ==>
                                           InRange(data, RowSource(g, f, s), g.outStride))
            && (r.Ok? ==> |r.value| == g.outRows * g.outStride * faces
                          && forall f, s :: 0 <= f < faces && 0 <= s < g.outRows ==>
                               0 <= RowTarget(g, f, s) && RowTarget(g, f, s) + g.outStride <= |r.value|
                               && InRange(data, RowSource(g, f, s), g.outStride)
                               && r.value[RowTarget(g, f, s)..RowTarget(g, f, s) + g.outStride]
                               == data[RowSource(g, f, s)..RowSource(g, f, s) + g.outStride])
  {
    StrideNotNegative(g, faces);
    FacesOk(data, g, faces);
    var r := CropCopy(data, g, faces);
    assert r == FacesCopied(data, g, faces);
    if r.Ok? {
      assert |r.value| == faces * (g.outRows * g.outStride);
      forall f, s | 0 <= f < faces && 0 <= s < g.outRows
        ensures 0 <= RowTarget(g, f, s) && RowTarget(g, f, s) + g.outStride <= |r.value|
                && InRange(data, RowSource(g, f, s), g.outStride)
                && r.value[RowTarget(g, f, s)..RowTarget(g, f, s) + g.outStride]
                == data[RowSource(g, f, s)..RowSource(g, f, s) + g.outStride]
      {
        FacesAt(data, g, faces, f, s);
      }
    }
  }

  /** The cases ApplyCrop settles before copying: no crop returns the input itself,
      an unknown format and zero faces throw, a negative output length overflows,
      and with no face or no row to copy the output is all zeros. */
  lemma CropEdgeCases(data: seq<byte>, fmt: KnownTextureFormat, faces: int,
                      inWidth: int, inHeight: int, outWidth: int, outHeight: int)
    ensures var r := Crop(data, fmt, faces, inWidth, inHeight, outWidth, outHeight);
            && (outWidth >= inWidth && outHeight >= inHeight ==> r == Ok(data))
            && (!(outWidth >= inWidth && outHeight >= inHeight) ==>
                  && (fmt == Unknown ==> r == Err(UnknownFormat))
                  && (fmt != Unknown && faces == 0 ==> r == Err(DivideByZero))
                  && (fmt != Unknown && faces != 0 ==>
                        var g := Geometry(fmt, faces, inWidth, inHeight, outWidth, outHeight);
                        var total := g.outRows * g.outStride * faces;
                        && r == CropCopy(data, g, faces)
                        && (total < 0 ==> r == Err(Overflow))
                        && (total >= 0 && (faces < 0 || g.outRows <= 0) ==> r == Ok(Zeros(total)))))
  {
  }
}
