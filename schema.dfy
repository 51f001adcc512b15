/** The declarative record layer the cache readers are written in: a field or
    a record size may carry several `(value, MinVersion, MaxVersion)`
    alternatives; a field is decoded from a fixed offset inside its record;
    a Pointer keeps the raw value and is turned into a stream position by an
    address translator. */
module Schema {

  import opened Wrappers
  import opened Bytes
  import opened Formats

  /** One `[Offset(..)]` or `[FixedSize(..)]` alternative.  MinVersion is
      inclusive and MaxVersion exclusive; a missing bound is open. */
  datatype Alt<T> = Alt(value: T, minVersion: Option<int>, maxVersion: Option<int>)

  predicate Applies<T>(a: Alt<T>, version: int)
  {
    (a.minVersion.None? || a.minVersion.value <= version)
    && (a.maxVersion.None? || version < a.maxVersion.value)
  }

  /** The first alternative, in declaration order, whose range holds the version. */
  function Resolve<T>(alts: seq<Alt<T>>, version: int): (r: Option<T>)
    ensures r.Some? <==> exists i :: 0 <= i < |alts| && Applies(alts[i], version)
    ensures r.Some? ==> exists i :: 0 <= i < |alts| && Applies(alts[i], version) && alts[i].value == r.value
                                    && forall j :: 0 <= j < i ==> !Applies(alts[j], version)
  {
    if alts == [] then None
    else if Applies(alts[0], version) then Some(alts[0].value)
    else
      var r := Resolve(alts[1..], version);
      assert forall i :: 1 <= i < |alts| ==> alts[1..][i - 1] == alts[i];
      if r.Some? then
        ghost var i :| 0 <= i < |alts[1..]| && Applies(alts[1..][i], version) && alts[1..][i].value == r.value
                       && forall j :: 0 <= j < i ==> !Applies(alts[1..][j], version);
        assert forall j :: 0 <= j < i + 1 ==> !Applies(alts[j], version) by {
          forall j | 0 <= j < i + 1 ensures !Applies(alts[j], version) {
            if j > 0 {
              assert alts[j] == alts[1..][j - 1];
            }
          }
        }
        assert alts[i + 1] == alts[1..][i];
        r
      else
        assert forall i :: 0 <= i < |alts| ==> !Applies(alts[i], version) by {
          forall i | 0 <= i < |alts| ensures !Applies(alts[i], version) {
            if i > 0 {
              assert alts[i] == alts[1..][i - 1];
            }
          }
        }
        r
  }

  /** An alternative that applies and that nothing before it overrides is the one chosen. */
  lemma {:induction false} ResolveFirst<T>(alts: seq<Alt<T>>, version: int, i: nat)
    requires i < |alts| && Applies(alts[i], version)
    requires forall j :: 0 <= j < i ==> !Applies(alts[j], version)
    ensures Resolve(alts, version) == Some(alts[i].value)
  {
    if i > 0 {
      assert !Applies(alts[0], version);
      assert alts[1..][i - 1] == alts[i];
      ResolveFirst(alts[1..], version, i - 1);
    }
  }

  /** A `Pointer`: the raw int32 read from the stream. */
  datatype Pointer = Pointer(value: int)

  /** `Pointer.Address`: the position the translator gives for the raw value. */
  function Address(p: Pointer, translate: int -> int): int
  {
    translate(p.value)
  }

  // Field reads at a fixed position of the byte stream.  Reading past the
  // end raises EndOfStream.

  function ReadI32(s: seq<byte>, off: int, order: ByteOrder): (r: Result<int>)
    ensures r.Ok? <==> InRange(s, off, 4)
    ensures r.Ok? ==> IsInt32(r.value)
    ensures r.Err? ==> r.error == EndOfStream
  {
    if !InRange(s, off, 4) then Err(EndOfStream)
    else if order == LittleEndian then Ok(Int32LE(s, off)) else Ok(Int32BE(s, off))
  }

  function ReadI16(s: seq<byte>, off: int): (r: Result<int>)
    ensures r.Ok? <==> InRange(s, off, 2)
    ensures r.Ok? ==> IsInt16(r.value) && r.value == Int16LE(s, off)
    ensures r.Err? ==> r.error == EndOfStream
  {
    if !InRange(s, off, 2) then Err(EndOfStream) else Ok(Int16LE(s, off))
  }

  /** An int16 in the given byte order. */
  function ReadInt16(s: seq<byte>, off: int, order: ByteOrder): (r: Result<int>)
    ensures r.Ok? <==> InRange(s, off, 2)
    ensures r.Ok? ==> IsInt16(r.value)
    ensures r.Err? ==> r.error == EndOfStream
  {
    if !InRange(s, off, 2) then Err(EndOfStream)
    else if order == LittleEndian then Ok(Int16LE(s, off)) else Ok(Int16BE(s, off))
  }

  /** `n` raw bytes (a `[FixedLength(n)]` field). */
  function ReadRaw(s: seq<byte>, off: int, n: nat): (r: Result<seq<byte>>)
    ensures r.Ok? <==> InRange(s, off, n)
    ensures r.Ok? ==> |r.value| == n
    ensures r.Err? ==> r.error == EndOfStream
  {
    if !InRange(s, off, n) then Err(EndOfStream) else Ok(s[off..off + n])
  }

  function ReadU16(s: seq<byte>, off: int): (r: Result<int>)
    ensures r.Ok? <==> InRange(s, off, 2)
    ensures r.Ok? ==> 0 <= r.value < 0x1_0000 && r.value == UInt16LE(s, off)
    ensures r.Err? ==> r.error == EndOfStream
  {
    if !InRange(s, off, 2) then Err(EndOfStream) else Ok(UInt16LE(s, off))
  }

  function ReadU8(s: seq<byte>, off: int): (r: Result<int>)
    ensures r.Ok? <==> InRange(s, off, 1)
    ensures r.Ok? ==> 0 <= r.value < 0x100 && r.value == s[off] as int
    ensures r.Err? ==> r.error == EndOfStream
  {
    if !InRange(s, off, 1) then Err(EndOfStream) else Ok(s[off] as int)
  }

  /** A `[NullTerminated(Length = len)]` (or `[FixedLength(len)]`) string field. */
  function ReadFixedString(s: seq<byte>, off: int, len: nat): (r: Result<seq<byte>>)
    ensures r.Ok? <==> InRange(s, off, len)
    ensures r.Ok? ==> |r.value| <= len && 0 !in r.value && r.value == s[off..off + |r.value|]
    ensures r.Ok? && |r.value| < len ==> s[off + |r.value|] == 0
    ensures r.Err? ==> r.error == EndOfStream
  {
    if !InRange(s, off, len) then Err(EndOfStream) else Ok(FixedString(s, off, len))
  }

  /** `ReadNullTerminatedString`: the bytes up to the next NUL. */
  function ReadCString(s: seq<byte>, off: int): (r: Result<seq<byte>>)
    ensures r.Err? ==> r.error == EndOfStream
  {
    match CString(s, off)
    case None => Err(EndOfStream)
    case Some(str) => Ok(str)
  }

  /** A string read is the bytes from `off` up to the next NUL, which none of
      them is; the read fails exactly when no NUL follows `off`. */
  lemma ReadCStringSpec(s: seq<byte>, off: int)
    ensures var r := ReadCString(s, off);
            && (r.Ok? ==> 0 <= off && off + |r.value| < |s| && r.value == s[off..off + |r.value|]
                          && s[off + |r.value|] == 0 && 0 !in r.value)
            && (r.Err? ==> off < 0 || off >= |s| || 0 !in s[off..])
  {
    CStringSpec(s, off);
  }
}
