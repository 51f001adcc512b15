/** Halo3.bitmap: the bitmap tag with its four block collections, the
    BitmapDataBlock submap descriptor and its IBitmapData view, and the
    extraction of one submap as a DDS image. */
module Halo3Bitmap {

  import opened Wrappers
  import opened Bytes
  import opened Formats
  import opened Schema
  import opened Layout
  import opened BlockCollections
  import opened TextureSize
  import opened Dds
  import Bits

  // ----- Versions -----

  /** The CacheType ordinals the submap stride depends on.  The CacheType
      enumeration is not part of this model, so its values are parameters. */
  datatype Gen3Versions = Gen3Versions(mccHalo3: int, halo3ODST: int, mccHalo3ODST: int)

  /** The declaration order of the enumeration: MccHalo3 < Halo3ODST < MccHalo3ODST. */
  predicate Ordered(vs: Gen3Versions)
  {
    vs.mccHalo3 <= vs.halo3ODST <= vs.mccHalo3ODST
  }

  /** The four `[FixedSize]` alternatives of BitmapDataBlock. */
  function BitmapDataSizes(vs: Gen3Versions): seq<Alt<nat>>
  {
    [ Alt(48, None, Some(vs.mccHalo3)),
      Alt(56, Some(vs.mccHalo3), Some(vs.halo3ODST)),
      Alt(48, Some(vs.halo3ODST), Some(vs.mccHalo3ODST)),
      Alt(56, Some(vs.mccHalo3ODST), None) ]
  }

  /** Some alternative applies to every version, and it is 48 or 56. */
  lemma StrideResolves(vs: Gen3Versions, version: int)
    ensures Resolve(BitmapDataSizes(vs), version).Some?
    ensures Resolve(BitmapDataSizes(vs), version).value == 48 || Resolve(BitmapDataSizes(vs), version).value == 56
  {
    var alts := BitmapDataSizes(vs);
    if version < vs.mccHalo3 {
      assert Applies(alts[0], version);
    } else if version < vs.halo3ODST {
      assert Applies(alts[1], version);
    } else if version < vs.mccHalo3ODST {
      assert Applies(alts[2], version);
    } else {
      assert Applies(alts[3], version);
    }
  }

  /** The record size of a submap descriptor for a cache version. */
  function BitmapDataStride(vs: Gen3Versions, version: int): (r: nat)
    ensures r == 48 || r == 56
  {
    StrideResolves(vs, version);
    Resolve(BitmapDataSizes(vs), version).value
  }

  /** With the ordinals in declaration order the stride is 48 before MccHalo3,
      56 up to Halo3ODST, 48 up to MccHalo3ODST and 56 from there on. */
  lemma StrideByVersion(vs: Gen3Versions, version: int)
    requires Ordered(vs)
    ensures BitmapDataStride(vs, version)
            == if version < vs.mccHalo3 then 48
               else if version < vs.halo3ODST then 56
               else if version < vs.mccHalo3ODST then 48
               else 56
  {
    var alts := BitmapDataSizes(vs);
    if version < vs.mccHalo3 {
      ResolveFirst(alts, version, 0);
    } else if version < vs.halo3ODST {
      ResolveFirst(alts, version, 1);
    } else if version < vs.mccHalo3ODST {
      ResolveFirst(alts, version, 2);
    } else {
      ResolveFirst(alts, version, 3);
    }
  }

  // ----- The submap descriptor -----

  /** BitmapDataBlock.  `tagClass` is the 4-byte `[FixedLength(4)]` Class
      field, kept as its bytes; byte fields are naturals below 256. */
  datatype BitmapDataBlock = BitmapDataBlock(
    tagClass: seq<byte>,
    width: int,
    height: int,
    depth: nat,
    flags: nat,
    bitmapType: int,
    bitmapFormat: int,
    moreFlags: int,
    regX: int,
    regY: int,
    mipmapCount: nat,
    curve: nat,
    interleavedIndex: nat,
    index2: nat,
    pixelsOffset: nat,
    pixelsSize: nat)

  /** The bytes the fields span: the last one, PixelsSize, is the byte at 28. */
  const BITMAP_DATA_EXTENT := 29

  /** `ReadObject<BitmapDataBlock>` at `off`, in the cache's byte order.  Every
      field that cannot be read raises the same EndOfStream, so the read fails
      exactly when the fields' extent does not fit in the stream. */
  function DecodeBitmapData(s: seq<byte>, off: int, order: ByteOrder): (r: Result<BitmapDataBlock>)
    ensures r.Ok? <==> InRange(s, off, BITMAP_DATA_EXTENT)
    ensures r.Err? ==> r.error == EndOfStream
  {
    if !InRange(s, off, BITMAP_DATA_EXTENT) then Err(EndOfStream)
    else
      Ok(BitmapDataBlock(
        ReadRaw(s, off, 4).value,
        ReadInt16(s, off + 4, order).value, ReadInt16(s, off + 6, order).value,
        ReadU8(s, off + 8).value, ReadU8(s, off + 9).value,
        ReadInt16(s, off + 10, order).value, ReadInt16(s, off + 12, order).value,
        ReadInt16(s, off + 14, order).value, ReadInt16(s, off + 16, order).value,
        ReadInt16(s, off + 18, order).value,
        ReadU8(s, off + 20).value, ReadU8(s, off + 21).value, ReadU8(s, off + 22).value,
        ReadU8(s, off + 23).value, ReadU8(s, off + 24).value, ReadU8(s, off + 28).value))
  }

  /** A descriptor the record can hold: four class bytes, int16 and byte fields in range. */
  predicate BitmapDataFits(b: BitmapDataBlock)
  {
    && |b.tagClass| == 4
    && IsInt16(b.width) && IsInt16(b.height) && IsInt16(b.bitmapType) && IsInt16(b.bitmapFormat)
    && IsInt16(b.moreFlags) && IsInt16(b.regX) && IsInt16(b.regY)
    && b.depth < 0x100 && b.flags < 0x100 && b.mipmapCount < 0x100 && b.curve < 0x100
    && b.interleavedIndex < 0x100 && b.index2 < 0x100 && b.pixelsOffset < 0x100 && b.pixelsSize < 0x100
  }

  /** The smallest record size, which every version's stride is at least. */
  const MIN_STRIDE := 48

  function BitmapDataSlots(b: BitmapDataBlock, order: ByteOrder): (slots: seq<Slot>)
    requires BitmapDataFits(b)
    ensures WellPlaced(slots, MIN_STRIDE)
  {
    var head := [ Slot(0, b.tagClass), I16SlotIn(4, b.width, order), I16SlotIn(6, b.height, order),
                  U8Slot(8, b.depth as byte), U8Slot(9, b.flags as byte) ];
    var kinds := [ I16SlotIn(10, b.bitmapType, order), I16SlotIn(12, b.bitmapFormat, order),
                   I16SlotIn(14, b.moreFlags, order), I16SlotIn(16, b.regX, order), I16SlotIn(18, b.regY, order) ];
    var tail := [ U8Slot(20, b.mipmapCount as byte), U8Slot(21, b.curve as byte),
                  U8Slot(22, b.interleavedIndex as byte), U8Slot(23, b.index2 as byte),
                  U8Slot(24, b.pixelsOffset as byte), U8Slot(28, b.pixelsSize as byte) ];
    PlacedAppend(kinds, tail, MIN_STRIDE);
    PlacedAppend(head, kinds + tail, MIN_STRIDE);
    head + (kinds + tail)
  }

  /** The 48 bytes of a descriptor in the smallest record. */
  function EncodeBitmapData(b: BitmapDataBlock, order: ByteOrder): (r: seq<byte>)
    requires BitmapDataFits(b)
    ensures |r| == MIN_STRIDE
  {
    PlacedInside(BitmapDataSlots(b, order), MIN_STRIDE);
    Write(MIN_STRIDE, BitmapDataSlots(b, order))
  }

  lemma BitmapHeadBack(b: BitmapDataBlock, order: ByteOrder)
    requires BitmapDataFits(b)
    ensures var s := EncodeBitmapData(b, order);
            && ReadRaw(s, 0, 4) == Ok(b.tagClass)
            && ReadInt16(s, 4, order) == Ok(b.width) && ReadInt16(s, 6, order) == Ok(b.height)
  {
    var slots := BitmapDataSlots(b, order);
    SlotRaw(slots, MIN_STRIDE, 0);
    SlotI16In(slots, MIN_STRIDE, 1, b.width, order);
    SlotI16In(slots, MIN_STRIDE, 2, b.height, order);
  }

  lemma BitmapBytesBack(b: BitmapDataBlock, order: ByteOrder)
    requires BitmapDataFits(b)
    ensures var s := EncodeBitmapData(b, order);
            ReadU8(s, 8) == Ok(b.depth) && ReadU8(s, 9) == Ok(b.flags)
  {
    var slots := BitmapDataSlots(b, order);
    SlotU8(slots, MIN_STRIDE, 3, b.depth as byte);
    SlotU8(slots, MIN_STRIDE, 4, b.flags as byte);
  }

  lemma BitmapKindsBack(b: BitmapDataBlock, order: ByteOrder)
    requires BitmapDataFits(b)
    ensures var s := EncodeBitmapData(b, order);
            && ReadInt16(s, 10, order) == Ok(b.bitmapType) && ReadInt16(s, 12, order) == Ok(b.bitmapFormat)
            && ReadInt16(s, 14, order) == Ok(b.moreFlags)
  {
    var slots := BitmapDataSlots(b, order);
    SlotI16In(slots, MIN_STRIDE, 5, b.bitmapType, order);
    SlotI16In(slots, MIN_STRIDE, 6, b.bitmapFormat, order);
    SlotI16In(slots, MIN_STRIDE, 7, b.moreFlags, order);
  }

  lemma BitmapRegBack(b: BitmapDataBlock, order: ByteOrder)
    requires BitmapDataFits(b)
    ensures var s := EncodeBitmapData(b, order);
            ReadInt16(s, 16, order) == Ok(b.regX) && ReadInt16(s, 18, order) == Ok(b.regY)
  {
    var slots := BitmapDataSlots(b, order);
    SlotI16In(slots, MIN_STRIDE, 8, b.regX, order);
    SlotI16In(slots, MIN_STRIDE, 9, b.regY, order);
  }

  lemma BitmapMipsBack(b: BitmapDataBlock, order: ByteOrder)
    requires BitmapDataFits(b)
    ensures var s := EncodeBitmapData(b, order);
            && ReadU8(s, 20) == Ok(b.mipmapCount) && ReadU8(s, 21) == Ok(b.curve)
            && ReadU8(s, 22) == Ok(b.interleavedIndex)
  {
    var slots := BitmapDataSlots(b, order);
    SlotU8(slots, MIN_STRIDE, 10, b.mipmapCount as byte);
    SlotU8(slots, MIN_STRIDE, 11, b.curve as byte);
    SlotU8(slots, MIN_STRIDE, 12, b.interleavedIndex as byte);
  }

  lemma BitmapPixelsBack(b: BitmapDataBlock, order: ByteOrder)
    requires BitmapDataFits(b)
    ensures var s := EncodeBitmapData(b, order);
            && ReadU8(s, 23) == Ok(b.index2) && ReadU8(s, 24) == Ok(b.pixelsOffset)
            && ReadU8(s, 28) == Ok(b.pixelsSize)
  {
    var slots := BitmapDataSlots(b, order);
    SlotU8(slots, MIN_STRIDE, 13, b.index2 as byte);
    SlotU8(slots, MIN_STRIDE, 14, b.pixelsOffset as byte);
    SlotU8(slots, MIN_STRIDE, 15, b.pixelsSize as byte);
  }

  /** Every field lies inside the smallest record: a descriptor written into
      48 bytes, in either byte order, reads back as itself. */
  lemma BitmapDataRoundTrip(b: BitmapDataBlock, order: ByteOrder)
    requires BitmapDataFits(b)
    ensures DecodeBitmapData(EncodeBitmapData(b, order), 0, order) == Ok(b)
  {
    var s := EncodeBitmapData(b, order);
    assert ReadRaw(s, 0, 4).value == b.tagClass
           && ReadInt16(s, 4, order).value == b.width && ReadInt16(s, 6, order).value == b.height by {
      BitmapHeadBack(b, order);
    }
    assert ReadU8(s, 8).value == b.depth && ReadU8(s, 9).value == b.flags by {
      BitmapBytesBack(b, order);
    }
    assert ReadInt16(s, 10, order).value == b.bitmapType && ReadInt16(s, 12, order).value == b.bitmapFormat
           && ReadInt16(s, 14, order).value == b.moreFlags by {
      BitmapKindsBack(b, order);
    }
    assert ReadInt16(s, 16, order).value == b.regX && ReadInt16(s, 18, order).value == b.regY by {
      BitmapRegBack(b, order);
    }
    assert ReadU8(s, 20).value == b.mipmapCount && ReadU8(s, 21).value == b.curve
           && ReadU8(s, 22).value == b.interleavedIndex by {
      BitmapMipsBack(b, order);
    }
    assert ReadU8(s, 23).value == b.index2 && ReadU8(s, 24).value == b.pixelsOffset
           && ReadU8(s, 28).value == b.pixelsSize by {
      BitmapPixelsBack(b, order);
    }
  }

  // ----- Enumerations -----

  /** `ToString()` of a Halo3.TextureFormat value: its name for the values
      0..44 the enumeration declares, a numeral otherwise. */
  function TextureFormatText(raw: int): EnumText
  {
    match raw
    case 0 => Name("A8") case 1 => Name("Y8") case 2 => Name("AY8") case 3 => Name("A8Y8") case 4 => Name("Unused4")
    case 5 => Name("Unused5") case 6 => Name("R5G6B5") case 7 => Name("Unused7") case 8 => Name("A1R5G5B5") case 9 => Name("A4R4G4B4")
    case 10 => Name("X8R8G8B8") case 11 => Name("A8R8G8B8") case 12 => Name("Unused12") case 13 => Name("Unused13") case 14 => Name("DXT1")
    case 15 => Name("DXT3") case 16 => Name("DXT5") case 17 => Name("P8_bump") case 18 => Name("P8") case 19 => Name("ARGBFP32")
    case 20 => Name("RGBFP32") case 21 => Name("RGBFP16") case 22 => Name("U8V8") case 23 => Name("Unknown23") case 24 => Name("Unknown24")
    case 25 => Name("Unknown25") case 26 => Name("Unknown26") case 27 => Name("Unknown27") case 28 => Name("Unknown28") case 29 => Name("Unknown29")
    case 30 => Name("Unknown30") case 31 => Name("DXT5a") case 32 => Name("Unknown32") case 33 => Name("DXN") case 34 => Name("CTX1")
    case 35 => Name("DXT3a_alpha") case 36 => Name("DXT3a_mono") case 37 => Name("DXT5a_alpha") case 38 => Name("DXT5a_mono") case 39 => Name("DXN_mono_alpha")
    case 40 => Name("Unknown40") case 41 => Name("Unknown41") case 42 => Name("Unknown42") case 43 => Name("Unknown43") case 44 => Name("Unknown44")
    case _ => Numeral(raw)
  }

  /** `ToString()` of a Halo3.TextureType value. */
  function TextureTypeText(raw: int): EnumText
  {
    if raw == 0 then Name("Texture2D") else if raw == 1 then Name("Texture3D")
    else if raw == 2 then Name("CubeMap") else if raw == 3 then Name("Array")
    else Numeral(raw)
  }

  const TEXTURE_3D := 1
  const CUBE_MAP := 2
  const ARRAY := 3
  /** Halo3.TextureFormat.DXN. */
  const FORMAT_DXN := 33
  /** BitmapFlags.Swizzled. */
  const SWIZZLED := 8

  /** Which KnownTextureFormat each Halo3 format value stands for: the formats
      both enumerations name; Unknown for the unused and unknown values;
      a value outside the enumeration keeps its number. */
  function SharedFormat(raw: int): KnownTextureFormat
  {
    match raw
    case 0 => A8 case 1 => Y8 case 2 => AY8 case 3 => A8Y8 case 6 => R5G6B5
    case 8 => A1R5G5B5 case 9 => A4R4G4B4 case 10 => X8R8G8B8 case 11 => A8R8G8B8
    case 14 => DXT1 case 15 => DXT3 case 16 => DXT5 case 17 => P8_bump case 18 => P8
    case 19 => ARGBFP32 case 20 => RGBFP32 case 21 => RGBFP16 case 22 => U8V8
    case 31 => DXT5a case 33 => DXN case 34 => CTX1 case 35 => DXT3a_alpha case 36 => DXT3a_mono
    case 37 => DXT5a_alpha case 38 => DXT5a_mono case 39 => DXN_mono_alpha
    case _ => if 0 <= raw < 45 then Unknown else Other(raw)
  }

  /** ParseToEnum<KnownTextureFormat> of a Halo3 format value translates by
      name as SharedFormat says. */
  lemma ParseTextureFormat(raw: int)
    ensures ParseFormat(TextureFormatText(raw)) == SharedFormat(raw)
  {
    if 0 <= raw < 3 {
      ParseFormats0To2(raw);
    } else if 3 <= raw < 6 {
      ParseFormats3To5(raw);
    } else if 6 <= raw < 9 {
      ParseFormats6To8(raw);
    } else if 9 <= raw < 12 {
      ParseFormats9To11(raw);
    } else if 12 <= raw < 15 {
      ParseFormats12To14(raw);
    } else if 15 <= raw < 18 {
      ParseFormats15To17(raw);
    } else if 18 <= raw < 21 {
      ParseFormats18To20(raw);
    } else if 21 <= raw < 24 {
      ParseFormats21To23(raw);
    } else if 24 <= raw < 27 {
      ParseFormats24To26(raw);
    } else if 27 <= raw < 30 {
      ParseFormats27To29(raw);
    } else if 30 <= raw < 33 {
      ParseFormats30To32(raw);
    } else if 33 <= raw < 36 {
      ParseFormats33To35(raw);
    } else if 36 <= raw < 39 {
      ParseFormats36To38(raw);
    } else if 39 <= raw < 42 {
      ParseFormats39To41(raw);
    } else if 42 <= raw < 45 {
      ParseFormats42To44(raw);
    }
  }

  // The names, three at a time.

  lemma ParseFormats0To2(raw: int)
    requires 0 <= raw < 3
    ensures ParseFormat(TextureFormatText(raw)) == SharedFormat(raw)
  {
    if raw == 0 {
    } else if raw == 1 {
    } else {
    }
  }

  lemma ParseFormats3To5(raw: int)
    requires 3 <= raw < 6
    ensures ParseFormat(TextureFormatText(raw)) == SharedFormat(raw)
  {
    if raw == 3 {
    } else if raw == 4 {
    } else {
    }
  }

  lemma ParseFormats6To8(raw: int)
    requires 6 <= raw < 9
    ensures ParseFormat(TextureFormatText(raw)) == SharedFormat(raw)
  {
    if raw == 6 {
    } else if raw == 7 {
    } else {
    }
  }

  lemma ParseFormats9To11(raw: int)
    requires 9 <= raw < 12
    ensures ParseFormat(TextureFormatText(raw)) == SharedFormat(raw)
  {
    if raw == 9 {
    } else if raw == 10 {
    } else {
    }
  }

  lemma ParseFormats12To14(raw: int)
    requires 12 <= raw < 15
    ensures ParseFormat(TextureFormatText(raw)) == SharedFormat(raw)
  {
    if raw == 12 {
    } else if raw == 13 {
    } else {
    }
  }

  lemma ParseFormats15To17(raw: int)
    requires 15 <= raw < 18
    ensures ParseFormat(TextureFormatText(raw)) == SharedFormat(raw)
  {
    if raw == 15 {
    } else if raw == 16 {
    } else {
    }
  }

  lemma ParseFormats18To20(raw: int)
    requires 18 <= raw < 21
    ensures ParseFormat(TextureFormatText(raw)) == SharedFormat(raw)
  {
    if raw == 18 {
    } else if raw == 19 {
    } else {
    }
  }

  lemma ParseFormats21To23(raw: int)
    requires 21 <= raw < 24
    ensures ParseFormat(TextureFormatText(raw)) == SharedFormat(raw)
  {
    if raw == 21 {
    } else if raw == 22 {
    } else {
    }
  }

  lemma ParseFormats24To26(raw: int)
    requires 24 <= raw < 27
    ensures ParseFormat(TextureFormatText(raw)) == SharedFormat(raw)
  {
    if raw == 24 {
    } else if raw == 25 {
    } else {
    }
  }

  lemma ParseFormats27To29(raw: int)
    requires 27 <= raw < 30
    ensures ParseFormat(TextureFormatText(raw)) == SharedFormat(raw)
  {
    if raw == 27 {
    } else if raw == 28 {
    } else {
    }
  }

  lemma ParseFormats30To32(raw: int)
    requires 30 <= raw < 33
    ensures ParseFormat(TextureFormatText(raw)) == SharedFormat(raw)
  {
    if raw == 30 {
    } else if raw == 31 {
    } else {
    }
  }

  lemma ParseFormats33To35(raw: int)
    requires 33 <= raw < 36
    ensures ParseFormat(TextureFormatText(raw)) == SharedFormat(raw)
  {
    if raw == 33 {
    } else if raw == 34 {
    } else {
    }
  }

  lemma ParseFormats36To38(raw: int)
    requires 36 <= raw < 39
    ensures ParseFormat(TextureFormatText(raw)) == SharedFormat(raw)
  {
    if raw == 36 {
    } else if raw == 37 {
    } else {
    }
  }

  lemma ParseFormats39To41(raw: int)
    requires 39 <= raw < 42
    ensures ParseFormat(TextureFormatText(raw)) == SharedFormat(raw)
  {
    if raw == 39 {
    } else if raw == 40 {
    } else {
    }
  }

  lemma ParseFormats42To44(raw: int)
    requires 42 <= raw < 45
    ensures ParseFormat(TextureFormatText(raw)) == SharedFormat(raw)
  {
    if raw == 42 {
    } else if raw == 43 {
    } else {
    }
  }

  /** ParseToEnum<KnownTextureType> of a Halo3 type value: the four named
      values map to the types of the same name, any other keeps its number. */
  lemma ParseTextureType(raw: int)
    ensures ParseType(TextureTypeText(raw))
            == if raw == 0 then Texture2D else if raw == 1 then Texture3D
               else if raw == 2 then CubeMap else if raw == 3 then Array else OtherType(raw)
  {
  }

  // ----- The IBitmapData view -----

  /** What the view takes from the cache: its byte order, whether it is an
      MCC build, and whether its platform is PC. */
  datatype CacheContext = CacheContext(order: ByteOrder, isMcc: bool, isPC: bool)

  /** `Flags.HasFlag(BitmapFlags.Swizzled)`. */
  predicate Swizzled(flags: nat)
  {
    Bits.And(flags, SWIZZLED) == SWIZZLED
  }

  /** `IBitmapData.BitmapFormat`: DXNSwap of the value, swapping on PC. */
  function SubmapFormat(b: BitmapDataBlock, ctx: CacheContext): KnownTextureFormat
  {
    DXNSwap(ParseFormat(TextureFormatText(b.bitmapFormat)), ctx.isPC)
  }

  /** The descriptor TextureUtils consumes: the IBitmapData members, with
      BitmapFormat and BitmapType after the engine's ParseToEnum. */
  function Descriptor(b: BitmapDataBlock, ctx: CacheContext): BitmapData
  {
    BitmapData(
      b.width, b.height,
      if b.bitmapType == TEXTURE_3D then b.depth else 1,
      b.mipmapCount,
      if b.bitmapType == CUBE_MAP then 6 else b.depth,
      ParseFormat(FormatText(SubmapFormat(b, ctx))),
      ParseType(TextureTypeText(b.bitmapType)),
      ctx.order, !ctx.isMcc, Swizzled(b.flags))
  }

  /** The shape of the view: six frames for a cube map and Depth frames
      otherwise; Depth only for a 3D texture; swizzled exactly when bit 3 of
      the flags is set; padded exactly when the cache is not MCC. */
  lemma DescriptorShape(b: BitmapDataBlock, ctx: CacheContext)
    ensures var d := Descriptor(b, ctx);
            && (d.textureType == CubeMap <==> b.bitmapType == CUBE_MAP)
            && (d.textureType == Texture3D <==> b.bitmapType == TEXTURE_3D)
            && (d.textureType == Array <==> b.bitmapType == ARRAY)
            && d.frameCount == (if d.textureType == CubeMap then 6 else b.depth)
            && d.depth == (if d.textureType == Texture3D then b.depth else 1)
            && d.mipmapCount == b.mipmapCount
            && (d.swizzled <==> Bits.Bit(b.flags, 3))
            && (d.usesPadding <==> !ctx.isMcc)
            && d.byteOrder == ctx.order
  {
    ParseTextureType(b.bitmapType);
    Bits.AndPow2(b.flags, 3);
    assert Bits.Pow2(3) == SWIZZLED;
  }

  /** The view's format is the shared format of the value, re-parsing
      changes nothing, and it is DXN_SNorm exactly for DXN on PC. */
  lemma DescriptorFormat(b: BitmapDataBlock, ctx: CacheContext)
    ensures var d := Descriptor(b, ctx);
            && d.format == SubmapFormat(b, ctx)
            && d.format == DXNSwap(SharedFormat(b.bitmapFormat), ctx.isPC)
            && (d.format == DXN_SNorm <==> ctx.isPC && b.bitmapFormat == FORMAT_DXN)
  {
    ParseTextureFormat(b.bitmapFormat);
    ParseFormatCanonical(TextureFormatText(b.bitmapFormat));
    ParseFormatText(SubmapFormat(b, ctx));
  }

  // ----- The tag -----

  /** BitmapResourceBlock.  ResourceIdentifier is not part of this model; it
      is kept as the raw int32 it is read from. */
  datatype BitmapResourceBlock = BitmapResourceBlock(resourcePointer: int, unknown: int)

  const RESOURCE_STRIDE := 8

  function DecodeResource(s: seq<byte>, off: int, order: ByteOrder): (r: Result<BitmapResourceBlock>)
    ensures r.Ok? <==> InRange(s, off, RESOURCE_STRIDE)
    ensures r.Ok? ==> r.value.resourcePointer == ReadI32(s, off, order).value
                      && r.value.unknown == ReadI32(s, off + 4, order).value
  {
    if !InRange(s, off, RESOURCE_STRIDE) then Err(EndOfStream)
    else Ok(BitmapResourceBlock(ReadI32(s, off, order).value, ReadI32(s, off + 4, order).value))
  }

  /** The 8 bytes of a resource entry: the raw pointer, then the second int32. */
  function EncodeResource(b: BitmapResourceBlock, order: ByteOrder): (r: seq<byte>)
    requires IsInt32(b.resourcePointer) && IsInt32(b.unknown)
    ensures |r| == RESOURCE_STRIDE
  {
    var slots := [I32Slot(0, b.resourcePointer, order), I32Slot(4, b.unknown, order)];
    assert WellPlaced(slots, RESOURCE_STRIDE);
    PlacedInside(slots, RESOURCE_STRIDE);
    Write(RESOURCE_STRIDE, slots)
  }

  /** A resource entry written in either byte order reads back as itself. */
  lemma ResourceRoundTrip(b: BitmapResourceBlock, order: ByteOrder)
    requires IsInt32(b.resourcePointer) && IsInt32(b.unknown)
    ensures DecodeResource(EncodeResource(b, order), 0, order) == Ok(b)
  {
    var slots := [I32Slot(0, b.resourcePointer, order), I32Slot(4, b.unknown, order)];
    assert WellPlaced(slots, RESOURCE_STRIDE);
    SlotI32(slots, RESOURCE_STRIDE, 0, b.resourcePointer, order);
    SlotI32(slots, RESOURCE_STRIDE, 1, b.unknown, order);
  }

  /** SpriteBlock, of which only SubmapIndex is kept. */
  datatype SpriteBlock = SpriteBlock(submapIndex: int)

  const SPRITE_STRIDE := 32

  /** `ReadObject<SpriteBlock>`: SubmapIndex at 0; the floats up to RegPoint at
      24..32 are read too, so the whole 32 bytes must be in the stream. */
  function DecodeSprite(s: seq<byte>, off: int, order: ByteOrder): (r: Result<SpriteBlock>)
    ensures r.Ok? <==> InRange(s, off, SPRITE_STRIDE)
    ensures r.Ok? ==> Ok(r.value.submapIndex) == ReadInt16(s, off, order)
  {
    if !InRange(s, off, SPRITE_STRIDE) then Err(EndOfStream)
    else Ok(SpriteBlock(ReadInt16(s, off, order).value))
  }

  /** The 32 bytes of a sprite entry: SubmapIndex first, the rest zero. */
  function EncodeSprite(b: SpriteBlock, order: ByteOrder): (r: seq<byte>)
    requires IsInt16(b.submapIndex)
    ensures |r| == SPRITE_STRIDE
  {
    var slots := [I16SlotIn(0, b.submapIndex, order)];
    PlacedInside(slots, SPRITE_STRIDE);
    Write(SPRITE_STRIDE, slots)
  }

  /** A sprite entry written in either byte order reads back as itself. */
  lemma SpriteRoundTrip(b: SpriteBlock, order: ByteOrder)
    requires IsInt16(b.submapIndex)
    ensures DecodeSprite(EncodeSprite(b, order), 0, order) == Ok(b)
  {
    SlotI16In([I16SlotIn(0, b.submapIndex, order)], SPRITE_STRIDE, 0, b.submapIndex, order);
  }

  datatype SequenceBlock = SequenceBlock(
    name: seq<byte>, firstSubmapIndex: int, bitmapCount: int, sprites: BlockCollection<SpriteBlock>)

  const SEQUENCE_STRIDE := 64

  /** `ReadObject<SequenceBlock>`: the name and the two counts, then the
      sprite collection at 52, read with the same translator and version. */
  function DecodeSequence(s: seq<byte>, off: int, version: int, order: ByteOrder, translate: int -> int)
    : (r: Result<SequenceBlock>)
    ensures !InRange(s, off, 36) ==> r == Err(EndOfStream)
    ensures r.Ok? ==> Ok(r.value.name) == ReadFixedString(s, off, 32)
                      && Ok(r.value.firstSubmapIndex) == ReadInt16(s, off + 32, order)
                      && Ok(r.value.bitmapCount) == ReadInt16(s, off + 34, order)
                      && Ok(r.value.sprites)
                         == BlockCollectionSpec(s, off + 52, order, Some(translate), version, SPRITE_STRIDE, SpriteElement(order))
  {
    if !InRange(s, off, 36) then Err(EndOfStream)
    else
      var sprites :- BlockCollectionSpec(s, off + 52, order, Some(translate), version, SPRITE_STRIDE, SpriteElement(order));
      Ok(SequenceBlock(ReadFixedString(s, off, 32).value, ReadInt16(s, off + 32, order).value,
                       ReadInt16(s, off + 34, order).value, sprites))
  }

  /** A sequence the 64-byte record can hold on its own: a NUL-free name of at
      most 32 bytes, int16 indices and an empty sprite collection. */
  predicate SequenceFits(q: SequenceBlock)
  {
    && |q.name| <= 32 && 0 !in q.name
    && IsInt16(q.firstSubmapIndex) && IsInt16(q.bitmapCount)
    && q.sprites.items == [] && IsInt32(q.sprites.pointer.value)
  }

  function SequenceSlots(q: SequenceBlock, order: ByteOrder): (slots: seq<Slot>)
    requires SequenceFits(q)
    ensures WellPlaced(slots, SEQUENCE_STRIDE)
  {
    [ StringSlot(0, q.name, 32), I16SlotIn(32, q.firstSubmapIndex, order), I16SlotIn(34, q.bitmapCount, order),
      I32Slot(52, 0, order), I32Slot(56, q.sprites.pointer.value, order) ]
  }

  /** The 64 bytes of a sequence whose sprite collection has a zero count. */
  function EncodeSequence(q: SequenceBlock, order: ByteOrder): (r: seq<byte>)
    requires SequenceFits(q)
    ensures |r| == SEQUENCE_STRIDE
  {
    PlacedInside(SequenceSlots(q, order), SEQUENCE_STRIDE);
    Write(SEQUENCE_STRIDE, SequenceSlots(q, order))
  }

  /** A sequence with no sprites written in either byte order reads back as
      itself, whatever the translator: a zero count never translates the pointer. */
  lemma SequenceRoundTrip(q: SequenceBlock, order: ByteOrder, version: int, translate: int -> int)
    requires SequenceFits(q)
    ensures DecodeSequence(EncodeSequence(q, order), 0, version, order, translate) == Ok(q)
  {
    var slots := SequenceSlots(q, order);
    var s := EncodeSequence(q, order);
    SlotString(slots, SEQUENCE_STRIDE, 0, q.name, 32);
    SlotI16In(slots, SEQUENCE_STRIDE, 1, q.firstSubmapIndex, order);
    SlotI16In(slots, SEQUENCE_STRIDE, 2, q.bitmapCount, order);
    SlotI32(slots, SEQUENCE_STRIDE, 3, 0, order);
    SlotI32(slots, SEQUENCE_STRIDE, 4, q.sprites.pointer.value, order);
    ZeroCountIgnoresPointer(s, 52, order, translate, translate, version, SPRITE_STRIDE, SpriteElement(order));
  }

  // The element readers of the four collections.

  function SpriteElement(order: ByteOrder): (seq<byte>, int, int) -> Result<SpriteBlock>
  {
    (s: seq<byte>, off: int, version: int) => DecodeSprite(s, off, order)
  }

  function SequenceElement(order: ByteOrder, translate: int -> int): (seq<byte>, int, int) -> Result<SequenceBlock>
  {
    (s: seq<byte>, off: int, version: int) => DecodeSequence(s, off, version, order, translate)
  }

  function BitmapDataElement(order: ByteOrder): (seq<byte>, int, int) -> Result<BitmapDataBlock>
  {
    (s: seq<byte>, off: int, version: int) => DecodeBitmapData(s, off, order)
  }

  function ResourceElement(order: ByteOrder): (seq<byte>, int, int) -> Result<BitmapResourceBlock>
  {
    (s: seq<byte>, off: int, version: int) => DecodeResource(s, off, order)
  }

  datatype BitmapTag = BitmapTag(
    sequences: BlockCollection<SequenceBlock>,
    bitmaps: BlockCollection<BitmapDataBlock>,
    resources: BlockCollection<BitmapResourceBlock>,
    interleavedResources: BlockCollection<BitmapResourceBlock>)

  /** `ReadObject<bitmap>` of the tag at `pos`: the collections at 84, 96, 140
      and 152, in that order, the submaps with the stride of the cache version. */
  function DecodeBitmapTag(s: seq<byte>, pos: nat, order: ByteOrder, translate: int -> int,
                           vs: Gen3Versions, version: int): (r: Result<BitmapTag>)
    ensures r.Ok? ==>
              && Ok(r.value.sequences) == BlockCollectionSpec(s, pos + 84, order, Some(translate), version,
                                                              SEQUENCE_STRIDE, SequenceElement(order, translate))
              && Ok(r.value.bitmaps) == BlockCollectionSpec(s, pos + 96, order, Some(translate), version,
                                                            BitmapDataStride(vs, version), BitmapDataElement(order))
              && Ok(r.value.resources) == BlockCollectionSpec(s, pos + 140, order, Some(translate), version,
                                                              RESOURCE_STRIDE, ResourceElement(order))
              && Ok(r.value.interleavedResources)
                 == BlockCollectionSpec(s, pos + 152, order, Some(translate), version, RESOURCE_STRIDE, ResourceElement(order))
  {
    var sequences :- BlockCollectionSpec(s, pos + 84, order, Some(translate), version,
                                         SEQUENCE_STRIDE, SequenceElement(order, translate));
    var bitmaps :- BlockCollectionSpec(s, pos + 96, order, Some(translate), version,
                                       BitmapDataStride(vs, version), BitmapDataElement(order));
    var resources :- BlockCollectionSpec(s, pos + 140, order, Some(translate), version,
                                         RESOURCE_STRIDE, ResourceElement(order));
    var interleaved :- BlockCollectionSpec(s, pos + 152, order, Some(translate), version,
                                           RESOURCE_STRIDE, ResourceElement(order));
    Ok(BitmapTag(sequences, bitmaps, resources, interleaved))
  }

  // Each collection of a decoded tag is the BlockCollectionSpec that
  // DecodeBitmapTag's contract names; the lemmas below read its entries.

  /** Submap `k` of the Bitmaps collection (at 96 of the tag) is the
      descriptor at `Address + k * stride`, and there are as many submaps as
      the declared count (none for a count of zero or less). */
  lemma TagSubmaps(c: BlockCollection<BitmapDataBlock>, s: seq<byte>, pos: nat, order: ByteOrder,
                   translate: int -> int, vs: Gen3Versions, version: int, k: nat)
    requires Ok(c) == BlockCollectionSpec(s, pos + 96, order, Some(translate), version,
                                          BitmapDataStride(vs, version), BitmapDataElement(order))
    ensures var count := ReadI32(s, pos + 96, order).value;
            |c.items| == (if count > 0 then count else 0)
    ensures k < |c.items| ==>
              Ok(c.items[k]) == DecodeBitmapData(s, Address(c.pointer, translate) + k * BitmapDataStride(vs, version), order)
  {
    CollectionAt(c, s, pos + 96, order, translate, version, BitmapDataStride(vs, version), BitmapDataElement(order), k);
  }

  /** Sequence `j` of the Sequences collection (its header is at 84 of the
      tag) is the record decoded at `Address + 64j` (SequenceAt reads its
      fields and sprites), and the collection has its declared count of
      entries. */
  lemma TagSequences(c: BlockCollection<SequenceBlock>, s: seq<byte>, at: nat, order: ByteOrder,
                     translate: int -> int, version: int, element: (seq<byte>, int, int) -> Result<SequenceBlock>, j: nat)
    requires element == SequenceElement(order, translate)
    requires Ok(c) == BlockCollectionSpec(s, at, order, Some(translate), version, SEQUENCE_STRIDE, element)
    ensures var count := ReadI32(s, at, order).value;
            |c.items| == (if count > 0 then count else 0)
    ensures j < |c.items| ==>
              Ok(c.items[j]) == DecodeSequence(s, Address(c.pointer, translate) + j * SEQUENCE_STRIDE, version, order, translate)
  {
    CollectionAt(c, s, at, order, translate, version, SEQUENCE_STRIDE, element, j);
  }

  /** The fields and sprites of a sequence decoded at `at`. */
  lemma SequenceAt(q: SequenceBlock, s: seq<byte>, at: int, order: ByteOrder, translate: int -> int,
                   version: int, k: nat)
    requires Ok(q) == DecodeSequence(s, at, version, order, translate)
    ensures var sprites := ReadI32(s, at + 52, order).value;
            && ReadFixedString(s, at, 32) == Ok(q.name)
            && ReadInt16(s, at + 32, order) == Ok(q.firstSubmapIndex)
            && ReadInt16(s, at + 34, order) == Ok(q.bitmapCount)
            && |q.sprites.items| == (if sprites > 0 then sprites else 0)
            && (k < |q.sprites.items| ==>
                  Ok(q.sprites.items[k]) == DecodeSprite(s, Address(q.sprites.pointer, translate) + k * SPRITE_STRIDE, order))
  {
    CollectionAt(q.sprites, s, at + 52, order, translate, version, SPRITE_STRIDE, SpriteElement(order), k);
  }

  /** Entry `k` of a resource collection (Resources at 140 or
      InterleavedResources at 152 of the tag) is the pair of int32 at
      `Address + 8k`, and the collection has its declared count of entries. */
  lemma TagResources(c: BlockCollection<BitmapResourceBlock>, s: seq<byte>, at: nat, order: ByteOrder,
                     translate: int -> int, version: int, k: nat)
    requires Ok(c) == BlockCollectionSpec(s, at, order, Some(translate), version, RESOURCE_STRIDE, ResourceElement(order))
    ensures var count := ReadI32(s, at, order).value;
            |c.items| == (if count > 0 then count else 0)
    ensures k < |c.items| ==>
              Ok(c.items[k]) == DecodeResource(s, Address(c.pointer, translate) + k * RESOURCE_STRIDE, order)
  {
    CollectionAt(c, s, at, order, translate, version, RESOURCE_STRIDE, ResourceElement(order), k);
  }

  // ----- ToDds -----

  /** The resource a submap's pixels come from: the interleaved resource the
      submap names when the tag has any, otherwise the resource of the same
      index; an index past its collection raises ArgumentOutOfRange. */
  function SubmapResource(tag: BitmapTag, index: nat): (r: Result<int>)
    requires index < |tag.bitmaps.items|
  {
    var submap := tag.bitmaps.items[index];
    if |tag.interleavedResources.items| > 0 then
      if submap.interleavedIndex < |tag.interleavedResources.items|
      then Ok(tag.interleavedResources.items[submap.interleavedIndex].resourcePointer)
      else Err(ArgumentOutOfRange)
    else if index < |tag.resources.items| then Ok(tag.resources.items[index].resourcePointer)
    else Err(ArgumentOutOfRange)
  }

  /** Whether the mip chain is read: MCC caches, array textures. */
  predicate UsesMips(b: BitmapDataBlock, ctx: CacheContext)
  {
    ctx.isMcc && b.bitmapType == ARRAY
  }

  /** `bitmap.ToDds(index)`.  `readData(resource, length)` is the resource's
      `ReadData(PageType.Auto, length)`, which pages data in from the cache
      files and is not part of this model. */
  function ToDds(tag: BitmapTag, ctx: CacheContext, index: int, readData: (int, int) -> seq<byte>)
    : (r: Result<DdsImage>)
    ensures index < 0 || index >= |tag.bitmaps.items| ==> r == Err(ArgumentOutOfRange)
  {
    if index < 0 || index >= |tag.bitmaps.items| then Err(ArgumentOutOfRange)
    else
      var submap := tag.bitmaps.items[index];
      var resource :- SubmapResource(tag, index);
      var useMips := UsesMips(submap, ctx);
      var length :- BitmapDataLength(Descriptor(submap, ctx), useMips);
      DdsSpec(Descriptor(submap, ctx), readData(resource, length), useMips)
  }

  /** For a submap in range, ToDds reads exactly GetBitmapDataLength(submap,
      useMips) bytes of the chosen resource and converts them. */
  lemma ToDdsReads(tag: BitmapTag, ctx: CacheContext, index: nat, readData: (int, int) -> seq<byte>)
    requires index < |tag.bitmaps.items|
    ensures var b := tag.bitmaps.items[index];
            var d := Descriptor(b, ctx);
            var useMips := UsesMips(b, ctx);
            && (SubmapResource(tag, index).Err? ==> ToDds(tag, ctx, index, readData) == Err(ArgumentOutOfRange))
            && (SubmapResource(tag, index).Ok? && !ctx.isMcc && SharedFormat(b.bitmapFormat) == Unknown ==>
                  ToDds(tag, ctx, index, readData) == Err(UnknownFormat))
            && (SubmapResource(tag, index).Ok? && BitmapDataLength(d, useMips).Ok? ==>
                  ToDds(tag, ctx, index, readData)
                  == DdsSpec(d, readData(SubmapResource(tag, index).value, BitmapDataLength(d, useMips).value), useMips))
  {
    var b := tag.bitmaps.items[index];
    DescriptorFormat(b, ctx);
    DescriptorShape(b, ctx);
  }

  /** Which resource pointer ToDds reads when the tag has interleaved
      resources (their count at 152 is positive): the pointer of entry
      InterleavedIndex of that collection, or ArgumentOutOfRange past its end. */
  lemma ResourceChoiceInterleaved(tag: BitmapTag, s: seq<byte>, pos: nat, order: ByteOrder,
                                  translate: int -> int, version: int, index: nat)
    requires Ok(tag.interleavedResources)
             == BlockCollectionSpec(s, pos + 152, order, Some(translate), version, RESOURCE_STRIDE, ResourceElement(order))
    requires index < |tag.bitmaps.items| && ReadI32(s, pos + 152, order).value > 0
    ensures var ii := tag.bitmaps.items[index].interleavedIndex;
            SubmapResource(tag, index)
            == if ii < ReadI32(s, pos + 152, order).value
               then Ok(DecodeResource(s, Address(tag.interleavedResources.pointer, translate) + ii * RESOURCE_STRIDE, order)
                         .value.resourcePointer)
               else Err(ArgumentOutOfRange)
  {
    TagResources(tag.interleavedResources, s, pos + 152, order, translate, version,
                 tag.bitmaps.items[index].interleavedIndex);
  }

  /** Which resource pointer ToDds reads when the tag has no interleaved
      resources: the pointer of entry `index` of Resources (count at 140), or
      ArgumentOutOfRange past its end. */
  lemma ResourceChoicePlain(tag: BitmapTag, s: seq<byte>, pos: nat, order: ByteOrder,
                            translate: int -> int, version: int, index: nat)
    requires Ok(tag.resources)
             == BlockCollectionSpec(s, pos + 140, order, Some(translate), version, RESOURCE_STRIDE, ResourceElement(order))
    requires index < |tag.bitmaps.items| && tag.interleavedResources.items == []
    ensures SubmapResource(tag, index)
            == if index < ReadI32(s, pos + 140, order).value
               then Ok(DecodeResource(s, Address(tag.resources.pointer, translate) + index * RESOURCE_STRIDE, order)
                         .value.resourcePointer)
               else Err(ArgumentOutOfRange)
  {
    TagResources(tag.resources, s, pos + 140, order, translate, version, index);
  }

  /** The image ToDds produces: a cube map exactly for CubeMap submaps, an
      array of FrameCount frames exactly for Array submaps, and a mip chain
      only on MCC array submaps that have mipmaps. */
  lemma ToDdsImage(tag: BitmapTag, ctx: CacheContext, index: nat, readData: (int, int) -> seq<byte>)
    requires index < |tag.bitmaps.items| && ToDds(tag, ctx, index, readData).Ok?
    ensures var b := tag.bitmaps.items[index];
            var img := ToDds(tag, ctx, index, readData).value;
            && img.width == b.width && img.height == b.height
            && (img.cubemapAllFaces <==> b.bitmapType == CUBE_MAP)
            && img.arraySize == (if b.bitmapType == ARRAY then Some(b.depth) else None)
            && (img.mipmapCount.Some? <==> ctx.isMcc && b.bitmapType == ARRAY && b.mipmapCount != 0)
  {
    var b := tag.bitmaps.items[index];
    DescriptorShape(b, ctx);
    ToDdsReads(tag, ctx, index, readData);
  }
}
