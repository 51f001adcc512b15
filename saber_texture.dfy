/** Saber3D.Halo1X.Texture: the header of a texture pak item, parsed by
    seeking on a reader whose byte order the magic decides, its constant
    IBitmapData view, and the extraction of its single image as DDS. */
module SaberTexture {

  import opened Wrappers
  import opened Numerics
  import opened Bytes
  import opened Int32
  import opened Formats
  import opened Schema
  import opened Layout
  import opened Stream
  import opened TextureSize
  import opened Dds

  /** "TCIP": the int32 at 6 of a little-endian texture. */
  const LITTLE_HEADER := 0x50494354
  /** "PICT": the int32 at 8 of a big-endian texture, in the reader's first byte order. */
  const BIG_HEADER := 0x54434950

  /** Saber3D TextureFormat.DXT1 and its duplicate AlsoDXT1. */
  const SABER_DXT1 := 12
  const ALSO_DXT1 := 13

  /** The fields the constructor sets. `format` is the raw TextureFormat
      value after AlsoDXT1 is folded into DXT1. */
  datatype TextureHeader = TextureHeader(
    width: int, height: int, mapCount: int, format: int, dataOffset: int, isBigEndian: bool)

  // The field positions of the two layouts.

  function WidthOffset(big: bool): nat { if big then 12 else 16 }
  function MapCountOffset(big: bool): nat { if big then 24 else 28 }
  function FormatOffset(big: bool): nat { if big then 32 else 38 }
  function DataOffsetOf(big: bool): int { if big then 4096 else 58 }
  function OrderOf(big: bool): ByteOrder { if big then BigEndian else LittleEndian }

  /** Which layout the magic selects, reading in the reader's first byte
      order `order`: little-endian when the int32 at 6 is TCIP, otherwise
      big-endian when the int32 at 8 is PICT, otherwise not a texture. */
  function Endianness(s: seq<byte>, order: ByteOrder): (r: Result<bool>)
    ensures r == Ok(false) <==> ReadI32(s, 6, order) == Ok(LITTLE_HEADER)
    ensures r == Ok(true) <==> ReadI32(s, 6, order).Ok? && ReadI32(s, 6, order).value != LITTLE_HEADER
                               && ReadI32(s, 8, order) == Ok(BIG_HEADER)
    ensures r.Err? && r.error == NotASaberTexture <==>
              && ReadI32(s, 6, order).Ok? && ReadI32(s, 6, order).value != LITTLE_HEADER
              && ReadI32(s, 8, order).Ok? && ReadI32(s, 8, order).value != BIG_HEADER
  {
    var head :- ReadI32(s, 6, order);
    if head == LITTLE_HEADER then Ok(false)
    else
      var second :- ReadI32(s, 8, order);
      if second == BIG_HEADER then Ok(true) else Err(NotASaberTexture)
  }

  /** What the constructor reads from the item's bytes `s` (the virtual
      reader starts at the item's address) when the reader starts in `order`. */
  function ParseHeader(s: seq<byte>, order: ByteOrder): (r: Result<TextureHeader>)
    ensures r.Ok? ==> r.value.format != ALSO_DXT1
    ensures r.Ok? ==> Endianness(s, order) == Ok(r.value.isBigEndian)
    ensures Endianness(s, order).Err? ==> r == Err(Endianness(s, order).error)
  {
    var big :- Endianness(s, order);
    var o := OrderOf(big);
    var width :- ReadI32(s, WidthOffset(big), o);
    var height :- ReadI32(s, WidthOffset(big) + 4, o);
    var mapCount :- ReadI32(s, MapCountOffset(big), o);
    var raw :- ReadI32(s, FormatOffset(big), o);
    Ok(TextureHeader(width, height, mapCount, if raw == ALSO_DXT1 then SABER_DXT1 else raw,
                     DataOffsetOf(big), big))
  }

  /** The constructor's parse on the item's virtual reader: the reader's
      byte order is switched once the magic is known, and every later field
      is read in it. */
  method ReadHeader(reader: Reader) returns (r: Result<TextureHeader>)
    modifies reader
    ensures r == ParseHeader(reader.data, old(reader.order))
    ensures r.Ok? ==> reader.order == OrderOf(r.value.isBigEndian)
  {
    ghost var first := reader.order;
    var _ := reader.Seek(6);
    var head := reader.ReadInt32();
    if head.Err? {
      return Err(head.error);
    }
    var big := false;
    if head.value == LITTLE_HEADER {
      reader.order := LittleEndian;
    } else {
      var _ := reader.Seek(8);
      var second := reader.ReadInt32();
      if second.Err? {
        return Err(second.error);
      }
      if second.value == BIG_HEADER {
        reader.order := BigEndian;
      } else {
        return Err(NotASaberTexture);
      }
      big := true;
    }
    assert Endianness(reader.data, first) == Ok(big);
    var _ := reader.Seek(WidthOffset(big));
    var width := reader.ReadInt32();
    if width.Err? {
      return Err(width.error);
    }
    var height := reader.ReadInt32();
    if height.Err? {
      return Err(height.error);
    }
    var _ := reader.Seek(MapCountOffset(big));
    var mapCount := reader.ReadInt32();
    if mapCount.Err? {
      return Err(mapCount.error);
    }
    var _ := reader.Seek(FormatOffset(big));
    var format := reader.ReadInt32();
    if format.Err? {
      return Err(format.error);
    }
    var f := format.value;
    if f == ALSO_DXT1 {
      f := SABER_DXT1;
    }
    r := Ok(TextureHeader(width.value, height.value, mapCount.value, f, DataOffsetOf(big), big));
  }

  // ----- The header written back -----

  /** A header a texture can carry: int32 fields, the folded format and the
      data offset of its layout. */
  predicate HeaderFits(h: TextureHeader)
  {
    && IsInt32(h.width) && IsInt32(h.height) && IsInt32(h.mapCount) && IsInt32(h.format)
    && h.format != ALSO_DXT1 && h.dataOffset == DataOffsetOf(h.isBigEndian)
  }

  const ENCODED_SIZE := 42

  /** The header's slots in its layout; a big-endian header keeps bytes 6
      and 7 clear so that the int32 at 6 cannot be TCIP. */
  function HeaderSlots(h: TextureHeader, order: ByteOrder): (slots: seq<Slot>)
    requires HeaderFits(h)
    ensures WellPlaced(slots, ENCODED_SIZE)
  {
    var o := OrderOf(h.isBigEndian);
    var magic := if h.isBigEndian then [Slot(6, [0, 0]), I32Slot(8, BIG_HEADER, order)]
                 else [I32Slot(6, LITTLE_HEADER, order)];
    var fields := [ I32Slot(WidthOffset(h.isBigEndian), h.width, o), I32Slot(WidthOffset(h.isBigEndian) + 4, h.height, o),
                    I32Slot(MapCountOffset(h.isBigEndian), h.mapCount, o), I32Slot(FormatOffset(h.isBigEndian), h.format, o) ];
    PlacedAppend(magic, fields, ENCODED_SIZE);
    magic + fields
  }

  /** The first 42 bytes of a texture item with header `h`, for a reader
      that starts in `order`. */
  function EncodeHeader(h: TextureHeader, order: ByteOrder): (r: seq<byte>)
    requires HeaderFits(h)
    ensures |r| == ENCODED_SIZE
  {
    PlacedInside(HeaderSlots(h, order), ENCODED_SIZE);
    Write(ENCODED_SIZE, HeaderSlots(h, order))
  }

  /** An int32 whose first two bytes are clear is never TCIP, in either order. */
  lemma ClearNotLittle(s: seq<byte>, order: ByteOrder)
    requires |s| >= 10 && s[6] == 0 && s[7] == 0
    ensures ReadI32(s, 6, order) != Ok(LITTLE_HEADER)
  {
  }

  /** The magic of a written header selects its layout. */
  lemma EncodedEndianness(h: TextureHeader, order: ByteOrder)
    requires HeaderFits(h)
    ensures Endianness(EncodeHeader(h, order), order) == Ok(h.isBigEndian)
  {
    var slots := HeaderSlots(h, order);
    var s := EncodeHeader(h, order);
    if h.isBigEndian {
      WriteAt(slots, ENCODED_SIZE, 0);
      SliceAt(s, 6, 2, 0);
      SliceAt(s, 6, 2, 1);
      ClearNotLittle(s, order);
      SlotI32(slots, ENCODED_SIZE, 1, BIG_HEADER, order);
    } else {
      SlotI32(slots, ENCODED_SIZE, 0, LITTLE_HEADER, order);
    }
  }

  /** The fields of a written header read back at the offsets of its layout. */
  lemma EncodedFields(h: TextureHeader, order: ByteOrder)
    requires HeaderFits(h)
    ensures var s := EncodeHeader(h, order);
            var o := OrderOf(h.isBigEndian);
            && ReadI32(s, WidthOffset(h.isBigEndian), o) == Ok(h.width)
            && ReadI32(s, WidthOffset(h.isBigEndian) + 4, o) == Ok(h.height)
            && ReadI32(s, MapCountOffset(h.isBigEndian), o) == Ok(h.mapCount)
            && ReadI32(s, FormatOffset(h.isBigEndian), o) == Ok(h.format)
  {
    var slots := HeaderSlots(h, order);
    var o := OrderOf(h.isBigEndian);
    var m := if h.isBigEndian then 2 else 1;
    SlotI32(slots, ENCODED_SIZE, m, h.width, o);
    SlotI32(slots, ENCODED_SIZE, m + 1, h.height, o);
    SlotI32(slots, ENCODED_SIZE, m + 2, h.mapCount, o);
    SlotI32(slots, ENCODED_SIZE, m + 3, h.format, o);
  }

  /** Parsing a written header gives it back: the magic picks the layout and
      every field sits at the offset of that layout. */
  lemma HeaderRoundTrip(h: TextureHeader, order: ByteOrder)
    requires HeaderFits(h)
    ensures ParseHeader(EncodeHeader(h, order), order) == Ok(h)
  {
    EncodedEndianness(h, order);
    EncodedFields(h, order);
  }

  // ----- The IBitmapData view -----

  /** `ToString()` of a Saber3D TextureFormat value. */
  function SaberFormatText(raw: int): EnumText
  {
    match raw
    case 0 => Name("A8R8G8B8") case 10 => Name("A8Y8") case 12 => Name("DXT1") case 13 => Name("AlsoDXT1")
    case 15 => Name("DXT3") case 17 => Name("DXT5") case 22 => Name("X8R8G8B8") case 36 => Name("DXN")
    case 37 => Name("DXT5a")
    case _ => Numeral(raw)
  }

  /** The KnownTextureFormat a Saber3D value parses to: the same name where
      both enumerations have it, Unknown for AlsoDXT1, and a value with no
      Saber3D name read as a KnownTextureFormat number. */
  function SaberShared(raw: int): KnownTextureFormat
  {
    match raw
    case 0 => A8R8G8B8 case 10 => A8Y8 case 12 => DXT1 case 13 => Unknown case 15 => DXT3
    case 17 => DXT5 case 22 => X8R8G8B8 case 36 => DXN case 37 => DXT5a
    case _ => FormatByOrdinal(raw)
  }

  lemma ParseSaberFormat(raw: int)
    ensures ParseFormat(SaberFormatText(raw)) == SaberShared(raw)
  {
    if raw == 0 || raw == 10 || raw == 12 {
      ParseSaberLow(raw);
    } else if raw == 13 || raw == 15 || raw == 17 {
      ParseSaberMiddle(raw);
    } else if raw == 22 || raw == 36 || raw == 37 {
      ParseSaberHigh(raw);
    }
  }

  // The names, three at a time.

  lemma ParseSaberLow(raw: int)
    requires raw == 0 || raw == 10 || raw == 12
    ensures ParseFormat(SaberFormatText(raw)) == SaberShared(raw)
  {
    if raw == 0 {
    } else if raw == 10 {
    } else {
    }
  }

  lemma ParseSaberMiddle(raw: int)
    requires raw == 13 || raw == 15 || raw == 17
    ensures ParseFormat(SaberFormatText(raw)) == SaberShared(raw)
  {
    if raw == 13 {
    } else if raw == 15 {
    } else {
    }
  }

  lemma ParseSaberHigh(raw: int)
    requires raw == 22 || raw == 36 || raw == 37
    ensures ParseFormat(SaberFormatText(raw)) == SaberShared(raw)
  {
    if raw == 22 {
    } else if raw == 36 {
    } else {
    }
  }

  /** The texture as IBitmapData, with BitmapFormat and BitmapType (the
      text "Texture2D") after the engine's ParseToEnum. */
  function Descriptor(h: TextureHeader): BitmapData
  {
    BitmapData(h.width, h.height, 1, 0, h.mapCount, ParseFormat(SaberFormatText(h.format)),
               ParseType(Name("Texture2D")), OrderOf(h.isBigEndian), false, false)
  }

  /** The view is constant apart from the parsed fields: one layer, no mips,
      MapCount frames, a 2D texture, unpadded and unswizzled, big-endian
      exactly for a big-endian item. */
  lemma DescriptorConstant(h: TextureHeader)
    ensures var d := Descriptor(h);
            && d.width == h.width && d.height == h.height
            && d.depth == 1 && d.mipmapCount == 0 && d.frameCount == h.mapCount
            && d.textureType == Texture2D && !d.usesPadding && !d.swizzled
            && (d.byteOrder == BigEndian <==> h.isBigEndian)
            && d.format == SaberShared(h.format)
  {
    ParseSaberFormat(h.format);
  }

  /** The bytes GetBitmapDataLength asks for: one unpadded frame per map,
      `width * height * bpp / 8 * max(1, MapCount)`, in wrapping `int` arithmetic. */
  lemma DataLength(h: TextureHeader)
    ensures BitmapDataLength(Descriptor(h), false)
            == Ok(Wrap32(FrameSize(h.width, h.height, Descriptor(h).format) * Max(1, h.mapCount)))
  {
  }

  // ----- ToDds -----

  /** `ToDds(index)`: only submap 0 exists; the payload is the
      GetBitmapDataLength bytes at `address + DataOffset` of the container
      (fewer where the container ends first), and GetDds converts it without mips. */
  function ToDdsSpec(h: TextureHeader, container: seq<byte>, address: int, index: int): (r: Result<DdsImage>)
    ensures index != 0 ==> r == Err(ArgumentOutOfRange)
  {
    if index < 0 || index >= 1 then Err(ArgumentOutOfRange)
    else if address + h.dataOffset < 0 then Err(EndOfStream)
    else
      var data :- TakeBytes(container, address + h.dataOffset, BitmapDataLength(Descriptor(h), false).value);
      DdsSpec(Descriptor(h), data, false)
  }

  /** `ToDds(index)` on a fresh reader over the container. */
  method ToDds(h: TextureHeader, container: seq<byte>, address: int, index: int) returns (r: Result<DdsImage>)
    ensures r == ToDdsSpec(h, container, address, index)
  {
    if index < 0 || index >= 1 {
      return Err(ArgumentOutOfRange);
    }
    var reader := new Reader(container, LittleEndian);
    var e := reader.Seek(address + h.dataOffset);
    if e.Some? {
      return Err(e.value);
    }
    var length := GetBitmapDataLength(Descriptor(h), false);
    var data := reader.ReadBytes(length.value);
    if data.Err? {
      return Err(data.error);
    }
    var payload := data.value;
    var buffer := new byte[|payload|](i requires 0 <= i < |payload| => payload[i]);
    assert buffer[..] == payload;
    r := GetDds(Descriptor(h), buffer, false);
  }

  /** With the whole payload in the container, ToDds converts exactly the
      GetBitmapDataLength bytes at `address + DataOffset`. */
  lemma ToDdsReadsPayload(h: TextureHeader, container: seq<byte>, address: int)
    requires var n := Wrap32(FrameSize(h.width, h.height, Descriptor(h).format) * Max(1, h.mapCount));
             && 0 <= address + h.dataOffset && 0 <= n && address + h.dataOffset + n <= |container|
    ensures var pos := address + h.dataOffset;
            var n := Wrap32(FrameSize(h.width, h.height, Descriptor(h).format) * Max(1, h.mapCount));
            ToDdsSpec(h, container, address, 0) == DdsSpec(Descriptor(h), container[pos..pos + n], false)
  {
    DataLength(h);
  }

  /** A length that wraps negative makes the read throw ArgumentOutOfRange, as
      ReadBytes does for a negative count. */
  lemma ToDdsNegativeLength(h: TextureHeader, container: seq<byte>, address: int)
    requires 0 <= address + h.dataOffset
    requires Wrap32(FrameSize(h.width, h.height, Descriptor(h).format) * Max(1, h.mapCount)) < 0
    ensures ToDdsSpec(h, container, address, 0) == Err(ArgumentOutOfRange)
  {
    DataLength(h);
  }

  /** One 8192 x 8192 A8R8G8B8 map is 2^31 bytes, whose length wraps to
      -2^28, so ToDds fails instead of reading the payload. */
  lemma ToDdsOverflowExample(container: seq<byte>)
    ensures ToDdsSpec(TextureHeader(8192, 8192, 1, 0, 58, false), container, 0, 0) == Err(ArgumentOutOfRange)
  {
    var h := TextureHeader(8192, 8192, 1, 0, 58, false);
    ParseSaberFormat(0);
    assert Descriptor(h).format == A8R8G8B8;
    assert Wrap32(8192 * 8192) == 0x400_0000;
    assert Wrap32(0x400_0000 * 32) == -TWO_31;
    assert CsDiv(-TWO_31, 8) == -268435456;
    assert FrameSize(8192, 8192, A8R8G8B8) == -268435456;
    ToDdsNegativeLength(h, container, 0);
  }

  /** The image of a texture is a plain 2D image: no cube-map faces, no
      array size and no mip chain. */
  lemma ToDdsPlainImage(h: TextureHeader, container: seq<byte>, address: int, index: int)
    requires ToDdsSpec(h, container, address, index).Ok?
    ensures var img := ToDdsSpec(h, container, address, index).value;
            && index == 0 && img.width == h.width && img.height == h.height
            && !img.cubemapAllFaces && img.arraySize.None? && img.mipmapCount.None?
  {
  }
}
