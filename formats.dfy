/** Pixel-format identifiers of the DDS container library (System.Drawing.Dds),
    the subset the engine maps KnownTextureFormat onto. */
module DdsFormats {

  /** DxgiFormat members the engine maps to. */
  datatype DxgiFormat =
    | BC1_UNorm | BC2_UNorm | BC3_UNorm | BC7_UNorm | B8G8R8A8_UNorm | B8G8R8X8_UNorm
    | B5G6R5_UNorm | B5G5R5A1_UNorm | B4G4R4A4_UNorm

  /** XboxFormat members the engine maps to. */
  datatype XboxFormat =
    | A8 | Y8A8 | AY8 | CTX1 | DXT3a_mono | DXT3a_alpha | DXT5a_scalar | DXT5a_mono
    | DXT5a_alpha | DXN | DXN_SNorm | DXN_mono_alpha | Y8 | V8U8

  /** The pixel format a DDS image is written with. */
  datatype DdsFormat = Dxgi(dxgi: DxgiFormat) | Xbox(xbox: XboxFormat)
}

/** Per-format lookup tables of the texture engine (TextureUtils): the
    KnownTextureFormat enumeration, name-based parsing into it, the five
    per-format constants and the two maps onto DDS format identifiers. */
module Formats {

  import opened Wrappers
  import DdsFormats

  /** KnownTextureFormat in declaration order (ordinals 0..29).  `Other(n)`
      is an enum value with no name, which Enum.TryParse yields for numeral text. */
  datatype KnownTextureFormat =
    | Unknown | A8 | Y8 | AY8 | A8Y8 | R5G6B5 | A1R5G5B5 | A4R4G4B4 | X8R8G8B8 | A8R8G8B8
    | DXT1 | DXT3 | DXT5 | P8_bump | P8 | ARGBFP32 | RGBFP32 | RGBFP16 | U8V8 | DXT5a
    | DXN | DXN_SNorm | CTX1 | DXT3a_alpha | DXT3a_mono | DXT5a_alpha | DXT5a_mono | DXN_mono_alpha | BC4_unorm | BC7_unorm
    | Other(value: int)

  datatype KnownTextureType = Texture2D | Texture3D | CubeMap | Array | OtherType(value: int)

  /** What `ToString()` of an enum value gives: its name, or a decimal numeral
      when the value has no name. */
  datatype EnumText = Name(name: string) | Numeral(value: int)

  datatype ByteOrder = LittleEndian | BigEndian

  function FormatByName(s: string): KnownTextureFormat
  {
    match s
    case "Unknown" => Unknown
    case "A8" => A8
    case "Y8" => Y8
    case "AY8" => AY8
    case "A8Y8" => A8Y8
    case "R5G6B5" => R5G6B5
    case "A1R5G5B5" => A1R5G5B5
    case "A4R4G4B4" => A4R4G4B4
    case "X8R8G8B8" => X8R8G8B8
    case "A8R8G8B8" => A8R8G8B8
    case "DXT1" => DXT1
    case "DXT3" => DXT3
    case "DXT5" => DXT5
    case "P8_bump" => P8_bump
    case "P8" => P8
    case "ARGBFP32" => ARGBFP32
    case "RGBFP32" => RGBFP32
    case "RGBFP16" => RGBFP16
    case "U8V8" => U8V8
    case "DXT5a" => DXT5a
    case "DXN" => DXN
    case "DXN_SNorm" => DXN_SNorm
    case "CTX1" => CTX1
    case "DXT3a_alpha" => DXT3a_alpha
    case "DXT3a_mono" => DXT3a_mono
    case "DXT5a_alpha" => DXT5a_alpha
    case "DXT5a_mono" => DXT5a_mono
    case "DXN_mono_alpha" => DXN_mono_alpha
    case "BC4_unorm" => BC4_unorm
    case "BC7_unorm" => BC7_unorm
    case _ => Unknown
  }

  function FormatByOrdinal(n: int): KnownTextureFormat
  {
    match n
    case 0 => Unknown case 1 => A8 case 2 => Y8 case 3 => AY8 case 4 => A8Y8
    case 5 => R5G6B5 case 6 => A1R5G5B5 case 7 => A4R4G4B4 case 8 => X8R8G8B8 case 9 => A8R8G8B8
    case 10 => DXT1 case 11 => DXT3 case 12 => DXT5 case 13 => P8_bump case 14 => P8
    case 15 => ARGBFP32 case 16 => RGBFP32 case 17 => RGBFP16 case 18 => U8V8 case 19 => DXT5a
    case 20 => DXN case 21 => DXN_SNorm case 22 => CTX1 case 23 => DXT3a_alpha case 24 => DXT3a_mono
    case 25 => DXT5a_alpha case 26 => DXT5a_mono case 27 => DXN_mono_alpha case 28 => BC4_unorm
    case 29 => BC7_unorm
    case _ => Other(n)
  }

  /** `ParseToEnum<KnownTextureFormat>()`: Enum.TryParse of the value's text,
      by name, or by numeral; text it cannot parse gives the default, Unknown. */
  function ParseFormat(t: EnumText): KnownTextureFormat
  {
    match t
    case Name(s) => FormatByName(s)
    case Numeral(n) => FormatByOrdinal(n)
  }

  function FormatName(f: KnownTextureFormat): string
    requires !f.Other?
  {
    match f
    case Unknown => "Unknown" case A8 => "A8" case Y8 => "Y8" case AY8 => "AY8" case A8Y8 => "A8Y8"
    case R5G6B5 => "R5G6B5" case A1R5G5B5 => "A1R5G5B5" case A4R4G4B4 => "A4R4G4B4"
    case X8R8G8B8 => "X8R8G8B8" case A8R8G8B8 => "A8R8G8B8" case DXT1 => "DXT1" case DXT3 => "DXT3"
    case DXT5 => "DXT5" case P8_bump => "P8_bump" case P8 => "P8" case ARGBFP32 => "ARGBFP32"
    case RGBFP32 => "RGBFP32" case RGBFP16 => "RGBFP16" case U8V8 => "U8V8" case DXT5a => "DXT5a"
    case DXN => "DXN" case DXN_SNorm => "DXN_SNorm" case CTX1 => "CTX1" case DXT3a_alpha => "DXT3a_alpha"
    case DXT3a_mono => "DXT3a_mono" case DXT5a_alpha => "DXT5a_alpha" case DXT5a_mono => "DXT5a_mono"
    case DXN_mono_alpha => "DXN_mono_alpha" case BC4_unorm => "BC4_unorm" case BC7_unorm => "BC7_unorm"
  }

  /** A format value is canonical when `Other` is kept for values without a name. */
  predicate Canonical(f: KnownTextureFormat) { f.Other? ==> !(0 <= f.value <= 29) }

  /** `ToString()` of a KnownTextureFormat value. */
  function FormatText(f: KnownTextureFormat): EnumText
  {
    if f.Other? then Numeral(f.value) else Name(FormatName(f))
  }

  /** Parsing is the identity on KnownTextureFormat values: a format that is
      already known (as DXNSwap returns it) parses back to itself. */
  lemma ParseFormatText(f: KnownTextureFormat)
    requires Canonical(f)
    ensures ParseFormat(FormatText(f)) == f
  {
    if f.Other? {
    } else if f.Unknown? || f.A8? || f.Y8? || f.AY8? || f.A8Y8? || f.R5G6B5? || f.A1R5G5B5? || f.A4R4G4B4? {
      ParseNameLow(f);
    } else if f.X8R8G8B8? || f.A8R8G8B8? || f.DXT1? || f.DXT3? || f.DXT5? || f.P8_bump? || f.P8? || f.ARGBFP32? {
      ParseNameMiddle(f);
    } else if f.RGBFP32? || f.RGBFP16? || f.U8V8? || f.DXT5a? || f.DXN? || f.DXN_SNorm? || f.CTX1? {
      ParseNameHigh(f);
    } else if f.DXT3a_alpha? || f.DXT3a_mono? || f.DXT5a_alpha? || f.DXT5a_mono? {
      ParseNameUpper(f);
    } else {
      ParseNameTop(f);
    }
  }

  // The names, a few at a time.

  lemma ParseNameLow(f: KnownTextureFormat)
    requires f.Unknown? || f.A8? || f.Y8? || f.AY8? || f.A8Y8? || f.R5G6B5? || f.A1R5G5B5? || f.A4R4G4B4?
    ensures FormatByName(FormatName(f)) == f
  {
  }

  lemma ParseNameMiddle(f: KnownTextureFormat)
    requires f.X8R8G8B8? || f.A8R8G8B8? || f.DXT1? || f.DXT3? || f.DXT5? || f.P8_bump? || f.P8? || f.ARGBFP32?
    ensures FormatByName(FormatName(f)) == f
  {
  }

  lemma ParseNameHigh(f: KnownTextureFormat)
    requires f.RGBFP32? || f.RGBFP16? || f.U8V8? || f.DXT5a? || f.DXN? || f.DXN_SNorm? || f.CTX1?
    ensures FormatByName(FormatName(f)) == f
  {
  }

  lemma ParseNameUpper(f: KnownTextureFormat)
    requires f.DXT3a_alpha? || f.DXT3a_mono? || f.DXT5a_alpha? || f.DXT5a_mono?
    ensures FormatByName(FormatName(f)) == f
  {
  }

  lemma ParseNameTop(f: KnownTextureFormat)
    requires f.DXN_mono_alpha? || f.BC4_unorm? || f.BC7_unorm?
    ensures FormatByName(FormatName(f)) == f
  {
  }

  lemma ParseFormatCanonical(t: EnumText)
    ensures Canonical(ParseFormat(t))
  {
  }

  function ParseType(t: EnumText): KnownTextureType
  {
    match t
    case Name(s) =>
      (match s
       case "Texture2D" => Texture2D
       case "Texture3D" => Texture3D
       case "CubeMap" => CubeMap
       case "Array" => Array
       case _ => Texture2D)
    case Numeral(n) =>
      if n == 0 then Texture2D else if n == 1 then Texture3D
      else if n == 2 then CubeMap else if n == 3 then Array else OtherType(n)
  }

  /** GetBpp: bits used to store each pixel. */
  function Bpp(f: KnownTextureFormat): int
  {
    match f
    case A8R8G8B8 | X8R8G8B8 | ARGBFP32 | RGBFP32 => 32
    case A8 | Y8 | AY8 | P8_bump => 8
    case CTX1 | DXT1 | DXT3a_alpha | DXT3a_mono | DXT5a | DXT5a_alpha | DXT5a_mono | BC4_unorm => 4
    case DXT3 | DXT5 | DXN | DXN_mono_alpha | BC7_unorm => 8
    case _ => 16
  }

  /** GetLinearUnitSize: bytes per read/write unit, the unit of endian swaps. */
  function LinearUnitSize(f: KnownTextureFormat): int
  {
    match f
    case A8R8G8B8 | X8R8G8B8 => 4
    case A8 | Y8 | AY8 | P8_bump => 1
    case _ => 2
  }

  /** GetLinearBlockSize: width and height in pixels of one compressed block. */
  function LinearBlockSize(f: KnownTextureFormat): int
  {
    match f
    case DXT5a_mono | DXT5a_alpha | DXT1 | CTX1 | DXT5a | DXT3a_alpha | DXT3a_mono
       | DXT3 | DXT5 | DXN | DXN_mono_alpha => 4
    case _ => 1
  }

  /** GetLinearTexelPitch: bytes per compressed block. */
  function LinearTexelPitch(f: KnownTextureFormat): int
  {
    match f
    case DXT5a_mono | DXT5a_alpha | DXT1 | CTX1 | DXT5a | DXT3a_alpha | DXT3a_mono => 8
    case DXT3 | DXT5 | DXN | DXN_mono_alpha => 16
    case A8 | AY8 | P8 | P8_bump | Y8 => 1
    case A8R8G8B8 | X8R8G8B8 => 4
    case _ => 2
  }

  /** GetTileSize: the Xbox 360 alignment of texture dimensions. */
  function TileSize(f: KnownTextureFormat): int
  {
    match f
    case A8 | AY8 | A8R8G8B8 | X8R8G8B8 | A4R4G4B4 | R5G6B5 | U8V8 => 32
    case A8Y8 | Y8 | DXT5a_mono | DXT5a_alpha | DXT1 | CTX1 | DXT5a | DXT3a_alpha | DXT3a_mono
       | DXT3 | DXT5 | DXN | DXN_mono_alpha => 128
    case _ => 1
  }

  /** Every table entry is positive; the texel pitch is a power of two up to 16;
      the tile size is a multiple of the block size, so a size aligned to the
      tile is aligned to the block too. */
  lemma LookupShapes(f: KnownTextureFormat)
    ensures Bpp(f) in {4, 8, 16, 32}
    ensures LinearUnitSize(f) in {1, 2, 4}
    ensures LinearBlockSize(f) in {1, 4}
    ensures LinearTexelPitch(f) in {1, 2, 4, 8, 16}
    ensures TileSize(f) in {1, 32, 128}
    ensures TileSize(f) % LinearBlockSize(f) == 0
  {
  }

  /** dxgiLookup. */
  function DxgiLookup(f: KnownTextureFormat): Option<DdsFormats.DxgiFormat>
  {
    match f
    case DXT1 => Some(DdsFormats.BC1_UNorm)
    case DXT3 => Some(DdsFormats.BC2_UNorm)
    case DXT5 => Some(DdsFormats.BC3_UNorm)
    case BC7_unorm => Some(DdsFormats.BC7_UNorm)
    case A8R8G8B8 => Some(DdsFormats.B8G8R8A8_UNorm)
    case X8R8G8B8 => Some(DdsFormats.B8G8R8X8_UNorm)
    case R5G6B5 => Some(DdsFormats.B5G6R5_UNorm)
    case A1R5G5B5 => Some(DdsFormats.B5G5R5A1_UNorm)
    case A4R4G4B4 => Some(DdsFormats.B4G4R4A4_UNorm)
    case _ => None
  }

  /** xboxLookup. */
  function XboxLookup(f: KnownTextureFormat): Option<DdsFormats.XboxFormat>
  {
    match f
    case A8 => Some(DdsFormats.XboxFormat.A8)
    case A8Y8 => Some(DdsFormats.XboxFormat.Y8A8)
    case AY8 => Some(DdsFormats.XboxFormat.AY8)
    case CTX1 => Some(DdsFormats.XboxFormat.CTX1)
    case DXT3a_mono => Some(DdsFormats.XboxFormat.DXT3a_mono)
    case DXT3a_alpha => Some(DdsFormats.XboxFormat.DXT3a_alpha)
    case BC4_unorm => Some(DdsFormats.XboxFormat.DXT5a_scalar)
    case DXT5a => Some(DdsFormats.XboxFormat.DXT5a_scalar)
    case DXT5a_mono => Some(DdsFormats.XboxFormat.DXT5a_mono)
    case DXT5a_alpha => Some(DdsFormats.XboxFormat.DXT5a_alpha)
    case DXN => Some(DdsFormats.XboxFormat.DXN)
    case DXN_SNorm => Some(DdsFormats.XboxFormat.DXN_SNorm)
    case DXN_mono_alpha => Some(DdsFormats.XboxFormat.DXN_mono_alpha)
    case P8 => Some(DdsFormats.XboxFormat.Y8)
    case P8_bump => Some(DdsFormats.XboxFormat.Y8)
    case U8V8 => Some(DdsFormats.XboxFormat.V8U8)
    case Y8 => Some(DdsFormats.XboxFormat.Y8)
    case _ => None
  }

  /** The two maps have disjoint domains, and together they cover every format
      except Unknown, the three floating-point formats and unnamed values. */
  lemma LookupDomains(f: KnownTextureFormat)
    ensures !(DxgiLookup(f).Some? && XboxLookup(f).Some?)
    ensures DxgiLookup(f).None? && XboxLookup(f).None? <==>
            f in {Unknown, ARGBFP32, RGBFP32, RGBFP16} || f.Other?
  {
  }

  /** DXNSwap: DXN becomes DXN_SNorm when the swap is requested; any other
      format is returned as parsed. */
  function DXNSwap(f: KnownTextureFormat, shouldSwap: bool): (r: KnownTextureFormat)
    ensures r == DXN_SNorm <==> (shouldSwap && f == DXN) || f == DXN_SNorm
    ensures r != f ==> shouldSwap && f == DXN
  {
    if shouldSwap && f == DXN then DXN_SNorm else f
  }

  /** The IBitmapData view of a submap descriptor that the engine consumes.
      `format` and `textureType` hold BitmapFormat and BitmapType after ParseToEnum. */
  datatype BitmapData = BitmapData(
    width: int,
    height: int,
    depth: int,
    mipmapCount: int,
    frameCount: int,
    format: KnownTextureFormat,
    textureType: KnownTextureType,
    byteOrder: ByteOrder,
    usesPadding: bool,
    swizzled: bool)
}
