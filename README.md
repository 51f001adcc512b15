# Adjutant texture and cache-index core, modelled in Dafny

Adjutant reads game cache files from the Halo series and from the Saber3D engine (Halo 1 Anniversary).
It converts the bitmaps stored in them to DDS images.
This project models the part that decides how many bytes a bitmap occupies and how those bytes become a DDS image:

- **Texture utilities.** These are the format tables and the DDS conversion.
  - The format tables give bits per pixel, linear unit, block and texel sizes, tile sizes, and the DXGI and Xbox DDS format lookups.
  - The conversion computes the virtual (padded) size and the byte length of a submap.
  - It swaps the endianness of big-endian payloads.
  - It swizzles and deswizzles original-Xbox textures with the Morton-style `MaskSet`.
  - It scrambles Xbox 360 tiled textures with `XGAddress2DTiledX/Y`. For a 32-by-32 A8R8G8B8 texture the tiler is proved to permute the blocks, so tiling there is undone by untiling.
  - It crops padded faces back to their real size.
  - It derives the DDS header fields from `IBitmapData`.
- **The Halo 2 cache file.** This covers the 2048-byte header, with its version-dependent field offsets, and the tag index:
  - the index header;
  - the 16-byte index items;
  - the file-name table that `ReadItems` fills;
  - the item indexer;
  - `ClassCode` and `FileName`.
- **The Halo 3 `bitmap` tag.** This covers:
  - its block collections;
  - the version-dependent stride of a `BitmapDataBlock`;
  - the `IBitmapData` view of a submap;
  - `ToDds`, which picks the resource of a submap and converts it.
- **The Halo 3 `BlockCollection`.** This is a count and a translated pointer, followed by that many fixed-stride records.
- **The Halo 4 `cache_file_resource_layout_table`.** This covers its three collections and the shared-cache, page and segment records.
- **The Saber3D texture pak item.** This covers:
  - its magic, which decides the byte order;
  - the two header layouts;
  - its constant `IBitmapData` view;
  - its extraction to DDS.

## How the model is built

Pure computations are functions:
- the lookups;
- the size arithmetic;
- the record decoders.

Each fixed-size record decoder has an encoder and a round-trip lemma beside it. The Halo 3 sequence record's round trip covers a sequence with no sprites, since the sprites live outside the record. The two tag-level decoders, `DecodeBitmapTag` and `DecodeLayoutTable`, read only collections. Lemmas state where each entry of those collections is read instead.

Code that changes things step by step is imperative Dafny:
- the byte reader;
- `CacheIndex`, a class whose `items` and `filenames` the methods fill;
- the in-place endian swap on an `array<byte>`;
- the swizzle, scramble and crop loops.

Each method is proved equal to a specification function, and the properties are proved about that function.

Design choices:
- **Declarative record layouts.** `[Offset]`, `[FixedSize]` and `[VersionNumber]` are modelled by `Schema`. An attribute list with version ranges resolves to its first applicable alternative. `MinVersion` is inclusive and `MaxVersion` exclusive.
- **Address translators.** These are function parameters (`int -> int`).
- **Version numbers.** The `CacheType` ordinals of the Halo 3 family are parameters (`Gen3Versions`).
- **Enum parsing.** `ParseToEnum` compares names. An enum value is therefore modelled by its `ToString()` text: a name, or a numeral for an unnamed value. A numeral parses to the format with that number. `Other(n)` stands for a number the shared enumeration does not name.
- **Integer widths.**
  - Wrapping C# `int` arithmetic is written out with `Wrap32` in GetBitmapDataLength, in the array height of GetDds, in the Halo 2 name offsets and in the Xbox 360 scramble geometry and block offsets. The single-precision rounding in the scramble geometry is not modelled (see X360Tiling.TileRound under "## Left out"). The crop allocation, the swizzle offsets and the record addresses are exact integers (see "## Left out").
  - The Xbox 360 tiling functions are computed on `bv32` with an arithmetic right shift.
  - C# integer division truncates toward zero (`CsDiv`, `CsRem`).
- **Doubles.**
  - `Math.Ceiling(a / (double)b)` is integer ceiling division.
  - The mip-height sum `Σ h / 4^i` is kept as an exact real.
- **Failures.** Every thrown exception is an `Err` of `Wrappers.Failure`. `null` results are `Option`s.

## Model

| member | source | states |
|---|---|---|
| Formats.ParseFormatText | Adjutant/Utilities/TextureUtils.cs:97-107 | parsing the `ToString()` text of any KnownTextureFormat value, a name or the numeral of an unnamed value, gives that value back |
| Formats.ParseFormatCanonical | Adjutant/Utilities/TextureUtils.cs:55-107 | every parse yields a canonical value: a number that names a format (0 to 29) always parses to that named format, never to Other |
| Formats.LookupShapes | Adjutant/Utilities/TextureUtils.cs:110-256 | bpp is 4, 8, 16 or 32; the unit is 1, 2 or 4 bytes; a block is 1 or 4 texels; the texel pitch is 1 to 16 bytes; a tile is 1, 32 or 128 texels and a whole number of blocks |
| Formats.LookupDomains | Adjutant/Utilities/TextureUtils.cs:17-49 | no format is in both the DXGI and the Xbox lookup; exactly Unknown, ARGBFP32, RGBFP32, RGBFP16 and unnamed values are in neither |
| Formats.DXNSwap | Adjutant/Utilities/TextureUtils.cs:311-317 | the result is DXN_SNorm exactly when swapping DXN or when the input already is DXN_SNorm; any other format is left unchanged |
| TextureSize.VirtualSize | Adjutant/Utilities/TextureUtils.cs:262-276 | Unknown fails; otherwise the virtual width and height are the least multiples of the tile size that are at least the real size, and so are whole blocks |
| TextureSize.VirtualSizeIdempotent | Adjutant/Utilities/TextureUtils.cs:262-276 | padding an already padded size changes nothing |
| TextureSize.MipsSizeBounds | Adjutant/Utilities/TextureUtils.cs:358-363 | while n·(minUnit + frame) fits an int, no partial sum of the mip loop wraps and the bytes of n mip levels lie between n minimal units and n times the minimal unit plus the frame size |
| TextureSize.BitmapDataLength | Adjutant/Utilities/TextureUtils.cs:340-366 | the length fails exactly for a padded submap of Unknown format, and is otherwise an int32: the products and sums wrap as C# `int` arithmetic does |
| TextureSize.GetBitmapDataLength | Adjutant/Utilities/TextureUtils.cs:340-366 | the method, with its wrapping mip loop, computes BitmapDataLength |
| TextureSize.MipChainSize | Adjutant/Utilities/TextureUtils.cs:358-363 | the mip loop adds levels 1 to MipmapCount in int32 arithmetic, which is MipsSize of max(MipmapCount, 0) levels |
| TextureSize.DataLengthShape | Adjutant/Utilities/TextureUtils.cs:340-366 | while the true length fits an int32, the frame is exactly vw·vh·bpp/8; without mips the length is the frame times max(1, FrameCount); with n mip levels it lies between (frame + n minimal units) and (frame + n·(minimal unit + frame)) per frame |
| TextureSize.FrameSizeExact | Adjutant/Utilities/TextureUtils.cs:355 | when vw·vh·bpp fits an int32 the wrapped frame size is the exact, non-negative vw·vh·bpp/8 |
| TextureSize.LengthOverflows | Adjutant/Utilities/TextureUtils.cs:355 | one 8192×8192 A8R8G8B8 frame (2^31 bytes) wraps to the length -2^28 |
| TextureSize.NoMipsWithoutMipmaps | Adjutant/Utilities/TextureUtils.cs:342-343 | asking for mips on a submap with MipmapCount 0 gives the same length as not asking |
| EndianSwap.ChunkReverseInvolution | Adjutant/Utilities/TextureUtils.cs:386-394 | reversing every unit of a payload twice gives the payload back |
| EndianSwap.ChunkReverseAt | Adjutant/Utilities/TextureUtils.cs:386-394 | byte j of unit k of the swapped payload is byte unitSize-1-j of unit k of the original; a trailing partial unit is left as is |
| EndianSwap.ReverseRange | Adjutant/Utilities/TextureUtils.cs:392 | Array.Reverse reverses exactly the given range in place and keeps every other byte |
| EndianSwap.ReverseUnits | Adjutant/Utilities/TextureUtils.cs:386-394 | the in-place loop leaves ChunkReverse of the old bytes; it throws exactly when a partial unit of two or more bytes remains |
| Dds.DdsFormatOf | Adjutant/Utilities/TextureUtils.cs:417-421 | a format maps to its DXGI entry, otherwise its Xbox entry; it is not supported exactly when it has neither |
| Dds.GetDdsOf | Adjutant/Utilities/TextureUtils.cs:319-338 | Unknown throws; DXN on PC becomes Xbox DXN_SNorm; otherwise the format is DdsFormatOf's; height, width, payload and cube flag are the arguments |
| Dds.MipsHeightClosedForm | Adjutant/Utilities/TextureUtils.cs:400-402 | the mip-height sum of n levels is a(1 - 4^-n)/3 |
| Dds.MipsHeightBounds | Adjutant/Utilities/TextureUtils.cs:400-402 | the mip rows below an array of height a are at most a/3 and, with one level, at least a/4 |
| Dds.RoundUpToUnitShape | Adjutant/Utilities/TextureUtils.cs:404-405 | rounding the mip height up to the block size gives the least whole multiple of the block at or above it |
| Dds.MipsRowsShape | Adjutant/Utilities/TextureUtils.cs:400-405 | the added mip rows are a non-negative multiple of the block size, within one block of the exact sum |
| Dds.ArrayHeightShape | Adjutant/Utilities/TextureUtils.cs:396-408 | without mips the stacked height is virtual height times frames; with mips each frame adds the rounded mip rows |
| Dds.CropAsWrittenLosesRows | Adjutant/Utilities/TextureUtils.cs:278-299 | for a 100×100 DXT1 cube map padded to 128, the crop as written keeps 4 of 25 block rows and reads face 1 from row 5 |
| Dds.FaceCropRows | Adjutant/Utilities/TextureUtils.cs:278-309 | the corrected crop copies every block row of every face out of the padded face into its place in the output |
| Dds.CropAsWrittenZeroFaces | Adjutant/Utilities/TextureUtils.cs:293-294 | with FrameCount 0 the crop as written throws DivideByZero, while the corrected crop crops one face |
| Dds.CropFaces | Adjutant/Utilities/TextureUtils.cs:278-309 | the method computes the corrected per-face crop |
| Dds.DdsSpec | Adjutant/Utilities/TextureUtils.cs:369-431 | the DDS format comes from the submap's format; width and height are kept; the cube flag is set exactly for cube maps; an array gets arraySize FrameCount; a mip count (MipmapCount + 1) is written exactly with mips on and a nonzero count; a padded Unknown submap throws, and so does a payload the swap cannot cover |
| Dds.GetDds | Adjutant/Utilities/TextureUtils.cs:369-431 | returns DdsSpec of the payload it was given and leaves the byte-swapped payload in the caller's array |
| Dds.PlainPayloadPassesThrough | Adjutant/Utilities/TextureUtils.cs:369-431 | a little-endian, unswizzled, unpadded submap keeps its payload, and without array or mips it is the six-argument GetDds |
| Dds.BigEndianPayloadReversed | Adjutant/Utilities/TextureUtils.cs:386-394 | a big-endian payload of whole units comes out unit-reversed, and reversing it again gives the original |
| Dds.FormatIndependentOfPayload | Adjutant/Utilities/TextureUtils.cs:416-428 | two successful conversions of the same submap differ only in their payload |
| Crop.CopyRow | Adjutant/Utilities/TextureUtils.cs:305 | Array.Copy of one row succeeds exactly when the source row lies inside the data, and then copies it |
| Crop.CopyFaces | Adjutant/Utilities/TextureUtils.cs:298-308 | the nested face and row loops compute FacesCopied |
| Crop.ApplyCrop | Adjutant/Utilities/TextureUtils.cs:278-309 | the method computes Crop, the function of the code as written |
| Crop.CropRows | Adjutant/Utilities/TextureUtils.cs:298-308 | the crop succeeds exactly when every source row lies inside the data; then the output has outRows × outStride × faces bytes and each row is the source row |
| Crop.CropEdgeCases | Adjutant/Utilities/TextureUtils.cs:283-298 | no shrink returns the data itself; Unknown throws; zero faces divides by zero; a negative length overflows; no rows gives zeros |
| XboxSwizzle.CeilLog2Spec | Adjutant/Utilities/TextureUtils.cs:450-471 | the number of rounds a dimension takes part in is the least j with 2^j ≥ n |
| XboxSwizzle.MasksPartition | Adjutant/Utilities/TextureUtils.cs:445-473 | the three masks are pairwise disjoint, together cover every bit below the top, and give ceil(log2 w), ceil(log2 h), ceil(log2 d) bits to x, y, z |
| XboxSwizzle.GrowRound | Adjutant/Utilities/TextureUtils.cs:452-470 | one round of the constructor's loop is one step of the mask function |
| XboxSwizzle.MaskSet.constructor | Adjutant/Utilities/TextureUtils.cs:445-473 | the constructor's loop builds exactly the masks of the function |
| XboxSwizzle.SwizzleAxis | Adjutant/Utilities/TextureUtils.cs:521-537 | the loop deposits the low bits of the value, in order, into the set bits of the mask (a bit deposit) |
| XboxSwizzle.InterleaveBits | Adjutant/Utilities/TextureUtils.cs:516-519 | each bit of the swizzled index comes from the one coordinate whose mask owns it |
| XboxSwizzle.SwizzleIndex | Adjutant/Utilities/TextureUtils.cs:516-519 | the index is the or of the three deposits, z included except when it is -1 |
| XboxSwizzle.Swizzle | Adjutant/Utilities/TextureUtils.cs:480-514 | the triple loop computes SwizzleSpec: null, an exception or the permuted bytes |
| XboxSwizzle.Deswizzle | Adjutant/Utilities/TextureUtils.cs:475-478 | the overload is Swizzle with deswizzle set |
| SwizzleRoundTrip.SwizzledInjective | Adjutant/Utilities/TextureUtils.cs:480-514 | on a power-of-two texture no two texels get the same swizzled index |
| SwizzleRoundTrip.DeswizzleUndoesSwizzle | Adjutant/Utilities/TextureUtils.cs:475-514 | deswizzling a swizzled 2^a × 2^b texture gives it back |
| SwizzleRoundTrip.SwizzleUndoesDeswizzle | Adjutant/Utilities/TextureUtils.cs:475-514 | swizzling a deswizzled 2^a × 2^b texture gives it back |
| SwizzleRoundTrip.SwizzleNull | Adjutant/Utilities/TextureUtils.cs:504-509 | the swizzle returns null exactly when some texel's source or target offset is past the end of the data |
| Bits.DepositWithinMask | Adjutant/Utilities/TextureUtils.cs:521-537 | a deposit never sets a bit outside the mask |
| X360Tiling.TiledX | Adjutant/Utilities/TextureUtils.cs:597-612 | the tiled x is an int32, and the call throws exactly when the int division by the macro-tile count fails |
| X360Tiling.TiledY | Adjutant/Utilities/TextureUtils.cs:614-629 | the tiled y is an int32, and the call throws exactly when that division fails |
| X360Tiling.TiledExample | Adjutant/Utilities/TextureUtils.cs:597-629 | in a 32-block-wide 4-byte texture, block 37 sits at (17, 1) |
| X360Tiling.TiledLastExample | Adjutant/Utilities/TextureUtils.cs:597-629 | block 1023 of that texture sits at (15, 31) |
| X360Tiling.TiledWideExample | Adjutant/Utilities/TextureUtils.cs:597-629 | block 100 of a 32-wide 8-byte texture sits at (6, 2) |
| X360Tiling.TileRound | Adjutant/Utilities/TextureUtils.cs:563-564 | with the float conversion taken as exact, the padded dimension is the least multiple of the tile at or above the dimension, and a whole tile stays as is |
| X360Tiling.Padded | Adjutant/Utilities/TextureUtils.cs:566-568 | short data is extended by zeros to the expected size and otherwise kept |
| X360Tiling.ScrambleSpec | Adjutant/Utilities/TextureUtils.cs:549-595 | Unknown throws; a result has the length of the data padded to the expected size |
| X360Tiling.XTextureScramble | Adjutant/Utilities/TextureUtils.cs:549-595 | the nested block loops compute ScrambleSpec |
| X360Tiling.XTextureScrambleTiled | Adjutant/Utilities/TextureUtils.cs:544-547 | the overload is XTextureScramble with toLinear unset |
| X360Tiling.ScrambleMovesBlocks | Adjutant/Utilities/TextureUtils.cs:570-594 | when the tiling is a permutation of the blocks, scrambling writes each block to its tiled (or linear) place |
| X360Tiling.MovesCancel | Adjutant/Utilities/TextureUtils.cs:575-592 | moving blocks to their tiled places and then back gives the data back |
| X360Tiling.ScrambleRoundTrip | Adjutant/Utilities/TextureUtils.cs:549-595 | when the tiling is a permutation, converting to linear undoes converting to tiled |
| X360Square.TiledXBits | Adjutant/Utilities/TextureUtils.cs:597-612 | in a 32-block-wide texture of 4-byte blocks, the tiled x of block k < 1024 takes bits 0, 1, 3 and 4 of k and bit 5 xor bit 8 |
| X360Square.TiledYBits | Adjutant/Utilities/TextureUtils.cs:614-629 | in that texture, the tiled y of block k < 1024 takes bits 2, 6, 7, 8 and 9 of k |
| X360Square.BlockRecovers | Adjutant/Utilities/TextureUtils.cs:578-585 | the tiled block index y·32 + x of block k < 1024 determines k |
| X360Square.GeometryOfSquare | Adjutant/Utilities/TextureUtils.cs:556-573 | a 32-by-32 A8R8G8B8 texture keeps its size, expects 4096 bytes and has 32 by 32 blocks of 4 bytes |
| X360Square.TilerPermutes | Adjutant/Utilities/TextureUtils.cs:570-629 | the XG address functions permute the blocks of a 32-by-32 A8R8G8B8 texture, so the permutation hypothesis holds there |
| X360Square.SquareRoundTrip | Adjutant/Utilities/TextureUtils.cs:549-595 | any 4096 bytes of a 32-by-32 A8R8G8B8 texture come back after tiling and untiling |
| Schema.Resolve | Adjutant/Blam/Halo2/CacheFile.cs:72-73 | an attribute list resolves to the first alternative whose version range holds, and to nothing when none does |
| Schema.ResolveFirst | Adjutant/Blam/Halo2/CacheFile.cs:89-108 | an alternative that applies, with none applying before it, is the one chosen |
| Schema.ReadFixedString | Adjutant/Blam/Halo2/CacheFile.cs:74 | a fixed-length string is the bytes of its field up to the first NUL, and fails only past the end of the stream |
| Schema.ReadCStringSpec | Adjutant/Blam/Halo2/CacheFile.cs:176 | a null-terminated string is the bytes up to the next NUL, and fails exactly when none follows |
| Halo2Cache.CacheTypeOf | Adjutant/Blam/Halo2/CacheFile.cs:110-121 | version 0 is Halo2Xbox and -1 is Halo2Vista, both if and only if |
| Halo2Cache.TwoWayResolves | Adjutant/Blam/Halo2/CacheFile.cs:89-108 | a two-way field uses its `MinVersion = 0` offset at versions ≥ 0 and its `MaxVersion = 0` offset below 0 |
| Halo2Cache.DecodeHeader | Adjutant/Blam/Halo2/CacheFile.cs:53-108 | the header decodes exactly when its version and every field of that version's layout are inside the stream |
| Halo2Cache.HeaderRoundTrip | Adjutant/Blam/Halo2/CacheFile.cs:53-108 | decoding an encoded 2048-byte header gives every field back, at the offsets its own version selects |
| Halo2Cache.IndexHeaderRoundTrip | Adjutant/Blam/Halo2/CacheFile.cs:124-143 | decoding an encoded index header gives Magic, TagClassCount, TagInfoAddress and TagCount back |
| Halo2Cache.DecodeIndexItem | Adjutant/Blam/Halo2/CacheFile.cs:188-210 | an item decodes exactly inside the stream, and its id is a ushort |
| Halo2Cache.IndexItemRoundTrip | Adjutant/Blam/Halo2/CacheFile.cs:188-210 | decoding an encoded item gives it back, the class id read big-endian |
| Halo2Cache.TrimEnd | Adjutant/Blam/Halo2/CacheFile.cs:212 | the result is the longest prefix ending in a non-space; everything trimmed was white space |
| Halo2Cache.ClassCodeOfFile | Adjutant/Blam/Halo2/CacheFile.cs:199-212 | ClassCode is the four class bytes in file order, reversed, with trailing white space trimmed |
| Halo2Cache.ReadItemsSpec | Adjutant/Blam/Halo2/CacheFile.cs:155-179 | a successful read yields max(TagCount, 0) items and names keyed exactly by 0 … count-1 |
| Halo2Cache.ReadItemAt | Adjutant/Blam/Halo2/CacheFile.cs:162-168 | item k is the index item at TagInfoAddress + 16k |
| Halo2Cache.ReadNameAt | Adjutant/Blam/Halo2/CacheFile.cs:170-177 | after a successful read, name k is the null-terminated string at FileTableAddress plus the int32 at FileTableIndexOffset + 4k, the sum taken as an int32 |
| Halo2Cache.CacheIndex.constructor | Adjutant/Blam/Halo2/CacheFile.cs:145-153 | a new index has the header fields and no items or names |
| Halo2Cache.CacheIndex.Item | Adjutant/Blam/Halo2/CacheFile.cs:181 | the indexer returns item i exactly when i is in range, and throws ArgumentOutOfRange otherwise |
| Halo2Cache.CacheIndex.FileName | Adjutant/Blam/Halo2/CacheFile.cs:214 | an item's file name is the name stored under its Id, and a missing key throws KeyNotFound |
| Halo2Cache.CacheIndex.ReadTagItems | Adjutant/Blam/Halo2/CacheFile.cs:162-168 | the item loop fills items with ItemsRead, or stops with its error |
| Halo2Cache.CacheIndex.ReadNames | Adjutant/Blam/Halo2/CacheFile.cs:173-177 | the name loop fills filenames with NamesRead, keyed by position |
| Halo2Cache.CacheIndex.ReadItems | Adjutant/Blam/Halo2/CacheFile.cs:155-179 | a second call throws InvalidOperation and changes nothing; a first call sets items and names to ReadItemsSpec or reports its error |
| Halo2Cache.ReadIndices | Adjutant/Blam/Halo2/CacheFile.cs:171 | the loop reads TagCount little-endian int32 indices |
| Halo2Cache.Open | Adjutant/Blam/Halo2/CacheFile.cs:27-40 | opening reads the header at 0, the index at IndexAddress and then the items, exactly as OpenSpec |
| BlockCollections.BlockCollectionSpec | Adjutant/Blam/Halo3/BlockCollection.cs:19-36 | a missing translator throws ArgumentNull; count and pointer are read first; a count ≤ 0 gives no elements |
| BlockCollections.CollectionAt | Adjutant/Blam/Halo3/BlockCollection.cs:27-35 | a collection has max(count, 0) elements, element k decoded at Address + k·stride |
| BlockCollections.ZeroCountIgnoresPointer | Adjutant/Blam/Halo3/BlockCollection.cs:30-31 | with count 0 the translator is never used |
| BlockCollections.ReadBlockCollection | Adjutant/Blam/Halo3/BlockCollection.cs:19-36 | the constructor on a reader: a null reader throws ArgumentNull, and otherwise the result is BlockCollectionSpec at the reader's position |
| BlockCollections.ReadElements | Adjutant/Blam/Halo3/BlockCollection.cs:33-35 | the loop reads count records of one stride from the pointer's address |
| Halo3Bitmap.StrideByVersion | Adjutant/Blam/Halo3/bitmap.cs:110-113 | a BitmapDataBlock is 48 bytes before MccHalo3, 56 up to Halo3ODST, 48 up to MccHalo3ODST and 56 from then on |
| Halo3Bitmap.DecodeBitmapData | Adjutant/Blam/Halo3/bitmap.cs:123-170 | a submap record decodes exactly when its 29 bytes lie in the stream |
| Halo3Bitmap.BitmapDataRoundTrip | Adjutant/Blam/Halo3/bitmap.cs:123-170 | decoding an encoded submap record gives every field back |
| Halo3Bitmap.ParseTextureFormat | Adjutant/Blam/Halo3/bitmap.cs:217-264 | each Halo 3 TextureFormat name parses to the KnownTextureFormat of that name |
| Halo3Bitmap.ParseTextureType | Adjutant/Blam/Halo3/bitmap.cs:209-215 | the four TextureType names parse to the four known types |
| Halo3Bitmap.DescriptorShape | Adjutant/Blam/Halo3/bitmap.cs:172-190 | a cube map has 6 frames and otherwise Depth frames; only 3D textures keep their depth; swizzled is flag bit 3; padding is used exactly outside MCC |
| Halo3Bitmap.DescriptorFormat | Adjutant/Blam/Halo3/bitmap.cs:185 | the submap format is DXNSwap of the raw format, and DXN_SNorm exactly for DXN on PC |
| Halo3Bitmap.ResourceRoundTrip | Adjutant/Blam/Halo3/bitmap.cs:193-201 | decoding an encoded 8-byte resource entry gives its pointer and its second int32 back, in either byte order |
| Halo3Bitmap.SpriteRoundTrip | Adjutant/Blam/Halo3/bitmap.cs:88-92 | decoding an encoded 32-byte sprite entry gives its submap index back |
| Halo3Bitmap.SequenceAt | Adjutant/Blam/Halo3/bitmap.cs:71-86 | a decoded sequence's name is the NUL-terminated string in its first 32 bytes, its indices are the int16 at 32 and 34, and its sprite k is the 32-byte entry at the sprite collection's Address + 32k, as many as the count at 52 |
| Halo3Bitmap.SequenceRoundTrip | Adjutant/Blam/Halo3/bitmap.cs:71-86 | decoding an encoded 64-byte sequence with no sprites gives it back, whatever the address translator |
| Halo3Bitmap.TagSequences | Adjutant/Blam/Halo3/bitmap.cs:26-27 | sequence j is the 64-byte record at Address + 64j, and there are as many as the positive count |
| Halo3Bitmap.TagSubmaps | Adjutant/Blam/Halo3/bitmap.cs:29-30 | submap k is the record at Address + k times the version's stride, and there are as many as the positive count |
| Halo3Bitmap.TagResources | Adjutant/Blam/Halo3/bitmap.cs:32-36 | entry k of either resource collection is the 8-byte record at Address + 8k, and there are as many as the positive count |
| Halo3Bitmap.ToDds | Adjutant/Blam/Halo3/bitmap.cs:52-66 | an index outside the submaps throws ArgumentOutOfRange |
| Halo3Bitmap.ResourceChoiceInterleaved | Adjutant/Blam/Halo3/bitmap.cs:59-60 | with a positive interleaved count, the pointer read is the first int32 of interleaved entry InterleavedIndex at Address + 8·InterleavedIndex, and an index at or past the count throws ArgumentOutOfRange |
| Halo3Bitmap.ResourceChoicePlain | Adjutant/Blam/Halo3/bitmap.cs:59-61 | with no interleaved entries, the pointer read is the first int32 of resource entry index at Address + 8·index, and an index at or past the count throws ArgumentOutOfRange |
| Halo3Bitmap.ToDdsReads | Adjutant/Blam/Halo3/bitmap.cs:52-66 | ToDds reads GetBitmapDataLength bytes of the chosen resource and converts them with GetDds |
| Halo3Bitmap.ToDdsImage | Adjutant/Blam/Halo3/bitmap.cs:63-65 | the image has the submap's size; mips are included exactly for MCC arrays with a nonzero count |
| Halo4Layout.SharedCacheRoundTrip | Adjutant/Blam/Halo4/cache_file_resource_layout_table.cs:23-31 | decoding an encoded 264-byte shared-cache record gives its 32-byte name back |
| Halo4Layout.PageRoundTrip | Adjutant/Blam/Halo4/cache_file_resource_layout_table.cs:33-50 | decoding an encoded 88-byte page record gives every field back |
| Halo4Layout.SegmentRoundTrip | Adjutant/Blam/Halo4/cache_file_resource_layout_table.cs:52-72 | decoding an encoded 24-byte segment record gives every field back |
| Halo4Layout.TablePages | Adjutant/Blam/Halo4/cache_file_resource_layout_table.cs:16-17 | page k is the 88-byte record at Address + 88k |
| Halo4Layout.TableSegments | Adjutant/Blam/Halo4/cache_file_resource_layout_table.cs:19-20 | segment k is the 24-byte record at Address + 24k |
| Halo4Layout.TableSharedCaches | Adjutant/Blam/Halo4/cache_file_resource_layout_table.cs:13-14 | shared cache k is the 264-byte record at Address + 264k |
| SaberTexture.Endianness | Adjutant/Saber3D/Halo1X/Texture.cs:29-43 | little-endian exactly when the int32 at 6 is TCIP; big-endian exactly when it is not and the int32 at 8 is PICT; otherwise not a texture |
| SaberTexture.ParseHeader | Adjutant/Saber3D/Halo1X/Texture.cs:29-57 | the magic decides the layout, and AlsoDXT1 never survives the parse |
| SaberTexture.ReadHeader | Adjutant/Saber3D/Halo1X/Texture.cs:26-58 | the seeking reader computes ParseHeader and ends in the byte order of the layout |
| SaberTexture.HeaderRoundTrip | Adjutant/Saber3D/Halo1X/Texture.cs:29-57 | parsing an encoded header gives it back, in both layouts |
| SaberTexture.ParseSaberFormat | Adjutant/Saber3D/Halo1X/Texture.cs:116-127 | each Saber3D format name parses to the shared format of that name; AlsoDXT1's name parses to Unknown |
| SaberTexture.DescriptorConstant | Adjutant/Saber3D/Halo1X/Texture.cs:99-111 | the view has one layer, no mips, MapCount frames, a 2D type, no padding or swizzle, and is big-endian exactly for a big-endian item |
| SaberTexture.DataLength | Adjutant/Saber3D/Halo1X/Texture.cs:90 | the payload is one unpadded frame per map: the int32-wrapped product of the frame size and max(1, MapCount) |
| SaberTexture.ToDdsSpec | Adjutant/Saber3D/Halo1X/Texture.cs:81-94 | every index but 0 throws ArgumentOutOfRange |
| SaberTexture.ToDds | Adjutant/Saber3D/Halo1X/Texture.cs:81-94 | the method on a fresh reader computes ToDdsSpec |
| SaberTexture.ToDdsReadsPayload | Adjutant/Saber3D/Halo1X/Texture.cs:87-93 | with a non-negative length and the payload inside the container, ToDds converts exactly the bytes at Address + DataOffset |
| SaberTexture.ToDdsNegativeLength | Adjutant/Saber3D/Halo1X/Texture.cs:87-93 | a length that wraps negative makes ReadBytes throw ArgumentOutOfRange |
| SaberTexture.ToDdsOverflowExample | Adjutant/Saber3D/Halo1X/Texture.cs:87-93 | an 8192×8192 A8R8G8B8 texture fails with ArgumentOutOfRange instead of being read |
| SaberTexture.ToDdsPlainImage | Adjutant/Saber3D/Halo1X/Texture.cs:81-94 | the image is a plain 2D image of the header's size: no cube faces, array size or mip count |

## Left out

- File streams, `DependencyReader` type registrations and `PakItem` containers are left out. The model works on byte sequences, and the reader position is a field of `Stream.Reader`.
- The position a failing read leaves behind is simplified. A failing read moves nothing.
- Address translators (`HeaderAddressTranslator`, `TagAddressTranslator`, the Gen3 translator) are function parameters. Their code is not part of this model. `MetadataTranslator` is reached only through this parameter.
- The `CacheType` enumeration of the Halo 3 family is not part of this model. Its ordinals are the parameters of `Gen3Versions`, and are assumed to ascend in the order the attributes list them.
- The Halo 4 `BlockCollection` is not part of this model. The layout table uses the Halo 3 collection, which has the same 12-byte shape.
- `ResourceIdentifier.ReadData` is not part of this model. Halo3Bitmap.ToDds takes the bytes it returns as a parameter, and a resource pointer is its raw int32.
- Strings are kept as UTF-8 bytes. `TrimEnd` trims the ASCII white-space bytes only. `ClassCode` is the four raw bytes, not decoded text.
- The float fields of `SpriteBlock` (Left, Right, Top, Bottom, RegPoint) are left out, because floating point is not modelled. Their bytes are still required: Halo3Bitmap.DecodeSprite fails with EndOfStream unless all 32 bytes of the entry are in the stream.
- The display forwarders of `IBitmap` (SourceFile, Name, Class, Id, SubmapCount, CubeLayout) are left out, and so are `ToString`, the enumerators and the `Bpp` and `LinearUnitSize` extension methods on Halo 2 formats. They only forward values the model already has.
- The `MipmapLayout` properties are left out. `GetDds` never reads them.
- A `null` data array passed to ApplyCrop, Swizzle or XTextureScramble is not modelled. A `null` reader or translator passed to BlockCollection is modelled.
- Halo2Cache.CacheIndex.ReadItems does not state what items a failed read leaves behind. It only states the error.
- Halo2Cache.ReadItemsSpec does not model int32 overflow of `TagInfoAddress.Address + i * 16`. A negative `TagCount` reads nothing, as the loop does.
- SaberTexture.ToDdsSpec does not model int32 overflow of `item.Address + DataOffset`. A negative position throws.
- XboxSwizzle.Swizzle requires the masks to fit in 30 bits, that is, a texel count below 2^30. Larger textures are left out so that the mask arithmetic stays below the int32 sign bit.
- XboxSwizzle.MaskSet.constructor requires the masks to fit in 30 bits, for the same reason.
- XboxSwizzle.SwizzleAxis requires a mask below 2^30, for the same reason.
- XboxSwizzle.Deswizzle requires the masks to fit in 30 bits, for the same reason.
- SwizzleRoundTrip.DeswizzleUndoesSwizzle is proved only for power-of-two 2D textures of exactly w·h·bpp bytes. For other sizes the index map is not onto.
- X360Tiling.ScrambleRoundTrip assumes, as a hypothesis, that the XG address functions permute the blocks of the padded texture. X360Square.TilerPermutes proves it for a 32-by-32 A8R8G8B8 texture, one macro tile. It is not proved for other sizes or formats.
- X360Tiling.ScrambleMovesBlocks assumes the same hypothesis, with the same proved instance.
- Dds.GetDds uses the corrected per-face crop of "## Findings" (Dds.FaceCrop), not the crop as written.
- Dds.DdsSpec uses the same corrected crop, and so do Halo3Bitmap.ToDds, Halo3Bitmap.ToDdsReads and SaberTexture.ToDdsSpec, which are built on it. They describe the corrected program wherever a padded texture has more than one face.
- Dds.FaceCrop treats a FrameCount of 0 as one face, as GetBitmapDataLength and the array height do. The crop as written throws DivideByZeroException for a padded texture with FrameCount 0 (Dds.CropAsWrittenZeroFaces).
- X360Tiling.TileRound treats `(float)v / tileSize` as exact. The single-precision rounding of a dimension above 2^24 is not modelled: the source then pads 2^24 + 1 to 2^24 with tile 32, where the model gives 2^24 + 32, and with tile 1 the source can make the dimension smaller.
- TextureSize.VirtualSize rounds with exact integers. The double rounding and the `(int)` cast of a padded size beyond the int32 range are not modelled.
- Crop.CropCopy computes `outRows * outStride * faces` and the row offsets as exact integers. A product beyond the int32 range, which C# wraps, is not modelled: the model reports Overflow exactly when the exact product is negative.
- XboxSwizzle.Offsets computes `(y * width + x) * bpp` and `index * bpp` as exact integers. Offsets beyond 2^31 - 1, which C# wraps, are not modelled.
- Doubles in `GetDds` are modelled as exact values. `Math.Ceiling(a / (double)b)` is exact ceiling division, and the mip-height sum is an exact real. Rounding of the double computation is not modelled.
- `DdsImage` is a record of the header fields `GetDds` sets. The DDS file writer is not part of this model.

## Findings

| source | as written | input that shows it | evidently intended | confidence | as-written member | corrected member |
|---|---|---|---|---|---|---|
| Adjutant/Utilities/TextureUtils.cs:410-414 with 278-299 | `GetDds` passes the virtual height of one face and `FrameCount` faces to `ApplyCrop`, which divides the block-row counts by the number of faces again | a 100×100 DXT1 cube map padded to 128×128 keeps 4 of its 25 block rows per face (128/4 = 32, divided by 6 gives 5 rows in and 4 out), and face 1 is read from block row 5 of face 0 | each face is cropped from its own padded face, with every block row kept | not executed | Dds.CropAsWrittenLosesRows | Dds.FaceCropRows |
