/** Halo4.cache_file_resource_layout_table: the table of shared cache files,
    pages and segments that locates tag resources, and its three record
    layouts. */
module Halo4Layout {

  import opened Wrappers
  import opened Bytes
  import opened Formats
  import opened Schema
  import opened Layout
  import opened BlockCollections

  // ----- SharedCacheBlock -----

  datatype SharedCacheBlock = SharedCacheBlock(fileName: seq<byte>)

  const SHARED_CACHE_STRIDE := 264
  const FILE_NAME_LENGTH := 32

  /** `ReadObject<SharedCacheBlock>`: the NUL-terminated name in the first 32 bytes. */
  function DecodeSharedCache(s: seq<byte>, off: int): (r: Result<SharedCacheBlock>)
    ensures r.Ok? <==> InRange(s, off, FILE_NAME_LENGTH)
    ensures r.Ok? ==> Ok(r.value.fileName) == ReadFixedString(s, off, FILE_NAME_LENGTH)
  {
    var name :- ReadFixedString(s, off, FILE_NAME_LENGTH);
    Ok(SharedCacheBlock(name))
  }

  /** `ToString()`: the file name. */
  function SharedCacheText(b: SharedCacheBlock): seq<byte>
  {
    b.fileName
  }

  predicate SharedCacheFits(b: SharedCacheBlock)
  {
    |b.fileName| <= FILE_NAME_LENGTH && 0 !in b.fileName
  }

  function SharedCacheSlots(b: SharedCacheBlock): (slots: seq<Slot>)
    requires SharedCacheFits(b)
    ensures WellPlaced(slots, SHARED_CACHE_STRIDE)
  {
    [StringSlot(0, b.fileName, FILE_NAME_LENGTH)]
  }

  function EncodeSharedCache(b: SharedCacheBlock): (r: seq<byte>)
    requires SharedCacheFits(b)
    ensures |r| == SHARED_CACHE_STRIDE
  {
    PlacedInside(SharedCacheSlots(b), SHARED_CACHE_STRIDE);
    Write(SHARED_CACHE_STRIDE, SharedCacheSlots(b))
  }

  /** A record written into its 264 bytes reads back, and its text is the
      name that was written. */
  lemma SharedCacheRoundTrip(b: SharedCacheBlock)
    requires SharedCacheFits(b)
    ensures DecodeSharedCache(EncodeSharedCache(b), 0) == Ok(b)
    ensures SharedCacheText(DecodeSharedCache(EncodeSharedCache(b), 0).value) == b.fileName
  {
    SlotString(SharedCacheSlots(b), SHARED_CACHE_STRIDE, 0, b.fileName, FILE_NAME_LENGTH);
  }

  // ----- PageBlock -----

  datatype PageBlock = PageBlock(
    cacheIndex: int, dataOffset: int, compressedSize: int, decompressedSize: int, dataChunkCount: int)

  const PAGE_STRIDE := 88
  /** The bytes the fields span: DataChunkCount is the int16 at 84. */
  const PAGE_EXTENT := 86

  /** `ReadObject<PageBlock>`: every field that cannot be read raises the same
      EndOfStream, so the read fails exactly when the fields' extent does not fit. */
  function DecodePage(s: seq<byte>, off: int, order: ByteOrder): (r: Result<PageBlock>)
    ensures r.Ok? <==> InRange(s, off, PAGE_EXTENT)
    ensures r.Err? ==> r.error == EndOfStream
  {
    if !InRange(s, off, PAGE_EXTENT) then Err(EndOfStream)
    else Ok(PageBlock(ReadInt16(s, off + 4, order).value, ReadI32(s, off + 8, order).value,
                      ReadI32(s, off + 12, order).value, ReadI32(s, off + 16, order).value,
                      ReadInt16(s, off + 84, order).value))
  }

  predicate PageFits(p: PageBlock)
  {
    && IsInt16(p.cacheIndex) && IsInt32(p.dataOffset) && IsInt32(p.compressedSize)
    && IsInt32(p.decompressedSize) && IsInt16(p.dataChunkCount)
  }

  function PageSlots(p: PageBlock, order: ByteOrder): (slots: seq<Slot>)
    requires PageFits(p)
    ensures WellPlaced(slots, PAGE_STRIDE)
  {
    [ I16SlotIn(4, p.cacheIndex, order), I32Slot(8, p.dataOffset, order), I32Slot(12, p.compressedSize, order),
      I32Slot(16, p.decompressedSize, order), I16SlotIn(84, p.dataChunkCount, order) ]
  }

  function EncodePage(p: PageBlock, order: ByteOrder): (r: seq<byte>)
    requires PageFits(p)
    ensures |r| == PAGE_STRIDE
  {
    PlacedInside(PageSlots(p, order), PAGE_STRIDE);
    Write(PAGE_STRIDE, PageSlots(p, order))
  }

  lemma PageSizesBack(p: PageBlock, order: ByteOrder)
    requires PageFits(p)
    ensures var s := EncodePage(p, order);
            && ReadI32(s, 8, order) == Ok(p.dataOffset) && ReadI32(s, 12, order) == Ok(p.compressedSize)
            && ReadI32(s, 16, order) == Ok(p.decompressedSize)
  {
    var slots := PageSlots(p, order);
    SlotI32(slots, PAGE_STRIDE, 1, p.dataOffset, order);
    SlotI32(slots, PAGE_STRIDE, 2, p.compressedSize, order);
    SlotI32(slots, PAGE_STRIDE, 3, p.decompressedSize, order);
  }

  /** Every field ends inside the 88-byte record: a page written in either
      byte order reads back as itself. */
  lemma PageRoundTrip(p: PageBlock, order: ByteOrder)
    requires PageFits(p)
    ensures DecodePage(EncodePage(p, order), 0, order) == Ok(p)
  {
    var slots := PageSlots(p, order);
    var s := EncodePage(p, order);
    assert ReadInt16(s, 4, order).value == p.cacheIndex && ReadInt16(s, 84, order).value == p.dataChunkCount by {
      SlotI16In(slots, PAGE_STRIDE, 0, p.cacheIndex, order);
      SlotI16In(slots, PAGE_STRIDE, 4, p.dataChunkCount, order);
    }
    assert ReadI32(s, 8, order).value == p.dataOffset && ReadI32(s, 12, order).value == p.compressedSize
           && ReadI32(s, 16, order).value == p.decompressedSize by {
      PageSizesBack(p, order);
    }
  }

  // ----- SegmentBlock -----

  datatype SegmentBlock = SegmentBlock(
    requiredPageOffset: int, optionalPageOffset: int, optionalPageOffset2: int,
    requiredPageIndex: int, optionalPageIndex: int, optionalPageIndex2: int)

  const SEGMENT_STRIDE := 24
  /** The bytes the fields span: OptionalPageIndex2 is the int16 at 16. */
  const SEGMENT_EXTENT := 18

  /** `ReadObject<SegmentBlock>`, failing exactly when the fields' extent does not fit. */
  function DecodeSegment(s: seq<byte>, off: int, order: ByteOrder): (r: Result<SegmentBlock>)
    ensures r.Ok? <==> InRange(s, off, SEGMENT_EXTENT)
    ensures r.Err? ==> r.error == EndOfStream
  {
    if !InRange(s, off, SEGMENT_EXTENT) then Err(EndOfStream)
    else Ok(SegmentBlock(ReadI32(s, off, order).value, ReadI32(s, off + 4, order).value,
                         ReadI32(s, off + 8, order).value, ReadInt16(s, off + 12, order).value,
                         ReadInt16(s, off + 14, order).value, ReadInt16(s, off + 16, order).value))
  }

  predicate SegmentFits(g: SegmentBlock)
  {
    && IsInt32(g.requiredPageOffset) && IsInt32(g.optionalPageOffset) && IsInt32(g.optionalPageOffset2)
    && IsInt16(g.requiredPageIndex) && IsInt16(g.optionalPageIndex) && IsInt16(g.optionalPageIndex2)
  }

  function SegmentSlots(g: SegmentBlock, order: ByteOrder): (slots: seq<Slot>)
    requires SegmentFits(g)
    ensures WellPlaced(slots, SEGMENT_STRIDE)
  {
    [ I32Slot(0, g.requiredPageOffset, order), I32Slot(4, g.optionalPageOffset, order),
      I32Slot(8, g.optionalPageOffset2, order), I16SlotIn(12, g.requiredPageIndex, order),
      I16SlotIn(14, g.optionalPageIndex, order), I16SlotIn(16, g.optionalPageIndex2, order) ]
  }

  function EncodeSegment(g: SegmentBlock, order: ByteOrder): (r: seq<byte>)
    requires SegmentFits(g)
    ensures |r| == SEGMENT_STRIDE
  {
    PlacedInside(SegmentSlots(g, order), SEGMENT_STRIDE);
    Write(SEGMENT_STRIDE, SegmentSlots(g, order))
  }

  lemma SegmentOffsetsBack(g: SegmentBlock, order: ByteOrder)
    requires SegmentFits(g)
    ensures var s := EncodeSegment(g, order);
            && ReadI32(s, 0, order) == Ok(g.requiredPageOffset) && ReadI32(s, 4, order) == Ok(g.optionalPageOffset)
            && ReadI32(s, 8, order) == Ok(g.optionalPageOffset2)
  {
    var slots := SegmentSlots(g, order);
    SlotI32(slots, SEGMENT_STRIDE, 0, g.requiredPageOffset, order);
    SlotI32(slots, SEGMENT_STRIDE, 1, g.optionalPageOffset, order);
    SlotI32(slots, SEGMENT_STRIDE, 2, g.optionalPageOffset2, order);
  }

  lemma SegmentIndicesBack(g: SegmentBlock, order: ByteOrder)
    requires SegmentFits(g)
    ensures var s := EncodeSegment(g, order);
            && ReadInt16(s, 12, order) == Ok(g.requiredPageIndex) && ReadInt16(s, 14, order) == Ok(g.optionalPageIndex)
            && ReadInt16(s, 16, order) == Ok(g.optionalPageIndex2)
  {
    var slots := SegmentSlots(g, order);
    SlotI16In(slots, SEGMENT_STRIDE, 3, g.requiredPageIndex, order);
    SlotI16In(slots, SEGMENT_STRIDE, 4, g.optionalPageIndex, order);
    SlotI16In(slots, SEGMENT_STRIDE, 5, g.optionalPageIndex2, order);
  }

  /** Every field lies inside the 24-byte record: a segment written in either
      byte order reads back as itself. */
  lemma SegmentRoundTrip(g: SegmentBlock, order: ByteOrder)
    requires SegmentFits(g)
    ensures DecodeSegment(EncodeSegment(g, order), 0, order) == Ok(g)
  {
    var s := EncodeSegment(g, order);
    assert ReadI32(s, 0, order).value == g.requiredPageOffset && ReadI32(s, 4, order).value == g.optionalPageOffset
           && ReadI32(s, 8, order).value == g.optionalPageOffset2 by {
      SegmentOffsetsBack(g, order);
    }
    assert ReadInt16(s, 12, order).value == g.requiredPageIndex && ReadInt16(s, 14, order).value == g.optionalPageIndex
           && ReadInt16(s, 16, order).value == g.optionalPageIndex2 by {
      SegmentIndicesBack(g, order);
    }
  }

  // ----- The table -----

  function SharedCacheElement(): (seq<byte>, int, int) -> Result<SharedCacheBlock>
  {
    (s: seq<byte>, off: int, version: int) => DecodeSharedCache(s, off)
  }

  function PageElement(order: ByteOrder): (seq<byte>, int, int) -> Result<PageBlock>
  {
    (s: seq<byte>, off: int, version: int) => DecodePage(s, off, order)
  }

  function SegmentElement(order: ByteOrder): (seq<byte>, int, int) -> Result<SegmentBlock>
  {
    (s: seq<byte>, off: int, version: int) => DecodeSegment(s, off, order)
  }

  datatype LayoutTable = LayoutTable(
    sharedCaches: BlockCollection<SharedCacheBlock>,
    pages: BlockCollection<PageBlock>,
    segments: BlockCollection<SegmentBlock>)

  /** `ReadObject<cache_file_resource_layout_table>` at `pos`: the collections
      at 12, 24 and 48, in that order. */
  function DecodeLayoutTable(s: seq<byte>, pos: nat, order: ByteOrder, translate: int -> int, version: int)
    : (r: Result<LayoutTable>)
    ensures r.Ok? ==>
              && Ok(r.value.sharedCaches) == BlockCollectionSpec(s, pos + 12, order, Some(translate), version,
                                                                 SHARED_CACHE_STRIDE, SharedCacheElement())
              && Ok(r.value.pages) == BlockCollectionSpec(s, pos + 24, order, Some(translate), version,
                                                          PAGE_STRIDE, PageElement(order))
              && Ok(r.value.segments) == BlockCollectionSpec(s, pos + 48, order, Some(translate), version,
                                                             SEGMENT_STRIDE, SegmentElement(order))
  {
    var shared :- BlockCollectionSpec(s, pos + 12, order, Some(translate), version,
                                      SHARED_CACHE_STRIDE, SharedCacheElement());
    var pages :- BlockCollectionSpec(s, pos + 24, order, Some(translate), version, PAGE_STRIDE, PageElement(order));
    var segments :- BlockCollectionSpec(s, pos + 48, order, Some(translate), version,
                                        SEGMENT_STRIDE, SegmentElement(order));
    Ok(LayoutTable(shared, pages, segments))
  }

  /** Page `k` of a decoded table is the page record at `Address + 88 k`,
      and there are as many pages as declared. */
  lemma TablePages(s: seq<byte>, pos: nat, order: ByteOrder, translate: int -> int, version: int, t: LayoutTable,
                   k: nat)
    requires DecodeLayoutTable(s, pos, order, translate, version) == Ok(t)
    ensures var count := ReadI32(s, pos + 24, order).value;
            && |t.pages.items| == (if count > 0 then count else 0)
            && (k < |t.pages.items| ==>
                  Ok(t.pages.items[k]) == DecodePage(s, Address(t.pages.pointer, translate) + k * PAGE_STRIDE, order))
  {
    PagesAt(t.pages, s, pos + 24, order, translate, version, k);
  }

  lemma PagesAt(c: BlockCollection<PageBlock>, s: seq<byte>, at: nat, order: ByteOrder, translate: int -> int,
                version: int, k: nat)
    requires Ok(c) == BlockCollectionSpec(s, at, order, Some(translate), version, PAGE_STRIDE, PageElement(order))
    ensures var count := ReadI32(s, at, order).value;
            && |c.items| == (if count > 0 then count else 0)
            && (k < |c.items| ==> Ok(c.items[k]) == DecodePage(s, Address(c.pointer, translate) + k * PAGE_STRIDE, order))
  {
    CollectionAt(c, s, at, order, translate, version, PAGE_STRIDE, PageElement(order), k);
  }

  /** Segment `k` of a decoded table is the segment record at `Address + 24 k`,
      and there are as many segments as declared. */
  lemma TableSegments(s: seq<byte>, pos: nat, order: ByteOrder, translate: int -> int, version: int, t: LayoutTable,
                   k: nat)
    requires DecodeLayoutTable(s, pos, order, translate, version) == Ok(t)
    ensures var count := ReadI32(s, pos + 48, order).value;
            && |t.segments.items| == (if count > 0 then count else 0)
            && (k < |t.segments.items| ==>
                  Ok(t.segments.items[k])
                  == DecodeSegment(s, Address(t.segments.pointer, translate) + k * SEGMENT_STRIDE, order))
  {
    SegmentsAt(t.segments, s, pos + 48, order, translate, version, k);
  }

  lemma SegmentsAt(c: BlockCollection<SegmentBlock>, s: seq<byte>, at: nat, order: ByteOrder, translate: int -> int,
                   version: int, k: nat)
    requires Ok(c) == BlockCollectionSpec(s, at, order, Some(translate), version, SEGMENT_STRIDE, SegmentElement(order))
    ensures var count := ReadI32(s, at, order).value;
            && |c.items| == (if count > 0 then count else 0)
            && (k < |c.items| ==>
                  Ok(c.items[k]) == DecodeSegment(s, Address(c.pointer, translate) + k * SEGMENT_STRIDE, order))
  {
    CollectionAt(c, s, at, order, translate, version, SEGMENT_STRIDE, SegmentElement(order), k);
    var a := Address(c.pointer, translate) + k * SEGMENT_STRIDE;
    assert SegmentElement(order)(s, a, version) == DecodeSegment(s, a, order);
  }

  /** Shared cache `k` of a decoded table is the name record at `Address + 264 k`. */
  lemma TableSharedCaches(s: seq<byte>, pos: nat, order: ByteOrder, translate: int -> int, version: int, t: LayoutTable,
                   k: nat)
    requires DecodeLayoutTable(s, pos, order, translate, version) == Ok(t)
    ensures var count := ReadI32(s, pos + 12, order).value;
            && |t.sharedCaches.items| == (if count > 0 then count else 0)
            && (k < |t.sharedCaches.items| ==>
                  Ok(t.sharedCaches.items[k])
                  == DecodeSharedCache(s, Address(t.sharedCaches.pointer, translate) + k * SHARED_CACHE_STRIDE))
  {
    SharedCachesAt(t.sharedCaches, s, pos + 12, order, translate, version, k);
  }

  lemma SharedCachesAt(c: BlockCollection<SharedCacheBlock>, s: seq<byte>, at: nat, order: ByteOrder,
                       translate: int -> int, version: int, k: nat)
    requires Ok(c) == BlockCollectionSpec(s, at, order, Some(translate), version, SHARED_CACHE_STRIDE,
                                          SharedCacheElement())
    ensures var count := ReadI32(s, at, order).value;
            && |c.items| == (if count > 0 then count else 0)
            && (k < |c.items| ==>
                  Ok(c.items[k]) == DecodeSharedCache(s, Address(c.pointer, translate) + k * SHARED_CACHE_STRIDE))
  {
    CollectionAt(c, s, at, order, translate, version, SHARED_CACHE_STRIDE, SharedCacheElement(), k);
  }
}
