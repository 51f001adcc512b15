/** A Halo 2 cache file: the 2048-byte header, whose string and file-table
    fields sit 12 bytes later in the Vista build (negative version), the tag
    index, its 16-byte items and the table of tag file names. */
module Halo2Cache {

  import opened Wrappers
  import opened Numerics
  import opened Bytes
  import opened Formats
  import opened Schema
  import opened Layout
  import opened Stream
  import opened BlockCollections
  import Int32

  const HEADER_SIZE := 2048
  const INDEX_SIZE := 32
  const ITEM_SIZE := 16

  datatype CacheType = Halo2Xbox | Halo2Vista | UnknownCache

  /** `CacheHeader.CacheType`: version 0 is the Xbox build, -1 the Vista build. */
  function CacheTypeOf(version: int): (t: CacheType)
    ensures t == Halo2Xbox <==> version == 0
    ensures t == Halo2Vista <==> version == -1
  {
    if version == 0 then Halo2Xbox else if version == -1 then Halo2Vista else UnknownCache
  }

  /** `[Offset(nonNeg, MinVersion = 0)] [Offset(neg, MaxVersion = 0)]`. */
  function TwoWay(nonNeg: int, neg: int): seq<Alt<int>>
  {
    [Alt(nonNeg, Some(0), None), Alt(neg, None, Some(0))]
  }

  /** Exactly one of the two offsets applies to every version: the first from 0 up. */
  lemma TwoWayResolves(nonNeg: int, neg: int, version: int)
    ensures Resolve(TwoWay(nonNeg, neg), version) == Some(if version >= 0 then nonNeg else neg)
  {
    var alts := TwoWay(nonNeg, neg);
    if version >= 0 {
      ResolveFirst(alts, version, 0);
    } else {
      ResolveFirst(alts, version, 1);
    }
  }

  datatype CacheHeader = CacheHeader(
    head: int, version: int, fileSize: int, indexAddress: int, metadataAddress: int,
    buildString: seq<byte>,
    stringCount: int, stringTableSize: int, stringTableIndexAddress: int, stringTableAddress: int,
    scenarioName: seq<byte>,
    fileCount: int, fileTableAddress: int, fileTableSize: int, fileTableIndexOffset: int)

  /** How far into the record the header's fields reach: the last one,
      FileTableIndexOffset, ends at 720, or 732 in the Vista layout. */
  function HeaderExtent(version: int): int
  {
    if version >= 0 then 720 else 732
  }

  /** The position a two-way field is read from for the given version. */
  function At(nonNeg: int, neg: int, version: int): (r: int)
    ensures r == if version >= 0 then nonNeg else neg
  {
    TwoWayResolves(nonNeg, neg, version);
    Resolve(TwoWay(nonNeg, neg), version).value
  }

  /** The header's fields, every one at the offset its alternatives give for `version`. */
  function HeaderFields(s: seq<byte>, base: int, version: int): CacheHeader
    requires InRange(s, base, HeaderExtent(version))
  {
    TwoWayResolves(288, 300, version);
    TwoWayResolves(444, 456, version);
    TwoWayResolves(704, 716, version);
    TwoWayResolves(708, 720, version);
    TwoWayResolves(712, 724, version);
    TwoWayResolves(716, 728, version);
    CacheHeader(
      Int32LE(s, base), version, Int32LE(s, base + 8), Int32LE(s, base + 16), Int32LE(s, base + 20),
      FixedString(s, base + At(288, 300, version), 32),
      Int32LE(s, base + 356), Int32LE(s, base + 360), Int32LE(s, base + 364), Int32LE(s, base + 368),
      FixedString(s, base + At(444, 456, version), 256),
      Int32LE(s, base + At(704, 716, version)), Int32LE(s, base + At(708, 720, version)),
      Int32LE(s, base + At(712, 724, version)), Int32LE(s, base + At(716, 728, version)))
  }

  /** `ReadObject<CacheHeader>()` at `base`: the version first, then every
      field; since every field that cannot be read raises the same
      EndOfStream, the read fails exactly when the fields' extent does not
      fit in the stream. */
  function DecodeHeader(s: seq<byte>, base: int): (r: Result<CacheHeader>)
    ensures r.Ok? <==> InRange(s, base + 36, 4) && InRange(s, base, HeaderExtent(Int32LE(s, base + 36)))
    ensures r.Err? ==> r.error == EndOfStream
    ensures r.Ok? ==> r.value.version == Int32LE(s, base + 36) && IsInt32(r.value.version)
  {
    var version :- ReadI32(s, base + 36, LittleEndian);
    if !InRange(s, base, HeaderExtent(version)) then Err(EndOfStream)
    else Ok(HeaderFields(s, base, version))
  }

  /** A header the record can hold: int32 fields, and NUL-free strings that fit their fields. */
  predicate HeaderFits(h: CacheHeader)
  {
    && IsInt32(h.head) && IsInt32(h.version) && IsInt32(h.fileSize) && IsInt32(h.indexAddress)
    && IsInt32(h.metadataAddress) && IsInt32(h.stringCount) && IsInt32(h.stringTableSize)
    && IsInt32(h.stringTableIndexAddress) && IsInt32(h.stringTableAddress) && IsInt32(h.fileCount)
    && IsInt32(h.fileTableAddress) && IsInt32(h.fileTableSize) && IsInt32(h.fileTableIndexOffset)
    && |h.buildString| <= 32 && 0 !in h.buildString
    && |h.scenarioName| <= 256 && 0 !in h.scenarioName
  }

  /** The header's fields at their offsets; the Vista layout moves the two
      strings and the four file-table fields 12 bytes on. */
  function HeaderSlots(h: CacheHeader): (slots: seq<Slot>)
    requires HeaderFits(h)
    ensures WellPlaced(slots, HEADER_SIZE)
  {
    var d := if h.version >= 0 then 0 else 12;
    var fixed := FixedSlots(h, 288 + d);
    var strings := StringSlots(h, d);
    var files := FileSlots(h, d);
    PlacedAppend(strings, files, HEADER_SIZE);
    PlacedAppend(fixed, strings + files, HEADER_SIZE);
    fixed + (strings + files)
  }

  /** The int32 fields at the head of the header. */
  function FixedSlots(h: CacheHeader, limit: nat): (slots: seq<Slot>)
    requires HeaderFits(h) && limit >= 40
    ensures |slots| == 5 && WellPlaced(slots, limit)
  {
    [ I32Slot(0, h.head, LittleEndian), I32Slot(8, h.fileSize, LittleEndian),
      I32Slot(16, h.indexAddress, LittleEndian), I32Slot(20, h.metadataAddress, LittleEndian),
      I32Slot(36, h.version, LittleEndian) ]
  }

  /** The build string and the string-table fields. */
  function StringSlots(h: CacheHeader, d: nat): (slots: seq<Slot>)
    requires HeaderFits(h) && d <= 12
    ensures |slots| == 5 && slots[0].offset == 288 + d && WellPlaced(slots, 444 + d)
  {
    [ StringSlot(288 + d, h.buildString, 32),
      I32Slot(356, h.stringCount, LittleEndian), I32Slot(360, h.stringTableSize, LittleEndian),
      I32Slot(364, h.stringTableIndexAddress, LittleEndian), I32Slot(368, h.stringTableAddress, LittleEndian) ]
  }

  /** The scenario name and the file-table fields. */
  function FileSlots(h: CacheHeader, d: nat): (slots: seq<Slot>)
    requires HeaderFits(h) && d <= 12
    ensures |slots| == 5 && slots[0].offset == 444 + d && WellPlaced(slots, HEADER_SIZE)
  {
    [ StringSlot(444 + d, h.scenarioName, 256), I32Slot(704 + d, h.fileCount, LittleEndian),
      I32Slot(708 + d, h.fileTableAddress, LittleEndian), I32Slot(712 + d, h.fileTableSize, LittleEndian),
      I32Slot(716 + d, h.fileTableIndexOffset, LittleEndian) ]
  }

  /** The 2048 bytes of a header. */
  function EncodeHeader(h: CacheHeader): (r: seq<byte>)
    requires HeaderFits(h)
    ensures |r| == HEADER_SIZE
  {
    PlacedInside(HeaderSlots(h), HEADER_SIZE);
    Write(HEADER_SIZE, HeaderSlots(h))
  }

  /** The fixed int32 fields of a written header read back. */
  lemma HeaderFixedBack(h: CacheHeader)
    requires HeaderFits(h)
    ensures var s := EncodeHeader(h);
            && Int32LE(s, 0) == h.head && Int32LE(s, 8) == h.fileSize && Int32LE(s, 16) == h.indexAddress
            && Int32LE(s, 20) == h.metadataAddress && Int32LE(s, 36) == h.version
  {
    var slots := HeaderSlots(h);
    SlotI32(slots, HEADER_SIZE, 0, h.head, LittleEndian);
    SlotI32(slots, HEADER_SIZE, 1, h.fileSize, LittleEndian);
    HeaderAddressesBack(h);
  }

  lemma HeaderAddressesBack(h: CacheHeader)
    requires HeaderFits(h)
    ensures var s := EncodeHeader(h);
            Int32LE(s, 16) == h.indexAddress && Int32LE(s, 20) == h.metadataAddress && Int32LE(s, 36) == h.version
  {
    var slots := HeaderSlots(h);
    SlotI32(slots, HEADER_SIZE, 2, h.indexAddress, LittleEndian);
    SlotI32(slots, HEADER_SIZE, 3, h.metadataAddress, LittleEndian);
    SlotI32(slots, HEADER_SIZE, 4, h.version, LittleEndian);
  }

  /** The string-table fields of a written header read back. */
  lemma HeaderStringTableBack(h: CacheHeader)
    requires HeaderFits(h)
    ensures var s := EncodeHeader(h);
            && Int32LE(s, 356) == h.stringCount && Int32LE(s, 360) == h.stringTableSize
            && Int32LE(s, 364) == h.stringTableIndexAddress && Int32LE(s, 368) == h.stringTableAddress
  {
    var slots := HeaderSlots(h);
    SlotI32(slots, HEADER_SIZE, 6, h.stringCount, LittleEndian);
    SlotI32(slots, HEADER_SIZE, 7, h.stringTableSize, LittleEndian);
    HeaderStringTableAddressesBack(h);
  }

  lemma HeaderStringTableAddressesBack(h: CacheHeader)
    requires HeaderFits(h)
    ensures var s := EncodeHeader(h);
            Int32LE(s, 364) == h.stringTableIndexAddress && Int32LE(s, 368) == h.stringTableAddress
  {
    var slots := HeaderSlots(h);
    SlotI32(slots, HEADER_SIZE, 8, h.stringTableIndexAddress, LittleEndian);
    SlotI32(slots, HEADER_SIZE, 9, h.stringTableAddress, LittleEndian);
  }

  /** The two strings of a written header read back from the layout's offsets. */
  lemma HeaderStringsBack(h: CacheHeader)
    requires HeaderFits(h)
    ensures var s := EncodeHeader(h);
            var d := if h.version >= 0 then 0 else 12;
            && FixedString(s, 288 + d, 32) == h.buildString
            && FixedString(s, 444 + d, 256) == h.scenarioName
  {
    var slots := HeaderSlots(h);
    SlotString(slots, HEADER_SIZE, 5, h.buildString, 32);
    SlotString(slots, HEADER_SIZE, 10, h.scenarioName, 256);
  }

  /** The file-table fields of a written header read back from the layout's offsets. */
  lemma HeaderFileTableBack(h: CacheHeader)
    requires HeaderFits(h)
    ensures var s := EncodeHeader(h);
            var d := if h.version >= 0 then 0 else 12;
            && Int32LE(s, 704 + d) == h.fileCount && Int32LE(s, 708 + d) == h.fileTableAddress
            && Int32LE(s, 712 + d) == h.fileTableSize && Int32LE(s, 716 + d) == h.fileTableIndexOffset
  {
    var slots := HeaderSlots(h);
    SlotI32(slots, HEADER_SIZE, 11, h.fileCount, LittleEndian);
    SlotI32(slots, HEADER_SIZE, 12, h.fileTableAddress, LittleEndian);
    SlotI32(slots, HEADER_SIZE, 13, h.fileTableSize, LittleEndian);
    SlotI32(slots, HEADER_SIZE, 14, h.fileTableIndexOffset, LittleEndian);
  }

  /** Reading back a written header gives it back, in either layout. */
  lemma HeaderRoundTrip(h: CacheHeader)
    requires HeaderFits(h)
    ensures DecodeHeader(EncodeHeader(h), 0) == Ok(h)
  {
    var s := EncodeHeader(h);
    var v := h.version;
    assert ReadI32(s, 36, LittleEndian) == Ok(v) by {
      HeaderAddressesBack(h);
    }
    assert HeaderFields(s, 0, v) == h by {
      HeaderFixedBack(h);
      HeaderStringTableBack(h);
      HeaderStringsBack(h);
      HeaderFileTableBack(h);
    }
  }

  /** The fields of `CacheIndex` read from the stream. */
  datatype IndexHeader = IndexHeader(magic: int, tagClassCount: int, tagInfoAddress: Pointer, tagCount: int)

  /** `ReadObject(new CacheIndex(..))` at `base`. */
  function DecodeIndexHeader(s: seq<byte>, base: int): (r: Result<IndexHeader>)
    ensures r.Ok? <==> InRange(s, base, 28)
    ensures r.Err? ==> r.error == EndOfStream
  {
    var magic :- ReadI32(s, base, LittleEndian);
    var tagClassCount :- ReadI32(s, base + 4, LittleEndian);
    var tagInfo :- ReadI32(s, base + 8, LittleEndian);
    var tagCount :- ReadI32(s, base + 24, LittleEndian);
    Ok(IndexHeader(magic, tagClassCount, Pointer(tagInfo), tagCount))
  }

  predicate IndexHeaderFits(x: IndexHeader)
  {
    IsInt32(x.magic) && IsInt32(x.tagClassCount) && IsInt32(x.tagInfoAddress.value) && IsInt32(x.tagCount)
  }

  function EncodeIndexHeader(x: IndexHeader): (r: seq<byte>)
    requires IndexHeaderFits(x)
    ensures |r| == INDEX_SIZE
  {
    Write(INDEX_SIZE, [ I32Slot(0, x.magic, LittleEndian), I32Slot(4, x.tagClassCount, LittleEndian),
                        I32Slot(8, x.tagInfoAddress.value, LittleEndian), I32Slot(24, x.tagCount, LittleEndian) ])
  }

  /** Reading back a written index record gives it back. */
  lemma IndexHeaderRoundTrip(x: IndexHeader)
    requires IndexHeaderFits(x)
    ensures DecodeIndexHeader(EncodeIndexHeader(x), 0) == Ok(x)
  {
    var slots := [ I32Slot(0, x.magic, LittleEndian), I32Slot(4, x.tagClassCount, LittleEndian),
                   I32Slot(8, x.tagInfoAddress.value, LittleEndian), I32Slot(24, x.tagCount, LittleEndian) ];
    SlotI32(slots, INDEX_SIZE, 0, x.magic, LittleEndian);
    SlotI32(slots, INDEX_SIZE, 1, x.tagClassCount, LittleEndian);
    SlotI32(slots, INDEX_SIZE, 2, x.tagInfoAddress.value, LittleEndian);
    SlotI32(slots, INDEX_SIZE, 3, x.tagCount, LittleEndian);
  }

  /** One tag of the index. */
  datatype IndexItem = IndexItem(classId: int, id: int, metaPointer: Pointer, metaSize: int)

  /** `ReadObject(new IndexItem(..))` at `base`: ClassId big-endian, Id an
      unsigned 16-bit value, then the metadata pointer and size. */
  function DecodeIndexItem(s: seq<byte>, base: int): (r: Result<IndexItem>)
    ensures r.Ok? <==> InRange(s, base, ITEM_SIZE)
    ensures r.Err? ==> r.error == EndOfStream
    ensures r.Ok? ==> 0 <= r.value.id < 0x1_0000
  {
    var classId :- ReadI32(s, base, BigEndian);
    var id :- ReadU16(s, base + 4);
    var meta :- ReadI32(s, base + 8, LittleEndian);
    var metaSize :- ReadI32(s, base + 12, LittleEndian);
    Ok(IndexItem(classId, id, Pointer(meta), metaSize))
  }

  predicate ItemFits(x: IndexItem)
  {
    IsInt32(x.classId) && 0 <= x.id < 0x1_0000 && IsInt32(x.metaPointer.value) && IsInt32(x.metaSize)
  }

  function ItemSlots(x: IndexItem): seq<Slot>
    requires ItemFits(x)
  {
    [ I32Slot(0, x.classId, BigEndian), I16Slot(4, x.id),
      I32Slot(8, x.metaPointer.value, LittleEndian), I32Slot(12, x.metaSize, LittleEndian) ]
  }

  function EncodeIndexItem(x: IndexItem): (r: seq<byte>)
    requires ItemFits(x)
    ensures |r| == ITEM_SIZE
  {
    PlacedInside(ItemSlots(x), ITEM_SIZE);
    Write(ITEM_SIZE, ItemSlots(x))
  }

  /** Reading back a written item gives it back. */
  lemma IndexItemRoundTrip(x: IndexItem)
    requires ItemFits(x)
    ensures DecodeIndexItem(EncodeIndexItem(x), 0) == Ok(x)
  {
    var slots := ItemSlots(x);
    SlotI32(slots, ITEM_SIZE, 0, x.classId, BigEndian);
    SlotI16(slots, ITEM_SIZE, 1, x.id);
    SlotI32(slots, ITEM_SIZE, 2, x.metaPointer.value, LittleEndian);
    SlotI32(slots, ITEM_SIZE, 3, x.metaSize, LittleEndian);
  }

  /** The characters `String.TrimEnd` removes, among those a single byte
      below 0x80 decodes to: tab, line feed, vertical tab, form feed,
      carriage return and space. */
  predicate IsWhiteSpace(b: byte)
  {
    9 <= b <= 13 || b == 32
  }

  /** `TrimEnd()`: the string without its trailing white space. */
  function TrimEnd(s: seq<byte>): (r: seq<byte>)
    ensures |r| <= |s| && r == s[..|r|]
    ensures r == [] || !IsWhiteSpace(r[|r| - 1])
    ensures forall i :: |r| <= i < |s| ==> IsWhiteSpace(s[i])
  {
    if s == [] || !IsWhiteSpace(s[|s| - 1]) then s else TrimEnd(s[..|s| - 1])
  }

  /** `IndexItem.ClassCode`: the little-endian bytes of ClassId, trimmed. */
  function ClassCode(classId: int): seq<byte>
    requires IsInt32(classId)
  {
    TrimEnd(Int32Bytes(classId))
  }

  /** The little-endian bytes of a big-endian read are the four file bytes reversed. */
  lemma Int32BytesOfBE(s: seq<byte>, off: int)
    requires InRange(s, off, 4)
    ensures Int32Bytes(Int32BE(s, off)) == [s[off + 3], s[off + 2], s[off + 1], s[off]]
  {
    var b0, b1, b2, b3 := s[off] as int, s[off + 1] as int, s[off + 2] as int, s[off + 3] as int;
    var q2 := b1 + 0x100 * b0;
    var q1 := b2 + 0x100 * q2;
    var u := b3 + 0x100 * q1;
    assert 0 <= q2 < 0x1_0000 && 0 <= q1 < 0x100_0000 && 0 <= u < TWO_32;
    assert Int32BE(s, off) == Signed32(u);
    UnsignedBytes(b0, b1, b2, b3);
  }

  /** The four bytes of the int32 whose unsigned value has base-256 digits b0 b1 b2 b3. */
  lemma UnsignedBytes(b0: int, b1: int, b2: int, b3: int)
    requires 0 <= b0 < 0x100 && 0 <= b1 < 0x100 && 0 <= b2 < 0x100 && 0 <= b3 < 0x100
    ensures var u := b3 + 0x100 * (b2 + 0x100 * (b1 + 0x100 * b0));
            0 <= u < TWO_32 && Int32Bytes(Signed32(u)) == [b3 as byte, b2 as byte, b1 as byte, b0 as byte]
  {
    var q2 := b1 + 0x100 * b0;
    var q1 := b2 + 0x100 * q2;
    var u := b3 + 0x100 * q1;
    assert 0 <= q2 < 0x1_0000 && 0 <= q1 < 0x100_0000 && 0 <= u < TWO_32;
    assert (if Signed32(u) < 0 then Signed32(u) + TWO_32 else Signed32(u)) == u;
    assert u % 0x100 == b3 by { DivUnique(u, 0x100, q1); }
    assert (u / 0x100) % 0x100 == b2 by {
      DivUnique(u, 0x100, q1);
      DivUnique(q1, 0x100, q2);
    }
    assert (u / 0x1_0000) % 0x100 == b1 by {
      DivUnique(u, 0x1_0000, q2);
      DivUnique(q2, 0x100, b0);
    }
    assert u / 0x100_0000 == b0 by { DivUnique(u, 0x100_0000, b0); }
  }

  /** The class code of an item read from the file is its first four bytes in
      reverse order, with trailing white space dropped. */
  lemma ClassCodeOfFile(s: seq<byte>, base: int)
    requires DecodeIndexItem(s, base).Ok?
    ensures ClassCode(DecodeIndexItem(s, base).value.classId) == TrimEnd(Reverse(s[base..base + 4]))
  {
    Int32BytesOfBE(s, base);
    var w := s[base..base + 4];
    ReverseAt(w, 0); ReverseAt(w, 1); ReverseAt(w, 2); ReverseAt(w, 3);
    assert Reverse(w) == [s[base + 3], s[base + 2], s[base + 1], s[base]];
  }

  /** Element decoders for the runs `ReadItems` reads (the version is unused). */
  function ItemElement(s: seq<byte>, off: int, version: int): Result<IndexItem>
  {
    DecodeIndexItem(s, off)
  }

  function IndexElement(s: seq<byte>, off: int, version: int): Result<int>
  {
    ReadI32(s, off, LittleEndian)
  }

  /** The index items: item `k` at `base + 16k`, the first unreadable one failing the read. */
  function ItemsRead(data: seq<byte>, base: int, n: nat): Result<seq<IndexItem>>
  {
    Elements(data, base, n, ITEM_SIZE, 0, ItemElement)
  }

  /** The file-name offsets: `Seek(FileTableIndexOffset)`, which fails when
      negative even for an empty table, then `n` int32 values. */
  function IndicesRead(data: seq<byte>, offset: int, n: nat): Result<seq<int>>
  {
    if offset < 0 then Err(EndOfStream)
    else Elements(data, offset, n, 4, 0, IndexElement)
  }

  /** The position of name `k`: `FileTableAddress + indices[k]` in int32 arithmetic. */
  function NameOffset(table: int, ix: seq<int>, k: nat): int
    requires k < |ix|
  {
    Int32.Wrap32(table + ix[k])
  }

  /** The first `n` file names, each the NUL-terminated string at its offset. */
  function NamesRead(data: seq<byte>, table: int, ix: seq<int>, n: nat): (r: Result<seq<seq<byte>>>)
    requires n <= |ix|
    ensures r.Ok? ==> |r.value| == n
    ensures r.Err? ==> r.error == EndOfStream
  {
    if n == 0 then Ok([])
    else
      var names :- NamesRead(data, table, ix, n - 1);
      var name :- ReadCString(data, NameOffset(table, ix, n - 1));
      Ok(names + [name])
  }

  lemma {:induction false} NamesAt(data: seq<byte>, table: int, ix: seq<int>, n: nat, k: nat)
    requires n <= |ix| && NamesRead(data, table, ix, n).Ok? && k < n
    ensures ReadCString(data, NameOffset(table, ix, k)).Ok?
    ensures NamesRead(data, table, ix, n).value[k] == ReadCString(data, NameOffset(table, ix, k)).value
  {
    if k < n - 1 {
      NamesAt(data, table, ix, n - 1, k);
    }
  }

  lemma {:induction false} NamesErrStays(data: seq<byte>, table: int, ix: seq<int>, n: nat, m: nat)
    requires n <= m <= |ix| && NamesRead(data, table, ix, n).Err?
    ensures NamesRead(data, table, ix, m) == NamesRead(data, table, ix, n)
  {
    if n < m {
      NamesErrStays(data, table, ix, n, m - 1);
      NamesErrNext(data, table, ix, m - 1);
    }
  }

  /** A failed run of names fails the same way with one more name. */
  lemma NamesErrNext(data: seq<byte>, table: int, ix: seq<int>, n: nat)
    requires n < |ix| && NamesRead(data, table, ix, n).Err?
    ensures NamesRead(data, table, ix, n + 1) == NamesRead(data, table, ix, n)
  {
  }

  /** One more name read is the names so far followed by it. */
  lemma NamesStep(data: seq<byte>, table: int, ix: seq<int>, n: nat, names: seq<seq<byte>>, name: seq<byte>)
    requires n < |ix| && NamesRead(data, table, ix, n) == Ok(names)
    requires ReadCString(data, NameOffset(table, ix, n)) == Ok(name)
    ensures NamesRead(data, table, ix, n + 1) == Ok(names + [name])
  {
  }

  /** Names keyed by their position in the table. */
  function AsMap(names: seq<seq<byte>>): (m: map<int, seq<byte>>)
    ensures forall k :: k in m <==> 0 <= k < |names|
  {
    map k | 0 <= k < |names| :: names[k]
  }

  /** A name appended to the list is added to the map under the next key. */
  lemma AsMapSnoc(names: seq<seq<byte>>, name: seq<byte>)
    ensures AsMap(names + [name]) == AsMap(names)[|names| := name]
  {
    var l, r := AsMap(names + [name]), AsMap(names)[|names| := name];
    assert forall k :: k in l ==> l[k] == (names + [name])[k];
    assert l.Keys == r.Keys;
  }

  /** What `ReadItems` reads: TagCount items, then as many name offsets and
      names.  A negative TagCount reads nothing. */
  function ReadItemsSpec(data: seq<byte>, header: CacheHeader, base: int, tagCount: int)
    : (r: Result<(seq<IndexItem>, map<int, seq<byte>>)>)
    ensures r.Ok? ==> |r.value.0| == Max(tagCount, 0) 
                      && forall k :: k in r.value.1 <==> 0 <= k < |r.value.0|
  {
    var n := Max(tagCount, 0);
    var items :- ItemsRead(data, base, n);
    var ix :- IndicesRead(data, header.fileTableIndexOffset, n);
    var names :- NamesRead(data, header.fileTableAddress, ix, n);
    Ok((items, AsMap(names)))
  }

  /** A successful read is made of three successful runs. */
  lemma ReadItemsParts(data: seq<byte>, header: CacheHeader, base: int, tagCount: int)
    requires ReadItemsSpec(data, header, base, tagCount).Ok?
    ensures var n := Max(tagCount, 0);
            && ItemsRead(data, base, n).Ok?
            && IndicesRead(data, header.fileTableIndexOffset, n).Ok?
            && |IndicesRead(data, header.fileTableIndexOffset, n).value| == n
            && var ix := IndicesRead(data, header.fileTableIndexOffset, n).value;
               && NamesRead(data, header.fileTableAddress, ix, n).Ok?
               && ReadItemsSpec(data, header, base, tagCount).value
                  == (ItemsRead(data, base, n).value, AsMap(NamesRead(data, header.fileTableAddress, ix, n).value))
  {
  }

  /** After a successful read, item `k` is the record at `base + 16k`. */
  lemma ReadItemAt(data: seq<byte>, header: CacheHeader, base: int, tagCount: int, k: nat)
    requires ReadItemsSpec(data, header, base, tagCount).Ok? && k < Max(tagCount, 0)
    ensures DecodeIndexItem(data, base + ITEM_SIZE * k) == Ok(ReadItemsSpec(data, header, base, tagCount).value.0[k])
  {
    var n := Max(tagCount, 0);
    ReadItemsParts(data, header, base, tagCount);
    assert ReadItemsSpec(data, header, base, tagCount).value.0 == Elements(data, base, n, ITEM_SIZE, 0, ItemElement).value;
    ElementsAt(data, base, n, ITEM_SIZE, 0, ItemElement, k);
    assert ITEM_SIZE * k == k * ITEM_SIZE;
  }

  /** After a successful read, the name of tag `k` is the string at
      `FileTableAddress` plus the `k`-th int32 of the table at
      `FileTableIndexOffset`. */
  lemma ReadNameAt(data: seq<byte>, header: CacheHeader, base: int, tagCount: int, k: nat)
    requires ReadItemsSpec(data, header, base, tagCount).Ok? && k < Max(tagCount, 0)
    ensures var entry := header.fileTableIndexOffset + 4 * k;
            && InRange(data, entry, 4)
            && ReadCString(data, Int32.Wrap32(header.fileTableAddress + Int32LE(data, entry)))
               == Ok(ReadItemsSpec(data, header, base, tagCount).value.1[k])
  {
    var n := Max(tagCount, 0);
    ReadItemsParts(data, header, base, tagCount);
    var ix := IndicesRead(data, header.fileTableIndexOffset, n).value;
    var names := NamesRead(data, header.fileTableAddress, ix, n).value;
    assert ReadItemsSpec(data, header, base, tagCount).value.1[k] == names[k];
    IndexAt(data, header.fileTableIndexOffset, n, ix, k);
    NameAt(data, header.fileTableAddress, ix, n, names, k);
    NameAtOffset(data, header.fileTableAddress, ix, names, k, Int32LE(data, header.fileTableIndexOffset + 4 * k));
  }

  /** Offset `k` of a run of offsets is the int32 at `offset + 4k`. */
  lemma IndexAt(data: seq<byte>, offset: int, n: nat, ix: seq<int>, k: nat)
    requires IndicesRead(data, offset, n) == Ok(ix) && k < n
    ensures InRange(data, offset + 4 * k, 4) && k < |ix| && ix[k] == Int32LE(data, offset + 4 * k)
  {
    ElementsAt(data, offset, n, 4, 0, IndexElement, k);
    assert k * 4 == 4 * k;
  }

  /** Name `k` of a run of names, as NamesAt states it for a run already known. */
  lemma NameAt(data: seq<byte>, table: int, ix: seq<int>, n: nat, names: seq<seq<byte>>, k: nat)
    requires n <= |ix| && NamesRead(data, table, ix, n) == Ok(names) && k < n
    ensures k < |names| && ReadCString(data, NameOffset(table, ix, k)).Ok?
            && names[k] == ReadCString(data, NameOffset(table, ix, k)).value
  {
    NamesAt(data, table, ix, n, k);
  }

  /** The name read through offset `v` is the one read through the equal `ix[k]`. */
  lemma NameAtOffset(data: seq<byte>, table: int, ix: seq<int>, names: seq<seq<byte>>, k: nat, v: int)
    requires k < |ix| && k < |names| && ix[k] == v
    requires ReadCString(data, NameOffset(table, ix, k)).Ok?
    requires names[k] == ReadCString(data, NameOffset(table, ix, k)).value
    ensures ReadCString(data, Int32.Wrap32(table + v)) == Ok(names[k])
  {
  }

  /** `CacheIndex`: the fields read from the file and the items and names
      `ReadItems` fills in. */
  class CacheIndex {
    const magic: int
    const tagClassCount: int
    const tagInfoAddress: Pointer
    const tagCount: int
    var items: seq<IndexItem>
    var filenames: map<int, seq<byte>>

    /** Every name belongs to a tag that has been read. */
    ghost predicate Valid()
      reads this
    {
      forall k :: k in filenames ==> 0 <= k < |items|
    }

    function Fields(): IndexHeader
    {
      IndexHeader(magic, tagClassCount, tagInfoAddress, tagCount)
    }

    /** The constructor followed by `ReadObject`, which sets the stream fields. */
    constructor (fields: IndexHeader)
      ensures Valid() && Fields() == fields && items == [] && filenames == map[]
    {
      magic := fields.magic;
      tagClassCount := fields.tagClassCount;
      tagInfoAddress := fields.tagInfoAddress;
      tagCount := fields.tagCount;
      items := [];
      filenames := map[];
    }

    /** The indexer `this[index]`. */
    function Item(index: int): (r: Result<IndexItem>)
      reads this
      ensures r.Ok? <==> 0 <= index < |items|
      ensures r.Ok? ==> r.value == items[index]
      ensures r.Err? ==> r.error == ArgumentOutOfRange
    {
      if 0 <= index < |items| then Ok(items[index]) else Err(ArgumentOutOfRange)
    }

    /** `IndexItem.FileName`: the name stored under the item's Id. */
    function FileName(item: IndexItem): (r: Result<seq<byte>>)
      reads this
      ensures r.Ok? <==> item.id in filenames
      ensures r.Ok? ==> r.value == filenames[item.id]
      ensures r.Err? ==> r.error == KeyNotFound
    {
      if item.id in filenames then Ok(filenames[item.id]) else Err(KeyNotFound)
    }

    /** The first loop of `ReadItems`: item `i` read at `base + 16i`. */
    method ReadTagItems(reader: Reader, base: int, n: nat) returns (e: Option<Failure>)
      requires items == [] && filenames == map[]
      modifies this, reader
      ensures Valid() && filenames == map[]
      ensures reader.order == old(reader.order)
      ensures e.None? <==> ItemsRead(reader.data, base, n).Ok?
      ensures e.None? ==> items == ItemsRead(reader.data, base, n).value
      ensures e.Some? ==> ItemsRead(reader.data, base, n) == Err(e.value)
    {
      var i := 0;
      while i < n
        invariant 0 <= i <= n && reader.order == old(reader.order)
        invariant Elements(reader.data, base, i, ITEM_SIZE, 0, ItemElement) == Ok(items)
        invariant filenames == map[]
      {
        var moved := reader.Seek(base + i * ITEM_SIZE);
        var item := DecodeIndexItem(reader.data, base + i * ITEM_SIZE);
        if moved.Some? || item.Err? {
          ElementsErrStays(reader.data, base, i + 1, n, ITEM_SIZE, 0, ItemElement);
          return Some(EndOfStream);
        }
        items := items + [item.value];
        i := i + 1;
      }
      e := None;
    }

    /** The last loop of `ReadItems`: name `k` read at `FileTableAddress + indices[k]`
        and added under key `k`. */
    method ReadNames(reader: Reader, table: int, indices: seq<int>, n: nat) returns (e: Option<Failure>)
      requires |items| == n == |indices| && filenames == map[]
      modifies this, reader
      ensures Valid() && items == old(items)
      ensures e.None? <==> NamesRead(reader.data, table, indices, n).Ok?
      ensures e.None? ==> filenames == AsMap(NamesRead(reader.data, table, indices, n).value)
      ensures e.Some? ==> e.value == EndOfStream
    {
      ghost var names: seq<seq<byte>> := [];
      var k := 0;
      while k < n
        invariant 0 <= k <= n && items == old(items)
        invariant NamesRead(reader.data, table, indices, k) == Ok(names)
        invariant filenames == AsMap(names)
      {
        var at := Int32.Wrap32(table + indices[k]);
        assert at == NameOffset(table, indices, k);
        var seeked := reader.Seek(at);
        if seeked.Some? {
          assert ReadCString(reader.data, at).Err?;
          NamesErrStays(reader.data, table, indices, k + 1, n);
          return Some(EndOfStream);
        }
        var name := reader.ReadNullTerminatedString();
        if name.Err? {
          NamesErrStays(reader.data, table, indices, k + 1, n);
          return Some(EndOfStream);
        }
        NamesStep(reader.data, table, indices, k, names, name.value);
        AsMapSnoc(names, name.value);
        filenames := filenames[k := name.value];
        names := names + [name.value];
        k := k + 1;
      }
      e := None;
    }

    /** `ReadItems`: refused once items exist; otherwise reads the items
        through `data`, with TagInfoAddress translated by `translate`. */
    method ReadItems(data: seq<byte>, header: CacheHeader, translate: int -> int) returns (e: Option<Failure>)
      requires Valid()
      modifies this
      ensures Valid()
      ensures old(items) != [] ==> e == Some(InvalidOperation) && items == old(items) && filenames == old(filenames)
      ensures old(items) == [] ==>
                var spec := ReadItemsSpec(data, header, Address(tagInfoAddress, translate), tagCount);
                && (e.None? <==> spec.Ok?)
                && (e.Some? ==> e.value == spec.error)
                && (e.None? ==> items == spec.value.0 && filenames == spec.value.1)
    {
      if items != [] {
        return Some(InvalidOperation);
      }
      assert filenames == map[] by {
        assert forall k :: k !in filenames;
      }
      var reader := new Reader(data, LittleEndian);
      var n := Max(tagCount, 0);
      var base := Address(tagInfoAddress, translate);
      e := ReadTagItems(reader, base, n);
      if e.Some? {
        return;
      }
      var read := ReadIndices(reader, header.fileTableIndexOffset, n);
      if read.Err? {
        return Some(read.error);
      }
      e := ReadNames(reader, header.fileTableAddress, read.value, n);
    }
  }

  /** `Seek(offset)` then `ReadEnumerable<int>(n)`. */
  method ReadIndices(reader: Reader, offset: int, n: nat) returns (r: Result<seq<int>>)
    requires reader.order == LittleEndian
    modifies reader
    ensures r == IndicesRead(reader.data, offset, n)
  {
    var moved := reader.Seek(offset);
    if moved.Some? {
      return Err(moved.value);
    }
    var indices: seq<int> := [];
    var j := 0;
    while j < n
      invariant 0 <= j <= n && reader.order == LittleEndian
      invariant Elements(reader.data, offset, j, 4, 0, IndexElement) == Ok(indices)
      invariant reader.position == offset + 4 * j
    {
      var x := reader.ReadInt32();
      if x.Err? {
        ElementsErrStays(reader.data, offset, j + 1, n, 4, 0, IndexElement);
        return Err(x.error);
      }
      indices := indices + [x.value];
      j := j + 1;
    }
    r := Ok(indices);
  }

  /** What opening a cache file reads: the header at 0, the index record at
      IndexAddress, then the items and names. */
  function OpenSpec(data: seq<byte>, translate: int -> int)
    : (r: Result<(CacheHeader, IndexHeader, seq<IndexItem>, map<int, seq<byte>>)>)
    ensures r.Ok? ==> DecodeHeader(data, 0) == Ok(r.value.0)
                      && DecodeIndexHeader(data, r.value.0.indexAddress) == Ok(r.value.1)
                      && |r.value.2| == Max(r.value.1.tagCount, 0)
  {
    var header :- DecodeHeader(data, 0);
    var index :- DecodeIndexHeader(data, header.indexAddress);
    var read :- ReadItemsSpec(data, header, Address(index.tagInfoAddress, translate), index.tagCount);
    Ok((header, index, read.0, read.1))
  }

  /** The `CacheFile` constructor over the file's bytes; `translate` is the
      header address translator the TagInfoAddress pointer is created with. */
  method Open(data: seq<byte>, translate: int -> int) returns (r: Result<(CacheHeader, CacheIndex)>)
    ensures r.Err? <==> OpenSpec(data, translate).Err?
    ensures r.Err? ==> r.error == OpenSpec(data, translate).error
    ensures r.Ok? ==> var (header, index) := r.value;
                      && fresh(index) && index.Valid()
                      && OpenSpec(data, translate).value == (header, index.Fields(), index.items, index.filenames)
  {
    var reader := new Reader(data, LittleEndian);
    var header := DecodeHeader(data, 0);
    if header.Err? {
      return Err(header.error);
    }
    var moved := reader.Seek(header.value.indexAddress);
    var fields := DecodeIndexHeader(data, header.value.indexAddress);
    if moved.Some? || fields.Err? {
      return Err(EndOfStream);
    }
    var index := new CacheIndex(fields.value);
    var e := index.ReadItems(data, header.value, translate);
    if e.Some? {
      return Err(e.value);
    }
    r := Ok((header.value, index));
  }
}
