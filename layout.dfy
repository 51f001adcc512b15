/** Records written as bytes: each field's encoding placed at its offset in a
    zero-filled record of the record's size.  This is the inverse the field
    reads are checked against: a field written at its offset reads back as
    itself, whatever the other fields hold, as long as no two overlap. */
module Layout {

  import opened Wrappers
  import opened Bytes
  import opened Formats
  import opened Schema

  /** `bytes` placed at `offset` of a record. */
  datatype Slot = Slot(offset: nat, bytes: seq<byte>)

  function End(s: Slot): nat { s.offset + |s.bytes| }

  /** Slots in increasing order of offset, each ending before the next begins,
      the last one inside the record. */
  predicate WellPlaced(slots: seq<Slot>, size: nat)
  {
    && (forall i :: 0 <= i < |slots| - 1 ==> End(slots[i]) <= slots[i + 1].offset)
    && (|slots| > 0 ==> End(slots[|slots| - 1]) <= size)
  }

  /** Every slot of a well-placed run ends before any later slot begins. */
  lemma {:induction false} PlacedBefore(slots: seq<Slot>, size: nat, i: nat, j: nat)
    requires WellPlaced(slots, size) && i < j < |slots|
    ensures End(slots[i]) <= slots[j].offset
    decreases j - i
  {
    if i + 1 < j {
      PlacedBefore(slots, size, i + 1, j);
    }
  }

  /** Every slot of a well-placed run lies inside the record. */
  lemma PlacedInside(slots: seq<Slot>, size: nat)
    requires WellPlaced(slots, size)
    ensures forall i :: 0 <= i < |slots| ==> End(slots[i]) <= size
  {
    forall i | 0 <= i < |slots| ensures End(slots[i]) <= size {
      if i < |slots| - 1 {
        PlacedBefore(slots, size, i, |slots| - 1);
      }
    }
  }

  /** Two well-placed runs, the first ending before the second begins, make one. */
  lemma PlacedAppend(a: seq<Slot>, b: seq<Slot>, size: nat)
    requires a != [] && b != []
    requires WellPlaced(a, b[0].offset) && WellPlaced(b, size)
    ensures WellPlaced(a + b, size)
  {
    var ab := a + b;
    forall i | 0 <= i < |ab| - 1 ensures End(ab[i]) <= ab[i + 1].offset {
      if i < |a| - 1 {
        assert ab[i] == a[i] && ab[i + 1] == a[i + 1];
      } else if i == |a| - 1 {
        assert ab[i] == a[i] && ab[i + 1] == b[0];
      } else {
        assert ab[i] == b[i - |a|] && ab[i + 1] == b[i + 1 - |a|];
      }
    }
  }

  /** A record of `size` bytes, zero except where the slots put their bytes. */
  function Write(size: nat, slots: seq<Slot>): (r: seq<byte>)
    requires forall i :: 0 <= i < |slots| ==> End(slots[i]) <= size
    ensures |r| == size
  {
    if slots == [] then Zeros(size)
    else
      var last := slots[|slots| - 1];
      assert End(slots[|slots| - 1]) <= size;
      Splice(Write(size, slots[..|slots| - 1]), last.offset, last.bytes)
  }

  /** Dropping the last slot keeps a run well placed. */
  lemma PlacedInit(slots: seq<Slot>, size: nat)
    requires WellPlaced(slots, size) && |slots| > 0
    ensures WellPlaced(slots[..|slots| - 1], size)
  {
    var init := slots[..|slots| - 1];
    forall i | 0 <= i < |init| - 1 ensures End(init[i]) <= init[i + 1].offset {
      assert init[i] == slots[i] && init[i + 1] == slots[i + 1];
    }
    if |init| > 0 {
      PlacedInside(slots, size);
      assert init[|init| - 1] == slots[|init| - 1];
    }
  }

  /** Splicing leaves every range it does not touch as it was. */
  lemma SpliceOutside(s: seq<byte>, off: int, piece: seq<byte>, a: int, b: int)
    requires InRange(s, off, |piece|) && 0 <= a <= b <= |s|
    requires b <= off || off + |piece| <= a
    ensures Splice(s, off, piece)[a..b] == s[a..b]
  {
  }

  /** The spliced range holds the piece. */
  lemma SpliceInside(s: seq<byte>, off: int, piece: seq<byte>)
    requires InRange(s, off, |piece|)
    ensures Splice(s, off, piece)[off..off + |piece|] == piece
  {
  }

  /** A record built from well-placed slots holds each slot's bytes at its offset. */
  lemma {:induction false} WriteAt(slots: seq<Slot>, size: nat, k: nat)
    requires WellPlaced(slots, size) && k < |slots|
    ensures forall i :: 0 <= i < |slots| ==> End(slots[i]) <= size
    ensures Write(size, slots)[slots[k].offset..End(slots[k])] == slots[k].bytes
  {
    PlacedInside(slots, size);
    var n := |slots|;
    var last := slots[n - 1];
    var init := slots[..n - 1];
    assert End(last) <= size;
    if k == n - 1 {
      SpliceInside(Write(size, init), last.offset, last.bytes);
    } else {
      PlacedInit(slots, size);
      WriteAt(init, size, k);
      PlacedBefore(slots, size, k, n - 1);
      assert init[k] == slots[k];
      SpliceOutside(Write(size, init), last.offset, last.bytes, slots[k].offset, End(slots[k]));
    }
  }

  /** The slot of an int32 in the given byte order. */
  function I32Slot(offset: nat, v: int, order: ByteOrder): (s: Slot)
    requires IsInt32(v)
    ensures |s.bytes| == 4
  {
    Slot(offset, if order == LittleEndian then Int32Bytes(v) else Reverse(Int32Bytes(v)))
  }

  /** The slot of a 16-bit field (signed or unsigned), little-endian. */
  function I16Slot(offset: nat, v: int): (s: Slot)
    requires -0x8000 <= v < 0x1_0000
    ensures |s.bytes| == 2
  {
    Slot(offset, Int16Bytes(v))
  }

  /** The slot of an int16 in the given byte order. */
  function I16SlotIn(offset: nat, v: int, order: ByteOrder): (s: Slot)
    requires IsInt16(v)
    ensures |s.bytes| == 2
  {
    Slot(offset, if order == LittleEndian then Int16Bytes(v) else Reverse(Int16Bytes(v)))
  }

  /** The slot of a byte field. */
  function U8Slot(offset: nat, v: byte): (s: Slot)
    ensures |s.bytes| == 1
  {
    Slot(offset, [v])
  }

  /** The slot of a `[NullTerminated(Length = len)]` string. */
  function StringSlot(offset: nat, str: seq<byte>, len: nat): (s: Slot)
    requires |str| <= len
    ensures |s.bytes| == len
  {
    Slot(offset, FixedStringBytes(str, len))
  }

  /** An int32 written at `off` reads back as itself. */
  lemma I32Back(s: seq<byte>, off: nat, v: int, order: ByteOrder)
    requires IsInt32(v) && off + 4 <= |s| && s[off..off + 4] == I32Slot(off, v, order).bytes
    ensures ReadI32(s, off, order) == Ok(v)
  {
    Int32RoundTrip(v);
    var b := I32Slot(off, v, order).bytes;
    SliceAt(s, off, 4, 0);
    SliceAt(s, off, 4, 1);
    SliceAt(s, off, 4, 2);
    SliceAt(s, off, 4, 3);
  }

  /** Index `i` of the slice from `off` is index `off + i` of the whole. */
  lemma SliceAt(s: seq<byte>, off: nat, n: nat, i: nat)
    requires off + n <= |s| && i < n
    ensures s[off..off + n][i] == s[off + i]
  {
  }

  /** A 16-bit field written at `off` reads back as itself: unsigned for a
      value in 0..65535, signed for a value in the int16 range. */
  lemma I16Back(s: seq<byte>, off: nat, v: int)
    requires -0x8000 <= v < 0x1_0000 && off + 2 <= |s| && s[off..off + 2] == Int16Bytes(v)
    ensures 0 <= v ==> ReadU16(s, off) == Ok(v)
    ensures IsInt16(v) ==> ReadI16(s, off) == Ok(v)
  {
    Int16RoundTrip(v);
    SliceAt(s, off, 2, 0);
    SliceAt(s, off, 2, 1);
  }

  /** An int16 written at `off` in either byte order reads back as itself. */
  lemma I16InBack(s: seq<byte>, off: nat, v: int, order: ByteOrder)
    requires IsInt16(v) && off + 2 <= |s| && s[off..off + 2] == I16SlotIn(off, v, order).bytes
    ensures ReadInt16(s, off, order) == Ok(v)
  {
    Int16RoundTrip(v);
    SliceAt(s, off, 2, 0);
    SliceAt(s, off, 2, 1);
    ReverseAt(Int16Bytes(v), 0);
    ReverseAt(Int16Bytes(v), 1);
  }

  /** A byte field written at `off` reads back as itself. */
  lemma U8Back(s: seq<byte>, off: nat, v: byte)
    requires off + 1 <= |s| && s[off..off + 1] == [v]
    ensures ReadU8(s, off) == Ok(v as int)
  {
    SliceAt(s, off, 1, 0);
  }

  /** A NUL-free string written into a `len`-byte field reads back as itself. */
  lemma StringBack(s: seq<byte>, off: nat, str: seq<byte>, len: nat)
    requires |str| <= len && 0 !in str && off + len <= |s| && s[off..off + len] == FixedStringBytes(str, len)
    ensures ReadFixedString(s, off, len) == Ok(str)
  {
    FixedStringRoundTrip(str, len);
  }

  /** An int32 slot of a well-placed record reads back as its value. */
  lemma SlotI32(slots: seq<Slot>, size: nat, k: nat, v: int, order: ByteOrder)
    requires WellPlaced(slots, size) && k < |slots|
    requires IsInt32(v) && slots[k] == I32Slot(slots[k].offset, v, order)
    ensures forall i :: 0 <= i < |slots| ==> End(slots[i]) <= size
    ensures ReadI32(Write(size, slots), slots[k].offset, order) == Ok(v)
  {
    WriteAt(slots, size, k);
    I32Back(Write(size, slots), slots[k].offset, v, order);
  }

  /** A 16-bit slot of a well-placed record reads back as its value. */
  lemma SlotI16(slots: seq<Slot>, size: nat, k: nat, v: int)
    requires WellPlaced(slots, size) && k < |slots|
    requires -0x8000 <= v < 0x1_0000 && slots[k] == I16Slot(slots[k].offset, v)
    ensures forall i :: 0 <= i < |slots| ==> End(slots[i]) <= size
    ensures 0 <= v ==> ReadU16(Write(size, slots), slots[k].offset) == Ok(v)
    ensures IsInt16(v) ==> ReadI16(Write(size, slots), slots[k].offset) == Ok(v)
  {
    WriteAt(slots, size, k);
    I16Back(Write(size, slots), slots[k].offset, v);
  }

  /** A byte slot of a well-placed record reads back as its value. */
  lemma SlotU8(slots: seq<Slot>, size: nat, k: nat, v: byte)
    requires WellPlaced(slots, size) && k < |slots| && slots[k] == U8Slot(slots[k].offset, v)
    ensures forall i :: 0 <= i < |slots| ==> End(slots[i]) <= size
    ensures ReadU8(Write(size, slots), slots[k].offset) == Ok(v as int)
  {
    WriteAt(slots, size, k);
    U8Back(Write(size, slots), slots[k].offset, v);
  }

  /** A string slot of a well-placed record reads back as its NUL-free string. */
  lemma SlotString(slots: seq<Slot>, size: nat, k: nat, str: seq<byte>, len: nat)
    requires WellPlaced(slots, size) && k < |slots|
    requires |str| <= len && 0 !in str && slots[k] == StringSlot(slots[k].offset, str, len)
    ensures forall i :: 0 <= i < |slots| ==> End(slots[i]) <= size
    ensures ReadFixedString(Write(size, slots), slots[k].offset, len) == Ok(str)
  {
    WriteAt(slots, size, k);
    StringBack(Write(size, slots), slots[k].offset, str, len);
  }

  /** An int16 slot of a well-placed record reads back in its byte order. */
  lemma SlotI16In(slots: seq<Slot>, size: nat, k: nat, v: int, order: ByteOrder)
    requires WellPlaced(slots, size) && k < |slots|
    requires IsInt16(v) && slots[k] == I16SlotIn(slots[k].offset, v, order)
    ensures forall i :: 0 <= i < |slots| ==> End(slots[i]) <= size
    ensures ReadInt16(Write(size, slots), slots[k].offset, order) == Ok(v)
  {
    WriteAt(slots, size, k);
    I16InBack(Write(size, slots), slots[k].offset, v, order);
  }

  /** A raw slot of a well-placed record reads back as its bytes. */
  lemma SlotRaw(slots: seq<Slot>, size: nat, k: nat)
    requires WellPlaced(slots, size) && k < |slots|
    ensures forall i :: 0 <= i < |slots| ==> End(slots[i]) <= size
    ensures ReadRaw(Write(size, slots), slots[k].offset, |slots[k].bytes|) == Ok(slots[k].bytes)
  {
    WriteAt(slots, size, k);
  }
}
