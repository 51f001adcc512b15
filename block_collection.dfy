/** Halo3.BlockCollection<T>: a (count, pointer) pair read from the stream,
    followed, when the count is not zero, by `count` elements read at the
    translated pointer. */
module BlockCollections {

  import opened Wrappers
  import opened Bytes
  import opened Formats
  import opened Schema
  import opened Stream

  /** The size the collection declares for its field (`[FixedSize(12)]`). */
  const DECLARED_SIZE := 12
  /** The bytes the constructor consumes: the count and the pointer. */
  const HEADER_SIZE := 8

  datatype BlockCollection<T> = BlockCollection(pointer: Pointer, items: seq<T>)

  /** The first `n` elements of a run: element `k` is decoded by `element` at
      `start + k * stride`, every one with the same version; the first element
      that fails stops the run. */
  function Elements<T>(data: seq<byte>, start: int, n: nat, stride: nat, version: int,
                       element: (seq<byte>, int, int) -> Result<T>): (r: Result<seq<T>>)
    ensures r.Ok? ==> |r.value| == n
  {
    if n == 0 then Ok([])
    else match Elements(data, start, n - 1, stride, version, element)
      case Err(e) => Err(e)
      case Ok(xs) =>
        match element(data, start + (n - 1) * stride, version)
        case Err(e) => Err(e)
        case Ok(x) => Ok(xs + [x])
  }

  /** A decoded run holds, at index `k`, the element decoded at `start + k * stride`. */
  lemma {:induction false} ElementsAt<T>(data: seq<byte>, start: int, n: nat, stride: nat, version: int,
                                         element: (seq<byte>, int, int) -> Result<T>, k: nat)
    requires Elements(data, start, n, stride, version, element).Ok? && k < n
    ensures element(data, start + k * stride, version).Ok?
    ensures Elements(data, start, n, stride, version, element).value[k]
            == element(data, start + k * stride, version).value
  {
    if k < n - 1 {
      ElementsAt(data, start, n - 1, stride, version, element, k);
    }
  }

  /** A failing run stays failed, with the same error, however far it is extended. */
  lemma {:induction false} ElementsErrStays<T>(data: seq<byte>, start: int, n: nat, m: nat, stride: nat, version: int,
                                               element: (seq<byte>, int, int) -> Result<T>)
    requires n <= m && Elements(data, start, n, stride, version, element).Err?
    ensures Elements(data, start, m, stride, version, element) == Elements(data, start, n, stride, version, element)
  {
    if n < m {
      ElementsErrStays(data, start, n, m - 1, stride, version, element);
    }
  }

  /** What the constructor yields for a stream positioned at `pos`: a null
      translator throws; the count and the raw pointer are read in the stream's
      byte order; a zero count is an empty collection whose pointer is never
      translated; otherwise the stream is moved to the translated address
      (ArgumentOutOfRange when negative) and `count` elements are read there. */
  function BlockCollectionSpec<T>(data: seq<byte>, pos: nat, order: ByteOrder, translate: Option<int -> int>,
                                  version: int, stride: nat, element: (seq<byte>, int, int) -> Result<T>)
    : (r: Result<BlockCollection<T>>)
    ensures translate.None? ==> r == Err(ArgumentNull)
    ensures translate.Some? ==> (ReadI32(data, pos, order).Err? || ReadI32(data, pos + 4, order).Err? ==> r == Err(EndOfStream))
    ensures r.Ok? ==> r.value.pointer == Pointer(ReadI32(data, pos + 4, order).value)
    ensures r.Ok? && ReadI32(data, pos, order).value <= 0 ==> r.value.items == []
  {
    if translate.None? then Err(ArgumentNull)
    else match ReadI32(data, pos, order)
      case Err(e) => Err(e)
      case Ok(count) =>
        match ReadI32(data, pos + 4, order)
        case Err(e) => Err(e)
        case Ok(raw) =>
          var p := Pointer(raw);
          if count == 0 then Ok(BlockCollection(p, []))
          else
            var addr := Address(p, translate.value);
            if addr < 0 then Err(ArgumentOutOfRange)
            else if count < 0 then Ok(BlockCollection(p, []))
            else match Elements(data, addr, count, stride, version, element)
              case Err(e) => Err(e)
              case Ok(xs) => Ok(BlockCollection(p, xs))
  }

  /** A successful read has exactly `max(count, 0)` elements, element `k`
      being the one decoded at `Pointer.Address + k * stride`. */
  lemma CollectionElements<T>(data: seq<byte>, pos: nat, order: ByteOrder, translate: Option<int -> int>,
                              version: int, stride: nat, element: (seq<byte>, int, int) -> Result<T>, k: nat)
    requires BlockCollectionSpec(data, pos, order, translate, version, stride, element).Ok?
    ensures var r := BlockCollectionSpec(data, pos, order, translate, version, stride, element).value;
            var count := ReadI32(data, pos, order).value;
            && |r.items| == (if count > 0 then count else 0)
            && (k < |r.items| ==>
                  && element(data, Address(r.pointer, translate.value) + k * stride, version).Ok?
                  && r.items[k] == element(data, Address(r.pointer, translate.value) + k * stride, version).value)
  {
    var count := ReadI32(data, pos, order).value;
    var r := BlockCollectionSpec(data, pos, order, translate, version, stride, element).value;
    if count > 0 && k < |r.items| {
      ElementsAt(data, Address(r.pointer, translate.value), count, stride, version, element, k);
    }
  }

  /** CollectionElements for a collection already known to be the one read. */
  lemma CollectionAt<T>(c: BlockCollection<T>, data: seq<byte>, pos: nat, order: ByteOrder, translate: int -> int,
                        version: int, stride: nat, element: (seq<byte>, int, int) -> Result<T>, k: nat)
    requires Ok(c) == BlockCollectionSpec(data, pos, order, Some(translate), version, stride, element)
    ensures var count := ReadI32(data, pos, order).value;
            && |c.items| == (if count > 0 then count else 0)
            && (k < |c.items| ==> Ok(c.items[k]) == element(data, Address(c.pointer, translate) + k * stride, version))
  {
    CollectionElements(data, pos, order, Some(translate), version, stride, element, k);
  }

  /** With a zero count the pointer is never translated: any two translators
      give the same empty collection. */
  lemma ZeroCountIgnoresPointer<T>(data: seq<byte>, pos: nat, order: ByteOrder, t1: int -> int, t2: int -> int,
                                   version: int, stride: nat, element: (seq<byte>, int, int) -> Result<T>)
    requires ReadI32(data, pos, order) == Ok(0)
    ensures BlockCollectionSpec(data, pos, order, Some(t1), version, stride, element)
            == BlockCollectionSpec(data, pos, order, Some(t2), version, stride, element)
    ensures ReadI32(data, pos + 4, order).Ok? ==>
              BlockCollectionSpec(data, pos, order, Some(t1), version, stride, element)
              == Ok(BlockCollection(Pointer(ReadI32(data, pos + 4, order).value), []))
  {
  }

  /** `ReadObject(typeof(T), version)` for a record of `stride` bytes: the
      element decoded at the position, after which the stream sits at the
      record's end. */
  method ReadElement<T>(reader: Reader, version: int, stride: nat, element: (seq<byte>, int, int) -> Result<T>)
    returns (r: Result<T>)
    modifies reader
    ensures r == element(reader.data, old(reader.position), version)
    ensures reader.position == if r.Ok? then old(reader.position) + stride else old(reader.position)
    ensures reader.order == old(reader.order)
  {
    r := element(reader.data, reader.position, version);
    if r.Ok? {
      var _ := reader.Seek(reader.position + stride);
    }
  }

  /** The BlockCollection constructor. */
  method ReadBlockCollection<T>(reader: Reader?, translate: Option<int -> int>, version: int, stride: nat,
                                element: (seq<byte>, int, int) -> Result<T>)
    returns (r: Result<BlockCollection<T>>)
    modifies reader
    ensures reader == null ==> r == Err(ArgumentNull)
    ensures reader != null ==>
              && r == BlockCollectionSpec(reader.data, old(reader.position), reader.order, translate, version, stride, element)
              && reader.order == old(reader.order)
    ensures reader != null && r.Ok? ==>
              var count := ReadI32(reader.data, old(reader.position), reader.order).value;
              reader.position == if count == 0 then old(reader.position) + HEADER_SIZE
                                 else Address(r.value.pointer, translate.value) + (if count > 0 then count else 0) * stride
  {
    if reader == null {
      return Err(ArgumentNull);
    }
    if translate.None? {
      return Err(ArgumentNull);
    }
    ghost var pos := reader.position;
    var count := reader.ReadInt32();
    if count.Err? {
      return Err(count.error);
    }
    var raw := reader.ReadInt32();
    if raw.Err? {
      return Err(raw.error);
    }
    var p := Pointer(raw.value);
    if count.value == 0 {
      return Ok(BlockCollection(p, []));
    }
    var moved := reader.SetPosition(Address(p, translate.value));
    if moved.Some? {
      return Err(moved.value);
    }
    var items := ReadElements(reader, Address(p, translate.value), count.value, version, stride, element);
    if items.Err? {
      return Err(items.error);
    }
    r := Ok(BlockCollection(p, items.value));
  }

  /** The element loop of the constructor: `count` records read one after the other from `start`. */
  method ReadElements<T>(reader: Reader, start: nat, count: int, version: int, stride: nat,
                         element: (seq<byte>, int, int) -> Result<T>)
    returns (r: Result<seq<T>>)
    requires reader.position == start
    modifies reader
    ensures r == if count <= 0 then Ok([]) else Elements(reader.data, start, count, stride, version, element)
    ensures r.Ok? ==> reader.position == start + (if count > 0 then count else 0) * stride
    ensures reader.order == old(reader.order)
  {
    var items: seq<T> := [];
    var i := 0;
    while i < count
      invariant 0 <= i <= (if count > 0 then count else 0)
      invariant Elements(reader.data, start, i, stride, version, element) == Ok(items)
      invariant reader.position == start + i * stride
      invariant reader.order == old(reader.order)
    {
      var x := ReadElement(reader, version, stride, element);
      if x.Err? {
        ElementsErrStays(reader.data, start, i + 1, count, stride, version, element);
        return Err(x.error);
      }
      items := items + [x.value];
      i := i + 1;
    }
    r := Ok(items);
  }
}
