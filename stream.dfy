/** The stateful reader the parsers consume (DependencyReader over a
    stream): a fixed byte sequence, a position and a byte order. */
module Stream {

  import opened Wrappers
  import opened Bytes
  import opened Formats
  import opened Schema

  class Reader {
    /** The whole stream. */
    const data: seq<byte>
    /** `BaseStream.Position`; a stream never sits before its start. */
    var position: nat
    /** `ByteOrder`, the order multi-byte integers are read in. */
    var order: ByteOrder

    constructor (data: seq<byte>, order: ByteOrder)
      ensures this.data == data && position == 0 && this.order == order
    {
      this.data := data;
      position := 0;
      this.order := order;
    }

    /** `Seek(pos, SeekOrigin.Begin)`: a negative target raises an IOException,
      which `EndOfStream` stands for here, and leaves the stream where it was. */
    method Seek(pos: int) returns (e: Option<Failure>)
      modifies this
      ensures e == if pos < 0 then Some(EndOfStream) else None
      ensures position == if pos < 0 then old(position) else pos
      ensures order == old(order)
    {
      if pos < 0 {
        return Some(EndOfStream);
      }
      position := pos;
      e := None;
    }

    /** The `BaseStream.Position` setter: a negative value raises
        ArgumentOutOfRangeException. */
    method SetPosition(pos: int) returns (e: Option<Failure>)
      modifies this
      ensures e == if pos < 0 then Some(ArgumentOutOfRange) else None
      ensures position == if pos < 0 then old(position) else pos
      ensures order == old(order)
    {
      if pos < 0 {
        return Some(ArgumentOutOfRange);
      }
      position := pos;
      e := None;
    }

    /** `ReadInt32` in the reader's byte order. */
    method ReadInt32() returns (r: Result<int>)
      modifies this
      ensures r == ReadI32(data, old(position), order)
      ensures position == if r.Ok? then old(position) + 4 else old(position)
      ensures order == old(order)
    {
      r := ReadI32(data, position, order);
      if r.Ok? {
        position := position + 4;
      }
    }

    /** `ReadNullTerminatedString`: the bytes up to the next NUL, which is consumed too. */
    method ReadNullTerminatedString() returns (r: Result<seq<byte>>)
      modifies this
      ensures r == ReadCString(data, old(position))
      ensures position == if r.Ok? then old(position) + |r.value| + 1 else old(position)
      ensures order == old(order)
    {
      r := ReadCString(data, position);
      if r.Ok? {
        position := position + |r.value| + 1;
      }
    }

    /** `ReadBytes(count)`: up to `count` bytes, fewer when the stream ends
        first; a negative count raises ArgumentOutOfRangeException. */
    method ReadBytes(count: int) returns (r: Result<seq<byte>>)
      modifies this
      ensures r == TakeBytes(data, old(position), count)
      ensures position == if r.Ok? then old(position) + |r.value| else old(position)
      ensures order == old(order)
    {
      r := TakeBytes(data, position, count);
      if r.Ok? {
        position := position + |r.value|;
      }
    }
  }

  /** What `ReadBytes(count)` returns from position `pos`. */
  function TakeBytes(s: seq<byte>, pos: nat, count: int): (r: Result<seq<byte>>)
    ensures r.Err? <==> count < 0
    ensures r.Err? ==> r.error == ArgumentOutOfRange
    ensures r.Ok? ==> |r.value| <= count
    ensures r.Ok? && pos + count <= |s| ==> r.value == s[pos..pos + count]
    ensures r.Ok? && pos + count > |s| ==> r.value == (if pos <= |s| then s[pos..] else [])
  {
    if count < 0 then Err(ArgumentOutOfRange)
    else if pos >= |s| then Ok([])
    else if pos + count <= |s| then Ok(s[pos..pos + count])
    else Ok(s[pos..])
  }
}
