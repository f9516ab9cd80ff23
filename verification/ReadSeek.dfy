/** The base cursor: what a reader over a byte string does, as a function of its
    contents and position, and the in-memory reader that does it. */
module ReadSeek {
  import opened Bytes

  datatype Whence = Set | Cur | End

  /** The bytes a read of `count` at `pos` returns: short only at the end. */
  function ReadAt(contents: seq<byte>, pos: nat, count: nat): seq<byte> {
    if pos >= |contents| then [] else contents[pos..pos + Min(count, |contents| - pos)]
  }

  /** Where a seek lands, or -1 when it would leave [0, |contents|]. */
  function SeekTo(contents: seq<byte>, pos: nat, offset: int, whence: Whence): int {
    var target := match whence {
      case Set => offset
      case Cur => pos + offset
      case End => |contents| + offset
    };
    if target < 0 || target > |contents| then -1 else target
  }

  /** Reads an in-memory buffer. */
  class MemReadSeek {
    const data: seq<byte>
    var pos: nat

    constructor (data: seq<byte>)
      ensures this.data == data && pos == 0
    {
      this.data := data;
      pos := 0;
    }

    method Read(count: nat) returns (buf: seq<byte>)
      modifies this
      ensures buf == ReadAt(data, old(pos), count)
      ensures pos == old(pos) + |buf|
    {
      if pos >= |data| {
        return [];
      }
      var n := Min(count, |data| - pos);
      buf := data[pos..pos + n];
      pos := pos + n;
    }

    method Seek(offset: int, whence: Whence) returns (r: int)
      modifies this
      ensures r == SeekTo(data, old(pos), offset, whence)
      ensures pos == if r < 0 then old(pos) else r
    {
      var target;
      match whence {
        case Set => target := offset;
        case Cur => target := pos + offset;
        case End => target := |data| + offset;
      }
      if target < 0 || target > |data| {
        return -1;
      }
      pos := target;
      r := target;
    }
  }
}
