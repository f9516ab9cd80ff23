/** The zip reader that finds the base library inside an APK: the search for the end
    record, the walk over the central directory, and the bounded slice of the file. */
module Zip {
  import opened Bytes
  import opened ReadSeek

  const SIG_CENTRAL: int := 0x0201_4B50
  const SIG_EOCD: int := 0x0605_4B50
  const STORED: int := 0
  const DEFLATED: int := 8

  function U16(d: seq<byte>, p: nat): nat
    requires p + 2 <= |d|
  {
    d[p] as int + d[p + 1] as int * 0x100
  }

  function U32(d: seq<byte>, p: nat): nat
    requires p + 4 <= |d|
  {
    d[p] as int + d[p + 1] as int * 0x100 + d[p + 2] as int * 0x1_0000 + d[p + 3] as int * 0x100_0000
  }

  /** The input stream; a read past the end fails. */
  class InStream {
    const data: seq<byte>
    var pos: nat

    constructor (data: seq<byte>)
      ensures this.data == data && pos == 0
    {
      this.data, pos := data, 0;
    }

    method Seek(p: nat)
      modifies this
      ensures pos == p
    {
      pos := p;
    }

    method Skip(n: nat)
      modifies this
      ensures pos == old(pos) + n
    {
      pos := pos + n;
    }

    method Read(n: nat) returns (buf: Option<seq<byte>>)
      modifies this
      ensures buf == if old(pos) + n <= |data| then Some(data[old(pos)..old(pos) + n]) else None
      ensures buf.Some? ==> pos == old(pos) + n
    {
      if pos + n > |data| {
        return None;
      }
      buf := Some(data[pos..pos + n]);
      pos := pos + n;
    }

    method ReadU16() returns (v: Option<nat>)
      modifies this
      ensures v == if old(pos) + 2 <= |data| then Some(U16(data, old(pos))) else None
      ensures v.Some? ==> pos == old(pos) + 2
    {
      var b := Read(2);
      v := if b.None? then None else Some(U16(b.value, 0));
    }

    method ReadU32() returns (v: Option<nat>)
      modifies this
      ensures v == if old(pos) + 4 <= |data| then Some(U32(data, old(pos))) else None
      ensures v.Some? ==> pos == old(pos) + 4
    {
      var b := Read(4);
      v := if b.None? then None else Some(U32(b.value, 0));
    }
  }

  // -- The end of central directory record -------------------------------------------------

  /** The last place in `tail[..i + 1]` where the signature of an end record starts. */
  function BackScan(tail: seq<byte>, i: int): (r: int)
    requires -1 <= i && i + 22 <= |tail|
    ensures -1 <= r <= i
    decreases i + 1
  {
    if i < 0 then -1 else if U32(tail, i) == SIG_EOCD then i else BackScan(tail, i - 1)
  }

  /** The number of entries and the offset of the directory. */
  datatype Eocd = Eocd(entries: nat, offset: nat)

  function FindEocd(file: seq<byte>): Option<Eocd> {
    if |file| < 22 then None
    else
      var tail := file[|file| - Min(|file|, 22 + 65535)..];
      var e := BackScan(tail, |tail| - 22);
      if e < 0 then None
      else if U16(tail, e + 10) == 0xFFFF || U32(tail, e + 16) == 0xFFFF_FFFF then None
      else Some(Eocd(U16(tail, e + 10), U32(tail, e + 16)))
  }

  method LocateEocd(s: InStream) returns (r: Option<Eocd>)
    modifies s
    ensures r == FindEocd(s.data)
  {
    var fileSize := |s.data|;
    if fileSize < 22 {
      return None;
    }
    var searchSize := Min(fileSize, 22 + 65535);
    s.Seek(fileSize - searchSize);
    var read := s.Read(searchSize);
    if read.None? {
      return None;
    }
    var tail := read.value;
    assert tail == s.data[fileSize - searchSize..];
    var i := |tail| - 22;
    while i >= 0 && U32(tail, i) != SIG_EOCD
      invariant -1 <= i <= |tail| - 22 && BackScan(tail, i) == BackScan(tail, |tail| - 22)
      decreases i
    {
      i := i - 1;
    }
    if i < 0 {
      return None;
    }
    var entries, offset := U16(tail, i + 10), U32(tail, i + 16);
    if entries == 0xFFFF || offset == 0xFFFF_FFFF {
      return None;
    }
    r := Some(Eocd(entries, offset));
  }

  // -- The central directory ------------------------------------------------------------------

  datatype ZipEntry = ZipEntry(compression: nat, compressedSize: nat, uncompressedSize: nat, localOffset: nat)

  /** A directory entry as read, its name, and where the next one starts. */
  datatype Central = Central(entry: ZipEntry, name: seq<byte>, next: nat)

  function CentralAt(d: seq<byte>, p: nat): Option<Central> {
    if p + 46 > |d| || U32(d, p) != SIG_CENTRAL then None
    else
      var nameLen := U16(d, p + 28);
      if p + 46 + nameLen > |d| then None
      else
        Some(Central(ZipEntry(U16(d, p + 10), U32(d, p + 20), U32(d, p + 24), U32(d, p + 42)),
                     d[p + 46..p + 46 + nameLen],
                     p + 46 + nameLen + U16(d, p + 30) + U16(d, p + 32)))
  }

  /** The first of the next `n` entries that has the name; none too if one before it cannot be read. */
  function FindFrom(d: seq<byte>, p: nat, n: nat, name: seq<byte>): Option<ZipEntry>
    decreases n
  {
    if n == 0 then None
    else
      var c := CentralAt(d, p);
      if c.None? then None
      else if c.value.name == name then Some(c.value.entry)
      else FindFrom(d, c.value.next, n - 1, name)
  }

  function FindEntry(file: seq<byte>, name: seq<byte>): Option<ZipEntry> {
    var e := FindEocd(file);
    if e.None? then None else FindFrom(file, e.value.offset, e.value.entries, name)
  }

  method ReadCentral(s: InStream) returns (c: Option<Central>)
    modifies s
    ensures c == CentralAt(s.data, old(s.pos))
    ensures c.Some? ==> s.pos == c.value.next
  {
    hide U16, U32;
    var sig := s.ReadU32();
    if sig.None? || sig.value != SIG_CENTRAL {
      return None;
    }
    s.Skip(4);
    var flags := s.ReadU16();
    if flags.None? {
      return None;
    }
    var compression := s.ReadU16();
    if compression.None? {
      return None;
    }
    s.Skip(8);
    c := ReadCentralSizes(s, compression.value);
  }

  /** The sizes and what follows them. */
  method ReadCentralSizes(s: InStream, compression: nat) returns (c: Option<Central>)
    modifies s
    ensures var p := old(s.pos); var d := s.data;
      c == if p + 26 > |d| || p + 26 + U16(d, p + 8) > |d| then None
           else Some(Central(ZipEntry(compression, U32(d, p), U32(d, p + 4), U32(d, p + 22)),
                             d[p + 26..p + 26 + U16(d, p + 8)],
                             p + 26 + U16(d, p + 8) + U16(d, p + 10) + U16(d, p + 12)))
    ensures c.Some? ==> s.pos == c.value.next
  {
    hide U16, U32;
    var compressedSize := s.ReadU32();
    if compressedSize.None? {
      return None;
    }
    var uncompressedSize := s.ReadU32();
    if uncompressedSize.None? {
      return None;
    }
    c := ReadCentralTail(s, compression, compressedSize.value, uncompressedSize.value);
  }

  /** The lengths, the offset and the name. */
  method ReadCentralTail(s: InStream, compression: nat, compressedSize: nat, uncompressedSize: nat)
      returns (c: Option<Central>)
    modifies s
    ensures var p := old(s.pos); var d := s.data;
      c == if p + 18 > |d| || p + 18 + U16(d, p) > |d| then None
           else Some(Central(ZipEntry(compression, compressedSize, uncompressedSize, U32(d, p + 14)),
                             d[p + 18..p + 18 + U16(d, p)], p + 18 + U16(d, p) + U16(d, p + 2) + U16(d, p + 4)))
    ensures c.Some? ==> s.pos == c.value.next
  {
    var nameLen := s.ReadU16();
    if nameLen.None? {
      return None;
    }
    var extraLen := s.ReadU16();
    if extraLen.None? {
      return None;
    }
    var commentLen := s.ReadU16();
    if commentLen.None? {
      return None;
    }
    s.Skip(8);
    var localOffset := s.ReadU32();
    if localOffset.None? {
      return None;
    }
    var name := s.Read(nameLen.value);
    if name.None? {
      return None;
    }
    s.Skip(extraLen.value + commentLen.value);
    c := Some(Central(ZipEntry(compression, compressedSize, uncompressedSize, localOffset.value), name.value, s.pos));
  }

  /** `find_central_dir_entry`. */
  method FindCentralDirEntry(s: InStream, name: seq<byte>) returns (r: Option<ZipEntry>)
    modifies s
    ensures r == FindEntry(s.data, name)
  {
    var e := LocateEocd(s);
    if e.None? {
      return None;
    }
    s.Seek(e.value.offset);
    r := ScanCentral(s, e.value.entries, name);
  }

  method ScanCentral(s: InStream, n: nat, name: seq<byte>) returns (r: Option<ZipEntry>)
    modifies s
    ensures r == FindFrom(s.data, old(s.pos), n, name)
  {
    var i := 0;
    while i < n
      invariant 0 <= i <= n
      invariant FindFrom(s.data, s.pos, n - i, name) == FindFrom(s.data, old(s.pos), n, name)
    {
      var c := ReadCentral(s);
      if c.None? {
        return None;
      }
      if c.value.name == name {
        return Some(c.value.entry);
      }
      i := i + 1;
    }
    r := None;
  }

  /** Where the data of an entry starts, past its local header. */
  function DataStart(d: seq<byte>, localOffset: nat): Option<nat> {
    if localOffset + 30 > |d| then None
    else Some(localOffset + 30 + U16(d, localOffset + 26) + U16(d, localOffset + 28))
  }

  method LocalDataStart(s: InStream, localOffset: nat) returns (r: Option<nat>)
    modifies s
    ensures r == DataStart(s.data, localOffset)
  {
    s.Seek(localOffset + 26);
    var nameLen := s.ReadU16();
    if nameLen.None? {
      return None;
    }
    var extraLen := s.ReadU16();
    if extraLen.None? {
      return None;
    }
    r := Some(localOffset + 30 + nameLen.value + extraLen.value);
  }

  // -- Readers --------------------------------------------------------------------------------

  /** Reads the slice [base, base + size) of a file in place. */
  class SlicedFileReadSeek {
    const file: seq<byte>
    const base: nat
    const size: nat
    var pos: nat
    var failed: bool    // the stream ran into the end of the file; it stays failed

    constructor (file: seq<byte>, base: nat, size: nat)
      ensures this.file == file && this.base == base && this.size == size && pos == 0 && !failed
    {
      this.file, this.base, this.size, pos, failed := file, base, size, 0, false;
    }

    /** The slice lies within the file. */
    ghost predicate Inside()
      reads this
    {
      base + size <= |file| && !failed
    }

    function Contents(): seq<byte>
      requires base + size <= |file|
    {
      file[base..base + size]
    }

    method Read(count: nat) returns (buf: seq<byte>)
      modifies this
      ensures pos == old(pos) + |buf|
      ensures old(Inside()) ==> Inside() && buf == ReadAt(Contents(), old(pos), count)
    {
      if pos >= size {
        return [];
      }
      var n := Min(count, size - pos);
      if failed {
        return [];
      }
      var p := base + pos;
      if p + n > |file| {
        failed := true;
        n := if p > |file| then 0 else |file| - p;
        p := Min(p, |file|);
      }
      buf := file[p..p + n];
      pos := pos + n;
    }

    method Seek(offset: int, whence: Whence) returns (r: int)
      modifies this
      ensures old(Inside()) ==> Inside() && r == SeekTo(Contents(), old(pos), offset, whence)
      ensures pos == if r < 0 then old(pos) else r
      ensures -1 <= r <= size
    {
      var target;
      match whence {
        case Set => target := offset;
        case Cur => target := pos + offset;
        case End => target := size + offset;
      }
      if target < 0 || target > size {
        return -1;
      }
      pos := target;
      r := target;
    }
  }

  /** What opening an entry gives: nothing, a slice of the file, or bytes in memory. */
  datatype Opened = Nothing | Slice(start: nat, size: nat) | Memory(bytes: seq<byte>)

  /** The raw inflate of zlib; none where it reports an error. */
  type RawInflate = (seq<byte>, nat) -> Option<seq<byte>>

  function OpenResult(file: seq<byte>, name: seq<byte>, inflate: RawInflate): Opened {
    var e := FindEntry(file, name);
    if e.None? then Nothing
    else
      var start := DataStart(file, e.value.localOffset);
      if start.None? then Nothing
      else if e.value.compression == STORED then Slice(start.value, e.value.uncompressedSize)
      else if e.value.compression == DEFLATED && start.value + e.value.compressedSize <= |file| then
        var bytes := inflate(file[start.value..start.value + e.value.compressedSize], e.value.uncompressedSize);
        if bytes.None? then Nothing else Memory(bytes.value)
      else Nothing
  }

  /** `open_entry_from_zip`. */
  method OpenEntryFromZip(file: seq<byte>, name: seq<byte>, inflate: RawInflate) returns (r: Opened)
    ensures r == OpenResult(file, name, inflate)
  {
    hide FindEntry, DataStart;
    var s := new InStream(file);
    var e := FindCentralDirEntry(s, name);
    if e.None? {
      return Nothing;
    }
    var start := LocalDataStart(s, e.value.localOffset);
    if start.None? {
      return Nothing;
    }
    if e.value.compression == STORED {
      return Slice(start.value, e.value.uncompressedSize);
    }
    if e.value.compression == DEFLATED {
      s.Seek(start.value);
      var compressed := s.Read(e.value.compressedSize);
      if compressed.None? {
        return Nothing;
      }
      var bytes := inflate(compressed.value, e.value.uncompressedSize);
      if bytes.None? {
        return Nothing;
      }
      return Memory(bytes.value);
    }
    r := Nothing;
  }
}
