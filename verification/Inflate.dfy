/** The reader as the object the updater drives, and the driver that feeds it
    what the decompressor delivers. */
module Inflate {
  import opened Bytes
  import opened Varint
  import opened Wire
  import opened ReadSeek
  import opened Reader

  class BipatchReader {
    const base: MemReadSeek
    var out: seq<byte>          // everything written to the output file
    var stage: Stage
    var target: Target
    var hadError: bool
    const hdr: array<byte>
    var hdrPos: nat
    var varintAcc: nat
    var varintShift: nat
    var remaining: nat

    ghost predicate Valid()
      reads this
    {
      && hdr.Length == 8 && hdrPos <= 8
      && (stage == ReadHeader && !hadError ==> hdrPos < 8)
      && (stage in {DoAdd, DoCopy} && !hadError ==> 0 < remaining)
      && stage !in {Done, Error, Undefined}
    }

    ghost function View(): State
      requires Valid()
      reads this, base, hdr
    {
      State(stage, target, hadError, hdr[..hdrPos], varintAcc, varintShift, remaining, Patched(out, base.pos))
    }

    constructor (base: MemReadSeek)
      requires base.pos == 0
      ensures Valid() && fresh(hdr) && this.base == base
      ensures View() == START
    {
      this.base := base;
      out := [];
      stage, target, hadError := ReadHeader, AddLen, false;
      hdr := new byte[8];
      hdrPos, varintAcc, varintShift, remaining := 0, 0, 0, 0;
    }

    method WriteByte(b: byte)
      modifies this`out
      ensures out == old(out) + [b]
    {
      out := out + [b];
    }

    method AddByte(diff: byte) returns (ok: bool)
      requires Valid() && !hadError
      modifies this`out, this`hadError, base
      ensures var got := ReadAt(base.data, old(base.pos), 1);
        if |got| != 1 then
          !ok && hadError && out == old(out) && base.pos == old(base.pos)
        else
          ok && !hadError && out == old(out) + [Wire.AddByte(got[0], diff)] && base.pos == old(base.pos) + 1
    {
      var got := base.Read(1);
      if |got| != 1 {
        hadError := true;
        return false;
      }
      WriteByte((got[0] + diff) % 256);
      ok := true;
    }

    method OnVarint(val: nat) returns (ok: bool)
      requires Valid() && !hadError && stage == ReadVarint
      modifies this`stage, this`target, this`hadError, this`varintAcc, this`varintShift, this`remaining, base
      ensures Valid() && View() == Reader.OnVarint(base.data, old(View()), val)
      ensures ok == !hadError
    {
      varintAcc, varintShift := 0, 0;
      match target {
        case AddLen =>
          if val == 0 {
            target := CopyLen;
          } else {
            remaining, stage := val, DoAdd;
          }
        case CopyLen =>
          if val == 0 {
            target := Target.Seek;
          } else {
            remaining, stage := val, DoCopy;
          }
        case Seek =>
          var offset := UnZigZag(val);
          var r := base.Seek(offset, Cur);
          if r < 0 {
            hadError := true;
            return false;
          }
          target := AddLen;
      }
      ok := true;
    }

    method HeaderByte(b: byte) returns (ok: bool)
      requires Valid() && !hadError && stage == ReadHeader
      modifies this`stage, this`target, this`hadError, this`hdrPos, hdr
      ensures Valid() && View() == Reader.HeaderByte(old(View()), b)
      ensures ok == !hadError
    {
      hide LeU32;
      ghost var whole := hdr[..hdrPos] + [b];
      hdr[hdrPos] := b;
      hdrPos := hdrPos + 1;
      assert hdr[..hdrPos] == whole;
      if hdrPos == 8 {
        var magic := LeU32(hdr[..4]);
        var ver := LeU32(hdr[4..]);
        assert whole[..4] == hdr[..4] && whole[4..] == hdr[4..];
        if magic != 0xB1DF || ver != 0x1000 {
          hadError := true;
          return false;
        }
        stage, target := ReadVarint, AddLen;
      }
      ok := true;
    }

    /** One byte of a chunk. */
    method FeedByte(b: byte) returns (ok: bool)
      requires Valid() && !hadError && Step(base.data, View(), b).stage != Undefined
      modifies this, base, hdr
      ensures Valid() && View() == Step(base.data, old(View()), b)
      ensures ok == !hadError
    {
      hide LeU32, BitOr, Pow2, Reader.OnVarint, Reader.HeaderByte;
      match stage {
        case ReadHeader =>
          ok := HeaderByte(b);
        case ReadVarint =>
          varintAcc := BitOr(varintAcc, (b % 0x80 * Pow2(varintShift)) % TWO64);
          varintShift := varintShift + 7;
          ok := true;
          if b < 0x80 {
            ok := OnVarint(varintAcc);
          }
        case DoAdd =>
          ok := AddByte(b);
          if !ok {
            return;
          }
          remaining := remaining - 1;
          if remaining == 0 {
            stage, target := ReadVarint, CopyLen;
          }
        case DoCopy =>
          WriteByte(b);
          remaining := remaining - 1;
          if remaining == 0 {
            stage, target := ReadVarint, Target.Seek;
          }
          ok := true;
      }
    }

    /** Feeds a chunk; false on error. The reader must not be driven into a varint
        longer than ten bytes, where the shift is undefined. */
    method Feed(data: seq<byte>) returns (ok: bool)
      requires Valid() && Run(base.data, View(), data).stage != Undefined
      modifies this, base, hdr
      ensures Valid() && View() == Run(base.data, old(View()), data)
      ensures ok == !hadError
    {
      var i := 0;
      while i < |data| && !hadError
        invariant 0 <= i <= |data| && Valid()
        invariant Run(base.data, View(), data[i..]) == Run(base.data, old(View()), data)
      {
        ghost var s := View();
        assert data[i..][1..] == data[i + 1..];
        assert Step(base.data, s, data[i]).stage != Undefined by {
          if Step(base.data, s, data[i]).stage == Undefined {
            ErrorSticks(base.data, Step(base.data, s, data[i]), data[i + 1..]);
          }
        }
        var fine := FeedByte(data[i]);
        if !fine {
          ErrorSticks(base.data, View(), data[i + 1..]);
          return false;
        }
        i := i + 1;
      }
      if hadError {
        ErrorSticks(base.data, View(), data[i..]);
      }
      ok := !hadError;
    }

    method Finalize() returns (ok: bool)
      requires Valid()
      ensures ok == Accepting(View())
    {
      if hadError {
        return false;
      }
      ok := stage == ReadVarint && target == AddLen;
    }
  }

  /** What the streaming decompressor hands over: pieces of output, cut anywhere,
      and whether it then reported an error. */
  datatype Delivery = Delivery(pieces: seq<seq<byte>>, failed: bool)

  /** Compressing may fail; decompressing delivers. */
  datatype Zstd = Zstd(compress: seq<byte> -> Option<seq<byte>>, decompress: seq<byte> -> Delivery)

  const MAGIC: seq<byte> := [0x28, 0xB5, 0x2F, 0xFD]

  /** The one thing assumed of the compressor: decompressing undoes compressing,
      whatever the pieces, and a frame starts with the magic number. */
  ghost predicate Inverse(z: Zstd) {
    forall body :: z.compress(body).Some? ==>
      MAGIC <= z.compress(body).value && Delivers(z, z.compress(body).value, body)
  }

  ghost predicate Delivers(z: Zstd, frame: seq<byte>, body: seq<byte>) {
    !z.decompress(frame).failed && Flatten(z.decompress(frame).pieces) == body
  }

  /** The patch file is a frame whose stream decodes to `out` over `base`. */
  ghost predicate InflatesTo(z: Zstd, patch: seq<byte>, base: seq<byte>, out: seq<byte>) {
    && MAGIC <= patch && !z.decompress(patch).failed
    && Decodes(base, Flatten(z.decompress(patch).pieces), out)
  }

  /** Every varint of the stream has at most ten bytes; beyond that the reader shifts by 64 or more. */
  predicate ShortVarints(z: Zstd, patch: seq<byte>, base: seq<byte>) {
    RunChunks(base, START, z.decompress(patch).pieces).stage != Undefined
  }

  /** Whether applying the patch file succeeds, and what the output file then holds;
      none if it was never opened. */
  datatype Inflated = Inflated(ok: bool, written: Option<seq<byte>>)

  function InflateResult(z: Zstd, patch: seq<byte>, base: seq<byte>): Inflated {
    if !(MAGIC <= patch) then Inflated(false, None)
    else
      var d := z.decompress(patch);
      var s := RunChunks(base, START, d.pieces);
      Inflated(!d.failed && Accepting(s), Some(s.patched.out))
  }

  /** `inflate_patch`: probes the magic number, feeds every piece the decompressor
      delivers to the reader, and finalizes. */
  method InflatePatch(z: Zstd, patch: seq<byte>, base: MemReadSeek) returns (ok: bool, written: Option<seq<byte>>)
    requires base.pos == 0 && ShortVarints(z, patch, base.data)
    modifies base
    ensures Inflated(ok, written) == InflateResult(z, patch, base.data)
  {
    if !(MAGIC <= patch) {
      return false, None;
    }
    var delivery := z.decompress(patch);
    var chunks := delivery.pieces;
    var reader := new BipatchReader(base);
    var i := 0;
    ok := true;
    while i < |chunks| && ok
      invariant 0 <= i <= |chunks| && reader.Valid() && reader.base == base && fresh(reader) && fresh(reader.hdr)
      invariant ok == !reader.hadError
      invariant RunChunks(base.data, reader.View(), chunks[i..]) == RunChunks(base.data, START, chunks)
    {
      assert chunks[i..][1..] == chunks[i + 1..];
      RunStaysDefined(base.data, reader.View(), chunks[i..]);
      ok := reader.Feed(chunks[i]);
      i := i + 1;
    }
    if !ok {
      ChunksErrorSticks(base.data, reader.View(), chunks[i..]);
    } else if delivery.failed {
      assert chunks[i..] == [];
      ok := false;
    } else {
      assert chunks[i..] == [];
      ok := reader.Finalize();
    }
    written := Some(reader.out);
  }

  /** Inflating succeeds exactly for the frames whose stream decodes, and writes what it decodes to. */
  lemma InflatesExactly(z: Zstd, patch: seq<byte>, base: seq<byte>)
    ensures var r := InflateResult(z, patch, base);
      (r.ok <==> exists out :: InflatesTo(z, patch, base, out)) &&
      forall out :: InflatesTo(z, patch, base, out) ==> r.written == Some(out)
  {
    if MAGIC <= patch {
      var chunks := z.decompress(patch).pieces;
      ChunkingIrrelevant(base, START, chunks);
      AcceptsExactly(base, Flatten(chunks));
      if InflateResult(z, patch, base).ok {
        var out :| Decodes(base, Flatten(chunks), out);
        assert InflatesTo(z, patch, base, out);
      }
    }
  }

  lemma {:induction false} ChunksErrorSticks(base: seq<byte>, s: State, chunks: seq<seq<byte>>)
    requires s.hadError || s.stage == Undefined
    ensures RunChunks(base, s, chunks) == s
    decreases |chunks|
  {
    if chunks != [] {
      ErrorSticks(base, s, chunks[0]);
      ChunksErrorSticks(base, s, chunks[1..]);
    }
  }

  lemma RunStaysDefined(base: seq<byte>, s: State, chunks: seq<seq<byte>>)
    requires chunks != [] && RunChunks(base, s, chunks).stage != Undefined
    ensures Run(base, s, chunks[0]).stage != Undefined
  {
    if Run(base, s, chunks[0]).stage == Undefined {
      ChunksErrorSticks(base, Run(base, s, chunks[0]), chunks[1..]);
    }
  }
}
