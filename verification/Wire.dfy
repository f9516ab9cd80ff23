/** The patch stream as a grammar, HEADER LOOP*, and what it means to apply it.
    This is the reference the byte-at-a-time reader and the encoder are both
    compared with. */
module Wire {
  import opened Bytes
  import opened Varint

  /** u32_le(0x0000B1DF) u32_le(0x00001000). */
  const HEADER: seq<byte> := [0xDF, 0xB1, 0, 0, 0, 0x10, 0, 0]

  /** One control entry; the three varints are kept as the bytes that spell them. */
  datatype Loop = Loop(addLen: seq<byte>, diff: seq<byte>, copyLen: seq<byte>, copy: seq<byte>, seek: seq<byte>)

  predicate WellFormed(l: Loop) {
    && IsVarint(l.addLen) && Value(l.addLen) == |l.diff|
    && IsVarint(l.copyLen) && Value(l.copyLen) == |l.copy|
    && IsVarint(l.seek)
  }

  predicate AllWellFormed(ls: seq<Loop>) {
    forall i :: 0 <= i < |ls| ==> WellFormed(ls[i])
  }

  function Spell(l: Loop): seq<byte> {
    l.addLen + l.diff + l.copyLen + l.copy + l.seek
  }

  function SpellAll(ls: seq<Loop>): seq<byte> {
    if ls == [] then [] else Spell(ls[0]) + SpellAll(ls[1..])
  }

  /** Patched output so far, and the cursor in the base. */
  datatype Patched = Patched(out: seq<byte>, pos: nat)

  function AddByte(o: byte, d: byte): byte {
    (o + d) % 256
  }

  function AddBytes(base: seq<byte>, diff: seq<byte>): (r: seq<byte>)
    requires |base| == |diff|
    ensures |r| == |diff|
  {
    seq(|diff|, i requires 0 <= i < |diff| => AddByte(base[i], diff[i]))
  }

  /** out[i] = base[i] + diff[i] from the cursor on; fails when the base is too short. */
  function AddSpan(base: seq<byte>, p: Patched, diff: seq<byte>): Option<Patched> {
    if p.pos + |diff| > |base| then None
    else Some(Patched(p.out + AddBytes(base[p.pos..p.pos + |diff|], diff), p.pos + |diff|))
  }

  function CopySpan(p: Patched, copy: seq<byte>): Patched {
    Patched(p.out + copy, p.pos)
  }

  /** Moves the cursor; fails when that would leave the base. */
  function SeekBy(base: seq<byte>, p: Patched, offset: int): Option<Patched> {
    if 0 <= p.pos + offset <= |base| then Some(Patched(p.out, p.pos + offset)) else None
  }

  function ApplyLoop(base: seq<byte>, l: Loop, p: Patched): Option<Patched> {
    var q := AddSpan(base, p, l.diff);
    if q.None? then None else SeekBy(base, CopySpan(q.value, l.copy), UnZigZag(Value(l.seek)))
  }

  function Apply(base: seq<byte>, ls: seq<Loop>, p: Patched): Option<Patched> {
    if ls == [] then Some(p)
    else
      var q := ApplyLoop(base, ls[0], p);
      if q.None? then None else Apply(base, ls[1..], q.value)
  }

  /** The stream decodes to `out` over `base`: complete loops that apply, then at
      most an unfinished add_len varint. */
  ghost predicate Decodes(base: seq<byte>, stream: seq<byte>, out: seq<byte>) {
    exists ls: seq<Loop>, tail: seq<byte>, pos: nat :: DecodesAs(base, stream, ls, tail, Patched(out, pos))
  }

  predicate DecodesAs(base: seq<byte>, stream: seq<byte>, ls: seq<Loop>, tail: seq<byte>, end: Patched) {
    && stream == HEADER + SpellAll(ls) + tail
    && AllWellFormed(ls)
    && Unfinished(tail) && |tail| <= 10
    && Apply(base, ls, Patched([], 0)) == Some(end)
  }

  lemma {:induction false} SpellAllSnoc(ls: seq<Loop>, l: Loop)
    ensures SpellAll(ls + [l]) == SpellAll(ls) + Spell(l)
  {
    if ls == [] {
      assert ([l])[1..] == [];
      assert [] + [l] == [l];
    } else {
      SpellAllSnoc(ls[1..], l);
      assert (ls + [l])[1..] == ls[1..] + [l];
    }
  }

  lemma {:induction false} ApplySnoc(base: seq<byte>, ls: seq<Loop>, l: Loop, p: Patched)
    ensures Apply(base, ls + [l], p) ==
            (var q := Apply(base, ls, p); if q.None? then None else ApplyLoop(base, l, q.value))
  {
    if ls == [] {
      assert [] + [l] == [l] && [l][1..] == [];
    } else {
      assert (ls + [l])[1..] == ls[1..] + [l];
      var q := ApplyLoop(base, ls[0], p);
      if q.Some? {
        ApplySnoc(base, ls[1..], l, q.value);
      }
    }
  }
}
