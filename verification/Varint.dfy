/** The LEB128 varints and the zigzag map of the patch stream. */
module Varint {
  import opened Bytes

  /** Shortest encoding of `v`, low seven bits first. */
  function UVarint(v: nat): seq<byte> {
    if v < 0x80 then [v] else [v % 0x80 + 0x80] + UVarint(v / 0x80)
  }

  /** The continuation bytes of a varint whose last byte has not come yet. */
  predicate Unfinished(raw: seq<byte>) {
    forall i :: 0 <= i < |raw| ==> raw[i] >= 0x80
  }

  /** A complete varint of at most ten bytes, not necessarily the shortest. */
  predicate IsVarint(raw: seq<byte>) {
    1 <= |raw| <= 10 && raw[|raw| - 1] < 0x80 && Unfinished(raw[..|raw| - 1])
  }

  function Sum(raw: seq<byte>): nat {
    if raw == [] then 0 else raw[0] % 0x80 + 0x80 * Sum(raw[1..])
  }

  /** What the bytes mean as an unsigned 64-bit integer. */
  function Value(raw: seq<byte>): nat {
    Sum(raw) % TWO64
  }

  /** One decoder step: or seven more bits into a 64-bit accumulator. */
  function Accumulate(acc: nat, shift: nat, b: byte): nat {
    BitOr(acc, (b % 0x80 * Pow2(shift)) % TWO64)
  }

  lemma MulShift(d: nat, p: nat)
    ensures 0x80 * (d * p) == d * (0x80 * p)
  {
  }

  lemma {:induction false} SumBound(raw: seq<byte>)
    ensures Sum(raw) < Pow2(7 * |raw|)
  {
    if raw != [] {
      SumBound(raw[1..]);
      Pow2Seven(7 * |raw| - 7);
    }
  }

  lemma {:induction false} SumSnoc(raw: seq<byte>, b: byte)
    ensures b % 0x80 * Pow2(7 * |raw|) >= 0
    ensures Sum(raw + [b]) == Sum(raw) + b % 0x80 * Pow2(7 * |raw|)
  {
    var d := b % 0x80;
    if raw == [] {
      assert (raw + [b])[1..] == [];
      assert d * Pow2(0) == d;
    } else {
      assert (raw + [b])[1..] == raw[1..] + [b];
      SumSnoc(raw[1..], b);
      Pow2Seven(7 * |raw| - 7);
      MulShift(d, Pow2(7 * |raw| - 7));
    }
  }

  /** Accumulating byte after byte computes the value of the bytes, for as long
      as no shift leaves the 64-bit word. */
  lemma AccumulateValue(raw: seq<byte>, b: byte)
    requires |raw| <= 9
    ensures Accumulate(Value(raw), 7 * |raw|, b) == Value(raw + [b])
  {
    var n, d, a := 7 * |raw|, b % 0x80, Sum(raw);
    SumSnoc(raw, b);
    SumBound(raw);
    AccumulateWord(a, d, n);
  }

  lemma AccumulateWord(a: nat, d: nat, n: nat)
    requires n in {0, 7, 14, 21, 28, 35, 42, 49, 56, 63} && d < 0x80 && a < Pow2(n)
    ensures d * Pow2(n) >= 0 && a % TWO64 == a
    ensures BitOr(a, (d * Pow2(n)) % TWO64) == (a + d * Pow2(n)) % TWO64
  {
    assert Pow2(n) == TWO63 || Pow2(n) <= 0x100_0000_0000_0000 by {
      Pow2Sevens();
    }
    if Pow2(n) == TWO63 {
      AccumulateHigh(a, d, n);
    } else {
      AccumulateLow(a, d, n);
    }
  }

  lemma AccumulateLow(a: nat, d: nat, n: nat)
    requires d < 0x80 && a < Pow2(n) <= 0x100_0000_0000_0000
    ensures d * Pow2(n) >= 0 && a % TWO64 == a
    ensures BitOr(a, (d * Pow2(n)) % TWO64) == (a + d * Pow2(n)) % TWO64
  {
    BitOrDisjoint(a, d, n);
    MulBound(d, Pow2(n), 0x80);
    NoOverflow(a, d * Pow2(n));
  }

  lemma AccumulateHigh(a: nat, d: nat, n: nat)
    requires a < Pow2(n) == TWO63
    ensures d * Pow2(n) >= 0 && a % TWO64 == a
    ensures BitOr(a, (d * Pow2(n)) % TWO64) == (a + d * Pow2(n)) % TWO64
  {
    WordOverflow(a, d, Pow2(n));
    BitOrDisjoint(a, d % 2, n);
  }

  lemma WordOverflow(a: nat, d: nat, p: nat)
    requires a < p == TWO63
    ensures d * p >= 0 && d % 2 * p >= 0 && a % TWO64 == a
    ensures (d * p) % TWO64 == d % 2 * p
    ensures (a + d * p) % TWO64 == a + d % 2 * p
  {
    assert d * TWO63 == d / 2 * TWO64 + d % 2 * TWO63;
  }

  lemma NoOverflow(a: nat, t: nat)
    requires a < TWO63 && t < TWO63
    ensures t % TWO64 == t && (a + t) % TWO64 == a + t
  {
  }

  lemma MulBound(d: nat, p: nat, m: nat)
    requires d < m
    ensures 0 <= d * p <= m * p
  {
  }

  lemma {:induction false} UVarintLength(v: nat, k: nat)
    requires 1 <= k && v < Pow2(7 * k)
    ensures 1 <= |UVarint(v)| <= k
  {
    if v >= 0x80 {
      Pow2Seven(7 * k - 7);
      assert k > 1 by {
        assert Pow2(0) == 1;
      }
      UVarintLength(v / 0x80, k - 1);
    }
  }

  lemma {:induction false} UVarintShape(v: nat)
    ensures var raw := UVarint(v); |raw| >= 1 && raw[|raw| - 1] < 0x80 && Unfinished(raw[..|raw| - 1])
    ensures Sum(UVarint(v)) == v
  {
    if v >= 0x80 {
      UVarintShape(v / 0x80);
      var raw, rest := UVarint(v), UVarint(v / 0x80);
      assert raw[1..] == rest;
      assert raw[..|raw| - 1] == [raw[0]] + rest[..|rest| - 1];
    }
  }

  /** The emitted varint of any 64-bit value is a varint with that value. */
  lemma UVarintRoundTrip(v: nat)
    requires v < TWO64
    ensures IsVarint(UVarint(v)) && Value(UVarint(v)) == v
  {
    hide Pow2, Sum;
    UVarintShape(v);
    Pow2Sevens();
    Pow2Seven(63);
    UVarintLength(v, 10);
  }

  /** No varint with that value has fewer bytes. */
  lemma UVarintShortest(v: nat, raw: seq<byte>)
    requires v < TWO64 && IsVarint(raw) && Value(raw) == v
    ensures |UVarint(v)| <= |raw|
  {
    Pow2Sevens();
    if |raw| == 10 {
      Pow2Seven(63);
      UVarintLength(v, 10);
    } else {
      SumBound(raw);
      SumFits(raw);
      UVarintLength(v, |raw|);
    }
  }

  lemma SumFits(raw: seq<byte>)
    requires |raw| <= 9
    ensures Sum(raw) < TWO64
  {
    SumBound(raw);
    Pow2Sevens();
    assert |raw| in {0, 1, 2, 3, 4, 5, 6, 7, 8, 9};
  }

  /** `(v << 1) ^ (v >> 63)`: the arithmetic shift is all zeros for `v >= 0` and
      all ones below, and xor with all ones is the complement `-1 - x`. */
  function ZigZag(v: int): nat
    requires -TWO63 <= v < TWO63
  {
    if v >= 0 then 2 * v else -1 - 2 * v
  }

  /** `(u >> 1) ^ -(u & 1)`. */
  function UnZigZag(u: nat): int {
    if u % 2 == 0 then u / 2 else -1 - u / 2
  }

  lemma ZigZagRoundTrip(v: int)
    requires -TWO63 <= v < TWO63
    ensures ZigZag(v) < TWO64 && UnZigZag(ZigZag(v)) == v
  {
  }

  /** `emit_uvarint`: appends the encoding of `v` to `body`. */
  method EmitUvarint(body: seq<byte>, v: nat) returns (r: seq<byte>)
    ensures r == body + UVarint(v)
  {
    r := body;
    var w := v;
    while w >= 0x80
      invariant w >= 0 && r + UVarint(w) == body + UVarint(v)
    {
      r := r + [w % 0x80 + 0x80];
      w := w / 0x80;
    }
    r := r + [w];
  }

  /** `emit_svarint`: zigzag, then the unsigned form. */
  method EmitSvarint(body: seq<byte>, v: int) returns (r: seq<byte>)
    requires -TWO63 <= v < TWO63
    ensures r == body + UVarint(ZigZag(v))
  {
    r := EmitUvarint(body, ZigZag(v));
  }
}
