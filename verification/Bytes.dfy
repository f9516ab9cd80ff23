/** Bytes, powers of two, and the byte-string comparisons of the C library
    (`memcmp`, common prefixes, lexicographic order) that the codec is built on. */
module Bytes {
  type byte = x: int | 0 <= x < 256

  /** 2^63 and 2^64: the limits of the signed and unsigned 64-bit integers. */
  const TWO63: int := 0x8000_0000_0000_0000
  const TWO64: int := 0x1_0000_0000_0000_0000

  datatype Option<+T> = None | Some(value: T)

  function Min(a: int, b: int): int {
    if a < b then a else b
  }

  function Flatten(chunks: seq<seq<byte>>): seq<byte> {
    if chunks == [] then [] else chunks[0] + Flatten(chunks[1..])
  }

  function Pow2(n: nat): (p: nat)
    ensures p > 0
  {
    if n == 0 then 1 else 2 * Pow2(n - 1)
  }

  lemma Pow2Sevens()
    ensures Pow2(0) == 1 && Pow2(7) == 0x80 && Pow2(14) == 0x4000 && Pow2(21) == 0x20_0000
    ensures Pow2(28) == 0x1000_0000 && Pow2(35) == 0x8_0000_0000 && Pow2(42) == 0x400_0000_0000
    ensures Pow2(49) == 0x2_0000_0000_0000 && Pow2(56) == 0x100_0000_0000_0000 && Pow2(63) == TWO63
  {
    Pow2Seven(0); Pow2Seven(7); Pow2Seven(14); Pow2Seven(21); Pow2Seven(28);
    Pow2Seven(35); Pow2Seven(42); Pow2Seven(49); Pow2Seven(56);
  }

  lemma Pow2Seven(n: nat)
    ensures Pow2(n + 7) == 128 * Pow2(n)
  {
    assert Pow2(n + 2) == 4 * Pow2(n);
    assert Pow2(n + 4) == 4 * Pow2(n + 2);
    assert Pow2(n + 6) == 4 * Pow2(n + 4);
  }

  /** Bitwise or of two unsigned integers. */
  function BitOr(a: nat, b: nat): nat {
    if a == 0 && b == 0 then 0
    else 2 * BitOr(a / 2, b / 2) + (if a % 2 == 1 || b % 2 == 1 then 1 else 0)
  }

  lemma {:induction false} BitOrZero(b: nat)
    ensures BitOr(0, b) == b
  {
    if b > 0 {
      BitOrZero(b / 2);
    }
  }

  /** Or-ing in a value shifted clear of the low bits is addition. */
  lemma {:induction false} BitOrDisjoint(a: nat, k: nat, s: nat)
    requires a < Pow2(s)
    ensures k * Pow2(s) >= 0
    ensures BitOr(a, k * Pow2(s)) == a + k * Pow2(s)
  {
    var t := k * Pow2(s);
    if s == 0 {
      BitOrZero(k);
    } else {
      var h := k * Pow2(s - 1);
      assert t == 2 * h;
      BitOrDisjoint(a / 2, k, s - 1);
    }
  }

  /** Length of the longest common prefix. */
  function Lcp(x: seq<byte>, y: seq<byte>): (k: nat)
    ensures k <= |x| && k <= |y|
  {
    if x == [] || y == [] || x[0] != y[0] then 0 else 1 + Lcp(x[1..], y[1..])
  }

  lemma {:induction false} LcpIs(x: seq<byte>, y: seq<byte>, k: nat)
    requires k <= |x| && k <= |y| && x[..k] == y[..k]
    requires k < |x| && k < |y| ==> x[k] != y[k]
    ensures Lcp(x, y) == k
  {
    if k > 0 {
      assert x[0] == x[..k][0] == y[..k][0] == y[0];
      assert x[1..][..k - 1] == x[..k][1..] == y[..k][1..] == y[1..][..k - 1];
      LcpIs(x[1..], y[1..], k - 1);
    }
  }

  lemma {:induction false} LcpMaximal(x: seq<byte>, y: seq<byte>)
    ensures x[..Lcp(x, y)] == y[..Lcp(x, y)]
    ensures Lcp(x, y) < |x| && Lcp(x, y) < |y| ==> x[Lcp(x, y)] != y[Lcp(x, y)]
    ensures Lcp(y, x) == Lcp(x, y)
    ensures Lcp(x, y) == |x| == |y| ==> x == y
  {
    if x != [] && y != [] && x[0] == y[0] {
      LcpMaximal(x[1..], y[1..]);
      var k := Lcp(x[1..], y[1..]);
      assert x[..k + 1] == [x[0]] + x[1..][..k];
      assert y[..k + 1] == [y[0]] + y[1..][..k];
    }
    var k := Lcp(x, y);
    if k == |x| == |y| {
      assert x == x[..k] && y == y[..k];
    }
  }

  /** The sign `memcmp(x, y, lim)` returns: that of the first differing pair of bytes. */
  function Memcmp(x: seq<byte>, y: seq<byte>, lim: nat): int
    requires lim <= |x| && lim <= |y|
  {
    if lim == 0 then 0
    else if x[0] != y[0] then x[0] as int - y[0] as int
    else Memcmp(x[1..], y[1..], lim - 1)
  }

  lemma {:induction false} MemcmpIs(x: seq<byte>, y: seq<byte>, lim: nat)
    requires lim <= |x| && lim <= |y|
    ensures Lcp(x, y) >= lim ==> Memcmp(x, y, lim) == 0
    ensures Lcp(x, y) < lim ==> Memcmp(x, y, lim) == x[Lcp(x, y)] as int - y[Lcp(x, y)] as int != 0
  {
    LcpMaximal(x, y);
    if lim > 0 && x[0] == y[0] {
      MemcmpIs(x[1..], y[1..], lim - 1);
    }
  }

  /** Strict lexicographic order; a proper prefix comes first. */
  predicate Less(x: seq<byte>, y: seq<byte>) {
    var k := Lcp(x, y);
    k < |y| && (k == |x| || x[k] < y[k])
  }

  predicate AtMost(x: seq<byte>, y: seq<byte>) {
    x == y || Less(x, y)
  }

  lemma LessTotal(x: seq<byte>, y: seq<byte>)
    ensures x == y || Less(x, y) || Less(y, x)
    ensures !(Less(x, y) && Less(y, x)) && !Less(x, x)
  {
    LcpMaximal(x, y);
    LcpMaximal(x, x);
    LcpIs(x, x, |x|);
  }

  lemma LcpPair(x: seq<byte>, y: seq<byte>, k: nat)
    requires k < Lcp(x, y)
    ensures x[k] == y[k]
  {
    LcpMaximal(x, y);
    assert x[k] == x[..Lcp(x, y)][k] == y[..Lcp(x, y)][k] == y[k];
  }

  lemma LessTransitive(x: seq<byte>, y: seq<byte>, z: seq<byte>)
    requires Less(x, y) && Less(y, z)
    ensures Less(x, z)
    ensures Lcp(x, z) == Min(Lcp(x, y), Lcp(y, z))
  {
    var a, b := Lcp(x, y), Lcp(y, z);
    var k := Min(a, b);
    LcpMaximal(x, y);
    LcpMaximal(y, z);
    assert x[..k] == z[..k] by {
      assert x[..a][..k] == x[..k] && y[..a][..k] == y[..k];
      assert y[..b][..k] == y[..k] && z[..b][..k] == z[..k];
    }
    if a < b {
      LcpPair(y, z, a);
    } else if b < a {
      LcpPair(x, y, b);
    }
    LcpIs(x, z, k);
  }

  /** A string between `x` and `z` shares at least as long a prefix with `z` as `x` does, and with `x` as `z` does. */
  lemma Between(x: seq<byte>, y: seq<byte>, z: seq<byte>)
    requires AtMost(x, y) && AtMost(y, z)
    ensures Lcp(x, z) <= Lcp(y, z) && Lcp(z, x) <= Lcp(y, x)
  {
    LcpMaximal(x, z);
    LcpMaximal(y, x);
    if x == y {
      LcpIs(x, x, |x|);
    } else if y == z {
      LcpIs(y, y, |y|);
    } else {
      LessTransitive(x, y, z);
    }
  }
}
