/** Code built for a purpose: the rest of a method, instructions that do nothing, one reference
    and what follows it. */
module Building {
  import opened Bytes
  import opened Text
  import opened OpcodeTable
  import opened Canonicalizer
  import opened Renumbering
  import opened Separators

  // -- The same units, the same words -------------------------------------------------------

  /** The units of `a` from `i` on are those of `b` from `j` on. */
  ghost predicate SameTail(a: Code, i: nat, b: Code, j: nat) {
    forall k: nat :: UnitFrom(a, i, k) == UnitFrom(b, j, k)
  }

  function UnitFrom(c: Code, i: nat, k: nat): Option<nat> {
    Unit(c, i + k)
  }

  lemma TailUnit(a: Code, i: nat, b: Code, j: nat, k: nat)
    requires SameTail(a, i, b, j)
    ensures Unit(a, i + k) == Unit(b, j + k) && SameTail(a, i + k, b, j + k)
  {
    assert UnitFrom(a, i, k) == UnitFrom(b, j, k);
    var m, n := i + k, j + k;
    forall l: nat
      ensures UnitFrom(a, m, l) == UnitFrom(b, n, l)
    {
      assert UnitFrom(a, i, k + l) == UnitFrom(b, j, k + l);
    }
  }

  /** A payload's size from its first units. */
  function PayloadFrom(ident: Option<nat>, n: Option<nat>, lo: Option<nat>, hi: Option<nat>): Option<nat> {
    if ident.None? then None
    else if ident.value == 0x100 then if n.None? then None else Some(4 + n.value * 2)
    else if ident.value == 0x200 then if n.None? then None else Some(2 + n.value * 4)
    else if ident.value == 0x300 then
      if n.None? || lo.None? || hi.None? then None else Some(4 + ((lo.value + hi.value * 0x1_0000) * n.value + 1) / 2)
    else Some(0)
  }

  lemma PayloadByUnits(c: Code, k: nat)
    ensures PayloadSize(c, k) == PayloadFrom(Unit(c, k), Unit(c, k + 1), Unit(c, k + 2), Unit(c, k + 3))
  {
    PayloadReads(c, k);
    var off := c.off + k * 2;
    assert Uint32At(c.bytes, off + 4).Some? <==> Unit(c, k + 3).Some? by {
      assert c.off + (k + 3) * 2 == off + 6;
    }
    hide Uint16At, Uint32At, Unit;
  }

  lemma TailItem(a: Code, i: nat, b: Code, j: nat)
    requires SameTail(a, i, b, j)
    ensures ItemAt(a, i) == ItemAt(b, j)
  {
    PayloadByUnits(a, i);
    PayloadByUnits(b, j);
    TailUnit(a, i, b, j, 0);
    TailUnit(a, i, b, j, 1);
    TailUnit(a, i, b, j, 2);
    TailUnit(a, i, b, j, 3);
    hide Unit, PayloadSize, PayloadFrom;
  }

  lemma {:induction false} TailRaw(a: Code, i: nat, b: Code, j: nat, n: nat)
    requires SameTail(a, i, b, j)
    ensures RawWords(a, i, n) == RawWords(b, j, n)
    decreases n
  {
    hide Unit, SameTail;
    if n > 0 {
      TailUnit(a, i, b, j, 0);
      TailUnit(a, i, b, j, 1);
      TailRaw(a, i + 1, b, j + 1, n - 1);
    }
  }

  lemma {:induction false} TailInsn(a: Code, i: nat, b: Code, j: nat, pools: Pools, op: nat, m: nat)
    requires op < 256 && SameTail(a, i + m, b, j + m)
    ensures InsnWords(a, pools, i, op, m) == InsnWords(b, pools, j, op, m)
    decreases OpcodeSize(op) - m
  {
    hide Unit, SameTail, OpcodeSize, IndexInfo, Resolve;
    if m < OpcodeSize(op) {
      var n := OperandSize(RefAt(IndexInfo(op), m));
      TailUnit(a, i + m, b, j + m, 0);
      TailUnit(a, i + m, b, j + m, 1);
      TailUnit(a, i + m, b, j + m, n);
      assert i + m + n == i + (m + n) && j + m + n == j + (m + n);
      TailInsn(a, i, b, j, pools, op, m + n);
    }
  }

  lemma {:induction false} TailWords(a: Code, i: nat, b: Code, j: nat, pools: Pools)
    requires SameTail(a, i, b, j) && a.size - i == b.size - j
    ensures Words(a, pools, i) == Words(b, pools, j)
    decreases a.size - i
  {
    hide ItemAt, SameTail, RawWords, InsnWords;
    if i < a.size {
      TailItem(a, i, b, j);
      if ItemAt(a, i).Some? {
        var item := ItemAt(a, i).value;
        ItemMoves(a, i, item);
        match item {
          case Payload(n) => TailRaw(a, i, b, j, n);
          case Insn(op) => TailInsn(a, i, b, j, pools, op, 0);
        }
        TailUnit(a, i, b, j, ItemWidth(item));
        TailWords(a, i + ItemWidth(item), b, j + ItemWidth(item), pools);
      }
    }
  }

  /** The code from a unit on. */
  function Suffix(c: Code, k: nat): Code {
    Code(c.bytes, c.off + 2 * k, if k <= c.size then c.size - k else 0)
  }

  lemma SuffixTail(c: Code, k: nat)
    ensures SameTail(Suffix(c, k), 0, c, k)
  {
    forall l: nat
      ensures UnitFrom(Suffix(c, k), 0, l) == UnitFrom(c, k, l)
    {
      assert c.off + 2 * k + (0 + l) * 2 == c.off + (k + l) * 2;
    }
  }

  lemma WordsAt(c: Code, pools: Pools, pos: nat, item: Item)
    requires pos < c.size && ItemAt(c, pos) == Some(item)
    ensures Words(c, pools, pos) == Append(ItemWords(c, pools, pos, item), Words(c, pools, pos + ItemWidth(item)))
  {
    hide ItemAt, ItemWords, ItemWidth;
  }

  lemma NothingAfter(c: Code, p: Pools)
    ensures Words(c, p, c.size) == Some([])
  {
  }

  /** The words of an instruction from a unit on, and of what comes after it. */
  function TailAt(c: Code, pools: Pools, pos: nat, op: nat, i: nat): Option<seq<string>>
    requires op < 256
  {
    Append(InsnWords(c, pools, pos, op, i), Words(c, pools, pos + OpcodeSize(op)))
  }

  /** They depend on the units from there on only. */
  lemma SameTailAt(a: Code, i: nat, b: Code, j: nat, pools: Pools, op: nat, m: nat)
    requires op < 256 && m <= OpcodeSize(op) && SameTail(a, i + m, b, j + m)
    requires a.size - i == b.size - j || (a.size <= i + OpcodeSize(op) && b.size <= j + OpcodeSize(op))
    ensures TailAt(a, pools, i, op, m) == TailAt(b, pools, j, op, m)
  {
    hide OpcodeSize, InsnWords, SameTail;
    var n := OpcodeSize(op);
    TailInsn(a, i, b, j, pools, op, m);
    TailUnit(a, i + m, b, j + m, n - m);
    assert i + m + (n - m) == i + n && j + m + (n - m) == j + n;
    if a.size - i == b.size - j {
      hide Words;
      TailWords(a, i + n, b, j + n, pools);
    }
  }

  // -- Zeros -----------------------------------------------------------------------------------

  function Zeros(n: nat): seq<byte> {
    seq(n, _ => 0)
  }

  function ZeroWords(n: nat): seq<string> {
    if n == 0 then [] else ["0"] + ZeroWords(n - 1)
  }

  /** `n` instructions that do nothing. */
  function Nops(n: nat): Code {
    Code(Zeros(2 * n), 0, n)
  }

  /** How many units the instruction or payload takes that begins with a unit and goes on with zeros. */
  function WidthOf(u: nat): (w: nat)
    requires u < 0x1_0000
    ensures w >= 1
  {
    if u in {0x100, 0x300} then 4 else if u == 0x200 then 2 else OpcodeSize(u % 0x100)
  }

  function UnitThenZeros(u: nat): Code
    requires u < 0x1_0000
  {
    Code([u % 0x100, u / 0x100] + Zeros(2 * (WidthOf(u) - 1)), 0, WidthOf(u))
  }

  lemma {:induction false} ZeroRaw(c: Code, pos: nat, n: nat)
    requires forall k :: pos <= k < pos + n ==> Unit(c, k) == Some(0)
    ensures RawWords(c, pos, n) == Some(ZeroWords(n))
    decreases n
  {
    hide Unit;
    if n > 0 {
      assert Unit(c, pos) == Some(0) && Decimal(0) == "0";
      ZeroRaw(c, pos + 1, n - 1);
    }
  }

  lemma NopsUnits(n: nat, k: nat)
    requires k < n
    ensures Unit(Nops(n), k) == Some(0) && ItemAt(Nops(n), k) == Some(Insn(0)) && OpcodeSize(0) == 1
  {
    assert Row(0)[0] == 1;
  }

  lemma NopsSize(n: nat)
    ensures Nops(n).size == n
  {
  }

  lemma {:induction false} NopsWords(n: nat, pools: Pools, pos: nat)
    requires pos <= n
    ensures Words(Nops(n), pools, pos) == Some(ZeroWords(n - pos))
    decreases n - pos
  {
    hide ItemAt, Unit, RawWords, InsnWords, OpcodeSize;
    if pos == n {
      NothingAfter(Nops(n), pools);
    } else {
      assert IndexInfo(0) == [];
      hide IndexInfo, Words, Nops;
      assert Nops(n).size == n by {
        NopsSize(n);
      }
      NopsUnits(n, pos);
      WordsAt(Nops(n), pools, pos, Insn(0));
      PlainInsn(Nops(n), pools, pos, 0, 0);
      ZeroRaw(Nops(n), pos, 1);
      assert ZeroWords(1) == ["0"] + ZeroWords(0) == ["0"];
      NopsWords(n, pools, pos + 1);
    }
  }

  /** An instruction without a pool operand is spelled unit by unit. */
  lemma {:induction false} PlainInsn(c: Code, pools: Pools, pos: nat, op: nat, i: nat)
    requires op < 256 && IndexInfo(op) == [] && i <= OpcodeSize(op)
    ensures InsnWords(c, pools, pos, op, i) == RawWords(c, pos + i, OpcodeSize(op) - i)
    decreases OpcodeSize(op) - i
  {
    hide Unit, OpcodeSize, IndexInfo;
    if i < OpcodeSize(op) {
      assert RefAt(IndexInfo(op), i) == None;
      PlainInsn(c, pools, pos, op, i + 1);
    }
  }

  lemma UnitThenZerosUnits(u: nat, k: nat)
    requires u < 0x1_0000 && k < WidthOf(u)
    ensures Unit(UnitThenZeros(u), k) == Some(if k == 0 then u else 0)
  {
    hide WidthOf, OpcodeSize;
    var z := Zeros(2 * (WidthOf(u) - 1));
    var bytes := UnitThenZeros(u).bytes;
    assert bytes[0] == u % 0x100 && bytes[1] == u / 0x100;
    assert k > 0 ==> bytes[2 * k] == z[2 * k - 2] && bytes[2 * k + 1] == z[2 * k - 1];
  }

  /** What it is: a payload of that width, or an instruction. */
  lemma UnitThenZerosItem(u: nat)
    requires u < 0x1_0000
    ensures var c := UnitThenZeros(u);
      ItemAt(c, 0) == Some(if u in {0x100, 0x200, 0x300} then Payload(WidthOf(u)) else Insn(u % 0x100))
  {
    var c := UnitThenZeros(u);
    PayloadByUnits(c, 0);
    UnitThenZerosUnits(u, 0);
    if u in {0x100, 0x200, 0x300} {
      UnitThenZerosUnits(u, 1);
    }
    if u in {0x100, 0x300} {
      UnitThenZerosUnits(u, 2);
      UnitThenZerosUnits(u, 3);
    }
    hide Unit, PayloadSize, UnitThenZeros;
  }

  lemma UnitThenZerosRaw(u: nat)
    requires u < 0x1_0000
    ensures RawWords(UnitThenZeros(u), 0, WidthOf(u)) == Some([Decimal(u)] + ZeroWords(WidthOf(u) - 1))
  {
    hide Unit, UnitThenZeros, WidthOf, Decimal;
    var c, w := UnitThenZeros(u), WidthOf(u);
    forall k | 1 <= k < 1 + (w - 1)
      ensures Unit(c, k) == Some(0)
    {
      UnitThenZerosUnits(u, k);
    }
    UnitThenZerosUnits(u, 0);
    ZeroRaw(c, 1, w - 1);
  }

  lemma UnitThenZerosWidth(u: nat)
    requires u < 0x1_0000
    ensures UnitThenZeros(u).size == WidthOf(u) && (u !in {0x100, 0x200, 0x300} ==> WidthOf(u) == OpcodeSize(u % 0x100))
  {
  }

  lemma UnitThenZerosWords(u: nat, pools: Pools)
    requires u < 0x1_0000 && IndexInfo(u % 0x100) == []
    ensures Words(UnitThenZeros(u), pools, 0) == Some([Decimal(u)] + ZeroWords(WidthOf(u) - 1))
  {
    hide ItemAt, UnitThenZeros, WidthOf, Unit, IndexInfo, OpcodeSize, RawWords, InsnWords, Words, ZeroWords, Decimal;
    var c, w := UnitThenZeros(u), WidthOf(u);
    UnitThenZerosItem(u);
    UnitThenZerosRaw(u);
    UnitThenZerosWidth(u);
    var item := ItemAt(c, 0).value;
    WordsAt(c, pools, 0, item);
    if item.Insn? {
      PlainInsn(c, pools, 0, item.opcode, 0);
    }
    NothingAfter(c, pools);
    assert [Decimal(u)] + ZeroWords(w - 1) + [] == [Decimal(u)] + ZeroWords(w - 1);
  }

  // -- One reference and what follows it ----------------------------------------------------------

  /** The first reference of an opcode that has one; it is in the unit after the opcode's. */
  function FirstRefOf(op: nat): PoolRef
    requires IndexInfo(op) != []
  {
    IndexInfo(op)[0]
  }

  lemma FirstRef(op: nat)
    requires op < 256 && IndexInfo(op) != []
    ensures op != 0 && OpcodeSize(op) >= 1 + OperandSize(Some(FirstRefOf(op)))
    ensures RefAt(IndexInfo(op), 0) == None && RefAt(IndexInfo(op), 1) == Some(FirstRefOf(op))
  {
    if RefAt(IndexInfo(op), 0).Some? {
      RefsFit(op, 0);
    }
    SizesOfReferring(op);
  }

  /** How many units the opcode and its first operand take. */
  function Span(op: nat): (n: nat)
    requires IndexInfo(op) != []
    ensures n >= 2
  {
    1 + OperandSize(Some(FirstRefOf(op)))
  }

  /** How many indices the first operand can spell. */
  function Limit(op: nat): nat
    requires IndexInfo(op) != []
  {
    if FirstRefOf(op).is32Bit then 0x1_0000_0000 else 0x1_0000
  }

  function IndexBytes(x: nat, wide: bool): seq<byte>
    requires x < if wide then 0x1_0000_0000 else 0x1_0000
  {
    if wide then [x % 0x100, x / 0x100 % 0x100, x / 0x1_0000 % 0x100, x / 0x100_0000] else [x % 0x100, x / 0x100]
  }

  /** The bytes of the code from a unit on. */
  function BytesFrom(c: Code, k: nat): seq<byte> {
    if c.off + 2 * k <= |c.bytes| then c.bytes[c.off + 2 * k..] else []
  }

  /** The code that begins with the opcode and an index, and goes on as `c` does after as many units. */
  function ReferThen(op: nat, x: nat, c: Code): Code
    requires op < 256 && IndexInfo(op) != [] && x < Limit(op)
  {
    Code([op, 0] + IndexBytes(x, FirstRefOf(op).is32Bit) + BytesFrom(c, Span(op)), 0,
         if c.size < OpcodeSize(op) then OpcodeSize(op) else c.size)
  }

  lemma ReferThenHead(op: nat, x: nat, c: Code)
    requires op < 256 && IndexInfo(op) != [] && x < Limit(op)
    ensures var a := ReferThen(op, x, c); Unit(a, 0) == Some(op) && Index(a, 1, FirstRefOf(op).is32Bit) == Some(x)
  {
    hide IndexInfo, BytesFrom, OpcodeSize;
    var a, wide := ReferThen(op, x, c), FirstRefOf(op).is32Bit;
    var at := IndexBytes(x, wide);
    assert a.off == 0 && a.bytes[0] == op && a.bytes[1] == 0 && forall k :: 0 <= k < |at| ==> a.bytes[2 + k] == at[k];
    hide ReferThen;
    IndexUnits(a, x, wide);
  }

  lemma Low(n: nat)
    ensures n % 0x100 + n / 0x100 % 0x100 * 0x100 == n % 0x1_0000
    ensures n / 0x1_0000 < 0x1_0000 ==> n / 0x1_0000 / 0x100 == n / 0x100_0000 && n / 0x100_0000 < 0x100
  {
    var m := n / 0x100;
    assert n == 0x100 * m + n % 0x100 && m == 0x100 * (m / 0x100) + m % 0x100 && m / 0x100 == n / 0x1_0000;
  }

  lemma IndexUnits(a: Code, x: nat, wide: bool)
    requires x < if wide then 0x1_0000_0000 else 0x1_0000
    requires a.off == 0 && |a.bytes| >= 2 + |IndexBytes(x, wide)|
    requires forall k :: 0 <= k < |IndexBytes(x, wide)| ==> a.bytes[2 + k] == IndexBytes(x, wide)[k]
    ensures Index(a, 1, wide) == Some(x)
  {
    Low(x);
    Low(x / 0x1_0000);
    var at := IndexBytes(x, wide);
    assert a.bytes[2] == at[0] && a.bytes[3] == at[1];
    if wide {
      assert a.bytes[4] == at[2] && a.bytes[5] == at[3];
    }
  }

  lemma BytesFromUnits(a: Code, i: nat, c: Code, k: nat)
    requires a.off == 0 && 2 * i <= |a.bytes| && a.bytes[2 * i..] == BytesFrom(c, k)
    ensures SameTail(a, i, c, k)
  {
    var rest := BytesFrom(c, k);
    forall l: nat
      ensures UnitFrom(a, i, l) == UnitFrom(c, k, l)
    {
      assert 2 * l < |rest| ==> a.bytes[2 * i + 2 * l] == rest[2 * l] == c.bytes[c.off + 2 * k + 2 * l];
      assert 2 * l + 1 < |rest| ==> a.bytes[2 * i + 2 * l + 1] == rest[2 * l + 1] == c.bytes[c.off + 2 * k + 2 * l + 1];
    }
  }

  lemma ReferThenTail(op: nat, x: nat, c: Code)
    requires op < 256 && IndexInfo(op) != [] && x < Limit(op)
    ensures SameTail(ReferThen(op, x, c), Span(op), c, Span(op))
  {
    hide IndexInfo, BytesFrom, SameTail;
    var a := ReferThen(op, x, c);
    assert a.bytes[2 * Span(op)..] == BytesFrom(c, Span(op));
    BytesFromUnits(a, Span(op), c, Span(op));
  }

  lemma ReferThenSize(op: nat, x: nat, c: Code)
    requires op < 256 && IndexInfo(op) != [] && x < Limit(op)
    ensures ReferThen(op, x, c).size == if c.size < OpcodeSize(op) then OpcodeSize(op) else c.size
    ensures Span(op) <= OpcodeSize(op)
  {
    FirstRef(op);
  }

  lemma ReferThenRest(op: nat, x: nat, c: Code, pools: Pools)
    requires op < 256 && IndexInfo(op) != [] && x < Limit(op)
    ensures TailAt(ReferThen(op, x, c), pools, 0, op, Span(op)) == TailAt(c, pools, 0, op, Span(op))
  {
    hide *;
    ReferThenSize(op, x, c);
    ReferThenTail(op, x, c);
    var a, m := ReferThen(op, x, c), Span(op);
    assert 0 + m == m;
    SameTailAt(a, 0, c, 0, pools, op, m);
  }

  lemma ReferThenItem(op: nat, x: nat, c: Code)
    requires op < 256 && IndexInfo(op) != [] && x < Limit(op)
    ensures ItemAt(ReferThen(op, x, c), 0) == Some(Insn(op)) && ReferThen(op, x, c).size >= OpcodeSize(op)
  {
    FirstRef(op);
    ReferThenHead(op, x, c);
    assert ReferThen(op, x, c).size >= OpcodeSize(op);
    hide ReferThen, IndexInfo, OpcodeSize, PayloadSize;
  }

  lemma ReferThenWords(op: nat, x: nat, c: Code, pools: Pools)
    requires op < 256 && IndexInfo(op) != [] && x < Limit(op)
    requires Resolve(pools, FirstRefOf(op).pool, x).Some? && TailAt(c, pools, 0, op, Span(op)).Some?
    ensures Words(ReferThen(op, x, c), pools, 0) ==
      Some([Decimal(op), Resolve(pools, FirstRefOf(op).pool, x).value] + TailAt(c, pools, 0, op, Span(op)).value)
  {
    hide ReferThen, IndexInfo, OpcodeSize, Resolve, Words, Unit, ItemAt, Index, Decimal;
    var a := ReferThen(op, x, c);
    FirstRef(op);
    ReferThenHead(op, x, c);
    ReferThenItem(op, x, c);
    ReferThenRest(op, x, c, pools);
    WordsAt(a, pools, 0, Insn(op));
    var w := Resolve(pools, FirstRefOf(op).pool, x).value;
    var more := InsnWords(a, pools, 0, op, Span(op));
    assert InsnWords(a, pools, 0, op, 1) == Prepend(Some(w), more);
    assert InsnWords(a, pools, 0, op, 0) == Prepend(Some(Decimal(op)), InsnWords(a, pools, 0, op, 1));
    var rest := Words(a, pools, OpcodeSize(op));
    assert [Decimal(op)] + ([w] + more.value) + rest.value == [Decimal(op), w] + (more.value + rest.value);
  }

  lemma ReferThenText(op: nat, x: nat, c: Code, pools: Pools)
    requires op < 256 && IndexInfo(op) != [] && x < Limit(op)
    requires Resolve(pools, FirstRefOf(op).pool, x).Some? && TailAt(c, pools, 0, op, Span(op)).Some?
    ensures Canonical(ReferThen(op, x, c), pools) == Some(Decimal(op) + "," +
      (Resolve(pools, FirstRefOf(op).pool, x).value + "," +
       Canonicalizer.Spell(TailAt(c, pools, 0, op, Span(op)).value)))
  {
    hide ReferThen, IndexInfo, Resolve, Words, Decimal, TailAt, Span;
    ReferThenWords(op, x, c, pools);
    var w, t := Resolve(pools, FirstRefOf(op).pool, x).value, TailAt(c, pools, 0, op, Span(op)).value;
    var head := Decimal(op);
    SpellHead(head, [w], t);
    SpellHead(w, [], t);
    assert [head] + [w] == [head, w] && [w] + [] == [w] && [] + t == t;
  }

  /** `n` zero units before the code. */
  function After(n: nat, c: Code): Code {
    Code(Zeros(2 * n) + BytesFrom(c, 0), 0, n + c.size)
  }

  lemma AfterWords(n: nat, c: Code, pools: Pools)
    ensures Words(After(n, c), pools, n) == Words(c, pools, 0)
  {
    var a := After(n, c);
    assert a.bytes[2 * n..] == BytesFrom(c, 0);
    BytesFromUnits(a, n, c, 0);
    TailWords(a, n, c, 0, pools);
  }
}
