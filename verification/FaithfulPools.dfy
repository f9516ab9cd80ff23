/** What canonical text says of all code over two sets of pools: exactly when equal text means
    equal meaning and the other way round, and what goes wrong otherwise. */
module FaithfulPools {
  import opened Bytes
  import opened Text
  import opened OpcodeTable
  import opened Canonicalizer
  import opened Renumbering
  import opened Formats
  import opened Meaning
  import opened Separators
  import opened Building
  import opened Faithful

  /** Over these pools, code with the same text means the same. */
  ghost predicate SoundPools(pa: Pools, pb: Pools) {
    forall a, b :: Canonical(a, pa).Some? && Canonical(b, pb) == Canonical(a, pa) ==> SameMeaning(a, pa, b, pb, 0)
  }

  /** Over these pools, code that means the same has the same text. */
  ghost predicate CompletePools(pa: Pools, pb: Pools) {
    forall a, b :: Canonical(a, pa).Some? && Canonical(b, pb).Some? && SameMeaning(a, pa, b, pb, 0) ==>
      Canonical(b, pb) == Canonical(a, pa)
  }

  /** Over these pools, code has the same text exactly if it means the same. */
  ghost predicate AllFaithful(pa: Pools, pb: Pools) {
    forall a, b :: Canonical(a, pa).Some? && Canonical(b, pb).Some? ==>
      (Canonical(b, pb) == Canonical(a, pa) <==> SameMeaning(a, pa, b, pb, 0))
  }

  // -- Legible and steady pools ---------------------------------------------------------------

  /** What operands of 16 bits may refer to denotes the same if it reads the same. */
  predicate LegiblePools(pa: Pools, pb: Pools) {
    forall pool: PoolKind, i: nat, j: nat :: !pool.StringPool? && i < 0x1_0000 && j < 0x1_0000 ==>
      LegiblePair(pa, pb, pool, i, j)
  }

  /** No call site or method handle of the one file is under another number in the other. */
  predicate SteadyPools(pa: Pools, pb: Pools) {
    forall pool: PoolKind, i: nat, j: nat ::
      pool in {CallSitePool, MethodHandlePool} && i < 0x1_0000 && j < 0x1_0000 ==> SteadyPair(pa, pb, pool, i, j)
  }

  lemma StringsLegible(pa: Pools, pb: Pools, i: nat, j: nat)
    ensures LegiblePair(pa, pb, StringPool, i, j)
  {
    if i < |pa.strings| && j < |pb.strings| && pa.strings[i] != pb.strings[j] {
      DropSame("S:", pa.strings[i], pb.strings[j]);
    }
  }

  lemma OthersSteady(pa: Pools, pb: Pools, pool: PoolKind, i: nat, j: nat)
    requires pool !in {CallSitePool, MethodHandlePool}
    ensures SteadyPair(pa, pb, pool, i, j)
  {
  }

  lemma PoolsLegible(pa: Pools, ua: Refs, pb: Pools, ub: Refs)
    requires LegiblePools(pa, pb)
    requires forall x :: x in ua + ub ==> x.0.StringPool? || x.1 < 0x1_0000
    ensures Legible(pa, ua, pb, ub)
  {
    hide LegiblePair;
    forall x, y | x in ua && y in ub && x.0 == y.0
      ensures LegiblePair(pa, pb, x.0, x.1, y.1)
    {
      assert x in ua + ub && y in ua + ub;
      if x.0.StringPool? {
        StringsLegible(pa, pb, x.1, y.1);
      }
    }
  }

  lemma PoolsSteady(pa: Pools, ua: Refs, pb: Pools, ub: Refs)
    requires SteadyPools(pa, pb)
    requires forall x :: x in ua + ub ==> x.0.StringPool? || x.1 < 0x1_0000
    ensures Steady(pa, ua, pb, ub)
  {
    hide SteadyPair;
    forall x, y | x in ua && y in ub && x.0 == y.0
      ensures SteadyPair(pa, pb, x.0, x.1, y.1)
    {
      assert x in ua + ub && y in ua + ub;
      if x.0 !in {CallSitePool, MethodHandlePool} {
        OthersSteady(pa, pb, x.0, x.1, y.1);
      }
    }
  }

  lemma UsedBounds(a: Code, b: Code)
    ensures forall x :: x in Used(a, 0) + Used(b, 0) ==> x.0.StringPool? || x.1 < 0x1_0000
  {
    hide Used;
    forall x | x in Used(a, 0) + Used(b, 0)
      ensures x.0.StringPool? || x.1 < 0x1_0000
    {
      if x in Used(a, 0) {
        UsedBound(a, 0, x);
      } else {
        UsedBound(b, 0, x);
      }
    }
  }

  // -- When pools mislead -----------------------------------------------------------------

  /** What an opcode's first operand can read as over the second pools is what it can read as over
      the first, a comma, and a beginning of what may follow there that goes on with what may follow here. */
  ghost predicate Misleads(pa: Pools, pb: Pools) {
    exists op, x, y, c, e :: MisleadsWith(pa, pb, op, x, y, c, e)
  }

  predicate MisleadsWith(pa: Pools, pb: Pools, op: nat, x: nat, y: nat, c: Code, e: Code) {
    && op < 256 && IndexInfo(op) != [] && x < Limit(op) && y < Limit(op)
    && var v, w := Resolve(pa, FirstRefOf(op).pool, x), Resolve(pb, FirstRefOf(op).pool, y);
    var s, t := TailAt(c, pa, 0, op, Span(op)), TailAt(e, pb, 0, op, Span(op));
    && v.Some? && w.Some? && s.Some? && t.Some?
    && Swallows(v.value, Canonicalizer.Spell(s.value), w.value, Canonicalizer.Spell(t.value))
  }

  /** What the first instructions' first operands denote is part of the meaning. */
  lemma FirstOperand(a: Code, pa: Pools, b: Code, pb: Pools, op: nat)
    requires op < 256 && a.size > 0 && b.size > 0 && ItemAt(a, 0) == Some(Insn(op)) && SameMeaning(a, pa, b, pb, 0)
    requires OpcodeSize(op) >= 2 && RefAt(IndexInfo(op), 0) == None && RefAt(IndexInfo(op), 1).Some?
    ensures var ref := RefAt(IndexInfo(op), 1).value; Operand(b, pb, 1, ref) == Operand(a, pa, 1, ref)
  {
    ReferencesExactly(op);
    RefAtMember(IndexInfo(op), 1);
    hide ItemAt, IndexInfo, Constants, OpcodeSize, Operand, Unit, Bare, Units;
    var ref := RefAt(IndexInfo(op), 1).value;
    assert SameItem(a, pa, b, pb, 0, Insn(op));
    assert SameOperand(a, pa, b, pb, 0 + ref.unitOffset, ref);
  }

  /** Neither a call site nor a handle goes on after another. */
  lemma SitesNeverSwallow(pa: Pools, pb: Pools, pool: PoolKind, x: nat, y: nat, s: string, t: string)
    requires pool in {CallSitePool, MethodHandlePool}
    ensures !Swallows(Resolve(pa, pool, x).value, s, Resolve(pb, pool, y).value, t)
  {
    DecimalPlain(x);
    DecimalPlain(y);
    hide Decimal;
    var v, w := Resolve(pa, pool, x).value, Resolve(pb, pool, y).value;
    assert Plain(w);
    if Swallows(v, s, w, t) {
      SwallowsComma(v, s, w, t);
    }
  }

  lemma SwallowsComma(v: string, s: string, w: string, t: string)
    requires Swallows(v, s, w, t)
    ensures |v| < |w| && w[|v|] == ','
  {
  }

  lemma ReferencesDiffer(pa: Pools, pb: Pools, op: nat, x: nat, y: nat, c: Code, e: Code)
    requires op < 256 && IndexInfo(op) != [] && x < Limit(op) && y < Limit(op)
    requires Denotes(pb, FirstRefOf(op).pool, y) != Denotes(pa, FirstRefOf(op).pool, x)
    ensures !SameMeaning(ReferThen(op, x, c), pa, ReferThen(op, y, e), pb, 0)
  {
    FirstRef(op);
    hide ReferThen, IndexInfo, OpcodeSize, Unit, Index, Denotes, Limit, SameMeaning;
    ReferThenHead(op, x, c);
    ReferThenHead(op, y, e);
    ReferThenItem(op, x, c);
    ReferThenItem(op, y, e);
    if SameMeaning(ReferThen(op, x, c), pa, ReferThen(op, y, e), pb, 0) {
      FirstOperand(ReferThen(op, x, c), pa, ReferThen(op, y, e), pb, op);
    }
  }

  /** The collision that misleading pools allow. */
  lemma Collides(pa: Pools, pb: Pools, op: nat, x: nat, y: nat, c: Code, e: Code)
    requires MisleadsWith(pa, pb, op, x, y, c, e)
    ensures var a, b := ReferThen(op, x, c), ReferThen(op, y, e);
      && Canonical(a, pa).Some? && Canonical(a, pa) == Canonical(b, pb)
      && !SameMeaning(a, pa, b, pb, 0) && !SameMeaning(b, pb, a, pa, 0)
  {
    hide ReferThen, IndexInfo, Canonical, SameMeaning, TailAt, Canonicalizer.Spell, Limit, Decimal, Resolve, Denotes,
      Span,
      Swallows;
    ReferThenText(op, x, c, pa);
    ReferThenText(op, y, e, pb);
    var pool := FirstRefOf(op).pool;
    var v, w := Resolve(pa, pool, x).value, Resolve(pb, pool, y).value;
    var s, t := TailAt(c, pa, 0, op, Span(op)).value, TailAt(e, pb, 0, op, Span(op)).value;
    SwallowsLonger(v, Canonicalizer.Spell(s), w, Canonicalizer.Spell(t));
    if pool in {CallSitePool, MethodHandlePool} {
      SitesNeverSwallow(pa, pb, pool, x, y, Canonicalizer.Spell(s), Canonicalizer.Spell(t));
    } else {
      OthersSteady(pa, pb, pool, x, y);
    }
    ReferencesDiffer(pa, pb, op, x, y, c, e);
    ReferencesDiffer(pb, pa, op, y, x, e, c);
  }

  // -- Every misread operand is one of these --------------------------------------------------

  lemma SuffixTailAt(c: Code, pools: Pools, pos: nat, op: nat, i: nat)
    requires op < 256 && i <= OpcodeSize(op)
    ensures TailAt(Suffix(c, pos), pools, 0, op, i) == TailAt(c, pools, pos, op, i)
  {
    hide TailAt, SameTail;
    SuffixTail(c, pos);
    TailUnit(Suffix(c, pos), 0, c, pos, i);
    SameTailAt(Suffix(c, pos), 0, c, pos, pools, op, i);
  }

  /** References are in the unit after the opcode's; the two opcodes with a second have a prototype there. */
  lemma RefPlaces(op: nat, i: nat)
    requires op < 256 && RefAt(IndexInfo(op), i).Some?
    ensures IndexInfo(op) != [] && (i == 1 || (i == 3 && op in {0xfa, 0xfb} && OpcodeSize(op) == 4))
    ensures i == 1 ==> RefAt(IndexInfo(op), i).value == FirstRefOf(op)
    ensures i == 3 ==> RefAt(IndexInfo(op), i).value == PoolRef(3, ProtoPool, false)
  {
    RefAtMember(IndexInfo(op), i);
    LongOnes(op);
    FirstRef(op);
  }

  lemma PrototypeAlone()
    ensures IndexInfo(0xff) == [PoolRef(1, ProtoPool, false)] && OpcodeSize(0xff) == 2
  {
    assert Row(15)[15] == 2;
  }

  /** What follows the second operand is what follows the first operand of an opcode that has but a prototype. */
  lemma SecondTail(c: Code, pools: Pools, pos: nat, op: nat)
    requires op in {0xfa, 0xfb}
    ensures TailAt(Suffix(c, pos + 2), pools, 0, 0xff, 2) == TailAt(c, pools, pos, op, 4)
  {
    PrototypeAlone();
    LongOnes(op);
    hide Words, IndexInfo, OpcodeSize;
    SuffixTailAt(c, pools, pos + 2, 0xff, 2);
    assert InsnWords(c, pools, pos + 2, 0xff, 2) == Some([]) == InsnWords(c, pools, pos, op, 4);
  }

  /** The first operands read differently, but the same with what follows each. */
  predicate FirstMisread(pa: Pools, pb: Pools, op: nat, x: nat, y: nat, c: Code, e: Code) {
    && op < 256 && IndexInfo(op) != [] && x < Limit(op) && y < Limit(op)
    && var v, w := Resolve(pa, FirstRefOf(op).pool, x), Resolve(pb, FirstRefOf(op).pool, y);
    var s, t := TailAt(c, pa, 0, op, Span(op)), TailAt(e, pb, 0, op, Span(op));
    && v.Some? && w.Some? && s.Some? && t.Some?
    && Misread(v.value, Canonicalizer.Spell(s.value), w.value, Canonicalizer.Spell(t.value))
  }

  lemma OperandIndex(c: Code, pools: Pools, k: nat, ref: PoolRef) returns (x: nat)
    requires OperandWord(c, pools, k, ref).Some?
    ensures x < if ref.is32Bit then 0x1_0000_0000 else 0x1_0000
    ensures Resolve(pools, ref.pool, x) == OperandWord(c, pools, k, ref)
  {
    hide Resolve, Unit;
    x := Index(c, k, ref.is32Bit).value;
  }

  lemma PointParts(a: Code, pa: Pools, b: Code, pb: Pools, d: Point)
      returns (v: string, w: string, s: seq<string>, t: seq<string>)
    requires MisreadAt(a, pa, b, pb, d)
    ensures RefOf(d).Some?
    ensures OperandWord(a, pa, d.pos + d.unit, RefOf(d).value) == Some(v)
    ensures OperandWord(b, pb, d.pos + d.unit, RefOf(d).value) == Some(w)
    ensures TailAt(a, pa, d.pos, d.opcode, d.unit + OperandSize(RefOf(d))) == Some(s)
    ensures TailAt(b, pb, d.pos, d.opcode, d.unit + OperandSize(RefOf(d))) == Some(t)
    ensures Misread(v, Canonicalizer.Spell(s), w, Canonicalizer.Spell(t))
  {
    hide IndexInfo, OpcodeSize, TailAt, Misread, Canonicalizer.Spell, OperandWord;
    var ref, next := RefOf(d).value, d.unit + OperandSize(RefOf(d));
    v, w := OperandWord(a, pa, d.pos + d.unit, ref).value, OperandWord(b, pb, d.pos + d.unit, ref).value;
    s, t := TailAt(a, pa, d.pos, d.opcode, next).value, TailAt(b, pb, d.pos, d.opcode, next).value;
  }

  lemma FirstOf(pa: Pools, pb: Pools, op: nat, x: nat, y: nat, c: Code, e: Code,
                v: string, w: string, s: seq<string>, t: seq<string>)
    requires op < 256 && IndexInfo(op) != [] && x < Limit(op) && y < Limit(op)
    requires Resolve(pa, FirstRefOf(op).pool, x) == Some(v) && Resolve(pb, FirstRefOf(op).pool, y) == Some(w)
    requires TailAt(c, pa, 0, op, Span(op)) == Some(s) && TailAt(e, pb, 0, op, Span(op)) == Some(t)
    requires Misread(v, Canonicalizer.Spell(s), w, Canonicalizer.Spell(t))
    ensures FirstMisread(pa, pb, op, x, y, c, e)
  {
    hide IndexInfo, TailAt, Misread, Canonicalizer.Spell, Resolve, Span, Limit, FirstRefOf;
  }

  lemma PointOne(a: Code, pa: Pools, b: Code, pb: Pools, d: Point) returns (x: nat, y: nat)
    requires MisreadAt(a, pa, b, pb, d) && d.unit == 1
    ensures FirstMisread(pa, pb, d.opcode, x, y, Suffix(a, d.pos), Suffix(b, d.pos))
  {
    var v, w, s, t := PointParts(a, pa, b, pb, d);
    var op, ref := d.opcode, RefOf(d).value;
    RefPlaces(op, 1);
    FirstRef(op);
    assert Span(op) == 1 + OperandSize(RefOf(d)) && Limit(op) == if ref.is32Bit then 0x1_0000_0000 else 0x1_0000;
    hide IndexInfo, OpcodeSize, TailAt, Resolve, Misread, MisreadAt, FirstMisread, Suffix, OperandWord, Span, Limit;
    x := OperandIndex(a, pa, d.pos + 1, ref);
    y := OperandIndex(b, pb, d.pos + 1, ref);
    SuffixTailAt(a, pa, d.pos, op, Span(op));
    SuffixTailAt(b, pb, d.pos, op, Span(op));
    FirstOf(pa, pb, op, x, y, Suffix(a, d.pos), Suffix(b, d.pos), v, w, s, t);
  }

  lemma ThreeFacts(a: Code, pa: Pools, b: Code, pb: Pools, d: Point)
    requires MisreadAt(a, pa, b, pb, d) && d.unit == 3
    ensures RefOf(d) == Some(PoolRef(3, ProtoPool, false)) && OperandSize(RefOf(d)) == 1 && d.opcode in {0xfa, 0xfb}
    ensures IndexInfo(0xff) != [] && Span(0xff) == 2 && Limit(0xff) == 0x1_0000 && FirstRefOf(0xff).pool == ProtoPool
  {
    RefPlaces(d.opcode, 3);
    PrototypeAlone();
  }

  lemma PointThree(a: Code, pa: Pools, b: Code, pb: Pools, d: Point) returns (x: nat, y: nat)
    requires MisreadAt(a, pa, b, pb, d) && d.unit == 3
    ensures FirstMisread(pa, pb, 0xff, x, y, Suffix(a, d.pos + 2), Suffix(b, d.pos + 2))
  {
    hide *;
    ThreeFacts(a, pa, b, pb, d);
    var v, w, s, t := PointParts(a, pa, b, pb, d);
    x := OperandIndex(a, pa, d.pos + 3, RefOf(d).value);
    y := OperandIndex(b, pb, d.pos + 3, RefOf(d).value);
    SecondTail(a, pa, d.pos, d.opcode);
    SecondTail(b, pb, d.pos, d.opcode);
    FirstOf(pa, pb, 0xff, x, y, Suffix(a, d.pos + 2), Suffix(b, d.pos + 2), v, w, s, t);
  }

  lemma FirstMisreadMisleads(pa: Pools, pb: Pools, op: nat, x: nat, y: nat, c: Code, e: Code)
    requires FirstMisread(pa, pb, op, x, y, c, e)
    ensures MisleadsWith(pa, pb, op, x, y, c, e) || MisleadsWith(pb, pa, op, y, x, e, c)
  {
    hide IndexInfo, TailAt, Resolve, Misread, Swallows, Canonicalizer.Spell, Span, Limit;
    var v, w := Resolve(pa, FirstRefOf(op).pool, x).value, Resolve(pb, FirstRefOf(op).pool, y).value;
    var s, t := TailAt(c, pa, 0, op, Span(op)).value, TailAt(e, pb, 0, op, Span(op)).value;
    if |v| <= |w| {
      MisreadSwallows(v, Canonicalizer.Spell(s), w, Canonicalizer.Spell(t));
    } else {
      MisreadTurned(v, Canonicalizer.Spell(s), w, Canonicalizer.Spell(t));
      MisreadSwallows(w, Canonicalizer.Spell(t), v, Canonicalizer.Spell(s));
    }
  }

  lemma MisreadTurned(v: string, s: string, w: string, t: string)
    requires Misread(v, s, w, t)
    ensures Misread(w, t, v, s)
  {
  }

  lemma PointMisleads(a: Code, pa: Pools, b: Code, pb: Pools, d: Point)
    requires MisreadAt(a, pa, b, pb, d)
    ensures Misleads(pa, pb) || Misleads(pb, pa)
  {
    RefPlaces(d.opcode, d.unit);
    hide IndexInfo, MisreadAt, FirstMisread, MisleadsWith;
    if d.unit == 1 {
      var x, y := PointOne(a, pa, b, pb, d);
      FirstMisreadMisleads(pa, pb, d.opcode, x, y, Suffix(a, d.pos), Suffix(b, d.pos));
    } else {
      var x, y := PointThree(a, pa, b, pb, d);
      FirstMisreadMisleads(pa, pb, 0xff, x, y, Suffix(a, d.pos + 2), Suffix(b, d.pos + 2));
    }
  }

  // -- One reference ------------------------------------------------------------------------------

  /** An opcode that refers to a pool with 16 bits. */
  function OpFor(pool: PoolKind): (op: nat)
    ensures op < 256
  {
    match pool
    case StringPool => 0x1a
    case TypePool => 0x1c
    case FieldPool => 0x52
    case MethodPool => 0x6e
    case ProtoPool => 0xff
    case CallSitePool => 0xfc
    case MethodHandlePool => 0xfe
  }

  lemma ReferOp(pool: PoolKind)
    ensures IndexInfo(OpFor(pool)) == [PoolRef(1, pool, false)] && FirstRefOf(OpFor(pool)) == PoolRef(1, pool, false)
    ensures Span(OpFor(pool)) == 2 && Limit(OpFor(pool)) == 0x1_0000 && OpcodeSize(OpFor(pool)) >= 2
  {
    FirstRef(OpFor(pool));
  }

  /** The code of one instruction that refers to the pool, its other units zero. */
  function Refer(pool: PoolKind, i: nat): Code
    requires i < 0x1_0000
  {
    ReferOp(pool);
    ReferThen(OpFor(pool), i, Nops(OpcodeSize(OpFor(pool))))
  }

  lemma RefOne(pool: PoolKind, k: nat)
    ensures RefAt([PoolRef(1, pool, false)], k) == if k == 1 then Some(PoolRef(1, pool, false)) else None
  {
    assert [PoolRef(1, pool, false)][1..] == [];
  }

  lemma {:induction false} BlankRest(pool: PoolKind, pools: Pools, k: nat)
    requires 2 <= k <= OpcodeSize(OpFor(pool))
    ensures InsnWords(Nops(OpcodeSize(OpFor(pool))), pools, 0, OpFor(pool), k) ==
      Some(ZeroWords(OpcodeSize(OpFor(pool)) - k))
    decreases OpcodeSize(OpFor(pool)) - k
  {
    hide OpFor, OpcodeSize, IndexInfo, Unit, Nops;
    if k < OpcodeSize(OpFor(pool)) {
      ReferOp(pool);
      RefOne(pool, k);
      NopsUnits(OpcodeSize(OpFor(pool)), k);
      assert Decimal(0) == "0";
      BlankRest(pool, pools, k + 1);
    }
  }

  lemma BlankTail(pool: PoolKind, pools: Pools)
    ensures TailAt(Nops(OpcodeSize(OpFor(pool))), pools, 0, OpFor(pool), 2) ==
      Some(ZeroWords(OpcodeSize(OpFor(pool)) - 2))
  {
    ReferOp(pool);
    hide OpFor, OpcodeSize, IndexInfo, Words, InsnWords, ZeroWords, Nops;
    var n := OpcodeSize(OpFor(pool));
    BlankRest(pool, pools, 2);
    NopsSize(n);
    NothingAfter(Nops(n), pools);
    assert ZeroWords(n - 2) + [] == ZeroWords(n - 2);
  }

  lemma ReferText(pool: PoolKind, i: nat, pools: Pools)
    requires i < 0x1_0000 && Resolve(pools, pool, i).Some?
    ensures Canonical(Refer(pool, i), pools) == Some(Decimal(OpFor(pool)) + "," +
      (Resolve(pools, pool, i).value + "," + Canonicalizer.Spell(ZeroWords(OpcodeSize(OpFor(pool)) - 2))))
  {
    hide OpFor, OpcodeSize, Resolve, Canonical, ZeroWords, Decimal, IndexInfo, TailAt, ReferThen, Span, Limit,
      FirstRefOf;
    ReferOp(pool);
    BlankTail(pool, pools);
    ReferThenText(OpFor(pool), i, Nops(OpcodeSize(OpFor(pool))), pools);
  }

  lemma ReferUnits(pool: PoolKind, i: nat, k: nat)
    requires i < 0x1_0000 && 2 <= k < OpcodeSize(OpFor(pool))
    ensures Unit(Refer(pool, i), k) == Some(0)
  {
    hide OpFor, OpcodeSize, IndexInfo, Unit, Nops, ReferThen, Span, Limit, SameTail;
    var op := OpFor(pool);
    ReferOp(pool);
    NopsUnits(OpcodeSize(op), k);
    ReferThenTail(op, i, Nops(OpcodeSize(op)));
    TailUnit(Refer(pool, i), 2, Nops(OpcodeSize(op)), 2, k - 2);
  }

  /** What the instruction refers to is its only constant. */
  lemma ReferConstants(pool: PoolKind)
    ensures Constants(OpFor(pool)) == [PoolRef(1, pool, false)] && Units(OpFor(pool)) == OpcodeSize(OpFor(pool))
    ensures forall k :: 0 <= k < Units(OpFor(pool)) && Bare(OpFor(pool), k) ==> k != 1
  {
    ReferOp(pool);
    ReferencesExactly(OpFor(pool));
    SizesExactly(OpFor(pool));
    assert PoolRef(1, pool, false) in Constants(OpFor(pool));
  }

  lemma ReferSame(pool: PoolKind, i: nat, pa: Pools, j: nat, pb: Pools)
    requires i < 0x1_0000 && j < 0x1_0000 && Denotes(pa, pool, i).Some? && Denotes(pb, pool, j) == Denotes(pa, pool, i)
    ensures SameInsn(Refer(pool, i), pa, Refer(pool, j), pb, 0, OpFor(pool))
  {
    hide Refer, OpFor, OpcodeSize, Unit, Index, Denotes, Constants, Units, Bare;
    ReferConstants(pool);
    ReferStart(pool, i);
    ReferStart(pool, j);
    var a, b, op := Refer(pool, i), Refer(pool, j), OpFor(pool);
    forall k | 0 <= k < Units(op) && Bare(op, k)
      ensures Unit(a, 0 + k).Some? && Unit(b, 0 + k) == Unit(a, 0 + k)
    {
      if k > 0 {
        ReferUnits(pool, i, k);
        ReferUnits(pool, j, k);
      }
    }
  }

  lemma ReferStart(pool: PoolKind, i: nat)
    requires i < 0x1_0000
    ensures var c := Refer(pool, i);
      && Unit(c, 0) == Some(OpFor(pool)) && Index(c, 1, false) == Some(i)
      && ItemAt(c, 0) == Some(Insn(OpFor(pool))) && c.size == OpcodeSize(OpFor(pool)) > 0
  {
    ReferOp(pool);
    hide OpFor, IndexInfo, Unit, Index, ItemAt, OpcodeSize, Span, Limit, FirstRefOf;
    var op := OpFor(pool);
    ReferThenHead(op, i, Nops(OpcodeSize(op)));
    ReferThenItem(op, i, Nops(OpcodeSize(op)));
  }

  /** Two references mean the same exactly when they denote the same. */
  lemma ReferMeans(pool: PoolKind, i: nat, pa: Pools, j: nat, pb: Pools)
    requires i < 0x1_0000 && j < 0x1_0000 && Denotes(pa, pool, i).Some?
    ensures SameMeaning(Refer(pool, i), pa, Refer(pool, j), pb, 0) <==> Denotes(pb, pool, j) == Denotes(pa, pool, i)
  {
    hide Refer, OpFor, OpcodeSize, IndexInfo, Unit, Index, ItemAt, Denotes;
    var a, b, op := Refer(pool, i), Refer(pool, j), OpFor(pool);
    ReferOp(pool);
    RefOne(pool, 0);
    RefOne(pool, 1);
    ReferStart(pool, i);
    ReferStart(pool, j);
    if SameMeaning(a, pa, b, pb, 0) {
      FirstOperand(a, pa, b, pb, op);
    }
    if Denotes(pb, pool, j) == Denotes(pa, pool, i) {
      ReferSame(pool, i, pa, j, pb);
      ReferConstants(pool);
      hide Units, SameInsn;
      assert SameMeaning(a, pa, b, pb, OpcodeSize(op));
    }
  }

  lemma IllegibleCollides(pa: Pools, pb: Pools, pool: PoolKind, i: nat, j: nat)
    requires i < 0x1_0000 && j < 0x1_0000 && !LegiblePair(pa, pb, pool, i, j)
    ensures var a, b := Refer(pool, i), Refer(pool, j);
      Canonical(a, pa).Some? && Canonical(b, pb) == Canonical(a, pa) && !SameMeaning(a, pa, b, pb, 0)
  {
    hide Refer, Canonical, SameMeaning, Resolve, Denotes, OpFor, OpcodeSize;
    ReferOp(pool);
    ReferText(pool, i, pa);
    ReferText(pool, j, pb);
    ReferMeans(pool, i, pa, j, pb);
  }

  lemma UnsteadyDiffers(pa: Pools, pb: Pools, pool: PoolKind, i: nat, j: nat)
    requires i < 0x1_0000 && j < 0x1_0000 && !SteadyPair(pa, pb, pool, i, j)
    ensures var a, b := Refer(pool, i), Refer(pool, j);
      && Canonical(a, pa).Some? && Canonical(b, pb).Some? && Canonical(b, pb) != Canonical(a, pa)
      && SameMeaning(a, pa, b, pb, 0)
  {
    hide Refer, Canonical, SameMeaning, Resolve, Denotes, OpFor, OpcodeSize, Decimal;
    ReferOp(pool);
    ReferText(pool, i, pa);
    ReferText(pool, j, pb);
    ReferMeans(pool, i, pa, j, pb);
    var rest := "," + Canonicalizer.Spell(ZeroWords(OpcodeSize(OpFor(pool)) - 2));
    var v, w := Resolve(pa, pool, i).value, Resolve(pb, pool, j).value;
    assert v + "," + rest[1..] == v + rest && w + "," + rest[1..] == w + rest;
    KeepsApart(Decimal(OpFor(pool)) + ",", v, w, rest);
  }

  // -- The exact conditions -----------------------------------------------------------------------

  lemma SoundText(a: Code, pa: Pools, b: Code, pb: Pools)
    requires !Misleads(pa, pb) && !Misleads(pb, pa) && LegiblePools(pa, pb)
    requires Canonical(a, pa).Some? && Canonical(b, pb) == Canonical(a, pa)
    ensures SameMeaning(a, pa, b, pb, 0)
  {
    hide Words, SameMeaning, Misleads, LegiblePools, Alike, Used, Legible, MisreadAt, Reached;
    var d := TextCut(a, pa, b, pb, 0);
    if d.Some? {
      PointMisleads(a, pa, b, pb, d.value);
    }
    UsedBounds(a, b);
    PoolsLegible(pa, Used(a, 0), pb, Used(b, 0));
    AlikeMeans(a, pa, b, pb, 0);
  }

  lemma MisleadsCollides(pa: Pools, pb: Pools)
    requires Misleads(pa, pb)
    ensures !SoundPools(pa, pb) && !SoundPools(pb, pa)
  {
    hide Canonical, SameMeaning, MisleadsWith, ReferThen, IndexInfo;
    var op, x, y, c, e :| MisleadsWith(pa, pb, op, x, y, c, e);
    Collides(pa, pb, op, x, y, c, e);
    MisleadsFits(pa, pb, op, x, y, c, e);
    var a, b := ReferThen(op, x, c), ReferThen(op, y, e);
    assert Canonical(a, pa).Some? && Canonical(b, pb) == Canonical(a, pa);
  }

  lemma MisleadsFits(pa: Pools, pb: Pools, op: nat, x: nat, y: nat, c: Code, e: Code)
    requires MisleadsWith(pa, pb, op, x, y, c, e)
    ensures op < 256 && IndexInfo(op) != [] && x < Limit(op) && y < Limit(op)
  {
    hide IndexInfo, Limit, Resolve, TailAt, Swallows;
  }

  /** Equal text means equal meaning for all code over two sets of pools exactly when neither
      misleads and what reads the same in them denotes the same. */
  lemma SoundExactly(pa: Pools, pb: Pools)
    ensures SoundPools(pa, pb) <==> !Misleads(pa, pb) && !Misleads(pb, pa) && LegiblePools(pa, pb)
  {
    hide Canonical, SameMeaning, Misleads, LegiblePair;
    if Misleads(pa, pb) {
      MisleadsCollides(pa, pb);
    } else if Misleads(pb, pa) {
      MisleadsCollides(pb, pa);
    } else if LegiblePools(pa, pb) {
      forall a, b | Canonical(a, pa).Some? && Canonical(b, pb) == Canonical(a, pa)
        ensures SameMeaning(a, pa, b, pb, 0)
      {
        SoundText(a, pa, b, pb);
      }
    } else {
      var pool: PoolKind, i: nat, j: nat :|
        !pool.StringPool? && i < 0x1_0000 && j < 0x1_0000 && !LegiblePair(pa, pb, pool, i, j);
      IllegibleCollides(pa, pb, pool, i, j);
    }
  }

  /** Equal meaning means equal text exactly when call sites and method handles keep their numbers. */
  lemma CompleteExactly(pa: Pools, pb: Pools)
    ensures CompletePools(pa, pb) <==> SteadyPools(pa, pb)
  {
    hide Words, SameMeaning, SteadyPair, Alike, Used, Steady;
    if SteadyPools(pa, pb) {
      forall a, b | Canonical(a, pa).Some? && Canonical(b, pb).Some? && SameMeaning(a, pa, b, pb, 0)
        ensures Canonical(b, pb) == Canonical(a, pa)
      {
        UsedBounds(a, b);
        PoolsSteady(pa, Used(a, 0), pb, Used(b, 0));
        MeansAlike(a, pa, b, pb, 0);
        WordsExactly(a, pa, b, pb, 0);
      }
    } else {
      hide Canonical;
      var pool: PoolKind, i: nat, j: nat :|
        pool in {CallSitePool, MethodHandlePool} && i < 0x1_0000 && j < 0x1_0000 && !SteadyPair(pa, pb, pool, i, j);
      UnsteadyDiffers(pa, pb, pool, i, j);
    }
  }

  /** Over two sets of pools, text is equal exactly where meaning is, for all code, if and only if
      neither misleads, what reads the same denotes the same, and call sites and handles keep their numbers. */
  lemma FaithfulExactly(pa: Pools, pb: Pools)
    ensures AllFaithful(pa, pb) <==>
      !Misleads(pa, pb) && !Misleads(pb, pa) && LegiblePools(pa, pb) && SteadyPools(pa, pb)
  {
    hide Canonical, SameMeaning, Misleads, LegiblePools, SteadyPools;
    SoundExactly(pa, pb);
    CompleteExactly(pa, pb);
    AllFaithfulIs(pa, pb);
  }

  lemma AllFaithfulIs(pa: Pools, pb: Pools)
    ensures AllFaithful(pa, pb) <==> SoundPools(pa, pb) && CompletePools(pa, pb)
  {
    hide Canonical, SameMeaning;
    if AllFaithful(pa, pb) {
      forall a, b | Canonical(a, pa).Some? && Canonical(b, pb) == Canonical(a, pa)
        ensures SameMeaning(a, pa, b, pb, 0)
      {
        assert Canonical(b, pb).Some?;
      }
    }
  }
}
