/** What instructions mean: the constants, fields, methods, call sites and handles that their
    operands denote, however they are numbered and whatever they read as. */
module Meaning {
  import opened Bytes
  import opened OpcodeTable
  import opened Canonicalizer
  import opened Formats
  import opened Renumbering

  datatype Entity =
    | StringEntity(text: string)
    | TypeEntity(descriptor: string)
    | FieldEntity(field: FieldId)
    | MethodEntity(target: MethodId)
    | ProtoEntity(proto: Proto)
    | SiteEntity(site: CallSite)
    | HandleEntity(handle: MethodHandle)
    | Dangling(index: nat)    // a call site or handle that the file does not have

  /** What an index denotes; none where the canonicaliser throws. */
  function Denotes(pools: Pools, pool: PoolKind, index: nat): (e: Option<Entity>)
    ensures e.Some? <==> Resolve(pools, pool, index).Some?
  {
    match pool
    case StringPool => if index < |pools.strings| then Some(StringEntity(pools.strings[index])) else None
    case TypePool => if index < |pools.types| then Some(TypeEntity(pools.types[index])) else None
    case FieldPool => if index < |pools.fields| then Some(FieldEntity(pools.fields[index])) else None
    case MethodPool => if index < |pools.methods| then Some(MethodEntity(pools.methods[index])) else None
    case ProtoPool => if index < |pools.protos| then Some(ProtoEntity(pools.protos[index])) else None
    case CallSitePool => Some(if index < |pools.sites| then SiteEntity(pools.sites[index]) else Dangling(index))
    case MethodHandlePool => Some(if index < |pools.handles| then HandleEntity(pools.handles[index])
                                  else Dangling(index))
  }

  /** What the operand at a unit denotes. */
  function Operand(c: Code, pools: Pools, k: nat, ref: PoolRef): Option<Entity> {
    var index := Index(c, k, ref.is32Bit);
    if index.None? then None else Denotes(pools, ref.pool, index.value)
  }

  /** The same units, and constants that denote the same. */
  predicate SameInsn(a: Code, pa: Pools, b: Code, pb: Pools, pos: nat, op: nat) {
    && (forall k :: 0 <= k < Units(op) && Bare(op, k) ==>
        Unit(a, pos + k).Some? && Unit(b, pos + k) == Unit(a, pos + k))
    && (forall ref :: ref in Constants(op) ==> SameOperand(a, pa, b, pb, pos + ref.unitOffset, ref))
  }

  predicate SameOperand(a: Code, pa: Pools, b: Code, pb: Pools, k: nat, ref: PoolRef) {
    Operand(a, pa, k, ref).Some? && Operand(b, pb, k, ref) == Operand(a, pa, k, ref)
  }

  predicate SameItem(a: Code, pa: Pools, b: Code, pb: Pools, pos: nat, item: Item) {
    match item case Payload(n) => SameUnits(a, b, pos, n) case Insn(op) => SameInsn(a, pa, b, pb, pos, op)
  }

  /** Item by item: equal payloads, and instructions equal but for how operands number what they denote. */
  predicate SameMeaning(a: Code, pa: Pools, b: Code, pb: Pools, pos: nat)
    decreases a.size - pos
  {
    if pos >= a.size || pos >= b.size then pos >= a.size && pos >= b.size
    else
      var item := ItemAt(a, pos);
      && item.Some? && ItemAt(b, pos) == item
      && SameItem(a, pa, b, pb, pos, item.value)
      && (UnitsIn(item.value) == 0 || SameMeaning(a, pa, b, pb, pos + UnitsIn(item.value)))
  }

  // -- What code refers to ----------------------------------------------------------

  type Refs = set<(PoolKind, nat)>

  /** The constants of one instruction that are there. */
  function UsedInsn(c: Code, pos: nat, op: nat): Refs {
    set ref | ref in Constants(op) && Index(c, pos + ref.unitOffset, ref.is32Bit).Some? ::
      (ref.pool, Index(c, pos + ref.unitOffset, ref.is32Bit).value)
  }

  /** The pools and indices that the operands refer to, from a unit on. */
  function Used(c: Code, pos: nat): Refs
    decreases c.size - pos
  {
    if pos >= c.size || ItemAt(c, pos).None? then {}
    else
      var item := ItemAt(c, pos).value;
      (if item.Insn? then UsedInsn(c, pos, item.opcode) else {}) +
      (if UnitsIn(item) == 0 then {} else Used(c, pos + UnitsIn(item)))
  }

  /** What reads the same among these references denotes the same. */
  predicate Legible(pa: Pools, ua: Refs, pb: Pools, ub: Refs) {
    forall x, y :: x in ua && y in ub && x.0 == y.0 ==> LegiblePair(pa, pb, x.0, x.1, y.1)
  }

  predicate LegiblePair(pa: Pools, pb: Pools, pool: PoolKind, i: nat, j: nat) {
    Resolve(pa, pool, i).Some? && Resolve(pb, pool, j) == Resolve(pa, pool, i) ==>
      Denotes(pb, pool, j) == Denotes(pa, pool, i)
  }

  /** What denotes the same among these references reads the same. */
  predicate Steady(pa: Pools, ua: Refs, pb: Pools, ub: Refs) {
    forall x, y :: x in ua && y in ub && x.0 == y.0 ==> SteadyPair(pa, pb, x.0, x.1, y.1)
  }

  predicate SteadyPair(pa: Pools, pb: Pools, pool: PoolKind, i: nat, j: nat) {
    Denotes(pa, pool, i).Some? && Denotes(pb, pool, j) == Denotes(pa, pool, i) ==>
      Resolve(pb, pool, j) == Resolve(pa, pool, i)
  }

  // -- Reading alike and meaning the same ----------------------------------------------------

  /** Streams that read alike have the same bare units and operands that read the same. */
  lemma {:induction false} AlikeInsnAt(a: Code, pa: Pools, b: Code, pb: Pools, pos: nat, op: nat, i: nat, k: nat)
    requires op < 256 && AlikeInsn(a, pa, b, pb, pos, op, i) && i <= k < OpcodeSize(op)
    requires !Within(op, i) && !Within(op, k)
    ensures var ref := RefAt(IndexInfo(op), k);
      if ref.None? then Unit(a, pos + k).Some? && Unit(b, pos + k) == Unit(a, pos + k)
      else
        OperandWord(a, pa, pos + k, ref.value).Some? &&
        OperandWord(b, pb, pos + k, ref.value) == OperandWord(a, pa, pos + k, ref.value)
    decreases OpcodeSize(op) - i
  {
    hide OpcodeSize, IndexInfo, OperandWord, Unit, Within, Units, Bare, Constants;
    UnitIs(op, i);
    if i < k {
      StepTo(op, i, k);
      AlikeInsnAt(a, pa, b, pb, pos, op, i + OperandSize(RefAt(IndexInfo(op), i)), k);
    }
  }

  lemma StepTo(op: nat, i: nat, k: nat)
    requires op < 256 && i < k && i < OpcodeSize(op) && !Within(op, i) && !Within(op, k)
    ensures i + OperandSize(RefAt(IndexInfo(op), i)) <= k
  {
    UnitIs(op, i);
    hide IndexInfo, OpcodeSize, Constants;
    var ref := RefAt(IndexInfo(op), i);
    assert ref.Some? && ref.value.is32Bit ==> Within(op, i + 1);
  }

  lemma BareNotWithin(op: nat, k: nat)
    requires op < 256 && Bare(op, k)
    ensures k < OpcodeSize(op) && !Within(op, k) && RefAt(IndexInfo(op), k) == None
  {
    ReferencesExactly(op);
    SizesExactly(op);
    RefAtMember(IndexInfo(op), k);
  }

  lemma ConstantNotWithin(op: nat, ref: PoolRef)
    requires ref in Constants(op)
    ensures !Within(op, ref.unitOffset)
  {
  }

  lemma OperandIs(c: Code, pools: Pools, k: nat, ref: PoolRef) returns (x: nat)
    requires OperandWord(c, pools, k, ref).Some?
    ensures Index(c, k, ref.is32Bit) == Some(x) && Resolve(pools, ref.pool, x) == OperandWord(c, pools, k, ref)
    ensures Operand(c, pools, k, ref) == Denotes(pools, ref.pool, x)
  {
    x := Index(c, k, ref.is32Bit).value;
  }

  lemma AlikeBare(a: Code, pa: Pools, b: Code, pb: Pools, pos: nat, op: nat, k: nat)
    requires op < 256 && AlikeInsn(a, pa, b, pb, pos, op, 0) && Bare(op, k)
    ensures Unit(a, pos + k).Some? && Unit(b, pos + k) == Unit(a, pos + k)
  {
    hide *;
    BareFirst(op);
    BareNotWithin(op, 0);
    BareNotWithin(op, k);
    AlikeInsnAt(a, pa, b, pb, pos, op, 0, k);
  }

  lemma AlikeConstant(a: Code, pa: Pools, b: Code, pb: Pools, pos: nat, op: nat, ref: PoolRef)
    requires op < 256 && AlikeInsn(a, pa, b, pb, pos, op, 0) && ref in Constants(op)
    ensures var k := pos + ref.unitOffset;
      OperandWord(a, pa, k, ref).Some? && OperandWord(b, pb, k, ref) == OperandWord(a, pa, k, ref)
  {
    hide *;
    BareFirst(op);
    BareNotWithin(op, 0);
    ConstantFound(op, ref);
    ConstantNotWithin(op, ref);
    AlikeInsnAt(a, pa, b, pb, pos, op, 0, ref.unitOffset);
  }

  lemma AlikeInsnMeans(a: Code, pa: Pools, b: Code, pb: Pools, pos: nat, op: nat)
    requires op < 256 && AlikeInsn(a, pa, b, pb, pos, op, 0)
    requires Legible(pa, UsedInsn(a, pos, op), pb, UsedInsn(b, pos, op))
    ensures SameInsn(a, pa, b, pb, pos, op)
  {
    hide OpcodeSize, IndexInfo, OperandWord, Unit, AlikeInsn, Bare, Units, Constants, SameOperand, UsedInsn, Legible;
    forall k | 0 <= k < Units(op) && Bare(op, k)
      ensures Unit(a, pos + k).Some? && Unit(b, pos + k) == Unit(a, pos + k)
    {
      AlikeBare(a, pa, b, pb, pos, op, k);
    }
    forall ref | ref in Constants(op)
      ensures SameOperand(a, pa, b, pb, pos + ref.unitOffset, ref)
    {
      AlikeConstant(a, pa, b, pb, pos, op, ref);
      AlikeOperandMeans(a, pa, b, pb, pos, op, ref);
    }
  }

  lemma AlikeOperandMeans(a: Code, pa: Pools, b: Code, pb: Pools, pos: nat, op: nat, ref: PoolRef)
    requires ref in Constants(op) && Legible(pa, UsedInsn(a, pos, op), pb, UsedInsn(b, pos, op))
    requires var k := pos + ref.unitOffset;
      OperandWord(a, pa, k, ref).Some? && OperandWord(b, pb, k, ref) == OperandWord(a, pa, k, ref)
    ensures SameOperand(a, pa, b, pb, pos + ref.unitOffset, ref)
  {
    hide Resolve, Denotes, Index, OperandWord, Operand, Constants;
    var x := OperandIs(a, pa, pos + ref.unitOffset, ref);
    var y := OperandIs(b, pb, pos + ref.unitOffset, ref);
    assert (ref.pool, x) in UsedInsn(a, pos, op) && (ref.pool, y) in UsedInsn(b, pos, op);
    assert LegiblePair(pa, pb, ref.pool, x, y);
  }

  /** Streams that read alike mean the same, where what they refer to is legible. */
  lemma {:induction false} AlikeMeans(a: Code, pa: Pools, b: Code, pb: Pools, pos: nat)
    requires Alike(a, pa, b, pb, pos) && Legible(pa, Used(a, pos), pb, Used(b, pos))
    ensures SameMeaning(a, pa, b, pb, pos)
    decreases a.size - pos
  {
    hide ItemAt, ItemWidth, UsedInsn, LegiblePair, AlikeInsn, SameInsn, SameUnits, UnitsIn;
    if pos < a.size && pos < b.size {
      var item := ItemAt(a, pos).value;
      ItemMoves(a, pos, item);
      UnitsInExactly(item);
      if item.Insn? {
        AlikeInsnMeans(a, pa, b, pb, pos, item.opcode);
      }
      AlikeMeans(a, pa, b, pb, pos + ItemWidth(item));
    }
  }

  lemma OperandReads(a: Code, pa: Pools, b: Code, pb: Pools, pos: nat, op: nat, ref: PoolRef)
    requires ref in Constants(op) && Steady(pa, UsedInsn(a, pos, op), pb, UsedInsn(b, pos, op))
    requires SameOperand(a, pa, b, pb, pos + ref.unitOffset, ref)
    ensures var k := pos + ref.unitOffset;
      OperandWord(a, pa, k, ref).Some? && OperandWord(b, pb, k, ref) == OperandWord(a, pa, k, ref)
  {
    hide Resolve, Denotes, Index, Constants;
    var k := pos + ref.unitOffset;
    var x, y := Index(a, k, ref.is32Bit).value, Index(b, k, ref.is32Bit).value;
    assert (ref.pool, x) in UsedInsn(a, pos, op) && (ref.pool, y) in UsedInsn(b, pos, op);
    assert SteadyPair(pa, pb, ref.pool, x, y);
  }

  lemma {:induction false} MeansAlikeInsn(a: Code, pa: Pools, b: Code, pb: Pools, pos: nat, op: nat, i: nat)
    requires op < 256 && SameInsn(a, pa, b, pb, pos, op) && !Within(op, i)
    requires Steady(pa, UsedInsn(a, pos, op), pb, UsedInsn(b, pos, op))
    ensures AlikeInsn(a, pa, b, pb, pos, op, i)
    decreases OpcodeSize(op) - i
  {
    hide OpcodeSize, IndexInfo, OperandWord, Unit, Within, Bare, Constants, SameOperand, Units, UsedInsn, SteadyPair;
    if i < OpcodeSize(op) {
      UnitIs(op, i);
      var ref := RefAt(IndexInfo(op), i);
      if ref.None? {
        assert Unit(a, pos + i).Some? && Unit(b, pos + i) == Unit(a, pos + i);
      } else {
        OperandReads(a, pa, b, pb, pos, op, ref.value);
      }
      MeansAlikeInsn(a, pa, b, pb, pos, op, i + OperandSize(ref));
    }
  }

  /** And streams that mean the same read alike, where what they refer to is steady. */
  lemma {:induction false} MeansAlike(a: Code, pa: Pools, b: Code, pb: Pools, pos: nat)
    requires SameMeaning(a, pa, b, pb, pos) && Steady(pa, Used(a, pos), pb, Used(b, pos))
    ensures Alike(a, pa, b, pb, pos)
    decreases a.size - pos
  {
    hide ItemAt, ItemWidth, UsedInsn, SteadyPair, AlikeInsn, SameInsn, SameUnits, UnitsIn, Within;
    if pos < a.size && pos < b.size {
      var item := ItemAt(a, pos).value;
      ItemMoves(a, pos, item);
      UnitsInExactly(item);
      if item.Insn? {
        BareFirst(item.opcode);
        BareNotWithin(item.opcode, 0);
        MeansAlikeInsn(a, pa, b, pb, pos, item.opcode, 0);
      }
      MeansAlike(a, pa, b, pb, pos + ItemWidth(item));
    }
  }

  lemma UsedInsnBound(c: Code, pos: nat, op: nat, x: (PoolKind, nat))
    requires x in UsedInsn(c, pos, op)
    ensures x.0.StringPool? || x.1 < 0x1_0000
  {
    hide Unit;
    var ref :| ref in Constants(op) && Index(c, pos + ref.unitOffset, ref.is32Bit) == Some(x.1) && ref.pool == x.0;
  }

  /** Only strings have indices of more than 16 bits. */
  lemma {:induction false} UsedBound(c: Code, pos: nat, x: (PoolKind, nat))
    requires x in Used(c, pos)
    ensures x.0.StringPool? || x.1 < 0x1_0000
    decreases c.size - pos
  {
    hide UnitsIn, UsedInsn;
    var item := ItemAt(c, pos).value;
    if item.Insn? && x in UsedInsn(c, pos, item.opcode) {
      UsedInsnBound(c, pos, item.opcode, x);
    } else {
      UsedBound(c, pos + UnitsIn(item), x);
    }
  }

  // -- Renumbering ------------------------------------------------------------------------

  lemma DenotesMoved(r: Renumber, pa: Pools, pb: Pools, pool: PoolKind, i: nat)
    requires Moved(r, pa, pb) && pb.sites == pa.sites && pb.handles == pa.handles && Denotes(pa, pool, i).Some?
    ensures Denotes(pb, pool, r.index(pool, i)) == Denotes(pa, pool, i)
  {
    match pool
    case StringPool => assert MovedEntry(pa.strings, pb.strings, i, r.index(pool, i));
    case TypePool => assert MovedEntry(pa.types, pb.types, i, r.index(pool, i));
    case FieldPool => assert MovedEntry(pa.fields, pb.fields, i, r.index(pool, i));
    case MethodPool => assert MovedEntry(pa.methods, pb.methods, i, r.index(pool, i));
    case ProtoPool => assert MovedEntry(pa.protos, pb.protos, i, r.index(pool, i));
    case _ =>
  }

  lemma RenumberedOperand(r: Renumber, a: Code, pa: Pools, b: Code, pb: Pools, k: nat, ref: PoolRef)
    requires Moved(r, pa, pb) && pb.sites == pa.sites && pb.handles == pa.handles
    requires RenumberedIndex(r, a, b, k, ref) && OperandWord(a, pa, k, ref).Some?
    ensures SameOperand(a, pa, b, pb, k, ref)
  {
    hide Moved, Index, Denotes, Resolve, OperandWord;
    var x := OperandIs(a, pa, k, ref);
    DenotesMoved(r, pa, pb, ref.pool, x);
  }

  lemma RenumberedInsnMeans(r: Renumber, a: Code, pa: Pools, b: Code, pb: Pools, pos: nat, op: nat)
    requires op < 256 && Moved(r, pa, pb) && pb.sites == pa.sites && pb.handles == pa.handles
    requires RenumberedInsn(r, a, b, pos, op) && InsnWords(a, pa, pos, op, 0).Some?
    ensures SameInsn(a, pa, b, pb, pos, op)
  {
    hide OpcodeSize, IndexInfo, OperandWord, Unit, AlikeInsn, Bare, Units, Constants, SameOperand, InsnWords, Moved,
      RenumberedIndex, Within;
    BareFirst(op);
    BareNotWithin(op, 0);
    RenumberedInsnSame(r, a, pa, b, pb, pos, op, 0);
    forall ref | ref in Constants(op)
      ensures SameOperand(a, pa, b, pb, pos + ref.unitOffset, ref)
    {
      AlikeConstant(a, pa, b, pb, pos, op, ref);
      RenumberedOperand(r, a, pa, b, pb, pos + ref.unitOffset, ref);
    }
  }

  /** Reordering the pools, and the indices with them, does not change what code means. */
  lemma {:induction false} RenumberingKeepsMeaning(r: Renumber, a: Code, pa: Pools, b: Code, pb: Pools, pos: nat)
    requires a.size == b.size && Moved(r, pa, pb) && pb.sites == pa.sites && pb.handles == pa.handles
    requires Renumbered(r, a, b, pos) && Words(a, pa, pos).Some?
    ensures SameMeaning(a, pa, b, pb, pos)
    decreases a.size - pos
  {
    hide ItemAt, ItemWidth, RenumberedInsn, InsnWords, RawWords, Moved, SameInsn, SameUnits, UnitsIn;
    if pos < a.size {
      var item := ItemAt(a, pos).value;
      ItemMoves(a, pos, item);
      UnitsInExactly(item);
      RenumberedItemStays(r, a, b, pos, item);
      if item.Insn? {
        RenumberedInsnMeans(r, a, pa, b, pb, pos, item.opcode);
      }
      RenumberingKeepsMeaning(r, a, pa, b, pb, pos + ItemWidth(item));
    }
  }
}
