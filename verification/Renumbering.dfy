/** When two instruction streams read alike, that this is when their canonical words
    are the same, and that renumbering the pools does not change how they read. */
module Renumbering {
  import opened Bytes
  import opened Text
  import opened OpcodeTable
  import opened Canonicalizer
  import opened Formats

  // -- Reading alike: same units, and operands that read the same ------------------

  /** The units `pos`.. of both streams agree. */
  predicate SameUnits(a: Code, b: Code, pos: nat, n: nat) {
    forall k :: pos <= k < pos + n ==> Unit(a, k).Some? && Unit(b, k) == Unit(a, k)
  }

  predicate AlikeInsn(a: Code, pa: Pools, b: Code, pb: Pools, pos: nat, opcode: nat, i: nat)
    requires opcode < 256
    decreases OpcodeSize(opcode) - i
  {
    i >= OpcodeSize(opcode) ||
    (var ref := RefAt(IndexInfo(opcode), i);
     (if ref.None? then Unit(a, pos + i).Some? && Unit(b, pos + i) == Unit(a, pos + i)
      else
        var word := OperandWord(a, pa, pos + i, ref.value);
        word.Some? && OperandWord(b, pb, pos + i, ref.value) == word) &&
     AlikeInsn(a, pa, b, pb, pos, opcode, i + OperandSize(ref)))
  }

  /** Item by item: equal payloads, and instructions equal but for how operands number what they read as. */
  predicate Alike(a: Code, pa: Pools, b: Code, pb: Pools, pos: nat)
    decreases a.size - pos
  {
    if pos >= a.size || pos >= b.size then pos >= a.size && pos >= b.size
    else
      var item := ItemAt(a, pos);
      && item.Some? && ItemAt(b, pos) == item
      && AlikeItem(a, pa, b, pb, pos, item.value)
      && Alike(a, pa, b, pb, pos + ItemWidth(item.value))
  }

  predicate AlikeItem(a: Code, pa: Pools, b: Code, pb: Pools, pos: nat, item: Item)
    requires item.Insn? ==> item.opcode < 256
  {
    match item case Payload(n) => SameUnits(a, b, pos, n) case Insn(op) => AlikeInsn(a, pa, b, pb, pos, op, 0)
  }

  // -- Reading alike is having the same words ----------------------------------------------------

  lemma {:induction false} DecimalInjective(m: nat, n: nat)
    requires Decimal(m) == Decimal(n)
    ensures m == n
  {
    var x, y := Decimal(m), Decimal(n);
    if m >= 10 || n >= 10 {
      DecimalNotEmpty(m / 10);
      DecimalNotEmpty(n / 10);
      assert x[|x| - 1] == Digit(m % 10) && y[|y| - 1] == Digit(n % 10);
      assert m >= 10 ==> x[..|x| - 1] == Decimal(m / 10);
      assert n >= 10 ==> y[..|y| - 1] == Decimal(n / 10);
      DigitInjective(m % 10, n % 10);
      DecimalInjective(m / 10, n / 10);
    } else {
      DigitInjective(m, n);
    }
  }

  lemma DecimalNotEmpty(n: nat)
    ensures |Decimal(n)| >= 1
  {
  }

  lemma DigitInjective(m: nat, n: nat)
    requires m < 10 && n < 10 && Digit(m) == Digit(n)
    ensures m == n
  {
    var d := "0123456789";
    assert d[0] == '0' && d[1] == '1' && d[2] == '2' && d[3] == '3' && d[4] == '4';
    assert d[5] == '5' && d[6] == '6' && d[7] == '7' && d[8] == '8' && d[9] == '9';
  }

  lemma UnitWordExactly(a: Code, b: Code, k: nat)
    requires UnitWord(a, k).Some?
    ensures UnitWord(b, k) == UnitWord(a, k) <==> Unit(b, k) == Unit(a, k)
  {
    if UnitWord(b, k) == UnitWord(a, k) {
      DecimalInjective(Unit(a, k).value, Unit(b, k).value);
    }
  }

  lemma Heads(x: Option<string>, xs: Option<seq<string>>, y: Option<string>, ys: Option<seq<string>>)
    requires Prepend(x, xs).Some? && Prepend(y, ys).Some?
    ensures Prepend(x, xs).value == [x.value] + xs.value && Prepend(y, ys).value == [y.value] + ys.value
    ensures forall s, t :: Prepend(x, xs).value + s == Prepend(y, ys).value + t <==>
      x == y && xs.value + s == ys.value + t
  {
    forall s, t
      ensures Prepend(x, xs).value + s == Prepend(y, ys).value + t <==> x == y && xs.value + s == ys.value + t
    {
      var l, r := Prepend(x, xs).value + s, Prepend(y, ys).value + t;
      assert l == [x.value] + (xs.value + s) && r == [y.value] + (ys.value + t);
      if l == r {
        assert l[0] == r[0] && l[1..] == r[1..];
        assert l[1..] == xs.value + s && r[1..] == ys.value + t;
      }
    }
  }

  lemma {:induction false} RawExactly(a: Code, b: Code, pos: nat, n: nat, s: seq<string>, t: seq<string>)
    requires RawWords(a, pos, n).Some? && RawWords(b, pos, n).Some?
    ensures RawWords(a, pos, n).value + s == RawWords(b, pos, n).value + t <==> SameUnits(a, b, pos, n) && s == t
    decreases n
  {
    if n == 0 {
      assert [] + s == s && [] + t == t;
    } else {
      UnitWordExactly(a, b, pos);
      RawExactly(a, b, pos + 1, n - 1, s, t);
      Heads(UnitWord(a, pos), RawWords(a, pos + 1, n - 1), UnitWord(b, pos), RawWords(b, pos + 1, n - 1));
    }
  }

  lemma {:induction false} InsnExactly(a: Code, pa: Pools, b: Code, pb: Pools, pos: nat, op: nat, i: nat,
                                       s: seq<string>, t: seq<string>)
    requires op < 256
    requires InsnWords(a, pa, pos, op, i).Some? && InsnWords(b, pb, pos, op, i).Some?
    ensures InsnWords(a, pa, pos, op, i).value + s == InsnWords(b, pb, pos, op, i).value + t <==>
            AlikeInsn(a, pa, b, pb, pos, op, i) && s == t
    decreases OpcodeSize(op) - i
  {
    if i >= OpcodeSize(op) {
      assert [] + s == s && [] + t == t;
    } else {
      var ref := RefAt(IndexInfo(op), i);
      var x := if ref.None? then UnitWord(a, pos + i) else OperandWord(a, pa, pos + i, ref.value);
      var y := if ref.None? then UnitWord(b, pos + i) else OperandWord(b, pb, pos + i, ref.value);
      var j := i + OperandSize(ref);
      if ref.None? {
        UnitWordExactly(a, b, pos + i);
      }
      InsnExactly(a, pa, b, pb, pos, op, j, s, t);
      Heads(x, InsnWords(a, pa, pos, op, j), y, InsnWords(b, pb, pos, op, j));
    }
  }

  lemma ItemExactly(a: Code, pa: Pools, b: Code, pb: Pools, pos: nat, item: Item, s: seq<string>, t: seq<string>)
    requires item.Insn? ==> item.opcode < 256
    requires ItemWords(a, pa, pos, item).Some? && ItemWords(b, pb, pos, item).Some?
    ensures ItemWords(a, pa, pos, item).value + s == ItemWords(b, pb, pos, item).value + t <==>
            AlikeItem(a, pa, b, pb, pos, item) && s == t
  {
    match item
    case Payload(n) => RawExactly(a, b, pos, n, s, t);
    case Insn(op) => InsnExactly(a, pa, b, pb, pos, op, 0, s, t);
  }

  lemma {:induction false} RawAt(c: Code, pos: nat, n: nat, k: nat)
    requires RawWords(c, pos, n).Some? && k < n
    ensures |RawWords(c, pos, n).value| == n && Unit(c, pos + k).Some? &&
      RawWords(c, pos, n).value[k] == Decimal(Unit(c, pos + k).value)
    decreases n
  {
    if k > 0 {
      RawAt(c, pos + 1, n - 1, k - 1);
    } else if n > 1 {
      RawAt(c, pos + 1, n - 1, 0);
    }
  }

  /** The first word of an item is its first unit, which no operand occupies. */
  lemma FirstWord(c: Code, pools: Pools, pos: nat, item: Item)
    requires ItemAt(c, pos) == Some(item) && ItemWords(c, pools, pos, item).Some?
    ensures |ItemWords(c, pools, pos, item).value| >= 1
    ensures ItemWords(c, pools, pos, item).value[0] == Decimal(Unit(c, pos).value)
  {
    match item
    case Payload(n) => RawAt(c, pos, n, 0);
    case Insn(op) =>
      if RefAt(IndexInfo(op), 0).Some? {
        RefsFit(op, 0);
      }
  }

  lemma PayloadWord(c: Code, pools: Pools, pos: nat, n: nat, k: nat)
    requires ItemWords(c, pools, pos, Payload(n)).Some? && k < n
    ensures |ItemWords(c, pools, pos, Payload(n)).value| == n && Unit(c, pos + k).Some?
    ensures ItemWords(c, pools, pos, Payload(n)).value[k] == Decimal(Unit(c, pos + k).value)
  {
    RawAt(c, pos, n, k);
  }

  /** The reads of `PayloadSize` are of the units that follow. */
  lemma PayloadReads(c: Code, k: nat)
    ensures Uint16At(c.bytes, c.off + k * 2) == Unit(c, k) && Uint16At(c.bytes, c.off + k * 2 + 2) == Unit(c, k + 1)
    ensures var n := Uint32At(c.bytes, c.off + k * 2 + 4); var lo, hi := Unit(c, k + 2), Unit(c, k + 3);
      n.Some? ==> lo.Some? && hi.Some? && n.value == lo.value + hi.value * 0x1_0000
  {
    assert c.off + (k + 1) * 2 == c.off + k * 2 + 2 && c.off + (k + 2) * 2 == c.off + k * 2 + 4 &&
      c.off + (k + 3) * 2 == c.off + k * 2 + 6;
  }

  /** The payload size is read off the payload's own first units. */
  lemma PayloadSizeOf(c: Code, k: nat)
    requires PayloadSize(c, k).Some? && PayloadSize(c, k).value > 0
    ensures Unit(c, k).Some? && Unit(c, k).value in {0x100, 0x200, 0x300} && Unit(c, k + 1).Some?
    ensures Unit(c, k).value == 0x100 ==> PayloadSize(c, k).value == 4 + Unit(c, k + 1).value * 2
    ensures Unit(c, k).value == 0x200 ==> PayloadSize(c, k).value == 2 + Unit(c, k + 1).value * 4
    ensures Unit(c, k).value == 0x300 ==> (Unit(c, k + 2).Some? && Unit(c, k + 3).Some? &&
      PayloadSize(c, k).value ==
        4 + ((Unit(c, k + 2).value + Unit(c, k + 3).value * 0x1_0000) * Unit(c, k + 1).value + 1) / 2)
    ensures Unit(c, k).value == 0x300 ==> PayloadSize(c, k).value >= 4
  {
    PayloadReads(c, k);
    hide Uint16At, Uint32At, Unit;
    if Unit(c, k).value == 0x300 {
      NotNegative(Uint32At(c.bytes, c.off + k * 2 + 4).value, Unit(c, k + 1).value);
    }
  }

  lemma NotPayload(c: Code, k: nat)
    requires Unit(c, k).Some?
    ensures Unit(c, k).value !in {0x100, 0x200, 0x300} ==> PayloadSize(c, k) == Some(0)
    ensures Unit(c, k).value in {0x100, 0x200, 0x300} ==> PayloadSize(c, k) != Some(0)
  {
    if Unit(c, k).value == 0x300 {
      var width, n := Uint16At(c.bytes, c.off + k * 2 + 2), Uint32At(c.bytes, c.off + k * 2 + 4);
      if width.Some? && n.Some? {
        NotNegative(n.value, width.value);
      }
    }
  }

  lemma NotNegative(m: nat, n: nat)
    ensures (m * n + 1) / 2 >= 0
  {
  }

  /** Payload sizes agree where the units they are read off do. */
  lemma SamePayloadSize(a: Code, b: Code, pos: nat, m: nat, n: nat)
    requires PayloadSize(a, pos) == Some(m) && PayloadSize(b, pos) == Some(n) && m > 0 && n > 0
    requires forall k :: pos <= k < pos + (if Unit(a, pos) == Some(0x300) then 4 else 2) ==> Unit(a, k) == Unit(b, k)
    ensures m == n
  {
    PayloadSizeOf(a, pos);
    PayloadSizeOf(b, pos);
    assert Unit(a, pos) == Unit(b, pos) && Unit(a, pos + 1) == Unit(b, pos + 1);
    if Unit(a, pos) == Some(0x300) {
      assert Unit(a, pos + 2) == Unit(b, pos + 2) && Unit(a, pos + 3) == Unit(b, pos + 3);
    }
  }

  lemma ItemKind(c: Code, pos: nat, item: Item)
    requires ItemAt(c, pos) == Some(item)
    ensures Unit(c, pos).Some?
    ensures if Unit(c, pos).value in {0x100, 0x200, 0x300} then
              item.Payload? && PayloadSize(c, pos) == Some(item.units) && item.units > 0
            else item == Insn(Unit(c, pos).value % 0x100)
  {
    NotPayload(c, pos);
  }

  lemma PayloadReaches(c: Code, pos: nat)
    requires PayloadSize(c, pos).Some? && PayloadSize(c, pos).value > 0
    ensures PayloadSize(c, pos).value >= (if Unit(c, pos) == Some(0x300) then 4 else 2)
  {
    PayloadSizeOf(c, pos);
  }

  lemma SameWordSameUnit(a: Code, pa: Pools, m: nat, b: Code, pb: Pools, n: nat, pos: nat, k: nat)
    requires ItemWords(a, pa, pos, Payload(m)).Some? && ItemWords(b, pb, pos, Payload(n)).Some? && k < m && k < n
    ensures |ItemWords(a, pa, pos, Payload(m)).value| == m && |ItemWords(b, pb, pos, Payload(n)).value| == n
    ensures ItemWords(a, pa, pos, Payload(m)).value[k] == ItemWords(b, pb, pos, Payload(n)).value[k] ==>
      Unit(a, pos + k) == Unit(b, pos + k)
  {
    hide ItemWords, Unit, Decimal;
    var v, w := ItemWords(a, pa, pos, Payload(m)).value, ItemWords(b, pb, pos, Payload(n)).value;
    PayloadWord(a, pa, pos, m, k);
    PayloadWord(b, pb, pos, n, k);
    if v[k] == w[k] {
      DecimalInjective(Unit(a, pos + k).value, Unit(b, pos + k).value);
    }
  }

  /** Payloads whose words agree as far as both go have the same size. */
  lemma SamePayload(a: Code, pa: Pools, m: nat, b: Code, pb: Pools, n: nat, pos: nat)
    requires PayloadSize(a, pos) == Some(m) && PayloadSize(b, pos) == Some(n) && m > 0 && n > 0
    requires ItemWords(a, pa, pos, Payload(m)).Some? && ItemWords(b, pb, pos, Payload(n)).Some?
    requires var v, w := ItemWords(a, pa, pos, Payload(m)).value, ItemWords(b, pb, pos, Payload(n)).value;
      forall k :: 0 <= k < |v| && k < |w| ==> v[k] == w[k]
    ensures m == n
  {
    hide ItemWords, Unit, PayloadSize;
    PayloadReaches(a, pos);
    PayloadReaches(b, pos);
    SameWordSameUnit(a, pa, m, b, pb, n, pos, 0);
    forall k | pos <= k < pos + (if Unit(a, pos) == Some(0x300) then 4 else 2)
      ensures Unit(a, k) == Unit(b, k)
    {
      SameWordSameUnit(a, pa, m, b, pb, n, pos, k - pos);
    }
    SamePayloadSize(a, b, pos, m, n);
  }

  /** Words that begin alike come from the same item. */
  lemma SameFirstItem(a: Code, pa: Pools, x: Item, b: Code, pb: Pools, y: Item, pos: nat, s: seq<string>,
                      t: seq<string>)
    requires ItemAt(a, pos) == Some(x) && ItemAt(b, pos) == Some(y)
    requires ItemWords(a, pa, pos, x).Some? && ItemWords(b, pb, pos, y).Some?
    requires ItemWords(a, pa, pos, x).value + s == ItemWords(b, pb, pos, y).value + t
    ensures x == y
  {
    hide ItemAt, ItemWords, Unit, PayloadSize, Decimal;
    var v, w := ItemWords(a, pa, pos, x).value, ItemWords(b, pb, pos, y).value;
    ItemKind(a, pos, x);
    ItemKind(b, pos, y);
    FirstWord(a, pa, pos, x);
    FirstWord(b, pb, pos, y);
    assert v[0] == (v + s)[0] == (w + t)[0] == w[0];
    DecimalInjective(Unit(a, pos).value, Unit(b, pos).value);
    if x.Payload? {
      forall k | 0 <= k < |v| && k < |w|
        ensures v[k] == w[k]
      {
        assert (v + s)[k] == (w + t)[k];
      }
      SamePayload(a, pa, x.units, b, pb, y.units, pos);
    }
  }

  /** The item at a unit, its words and the words after it. */
  lemma WordsStep(c: Code, pools: Pools, pos: nat) returns (item: Item, w: seq<string>, rest: seq<string>)
    requires pos < c.size && Words(c, pools, pos).Some?
    ensures ItemAt(c, pos) == Some(item) && ItemWords(c, pools, pos, item) == Some(w) && |w| > 0
    ensures Words(c, pools, pos + ItemWidth(item)) == Some(rest) && Words(c, pools, pos) == Some(w + rest)
  {
    hide ItemAt, ItemWidth, ItemWords;
    item := ItemAt(c, pos).value;
    w := ItemWords(c, pools, pos, item).value;
    rest := Words(c, pools, pos + ItemWidth(item)).value;
    FirstWord(c, pools, pos, item);
  }

  /** The words of two streams are the same exactly when the streams read alike. */
  lemma {:induction false} WordsExactly(a: Code, pa: Pools, b: Code, pb: Pools, pos: nat)
    requires Words(a, pa, pos).Some? && Words(b, pb, pos).Some?
    ensures Words(a, pa, pos) == Words(b, pb, pos) <==> Alike(a, pa, b, pb, pos)
    decreases a.size - pos
  {
    hide ItemAt, ItemWidth, ItemWords, AlikeItem;
    if pos >= a.size && pos >= b.size {
    } else if pos >= a.size {
      var _, _, _ := WordsStep(b, pb, pos);
    } else if pos >= b.size {
      var _, _, _ := WordsStep(a, pa, pos);
    } else {
      var x, v, s := WordsStep(a, pa, pos);
      var y, w, t := WordsStep(b, pb, pos);
      if x == y {
        ItemExactly(a, pa, b, pb, pos, x, s, t);
        WordsExactly(a, pa, b, pb, pos + ItemWidth(x));
      } else if v + s == w + t {
        SameFirstItem(a, pa, x, b, pb, y, pos, s, t);
      }
    }
  }

  // -- Renumbered pools ----------------------------------------------------------------

  /** Where each pool's entries have moved to. */
  datatype Renumber = Renumber(index: (PoolKind, nat) -> nat)

  /** Every entry is found again under its new number; call sites and method handles keep theirs. */
  ghost predicate Moved(r: Renumber, pa: Pools, pb: Pools) {
    && (forall i: nat :: i < |pa.strings| ==> MovedEntry(pa.strings, pb.strings, i, r.index(StringPool, i)))
    && (forall i: nat :: i < |pa.types| ==> MovedEntry(pa.types, pb.types, i, r.index(TypePool, i)))
    && (forall i: nat :: i < |pa.fields| ==> MovedEntry(pa.fields, pb.fields, i, r.index(FieldPool, i)))
    && (forall i: nat :: i < |pa.methods| ==> MovedEntry(pa.methods, pb.methods, i, r.index(MethodPool, i)))
    && (forall i: nat :: i < |pa.protos| ==> MovedEntry(pa.protos, pb.protos, i, r.index(ProtoPool, i)))
    && (forall i: nat :: r.index(CallSitePool, i) == i && r.index(MethodHandlePool, i) == i)
  }

  predicate MovedEntry<T(==)>(old_: seq<T>, new_: seq<T>, i: nat, j: nat)
    requires i < |old_|
  {
    j < |new_| && new_[j] == old_[i]
  }

  /** The instruction's constants have been renumbered and nothing else has changed. */
  predicate RenumberedInsn(r: Renumber, a: Code, b: Code, pos: nat, op: nat) {
    && (forall k :: 0 <= k < Units(op) && Bare(op, k) ==>
        Unit(a, pos + k).Some? && Unit(b, pos + k) == Unit(a, pos + k))
    && (forall ref :: ref in Constants(op) ==> RenumberedIndex(r, a, b, pos + ref.unitOffset, ref))
  }

  predicate RenumberedIndex(r: Renumber, a: Code, b: Code, k: nat, ref: PoolRef) {
    var index := Index(a, k, ref.is32Bit);
    index.Some? && Index(b, k, ref.is32Bit) == Some(r.index(ref.pool, index.value))
  }

  /** How many units an item takes by its format. */
  function UnitsIn(item: Item): nat {
    match item case Payload(n) => n case Insn(op) => Units(op)
  }

  lemma UnitsInExactly(item: Item)
    requires item.Insn? ==> item.opcode < 256
    ensures UnitsIn(item) == ItemWidth(item)
  {
    if item.Insn? {
      SizesExactly(item.opcode);
    }
  }

  /** The streams differ only in that every pool index has been renumbered. */
  predicate Renumbered(r: Renumber, a: Code, b: Code, pos: nat)
    requires a.size == b.size
    decreases a.size - pos
  {
    pos >= a.size ||
    (var item := ItemAt(a, pos);
     item.Some? && RenumberedItem(r, a, b, pos, item.value) &&
     (UnitsIn(item.value) == 0 || Renumbered(r, a, b, pos + UnitsIn(item.value))))
  }

  predicate RenumberedItem(r: Renumber, a: Code, b: Code, pos: nat, item: Item) {
    match item case Payload(n) => SameUnits(a, b, pos, n) case Insn(op) => RenumberedInsn(r, a, b, pos, op)
  }

  lemma ResolveMoved(r: Renumber, pa: Pools, pb: Pools, pool: PoolKind, i: nat)
    requires Moved(r, pa, pb) && Resolve(pa, pool, i).Some?
    ensures Resolve(pb, pool, r.index(pool, i)) == Resolve(pa, pool, i)
  {
    match pool
    case StringPool => assert MovedEntry(pa.strings, pb.strings, i, r.index(pool, i));
    case TypePool => assert MovedEntry(pa.types, pb.types, i, r.index(pool, i));
    case FieldPool => assert MovedEntry(pa.fields, pb.fields, i, r.index(pool, i));
    case MethodPool => assert MovedEntry(pa.methods, pb.methods, i, r.index(pool, i));
    case ProtoPool => assert MovedEntry(pa.protos, pb.protos, i, r.index(pool, i));
    case _ =>
  }

  lemma OperandMoved(r: Renumber, a: Code, pa: Pools, b: Code, pb: Pools, k: nat, ref: PoolRef)
    requires Moved(r, pa, pb) && OperandWord(a, pa, k, ref).Some?
    requires Index(b, k, ref.is32Bit) == Some(r.index(ref.pool, Index(a, k, ref.is32Bit).value))
    ensures OperandWord(b, pb, k, ref) == OperandWord(a, pa, k, ref)
  {
    ResolveMoved(r, pa, pb, ref.pool, Index(a, k, ref.is32Bit).value);
  }

  lemma {:induction false} RenumberedInsnSame(r: Renumber, a: Code, pa: Pools, b: Code, pb: Pools, pos: nat, op: nat,
                                              i: nat)
    requires op < 256 && Moved(r, pa, pb) && RenumberedInsn(r, a, b, pos, op) && !Within(op, i)
    requires InsnWords(a, pa, pos, op, i).Some?
    ensures AlikeInsn(a, pa, b, pb, pos, op, i) && InsnWords(b, pb, pos, op, i) == InsnWords(a, pa, pos, op, i)
    decreases OpcodeSize(op) - i
  {
    hide OpcodeSize, IndexInfo, OperandWord, Moved, Bare, Within, Constants, Index, Unit, Units;
    if i < OpcodeSize(op) {
      UnitIs(op, i);
      var ref := RefAt(IndexInfo(op), i);
      if ref.None? {
        assert Unit(a, pos + i).Some? && Unit(b, pos + i) == Unit(a, pos + i);
      } else {
        assert RenumberedIndex(r, a, b, pos + i, ref.value);
        OperandWordIndex(a, pa, pos + i, ref.value);
        OperandMoved(r, a, pa, b, pb, pos + i, ref.value);
      }
      RenumberedInsnSame(r, a, pa, b, pb, pos, op, i + OperandSize(ref));
    }
  }

  lemma OperandWordIndex(c: Code, pools: Pools, k: nat, ref: PoolRef)
    requires OperandWord(c, pools, k, ref).Some?
    ensures Index(c, k, ref.is32Bit).Some?
  {
  }

  lemma {:induction false} SameUnitsWords(a: Code, b: Code, pos: nat, n: nat)
    requires SameUnits(a, b, pos, n)
    ensures RawWords(b, pos, n) == RawWords(a, pos, n)
    decreases n
  {
    if n > 0 {
      SameUnitsWords(a, b, pos + 1, n - 1);
    }
  }

  /** The renumbered stream has the same item in the same place. */
  lemma RenumberedItemStays(r: Renumber, a: Code, b: Code, pos: nat, item: Item)
    requires ItemAt(a, pos) == Some(item) && RenumberedItem(r, a, b, pos, item)
    ensures ItemAt(b, pos) == Some(item)
  {
    ItemKind(a, pos, item);
    if item.Payload? {
      PayloadSizeOf(a, pos);
      PayloadUnits(a, b, pos, item.units);
    } else {
      BareFirst(item.opcode);
      assert Unit(b, pos + 0) == Unit(a, pos + 0);
      NotPayload(b, pos);
    }
  }

  lemma PayloadUnits(a: Code, b: Code, pos: nat, n: nat)
    requires PayloadSize(a, pos) == Some(n) && n > 0 && SameUnits(a, b, pos, n)
    ensures PayloadSize(b, pos) == Some(n) && Unit(b, pos) == Unit(a, pos)
  {
    PayloadSizeOf(a, pos);
    assert Unit(b, pos) == Unit(a, pos) && Unit(b, pos + 1) == Unit(a, pos + 1);
    if Unit(a, pos) == Some(0x300) {
      assert Unit(b, pos + 2) == Unit(a, pos + 2) && Unit(b, pos + 3) == Unit(a, pos + 3);
      assert b.off + (pos + 3) * 2 == b.off + pos * 2 + 6;
    }
    PayloadSizeDefined(b, pos);
    NotPayload(b, pos);
    SamePayloadSize(a, b, pos, n, PayloadSize(b, pos).value);
  }

  lemma PayloadSizeDefined(c: Code, k: nat)
    requires Unit(c, k).Some? && Unit(c, k + 1).Some?
    requires Unit(c, k) == Some(0x300) ==> Unit(c, k + 3).Some?
    ensures PayloadSize(c, k).Some?
  {
    assert c.off + (k + 1) * 2 == c.off + k * 2 + 2 && c.off + (k + 3) * 2 == c.off + k * 2 + 6;
    if Unit(c, k) == Some(0x300) {
      var width, n := Uint16At(c.bytes, c.off + k * 2 + 2), Uint32At(c.bytes, c.off + k * 2 + 4);
      NotNegative(n.value, width.value);
    }
  }

  lemma RenumberedItemSame(r: Renumber, a: Code, pa: Pools, b: Code, pb: Pools, pos: nat, item: Item)
    requires item.Insn? ==> item.opcode < 256
    requires Moved(r, pa, pb) && RenumberedItem(r, a, b, pos, item) && ItemWords(a, pa, pos, item).Some?
    ensures AlikeItem(a, pa, b, pb, pos, item) && ItemWords(b, pb, pos, item) == ItemWords(a, pa, pos, item)
  {
    match item
    case Payload(n) => SameUnitsWords(a, b, pos, n);
    case Insn(op) => BareFirst(op); RenumberedInsnSame(r, a, pa, b, pb, pos, op, 0);
  }

  lemma ItemMoves(c: Code, pos: nat, item: Item)
    requires ItemAt(c, pos) == Some(item)
    ensures ItemWidth(item) >= 1
  {
  }

  lemma {:induction false} RenumberedSame(r: Renumber, a: Code, pa: Pools, b: Code, pb: Pools, pos: nat)
    requires a.size == b.size && Moved(r, pa, pb) && Renumbered(r, a, b, pos)
    requires Words(a, pa, pos).Some?
    ensures Alike(a, pa, b, pb, pos) && Words(b, pb, pos) == Words(a, pa, pos)
    decreases a.size - pos
  {
    hide ItemAt, ItemWidth, ItemWords, AlikeItem, RenumberedItem, Moved, UnitsIn;
    if pos < a.size {
      var item := ItemAt(a, pos).value;
      ItemMoves(a, pos, item);
      UnitsInExactly(item);
      RenumberedItemStays(r, a, b, pos, item);
      RenumberedItemSame(r, a, pa, b, pb, pos, item);
      RenumberedSame(r, a, pa, b, pb, pos + ItemWidth(item));
    }
  }

  /** Code whose pools have been reordered, and its indices with them, has the same canonical text. */
  lemma RenumberingInvariant(r: Renumber, a: Code, pa: Pools, b: Code, pb: Pools)
    requires a.size == b.size && Moved(r, pa, pb) && Renumbered(r, a, b, 0)
    requires Canonical(a, pa).Some?
    ensures Canonical(b, pb) == Canonical(a, pa)
  {
    RenumberedSame(r, a, pa, b, pb, 0);
  }
}
