/** What equal canonical text says about two methods: that they read alike, unless an operand of
    the one is mistaken for an operand of the other and what follows it; and when it says that
    they mean the same. */
module Faithful {
  import opened Bytes
  import opened Text
  import opened OpcodeTable
  import opened Canonicalizer
  import opened Renumbering
  import opened Formats
  import opened Meaning
  import opened Separators
  import opened Building

  // -- Where two texts are misread ---------------------------------------------------------

  /** An operand: the unit where its instruction starts, the opcode, and its unit in the instruction. */
  datatype Point = Point(pos: nat, opcode: nat, unit: nat)

  function RefOf(d: Point): Option<PoolRef> {
    if d.opcode < 256 then RefAt(IndexInfo(d.opcode), d.unit) else None
  }

  /** The operands there read differently, but the same with what follows each. */
  predicate MisreadAt(a: Code, pa: Pools, b: Code, pb: Pools, d: Point) {
    var ref := RefOf(d);
    && ref.Some?
    && var x, y := OperandWord(a, pa, d.pos + d.unit, ref.value), OperandWord(b, pb, d.pos + d.unit, ref.value);
    var next := d.unit + OperandSize(ref);
    var s, t := TailAt(a, pa, d.pos, d.opcode, next), TailAt(b, pb, d.pos, d.opcode, next);
    && x.Some? && y.Some? && s.Some? && t.Some?
    && Misread(x.value, Canonicalizer.Spell(s.value), y.value, Canonicalizer.Spell(t.value))
  }

  lemma SameWordCut(x: string, y: string, s: string, t: string)
    requires x + "," + s == y + "," + t && (x == y || (Delimited(x) && Delimited(y)))
    ensures x == y && s == t
  {
    if x == y {
      var l, r := x + "," + s, y + "," + t;
      assert s == l[|x| + 1..] && t == r[|y| + 1..];
    } else {
      CutOnce(x, y, 0, s, t);
    }
  }

  /** The first word of the rest of an instruction, and the rest after it. */
  lemma TailStep(c: Code, pools: Pools, pos: nat, op: nat, i: nat) returns (w: string)
    requires op < 256 && i < OpcodeSize(op) && TailAt(c, pools, pos, op, i).Some?
    ensures var ref := RefAt(IndexInfo(op), i); var rest := TailAt(c, pools, pos, op, i + OperandSize(ref));
      && rest.Some?
      && Some(w) == (if ref.None? then UnitWord(c, pos + i) else OperandWord(c, pools, pos + i, ref.value))
      && Canonicalizer.Spell(TailAt(c, pools, pos, op, i).value) == w + "," + Canonicalizer.Spell(rest.value)
  {
    hide OpcodeSize, IndexInfo, Words, Resolve, Canonicalizer.Spell;
    var ref := RefAt(IndexInfo(op), i);
    var word := if ref.None? then UnitWord(c, pos + i) else OperandWord(c, pools, pos + i, ref.value);
    w := word.value;
    var xs, s := InsnWords(c, pools, pos, op, i + OperandSize(ref)).value, Words(c, pools, pos + OpcodeSize(op)).value;
    assert InsnWords(c, pools, pos, op, i).value == [w] + xs;
    SpellHead(w, xs, s);
  }

  /** One word of the instruction is the same in both. */
  predicate AlikeAt(a: Code, pa: Pools, b: Code, pb: Pools, pos: nat, op: nat, i: nat) {
    var ref := RefAt(IndexInfo(op), i);
    if ref.None? then Unit(a, pos + i).Some? && Unit(b, pos + i) == Unit(a, pos + i)
    else
      var word := OperandWord(a, pa, pos + i, ref.value);
      word.Some? && OperandWord(b, pb, pos + i, ref.value) == word
  }

  lemma AlikeFrom(a: Code, pa: Pools, b: Code, pb: Pools, pos: nat, op: nat, i: nat)
    requires op < 256 && i < OpcodeSize(op) && AlikeAt(a, pa, b, pb, pos, op, i)
    requires AlikeInsn(a, pa, b, pb, pos, op, i + OperandSize(RefAt(IndexInfo(op), i)))
    ensures AlikeInsn(a, pa, b, pb, pos, op, i)
  {
    hide OpcodeSize, IndexInfo, OperandWord, Unit;
  }

  lemma WordCut(a: Code, pa: Pools, b: Code, pb: Pools, pos: nat, op: nat, i: nat)
    requires op < 256 && i < OpcodeSize(op) && TailAt(a, pa, pos, op, i).Some? && TailAt(b, pb, pos, op, i).Some?
    requires Canonicalizer.Spell(TailAt(a, pa, pos, op, i).value) ==
      Canonicalizer.Spell(TailAt(b, pb, pos, op, i).value)
    ensures var next := i + OperandSize(RefAt(IndexInfo(op), i));
      var s, t := TailAt(a, pa, pos, op, next), TailAt(b, pb, pos, op, next);
      && s.Some? && t.Some?
      && (MisreadAt(a, pa, b, pb, Point(pos, op, i)) ||
          (AlikeAt(a, pa, b, pb, pos, op, i) && Canonicalizer.Spell(s.value) == Canonicalizer.Spell(t.value)))
  {
    hide OpcodeSize, IndexInfo, Canonicalizer.Spell, UnitWord, OperandWord, Delimited, TailAt;
    var ref := RefAt(IndexInfo(op), i);
    var x := TailStep(a, pa, pos, op, i);
    var y := TailStep(b, pb, pos, op, i);
    var s, t := TailAt(a, pa, pos, op, i + OperandSize(ref)).value, TailAt(b, pb, pos, op, i + OperandSize(ref)).value;
    UnitWordSome(a, pos + i);
    UnitWordSome(b, pos + i);
    if ref.None? {
      UnitDelimited(a, pos + i);
      UnitDelimited(b, pos + i);
      UnitWordExactly(a, b, pos + i);
    }
    if ref.None? || x == y {
      SameWordCut(x, y, Canonicalizer.Spell(s), Canonicalizer.Spell(t));
    }
  }

  /** The words of an instruction agree one by one, unless an operand is misread. */
  lemma {:induction false} InsnCut(a: Code, pa: Pools, b: Code, pb: Pools, pos: nat, op: nat, i: nat)
      returns (d: Option<Point>)
    requires op < 256 && i <= OpcodeSize(op) && TailAt(a, pa, pos, op, i).Some? && TailAt(b, pb, pos, op, i).Some?
    requires Canonicalizer.Spell(TailAt(a, pa, pos, op, i).value) ==
      Canonicalizer.Spell(TailAt(b, pb, pos, op, i).value)
    ensures d.None? ==> AlikeInsn(a, pa, b, pb, pos, op, i)
    ensures d.None? ==> EqualAfter(a, pa, b, pb, pos + OpcodeSize(op))
    ensures d.Some? ==>
      MisreadAt(a, pa, b, pb, d.value) && d.value.pos == pos && d.value.opcode == op && i <= d.value.unit
    decreases OpcodeSize(op) - i
  {
    hide OpcodeSize, IndexInfo, Canonicalizer.Spell, MisreadAt, AlikeAt, AlikeInsn, TailAt, EqualAfter;
    d := None;
    if i == OpcodeSize(op) {
      InsnDone(a, pa, b, pb, pos, op);
    } else {
      OperandFits(op, i);
      WordCut(a, pa, b, pb, pos, op, i);
      if MisreadAt(a, pa, b, pb, Point(pos, op, i)) {
        d := Some(Point(pos, op, i));
      } else {
        d := InsnCut(a, pa, b, pb, pos, op, i + OperandSize(RefAt(IndexInfo(op), i)));
        if d.None? {
          AlikeFrom(a, pa, b, pb, pos, op, i);
        }
      }
    }
  }

  /** The texts from a unit on are there and equal. */
  predicate EqualAfter(a: Code, pa: Pools, b: Code, pb: Pools, pos: nat) {
    && Words(a, pa, pos).Some? && Words(b, pb, pos).Some?
    && Canonicalizer.Spell(Words(a, pa, pos).value) == Canonicalizer.Spell(Words(b, pb, pos).value)
  }

  lemma InsnDone(a: Code, pa: Pools, b: Code, pb: Pools, pos: nat, op: nat)
    requires op < 256
    requires TailAt(a, pa, pos, op, OpcodeSize(op)).Some? && TailAt(b, pb, pos, op, OpcodeSize(op)).Some?
    requires Canonicalizer.Spell(TailAt(a, pa, pos, op, OpcodeSize(op)).value) ==
      Canonicalizer.Spell(TailAt(b, pb, pos, op, OpcodeSize(op)).value)
    ensures AlikeInsn(a, pa, b, pb, pos, op, OpcodeSize(op)) && EqualAfter(a, pa, b, pb, pos + OpcodeSize(op))
  {
    hide OpcodeSize, Words, Canonicalizer.Spell;
    AppendNothing(Words(a, pa, pos + OpcodeSize(op)));
    AppendNothing(Words(b, pb, pos + OpcodeSize(op)));
  }

  lemma UnitWordSome(c: Code, k: nat)
    ensures UnitWord(c, k).Some? <==> Unit(c, k).Some?
  {
  }

  lemma OperandFits(op: nat, i: nat)
    requires op < 256 && i < OpcodeSize(op)
    ensures i + OperandSize(RefAt(IndexInfo(op), i)) <= OpcodeSize(op)
  {
    if RefAt(IndexInfo(op), i).Some? {
      RefsFit(op, i);
    }
  }

  lemma FirstCut(a: Code, pa: Pools, x: Item, b: Code, pb: Pools, y: Item, pos: nat, s: seq<string>, t: seq<string>)
    requires ItemAt(a, pos) == Some(x) && ItemAt(b, pos) == Some(y)
    requires ItemWords(a, pa, pos, x).Some? && ItemWords(b, pb, pos, y).Some?
    requires Canonicalizer.Spell(ItemWords(a, pa, pos, x).value + s) ==
      Canonicalizer.Spell(ItemWords(b, pb, pos, y).value + t)
    ensures Unit(a, pos).Some? && Unit(b, pos) == Unit(a, pos)
  {
    hide ItemAt, ItemWords, Canonicalizer.Spell, Decimal, Delimited;
    var v, w := ItemWords(a, pa, pos, x).value, ItemWords(b, pb, pos, y).value;
    FirstWord(a, pa, pos, x);
    FirstWord(b, pb, pos, y);
    ItemKind(a, pos, x);
    ItemKind(b, pos, y);
    UnitDelimited(a, pos);
    UnitDelimited(b, pos);
    assert v == [v[0]] + v[1..] && w == [w[0]] + w[1..];
    SpellHead(v[0], v[1..], s);
    SpellHead(w[0], w[1..], t);
    CutOnce(v[0], w[0], 0, Canonicalizer.Spell(v[1..] + s), Canonicalizer.Spell(w[1..] + t));
    DecimalInjective(Unit(a, pos).value, Unit(b, pos).value);
  }

  /** Texts that are equal begin with the same item. */
  lemma SameItemCut(a: Code, pa: Pools, x: Item, b: Code, pb: Pools, y: Item, pos: nat, s: seq<string>, t: seq<string>)
    requires ItemAt(a, pos) == Some(x) && ItemAt(b, pos) == Some(y)
    requires ItemWords(a, pa, pos, x).Some? && ItemWords(b, pb, pos, y).Some?
    requires Canonicalizer.Spell(ItemWords(a, pa, pos, x).value + s) ==
      Canonicalizer.Spell(ItemWords(b, pb, pos, y).value + t)
    ensures x == y
    ensures x.Payload? ==> SameUnits(a, b, pos, x.units) && Canonicalizer.Spell(s) == Canonicalizer.Spell(t)
  {
    hide ItemAt, Canonicalizer.Spell, Unit, PayloadSize, Decimal, InsnWords, RawWords, Delimited;
    var v, w := ItemWords(a, pa, pos, x).value, ItemWords(b, pb, pos, y).value;
    ItemKind(a, pos, x);
    ItemKind(b, pos, y);
    FirstCut(a, pa, x, b, pb, y, pos, s, t);
    if x.Payload? {
      RawDelimited(a, pos, x.units);
      RawDelimited(b, pos, y.units);
      CutCommon(v, s, w, t);
      SamePayload(a, pa, x.units, b, pb, y.units, pos);
      SameWordSameUnit(a, pa, x.units, b, pb, y.units, pos, 0);
      RawExactly(a, b, pos, x.units, [], []);
      assert v + [] == v && w + [] == w;
    }
  }

  /** The point is an operand of an instruction that the walk comes to in both streams. */
  predicate Reached(a: Code, b: Code, pos: nat, d: Point)
    decreases a.size - pos
  {
    && pos < a.size && pos < b.size
    && var item := ItemAt(a, pos);
    && item.Some? && ItemAt(b, pos) == item
    && if pos == d.pos then item.value == Insn(d.opcode) else Reached(a, b, pos + ItemWidth(item.value), d)
  }

  /** Streams with equal text read alike, or an operand in them is misread. */
  lemma {:induction false} TextCut(a: Code, pa: Pools, b: Code, pb: Pools, pos: nat) returns (d: Option<Point>)
    requires EqualAfter(a, pa, b, pb, pos)
    ensures d.None? ==> Alike(a, pa, b, pb, pos)
    ensures d.Some? ==> MisreadAt(a, pa, b, pb, d.value) && Reached(a, b, pos, d.value) && d.value.pos >= pos
    decreases a.size - pos
  {
    hide ItemAt, ItemWidth, AlikeItem, MisreadAt, EqualAfter;
    d := None;
    if pos >= a.size || pos >= b.size {
      TextEnds(a, pa, b, pb, pos);
    } else {
      var x;
      x, d := ItemCut(a, pa, b, pb, pos);
      if d.None? {
        d := TextCut(a, pa, b, pb, pos + ItemWidth(x));
      }
    }
  }

  /** One item of both streams. */
  lemma ItemCut(a: Code, pa: Pools, b: Code, pb: Pools, pos: nat) returns (x: Item, d: Option<Point>)
    requires pos < a.size && pos < b.size && EqualAfter(a, pa, b, pb, pos)
    ensures ItemAt(a, pos) == Some(x) == ItemAt(b, pos) && ItemWidth(x) >= 1
    ensures d.None? ==> AlikeItem(a, pa, b, pb, pos, x) && EqualAfter(a, pa, b, pb, pos + ItemWidth(x))
    ensures d.Some? ==> MisreadAt(a, pa, b, pb, d.value) && d.value.pos == pos && x == Insn(d.value.opcode)
  {
    hide ItemAt, ItemWords, Canonicalizer.Spell, MisreadAt, OpcodeSize, SameUnits, AlikeInsn, TailAt, Words;
    var v, s;
    x, v, s := WordsStep(a, pa, pos);
    var y, w, t := WordsStep(b, pb, pos);
    ItemMoves(a, pos, x);
    SameItemCut(a, pa, x, b, pb, y, pos, s, t);
    d := None;
    if x.Insn? {
      InsnTail(a, pa, pos, x.opcode);
      InsnTail(b, pb, pos, x.opcode);
      d := InsnCut(a, pa, b, pb, pos, x.opcode, 0);
    }
  }

  lemma InsnTail(c: Code, pools: Pools, pos: nat, op: nat)
    requires pos < c.size && ItemAt(c, pos) == Some(Insn(op)) && Words(c, pools, pos).Some? && op < 256
    ensures TailAt(c, pools, pos, op, 0) == Words(c, pools, pos)
  {
    hide ItemAt, InsnWords;
  }

  lemma TextEnds(a: Code, pa: Pools, b: Code, pb: Pools, pos: nat)
    requires (pos >= a.size || pos >= b.size) && EqualAfter(a, pa, b, pb, pos)
    ensures Alike(a, pa, b, pb, pos)
  {
    hide ItemAt, ItemWidth, ItemWords;
    if pos < a.size {
      var _, _, _ := WordsStep(a, pa, pos);
    }
    if pos < b.size {
      var _, _, _ := WordsStep(b, pb, pos);
    }
  }

  // -- For given methods: a condition on what their operands read as ---------------------------

  /** No operand of one method goes on after one of the other, in the same pool, with a comma and
      a number below 65536. */
  predicate NoneMistakable(pa: Pools, ua: Refs, pb: Pools, ub: Refs) {
    forall x, y :: x in ua && y in ub && x.0 == y.0 ==>
      Apart(Resolve(pa, x.0, x.1), Resolve(pb, y.0, y.1))
  }

  predicate Apart(v: Option<string>, w: Option<string>) {
    v.Some? && w.Some? ==> !Mistakable(v.value, w.value) && !Mistakable(w.value, v.value)
  }

  lemma TextFirst(c: Code, pools: Pools, pos: nat)
    requires Words(c, pools, pos).Some? && Canonicalizer.Spell(Words(c, pools, pos).value) != ""
    ensures IsNumeral(FirstField(Canonicalizer.Spell(Words(c, pools, pos).value)))
  {
    hide ItemAt, ItemWords, ItemWidth, Decimal, FirstField;
    var item, w, rest := WordsStep(c, pools, pos);
    FirstWord(c, pools, pos, item);
    ItemKind(c, pos, item);
    var u := Unit(c, pos).value;
    DecimalPlain(u);
    assert w == [w[0]] + w[1..];
    SpellHead(w[0], w[1..], rest);
    FieldOf(Decimal(u), Canonicalizer.Spell(w[1..] + rest));
  }

  lemma RefSeparate(op: nat, i: nat)
    requires op < 256 && RefAt(IndexInfo(op), i).Some?
    ensures var j := i + OperandSize(RefAt(IndexInfo(op), i));
      j == OpcodeSize(op) || (j < OpcodeSize(op) && RefAt(IndexInfo(op), j) == None)
  {
    RefsFit(op, i);
    RefAtMember(IndexInfo(op), i);
    var j := i + OperandSize(RefAt(IndexInfo(op), i));
    RefAtMember(IndexInfo(op), j);
    LongOnes(op);
  }

  lemma LongOnes(op: nat)
    requires op < 256
    ensures op == 0x1b ==> OpcodeSize(op) == 3
    ensures op == 0xfa || op == 0xfb ==> OpcodeSize(op) == 4
  {
    assert Row(1)[11] == 3 && Row(15)[10] == 4 && Row(15)[11] == 4;
  }

  /** What follows an operand begins with the text of a code unit, if with anything. */
  lemma TailFirst(c: Code, pools: Pools, pos: nat, op: nat, j: nat)
    requires op < 256 && TailAt(c, pools, pos, op, j).Some? &&
      Canonicalizer.Spell(TailAt(c, pools, pos, op, j).value) != ""
    requires j == OpcodeSize(op) || (j < OpcodeSize(op) && RefAt(IndexInfo(op), j) == None)
    ensures IsNumeral(FirstField(Canonicalizer.Spell(TailAt(c, pools, pos, op, j).value)))
  {
    hide OpcodeSize, IndexInfo, Words, Canonicalizer.Spell, FirstField, IsNumeral, UnitWord;
    if j == OpcodeSize(op) {
      AppendNothing(Words(c, pools, pos + j));
      TextFirst(c, pools, pos + j);
    } else {
      var w := TailStep(c, pools, pos, op, j);
      UnitFirst(c, pos + j, w, Canonicalizer.Spell(TailAt(c, pools, pos, op, j + 1).value));
    }
  }

  lemma UnitFirst(c: Code, k: nat, w: string, rest: string)
    requires UnitWord(c, k) == Some(w)
    ensures IsNumeral(FirstField(w + "," + rest))
  {
    hide FirstField, Decimal;
    DecimalPlain(Unit(c, k).value);
    FieldOf(w, rest);
  }

  lemma SwallowsMistakable(p: string, s: string, q: string, t: string)
    requires Swallows(p, s, q, t) && IsNumeral(FirstField(s))
    ensures Mistakable(p, q)
  {
    hide IsNumeral, FirstField;
    FieldCut(q[|p| + 1..], t);
  }

  lemma MisreadMistakable(p: string, s: string, q: string, t: string)
    requires Misread(p, s, q, t) && (s != "" ==> IsNumeral(FirstField(s))) && (t != "" ==> IsNumeral(FirstField(t)))
    ensures Mistakable(p, q) || Mistakable(q, p)
  {
    hide IsNumeral, FirstField, Mistakable;
    if |p| <= |q| {
      MisreadSwallows(p, s, q, t);
      SwallowsMistakable(p, s, q, t);
    } else {
      MisreadSwallows(q, t, p, s);
      SwallowsMistakable(q, t, p, s);
    }
  }

  lemma InsnUses(c: Code, pos: nat, op: nat, u: nat, x: nat)
    requires op < 256 && RefAt(IndexInfo(op), u).Some?
    requires Index(c, pos + u, RefAt(IndexInfo(op), u).value.is32Bit) == Some(x)
    ensures (RefAt(IndexInfo(op), u).value.pool, x) in UsedInsn(c, pos, op)
  {
    ReferencesExactly(op);
    RefAtMember(IndexInfo(op), u);
    hide IndexInfo, Constants, Index;
    var ref := RefAt(IndexInfo(op), u).value;
    assert ref in Constants(op) && ref.unitOffset == u;
  }

  lemma {:induction false} ReachedUses(a: Code, b: Code, pos: nat, d: Point)
    requires Reached(a, b, pos, d) && d.opcode < 256 && pos <= d.pos
    ensures UsedInsn(a, d.pos, d.opcode) <= Used(a, pos)
    ensures UsedInsn(b, d.pos, d.opcode) <= Used(b, pos)
    decreases a.size - pos
  {
    hide ItemAt, ItemWidth, UsedInsn, UnitsIn;
    if pos != d.pos {
      var item := ItemAt(a, pos).value;
      ItemMoves(a, pos, item);
      UnitsInExactly(item);
      ReachedLater(a, b, pos, d);
      ReachedUses(a, b, pos + ItemWidth(item), d);
    }
  }

  lemma ReachedLater(a: Code, b: Code, pos: nat, d: Point)
    requires Reached(a, b, pos, d) && pos < d.pos
    ensures ItemAt(a, pos).Some? && Reached(a, b, pos + ItemWidth(ItemAt(a, pos).value), d)
    ensures pos + ItemWidth(ItemAt(a, pos).value) <= d.pos
  {
    hide ItemAt, ItemWidth;
    ReachedBefore(a, b, pos + ItemWidth(ItemAt(a, pos).value), d);
  }

  lemma {:induction false} ReachedBefore(a: Code, b: Code, pos: nat, d: Point)
    requires Reached(a, b, pos, d)
    ensures pos <= d.pos
    decreases a.size - pos
  {
    hide ItemAt, ItemWidth;
    if pos != d.pos {
      var item := ItemAt(a, pos).value;
      ItemMoves(a, pos, item);
      ReachedBefore(a, b, pos + ItemWidth(item), d);
    }
  }

  /** The operands there go on one after the other with a comma and a number. */
  predicate MistakableAt(a: Code, pa: Pools, b: Code, pb: Pools, d: Point) {
    var ref := RefOf(d);
    && ref.Some?
    && var x, y := OperandWord(a, pa, d.pos + d.unit, ref.value), OperandWord(b, pb, d.pos + d.unit, ref.value);
    x.Some? && y.Some? && (Mistakable(x.value, y.value) || Mistakable(y.value, x.value))
  }

  lemma TailSpelled(c: Code, pools: Pools, pos: nat, op: nat, i: nat)
    requires op < 256 && RefAt(IndexInfo(op), i).Some?
    requires TailAt(c, pools, pos, op, i + OperandSize(RefAt(IndexInfo(op), i))).Some?
    ensures var s := Canonicalizer.Spell(TailAt(c, pools, pos, op, i + OperandSize(RefAt(IndexInfo(op), i))).value);
      s != "" ==> IsNumeral(FirstField(s))
  {
    hide OpcodeSize, IndexInfo, Canonicalizer.Spell, TailAt, IsNumeral, FirstField;
    RefSeparate(op, i);
    var next := i + OperandSize(RefAt(IndexInfo(op), i));
    if Canonicalizer.Spell(TailAt(c, pools, pos, op, next).value) != "" {
      TailFirst(c, pools, pos, op, next);
    }
  }

  lemma PointWords(a: Code, pa: Pools, b: Code, pb: Pools, d: Point)
    requires MisreadAt(a, pa, b, pb, d)
    ensures MistakableAt(a, pa, b, pb, d)
  {
    hide OpcodeSize, IndexInfo, OperandWord, Canonicalizer.Spell, TailAt, Mistakable, IsNumeral, FirstField, Misread;
    TailSpelled(a, pa, d.pos, d.opcode, d.unit);
    TailSpelled(b, pb, d.pos, d.opcode, d.unit);
    var ref, next := RefOf(d).value, d.unit + OperandSize(RefOf(d));
    var s, t := TailAt(a, pa, d.pos, d.opcode, next).value, TailAt(b, pb, d.pos, d.opcode, next).value;
    var x, y := OperandWord(a, pa, d.pos + d.unit, ref).value, OperandWord(b, pb, d.pos + d.unit, ref).value;
    MisreadMistakable(x, Canonicalizer.Spell(s), y, Canonicalizer.Spell(t));
  }

  lemma OperandUsed(c: Code, pools: Pools, pos: nat, op: nat, u: nat) returns (x: nat)
    requires op < 256 && RefAt(IndexInfo(op), u).Some? &&
      OperandWord(c, pools, pos + u, RefAt(IndexInfo(op), u).value).Some?
    ensures var ref := RefAt(IndexInfo(op), u).value;
      (ref.pool, x) in UsedInsn(c, pos, op) && Resolve(pools, ref.pool, x) == OperandWord(c, pools, pos + u, ref)
  {
    hide OpcodeSize, IndexInfo, UsedInsn, Resolve, Index;
    RefsFit(op, u);
    x := Index(c, pos + u, RefAt(IndexInfo(op), u).value.is32Bit).value;
    InsnUses(c, pos, op, u, x);
  }

  lemma MistakablePair(pa: Pools, ua: Refs, pb: Pools, ub: Refs, pool: PoolKind, i: nat, j: nat)
    requires (pool, i) in ua && (pool, j) in ub && !Apart(Resolve(pa, pool, i), Resolve(pb, pool, j))
    ensures !NoneMistakable(pa, ua, pb, ub)
  {
    hide Resolve, Apart;
    var x, y := (pool, i), (pool, j);
    assert x in ua && y in ub && x.0 == y.0;
  }

  lemma MistakableUsed(a: Code, pa: Pools, b: Code, pb: Pools, d: Point) returns (pool: PoolKind, i: nat, j: nat)
    requires MistakableAt(a, pa, b, pb, d)
    ensures (pool, i) in UsedInsn(a, d.pos, d.opcode) && (pool, j) in UsedInsn(b, d.pos, d.opcode)
    ensures !Apart(Resolve(pa, pool, i), Resolve(pb, pool, j))
  {
    hide OperandWord, IndexInfo, UsedInsn, Resolve, Mistakable;
    i := OperandUsed(a, pa, d.pos, d.opcode, d.unit);
    j := OperandUsed(b, pb, d.pos, d.opcode, d.unit);
    pool := RefOf(d).value.pool;
  }

  /** A misread operand goes on after the other, in the same pool, with a comma and a number. */
  lemma PointMistakable(a: Code, pa: Pools, b: Code, pb: Pools, d: Point)
    requires MisreadAt(a, pa, b, pb, d) && Reached(a, b, 0, d)
    ensures !NoneMistakable(pa, Used(a, 0), pb, Used(b, 0))
  {
    PointWords(a, pa, b, pb, d);
    assert d.opcode < 256;
    hide *;
    ReachedBefore(a, b, 0, d);
    ReachedUses(a, b, 0, d);
    var pool, i, j := MistakableUsed(a, pa, b, pb, d);
    MistakablePair(pa, Used(a, 0), pb, Used(b, 0), pool, i, j);
  }

  /** Two methods have the same canonical text exactly when they read alike, if no operand of the
      one goes on after one of the other with a comma and a number. */
  lemma TextExactly(a: Code, pa: Pools, b: Code, pb: Pools)
    requires Canonical(a, pa).Some? && Canonical(b, pb).Some?
    requires NoneMistakable(pa, Used(a, 0), pb, Used(b, 0))
    ensures Canonical(a, pa) == Canonical(b, pb) <==> Alike(a, pa, b, pb, 0)
  {
    hide Words, Used, NoneMistakable, Alike, MisreadAt, Reached;
    WordsExactly(a, pa, b, pb, 0);
    if Canonical(a, pa) == Canonical(b, pb) {
      var d := TextCut(a, pa, b, pb, 0);
      if d.Some? {
        PointMistakable(a, pa, b, pb, d.value);
      }
    }
  }

  /** And equal text says that they mean the same, where what they refer to denotes the same if
      it reads the same; unequal text that they do not, where it reads the same if it denotes the same. */
  lemma CanonicalExactly(a: Code, pa: Pools, b: Code, pb: Pools)
    requires Canonical(a, pa).Some? && Canonical(b, pb).Some?
    requires NoneMistakable(pa, Used(a, 0), pb, Used(b, 0))
    ensures Legible(pa, Used(a, 0), pb, Used(b, 0)) ==>
      (Canonical(a, pa) == Canonical(b, pb) ==> SameMeaning(a, pa, b, pb, 0))
    ensures Steady(pa, Used(a, 0), pb, Used(b, 0)) ==>
      (SameMeaning(a, pa, b, pb, 0) ==> Canonical(a, pa) == Canonical(b, pb))
  {
    hide Canonical, NoneMistakable, Alike, SameMeaning, Legible, Steady, Used;
    TextExactly(a, pa, b, pb);
    if Legible(pa, Used(a, 0), pb, Used(b, 0)) && Alike(a, pa, b, pb, 0) {
      AlikeMeans(a, pa, b, pb, 0);
    }
    if Steady(pa, Used(a, 0), pb, Used(b, 0)) && SameMeaning(a, pa, b, pb, 0) {
      MeansAlike(a, pa, b, pb, 0);
    }
  }

  /** Names without separators are never mistaken, nor strings without a field that is a number below 65536. */
  predicate NoNumerals(pools: Pools, used: Refs) {
    forall x :: x in used && x.0.StringPool? && x.1 < |pools.strings| ==> !HasNumeralField(pools.strings[x.1])
  }

  lemma PlainNoneMistakable(pa: Pools, ua: Refs, pb: Pools, ub: Refs)
    requires PlainNames(pa) && PlainNames(pb) && NoNumerals(pa, ua) && NoNumerals(pb, ub)
    ensures NoneMistakable(pa, ua, pb, ub)
  {
    hide PlainNames, HasNumeralField, Mistakable;
    forall x, y | x in ua && y in ub && x.0 == y.0
      ensures Apart(Resolve(pa, x.0, x.1), Resolve(pb, y.0, y.1))
    {
      var v, w := Resolve(pa, x.0, x.1), Resolve(pb, y.0, y.1);
      if v.Some? && w.Some? {
        if x.0.StringPool? {
          StringsApart(pa.strings[x.1], pb.strings[y.1]);
        } else {
          ResolvedDelimited(pa, x.0, x.1);
          ResolvedDelimited(pb, y.0, y.1);
          DelimitedApart(v.value, w.value);
          DelimitedApart(w.value, v.value);
        }
      }
    }
  }

  lemma StringsApart(p: string, q: string)
    requires !HasNumeralField(p) && !HasNumeralField(q)
    ensures !Mistakable("S:" + p, "S:" + q) && !Mistakable("S:" + q, "S:" + p)
  {
    hide HasNumeralField;
    if Mistakable("S:" + p, "S:" + q) {
      StringMistakable(p, q);
    }
    if Mistakable("S:" + q, "S:" + p) {
      StringMistakable(q, p);
    }
  }

  lemma StringMistakable(p: string, q: string)
    requires Mistakable("S:" + p, "S:" + q)
    ensures HasNumeralField(q)
  {
    hide IsNumeral, FirstField;
    var v, w := "S:" + p, "S:" + q;
    assert w[|v|] == (v + ",")[|v|] == ',' && q[|p|] == w[|v|];
    assert w[|v| + 1..] == q[|p| + 1..];
  }

  lemma DelimitedApart(v: string, w: string)
    requires Delimited(v) && Delimited(w)
    ensures !Mistakable(v, w)
  {
    hide IsNumeral, FirstField;
    if Mistakable(v, w) {
      var y := w[|v| + 1..];
      assert w == v + "," + y;
      assert v + "," + (y + "," + "") == w + "," + "";
      CutOnce(v, w, 0, y + "," + "", "");
    }
  }
}
