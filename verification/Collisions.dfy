/** Which pools mislead, where names have no separators in them, and methods that have the same
    text or different texts against their meaning. */
module Collisions {
  import opened Bytes
  import opened Text
  import opened OpcodeTable
  import opened Canonicalizer
  import opened Renumbering
  import opened Meaning
  import opened Separators
  import opened Building
  import opened FaithfulPools

  // -- Names without separators: only strings mislead -----------------------------------------

  /** A string of the second pools is one of the first, a comma and a beginning of a text over
      the first pools that goes on with a text over the second. */
  ghost predicate StringMisleads(pa: Pools, pb: Pools) {
    exists i, j, c, e :: StringMisleadsWith(pa, pb, i, j, c, e)
  }

  predicate StringMisleadsWith(pa: Pools, pb: Pools, i: nat, j: nat, c: Code, e: Code) {
    && i < 0x1_0000_0000 && j < 0x1_0000_0000 && i < |pa.strings| && j < |pb.strings|
    && Canonical(c, pa).Some? && Canonical(e, pb).Some?
    && Swallows(pa.strings[i], Canonical(c, pa).value, pb.strings[j], Canonical(e, pb).value)
  }

  lemma DelimitedNeverSwallow(v: string, s: string, w: string, t: string)
    requires Delimited(v) && Delimited(w)
    ensures !Swallows(v, s, w, t)
  {
    if Swallows(v, s, w, t) {
      SwallowsLonger(v, s, w, t);
      CutOnce(v, w, 0, s, t);
    }
  }

  lemma SwallowsHead(head: string, v: string, s: string, w: string, t: string)
    ensures Swallows(head + v, s, head + w, t) <==> Swallows(v, s, w, t)
  {
    if |v| < |w| {
      assert (head + w)[|head + v| + 1..] == w[|v| + 1..];
      assert head + w == head + v + "," + w[|v| + 1..] <==> w == v + "," + w[|v| + 1..] by {
        assert (head + w)[|head|..] == w && (head + v + "," + w[|v| + 1..])[|head|..] == v + "," + w[|v| + 1..];
      }
    }
  }

  /** A string operand is the last of its instruction: a text follows. */
  lemma StringLast(op: nat)
    requires op < 256 && IndexInfo(op) != [] && FirstRefOf(op).pool.StringPool?
    ensures op in {0x1a, 0x1b} && Span(op) == OpcodeSize(op)
  {
    assert Row(1)[10] == 2 && Row(1)[11] == 3;
  }

  lemma TextAfter(c: Code, pools: Pools, op: nat)
    requires op < 256 && IndexInfo(op) != [] && Span(op) == OpcodeSize(op)
    ensures TailAt(c, pools, 0, op, Span(op)) == Words(c, pools, OpcodeSize(op)) ==
      Words(Suffix(c, OpcodeSize(op)), pools, 0)
  {
    hide Words, IndexInfo, OpcodeSize, Suffix, Span;
    var n := OpcodeSize(op);
    AppendNothing(Words(c, pools, n));
    SuffixWords(c, pools, n);
  }

  lemma SuffixWords(c: Code, pools: Pools, k: nat)
    ensures Words(Suffix(c, k), pools, 0) == Words(c, pools, k)
  {
    if k <= c.size {
      SuffixTail(c, k);
      TailWords(Suffix(c, k), 0, c, k, pools);
    }
  }

  lemma MisleadsByString(pa: Pools, pb: Pools, op: nat, x: nat, y: nat, c: Code, e: Code)
    requires PlainNames(pa) && PlainNames(pb) && MisleadsWith(pa, pb, op, x, y, c, e)
    ensures StringMisleads(pa, pb)
  {
    hide PlainNames, IndexInfo, TailAt, Words, Canonicalizer.Spell, Swallows, Suffix, OpcodeSize;
    var pool := FirstRefOf(op).pool;
    var v, w := Resolve(pa, pool, x).value, Resolve(pb, pool, y).value;
    var s, t := TailAt(c, pa, 0, op, Span(op)).value, TailAt(e, pb, 0, op, Span(op)).value;
    if pool.StringPool? {
      StringLast(op);
      TextAfter(c, pa, op);
      TextAfter(e, pb, op);
      SwallowsHead("S:", pa.strings[x], Canonicalizer.Spell(s), pb.strings[y], Canonicalizer.Spell(t));
      assert StringMisleadsWith(pa, pb, x, y, Suffix(c, OpcodeSize(op)), Suffix(e, OpcodeSize(op)));
    } else {
      ResolvedDelimited(pa, pool, x);
      ResolvedDelimited(pb, pool, y);
      DelimitedNeverSwallow(v, Canonicalizer.Spell(s), w, Canonicalizer.Spell(t));
    }
  }

  lemma JumboInfo()
    ensures IndexInfo(0x1b) == [PoolRef(1, StringPool, true)] && FirstRefOf(0x1b) == PoolRef(1, StringPool, true)
    ensures Span(0x1b) == OpcodeSize(0x1b) == 3 && Limit(0x1b) == 0x1_0000_0000
  {
    assert Row(1)[11] == 3;
  }

  /** A string that misleads does so when it is loaded by the opcode with 32-bit indices. */
  lemma StringMisleadsBy(pa: Pools, pb: Pools, i: nat, j: nat, c: Code, e: Code)
    requires StringMisleadsWith(pa, pb, i, j, c, e)
    ensures MisleadsWith(pa, pb, 0x1b, i, j, After(3, c), After(3, e))
  {
    JumboInfo();
    hide IndexInfo, TailAt, Words, Canonicalizer.Spell, Swallows, After, OpcodeSize, Span, Limit, FirstRefOf;
    TextAfter(After(3, c), pa, 0x1b);
    TextAfter(After(3, e), pb, 0x1b);
    AfterWords(3, c, pa);
    AfterWords(3, e, pb);
    SwallowsHead("S:", pa.strings[i], Canonical(c, pa).value, pb.strings[j], Canonical(e, pb).value);
  }

  /** Where names have no commas or parentheses in them, as the DEX format has it, pools mislead
      exactly by their strings. */
  lemma PlainMisleadsExactly(pa: Pools, pb: Pools)
    requires PlainNames(pa) && PlainNames(pb)
    ensures Misleads(pa, pb) <==> StringMisleads(pa, pb)
  {
    hide PlainNames, MisleadsWith, StringMisleadsWith;
    if Misleads(pa, pb) {
      var op, x, y, c, e :| MisleadsWith(pa, pb, op, x, y, c, e);
      MisleadsByString(pa, pb, op, x, y, c, e);
    }
    if StringMisleads(pa, pb) {
      var i, j, c, e :| StringMisleadsWith(pa, pb, i, j, c, e);
      StringMisleadsBy(pa, pb, i, j, c, e);
    }
  }

  // -- A string that goes on with one number --------------------------------------------------

  /** A text that begins with the number goes on with a text. */
  predicate ReadsOn(u: nat, pa: Pools, c: Code, pb: Pools, e: Code) {
    Canonical(c, pa).Some? && Canonical(e, pb).Some? &&
      Canonical(c, pa).value == Decimal(u) + "," + Canonical(e, pb).value
  }

  lemma NumeralReadsOn(u: nat, pa: Pools, pb: Pools)
    requires u < 0x1_0000 && IndexInfo(u % 0x100) == []
    ensures ReadsOn(u, pa, UnitThenZeros(u), pb, Nops(WidthOf(u) - 1))
  {
    hide UnitThenZeros, Nops, WidthOf, Words, IndexInfo;
    var zeros := ZeroWords(WidthOf(u) - 1);
    UnitThenZerosWords(u, pa);
    NopsWords(WidthOf(u) - 1, pb, 0);
    SpellHead(Decimal(u), zeros, []);
    assert [Decimal(u)] + zeros + [] == [Decimal(u)] + zeros && zeros + [] == zeros;
  }

  lemma {:induction false} DecimalDigit(n: nat)
    ensures |Decimal(n)| >= 1 && Decimal(n)[0] in "0123456789"
  {
    var digits := "0123456789";
    if n >= 10 {
      DecimalDigit(n / 10);
    } else {
      assert Decimal(n)[0] == digits[n];
    }
  }

  lemma OperandLetter(c: Code, pools: Pools, k: nat, ref: PoolRef)
    requires OperandWord(c, pools, k, ref).Some?
    ensures var w := OperandWord(c, pools, k, ref).value; |w| >= 1 && w[0] in "STFMPC"
  {
    var letters := "STFMPC";
    assert letters[0] == 'S' && letters[1] == 'T' && letters[2] == 'F' && letters[3] == 'M' && letters[4] == 'P' &&
      letters[5] == 'C';
    hide Index;
  }

  lemma LettersAreNoDigits(x: char)
    ensures !(x in "STFMPC" && x in "0123456789")
  {
  }

  lemma TextDigit(c: Code, pools: Pools)
    requires Words(c, pools, 0).Some? && Canonicalizer.Spell(Words(c, pools, 0).value) != ""
    ensures Canonicalizer.Spell(Words(c, pools, 0).value)[0] in "0123456789"
  {
    hide ItemAt, ItemWords, ItemWidth, Decimal;
    var item, w, rest := WordsStep(c, pools, 0);
    FirstWord(c, pools, 0, item);
    ItemKind(c, 0, item);
    DecimalDigit(Unit(c, 0).value);
    assert w == [w[0]] + w[1..];
    SpellHead(w[0], w[1..], rest);
  }

  /** A text that begins with such a number begins with an instruction that has that unit. */
  lemma AfterUnit(u: nat, c: Code, pools: Pools, t: string) returns (v: seq<string>, s: seq<string>)
    requires u < 0x1_0000 && IndexInfo(u % 0x100) != [] && Words(c, pools, 0).Some?
    requires Canonicalizer.Spell(Words(c, pools, 0).value) == Decimal(u) + "," + t
    ensures InsnWords(c, pools, 0, u % 0x100, 0) == Some(v) && |v| >= 1 && Canonicalizer.Spell(v[1..] + s) == t
  {
    FirstRef(u % 0x100);
    hide ItemAt, Decimal, IndexInfo, OpcodeSize, InsnWords;
    assert c.size > 0;
    var item;
    item, v, s := WordsStep(c, pools, 0);
    FirstWord(c, pools, 0, item);
    ItemKind(c, 0, item);
    UnitDelimited(c, 0);
    DecimalPlain(u);
    PlainDelimited(Decimal(u));
    assert v == [v[0]] + v[1..];
    SpellHead(v[0], v[1..], s);
    CutOnce(v[0], Decimal(u), 0, Canonicalizer.Spell(v[1..] + s), t);
    DecimalInjective(Unit(c, 0).value, u);
  }

  lemma OperandSecond(c: Code, pools: Pools, op: nat, v: seq<string>)
    requires op < 256 && IndexInfo(op) != [] && InsnWords(c, pools, 0, op, 0) == Some(v)
    ensures |v| >= 2 && |v[1]| >= 1 && v[1][0] in "STFMPC"
  {
    FirstRef(op);
    hide IndexInfo, OpcodeSize, UnitWord, OperandWord;
    var ref := RefAt(IndexInfo(op), 1);
    OperandLetter(c, pools, 1, ref.value);
    assert InsnWords(c, pools, 0, op, 1).Some?;
  }

  /** No text is the rest of an instruction whose pool operand comes next. */
  lemma OperandStops(u: nat, pa: Pools, c: Code, pb: Pools, e: Code)
    requires u < 0x1_0000 && IndexInfo(u % 0x100) != []
    ensures !ReadsOn(u, pa, c, pb, e)
  {
    hide IndexInfo, Words, InsnWords, Decimal;
    if ReadsOn(u, pa, c, pb, e) {
      var t := Canonical(e, pb).value;
      var v, s := AfterUnit(u, c, pa, t);
      OperandSecond(c, pa, u % 0x100, v);
      var more := v[1..];
      assert more == [v[1]] + more[1..];
      SpellHead(v[1], more[1..], s);
      TextDigit(e, pb);
      LettersAreNoDigits(t[0]);
    }
  }

  /** Going on with one number below 65536 misleads exactly when no pool operand follows
      that unit in an instruction: then zeros do, and they are instructions too. */
  lemma NumeralExactly(u: nat, pa: Pools, pb: Pools)
    requires u < 0x1_0000
    ensures (exists c, e :: ReadsOn(u, pa, c, pb, e)) <==> IndexInfo(u % 0x100) == []
  {
    hide ReadsOn, IndexInfo;
    if IndexInfo(u % 0x100) == [] {
      NumeralReadsOn(u, pa, pb);
    } else {
      forall c, e
        ensures !ReadsOn(u, pa, c, pb, e)
      {
        OperandStops(u, pa, c, pb, e);
      }
    }
  }

  function OneString(p: string): Pools {
    Pools([p], [], [], [], [], [], [])
  }

  /** Loads the first string and then does what `c` does. */
  function LoadThen(c: Code): Code {
    JumboInfo();
    ReferThen(0x1b, 0, After(3, c))
  }

  /** So for every string and every such unit: loading the string, the unit and zeros reads
      the same as loading the string that goes on with the number, and the zeros. */
  lemma CanonicalCanCollide(p: string, u: nat)
    requires u < 0x1_0000 && IndexInfo(u % 0x100) == []
    ensures
      var pa, pb := OneString(p), OneString(p + "," + Decimal(u));
      var a, b := LoadThen(UnitThenZeros(u)), LoadThen(Nops(WidthOf(u) - 1));
      Canonical(a, pa).Some? && Canonical(a, pa) == Canonical(b, pb) && !SameMeaning(a, pa, b, pb, 0)
  {
    JumboInfo();
    hide ReferThen, UnitThenZeros, Nops, WidthOf, IndexInfo, Canonical, SameMeaning, Decimal, After, MisleadsWith;
    var q := p + "," + Decimal(u);
    var pa, pb := OneString(p), OneString(q);
    var c, e := UnitThenZeros(u), Nops(WidthOf(u) - 1);
    NumeralReadsOn(u, pa, pb);
    assert q[|p| + 1..] == Decimal(u) && q == p + "," + Decimal(u);
    assert StringMisleadsWith(pa, pb, 0, 0, c, e);
    StringMisleadsBy(pa, pb, 0, 0, c, e);
    Collides(pa, pb, 0x1b, 0, 0, After(3, c), After(3, e));
  }

  // -- References that read alike, and one that reads as two --------------------------------------

  /** Different call sites under one number read alike, whatever they are. */
  lemma CallSitesCollide(s: CallSite, t: CallSite)
    requires s != t
    ensures var pa, pb := Pools([], [], [], [], [], [s], []), Pools([], [], [], [], [], [t], []);
      var a := Refer(CallSitePool, 0);
      Canonical(a, pa).Some? && Canonical(a, pb) == Canonical(a, pa) && !SameMeaning(a, pa, a, pb, 0)
  {
    IllegibleCollides(Pools([], [], [], [], [], [s], []), Pools([], [], [], [], [], [t], []), CallSitePool, 0, 0);
  }

  /** So do a field whose name has a dot in it and the field of a class whose name ends there. */
  lemma FieldsCollide(outer: string, inner: string, name: string, typeName: string)
    ensures
      var f, g := FieldId(outer, typeName, inner + "." + name), FieldId(outer + "." + inner, typeName, name);
      var pa, pb := Pools([], [], [], [f], [], [], []), Pools([], [], [], [g], [], [], []);
      var a := Refer(FieldPool, 0);
      Canonical(a, pa).Some? && Canonical(a, pb) == Canonical(a, pa) && !SameMeaning(a, pa, a, pb, 0)
  {
    var f, g := FieldId(outer, typeName, inner + "." + name), FieldId(outer + "." + inner, typeName, name);
    assert |f.className| != |g.className|;
    assert FieldText(f) == FieldText(g);
    IllegibleCollides(Pools([], [], [], [f], [], [], []), Pools([], [], [], [g], [], [], []), FieldPool, 0, 0);
  }

  /** And one call site under two numbers reads as two. */
  lemma CallSiteReadsTwice(s: CallSite)
    ensures var p := Pools([], [], [], [], [], [s, s], []);
      var a, b := Refer(CallSitePool, 0), Refer(CallSitePool, 1);
      && SameMeaning(a, p, b, p, 0)
      && Canonical(a, p).Some? && Canonical(b, p).Some? && Canonical(b, p) != Canonical(a, p)
  {
    DropSame("CS:", Decimal(0), Decimal(1));
    UnsteadyDiffers(Pools([], [], [], [], [], [s, s], []), Pools([], [], [], [], [], [s, s], []), CallSitePool, 0, 1);
  }
}
