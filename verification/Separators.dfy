/** Where the words of a text end: words that can be read back, fields between commas, and
    how one word can be mistaken for another and what follows it. */
module Separators {
  import opened Bytes
  import opened Text
  import opened OpcodeTable
  import opened Canonicalizer

  // -- Words that end where they seem to -----------------------------------------------

  /** Parentheses open after `w`, when `d` were before; none at a comma outside them or a stray closing one. */
  function Depth(w: string, d: nat): Option<nat> {
    if w == "" then Some(d)
    else if w[0] == '(' then Depth(w[1..], d + 1)
    else if w[0] == ')' then if d == 0 then None else Depth(w[1..], d - 1)
    else if w[0] == ',' && d == 0 then None
    else Depth(w[1..], d)
  }

  /** Commas only within matched parentheses, so the comma after the word is the first outside them. */
  predicate Delimited(w: string) {
    Depth(w, 0) == Some(0)
  }

  lemma {:induction false} CutOnce(x: string, y: string, d: nat, s: string, t: string)
    requires Depth(x, d) == Some(0) && Depth(y, d) == Some(0)
    requires x + "," + s == y + "," + t
    ensures x == y && s == t
    decreases |x|
  {
    var l, r := x + "," + s, y + "," + t;
    CutHead(x, s);
    CutHead(y, t);
    if x != "" && y != "" {
      var e := if x[0] == '(' then d + 1 else if x[0] == ')' then d - 1 else d;
      CutOnce(x[1..], y[1..], e, s, t);
      assert x == [x[0]] + x[1..] && y == [y[0]] + y[1..];
    }
  }

  lemma CutHead(x: string, s: string)
    ensures var l := x + "," + s;
      |l| > 0 && if x == "" then l[0] == ',' && l[1..] == s else l[0] == x[0] && l[1..] == x[1..] + "," + s
  {
  }

  predicate AllDelimited(ws: seq<string>) {
    forall i :: 0 <= i < |ws| ==> Delimited(ws[i])
  }

  /** Delimited words can be told apart in the text. */
  lemma {:induction false} SpellInjective(x: seq<string>, y: seq<string>)
    requires AllDelimited(x) && AllDelimited(y) && Canonicalizer.Spell(x) == Canonicalizer.Spell(y)
    ensures x == y
  {
    if x != [] && y != [] {
      CutOnce(x[0], y[0], 0, Canonicalizer.Spell(x[1..]), Canonicalizer.Spell(y[1..]));
      SpellInjective(x[1..], y[1..]);
      assert x == [x[0]] + x[1..] && y == [y[0]] + y[1..];
    }
  }

  lemma SpellHead(w: string, ws: seq<string>, more: seq<string>)
    ensures Canonicalizer.Spell([w] + ws + more) == w + "," + Canonicalizer.Spell(ws + more)
  {
    assert ([w] + ws + more)[1..] == ws + more;
  }

  /** As far as delimited words go on both sides, they agree. */
  lemma {:induction false} CutCommon(v: seq<string>, s: seq<string>, w: seq<string>, t: seq<string>)
    requires AllDelimited(v) && AllDelimited(w) && Canonicalizer.Spell(v + s) == Canonicalizer.Spell(w + t)
    ensures forall k :: 0 <= k < |v| && k < |w| ==> v[k] == w[k]
    ensures |v| == |w| ==> v == w && Canonicalizer.Spell(s) == Canonicalizer.Spell(t)
    decreases |v|
  {
    if v == [] || w == [] {
      assert v == [] ==> v + s == s;
      assert w == [] ==> w + t == t;
    } else {
      assert v == [v[0]] + v[1..] && w == [w[0]] + w[1..];
      SpellHead(v[0], v[1..], s);
      SpellHead(w[0], w[1..], t);
      CutOnce(v[0], w[0], 0, Canonicalizer.Spell(v[1..] + s), Canonicalizer.Spell(w[1..] + t));
      CutCommon(v[1..], s, w[1..], t);
    }
  }

  // -- Names without separators ---------------------------------------------------------

  predicate Plain(w: string) {
    forall i :: 0 <= i < |w| ==> w[i] !in {'(', ')', ','}
  }

  /** Type descriptors and member names have no comma or parenthesis in them, as the
      DEX format has it. Of string constants nothing is asked. */
  predicate PlainNames(p: Pools) {
    && (forall i :: 0 <= i < |p.types| ==> Plain(p.types[i]))
    && (forall i :: 0 <= i < |p.fields| ==> PlainField(p.fields[i]))
    && (forall i :: 0 <= i < |p.methods| ==> PlainMethod(p.methods[i]))
    && (forall i :: 0 <= i < |p.protos| ==> PlainProto(p.protos[i]))
  }

  predicate PlainField(f: FieldId) {
    Plain(f.className) && Plain(f.fieldName) && Plain(f.typeName)
  }

  predicate PlainMethod(m: MethodId) {
    Plain(m.className) && Plain(m.methodName) && PlainProto(m.proto)
  }

  predicate PlainProto(p: Proto) {
    Plain(p.returnType) && forall i :: 0 <= i < |p.parameters| ==> Plain(p.parameters[i])
  }

  lemma {:induction false} DepthConcat(x: string, y: string, d: nat)
    requires Depth(x, d).Some?
    ensures Depth(x + y, d) == Depth(y, Depth(x, d).value)
    decreases |x|
  {
    if x == "" {
      assert x + y == y;
    } else {
      assert (x + y)[1..] == x[1..] + y && (x + y)[0] == x[0];
      var e := if x[0] == '(' then d + 1 else if x[0] == ')' then d - 1 else d;
      DepthConcat(x[1..], y, e);
    }
  }

  lemma {:induction false} PlainDepth(w: string, d: nat)
    requires Plain(w)
    ensures Depth(w, d) == Some(d)
    decreases |w|
  {
    if w != "" {
      assert w[0] !in {'(', ')', ','};
      PlainDepth(w[1..], d);
    }
  }

  lemma {:induction false} JoinDepth(ps: seq<string>, d: nat)
    requires d > 0 && forall i :: 0 <= i < |ps| ==> Plain(ps[i])
    ensures Depth(Join(ps, ","), d) == Some(d)
    decreases |ps|
  {
    if |ps| >= 1 {
      PlainDepth(ps[0], d);
    }
    if |ps| > 1 {
      JoinDepth(ps[1..], d);
      var rest := Join(ps[1..], ",");
      DepthConcat(ps[0], "," + rest, d);
      DepthConcat(",", rest, d);
      assert Depth(",", d) == Depth("", d);
      assert ps[0] + "," + rest == ps[0] + ("," + rest);
    }
  }

  lemma {:induction false} DecimalPlain(n: nat)
    ensures Plain(Decimal(n))
  {
    DigitPlain(n % 10);
    if n >= 10 {
      DecimalPlain(n / 10);
    }
  }

  lemma DigitPlain(d: nat)
    requires d < 10
    ensures Digit(d) !in {'(', ')', ','}
  {
    var digits := "0123456789";
    assert digits[0] == '0' && digits[1] == '1' && digits[2] == '2' && digits[3] == '3' && digits[4] == '4';
    assert digits[5] == '5' && digits[6] == '6' && digits[7] == '7' && digits[8] == '8' && digits[9] == '9';
  }

  lemma PlainDelimited(w: string)
    requires Plain(w)
    ensures Delimited(w)
  {
    PlainDepth(w, 0);
  }

  /** A head, parenthesised parameters and a tail are delimited. */
  lemma SignatureDelimited(head: string, ps: seq<string>, tail: string)
    requires Plain(head) && Plain(tail) && forall i :: 0 <= i < |ps| ==> Plain(ps[i])
    ensures Delimited(head + "(" + Join(ps, ",") + ")" + tail)
  {
    var params := Join(ps, ",");
    PlainDepth(head, 0);
    DepthConcat(head, "(", 0);
    assert Depth("(", 0) == Depth("", 1);
    JoinDepth(ps, 1);
    DepthConcat(head + "(", params, 0);
    DepthConcat(head + "(" + params, ")", 0);
    assert Depth(")", 1) == Depth("", 0);
    DepthConcat(head + "(" + params + ")", tail, 0);
    PlainDepth(tail, 0);
  }

  /** What an index into any pool but that of the strings denotes is delimited. */
  lemma ResolvedDelimited(p: Pools, pool: PoolKind, i: nat)
    requires PlainNames(p) && !pool.StringPool? && Resolve(p, pool, i).Some?
    ensures Delimited(Resolve(p, pool, i).value)
  {
    DecimalPlain(i);
    match pool
    case TypePool => PlainDelimited("T:" + p.types[i]);
    case FieldPool =>
      var f := p.fields[i];
      PlainDelimited("F:" + f.className + "." + f.fieldName + ":" + f.typeName);
    case MethodPool =>
      var m := p.methods[i];
      assert PlainMethod(m);
      SignatureDelimited("M:" + m.className + "." + m.methodName, m.proto.parameters, m.proto.returnType);
    case ProtoPool =>
      var q := p.protos[i];
      assert PlainProto(q);
      SignatureDelimited("P:" + q.returnType, q.parameters, "");
      assert ProtoText(q) == "P:" + q.returnType + "(" + Join(q.parameters, ",") + ")" + "";
    case CallSitePool => PlainDelimited("CS:" + Decimal(i));
    case MethodHandlePool => PlainDelimited("MH:" + Decimal(i));
  }

  lemma UnitDelimited(c: Code, k: nat)
    requires UnitWord(c, k).Some?
    ensures Delimited(UnitWord(c, k).value)
  {
    DecimalPlain(Unit(c, k).value);
    PlainDelimited(UnitWord(c, k).value);
  }

  lemma {:induction false} RawDelimited(c: Code, pos: nat, n: nat)
    requires RawWords(c, pos, n).Some?
    ensures AllDelimited(RawWords(c, pos, n).value)
    decreases n
  {
    if n > 0 {
      UnitDelimited(c, pos);
      RawDelimited(c, pos + 1, n - 1);
    }
  }

  // -- Words that go on after another -----------------------------------------------------

  /** Two different strings read the same, each with a comma and some text after it. */
  predicate Misread(p: string, s: string, q: string, t: string) {
    p != q && p + "," + s == q + "," + t
  }

  /** `q` is `p`, a comma and a string with which the text `s` begins before it goes on as `t`. */
  predicate Swallows(p: string, s: string, q: string, t: string) {
    |p| < |q| && q == p + "," + q[|p| + 1..] && s == q[|p| + 1..] + "," + t
  }

  lemma MisreadSwallows(p: string, s: string, q: string, t: string)
    requires |p| <= |q|
    ensures Misread(p, s, q, t) <==> Swallows(p, s, q, t)
  {
    var l, r := p + "," + s, q + "," + t;
    if Misread(p, s, q, t) {
      assert p == l[..|p|] && q == r[..|q|];
      assert |p| < |q|;
      assert q[..|p|] == p && q[|p|] == l[|p|] == ',' && q == q[..|p|] + [q[|p|]] + q[|p| + 1..];
      assert s == l[|p| + 1..] && r[|p| + 1..] == q[|p| + 1..] + "," + t;
    }
    if Swallows(p, s, q, t) {
      assert l == p + "," + (q[|p| + 1..] + "," + t) == (p + "," + q[|p| + 1..]) + "," + t;
    }
  }

  lemma SwallowsLonger(p: string, s: string, q: string, t: string)
    requires Swallows(p, s, q, t)
    ensures Misread(p, s, q, t) && Misread(q, t, p, s)
  {
    MisreadSwallows(p, s, q, t);
  }

  /** What comes before the first comma. */
  function FirstField(s: string): string {
    if s == "" || s[0] == ',' then "" else [s[0]] + FirstField(s[1..])
  }

  /** The text of a code unit. */
  predicate IsNumeral(w: string) {
    exists u: nat :: u < 0x1_0000 && Decimal(u) == w
  }

  /** `q` goes on after `p` with a comma and what reads as a code unit. */
  predicate Mistakable(p: string, q: string) {
    p + "," <= q && IsNumeral(FirstField(q[|p| + 1..]))
  }

  lemma {:induction false} FieldCut(y: string, t: string)
    ensures FirstField(y + "," + t) == FirstField(y)
  {
    CutHead(y, t);
    if y != "" && y[0] != ',' {
      FieldCut(y[1..], t);
    }
  }

  lemma {:induction false} FieldOf(w: string, t: string)
    requires Plain(w)
    ensures FirstField(w + "," + t) == w
  {
    CutHead(w, t);
    if w != "" {
      FieldOf(w[1..], t);
    }
  }

  /** A comma is followed by what reads as a code unit. */
  predicate HasNumeralField(q: string) {
    exists i :: 0 <= i < |q| && q[i] == ',' && IsNumeral(FirstField(q[i + 1..]))
  }

  lemma DropSame(head: string, p: string, q: string)
    requires p != q
    ensures head + p != head + q
  {
    assert (head + p)[|head|..] == p && (head + q)[|head|..] == q;
  }

  lemma KeepsApart(head: string, v: string, w: string, tail: string)
    requires v != w
    ensures head + (v + tail) != head + (w + tail)
  {
    var l, r := head + (v + tail), head + (w + tail);
    if |v| == |w| {
      assert l[|head|..|head| + |v|] == v && r[|head|..|head| + |w|] == w;
    }
  }
}
