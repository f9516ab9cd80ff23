/** Pools as the DEX format has them: names without any of the separators, and shorties that
    follow from the types. Over such pools text tells every type, field, method and prototype apart. */
module SimplePools {
  import opened Text
  import opened OpcodeTable
  import opened Canonicalizer
  import opened Meaning
  import opened Separators
  import opened FaithfulPools
  import opened Collisions

  /** The characters that the texts put between names. */
  predicate Simple(w: string) {
    forall i :: 0 <= i < |w| ==> w[i] !in {'.', ':', '(', ')', ','}
  }

  predicate SimpleProto(p: Proto) {
    Simple(p.returnType) && Names(p.parameters) && p.shorty == Shorty(p)
  }

  /** One letter for each type: `L` for every reference. */
  function ShortyOf(descriptor: string): string {
    if descriptor == "" then "" else if descriptor[0] in {'L', '['} then "L" else [descriptor[0]]
  }

  function Shorties(types: seq<string>): string {
    if types == [] then "" else ShortyOf(types[0]) + Shorties(types[1..])
  }

  function Shorty(p: Proto): string {
    ShortyOf(p.returnType) + Shorties(p.parameters)
  }

  predicate SimpleField(f: FieldId) {
    Simple(f.className) && Simple(f.fieldName) && Simple(f.typeName)
  }

  predicate SimpleSignature(m: MethodId) {
    Simple(m.className) && Simple(m.methodName) && Simple(m.proto.returnType) && Names(m.proto.parameters)
  }

  predicate SimpleMethod(m: MethodId) {
    SimpleSignature(m) && SimpleProto(m.proto)
  }

  predicate SimpleNames(p: Pools) {
    && (forall i :: 0 <= i < |p.types| ==> Simple(p.types[i]))
    && (forall i :: 0 <= i < |p.fields| ==> SimpleField(p.fields[i]))
    && (forall i :: 0 <= i < |p.methods| ==> SimpleMethod(p.methods[i]))
    && (forall i :: 0 <= i < |p.protos| ==> SimpleProto(p.protos[i]))
  }

  // -- Taking texts apart ------------------------------------------------------------------

  lemma EndsAt(x: string, sep: char, s: string)
    requires sep !in x
    ensures var l := x + [sep] + s;
      |l| > |x| && l[|x|] == sep && l[..|x|] == x && l[|x| + 1..] == s && forall k :: 0 <= k < |x| ==> l[k] != sep
  {
    var l := x + [sep] + s;
    assert forall k :: 0 <= k < |x| ==> l[k] == x[k];
  }

  /** A separator that occurs in neither of two words ends both at the same place. */
  lemma CutAt(x: string, y: string, sep: char, s: string, t: string)
    requires sep !in x && sep !in y && x + [sep] + s == y + [sep] + t
    ensures x == y && s == t
  {
    EndsAt(x, sep, s);
    EndsAt(y, sep, t);
  }

  lemma {:induction false} JoinWithout(ps: seq<string>, separator: string, ch: char)
    requires ch !in separator && forall i :: 0 <= i < |ps| ==> ch !in ps[i]
    ensures ch !in Join(ps, separator)
  {
    if |ps| > 1 {
      JoinWithout(ps[1..], separator, ch);
    }
  }

  /** Names that are not empty and have no comma can be read back from a list with commas. */
  lemma {:induction false} JoinInjective(ps: seq<string>, qs: seq<string>, more: string)
    requires forall i :: 0 <= i < |ps| ==> ',' !in ps[i] && ps[i] != ""
    requires forall i :: 0 <= i < |qs| ==> ',' !in qs[i] && qs[i] != ""
    requires Join(ps, "," + more) == Join(qs, "," + more)
    ensures ps == qs
    decreases |ps|
  {
    JoinParts(ps, more);
    JoinParts(qs, more);
    if |ps| > 1 && |qs| > 1 {
      var s, t := Join(ps[1..], "," + more), Join(qs[1..], "," + more);
      CutAt(ps[0], qs[0], ',', more + s, more + t);
      assert s == (more + s)[|more|..] && t == (more + t)[|more|..];
      JoinInjective(ps[1..], qs[1..], more);
      assert ps == [ps[0]] + ps[1..] && qs == [qs[0]] + qs[1..];
    } else if |ps| == 1 && |qs| == 1 {
      assert ps == [ps[0]] && qs == [qs[0]];
    }
  }

  lemma JoinParts(ps: seq<string>, more: string)
    requires forall i :: 0 <= i < |ps| ==> ',' !in ps[i] && ps[i] != ""
    ensures var text := Join(ps, "," + more);
      && (|ps| == 0 ==> text == "") && (|ps| == 1 ==> text == ps[0])
      && (|ps| > 1 ==> text == ps[0] + [','] + (more + Join(ps[1..], "," + more)) && ',' in text)
  {
    if |ps| > 1 {
      var text, rest := Join(ps, "," + more), Join(ps[1..], "," + more);
      assert text == ps[0] + ("," + more) + rest == ps[0] + [','] + (more + rest);
      assert text[|ps[0]|] == ',';
    }
  }

  lemma DropHead(head: string, x: string, y: string)
    ensures head + x == head + y <==> x == y
  {
    assert (head + x)[|head|..] == x && (head + y)[|head|..] == y;
  }

  predicate Names(ps: seq<string>) {
    forall i :: 0 <= i < |ps| ==> Simple(ps[i]) && ps[i] != ""
  }

  lemma NamesWithout(ps: seq<string>)
    requires Names(ps)
    ensures forall i :: 0 <= i < |ps| ==> ')' !in ps[i] && ',' !in ps[i] && ps[i] != ""
  {
  }

  lemma ParametersTogether(ps: seq<string>, qs: seq<string>, s: string, t: string, more: string)
    requires Names(ps) && Names(qs) && ')' !in more
    requires Join(ps, "," + more) + [')'] + s == Join(qs, "," + more) + [')'] + t
    ensures ps == qs && s == t
  {
    NamesWithout(ps);
    NamesWithout(qs);
    assert ')' !in "," + more;
    hide Join, Names;
    JoinWithout(ps, "," + more, ')');
    JoinWithout(qs, "," + more, ')');
    CutAt(Join(ps, "," + more), Join(qs, "," + more), ')', s, t);
    JoinInjective(ps, qs, more);
  }

  // -- Texts and what they are the text of ----------------------------------------------------

  /** Two fields read the same exactly if class, name and type are the same. */
  lemma FieldTextExactly(f: FieldId, g: FieldId)
    requires SimpleField(f) && SimpleField(g)
    ensures FieldText(f) == FieldText(g) <==>
      f.className == g.className && f.fieldName == g.fieldName && f.typeName == g.typeName
  {
    if FieldText(f) == FieldText(g) {
      var s, t := f.fieldName + [':'] + f.typeName, g.fieldName + [':'] + g.typeName;
      assert FieldText(f) == "F:" + (f.className + ['.'] + s) && FieldText(g) == "F:" + (g.className + ['.'] + t);
      DropHead("F:", f.className + ['.'] + s, g.className + ['.'] + t);
      CutAt(f.className, g.className, '.', s, t);
      CutAt(f.fieldName, g.fieldName, ':', f.typeName, g.typeName);
    }
  }

  predicate SameSignature(m: MethodId, n: MethodId) {
    && m.className == n.className && m.methodName == n.methodName
    && m.proto.parameters == n.proto.parameters && m.proto.returnType == n.proto.returnType
  }

  /** Two methods read the same exactly if class, name, parameters and return type are the same. */
  lemma MethodTextExactly(m: MethodId, n: MethodId)
    requires SimpleMethod(m) && SimpleMethod(n)
    ensures MethodText(m) == MethodText(n) <==> SameSignature(m, n)
  {
    hide Join, Shorty, Names;
    if MethodText(m) == MethodText(n) {
      var p, q := m.proto, n.proto;
      var u, v := Join(p.parameters, ",") + [')'] + p.returnType, Join(q.parameters, ",") + [')'] + q.returnType;
      var s, t := m.methodName + ['('] + u, n.methodName + ['('] + v;
      assert MethodText(m) == "M:" + (m.className + ['.'] + s) && MethodText(n) == "M:" + (n.className + ['.'] + t);
      DropHead("M:", m.className + ['.'] + s, n.className + ['.'] + t);
      CutAt(m.className, n.className, '.', s, t);
      CutAt(m.methodName, n.methodName, '(', u, v);
      assert "," + "" == ",";
      ParametersTogether(p.parameters, q.parameters, p.returnType, q.returnType, "");
    }
  }

  /** Two prototypes read the same exactly if parameters and return type are the same. */
  lemma ProtoTextExactly(p: Proto, q: Proto)
    requires SimpleProto(p) && SimpleProto(q)
    ensures ProtoText(p) == ProtoText(q) <==> p.parameters == q.parameters && p.returnType == q.returnType
  {
    hide Join, Shorty, Names;
    if ProtoText(p) == ProtoText(q) {
      var u, v := Join(p.parameters, ",") + [')'] + "", Join(q.parameters, ",") + [')'] + "";
      assert ProtoText(p) == "P:" + (p.returnType + ['('] + u) && ProtoText(q) == "P:" + (q.returnType + ['('] + v);
      DropHead("P:", p.returnType + ['('] + u, q.returnType + ['('] + v);
      CutAt(p.returnType, q.returnType, '(', u, v);
      assert "," + "" == ",";
      ParametersTogether(p.parameters, q.parameters, "", "", "");
    }
  }

  // -- Simple pools are legible ---------------------------------------------------------------

  lemma SiteText(head: string, i: nat, j: nat)
    requires head + Decimal(i) == head + Decimal(j)
    ensures i == j
  {
    DropHead(head, Decimal(i), Decimal(j));
    Renumbering.DecimalInjective(i, j);
  }

  lemma SimplePairLegible(pa: Pools, pb: Pools, pool: PoolKind, i: nat, j: nat)
    requires SimpleNames(pa) && SimpleNames(pb) && pb.sites == pa.sites && pb.handles == pa.handles
    ensures LegiblePair(pa, pb, pool, i, j)
  {
    hide FieldText, MethodText, ProtoText, Decimal;
    if Resolve(pa, pool, i).Some? && Resolve(pb, pool, j) == Resolve(pa, pool, i) {
      match pool
      case StringPool => DropHead("S:", pa.strings[i], pb.strings[j]);
      case TypePool => DropHead("T:", pa.types[i], pb.types[j]);
      case FieldPool =>
        assert SimpleField(pa.fields[i]) && SimpleField(pb.fields[j]);
        FieldTextExactly(pa.fields[i], pb.fields[j]);
      case MethodPool =>
        assert SimpleMethod(pa.methods[i]) && SimpleMethod(pb.methods[j]);
        MethodTextExactly(pa.methods[i], pb.methods[j]);
      case ProtoPool =>
        assert SimpleProto(pa.protos[i]) && SimpleProto(pb.protos[j]);
        ProtoTextExactly(pa.protos[i], pb.protos[j]);
      case CallSitePool => SiteText("CS:", i, j);
      case MethodHandlePool => SiteText("MH:", i, j);
    }
  }

  /** So what reads the same in simple pools with the same call sites and handles denotes the same. */
  lemma SimpleLegible(pa: Pools, pb: Pools)
    requires SimpleNames(pa) && SimpleNames(pb) && pb.sites == pa.sites && pb.handles == pa.handles
    ensures LegiblePools(pa, pb)
  {
    hide LegiblePair, SimpleNames;
    forall pool: PoolKind, i: nat, j: nat | !pool.StringPool? && i < 0x1_0000 && j < 0x1_0000
      ensures LegiblePair(pa, pb, pool, i, j)
    {
      SimplePairLegible(pa, pb, pool, i, j);
    }
  }

  predicate Distinct<T(==)>(s: seq<T>) {
    forall i, j :: 0 <= i < j < |s| ==> s[i] != s[j]
  }

  /** And they are steady, if no call site or handle is listed twice. */
  lemma DistinctSteady(pa: Pools, pb: Pools)
    requires pb.sites == pa.sites && pb.handles == pa.handles && Distinct(pa.sites) && Distinct(pa.handles)
    ensures SteadyPools(pa, pb)
  {
    forall pool: PoolKind, i: nat, j: nat |
      pool in {CallSitePool, MethodHandlePool} && i < 0x1_0000 && j < 0x1_0000
      ensures SteadyPair(pa, pb, pool, i, j)
    {
      if Denotes(pb, pool, j) == Denotes(pa, pool, i) {
        assert i == j;
      }
    }
  }

  lemma SimplePlain(p: Pools)
    requires SimpleNames(p)
    ensures PlainNames(p)
  {
    forall i | 0 <= i < |p.fields|
      ensures PlainField(p.fields[i])
    {
      assert SimpleField(p.fields[i]);
    }
    forall i | 0 <= i < |p.methods|
      ensures PlainMethod(p.methods[i])
    {
      assert SimpleMethod(p.methods[i]);
    }
    forall i | 0 <= i < |p.protos|
      ensures PlainProto(p.protos[i])
    {
      assert SimpleProto(p.protos[i]);
    }
  }

  /** Over simple pools with the same call sites and handles, none twice, text is equal exactly
      where meaning is, for all code, if and only if no string misleads. */
  lemma SimpleFaithful(pa: Pools, pb: Pools)
    requires SimpleNames(pa) && SimpleNames(pb)
    requires pb.sites == pa.sites && pb.handles == pa.handles && Distinct(pa.sites) && Distinct(pa.handles)
    ensures AllFaithful(pa, pb) <==> !StringMisleads(pa, pb) && !StringMisleads(pb, pa)
  {
    hide SimpleNames, PlainNames, AllFaithful, StringMisleads, Misleads, LegiblePools, SteadyPools;
    SimplePlain(pa);
    SimplePlain(pb);
    PlainMisleadsExactly(pa, pb);
    PlainMisleadsExactly(pb, pa);
    SimpleLegible(pa, pb);
    DistinctSteady(pa, pb);
    FaithfulExactly(pa, pb);
  }
}
