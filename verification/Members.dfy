/** What the differ's report says about the lists of classes, fields and methods themselves,
    direct and virtual, static and instance: every entry has a partner in the other file. */
module Members {
  import opened Bytes
  import opened Text
  import opened Canonicalizer
  import opened DexModel
  import opened Annotations
  import opened Differ
  import opened SimplePools

  // -- Keys ---------------------------------------------------------------------------------

  /** Two methods have the same key exactly if class, name, parameters and return type are the same. */
  lemma MethodKeyExactly(m: MethodId, n: MethodId)
    requires SimpleSignature(m) && SimpleSignature(n)
    ensures MethodKey(m) == MethodKey(n) <==> SameSignature(m, n)
  {
    hide Join, Names;
    if MethodKey(m) == MethodKey(n) {
      var p, q := m.proto, n.proto;
      var u, v := Join(p.parameters, ", ") + [')'] + p.returnType, Join(q.parameters, ", ") + [')'] + q.returnType;
      var s, t := m.methodName + ['('] + u, n.methodName + ['('] + v;
      assert MethodKey(m) == m.className + ['.'] + s && MethodKey(n) == n.className + ['.'] + t;
      CutAt(m.className, n.className, '.', s, t);
      CutAt(m.methodName, n.methodName, '(', u, v);
      assert "," + " " == ", ";
      ParametersTogether(p.parameters, q.parameters, p.returnType, q.returnType, " ");
    }
  }

  predicate SameField(f: FieldId, g: FieldId) {
    f.className == g.className && f.fieldName == g.fieldName && f.typeName == g.typeName
  }

  /** Two fields have the same key exactly if class, name and type are the same. */
  lemma FieldKeyExactly(f: FieldId, g: FieldId)
    requires SimpleField(f) && SimpleField(g)
    ensures FieldKey(f) == FieldKey(g) <==> SameField(f, g)
  {
    if FieldKey(f) == FieldKey(g) {
      var s, t := f.fieldName + [':'] + f.typeName, g.fieldName + [':'] + g.typeName;
      assert FieldKey(f) == f.className + ['.'] + s && FieldKey(g) == g.className + ['.'] + t;
      CutAt(f.className, g.className, '.', s, t);
      CutAt(f.fieldName, g.fieldName, ':', f.typeName, g.typeName);
    }
  }

  // -- Entries and their partners ---------------------------------------------------------------

  predicate MethodIn(m: MethodEntry, body: Option<ClassBody>) {
    body.Some? && (m in body.value.directMethods || m in body.value.virtualMethods)
  }

  predicate FieldIn(f: FieldEntry, body: Option<ClassBody>) {
    body.Some? && (f in body.value.staticFields || f in body.value.instanceFields)
  }

  /** Names without separators, and no two entries for one method or field. */
  ghost predicate Proper(body: Option<ClassBody>) {
    && (forall m :: MethodIn(m, body) ==> SimpleSignature(m.id))
    && (forall f :: FieldIn(f, body) ==> SimpleField(f.field))
    && (forall m, n :: MethodIn(m, body) && MethodIn(n, body) && SameSignature(m.id, n.id) ==> m == n)
    && (forall f, g :: FieldIn(f, body) && FieldIn(g, body) && SameField(f.field, g.field) ==> f == g)
  }

  /** The same method with the same flags in the other body. */
  ghost predicate MethodKept(m: MethodEntry, body: Option<ClassBody>) {
    exists n :: MethodIn(n, body) && SameSignature(m.id, n.id) && n.accessFlags == m.accessFlags
  }

  /** And with the same code. */
  ghost predicate MethodSame(m: MethodEntry, body: Option<ClassBody>) {
    exists n :: MethodIn(n, body) && SameSignature(m.id, n.id) && n.accessFlags == m.accessFlags && n.code == m.code
  }

  ghost predicate FieldKept(f: FieldEntry, body: Option<ClassBody>) {
    exists g :: FieldIn(g, body) && SameField(f.field, g.field) && g.accessFlags == f.accessFlags
  }

  ghost predicate AllMethodsKept(b: Option<ClassBody>, c: Option<ClassBody>) {
    forall m :: MethodIn(m, b) ==> MethodKept(m, c)
  }

  ghost predicate AllMethodsSame(b: Option<ClassBody>, c: Option<ClassBody>) {
    forall m :: MethodIn(m, b) ==> MethodSame(m, c)
  }

  ghost predicate AllFieldsKept(b: Option<ClassBody>, c: Option<ClassBody>) {
    forall f :: FieldIn(f, b) ==> FieldKept(f, c)
  }

  // -- What the maps hold ---------------------------------------------------------------------

  lemma {:induction false} MethodsHold(ms: seq<MethodEntry>)
    ensures forall k :: k in Methods(ms) ==> Methods(ms)[k] in ms && MethodKey(Methods(ms)[k].id) == k
    ensures forall m :: m in ms ==> MethodKey(m.id) in Methods(ms)
  {
    hide MethodKey;
    if ms != [] {
      var init, last := ms[..|ms| - 1], ms[|ms| - 1];
      MethodsHold(init);
      assert ms == init + [last];
    }
  }

  /** Some field of the list has the key and the flags. */
  ghost predicate Flagged(fs: seq<FieldEntry>, k: string, flags: nat) {
    exists f :: f in fs && FieldKey(f.field) == k && f.accessFlags == flags
  }

  lemma {:induction false} FieldsHold(fs: seq<FieldEntry>)
    ensures forall k :: k in FieldFlags(fs) ==> Flagged(fs, k, FieldFlags(fs)[k])
    ensures forall f :: f in fs ==> FieldKey(f.field) in FieldFlags(fs)
  {
    hide FieldKey;
    if fs != [] {
      var init, last := fs[..|fs| - 1], fs[|fs| - 1];
      FieldsHold(init);
      assert fs == init + [last];
      forall k | k in FieldFlags(fs)
        ensures Flagged(fs, k, FieldFlags(fs)[k])
      {
        if k == FieldKey(last.field) {
          assert last in fs;
        } else {
          assert Flagged(init, k, FieldFlags(init)[k]);
          var f :| f in init && FieldKey(f.field) == k && f.accessFlags == FieldFlags(init)[k];
          assert f in fs;
        }
      }
    }
  }

  /** The method that the map has under a method's key is that method. */
  lemma MethodFound(body: Option<ClassBody>, m: MethodEntry)
    requires Proper(body) && MethodIn(m, body)
    ensures MethodKey(m.id) in BodyMethods(body) && BodyMethods(body)[MethodKey(m.id)] == m
  {
    hide MethodKey, SimpleSignature, SameSignature;
    var ms := body.value.directMethods + body.value.virtualMethods;
    MethodsHold(ms);
    var n := Methods(ms)[MethodKey(m.id)];
    assert MethodIn(n, body);
    MethodKeyExactly(m.id, n.id);
  }

  lemma MethodListed(body: Option<ClassBody>, k: string) returns (m: MethodEntry)
    requires k in BodyMethods(body)
    ensures MethodIn(m, body) && MethodKey(m.id) == k && BodyMethods(body)[k] == m
  {
    hide MethodKey;
    MethodsHold(body.value.directMethods + body.value.virtualMethods);
    m := BodyMethods(body)[k];
  }

  lemma FieldListed(body: Option<ClassBody>, k: string) returns (f: FieldEntry)
    requires k in BodyFields(body)
    ensures FieldIn(f, body) && FieldKey(f.field) == k && BodyFields(body)[k] == f.accessFlags
  {
    hide FieldKey;
    var fs := body.value.staticFields + body.value.instanceFields;
    FieldsHold(fs);
    assert Flagged(fs, k, FieldFlags(fs)[k]);
    f :| f in fs && FieldKey(f.field) == k && f.accessFlags == FieldFlags(fs)[k];
  }

  lemma FieldFound(body: Option<ClassBody>, f: FieldEntry)
    requires Proper(body) && FieldIn(f, body)
    ensures FieldKey(f.field) in BodyFields(body) && BodyFields(body)[FieldKey(f.field)] == f.accessFlags
  {
    hide FieldKey, SimpleField, SameField;
    FieldsHold(body.value.staticFields + body.value.instanceFields);
    var g := FieldListed(body, FieldKey(f.field));
    FieldKeyExactly(f.field, g.field);
  }

  // -- Maps and partners ------------------------------------------------------------------------

  /** Every method of the map is in the other with the same flags exactly if every entry has a partner. */
  lemma FlagsSurviveExactly(b: Option<ClassBody>, c: Option<ClassBody>)
    requires Proper(b) && Proper(c)
    ensures FlagsSurvive(BodyMethodFlags(b), BodyMethodFlags(c)) <==> AllMethodsKept(b, c)
  {
    hide Proper, MethodKey, BodyMethods, MethodIn, SameSignature;
    if FlagsSurvive(BodyMethodFlags(b), BodyMethodFlags(c)) {
      forall m | MethodIn(m, b)
        ensures MethodKept(m, c)
      {
        MethodFound(b, m);
        assert MethodKey(m.id) in BodyMethodFlags(b);
        var n := MethodListed(c, MethodKey(m.id));
        ProperPair(b, m, c, n);
        assert n.accessFlags == BodyMethodFlags(c)[MethodKey(m.id)];
      }
    }
    if AllMethodsKept(b, c) {
      forall k | k in BodyMethodFlags(b)
        ensures k in BodyMethodFlags(c) && BodyMethodFlags(c)[k] == BodyMethodFlags(b)[k]
      {
        var m := MethodListed(b, k);
        assert MethodKept(m, c);
        var n :| MethodIn(n, c) && SameSignature(m.id, n.id) && n.accessFlags == m.accessFlags;
        ProperPair(b, m, c, n);
        MethodFound(c, n);
      }
    }
  }

  lemma ProperPair(b: Option<ClassBody>, m: MethodEntry, c: Option<ClassBody>, n: MethodEntry)
    requires Proper(b) && Proper(c) && MethodIn(m, b) && MethodIn(n, c)
    ensures MethodKey(m.id) == MethodKey(n.id) <==> SameSignature(m.id, n.id)
  {
    hide MethodKey, SimpleSignature, SameSignature;
    MethodKeyExactly(m.id, n.id);
  }

  lemma FieldsSurviveExactly(b: Option<ClassBody>, c: Option<ClassBody>)
    requires Proper(b) && Proper(c)
    ensures FlagsSurvive(BodyFields(b), BodyFields(c)) <==> AllFieldsKept(b, c)
  {
    hide Proper, FieldKey, BodyFields, FieldIn, SameField;
    if FlagsSurvive(BodyFields(b), BodyFields(c)) {
      forall f | FieldIn(f, b)
        ensures FieldKept(f, c)
      {
        FieldFound(b, f);
        var g := FieldListed(c, FieldKey(f.field));
        ProperFields(b, f, c, g);
      }
    }
    if AllFieldsKept(b, c) {
      forall k | k in BodyFields(b)
        ensures k in BodyFields(c) && BodyFields(c)[k] == BodyFields(b)[k]
      {
        var f := FieldListed(b, k);
        var g :| FieldIn(g, c) && SameField(f.field, g.field) && g.accessFlags == f.accessFlags;
        ProperFields(b, f, c, g);
        FieldFound(c, g);
      }
    }
  }

  lemma ProperFields(b: Option<ClassBody>, f: FieldEntry, c: Option<ClassBody>, g: FieldEntry)
    requires Proper(b) && Proper(c) && FieldIn(f, b) && FieldIn(g, c)
    ensures FieldKey(f.field) == FieldKey(g.field) <==> SameField(f.field, g.field)
  {
    hide FieldKey, SimpleField, SameField;
    FieldKeyExactly(f.field, g.field);
  }

  lemma EqualBySurvival<T>(a: map<string, T>, b: map<string, T>)
    ensures a == b <==>
      (forall k :: k in a ==> k in b && b[k] == a[k]) && (forall k :: k in b ==> k in a && a[k] == b[k])
  {
  }

  /** With the flags alike, codes are alike exactly if every entry's partner has its code. */
  lemma CodesExactly(b: Option<ClassBody>, c: Option<ClassBody>)
    requires Proper(b) && Proper(c) && AllMethodsKept(b, c)
    ensures SameCode(BodyMethods(b), BodyMethods(c)) <==> AllMethodsSame(b, c)
  {
    hide Proper, MethodKey, BodyMethods, MethodIn, SameSignature;
    if SameCode(BodyMethods(b), BodyMethods(c)) {
      forall m | MethodIn(m, b)
        ensures MethodSame(m, c)
      {
        assert MethodKept(m, c);
        var n :| MethodIn(n, c) && SameSignature(m.id, n.id) && n.accessFlags == m.accessFlags;
        ProperPair(b, m, c, n);
        MethodFound(b, m);
        MethodFound(c, n);
      }
    }
    if AllMethodsSame(b, c) {
      forall k | k in BodyMethods(b) && k in BodyMethods(c)
        ensures BodyMethods(b)[k].code == BodyMethods(c)[k].code
      {
        var m := MethodListed(b, k);
        assert MethodSame(m, c);
        var n :| MethodIn(n, c) && SameSignature(m.id, n.id) && n.accessFlags == m.accessFlags && n.code == m.code;
        ProperPair(b, m, c, n);
        MethodFound(c, n);
      }
    }
  }

  // -- Classes ------------------------------------------------------------------------------------

  predicate DistinctClasses(cs: seq<ClassDefinition>) {
    forall i, j :: 0 <= i < j < |cs| ==> cs[i].className != cs[j].className
  }

  ghost predicate ProperClasses(cs: seq<ClassDefinition>) {
    DistinctClasses(cs) && forall c :: c in cs ==> Proper(c.body)
  }

  lemma {:induction false} ClassesHold(cs: seq<ClassDefinition>)
    requires DistinctClasses(cs)
    ensures forall k :: k in ClassMap(cs) ==> ClassMap(cs)[k] in cs && ClassMap(cs)[k].className == k
    ensures forall c :: c in cs ==> c.className in ClassMap(cs) && ClassMap(cs)[c.className] == c
  {
    if cs != [] {
      var init, last := cs[..|cs| - 1], cs[|cs| - 1];
      LastApart(cs);
      hide DistinctClasses;
      ClassesHold(init);
      assert cs == init + [last];
    }
  }

  lemma LastApart(cs: seq<ClassDefinition>)
    requires DistinctClasses(cs) && cs != []
    ensures DistinctClasses(cs[..|cs| - 1])
    ensures forall c :: c in cs[..|cs| - 1] ==> c.className != cs[|cs| - 1].className
  {
  }

  predicate SameHeader(b: ClassDefinition, c: ClassDefinition) {
    c.className == b.className && c.accessFlags == b.accessFlags && c.superclass == b.superclass &&
      c.interfaces == b.interfaces
  }

  /** Every member is kept in the other class and the other way round. */
  ghost predicate SameOutline(b: ClassDefinition, c: ClassDefinition) {
    && SameHeader(b, c)
    && AllMethodsKept(b.body, c.body) && AllMethodsKept(c.body, b.body)
    && AllFieldsKept(b.body, c.body) && AllFieldsKept(c.body, b.body)
  }

  /** Also the code of every method, the static values and the annotations are the same. */
  ghost predicate SameClass(b: ClassDefinition, c: ClassDefinition) {
    && SameOutline(b, c)
    && AllMethodsSame(b.body, c.body) && AllMethodsSame(c.body, b.body)
    && b.staticValues == c.staticValues && SameAnnotations(b.annotations, c.annotations)
  }

  ghost predicate HasPartner(b: ClassDefinition, cs: seq<ClassDefinition>) {
    exists c :: c in cs && SameClass(b, c)
  }

  ghost predicate SameClasses(bs: seq<ClassDefinition>, cs: seq<ClassDefinition>) {
    && (forall b :: b in bs ==> HasPartner(b, cs))
    && (forall c :: c in cs ==> exists b :: b in bs && b.className == c.className)
  }

  lemma OutlineExactly(b: ClassDefinition, c: ClassDefinition)
    requires Proper(b.body) && Proper(c.body) && b.className == c.className
    ensures SameShape(b, c) <==> SameOutline(b, c)
  {
    hide Proper, BodyMethods, BodyFields, AllMethodsKept, AllFieldsKept;
    FlagsSurviveExactly(b.body, c.body);
    FlagsSurviveExactly(c.body, b.body);
    FieldsSurviveExactly(b.body, c.body);
    FieldsSurviveExactly(c.body, b.body);
    EqualBySurvival(BodyMethodFlags(b.body), BodyMethodFlags(c.body));
    EqualBySurvival(BodyFields(b.body), BodyFields(c.body));
    hide BodyMethodFlags;
  }

  lemma ClassExactly(b: ClassDefinition, c: ClassDefinition)
    requires Proper(b.body) && Proper(c.body) && b.className == c.className
    ensures SameShape(b, c) && SameData(b, c) <==> SameClass(b, c)
  {
    hide Proper, BodyMethods, AllMethodsKept, AllFieldsKept, AllMethodsSame, SameShape, SameHeader, SameAnnotations;
    OutlineExactly(b, c);
    if SameOutline(b, c) {
      CodesExactly(b.body, c.body);
      CodesExactly(c.body, b.body);
    }
  }

  lemma SameClassesFrom(bs: seq<ClassDefinition>, cs: seq<ClassDefinition>)
    requires ProperClasses(bs) && ProperClasses(cs)
    requires SameStructure(ClassMap(bs), ClassMap(cs)) && SameDataThroughout(ClassMap(bs), ClassMap(cs))
    ensures SameClasses(bs, cs)
  {
    hide Proper, ClassMap, SameShape, SameData, SameClass, DistinctClasses;
    ClassesHold(bs);
    ClassesHold(cs);
    forall x | x in bs
      ensures HasPartner(x, cs)
    {
      ClassExactly(x, ClassMap(cs)[x.className]);
    }
    forall y | y in cs
      ensures exists x :: x in bs && x.className == y.className
    {
      assert ClassMap(bs)[y.className] in bs;
    }
  }

  lemma SameClassesGive(bs: seq<ClassDefinition>, cs: seq<ClassDefinition>, n: string)
    requires ProperClasses(bs) && ProperClasses(cs) && SameClasses(bs, cs) && n in ClassMap(bs)
    ensures n in ClassMap(cs) && SameShape(ClassMap(bs)[n], ClassMap(cs)[n]) &&
      SameData(ClassMap(bs)[n], ClassMap(cs)[n])
  {
    hide Proper, ClassMap, SameShape, SameData, SameClass, DistinctClasses;
    ClassesHold(bs);
    ClassesHold(cs);
    var x := ClassMap(bs)[n];
    assert HasPartner(x, cs);
    var y :| y in cs && SameClass(x, y);
    SameClassName(x, y);
    ClassExactly(x, y);
  }

  lemma ClassesExactly(bs: seq<ClassDefinition>, cs: seq<ClassDefinition>)
    requires ProperClasses(bs) && ProperClasses(cs)
    ensures SameStructure(ClassMap(bs), ClassMap(cs)) && SameDataThroughout(ClassMap(bs), ClassMap(cs)) <==>
      SameClasses(bs, cs)
  {
    hide Proper, ClassMap, SameShape, SameData, HasPartner, DistinctClasses;
    if SameStructure(ClassMap(bs), ClassMap(cs)) && SameDataThroughout(ClassMap(bs), ClassMap(cs)) {
      SameClassesFrom(bs, cs);
    }
    if SameClasses(bs, cs) {
      forall n | n in ClassMap(bs)
        ensures n in ClassMap(cs) && SameShape(ClassMap(bs)[n], ClassMap(cs)[n]) &&
          SameData(ClassMap(bs)[n], ClassMap(cs)[n])
      {
        SameClassesGive(bs, cs, n);
      }
      ClassesHold(bs);
      ClassesHold(cs);
    }
  }

  lemma SameClassName(b: ClassDefinition, c: ClassDefinition)
    requires SameClass(b, c)
    ensures b.className == c.className
  {
  }

  ghost predicate UniqueEverywhere(cs: seq<ClassDefinition>) {
    forall c :: c in cs ==> UniqueSets(c.annotations)
  }

  /** A report is safe exactly if the two files have the same classes, and every entry of their
      lists of direct and virtual methods, static and instance fields has a partner in the other
      with the same flags and code; where annotations of one type in a set are the same. */
  lemma ReportExactly(sort: Sort, bs: seq<ClassDefinition>, cs: seq<ClassDefinition>)
    requires Sorts(sort) && ProperClasses(bs) && ProperClasses(cs) && UniqueEverywhere(bs)
    ensures SafeReport(sort, ClassMap(bs), ClassMap(cs)) <==> SameClasses(bs, cs)
  {
    hide Proper, ClassMap, SafeReport, SameClasses, SameStructure, SameDataThroughout, UniqueSets;
    ClassesHold(bs);
    SafeExactly(sort, ClassMap(bs), ClassMap(cs));
    ClassesExactly(bs, cs);
  }

  /** `isSafe` of the report of `diff`. */
  method DiffIsSafe(sort: Sort, baseline: seq<ClassDefinition>, candidate: seq<ClassDefinition>) returns (safe: bool)
    requires Sorts(sort)
    ensures safe <==> SafeReport(sort, ClassMap(baseline), ClassMap(candidate))
    ensures ProperClasses(baseline) && ProperClasses(candidate) && UniqueEverywhere(baseline) ==>
      (safe <==> SameClasses(baseline, candidate))
  {
    hide Proper, SameClasses, UniqueSets, ClassMap, Reported;
    var report := Diff(sort, baseline, candidate);
    safe := true;
    for i := 0 to |report|
      invariant safe <==> forall j :: 0 <= j < i ==> report[j].kind.IsSafe()
    {
      if !report[i].kind.IsSafe() {
        safe := false;
      }
    }
    assert forall ch :: ch in report <==> exists j :: 0 <= j < |report| && report[j] == ch;
    if ProperClasses(baseline) && ProperClasses(candidate) && UniqueEverywhere(baseline) {
      ReportExactly(sort, baseline, candidate);
    }
  }

  // -- What the report lists ----------------------------------------------------------------------

  /** A method, or a field, of the body has the key. */
  ghost predicate HasMethod(body: Option<ClassBody>, k: string) {
    exists m :: MethodIn(m, body) && MethodKey(m.id) == k
  }

  ghost predicate HasField(body: Option<ClassBody>, k: string) {
    exists f :: FieldIn(f, body) && FieldKey(f.field) == k
  }

  /** Two methods with the key have different flags, or different code. */
  ghost predicate MethodFlagsDiffer(b: Option<ClassBody>, c: Option<ClassBody>, k: string) {
    exists m, n :: MethodIn(m, b) && MethodIn(n, c) && MethodKey(m.id) == MethodKey(n.id) == k &&
      m.accessFlags != n.accessFlags
  }

  ghost predicate MethodCodesDiffer(b: Option<ClassBody>, c: Option<ClassBody>, k: string) {
    exists m, n :: MethodIn(m, b) && MethodIn(n, c) && MethodKey(m.id) == MethodKey(n.id) == k && m.code != n.code
  }

  ghost predicate FieldFlagsDiffer(b: Option<ClassBody>, c: Option<ClassBody>, k: string) {
    exists f, g :: FieldIn(f, b) && FieldIn(g, c) && FieldKey(f.field) == FieldKey(g.field) == k &&
      f.accessFlags != g.accessFlags
  }

  /** The structural changes of a class that is in both files, entry by entry. */
  ghost predicate StructureListed(b: ClassDefinition, c: ClassDefinition, ch: Change) {
    var n, k := b.className, ch.key;
    || (ch == Change(SourceFileChanged, n, Whole, "") && b.sourceFile != c.sourceFile)
    || (ch == Change(AccessFlagsChanged, n, Whole, "") && b.accessFlags != c.accessFlags)
    || (ch == Change(SuperclassChanged, n, Whole, "") && b.superclass != c.superclass)
    || (ch == Change(InterfacesChanged, n, Whole, "") && b.interfaces != c.interfaces)
    || (ch == Change(MethodAdded, n, Methods_, k) && HasMethod(c.body, k) && !HasMethod(b.body, k))
    || (ch == Change(MethodRemoved, n, Methods_, k) && HasMethod(b.body, k) && !HasMethod(c.body, k))
    || (ch == Change(AccessFlagsChanged, n, Methods_, k) && MethodFlagsDiffer(b.body, c.body, k))
    || (ch == Change(FieldAdded, n, Fields, k) && HasField(c.body, k) && !HasField(b.body, k))
    || (ch == Change(FieldRemoved, n, Fields, k) && HasField(b.body, k) && !HasField(c.body, k))
    || (ch == Change(AccessFlagsChanged, n, Fields, k) && FieldFlagsDiffer(b.body, c.body, k))
  }

  /** And the changes of its data. */
  ghost predicate DataListed(b: ClassDefinition, c: ClassDefinition, ch: Change) {
    var n, k := b.className, ch.key;
    || (ch == Change(BytecodeChanged, n, Methods_, k) && MethodCodesDiffer(b.body, c.body, k))
    || (ch == Change(StaticValuesChanged, n, Whole, "") && b.staticValues != c.staticValues)
    || (ch == Change(AnnotationsChanged, n, Whole, "") && !SameAnnotations(b.annotations, c.annotations))
  }

  lemma MethodsListed(b: Option<ClassBody>, c: Option<ClassBody>, k: string)
    requires Proper(b) && Proper(c)
    ensures k in BodyMethods(b) <==> HasMethod(b, k)
    ensures k in BodyMethods(b) && k in BodyMethods(c) ==>
      && (BodyMethods(b)[k].accessFlags != BodyMethods(c)[k].accessFlags <==> MethodFlagsDiffer(b, c, k))
      && (BodyMethods(b)[k].code != BodyMethods(c)[k].code <==> MethodCodesDiffer(b, c, k))
    ensures MethodFlagsDiffer(b, c, k) || MethodCodesDiffer(b, c, k) ==> HasMethod(b, k) && HasMethod(c, k)
  {
    hide Proper, MethodKey, BodyMethods, MethodIn;
    forall m | MethodIn(m, b) && MethodKey(m.id) == k {
      MethodFound(b, m);
    }
    forall m | MethodIn(m, c) && MethodKey(m.id) == k {
      MethodFound(c, m);
    }
    if k in BodyMethods(b) {
      var m := MethodListed(b, k);
      if k in BodyMethods(c) {
        var n := MethodListed(c, k);
      }
    }
  }

  lemma FieldsListed(b: Option<ClassBody>, c: Option<ClassBody>, k: string)
    requires Proper(b) && Proper(c)
    ensures k in BodyFields(b) <==> HasField(b, k)
    ensures k in BodyFields(b) && k in BodyFields(c) ==>
      (BodyFields(b)[k] != BodyFields(c)[k] <==> FieldFlagsDiffer(b, c, k))
    ensures FieldFlagsDiffer(b, c, k) ==> HasField(b, k) && HasField(c, k)
  {
    hide Proper, FieldKey, BodyFields, FieldIn;
    forall f | FieldIn(f, b) && FieldKey(f.field) == k {
      FieldFound(b, f);
    }
    forall f | FieldIn(f, c) && FieldKey(f.field) == k {
      FieldFound(c, f);
    }
    if k in BodyFields(b) {
      var f := FieldListed(b, k);
      if k in BodyFields(c) {
        var g := FieldListed(c, k);
      }
    }
  }

  lemma StructureListedExactly(b: ClassDefinition, c: ClassDefinition, ch: Change)
    requires Proper(b.body) && Proper(c.body)
    ensures StructureChange(b, c, ch) <==> StructureListed(b, c, ch)
  {
    hide Proper, BodyMethods, BodyFields, HasMethod, HasField, MethodFlagsDiffer, FieldFlagsDiffer;
    MethodsListed(b.body, c.body, ch.key);
    MethodsListed(c.body, b.body, ch.key);
    FieldsListed(b.body, c.body, ch.key);
    FieldsListed(c.body, b.body, ch.key);
  }

  lemma DataListedExactly(sort: Sort, b: ClassDefinition, c: ClassDefinition, ch: Change)
    requires Sorts(sort) && Proper(b.body) && Proper(c.body) && UniqueSets(b.annotations)
    ensures DataChange(sort, b.className, b, c, ch) <==> DataListed(b, c, ch)
  {
    hide Proper, BodyMethods, HasMethod, MethodCodesDiffer, DirectoriesEqual, SameAnnotations, UniqueSets;
    MethodsListed(b.body, c.body, ch.key);
    MethodsListed(c.body, b.body, ch.key);
    DirectoriesExactly(sort, b.annotations, c.annotations);
  }

  /** The changes to the structure: whole classes, and what is listed for those in both. */
  ghost predicate OuterListed(bs: seq<ClassDefinition>, cs: seq<ClassDefinition>, ch: Change) {
    || (ch == Change(ClassAdded, ch.className, Whole, "") &&
        (exists c :: c in cs && c.className == ch.className) && forall b :: b in bs ==> b.className != ch.className)
    || (ch == Change(ClassRemoved, ch.className, Whole, "") &&
        (exists b :: b in bs && b.className == ch.className) && forall c :: c in cs ==> c.className != ch.className)
    || (exists b, c :: b in bs && c in cs && b.className == c.className == ch.className && StructureListed(b, c, ch))
  }

  ghost predicate InnerListed(bs: seq<ClassDefinition>, cs: seq<ClassDefinition>, ch: Change) {
    exists b, c :: b in bs && c in cs && b.className == c.className == ch.className && DataListed(b, c, ch)
  }

  lemma OuterListedExactly(bs: seq<ClassDefinition>, cs: seq<ClassDefinition>, ch: Change)
    requires ProperClasses(bs) && ProperClasses(cs)
    ensures OuterChange(ClassMap(bs), ClassMap(cs), ch) <==> OuterListed(bs, cs, ch)
  {
    hide Proper, ClassMap, StructureChange, StructureListed, DistinctClasses;
    ClassesHold(bs);
    ClassesHold(cs);
    var b, c, n := ClassMap(bs), ClassMap(cs), ch.className;
    if n in b && n in c {
      StructureListedExactly(b[n], c[n], ch);
    }
  }

  lemma InnerListedExactly(sort: Sort, bs: seq<ClassDefinition>, cs: seq<ClassDefinition>, ch: Change)
    requires Sorts(sort) && ProperClasses(bs) && ProperClasses(cs) && UniqueEverywhere(bs)
    ensures InnerChange(sort, ClassMap(bs), ClassMap(cs), ch) <==> InnerListed(bs, cs, ch)
  {
    hide Proper, ClassMap, DataChange, DataListed, UniqueSets, DistinctClasses;
    ClassesHold(bs);
    ClassesHold(cs);
    var b, c, n := ClassMap(bs), ClassMap(cs), ch.className;
    if n in b && n in c {
      DataListedExactly(sort, b[n], c[n], ch);
    }
  }

  /** The report, entry by entry: the changes of the structure, each under its kind; and those of
      the data as well if all of them are changed source files. */
  lemma ReportedExactly(sort: Sort, bs: seq<ClassDefinition>, cs: seq<ClassDefinition>, ch: Change)
    requires Sorts(sort) && ProperClasses(bs) && ProperClasses(cs) && UniqueEverywhere(bs)
    ensures Reported(sort, ClassMap(bs), ClassMap(cs), ch) <==>
      OuterListed(bs, cs, ch) ||
      (InnerListed(bs, cs, ch) && forall o :: OuterListed(bs, cs, o) ==> o.kind == SourceFileChanged)
  {
    hide Proper, ClassMap, OuterChange, InnerChange, OuterListed, InnerListed, ProperClasses, UniqueEverywhere;
    forall o {
      OuterListedExactly(bs, cs, o);
    }
    InnerListedExactly(sort, bs, cs, ch);
  }

  // -- What an additive report says of the lists ---------------------------------------------------

  ghost predicate ClassKept(b: ClassDefinition, cs: seq<ClassDefinition>) {
    exists c :: c in cs && SameHeader(b, c) && AllMethodsKept(b.body, c.body) && AllFieldsKept(b.body, c.body)
  }

  lemma ClassKeptExactly(b: ClassDefinition, c: ClassDefinition)
    requires Proper(b.body) && Proper(c.body) && b.className == c.className
    ensures ClassSurvives(b, c) <==> SameHeader(b, c) && AllMethodsKept(b.body, c.body) && AllFieldsKept(b.body, c.body)
  {
    hide Proper, BodyMethodFlags, BodyFields, AllMethodsKept, AllFieldsKept, FlagsSurvive;
    FlagsSurviveExactly(b.body, c.body);
    FieldsSurviveExactly(b.body, c.body);
  }

  /** Only additions in the structure: exactly if every class of the baseline is kept, with every entry of its lists. */
  lemma SurvivalExactly(bs: seq<ClassDefinition>, cs: seq<ClassDefinition>)
    requires ProperClasses(bs) && ProperClasses(cs)
    ensures (forall ch :: OuterChange(ClassMap(bs), ClassMap(cs), ch) ==> IsAdditive(ch.kind)) <==>
      forall b :: b in bs ==> ClassKept(b, cs)
  {
    hide Proper, ClassMap, ClassSurvives, SameHeader, AllMethodsKept, AllFieldsKept, OuterChange, IsAdditive;
    ClassesHold(bs);
    ClassesHold(cs);
    var b, c := ClassMap(bs), ClassMap(cs);
    OuterAdditiveExactly(b, c);
    if Survives(b, c) {
      forall x | x in bs
        ensures ClassKept(x, cs)
      {
        ClassKeptExactly(x, c[x.className]);
      }
    }
    if forall x :: x in bs ==> ClassKept(x, cs) {
      forall n | n in b
        ensures n in c && ClassSurvives(b[n], c[n])
      {
        var x := b[n];
        var y :| y in cs && SameHeader(x, y) && AllMethodsKept(x.body, y.body) && AllFieldsKept(x.body, y.body);
        SameHeaderName(x, y);
        ClassKeptExactly(x, y);
      }
    }
  }

  lemma SameHeaderName(b: ClassDefinition, c: ClassDefinition)
    requires SameHeader(b, c)
    ensures b.className == c.className
  {
  }
}
