/** The executable differ: which changes it reports, when they are all safe, and
    when the archive check takes them for merely additive. */
module Differ {
  import opened Bytes
  import opened DexModel
  import opened Annotations

  datatype ChangeKind =
    | SourceFileChanged | ClassAdded | ClassRemoved | MethodAdded | MethodRemoved | FieldAdded | FieldRemoved
    | AccessFlagsChanged | SuperclassChanged | InterfacesChanged
    | BytecodeChanged | AnnotationsChanged | StaticValuesChanged
  {
    predicate IsSafe() {
      SourceFileChanged?
    }
  }

  /** What of a class has changed: the class itself, or a field or method by its key. */
  datatype Side = Whole | Fields | Methods_

  datatype Change = Change(kind: ChangeKind, className: string, side: Side, key: string)

  /** The list the comparisons append to. */
  class ChangeLog {
    var changes: seq<Change>

    constructor ()
      ensures changes == []
    {
      changes := [];
    }

    method Add(kind: ChangeKind, className: string, side: Side, key: string)
      modifies this
      ensures forall ch :: ch in changes <==> ch in old(changes) || ch == Change(kind, className, side, key)
    {
      changes := changes + [Change(kind, className, side, key)];
    }
  }

  // -- Which changes there are --------------------------------------------------------

  function AddedKind(side: Side): ChangeKind {
    if side == Fields then FieldAdded else MethodAdded
  }

  function RemovedKind(side: Side): ChangeKind {
    if side == Fields then FieldRemoved else MethodRemoved
  }

  predicate MemberChange(name: string, b: map<string, nat>, c: map<string, nat>, side: Side, ch: Change) {
    var k := ch.key;
    && ch.className == name && ch.side == side
    && (|| (ch.kind == AddedKind(side) && k in c && k !in b)
        || (ch.kind == RemovedKind(side) && k in b && k !in c)
        || (ch.kind == AccessFlagsChanged && k in b && k in c && b[k] != c[k]))
  }

  predicate HeaderChange(b: ClassDefinition, c: ClassDefinition, ch: Change) {
    && ch.className == b.className && ch.side == Whole && ch.key == ""
    && (|| (ch.kind == SourceFileChanged && b.sourceFile != c.sourceFile)
        || (ch.kind == AccessFlagsChanged && b.accessFlags != c.accessFlags)
        || (ch.kind == SuperclassChanged && b.superclass != c.superclass)
        || (ch.kind == InterfacesChanged && b.interfaces != c.interfaces))
  }

  predicate StructureChange(b: ClassDefinition, c: ClassDefinition, ch: Change) {
    || HeaderChange(b, c, ch)
    || MemberChange(b.className, BodyFields(b.body), BodyFields(c.body), Fields, ch)
    || MemberChange(b.className, BodyMethodFlags(b.body), BodyMethodFlags(c.body), Methods_, ch)
  }

  predicate CodeChange(name: string, b: map<string, MethodEntry>, c: map<string, MethodEntry>, ch: Change) {
    && ch.className == name && ch.kind == BytecodeChanged && ch.side == Methods_
    && ch.key in b && ch.key in c && b[ch.key].code != c[ch.key].code
  }

  predicate DataChange(sort: Sort, name: string, b: ClassDefinition, c: ClassDefinition, ch: Change) {
    || CodeChange(name, BodyMethods(b.body), BodyMethods(c.body), ch)
    || (ch == Change(AnnotationsChanged, name, Whole, "") && !DirectoriesEqual(sort, b.annotations, c.annotations))
    || (ch == Change(StaticValuesChanged, name, Whole, "") && b.staticValues != c.staticValues)
  }

  type Classes = map<string, ClassDefinition>

  /** Classes added or removed, and the structure of those in both. */
  predicate OuterChange(b: Classes, c: Classes, ch: Change) {
    var n := ch.className;
    || (ch == Change(ClassAdded, n, Whole, "") && n in c && n !in b)
    || (ch == Change(ClassRemoved, n, Whole, "") && n in b && n !in c)
    || (n in b && n in c && StructureChange(b[n], c[n], ch))
  }

  predicate InnerChange(sort: Sort, b: Classes, c: Classes, ch: Change) {
    var n := ch.className;
    n in b && n in c && DataChange(sort, n, b[n], c[n], ch)
  }

  /** Data is compared only when the structure has no breaking change. */
  ghost predicate StructureSafe(b: Classes, c: Classes) {
    forall ch :: OuterChange(b, c, ch) ==> ch.kind.IsSafe()
  }

  ghost predicate Reported(sort: Sort, b: Classes, c: Classes, ch: Change) {
    OuterChange(b, c, ch) || (StructureSafe(b, c) && InnerChange(sort, b, c, ch))
  }

  // -- Annotation directories -----------------------------------------------------------

  predicate AnnotationMapsEqual(sort: Sort, a: map<string, seq<Annotation>>, b: map<string, seq<Annotation>>) {
    |a| == |b| && forall k :: k in a ==> k in b && SortedEquals(sort, a[k], b[k])
  }

  predicate SetListsEqual(sort: Sort, a: seq<seq<Annotation>>, b: seq<seq<Annotation>>) {
    |a| == |b| && forall i :: 0 <= i < |a| ==> SortedEquals(sort, a[i], b[i])
  }

  predicate ParameterMapsEqual(sort: Sort, a: map<string, seq<seq<Annotation>>>, b: map<string, seq<seq<Annotation>>>) {
    |a| == |b| && forall k :: k in a ==> k in b && SetListsEqual(sort, a[k], b[k])
  }

  /** `AnnotationDirectory.==` on directories that may be missing. */
  predicate DirectoriesEqual(sort: Sort, a: Option<AnnotationDirectory>, b: Option<AnnotationDirectory>) {
    if a.None? || b.None? then a.None? && b.None?
    else
      && SortedEquals(sort, a.value.classAnnotations, b.value.classAnnotations)
      && AnnotationMapsEqual(sort, a.value.fieldAnnotations, b.value.fieldAnnotations)
      && AnnotationMapsEqual(sort, a.value.methodAnnotations, b.value.methodAnnotations)
      && ParameterMapsEqual(sort, a.value.parameterAnnotations, b.value.parameterAnnotations)
  }

  method CompareAnnotationMaps(sort: Sort, a: map<string, seq<Annotation>>, b: map<string, seq<Annotation>>)
      returns (equal: bool)
    requires Sorts(sort)
    ensures equal <==> AnnotationMapsEqual(sort, a, b)
  {
    if |a| != |b| {
      return false;
    }
    var todo := a.Keys;
    while todo != {}
      invariant todo <= a.Keys
      invariant forall k :: k in a && k !in todo ==> k in b && SortedEquals(sort, a[k], b[k])
      decreases todo
    {
      var k :| k in todo;
      if k !in b {
        return false;
      }
      var same := SortedListEquals(sort, a[k], b[k]);
      if !same {
        return false;
      }
      todo := todo - {k};
    }
    equal := true;
  }

  method CompareSetLists(sort: Sort, a: seq<seq<Annotation>>, b: seq<seq<Annotation>>) returns (equal: bool)
    requires Sorts(sort)
    ensures equal <==> SetListsEqual(sort, a, b)
  {
    if |a| != |b| {
      return false;
    }
    for i := 0 to |a|
      invariant forall j :: 0 <= j < i ==> SortedEquals(sort, a[j], b[j])
    {
      var same := SortedListEquals(sort, a[i], b[i]);
      if !same {
        return false;
      }
    }
    equal := true;
  }

  method CompareParameterMaps(sort: Sort, a: map<string, seq<seq<Annotation>>>, b: map<string, seq<seq<Annotation>>>)
      returns (equal: bool)
    requires Sorts(sort)
    ensures equal <==> ParameterMapsEqual(sort, a, b)
  {
    if |a| != |b| {
      return false;
    }
    var todo := a.Keys;
    while todo != {}
      invariant todo <= a.Keys
      invariant forall k :: k in a && k !in todo ==> k in b && SetListsEqual(sort, a[k], b[k])
      decreases todo
    {
      var k :| k in todo;
      if k !in b {
        return false;
      }
      var same := CompareSetLists(sort, a[k], b[k]);
      if !same {
        return false;
      }
      todo := todo - {k};
    }
    equal := true;
  }

  method CompareDirectories(sort: Sort, a: Option<AnnotationDirectory>, b: Option<AnnotationDirectory>)
      returns (equal: bool)
    requires Sorts(sort)
    ensures equal <==> DirectoriesEqual(sort, a, b)
  {
    if a.None? || b.None? {
      return a.None? && b.None?;
    }
    equal := SortedListEquals(sort, a.value.classAnnotations, b.value.classAnnotations);
    if !equal {
      return;
    }
    equal := CompareAnnotationMaps(sort, a.value.fieldAnnotations, b.value.fieldAnnotations);
    if !equal {
      return;
    }
    equal := CompareAnnotationMaps(sort, a.value.methodAnnotations, b.value.methodAnnotations);
    if !equal {
      return;
    }
    equal := CompareParameterMaps(sort, a.value.parameterAnnotations, b.value.parameterAnnotations);
  }

  // -- The comparison ---------------------------------------------------------------------

  /** One change of a kind for each of the keys. */
  method LogKeys(kind: ChangeKind, name: string, side: Side, keys: set<string>, log: ChangeLog)
    modifies log
    ensures forall ch :: ch in log.changes <==>
      (ch in old(log.changes) || (ch.kind == kind && ch.className == name && ch.side == side && ch.key in keys))
  {
    var todo := keys;
    while todo != {}
      invariant todo <= keys
      invariant forall ch :: ch in log.changes <==>
        (ch in old(log.changes) ||
         (ch.kind == kind && ch.className == name && ch.side == side && ch.key in keys && ch.key !in todo))
      decreases todo
    {
      var key :| key in todo;
      log.Add(kind, name, side, key);
      todo := todo - {key};
    }
  }

  method LogFlagChanges(name: string, b: map<string, nat>, c: map<string, nat>, side: Side, log: ChangeLog)
    modifies log
    ensures forall ch :: ch in log.changes <==> (ch in old(log.changes) ||
      (ch.kind == AccessFlagsChanged && ch.className == name && ch.side == side && ch.key in b && ch.key in c &&
       b[ch.key] != c[ch.key]))
  {
    var todo := b.Keys * c.Keys;
    while todo != {}
      invariant todo <= b.Keys * c.Keys
      invariant forall ch :: ch in log.changes <==> (ch in old(log.changes) ||
        (ch.kind == AccessFlagsChanged && ch.className == name && ch.side == side && ch.key in b && ch.key in c &&
         ch.key !in todo && b[ch.key] != c[ch.key]))
      decreases todo
    {
      var key :| key in todo;
      if b[key] != c[key] {
        log.Add(AccessFlagsChanged, name, side, key);
      }
      todo := todo - {key};
    }
  }

  /** `_compareMembers`. */
  method CompareMembers(name: string, b: map<string, nat>, c: map<string, nat>, side: Side, log: ChangeLog)
    modifies log
    ensures forall ch :: ch in log.changes <==> ch in old(log.changes) || MemberChange(name, b, c, side, ch)
  {
    LogKeys(AddedKind(side), name, side, c.Keys - b.Keys, log);
    LogKeys(RemovedKind(side), name, side, b.Keys - c.Keys, log);
    LogFlagChanges(name, b, c, side, log);
  }

  method CompareHeaders(b: ClassDefinition, c: ClassDefinition, log: ChangeLog)
    modifies log
    ensures forall ch :: ch in log.changes <==> ch in old(log.changes) || HeaderChange(b, c, ch)
  {
    if b.sourceFile != c.sourceFile {
      log.Add(SourceFileChanged, b.className, Whole, "");
    }
    if b.accessFlags != c.accessFlags {
      log.Add(AccessFlagsChanged, b.className, Whole, "");
    }
    if b.superclass != c.superclass {
      log.Add(SuperclassChanged, b.className, Whole, "");
    }
    if b.interfaces != c.interfaces {
      log.Add(InterfacesChanged, b.className, Whole, "");
    }
  }

  /** `_compareStructure`. */
  method CompareStructure(b: ClassDefinition, c: ClassDefinition, log: ChangeLog)
    modifies log
    ensures forall ch :: ch in log.changes <==> ch in old(log.changes) || StructureChange(b, c, ch)
  {
    CompareHeaders(b, c, log);
    CompareMembers(b.className, BodyFields(b.body), BodyFields(c.body), Fields, log);
    CompareMembers(b.className, BodyMethodFlags(b.body), BodyMethodFlags(c.body), Methods_, log);
  }

  predicate CodeEquals(a: Option<MethodCode>, b: Option<MethodCode>)
    ensures CodeEquals(a, b) <==> a == b
  {
    if a.None? || b.None? then a.None? && b.None?
    else
      && a.value.registersSize == b.value.registersSize && a.value.insSize == b.value.insSize
      && a.value.outsSize == b.value.outsSize && a.value.canonicalBytecode == b.value.canonicalBytecode
  }

  /** `_compareBytecode`. */
  method CompareBytecode(name: string, b: map<string, MethodEntry>, c: map<string, MethodEntry>, log: ChangeLog)
    modifies log
    ensures forall ch :: ch in log.changes <==> ch in old(log.changes) || CodeChange(name, b, c, ch)
  {
    var todo := b.Keys;
    while todo != {}
      invariant todo <= b.Keys
      invariant forall ch :: ch in log.changes <==>
        ch in old(log.changes) || (CodeChange(name, b, c, ch) && ch.key !in todo)
      decreases todo
    {
      var key :| key in todo;
      if key in c && !CodeEquals(b[key].code, c[key].code) {
        log.Add(BytecodeChanged, name, Methods_, key);
      }
      todo := todo - {key};
    }
  }

  /** `_compareData`. */
  method CompareData(sort: Sort, name: string, b: ClassDefinition, c: ClassDefinition, log: ChangeLog)
    requires Sorts(sort)
    modifies log
    ensures forall ch :: ch in log.changes <==> ch in old(log.changes) || DataChange(sort, name, b, c, ch)
  {
    CompareBytecode(name, BodyMethods(b.body), BodyMethods(c.body), log);
    var same := CompareDirectories(sort, b.annotations, c.annotations);
    if !same {
      log.Add(AnnotationsChanged, name, Whole, "");
    }
    if b.staticValues != c.staticValues {
      log.Add(StaticValuesChanged, name, Whole, "");
    }
  }

  method CompareAllStructures(b: Classes, c: Classes, names: set<string>, log: ChangeLog)
    requires names == b.Keys * c.Keys && forall n :: n in b ==> b[n].className == n
    modifies log
    ensures forall ch :: ch in log.changes <==>
      (ch in old(log.changes) || (ch.className in names && StructureChange(b[ch.className], c[ch.className], ch)))
  {
    var todo := names;
    while todo != {}
      invariant todo <= names
      invariant forall ch :: ch in log.changes <==> (ch in old(log.changes) ||
        (ch.className in names && ch.className !in todo && StructureChange(b[ch.className], c[ch.className], ch)))
      decreases todo
    {
      var name :| name in todo;
      CompareStructure(b[name], c[name], log);
      forall ch | StructureChange(b[name], c[name], ch)
        ensures ch.className == name
      {
      }
      todo := todo - {name};
    }
  }

  method CompareAllData(sort: Sort, b: Classes, c: Classes, names: set<string>, log: ChangeLog)
    requires Sorts(sort) && names == b.Keys * c.Keys
    modifies log
    ensures forall ch :: ch in log.changes <==> ch in old(log.changes) || InnerChange(sort, b, c, ch)
  {
    var todo := names;
    while todo != {}
      invariant todo <= names
      invariant forall ch :: ch in log.changes <==>
        (ch in old(log.changes) || (InnerChange(sort, b, c, ch) && ch.className !in todo))
      decreases todo
    {
      var name :| name in todo;
      CompareData(sort, name, b[name], c[name], log);
      forall ch | DataChange(sort, name, b[name], c[name], ch)
        ensures ch.className == name
      {
      }
      todo := todo - {name};
    }
  }

  /** `diff`: the report lists exactly the changes there are, in no particular order. */
  method Diff(sort: Sort, baseline: seq<ClassDefinition>, candidate: seq<ClassDefinition>) returns (report: seq<Change>)
    requires Sorts(sort)
    ensures forall ch :: ch in report <==> Reported(sort, ClassMap(baseline), ClassMap(candidate), ch)
  {
    var log := new ChangeLog();
    var b, c := ClassMap(baseline), ClassMap(candidate);
    var added, removed := c.Keys - b.Keys, b.Keys - c.Keys;
    while added != {}
      invariant added <= c.Keys - b.Keys
      invariant forall ch :: ch in log.changes <==>
        (ch == Change(ClassAdded, ch.className, Whole, "") && ch.className in c.Keys - b.Keys - added)
      decreases added
    {
      var name :| name in added;
      log.Add(ClassAdded, name, Whole, "");
      added := added - {name};
    }
    ghost var before := log.changes;
    while removed != {}
      invariant removed <= b.Keys - c.Keys
      invariant forall ch :: ch in log.changes <==>
        (ch in before ||
         (ch == Change(ClassRemoved, ch.className, Whole, "") && ch.className in b.Keys - c.Keys - removed))
      decreases removed
    {
      var name :| name in removed;
      log.Add(ClassRemoved, name, Whole, "");
      removed := removed - {name};
    }
    CompareAllStructures(b, c, b.Keys * c.Keys, log);
    assert forall ch :: ch in log.changes <==> OuterChange(b, c, ch);
    if exists ch | ch in log.changes :: !ch.kind.IsSafe() {
      return log.changes;
    }
    CompareAllData(sort, b, c, b.Keys * c.Keys, log);
    report := log.changes;
  }

  // -- What the verdicts mean ---------------------------------------------------------------

  /** Flags, superclass, interfaces and members of a class agree; the source file may differ. */
  predicate SameShape(b: ClassDefinition, c: ClassDefinition) {
    && b.accessFlags == c.accessFlags && b.superclass == c.superclass && b.interfaces == c.interfaces
    && BodyFields(b.body) == BodyFields(c.body) && BodyMethodFlags(b.body) == BodyMethodFlags(c.body)
  }

  predicate SameStructure(b: Classes, c: Classes) {
    b.Keys == c.Keys && forall n :: n in b ==> SameShape(b[n], c[n])
  }

  /** Methods in both have the same code, static values agree, and so do the annotation sets in whatever order. */
  predicate SameCode(b: map<string, MethodEntry>, c: map<string, MethodEntry>) {
    forall k :: k in b && k in c ==> b[k].code == c[k].code
  }

  predicate SameSets(a: map<string, seq<Annotation>>, b: map<string, seq<Annotation>>) {
    a.Keys == b.Keys && forall k :: k in a ==> multiset(a[k]) == multiset(b[k])
  }

  predicate SameSetList(a: seq<seq<Annotation>>, b: seq<seq<Annotation>>) {
    |a| == |b| && forall i :: 0 <= i < |a| ==> multiset(a[i]) == multiset(b[i])
  }

  predicate SameSetLists(a: map<string, seq<seq<Annotation>>>, b: map<string, seq<seq<Annotation>>>) {
    a.Keys == b.Keys && forall k :: k in a ==> SameSetList(a[k], b[k])
  }

  predicate SameAnnotations(a: Option<AnnotationDirectory>, b: Option<AnnotationDirectory>) {
    if a.None? || b.None? then a.None? && b.None?
    else
      && multiset(a.value.classAnnotations) == multiset(b.value.classAnnotations)
      && SameSets(a.value.fieldAnnotations, b.value.fieldAnnotations)
      && SameSets(a.value.methodAnnotations, b.value.methodAnnotations)
      && SameSetLists(a.value.parameterAnnotations, b.value.parameterAnnotations)
  }

  predicate SameData(b: ClassDefinition, c: ClassDefinition) {
    && SameCode(BodyMethods(b.body), BodyMethods(c.body))
    && b.staticValues == c.staticValues && SameAnnotations(b.annotations, c.annotations)
  }

  /** In every class that is in both. */
  predicate SameDataThroughout(b: Classes, c: Classes) {
    forall n :: n in b && n in c ==> SameData(b[n], c[n])
  }

  /** In every annotation set, annotations of one type are the same. */
  predicate UniqueSets(a: Option<AnnotationDirectory>) {
    a.Some? ==>
      && UniqueTypes(a.value.classAnnotations)
      && (forall k :: k in a.value.fieldAnnotations ==> UniqueTypes(a.value.fieldAnnotations[k]))
      && (forall k :: k in a.value.methodAnnotations ==> UniqueTypes(a.value.methodAnnotations[k]))
      && (forall k, i :: k in a.value.parameterAnnotations && 0 <= i < |a.value.parameterAnnotations[k]| ==>
           UniqueTypes(a.value.parameterAnnotations[k][i]))
  }

  predicate UniqueThroughout(b: Classes) {
    forall n :: n in b ==> UniqueSets(b[n].annotations)
  }

  lemma MapsExactly(sort: Sort, a: map<string, seq<Annotation>>, b: map<string, seq<Annotation>>)
    requires Sorts(sort)
    ensures AnnotationMapsEqual(sort, a, b) ==> SameSets(a, b)
    ensures (forall k :: k in a ==> UniqueTypes(a[k])) ==> (AnnotationMapsEqual(sort, a, b) <==> SameSets(a, b))
  {
    forall k | k in a && k in b {
      SortedEqualsExactly(sort, a[k], b[k]);
    }
    KeysExactly(a, b);
  }

  /** As many keys, and all of the one's in the other: the same keys. */
  lemma KeysExactly<T>(a: map<string, T>, b: map<string, T>)
    ensures |a| == |b| && a.Keys <= b.Keys <==> a.Keys == b.Keys
  {
    assert |a| == |a.Keys| && |b| == |b.Keys|;
    if |a| == |b| && a.Keys <= b.Keys {
      SubsetOfSameSize(a.Keys, b.Keys);
    }
  }

  lemma SetListExactly(sort: Sort, a: seq<seq<Annotation>>, b: seq<seq<Annotation>>)
    requires Sorts(sort)
    ensures SetListsEqual(sort, a, b) ==> SameSetList(a, b)
    ensures (forall i :: 0 <= i < |a| ==> UniqueTypes(a[i])) ==> (SetListsEqual(sort, a, b) <==> SameSetList(a, b))
  {
    forall i | 0 <= i < |a| && i < |b| {
      SortedEqualsExactly(sort, a[i], b[i]);
    }
  }

  lemma ParametersExactly(sort: Sort, a: map<string, seq<seq<Annotation>>>, b: map<string, seq<seq<Annotation>>>)
    requires Sorts(sort)
    ensures ParameterMapsEqual(sort, a, b) ==> SameSetLists(a, b)
    ensures (forall k, i :: k in a && 0 <= i < |a[k]| ==> UniqueTypes(a[k][i])) ==>
      (ParameterMapsEqual(sort, a, b) <==> SameSetLists(a, b))
  {
    forall k | k in a && k in b {
      SetListExactly(sort, a[k], b[k]);
    }
    KeysExactly(a, b);
  }

  lemma DirectoriesExactly(sort: Sort, a: Option<AnnotationDirectory>, b: Option<AnnotationDirectory>)
    requires Sorts(sort)
    ensures DirectoriesEqual(sort, a, b) ==> SameAnnotations(a, b)
    ensures UniqueSets(a) ==> (DirectoriesEqual(sort, a, b) <==> SameAnnotations(a, b))
  {
    if a.Some? && b.Some? {
      SortedEqualsExactly(sort, a.value.classAnnotations, b.value.classAnnotations);
      MapsExactly(sort, a.value.fieldAnnotations, b.value.fieldAnnotations);
      MapsExactly(sort, a.value.methodAnnotations, b.value.methodAnnotations);
      ParametersExactly(sort, a.value.parameterAnnotations, b.value.parameterAnnotations);
    }
  }

  predicate Named(b: Classes) {
    forall n :: n in b ==> b[n].className == n
  }

  // Witnesses: a difference of each kind is a change of the report.

  lemma MapsDiffer(name: string, b: map<string, nat>, c: map<string, nat>, side: Side) returns (ch: Change)
    requires b != c
    ensures MemberChange(name, b, c, side, ch) && !ch.kind.IsSafe()
  {
    if k :| k in b && k !in c {
      ch := Change(RemovedKind(side), name, side, k);
    } else if k :| k in c && k !in b {
      ch := Change(AddedKind(side), name, side, k);
    } else {
      assert b.Keys == c.Keys;
      var k :| k in b && b[k] != c[k];
      ch := Change(AccessFlagsChanged, name, side, k);
    }
  }

  lemma ShapesDiffer(b: ClassDefinition, c: ClassDefinition) returns (ch: Change)
    requires !SameShape(b, c)
    ensures StructureChange(b, c, ch) && ch.className == b.className && !ch.kind.IsSafe()
  {
    if BodyFields(b.body) != BodyFields(c.body) {
      ch := MapsDiffer(b.className, BodyFields(b.body), BodyFields(c.body), Fields);
    } else if BodyMethodFlags(b.body) != BodyMethodFlags(c.body) {
      ch := MapsDiffer(b.className, BodyMethodFlags(b.body), BodyMethodFlags(c.body), Methods_);
    } else if b.accessFlags != c.accessFlags {
      ch := Change(AccessFlagsChanged, b.className, Whole, "");
    } else if b.superclass != c.superclass {
      ch := Change(SuperclassChanged, b.className, Whole, "");
    } else {
      ch := Change(InterfacesChanged, b.className, Whole, "");
    }
  }

  lemma StructureSafeExactly(b: Classes, c: Classes)
    requires Named(b)
    ensures StructureSafe(b, c) <==> SameStructure(b, c)
  {
    if StructureSafe(b, c) {
      forall n | n in b
        ensures n in c && SameShape(b[n], c[n])
      {
        assert OuterChange(b, c, Change(ClassRemoved, n, Whole, "")) <==> n !in c;
        if n in c && !SameShape(b[n], c[n]) {
          var ch := ShapesDiffer(b[n], c[n]);
          assert OuterChange(b, c, ch);
        }
      }
      forall n | n in c
        ensures n in b
      {
        assert OuterChange(b, c, Change(ClassAdded, n, Whole, "")) <==> n !in b;
      }
    }
  }

  lemma DataDiffers(sort: Sort, n: string, b: ClassDefinition, c: ClassDefinition) returns (ch: Change)
    requires Sorts(sort) && !SameData(b, c)
    ensures DataChange(sort, n, b, c, ch) && ch.className == n &&
      ch.kind in {BytecodeChanged, AnnotationsChanged, StaticValuesChanged}
  {
    DirectoriesExactly(sort, b.annotations, c.annotations);
    if b.staticValues != c.staticValues {
      ch := Change(StaticValuesChanged, n, Whole, "");
    } else if !SameCode(BodyMethods(b.body), BodyMethods(c.body)) {
      var k :| k in BodyMethods(b.body) && k in BodyMethods(c.body) &&
        BodyMethods(b.body)[k].code != BodyMethods(c.body)[k].code;
      ch := Change(BytecodeChanged, n, Methods_, k);
    } else {
      ch := Change(AnnotationsChanged, n, Whole, "");
    }
  }

  lemma SameDataNoChange(sort: Sort, n: string, b: ClassDefinition, c: ClassDefinition, ch: Change)
    requires Sorts(sort) && SameData(b, c) && UniqueSets(b.annotations)
    ensures !DataChange(sort, n, b, c, ch)
  {
    DirectoriesExactly(sort, b.annotations, c.annotations);
  }

  /** Data changes are none exactly when the data agree, where annotation sets have one of a type. */
  lemma InnerExactly(sort: Sort, b: Classes, c: Classes)
    requires Sorts(sort)
    ensures (forall ch :: !InnerChange(sort, b, c, ch)) ==> SameDataThroughout(b, c)
    ensures UniqueThroughout(b) && SameDataThroughout(b, c) ==> forall ch :: !InnerChange(sort, b, c, ch)
  {
    if forall ch :: !InnerChange(sort, b, c, ch) {
      forall n | n in b && n in c
        ensures SameData(b[n], c[n])
      {
        if !SameData(b[n], c[n]) {
          var ch := DataDiffers(sort, n, b[n], c[n]);
          assert InnerChange(sort, b, c, ch);
        }
      }
    }
    if UniqueThroughout(b) && SameDataThroughout(b, c) {
      forall ch
        ensures !InnerChange(sort, b, c, ch)
      {
        var n := ch.className;
        if n in b && n in c {
          SameDataNoChange(sort, n, b[n], c[n], ch);
        }
      }
    }
  }

  /** `isSafe`: every reported change is safe. */
  ghost predicate SafeReport(sort: Sort, b: Classes, c: Classes) {
    forall ch :: Reported(sort, b, c, ch) ==> ch.kind.IsSafe()
  }

  lemma InnerNeverSafe(sort: Sort, b: Classes, c: Classes, ch: Change)
    ensures InnerChange(sort, b, c, ch) ==> ch.kind in {BytecodeChanged, AnnotationsChanged, StaticValuesChanged}
    ensures InnerChange(sort, b, c, ch) && StructureSafe(b, c) ==> Reported(sort, b, c, ch)
  {
  }

  /** A report is safe only if the executables agree on everything but source files;
      and exactly then, where annotations of one type in a set are the same. */
  lemma SafeExactly(sort: Sort, b: Classes, c: Classes)
    requires Sorts(sort) && Named(b)
    ensures SafeReport(sort, b, c) ==> SameStructure(b, c) && SameDataThroughout(b, c)
    ensures UniqueThroughout(b) ==> (SafeReport(sort, b, c) <==> SameStructure(b, c) && SameDataThroughout(b, c))
  {
    StructureSafeExactly(b, c);
    InnerExactly(sort, b, c);
    if SafeReport(sort, b, c) {
      forall ch
        ensures !InnerChange(sort, b, c, ch)
      {
        InnerNeverSafe(sort, b, c, ch);
      }
    }
  }

  // -- The archive check ------------------------------------------------------------------------

  predicate IsAdditive(kind: ChangeKind) {
    kind.ClassAdded? || kind.MethodAdded? || kind.FieldAdded? || kind.IsSafe()
  }

  ghost predicate AdditiveReport(sort: Sort, b: Classes, c: Classes) {
    forall ch :: Reported(sort, b, c, ch) ==> IsAdditive(ch.kind)
  }

  /** `compareDex`: not additive when a file is missing or does not parse. */
  method CompareDex(sort: Sort, parse: seq<byte> -> Option<seq<ClassDefinition>>, release: Option<seq<byte>>,
                    patch: Option<seq<byte>>)
      returns (additiveOnly: bool, report: seq<Change>)
    requires Sorts(sort)
    ensures additiveOnly <==> (release.Some? && patch.Some? && parse(release.value).Some? && parse(patch.value).Some? &&
      AdditiveReport(sort, ClassMap(parse(release.value).value), ClassMap(parse(patch.value).value)))
    ensures if release.Some? && patch.Some? && parse(release.value).Some? && parse(patch.value).Some? then
        forall ch :: ch in report <==>
          Reported(sort, ClassMap(parse(release.value).value), ClassMap(parse(patch.value).value), ch)
      else report == []
  {
    if release.None? || patch.None? {
      return false, [];
    }
    var base := parse(release.value);
    if base.None? {
      return false, [];
    }
    var cand := parse(patch.value);
    if cand.None? {
      return false, [];
    }
    report := Diff(sort, base.value, cand.value);
    additiveOnly := true;
    for i := 0 to |report|
      invariant additiveOnly <==> forall j :: 0 <= j < i ==> IsAdditive(report[j].kind)
    {
      if !IsAdditive(report[i].kind) {
        additiveOnly := false;
      }
    }
    assert forall ch :: ch in report <==> exists j :: 0 <= j < |report| && report[j] == ch;
  }

  predicate FlagsSurvive(b: map<string, nat>, c: map<string, nat>) {
    forall k :: k in b ==> k in c && c[k] == b[k]
  }

  predicate ClassSurvives(b: ClassDefinition, c: ClassDefinition) {
    && b.accessFlags == c.accessFlags && b.superclass == c.superclass && b.interfaces == c.interfaces
    && FlagsSurvive(BodyFields(b.body), BodyFields(c.body))
    && FlagsSurvive(BodyMethodFlags(b.body), BodyMethodFlags(c.body))
  }

  /** Every class and member of the baseline is still there, its flags, superclass and interfaces unchanged. */
  predicate Survives(b: Classes, c: Classes) {
    forall n :: n in b ==> n in c && ClassSurvives(b[n], c[n])
  }

  lemma FlagsLost(name: string, b: map<string, nat>, c: map<string, nat>, side: Side) returns (ch: Change)
    requires !FlagsSurvive(b, c)
    ensures MemberChange(name, b, c, side, ch) && !IsAdditive(ch.kind)
  {
    var k :| k in b && (k !in c || c[k] != b[k]);
    ch := if k in c then Change(AccessFlagsChanged, name, side, k) else Change(RemovedKind(side), name, side, k);
  }

  lemma ClassLost(b: ClassDefinition, c: ClassDefinition) returns (ch: Change)
    requires !ClassSurvives(b, c)
    ensures StructureChange(b, c, ch) && ch.className == b.className && !IsAdditive(ch.kind)
  {
    if !FlagsSurvive(BodyFields(b.body), BodyFields(c.body)) {
      ch := FlagsLost(b.className, BodyFields(b.body), BodyFields(c.body), Fields);
    } else if !FlagsSurvive(BodyMethodFlags(b.body), BodyMethodFlags(c.body)) {
      ch := FlagsLost(b.className, BodyMethodFlags(b.body), BodyMethodFlags(c.body), Methods_);
    } else if b.accessFlags != c.accessFlags {
      ch := Change(AccessFlagsChanged, b.className, Whole, "");
    } else if b.superclass != c.superclass {
      ch := Change(SuperclassChanged, b.className, Whole, "");
    } else {
      ch := Change(InterfacesChanged, b.className, Whole, "");
    }
  }

  lemma OuterAdditiveExactly(b: Classes, c: Classes)
    requires Named(b)
    ensures (forall ch :: OuterChange(b, c, ch) ==> IsAdditive(ch.kind)) <==> Survives(b, c)
  {
    if forall ch :: OuterChange(b, c, ch) ==> IsAdditive(ch.kind) {
      forall n | n in b
        ensures n in c && ClassSurvives(b[n], c[n])
      {
        assert OuterChange(b, c, Change(ClassRemoved, n, Whole, "")) <==> n !in c;
        if n in c && !ClassSurvives(b[n], c[n]) {
          var ch := ClassLost(b[n], c[n]);
          assert OuterChange(b, c, ch);
        }
      }
    }
  }

  /** What merely additive amounts to: everything survives; and the data agree too,
      but only if nothing at all was added, since otherwise they are not looked at. */
  lemma AdditiveExactly(sort: Sort, b: Classes, c: Classes)
    requires Sorts(sort) && Named(b)
    ensures AdditiveReport(sort, b, c) ==> Survives(b, c) && (SameStructure(b, c) ==> SameDataThroughout(b, c))
    ensures UniqueThroughout(b) ==>
      (AdditiveReport(sort, b, c) <==> Survives(b, c) && (SameStructure(b, c) ==> SameDataThroughout(b, c)))
  {
    OuterAdditiveExactly(b, c);
    StructureSafeExactly(b, c);
    InnerExactly(sort, b, c);
    if AdditiveReport(sort, b, c) {
      assert forall ch :: OuterChange(b, c, ch) ==> Reported(sort, b, c, ch);
      if SameStructure(b, c) {
        forall ch
          ensures !InnerChange(sort, b, c, ch)
        {
          InnerNeverSafe(sort, b, c, ch);
        }
      }
    }
  }

  /** So it does not say that code is unchanged: with a class added, changed bytecode passes. */
  lemma AdditiveHidesBytecode(sort: Sort, id: MethodEntry, code: Option<MethodCode>)
    requires Sorts(sort) && id.code != code
    ensures
      var old_ := ClassDefinition("A", 0, None, [], None, None, None, Some(ClassBody([], [], [id], [])));
      var new_ := old_.(body := Some(ClassBody([], [], [id.(code := code)], [])));
      var b, c := map["A" := old_], map["A" := new_, "B" := new_.(className := "B")];
      AdditiveReport(sort, b, c) && !SameDataThroughout(b, c)
  {
    var old_ := ClassDefinition("A", 0, None, [], None, None, None, Some(ClassBody([], [], [id], [])));
    var new_ := old_.(body := Some(ClassBody([], [], [id.(code := code)], [])));
    var b, c := map["A" := old_], map["A" := new_, "B" := new_.(className := "B")];
    OneMethod(id);
    OneMethod(id.(code := code));
    assert "B" in c && "B" !in b;
    AdditiveExactly(sort, b, c);
    var k := MethodKey(id.id);
    assert k in BodyMethods(b["A"].body) && k in BodyMethods(c["A"].body);
    assert BodyMethods(b["A"].body)[k].code != BodyMethods(c["A"].body)[k].code;
    assert !SameData(b["A"], c["A"]);
  }

  lemma OneMethod(m: MethodEntry)
    ensures BodyMethods(Some(ClassBody([], [], [m], []))) == map[MethodKey(m.id) := m]
  {
    assert [m] + [] == [m] && [m][..0] == [];
    assert Methods([m]) == Methods([m][..0])[MethodKey(m.id) := m];
  }
}
