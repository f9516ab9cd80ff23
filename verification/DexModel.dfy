/** Parsed executables: classes with their members, code, annotations and static
    values, every pool index already resolved. Two values are equal in the source's
    `==` exactly when they are equal here, which is proved where it is not plain. */
module DexModel {
  import opened Bytes
  import opened Canonicalizer
  import opened Text

  datatype EncodedValue =
    | PrimitiveValue(typeTag: nat, value: int)
    | StringValue(text: string)
    | TypeValue(descriptor: string)
    | FieldRefValue(field: FieldId)
    | MethodRefValue(method_: MethodId)
    | EnumValue(constant: FieldId)
    | MethodTypeValue(proto: Proto)
    | MethodHandleValue(index: nat)
    | ArrayValue(elements: seq<EncodedValue>)
    | AnnotationValue(annotation: Annotation)
    | NullValue
    | BoolValue(truth: bool)

  datatype Annotation = Annotation(visibility: int, typeDescriptor: string, members: map<string, EncodedValue>)

  /** `operator ==` of the value classes: arrays and annotations compare their parts. */
  predicate ValueEquals(x: EncodedValue, y: EncodedValue)
    decreases x, 0
  {
    match (x, y)
    case (ArrayValue(xs), ArrayValue(ys)) => ValuesEqual(xs, ys)
    case (AnnotationValue(a), AnnotationValue(b)) => AnnotationEquals(a, b)
    case (ArrayValue(_), _) => false
    case (AnnotationValue(_), _) => false
    case (_, _) => x == y
  }

  predicate ValuesEqual(xs: seq<EncodedValue>, ys: seq<EncodedValue>)
    decreases xs, 1
  {
    |xs| == |ys| && forall i :: 0 <= i < |xs| ==> ValueEquals(xs[i], ys[i])
  }

  /** Same visibility and type, as many members, and each of `a`'s found equal in `b`. */
  predicate AnnotationEquals(a: Annotation, b: Annotation)
    decreases a, 1
  {
    && a.visibility == b.visibility && a.typeDescriptor == b.typeDescriptor
    && |a.members| == |b.members|
    && forall k :: k in a.members ==> k in b.members && ValueEquals(a.members[k], b.members[k])
  }

  lemma {:induction false} ValueEqualsIs(x: EncodedValue, y: EncodedValue)
    ensures ValueEquals(x, y) <==> x == y
    decreases x, 0
  {
    match (x, y)
    case (ArrayValue(xs), ArrayValue(ys)) =>
      forall i | 0 <= i < |xs| && i < |ys|
        ensures ValueEquals(xs[i], ys[i]) <==> xs[i] == ys[i]
      {
        ValueEqualsIs(xs[i], ys[i]);
      }
    case (AnnotationValue(a), AnnotationValue(b)) => AnnotationEqualsIs(a, b);
    case (_, _) =>
  }

  lemma {:induction false} AnnotationEqualsIs(a: Annotation, b: Annotation)
    ensures AnnotationEquals(a, b) <==> a == b
    decreases a, 1
  {
    forall k | k in a.members && k in b.members
      ensures ValueEquals(a.members[k], b.members[k]) <==> a.members[k] == b.members[k]
    {
      ValueEqualsIs(a.members[k], b.members[k]);
    }
    if AnnotationEquals(a, b) {
      SubsetOfSameSize(a.members.Keys, b.members.Keys);
      assert a.members == b.members;
    }
  }

  lemma {:induction false} SubsetOfSameSize<T>(x: set<T>, y: set<T>)
    requires x <= y && |x| == |y|
    ensures x == y
  {
    assert |y - x| == |y| - |x|;
    assert y == x + (y - x);
  }

  /** All annotations of a class, its fields, methods and method parameters. */
  datatype AnnotationDirectory = AnnotationDirectory(
    classAnnotations: seq<Annotation>,
    fieldAnnotations: map<string, seq<Annotation>>,
    methodAnnotations: map<string, seq<Annotation>>,
    parameterAnnotations: map<string, seq<seq<Annotation>>>)

  datatype FieldEntry = FieldEntry(field: FieldId, accessFlags: nat)
  datatype MethodCode = MethodCode(registersSize: nat, insSize: nat, outsSize: nat, canonicalBytecode: string)
  datatype MethodEntry = MethodEntry(id: MethodId, accessFlags: nat, code: Option<MethodCode>)

  datatype ClassBody = ClassBody(
    staticFields: seq<FieldEntry>, instanceFields: seq<FieldEntry>,
    directMethods: seq<MethodEntry>, virtualMethods: seq<MethodEntry>)

  datatype ClassDefinition = ClassDefinition(
    className: string, accessFlags: nat, superclass: Option<string>, interfaces: seq<string>,
    sourceFile: Option<string>,
    annotations: Option<AnnotationDirectory>, staticValues: Option<seq<EncodedValue>>, body: Option<ClassBody>)

  // -- The maps a comparison goes by; of several entries with a key the last counts ----

  function FieldKey(f: FieldId): string {
    f.className + "." + f.fieldName + ":" + f.typeName
  }

  function MethodKey(m: MethodId): string {
    m.className + "." + m.methodName + "(" + Join(m.proto.parameters, ", ") + ")" + m.proto.returnType
  }

  function ClassMap(defs: seq<ClassDefinition>): (r: map<string, ClassDefinition>)
    ensures forall k :: k in r ==> r[k].className == k
  {
    if defs == [] then map[] else ClassMap(defs[..|defs| - 1])[defs[|defs| - 1].className := defs[|defs| - 1]]
  }

  function FieldFlags(fields: seq<FieldEntry>): map<string, nat> {
    if fields == [] then map[]
    else FieldFlags(fields[..|fields| - 1])[FieldKey(fields[|fields| - 1].field) := fields[|fields| - 1].accessFlags]
  }

  function Methods(methods: seq<MethodEntry>): map<string, MethodEntry> {
    if methods == [] then map[]
    else Methods(methods[..|methods| - 1])[MethodKey(methods[|methods| - 1].id) := methods[|methods| - 1]]
  }

  function BodyFields(body: Option<ClassBody>): map<string, nat> {
    if body.None? then map[] else FieldFlags(body.value.staticFields + body.value.instanceFields)
  }

  function BodyMethods(body: Option<ClassBody>): map<string, MethodEntry> {
    if body.None? then map[] else Methods(body.value.directMethods + body.value.virtualMethods)
  }

  function BodyMethodFlags(body: Option<ClassBody>): map<string, nat> {
    map k | k in BodyMethods(body) :: BodyMethods(body)[k].accessFlags
  }
}
