/** What a safe report says about the instructions themselves: the differ compares canonical
    texts, and here they are the texts of actual code over actual pools. */
module Verdict {
  import opened Bytes
  import opened Canonicalizer
  import opened Meaning
  import opened Faithful
  import opened FaithfulPools
  import opened DexModel
  import opened Annotations
  import opened Differ

  /** An executable: its classes, its pools, and the instructions of each method by class and key. */
  datatype Executable = Executable(classes: Classes, pools: Pools, code: (string, string) -> Code)

  /** The method's code has the text of these instructions; it has no try tables. */
  predicate HasText(m: MethodEntry, code: Code, pools: Pools) {
    m.code.Some? ==> Canonical(code, pools) == Some(m.code.value.canonicalBytecode)
  }

  /** Every method has the text of its instructions. */
  predicate Parsed(e: Executable) {
    && Named(e.classes)
    && forall n :: n in e.classes ==> ParsedMethods(e, n, BodyMethods(e.classes[n].body))
  }

  predicate ParsedMethods(e: Executable, n: string, ms: map<string, MethodEntry>) {
    forall k :: k in ms ==> HasText(ms[k], e.code(n, k), e.pools)
  }

  /** Both methods have code or neither has, with the same registers and the same meaning. */
  predicate SameBehaviour(x: MethodEntry, a: Code, pa: Pools, y: MethodEntry, b: Code, pb: Pools) {
    && (x.code.Some? <==> y.code.Some?)
    && (x.code.Some? ==>
         var v, w := x.code.value, y.code.value;
         && v.registersSize == w.registersSize && v.insSize == w.insSize && v.outsSize == w.outsSize
         && SameMeaning(a, pa, b, pb, 0))
  }

  predicate SameMethods(d: Executable, e: Executable, n: string, xs: map<string, MethodEntry>, ys: map<string,
                        MethodEntry>) {
    forall k :: k in xs && k in ys ==> SameBehaviour(xs[k], d.code(n, k), d.pools, ys[k], e.code(n, k), e.pools)
  }

  /** In every class that is in both, common methods behave the same, static values and annotations agree. */
  predicate SameThroughout(d: Executable, e: Executable) {
    forall n :: n in d.classes && n in e.classes ==>
      && SameMethods(d, e, n, BodyMethods(d.classes[n].body), BodyMethods(e.classes[n].body))
      && e.classes[n].staticValues == d.classes[n].staticValues
      && SameAnnotations(d.classes[n].annotations, e.classes[n].annotations)
  }

  lemma CodeExactly(x: MethodEntry, a: Code, pa: Pools, y: MethodEntry, b: Code, pb: Pools)
    requires HasText(x, a, pa) && HasText(y, b, pb) && AllFaithful(pa, pb)
    ensures x.code == y.code <==> SameBehaviour(x, a, pa, y, b, pb)
  {
    hide Canonical, SameMeaning;
    if x.code.Some? && y.code.Some? {
      assert Canonical(a, pa).Some? && Canonical(b, pb).Some?;
    }
  }

  lemma MethodsExactly(d: Executable, e: Executable, n: string, xs: map<string, MethodEntry>, ys: map<string,
                       MethodEntry>)
    requires ParsedMethods(d, n, xs) && ParsedMethods(e, n, ys) && AllFaithful(d.pools, e.pools)
    ensures SameCode(xs, ys) <==> SameMethods(d, e, n, xs, ys)
  {
    hide HasText, SameBehaviour, AllFaithful;
    forall k | k in xs && k in ys
      ensures xs[k].code == ys[k].code <==>
              SameBehaviour(xs[k], d.code(n, k), d.pools, ys[k], e.code(n, k), e.pools)
    {
      CodeExactly(xs[k], d.code(n, k), d.pools, ys[k], e.code(n, k), e.pools);
    }
  }

  lemma ThroughoutExactly(d: Executable, e: Executable)
    requires Parsed(d) && Parsed(e) && AllFaithful(d.pools, e.pools)
    ensures SameDataThroughout(d.classes, e.classes) <==> SameThroughout(d, e)
  {
    hide ParsedMethods, SameCode, SameMethods, AllFaithful, SameAnnotations, Named;
    forall n | n in d.classes && n in e.classes
      ensures SameCode(BodyMethods(d.classes[n].body), BodyMethods(e.classes[n].body)) <==>
              SameMethods(d, e, n, BodyMethods(d.classes[n].body), BodyMethods(e.classes[n].body))
    {
      MethodsExactly(d, e, n, BodyMethods(d.classes[n].body), BodyMethods(e.classes[n].body));
    }
  }

  /** Over faithful pools a report is safe only if the structure is the same, every method means the
      same, and static values and annotations agree; and exactly then, where annotations of one
      type in a set are the same. */
  lemma SafeMeansSame(sort: Sort, d: Executable, e: Executable)
    requires Sorts(sort) && Parsed(d) && Parsed(e) && AllFaithful(d.pools, e.pools)
    ensures SafeReport(sort, d.classes, e.classes) ==> SameStructure(d.classes, e.classes) && SameThroughout(d, e)
    ensures UniqueThroughout(d.classes) ==>
      (SafeReport(sort, d.classes, e.classes) <==> SameStructure(d.classes, e.classes) && SameThroughout(d, e))
  {
    ThroughoutExactly(d, e);
    SafeExactly(sort, d.classes, e.classes);
  }

  /** A change of meaning is reported, for any two methods that are not mistakable and legible. */
  lemma ChangeReported(sort: Sort, d: Executable, e: Executable, n: string, k: string)
    requires Sorts(sort) && Parsed(d) && Parsed(e) && n in d.classes && n in e.classes
    requires k in BodyMethods(d.classes[n].body) && k in BodyMethods(e.classes[n].body)
    requires BodyMethods(d.classes[n].body)[k].code.Some? && BodyMethods(e.classes[n].body)[k].code.Some?
    requires NoneMistakable(d.pools, Used(d.code(n, k), 0), e.pools, Used(e.code(n, k), 0))
    requires Legible(d.pools, Used(d.code(n, k), 0), e.pools, Used(e.code(n, k), 0))
    requires !SameMeaning(d.code(n, k), d.pools, e.code(n, k), e.pools, 0)
    ensures !SafeReport(sort, d.classes, e.classes)
  {
    var x, y := BodyMethods(d.classes[n].body)[k], BodyMethods(e.classes[n].body)[k];
    assert HasText(x, d.code(n, k), d.pools) && HasText(y, e.code(n, k), e.pools);
    hide Canonical, SameMeaning, NoneMistakable, Legible, SafeReport, Used;
    CanonicalExactly(d.code(n, k), d.pools, e.code(n, k), e.pools);
    SafeExactly(sort, d.classes, e.classes);
    assert SameDataThroughout(d.classes, e.classes) ==> SameData(d.classes[n], e.classes[n]);
  }
}
