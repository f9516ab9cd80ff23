/** Comparing annotation sets: both are sorted by type first, by a sort that says
    nothing about the order of equal types, and then compared in order. */
module Annotations {
  import opened DexModel

  /** UTF-16 code unit order, as `String.compareTo`. */
  predicate StringAtMost(x: string, y: string) {
    x == "" || (y != "" && (x[0] < y[0] || (x[0] == y[0] && StringAtMost(x[1..], y[1..]))))
  }

  lemma {:induction false} StringAntisymmetric(x: string, y: string)
    requires StringAtMost(x, y) && StringAtMost(y, x)
    ensures x == y
  {
    if x != "" {
      StringAntisymmetric(x[1..], y[1..]);
      assert x == [x[0]] + x[1..] && y == [y[0]] + y[1..];
    }
  }

  predicate SortedByType(s: seq<Annotation>) {
    forall i, j :: 0 <= i < j < |s| ==> StringAtMost(s[i].typeDescriptor, s[j].typeDescriptor)
  }

  type Sort = seq<Annotation> -> seq<Annotation>

  /** All that is known of the library's sort. */
  ghost predicate Sorts(sort: Sort) {
    forall s :: SortedByType(sort(s)) && multiset(sort(s)) == multiset(s)
  }

  /** Annotations of one type are one and the same. */
  predicate UniqueTypes(s: seq<Annotation>) {
    forall i, j :: 0 <= i < j < |s| && s[i].typeDescriptor == s[j].typeDescriptor ==> s[i] == s[j]
  }

  /** `_sortedAnnotationListEquals`. */
  method SortedListEquals(sort: Sort, a: seq<Annotation>, b: seq<Annotation>) returns (equal: bool)
    requires Sorts(sort)
    ensures equal <==> SortedEquals(sort, a, b)
  {
    if |a| != |b| {
      return false;
    }
    var x, y := sort(a), sort(b);
    SortKeepsLength(sort, a);
    SortKeepsLength(sort, b);
    for i := 0 to |x|
      invariant forall j :: 0 <= j < i ==> x[j] == y[j]
    {
      AnnotationEqualsIs(x[i], y[i]);
      if !AnnotationEquals(x[i], y[i]) {
        return false;
      }
    }
    assert x == y;
    equal := true;
  }

  predicate SortedEquals(sort: Sort, a: seq<Annotation>, b: seq<Annotation>) {
    |a| == |b| && sort(a) == sort(b)
  }

  lemma SortKeepsLength(sort: Sort, s: seq<Annotation>)
    requires Sorts(sort)
    ensures |sort(s)| == |s|
  {
    assert multiset(sort(s)) == multiset(s);
    assert |multiset(sort(s))| == |sort(s)| && |multiset(s)| == |s|;
  }

  lemma MemberAt(s: seq<Annotation>, a: Annotation) returns (i: nat)
    requires a in multiset(s)
    ensures i < |s| && s[i] == a
  {
    i :| i < |s| && s[i] == a;
  }

  lemma FirstAtMost(s: seq<Annotation>, a: Annotation)
    requires SortedByType(s) && a in multiset(s)
    ensures |s| > 0 && StringAtMost(s[0].typeDescriptor, a.typeDescriptor)
  {
    var i := MemberAt(s, a);
    TypeAtMostRefl(a.typeDescriptor);
  }

  ghost predicate OneOfAType(m: multiset<Annotation>) {
    forall a, b :: a in m && b in m && a.typeDescriptor == b.typeDescriptor ==> a == b
  }

  lemma SameFirst(x: seq<Annotation>, y: seq<Annotation>)
    requires multiset(x) == multiset(y) && x != [] && y != []
    requires SortedByType(x) && SortedByType(y) && OneOfAType(multiset(x))
    ensures x[0] == y[0]
  {
    assert x[0] in multiset(x) && y[0] in multiset(y);
    FirstAtMost(x, y[0]);
    FirstAtMost(y, x[0]);
    StringAntisymmetric(x[0].typeDescriptor, y[0].typeDescriptor);
  }

  lemma DropFirst(s: seq<Annotation>)
    requires s != []
    ensures multiset(s) == multiset{s[0]} + multiset(s[1..])
    ensures SortedByType(s) ==> SortedByType(s[1..])
  {
    assert s == [s[0]] + s[1..];
  }

  lemma OneOfATypeSub(m: multiset<Annotation>, n: multiset<Annotation>)
    requires OneOfAType(m) && n <= m
    ensures OneOfAType(n)
  {
  }

  lemma SameLength(x: seq<Annotation>, y: seq<Annotation>)
    requires multiset(x) == multiset(y)
    ensures |x| == |y|
  {
    assert |multiset(x)| == |x| && |multiset(y)| == |y|;
  }

  lemma SameRest(x: seq<Annotation>, y: seq<Annotation>)
    requires x != [] && y != [] && x[0] == y[0] && multiset(x) == multiset(y)
    ensures multiset(x[1..]) == multiset(y[1..]) <= multiset(x)
  {
    DropFirst(x);
    DropFirst(y);
    assert multiset(x[1..]) == multiset(x) - multiset{x[0]};
    assert multiset(y[1..]) == multiset(y) - multiset{y[0]};
  }

  /** With one annotation a type, sorted lists of the same annotations are equal. */
  lemma {:induction false} SortedUnique(x: seq<Annotation>, y: seq<Annotation>)
    requires multiset(x) == multiset(y) && SortedByType(x) && SortedByType(y) && OneOfAType(multiset(x))
    ensures x == y
  {
    SameLength(x, y);
    if x != [] {
      SameFirst(x, y);
      SameRest(x, y);
      OneOfATypeSub(multiset(x), multiset(x[1..]));
      SortedUnique(x[1..], y[1..]);
      assert x == [x[0]] + x[1..] && y == [y[0]] + y[1..];
    }
  }

  lemma {:induction false} TypeAtMostRefl(x: string)
    ensures StringAtMost(x, x)
  {
    if x != "" {
      TypeAtMostRefl(x[1..]);
    }
  }

  lemma UniqueInMultiset(s: seq<Annotation>, a: Annotation, b: Annotation)
    requires UniqueTypes(s) && a in multiset(s) && b in multiset(s) && a.typeDescriptor == b.typeDescriptor
    ensures a == b
  {
    var i := MemberAt(s, a);
    var j := MemberAt(s, b);
  }

  /** So the comparison is exact, whatever order the sets come in, when annotations of one type are the same. */
  lemma SortedEqualsExactly(sort: Sort, a: seq<Annotation>, b: seq<Annotation>)
    requires Sorts(sort)
    ensures SortedEquals(sort, a, b) ==> multiset(a) == multiset(b)
    ensures UniqueTypes(a) ==> (SortedEquals(sort, a, b) <==> multiset(a) == multiset(b))
  {
    assert multiset(sort(a)) == multiset(a) && multiset(sort(b)) == multiset(b);
    if UniqueTypes(a) && multiset(a) == multiset(b) {
      assert |a| == |multiset(a)| == |multiset(b)| == |b|;
      forall c, d | c in multiset(sort(a)) && d in multiset(sort(a)) && c.typeDescriptor == d.typeDescriptor
        ensures c == d
      {
        UniqueInMultiset(a, c, d);
      }
      SortedUnique(sort(a), sort(b));
    }
  }

  // -- Exactly, for a stable sort -----------------------------------------------------

  /** The annotations of a type, in order. */
  function OfType(s: seq<Annotation>, t: string): seq<Annotation> {
    if s == [] then [] else (if s[0].typeDescriptor == t then [s[0]] else []) + OfType(s[1..], t)
  }

  /** A sort that keeps annotations of one type in order. */
  ghost predicate Stable(sort: Sort) {
    forall s, t :: OfType(sort(s), t) == OfType(s, t)
  }

  lemma {:induction false} OfTypeMember(s: seq<Annotation>, t: string)
    requires OfType(s, t) != []
    ensures exists a :: a in multiset(s) && a.typeDescriptor == t
  {
    if s[0].typeDescriptor == t {
      assert s[0] in multiset(s);
    } else {
      OfTypeMember(s[1..], t);
      DropFirst(s);
    }
  }

  lemma {:induction false} OfTypeAt(s: seq<Annotation>, t: string, i: nat)
    requires i < |s| && s[i].typeDescriptor == t
    ensures |OfType(s[..i], t)| < |OfType(s, t)| && OfType(s, t)[|OfType(s[..i], t)|] == s[i]
  {
    if i > 0 {
      OfTypeAt(s[1..], t, i - 1);
      assert s[..i][1..] == s[1..][..i - 1];
    }
  }

  /** Sorted lists with the same annotations of each type, in the same order, are equal. */
  lemma {:induction false} SameByType(x: seq<Annotation>, y: seq<Annotation>)
    requires SortedByType(x) && SortedByType(y) && SameOfEachType(x, y)
    ensures x == y
    decreases |x|
  {
    var head := if y == [] then "" else y[0].typeDescriptor;
    assert OfType(x, head) == OfType(y, head);
    if x != [] {
      var t := x[0].typeDescriptor;
      assert OfType(x, t)[0] == x[0];
      FirstType(y, t);
      FirstType(x, y[0].typeDescriptor);
      StringAntisymmetric(t, y[0].typeDescriptor);
      assert OfType(y, t)[0] == y[0];
      forall u
        ensures OfType(x[1..], u) == OfType(y[1..], u)
      {
        assert OfType(x, u) == OfType(y, u);
        assert OfType(x[1..], u) == if u == t then OfType(x, u)[1..] else OfType(x, u);
        assert OfType(y[1..], u) == if u == t then OfType(y, u)[1..] else OfType(y, u);
      }
      DropFirst(x);
      DropFirst(y);
      SameByType(x[1..], y[1..]);
      assert x == [x[0]] + x[1..] && y == [y[0]] + y[1..];
    }
  }

  lemma FirstType(s: seq<Annotation>, t: string)
    requires SortedByType(s) && OfType(s, t) != []
    ensures s != [] && StringAtMost(s[0].typeDescriptor, t)
  {
    OfTypeMember(s, t);
    var a :| a in multiset(s) && a.typeDescriptor == t;
    FirstAtMost(s, a);
  }

  ghost predicate SameOfEachType(a: seq<Annotation>, b: seq<Annotation>) {
    forall t :: OfType(a, t) == OfType(b, t)
  }

  /** With a stable sort the comparison says that the annotations of each type are the same, in the same order. */
  lemma StableEqualsExactly(sort: Sort, a: seq<Annotation>, b: seq<Annotation>)
    requires Sorts(sort) && Stable(sort)
    ensures SortedEquals(sort, a, b) <==> SameOfEachType(a, b)
  {
    var x, y := sort(a), sort(b);
    SortKeepsLength(sort, a);
    SortKeepsLength(sort, b);
    assert SameOfEachType(x, y) <==> SameOfEachType(a, b) by {
      forall t
        ensures OfType(x, t) == OfType(a, t) && OfType(y, t) == OfType(b, t)
      {
      }
    }
    assert SortedByType(x) && SortedByType(y);
    if SameOfEachType(x, y) {
      SameByType(x, y);
    }
  }

  function Swapped(s: seq<Annotation>, i: nat, j: nat): (r: seq<Annotation>)
    requires i < j < |s|
    ensures |r| == |s| && multiset(r) == multiset(s)
  {
    s[i := s[j]][j := s[i]]
  }

  /** So a set can be compared in whatever order it comes exactly when annotations of one type are the same. */
  lemma OrderMattersExactly(sort: Sort, a: seq<Annotation>)
    requires Sorts(sort) && Stable(sort)
    ensures (forall b :: multiset(b) == multiset(a) ==> SortedEquals(sort, a, b)) <==> UniqueTypes(a)
  {
    if UniqueTypes(a) {
      forall b | multiset(b) == multiset(a)
        ensures SortedEquals(sort, a, b)
      {
        SortedEqualsExactly(sort, a, b);
      }
    } else {
      var i, j :| 0 <= i < j < |a| && a[i].typeDescriptor == a[j].typeDescriptor && a[i] != a[j];
      SwapShows(sort, a, i, j);
      assert multiset(Swapped(a, i, j)) == multiset(a);
    }
  }

  lemma SwapShows(sort: Sort, a: seq<Annotation>, i: nat, j: nat)
    requires Sorts(sort) && Stable(sort)
    requires i < j < |a| && a[i].typeDescriptor == a[j].typeDescriptor && a[i] != a[j]
    ensures !SortedEquals(sort, a, Swapped(a, i, j))
  {
    var b, t := Swapped(a, i, j), a[i].typeDescriptor;
    StableEqualsExactly(sort, a, b);
    OfTypeAt(a, t, i);
    OfTypeAt(b, t, i);
    assert a[..i] == b[..i] && b[i] == a[j];
  }

  /** With two of a type, a sort that keeps them in place tells the orders apart. */
  lemma OrderCanMatter(sort: Sort, x: Annotation, y: Annotation)
    requires Sorts(sort) && x != y && x.typeDescriptor == y.typeDescriptor
    requires sort([x, y]) == [x, y] && sort([y, x]) == [y, x]
    ensures multiset([x, y]) == multiset([y, x]) && !SortedEquals(sort, [x, y], [y, x])
  {
    assert [x, y][0] == x && [y, x][0] == y;
  }
}
