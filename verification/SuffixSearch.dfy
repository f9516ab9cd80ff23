/** The encoder's match finder: the suffix array of the old bytes and the binary
    search over it. */
module SuffixSearch {
  import opened Bytes

  /** The comparator handed to the sort: memcmp over the common length, then the shorter suffix first. */
  predicate SuffixLess(data: seq<byte>, a: nat, b: nat)
    requires a < |data| && b < |data|
  {
    var la, lb := |data| - a, |data| - b;
    var c := Memcmp(data[a..], data[b..], Min(la, lb));
    if c != 0 then c < 0 else la < lb
  }

  /** The comparator is lexicographic order, and tells any two suffixes apart. */
  lemma SuffixLessIsLess(data: seq<byte>, a: nat, b: nat)
    requires a < |data| && b < |data|
    ensures SuffixLess(data, a, b) == Less(data[a..], data[b..])
    ensures data[a..] == data[b..] <==> a == b
  {
    MemcmpIs(data[a..], data[b..], Min(|data| - a, |data| - b));
    LcpMaximal(data[a..], data[b..]);
  }

  /** So it is a strict total order on the suffixes. */
  lemma SuffixOrder(data: seq<byte>, a: nat, b: nat, c: nat)
    requires a < |data| && b < |data| && c < |data|
    ensures !SuffixLess(data, a, a)
    ensures a != b ==> SuffixLess(data, a, b) != SuffixLess(data, b, a)
    ensures SuffixLess(data, a, b) && SuffixLess(data, b, c) ==> SuffixLess(data, a, c)
  {
    SuffixLessIsLess(data, a, b);
    SuffixLessIsLess(data, b, a);
    SuffixLessIsLess(data, b, c);
    SuffixLessIsLess(data, a, c);
    SuffixLessIsLess(data, a, a);
    LessTotal(data[a..], data[b..]);
    LessTotal(data[a..], data[a..]);
    if SuffixLess(data, a, b) && SuffixLess(data, b, c) {
      LessTransitive(data[a..], data[b..], data[c..]);
    }
  }

  predicate InRange(sa: seq<nat>, n: nat) {
    forall i :: 0 <= i < |sa| ==> sa[i] < n
  }

  ghost predicate Sorted(data: seq<byte>, sa: seq<nat>)
    requires InRange(sa, |data|)
  {
    forall i, j :: 0 <= i < j < |sa| ==> Less(data[sa[i]..], data[sa[j]..])
  }

  /** Every position once, in the order of the suffixes that start there. */
  ghost predicate IsSuffixArray(data: seq<byte>, sa: seq<nat>) {
    && |sa| == |data| && InRange(sa, |data|) && Sorted(data, sa)
    && forall p: nat :: p < |data| ==> p in sa
  }

  /** Sorts the positions. The library sort is stood in for by insertion. */
  method BuildSuffixArray(data: seq<byte>) returns (sa: seq<nat>)
    ensures IsSuffixArray(data, sa)
  {
    sa := [];
    for n := 0 to |data|
      invariant |sa| == n && InRange(sa, |data|) && Sorted(data, sa)
      invariant forall p: nat :: p < |data| ==> (p in sa <==> p < n)
    {
      var at := FindPlace(data, sa, n);
      sa := Insert(data, sa, n, at);
    }
  }

  method FindPlace(data: seq<byte>, sa: seq<nat>, p: nat) returns (at: nat)
    requires p < |data| && InRange(sa, |data|) && Sorted(data, sa) && p !in sa
    ensures at <= |sa|
    ensures forall i :: 0 <= i < at ==> Less(data[sa[i]..], data[p..])
    ensures forall i :: at <= i < |sa| ==> Less(data[p..], data[sa[i]..])
  {
    at := 0;
    while at < |sa| && SuffixLess(data, sa[at], p)
      invariant 0 <= at <= |sa|
      invariant forall i :: 0 <= i < at ==> Less(data[sa[i]..], data[p..])
    {
      SuffixLessIsLess(data, sa[at], p);
      at := at + 1;
    }
    if at < |sa| {
      SuffixLessIsLess(data, sa[at], p);
      LessTotal(data[sa[at]..], data[p..]);
      forall i | at < i < |sa|
        ensures Less(data[p..], data[sa[i]..])
      {
        LessTransitive(data[p..], data[sa[at]..], data[sa[i]..]);
      }
    }
  }

  function Insert(data: seq<byte>, sa: seq<nat>, p: nat, at: nat): (r: seq<nat>)
    requires p < |data| && at <= |sa| && InRange(sa, |data|) && Sorted(data, sa)
    requires forall i :: 0 <= i < at ==> Less(data[sa[i]..], data[p..])
    requires forall i :: at <= i < |sa| ==> Less(data[p..], data[sa[i]..])
    ensures |r| == |sa| + 1 && InRange(r, |data|) && Sorted(data, r)
    ensures forall q :: q in r <==> q in sa || q == p
  {
    InsertSorted(data, sa, p, at);
    sa[..at] + [p] + sa[at..]
  }

  lemma InsertSorted(data: seq<byte>, sa: seq<nat>, p: nat, at: nat)
    requires p < |data| && at <= |sa| && InRange(sa, |data|) && Sorted(data, sa)
    requires forall i :: 0 <= i < at ==> Less(data[sa[i]..], data[p..])
    requires forall i :: at <= i < |sa| ==> Less(data[p..], data[sa[i]..])
    ensures var r := sa[..at] + [p] + sa[at..];
      InRange(r, |data|) && Sorted(data, r) && forall q :: q in r <==> q in sa || q == p
  {
    hide Less;
    var r := sa[..at] + [p] + sa[at..];
    assert forall q :: q in sa <==> q in sa[..at] || q in sa[at..];
    assert forall i :: 0 <= i < |r| ==> r[i] == if i < at then sa[i] else if i == at then p else sa[i - 1];
    forall i, j | 0 <= i < j < |r|
      ensures Less(data[r[i]..], data[r[j]..])
    {
      if i == at {
        assert r[j] == sa[j - 1];
      } else if j == at {
        assert r[i] == sa[i];
      }
    }
  }

  /** `matchlen`. */
  method MatchLen(a: seq<byte>, b: seq<byte>) returns (i: nat)
    ensures i == Lcp(a, b)
  {
    i := 0;
    while i < |a| && i < |b| && a[i] == b[i]
      invariant i <= |a| && i <= |b| && a[..i] == b[..i]
    {
      assert a[..i + 1] == a[..i] + [a[i]] && b[..i + 1] == b[..i] + [b[i]];
      i := i + 1;
    }
    LcpIs(a, b, i);
  }

  /** The comparison at one probe of the binary search. */
  function Probe(sa: seq<nat>, older: seq<byte>, query: seq<byte>, mid: nat): int
    requires mid < |sa| && InRange(sa, |older|)
  {
    Memcmp(older[sa[mid]..], query, Min(|older| - sa[mid], |query|))
  }

  /** The two neighbouring places where the binary search ends. */
  function Bisect(sa: seq<nat>, older: seq<byte>, query: seq<byte>, st: nat, en: nat): (r: (nat, nat))
    requires st <= en < |sa| && InRange(sa, |older|)
    ensures st <= r.0 <= r.1 <= en && r.1 <= r.0 + 1
    decreases en - st
  {
    if en - st < 2 then (st, en)
    else
      var mid := st + (en - st) / 2;
      if Probe(sa, older, query, mid) < 0 then Bisect(sa, older, query, mid, en) else Bisect(sa, older, query, st, mid)
  }

  datatype Match = Match(len: nat, pos: nat)

  function BestOf(sa: seq<nat>, older: seq<byte>, query: seq<byte>, at: (nat, nat)): (m: Match)
    requires at.0 < |sa| && at.1 < |sa| && InRange(sa, |older|)
    ensures m.pos < |older| && m.len == Lcp(older[m.pos..], query)
  {
    var pst, pen := sa[at.0], sa[at.1];
    var x, y := Lcp(older[pst..], query), Lcp(older[pen..], query);
    if x > y then Match(x, pst) else Match(y, pen)
  }

  /** What `search` returns. */
  function SearchResult(sa: seq<nat>, older: seq<byte>, query: seq<byte>): (m: Match)
    requires 0 < |older| == |sa| && InRange(sa, |older|)
    ensures m.pos < |older| && m.len == Lcp(older[m.pos..], query)
  {
    BestOf(sa, older, query, Bisect(sa, older, query, 0, |older| - 1))
  }

  method Search(sa: seq<nat>, older: seq<byte>, query: seq<byte>) returns (len: nat, pos: nat)
    requires 0 < |older| == |sa| && InRange(sa, |older|)
    ensures Match(len, pos) == SearchResult(sa, older, query)
    ensures pos < |older| && len == Lcp(older[pos..], query)
  {
    var st, en := 0, |older| - 1;
    while en - st >= 2
      invariant 0 <= st <= en < |older|
      invariant Bisect(sa, older, query, st, en) == Bisect(sa, older, query, 0, |older| - 1)
    {
      var mid := st + (en - st) / 2;
      var c := Probe(sa, older, query, mid);
      if c < 0 {
        st := mid;
      } else {
        en := mid;
      }
    }
    var pst, pen := sa[st], sa[en];
    var x := MatchLen(older[pst..], query);
    var y := MatchLen(older[pen..], query);
    if x > y {
      return x, pst;
    }
    return y, pen;
  }

  // -- What the search finds -------------------------------------------------

  function Suffix(sa: seq<nat>, older: seq<byte>, i: nat): seq<byte>
    requires i < |sa| && InRange(sa, |older|)
  {
    older[sa[i]..]
  }

  predicate IsProperPrefix(x: seq<byte>, y: seq<byte>) {
    x < y
  }

  ghost predicate Longest(older: seq<byte>, query: seq<byte>, len: nat) {
    forall p: nat :: p < |older| ==> Lcp(older[p..], query) <= len
  }

  lemma ProbeSign(sa: seq<nat>, older: seq<byte>, query: seq<byte>, mid: nat)
    requires mid < |sa| && InRange(sa, |older|)
    ensures Probe(sa, older, query, mid) < 0 ==> Less(Suffix(sa, older, mid), query)
    ensures Probe(sa, older, query, mid) >= 0 ==>
      IsProperPrefix(Suffix(sa, older, mid), query) || AtMost(query, Suffix(sa, older, mid))
  {
    var s := Suffix(sa, older, mid);
    MemcmpIs(s, query, Min(|s|, |query|));
    LcpMaximal(s, query);
    if Lcp(s, query) == |s| < |query| {
      assert s == query[..|s|];
    }
  }

  lemma SuffixesAscend(sa: seq<nat>, older: seq<byte>, i: nat, j: nat)
    requires i <= j < |sa| && InRange(sa, |older|) && Sorted(older, sa)
    ensures AtMost(Suffix(sa, older, i), Suffix(sa, older, j))
    ensures Suffix(sa, older, i)[0] <= Suffix(sa, older, j)[0]
  {
    if i < j {
      assert Less(older[sa[i]..], older[sa[j]..]);
      LcpMaximal(Suffix(sa, older, i), Suffix(sa, older, j));
    }
  }

  ghost predicate LowBest(sa: seq<nat>, older: seq<byte>, query: seq<byte>, st: nat)
    requires st < |sa| && InRange(sa, |older|)
  {
    forall i: nat :: i <= st ==> Lcp(Suffix(sa, older, i), query) <= Lcp(Suffix(sa, older, st), query)
  }

  ghost predicate HighBest(sa: seq<nat>, older: seq<byte>, query: seq<byte>, en: nat)
    requires en < |sa| && InRange(sa, |older|)
  {
    forall i: nat :: en <= i < |sa| ==> Lcp(Suffix(sa, older, i), query) <= Lcp(Suffix(sa, older, en), query)
  }

  lemma LowProbe(sa: seq<nat>, older: seq<byte>, query: seq<byte>, mid: nat)
    requires mid < |sa| && InRange(sa, |older|) && Sorted(older, sa) && Less(Suffix(sa, older, mid), query)
    ensures LowBest(sa, older, query, mid)
  {
    forall i: nat | i <= mid
      ensures Lcp(Suffix(sa, older, i), query) <= Lcp(Suffix(sa, older, mid), query)
    {
      SuffixesAscend(sa, older, i, mid);
      Between(Suffix(sa, older, i), Suffix(sa, older, mid), query);
    }
  }

  lemma HighProbe(sa: seq<nat>, older: seq<byte>, query: seq<byte>, mid: nat)
    requires mid < |sa| && InRange(sa, |older|) && Sorted(older, sa) && AtMost(query, Suffix(sa, older, mid))
    ensures HighBest(sa, older, query, mid)
  {
    forall i: nat | mid <= i < |sa|
      ensures Lcp(Suffix(sa, older, i), query) <= Lcp(Suffix(sa, older, mid), query)
    {
      SuffixesAscend(sa, older, mid, i);
      Between(query, Suffix(sa, older, mid), Suffix(sa, older, i));
    }
  }

  /** Where the search ends, everything below is no better than the lower place,
      and everything above no better than the upper one, unless the upper one is
      a suffix too short to be compared with the whole query. */
  lemma {:induction false} BisectBest(sa: seq<nat>, older: seq<byte>, query: seq<byte>, st: nat, en: nat)
    requires st <= en < |sa| && InRange(sa, |older|) && Sorted(older, sa)
    requires LowBest(sa, older, query, st)
    requires HighBest(sa, older, query, en) || IsProperPrefix(Suffix(sa, older, en), query)
    ensures var r := Bisect(sa, older, query, st, en);
      LowBest(sa, older, query, r.0) &&
        (HighBest(sa, older, query, r.1) || IsProperPrefix(Suffix(sa, older, r.1), query))
    decreases en - st
  {
    hide Probe, Suffix, LowBest, HighBest, IsProperPrefix, Sorted, Lcp, Less, AtMost;
    if en - st >= 2 {
      var mid := st + (en - st) / 2;
      ProbeSign(sa, older, query, mid);
      if Probe(sa, older, query, mid) < 0 {
        LowProbe(sa, older, query, mid);
        BisectBest(sa, older, query, mid, en);
      } else {
        if !IsProperPrefix(Suffix(sa, older, mid), query) {
          HighProbe(sa, older, query, mid);
        }
        BisectBest(sa, older, query, st, mid);
      }
    }
  }

  /** The suffix at the upper end of the finished search. */
  function LastProbe(sa: seq<nat>, older: seq<byte>, query: seq<byte>): seq<byte>
    requires 0 < |older| == |sa| && InRange(sa, |older|)
  {
    Suffix(sa, older, Bisect(sa, older, query, 0, |older| - 1).1)
  }

  /** The search went left at a suffix that the query extends, while the old bytes
      hold that suffix with the query's next byte somewhere else. */
  ghost predicate Misled(sa: seq<nat>, older: seq<byte>, query: seq<byte>)
    requires 0 < |older| == |sa| && InRange(sa, |older|)
  {
    var s := LastProbe(sa, older, query);
    IsProperPrefix(s, query) && exists p: nat :: p < |older| && query[..|s| + 1] <= older[p..]
  }

  lemma PrefixAt(x: seq<byte>, y: seq<byte>, k: nat, l: nat)
    requires l < k <= |y|
    ensures y[..k] <= x ==> l < |x| && x[l] == y[l]
  {
    if y[..k] <= x {
      assert x[l] == y[..k][l];
    }
  }

  lemma PrefixLcp(x: seq<byte>, y: seq<byte>, k: nat)
    requires k <= |y|
    ensures y[..k] <= x <==> k <= Lcp(x, y)
  {
    var l := Lcp(x, y);
    LcpMaximal(x, y);
    if k <= l {
      assert y[..k] == y[..l][..k] == x[..l][..k] == x[..k];
    } else {
      PrefixAt(x, y, k, l);
    }
  }

  lemma NeighboursCover(sa: seq<nat>, older: seq<byte>, query: seq<byte>, r: (nat, nat))
    requires r.0 <= r.1 < |sa| && r.1 <= r.0 + 1 && InRange(sa, |older|)
    requires forall p: nat :: p < |older| ==> p in sa
    requires LowBest(sa, older, query, r.0) && HighBest(sa, older, query, r.1)
    ensures Longest(older, query, BestOf(sa, older, query, r).len)
  {
    forall p: nat | p < |older|
      ensures Lcp(older[p..], query) <= BestOf(sa, older, query, r).len
    {
      assert p in sa;
      var i: nat :| i < |sa| && sa[i] == p;
      assert Suffix(sa, older, i) == older[p..];
      assert i <= r.0 || r.1 <= i;
    }
  }

  lemma TruncatedWins(sa: seq<nat>, older: seq<byte>, query: seq<byte>, r: (nat, nat))
    requires r.0 <= r.1 < |sa| && InRange(sa, |older|) && Sorted(older, sa)
    requires IsProperPrefix(Suffix(sa, older, r.1), query)
    ensures BestOf(sa, older, query, r).len == |Suffix(sa, older, r.1)|
  {
    var low, high := Suffix(sa, older, r.0), Suffix(sa, older, r.1);
    LcpIs(high, query, |high|);
    SuffixesAscend(sa, older, r.0, r.1);
    Between(low, high, query);
  }

  lemma EndCovers(sa: seq<nat>, older: seq<byte>, query: seq<byte>, r: (nat, nat))
    requires r.0 <= r.1 < |sa| && r.1 <= r.0 + 1
    requires IsSuffixArray(older, sa)
    requires LowBest(sa, older, query, r.0)
    requires HighBest(sa, older, query, r.1) || IsProperPrefix(Suffix(sa, older, r.1), query)
    ensures var s := Suffix(sa, older, r.1);
      if IsProperPrefix(s, query) then BestOf(sa, older, query, r).len == |s|
      else Longest(older, query, BestOf(sa, older, query, r).len)
  {
    if IsProperPrefix(Suffix(sa, older, r.1), query) {
      TruncatedWins(sa, older, query, r);
    } else {
      NeighboursCover(sa, older, query, r);
    }
  }

  lemma ResultCovers(sa: seq<nat>, older: seq<byte>, query: seq<byte>)
    requires 0 < |older| && IsSuffixArray(older, sa)
    ensures var s := LastProbe(sa, older, query);
      if IsProperPrefix(s, query) then SearchResult(sa, older, query).len == |s|
      else Longest(older, query, SearchResult(sa, older, query).len)
  {
    hide Bisect, Lcp, Less, Sorted, Longest;
    var n := |older| - 1;
    BisectBest(sa, older, query, 0, n);
    EndCovers(sa, older, query, Bisect(sa, older, query, 0, n));
  }

  /** Exactly when the search returns the longest match. */
  lemma SearchLongestExactly(sa: seq<nat>, older: seq<byte>, query: seq<byte>)
    requires 0 < |older| && IsSuffixArray(older, sa)
    ensures Longest(older, query, SearchResult(sa, older, query).len) <==> !Misled(sa, older, query)
  {
    hide Bisect, BestOf, SearchResult, Sorted, LastProbe, Lcp;
    ResultCovers(sa, older, query);
    var s := LastProbe(sa, older, query);
    if IsProperPrefix(s, query) {
      forall p: nat | p < |older|
        ensures query[..|s| + 1] <= older[p..] <==> |s| + 1 <= Lcp(older[p..], query)
      {
        PrefixLcp(older[p..], query, |s| + 1);
      }
    }
  }

  /** In particular whenever no suffix of the old bytes is a proper prefix of the query. */
  lemma SearchLongest(sa: seq<nat>, older: seq<byte>, query: seq<byte>)
    requires 0 < |older| && IsSuffixArray(older, sa)
    requires forall p: nat :: p < |older| ==> !IsProperPrefix(older[p..], query)
    ensures Longest(older, query, SearchResult(sa, older, query).len)
  {
    ResultCovers(sa, older, query);
  }

  /** It does happen: over "ab0a" the query "ab" matches two bytes, and one is found. */
  lemma SearchNotAlwaysLongest()
    ensures var older, query, sa := [97, 98, 48, 97], [97, 98], [2, 3, 0, 1];
      IsSuffixArray(older, sa) && SearchResult(sa, older, query).len == 1 && Lcp(older[0..], query) == 2
  {
    var older: seq<byte>, query: seq<byte>, sa: seq<nat> := [97, 98, 48, 97], [97, 98], [2, 3, 0, 1];
    assert older[2..] == [48, 97] && older[3..] == [97] && older[0..] == older && older[1..] == [98, 48, 97];
    LcpIs(older[2..], older[3..], 0);
    LcpIs(older[2..], older[0..], 0);
    LcpIs(older[2..], older[1..], 0);
    LcpIs(older[3..], older[0..], 1);
    LcpIs(older[3..], older[1..], 0);
    LcpIs(older[0..], older[1..], 0);
    assert IsSuffixArray(older, sa) by {
      assert sa[0] == 2 && sa[1] == 3 && sa[2] == 0 && sa[3] == 1;
    }
    LcpIs(older[3..], query, 1);
    LcpIs(older[2..], query, 0);
    LcpIs(older[0..], query, 2);
    MemcmpIs(older[3..], query, 1);
    assert Probe(sa, older, query, 1) == 0;
    assert Bisect(sa, older, query, 0, 3) == Bisect(sa, older, query, 0, 1) == (0, 1);
  }

  /** At the places the search ends, the first bytes enclose the query's. */
  lemma {:induction false} BisectFirstByte(sa: seq<nat>, older: seq<byte>, query: seq<byte>, st: nat, en: nat)
    requires st <= en < |sa| && InRange(sa, |older|) && query != []
    requires Suffix(sa, older, st)[0] <= query[0] <= Suffix(sa, older, en)[0]
    ensures var r := Bisect(sa, older, query, st, en);
      Suffix(sa, older, r.0)[0] <= query[0] <= Suffix(sa, older, r.1)[0]
    decreases en - st
  {
    if en - st >= 2 {
      var mid := st + (en - st) / 2;
      if Probe(sa, older, query, mid) < 0 {
        BisectFirstByte(sa, older, query, mid, en);
      } else {
        BisectFirstByte(sa, older, query, st, mid);
      }
    }
  }

  ghost predicate Enclosed(sa: seq<nat>, older: seq<byte>, b: byte, st: nat, en: nat)
    requires st < |sa| && en < |sa| && InRange(sa, |older|)
  {
    Suffix(sa, older, st)[0] <= b <= Suffix(sa, older, en)[0]
  }

  lemma EnclosedAtStart(sa: seq<nat>, older: seq<byte>, i: nat)
    requires i < |sa| && InRange(sa, |older|) && Sorted(older, sa)
    ensures Enclosed(sa, older, older[sa[i]], 0, |sa| - 1)
  {
    SuffixesAscend(sa, older, 0, i);
    SuffixesAscend(sa, older, i, |sa| - 1);
  }

  lemma EnclosedAtEnd(sa: seq<nat>, older: seq<byte>, i: nat, r: (nat, nat))
    requires i < |sa| && r.0 <= r.1 < |sa| && r.1 <= r.0 + 1 && InRange(sa, |older|) && Sorted(older, sa)
    requires Enclosed(sa, older, older[sa[i]], r.0, r.1)
    ensures older[sa[i]] == older[sa[r.0]] || older[sa[i]] == older[sa[r.1]]
  {
    if i <= r.0 {
      SuffixesAscend(sa, older, i, r.0);
    } else {
      SuffixesAscend(sa, older, r.1, i);
    }
  }

  lemma FirstByteFound(sa: seq<nat>, older: seq<byte>, query: seq<byte>, i: nat)
    requires 0 < |older| && IsSuffixArray(older, sa) && query != [] && i < |sa| && older[sa[i]] == query[0]
    ensures SearchResult(sa, older, query).len > 0
  {
    var n := |older| - 1;
    var r := Bisect(sa, older, query, 0, n);
    EnclosedAtStart(sa, older, i);
    BisectFirstByte(sa, older, query, 0, n);
    EnclosedAtEnd(sa, older, i, r);
    BestPositive(sa, older, query, r);
  }

  lemma BestPositive(sa: seq<nat>, older: seq<byte>, query: seq<byte>, at: (nat, nat))
    requires at.0 < |sa| && at.1 < |sa| && InRange(sa, |older|) && query != []
    requires query[0] == older[sa[at.0]] || query[0] == older[sa[at.1]]
    ensures BestOf(sa, older, query, at).len > 0
  {
    assert older[sa[at.0]..][0] == older[sa[at.0]] && older[sa[at.1]..][0] == older[sa[at.1]];
  }

  /** The search comes back empty-handed exactly when the query's first byte is
      nowhere in the old bytes; the encoder's score keeping rests on this. */
  lemma SearchEmptyExactly(sa: seq<nat>, older: seq<byte>, query: seq<byte>)
    requires 0 < |older| && IsSuffixArray(older, sa) && query != []
    ensures SearchResult(sa, older, query).len == 0 <==> query[0] !in older
  {
    hide Bisect, Sorted;
    var m := SearchResult(sa, older, query);
    if m.len > 0 {
      assert older[m.pos..][0] == older[m.pos] == query[0];
    }
    if query[0] in older {
      var p: nat :| p < |older| && older[p] == query[0];
      assert p in sa;
      var i: nat :| i < |sa| && sa[i] == p;
      FirstByteFound(sa, older, query, i);
    }
  }
}
