/** What the encoder's choices mean in the bytes: which matches are worth a control entry, which
    places are passed over, and how far an extension goes. */
module PatchLaws {
  import opened Bytes
  import opened Wire
  import opened SuffixSearch
  import opened MakePatch

  // -- Counts -----------------------------------------------------------------------------------

  /** The places from `lo` up to `hi` that the diagonal gets right. */
  function Hits(older: seq<byte>, newer: seq<byte>, offset: int, lo: nat, hi: nat): set<nat>
    requires 0 <= lo + offset && hi <= |newer|
  {
    set k: nat | lo <= k < hi && k + offset < |older| && older[k + offset] == newer[k]
  }

  lemma HitsLast(older: seq<byte>, newer: seq<byte>, offset: int, lo: nat, hi: nat)
    requires 0 <= lo + offset && lo < hi <= |newer|
    ensures |Hits(older, newer, offset, lo, hi)| ==
      |Hits(older, newer, offset, lo, hi - 1)| + (if Hit(older, newer, offset, hi - 1) then 1 else 0)
  {
    var a, b := Hits(older, newer, offset, lo, hi), Hits(older, newer, offset, lo, hi - 1);
    assert hi - 1 !in b;
    assert a == if Hit(older, newer, offset, hi - 1) then b + {hi - 1} else b;
  }

  lemma HitsFirst(older: seq<byte>, newer: seq<byte>, offset: int, lo: nat, hi: nat)
    requires 0 <= lo + offset && lo < hi <= |newer|
    ensures |Hits(older, newer, offset, lo, hi)| ==
      |Hits(older, newer, offset, lo + 1, hi)| + (if Hit(older, newer, offset, lo) then 1 else 0)
  {
    var a, b := Hits(older, newer, offset, lo, hi), Hits(older, newer, offset, lo + 1, hi);
    assert lo !in b;
    assert a == if Hit(older, newer, offset, lo) then b + {lo} else b;
  }

  lemma HitsNone(older: seq<byte>, newer: seq<byte>, offset: int, lo: nat, hi: nat)
    requires 0 <= lo + offset && hi <= |newer| && hi <= lo
    ensures |Hits(older, newer, offset, lo, hi)| == 0
  {
    assert Hits(older, newer, offset, lo, hi) == {};
  }

  lemma {:induction false} DiagonalCounts(older: seq<byte>, newer: seq<byte>, offset: int, lo: nat, hi: nat)
    requires 0 <= lo + offset && hi <= |newer|
    ensures Diagonal(older, newer, offset, lo, hi) == |Hits(older, newer, offset, lo, hi)|
    decreases hi
  {
    hide Hits, Hit;
    if lo < hi {
      DiagonalCounts(older, newer, offset, lo, hi - 1);
      HitsLast(older, newer, offset, lo, hi);
    } else {
      HitsNone(older, newer, offset, lo, hi);
    }
  }

  /** How many of the new bytes from `scan + i` up to `scan + j` agree with the old, `scan` beside `pos`. */
  function Agreeing(older: seq<byte>, newer: seq<byte>, pos: nat, scan: nat, i: nat, j: nat): nat
    requires scan + j <= |newer|
  {
    |Hits(older, newer, pos - scan, scan + i, scan + j)|
  }

  lemma {:induction false} MatchesCounts(older: seq<byte>, newer: seq<byte>, pos: nat, scan: nat, i: nat, j: nat)
    requires i <= j && pos + j <= |older| && scan + j <= |newer|
    ensures Matches(older, newer, pos, scan, j) ==
      Matches(older, newer, pos, scan, i) + Agreeing(older, newer, pos, scan, i, j)
    decreases j
  {
    hide Hits;
    if i < j {
      MatchesCounts(older, newer, pos, scan, i, j - 1);
      HitsLast(older, newer, pos - scan, scan + i, scan + j);
    } else {
      HitsNone(older, newer, pos - scan, scan + i, scan + j);
    }
  }

  /** How many of the new bytes from `scan - j` up to `scan - i` agree with the old, `scan` beside `pos`. */
  function AgreeingBack(older: seq<byte>, newer: seq<byte>, pos: nat, scan: nat, i: nat, j: nat): nat
    requires i <= j <= pos && j <= scan <= |newer|
  {
    |Hits(older, newer, pos - scan, scan - j, scan - i)|
  }

  lemma {:induction false} BackCounts(older: seq<byte>, newer: seq<byte>, pos: nat, scan: nat, i: nat, j: nat)
    requires i <= j <= pos <= |older| && j <= scan <= |newer|
    ensures MatchesBack(older, newer, pos, scan, j) ==
      MatchesBack(older, newer, pos, scan, i) + AgreeingBack(older, newer, pos, scan, i, j)
    decreases j
  {
    hide Hits;
    if i < j {
      BackCounts(older, newer, pos, scan, i, j - 1);
      HitsFirst(older, newer, pos - scan, scan - j, scan - i);
    } else {
      HitsNone(older, newer, pos - scan, scan - j, scan - i);
    }
  }

  // -- Which matches are taken --------------------------------------------------------------------

  /** `r` is as far as any match found at `start`, ..., `k` reaches. */
  ghost predicate Furthest(sa: seq<nat>, older: seq<byte>, newer: seq<byte>, start: nat, k: nat, r: nat)
    requires 0 < |older| == |sa| && InRange(sa, |older|) && start <= k < |newer|
  {
    && (forall j: nat :: start <= j <= k ==> j + Found(sa, older, newer, j).len <= r)
    && exists j: nat :: start <= j <= k && j + Found(sa, older, newer, j).len == r
  }

  lemma {:induction false} ReachIsFurthest(sa: seq<nat>, older: seq<byte>, newer: seq<byte>, start: nat, k: nat)
    requires 0 < |older| == |sa| && InRange(sa, |older|) && start <= k < |newer|
    ensures Furthest(sa, older, newer, start, k, Reach(sa, older, newer, start, k))
    decreases k
  {
    hide Found;
    if k > start {
      ReachIsFurthest(sa, older, newer, start, k - 1);
    }
    ReachStep(sa, older, newer, start, k);
  }

  /** One turn of the main loop. If it ends the pending match before the end of the data, then the
      match found gets more than eight bytes right that the last diagonal gets wrong: it is longer by
      more than eight than all the hits of that diagonal up to where any match of the search reaches. */
  lemma TakenPays(sa: seq<nat>, older: seq<byte>, newer: seq<byte>, p: Place, q: Place, out: seq<Loop>, r: nat)
    requires 0 < |older| < TWO63 && |older| == |sa| && InRange(sa, |older|)
    requires Turn(sa, older, newer, p, q, out) && out != [] && q.scan < |newer|
    requires Furthest(sa, older, newer, p.scan + p.len, q.scan, r)
    ensures q.scan + q.len <= r <= |newer|
    ensures |Hits(older, newer, p.lastPos - p.lastScan, q.scan, r)| + 8 < q.len
  {
    hide Found, Hits, Extended;
    ReachesOnly(sa, older, newer, p.scan + p.len, q.scan, r);
    DiagonalCounts(older, newer, p.lastPos - p.lastScan, q.scan, r);
  }

  /** A place that was passed over had no such match, nor one that is exactly what the diagonal
      gets right; at such a one the turn ends too, without an entry. */
  lemma PassedOver(sa: seq<nat>, older: seq<byte>, newer: seq<byte>, p: Place, q: Place, out: seq<Loop>, k: nat, r: nat)
    requires 0 < |older| < TWO63 && |older| == |sa| && InRange(sa, |older|)
    requires Turn(sa, older, newer, p, q, out) && p.scan + p.len <= k < |newer|
    requires Furthest(sa, older, newer, p.scan + p.len, k, r) && r <= |newer|
    ensures var hits, len := |Hits(older, newer, p.lastPos - p.lastScan, k, r)|, Found(sa, older, newer, k).len;
      && (k < q.scan ==> len <= hits + 8 && (len == hits ==> len == 0))
      && (k == q.scan ==> (out == [] <==> len == hits) && (out == [] ==> len != 0))
  {
    hide Found, Hits, Extended, Stops, Score, Furthest;
    var offset, start := p.lastPos - p.lastScan, p.scan + p.len;
    ReachesOnly(sa, older, newer, start, k, r);
    DiagonalCounts(older, newer, offset, k, r);
    StopsIs(sa, older, newer, offset, start, k);
    ScoreIs(sa, older, newer, offset, start, k);
    assert k < q.scan ==> !Stops(sa, older, newer, offset, start, k);
  }

  lemma ReachesOnly(sa: seq<nat>, older: seq<byte>, newer: seq<byte>, start: nat, k: nat, r: nat)
    requires 0 < |older| == |sa| && InRange(sa, |older|) && start <= k < |newer|
    requires Furthest(sa, older, newer, start, k, r)
    ensures r == Reach(sa, older, newer, start, k)
  {
    hide Found;
    ReachIsFurthest(sa, older, newer, start, k);
  }

  lemma ScoreIs(sa: seq<nat>, older: seq<byte>, newer: seq<byte>, offset: int, start: nat, k: nat)
    requires 0 < |older| == |sa| && InRange(sa, |older|) && start <= k < |newer| && 0 <= start + offset
    ensures Score(sa, older, newer, offset, start, k) ==
      Diagonal(older, newer, offset, k, Reach(sa, older, newer, start, k))
  {
  }

  // -- How far an extension goes ------------------------------------------------------------------

  lemma ForwardStep(older: seq<byte>, newer: seq<byte>, pos: nat, scan: nat, i: nat, j: nat)
    requires i <= j && pos + j <= |older| && scan + j <= |newer|
    ensures ForwardScore(older, newer, pos, scan, j) ==
      ForwardScore(older, newer, pos, scan, i) + 2 * Agreeing(older, newer, pos, scan, i, j) - (j - i)
  {
    hide Agreeing, Matches;
    MatchesCounts(older, newer, pos, scan, i, j);
  }

  /** The best extension: more than half of any last bytes of it agree, and never more than half of
      those that would come next. */
  lemma ForwardMajority(older: seq<byte>, newer: seq<byte>, lastPos: nat, lastScan: nat, scan: nat, len: nat)
    requires lastPos <= |older| && lastScan <= scan <= |newer|
    ensures var limit := Min(scan - lastScan, |older| - lastPos);
      BestForward(older, newer, lastPos, lastScan, scan, len) <==>
      && len <= limit
      && (forall i: nat :: i < len ==> 2 * Agreeing(older, newer, lastPos, lastScan, i, len) > len - i)
      && (forall i: nat :: len <= i <= limit ==> 2 * Agreeing(older, newer, lastPos, lastScan, len, i) <= i - len)
  {
    hide Agreeing, ForwardScore;
    var limit := Min(scan - lastScan, |older| - lastPos);
    if len <= limit {
      forall i: nat | i < len {
        ForwardStep(older, newer, lastPos, lastScan, i, len);
      }
      forall i: nat | len <= i <= limit {
        ForwardStep(older, newer, lastPos, lastScan, len, i);
      }
    }
  }

  lemma BackwardStep(older: seq<byte>, newer: seq<byte>, pos: nat, scan: nat, i: nat, j: nat)
    requires i <= j <= pos <= |older| && j <= scan <= |newer|
    ensures BackwardScore(older, newer, pos, scan, j) ==
      BackwardScore(older, newer, pos, scan, i) + 2 * AgreeingBack(older, newer, pos, scan, i, j) - (j - i)
  {
    hide AgreeingBack, Matches, MatchesBack;
    MatchesBackIs(older, newer, pos, scan, i);
    MatchesBackIs(older, newer, pos, scan, j);
    BackCounts(older, newer, pos, scan, i, j);
  }

  /** The same of an extension backward, from `pos` and `scan` down. */
  lemma BackwardMajority(older: seq<byte>, newer: seq<byte>, pos: nat, lastScan: nat, scan: nat, len: nat)
    requires pos <= |older| && lastScan <= scan <= |newer|
    ensures var limit := Min(scan - lastScan, pos);
      BestBackward(older, newer, pos, lastScan, scan, len) <==>
      && len <= limit
      && (forall i: nat :: i < len ==> 2 * AgreeingBack(older, newer, pos, scan, i, len) > len - i)
      && (forall i: nat :: len <= i <= limit ==> 2 * AgreeingBack(older, newer, pos, scan, len, i) <= i - len)
  {
    hide AgreeingBack, BackwardScore;
    var limit := Min(scan - lastScan, pos);
    if len <= limit {
      forall i: nat | i < len {
        BackwardStep(older, newer, pos, scan, i, len);
      }
      forall i: nat | len <= i <= limit {
        BackwardStep(older, newer, pos, scan, len, i);
      }
    }
  }
}
