/** The patch stream is a function of the two byte strings: what `MakePatch` asks of
    it leaves no choice of a single byte. */
module PatchUnique {
  import opened Bytes
  import opened Wire
  import opened SuffixSearch
  import opened MakePatch

  // -- One suffix array ------------------------------------------------------------

  lemma {:induction false} SuffixArrayPrefix(data: seq<byte>, x: seq<nat>, y: seq<nat>, n: nat)
    requires IsSuffixArray(data, x) && IsSuffixArray(data, y) && n <= |data|
    ensures x[..n] == y[..n]
  {
    if n > 0 {
      SuffixArrayPrefix(data, x, y, n - 1);
      NextOfBoth(data, x, y, n - 1);
      assert x[..n] == x[..n - 1] + [x[n - 1]] && y[..n] == y[..n - 1] + [y[n - 1]];
    }
  }

  /** Past a common prefix, both go on with the least suffix not yet listed. */
  lemma NextOfBoth(data: seq<byte>, x: seq<nat>, y: seq<nat>, n: nat)
    requires IsSuffixArray(data, x) && IsSuffixArray(data, y) && n < |data| && x[..n] == y[..n]
    ensures x[n] == y[n]
  {
    if x[n] != y[n] {
      NotEarlier(data, x, y, n);
      NotEarlier(data, y, x, n);
      LessTotal(data[x[n]..], data[y[n]..]);
    }
  }

  lemma NotEarlier(data: seq<byte>, x: seq<nat>, y: seq<nat>, n: nat)
    requires IsSuffixArray(data, x) && IsSuffixArray(data, y) && n < |data| && x[..n] == y[..n] && x[n] != y[n]
    ensures Less(data[x[n]..], data[y[n]..])
  {
    assert forall k :: 0 <= k < n ==> x[k] == x[..n][k] && y[k] == y[..n][k];
    LessTotal(data[y[n]..], data[y[n]..]);
    hide Less;
    assert y[n] in x;
    var i :| 0 <= i < |x| && x[i] == y[n];
    if i < n {
      assert false;
    }
  }

  lemma SuffixArrayUnique(data: seq<byte>, x: seq<nat>, y: seq<nat>)
    requires IsSuffixArray(data, x) && IsSuffixArray(data, y)
    ensures x == y
  {
    SuffixArrayPrefix(data, x, y, |data|);
    assert x == x[..|data|] && y == y[..|data|];
  }

  // -- One way to end a match ---------------------------------------------------------

  lemma ExtendedUnique(older: seq<byte>, newer: seq<byte>, lastScan: nat, lastPos: nat, scan: nat, pos: nat,
                       lenf: nat, lenb: nat, lenf': nat, lenb': nat)
    requires lastScan <= scan <= |newer| && lastPos <= |older| && pos <= |older|
    requires Extended(older, newer, lastScan, lastPos, scan, pos, lenf, lenb)
    requires Extended(older, newer, lastScan, lastPos, scan, pos, lenf', lenb')
    ensures lenf == lenf' && lenb == lenb'
  {
    hide ForwardScore, BackwardScore, SplitScore;
    var f: nat, b: nat :| BestForward(older, newer, lastPos, lastScan, scan, f) &&
      (if scan < |newer| then BestBackward(older, newer, pos, lastScan, scan, b) else b == 0) &&
      Parted(older, newer, lastScan, lastPos, scan, pos, f, b, lenf, lenb);
    var f': nat, b': nat :| BestForward(older, newer, lastPos, lastScan, scan, f') &&
      (if scan < |newer| then BestBackward(older, newer, pos, lastScan, scan, b') else b' == 0) &&
      Parted(older, newer, lastScan, lastPos, scan, pos, f', b', lenf', lenb');
    BestForwardUnique(older, newer, lastPos, lastScan, scan, f, f');
    if scan < |newer| {
      BestBackwardUnique(older, newer, pos, lastScan, scan, b, b');
    }
    hide BestForward, BestBackward;
    PartedUnique(older, newer, lastScan, lastPos, scan, pos, f, b, lenf, lenb, lenf', lenb');
  }

  lemma BestForwardUnique(older: seq<byte>, newer: seq<byte>, lastPos: nat, lastScan: nat, scan: nat, x: nat, y: nat)
    requires scan <= |newer|
    requires BestForward(older, newer, lastPos, lastScan, scan, x) &&
      BestForward(older, newer, lastPos, lastScan, scan, y)
    ensures x == y
  {
    hide ForwardScore;
    assert ForwardScore(older, newer, lastPos, lastScan, x) == ForwardScore(older, newer, lastPos, lastScan, y);
  }

  lemma BestBackwardUnique(older: seq<byte>, newer: seq<byte>, pos: nat, lastScan: nat, scan: nat, x: nat, y: nat)
    requires pos <= |older| && lastScan <= scan <= |newer|
    requires BestBackward(older, newer, pos, lastScan, scan, x) && BestBackward(older, newer, pos, lastScan, scan, y)
    ensures x == y
  {
    hide BackwardScore;
    assert BackwardScore(older, newer, pos, scan, x) == BackwardScore(older, newer, pos, scan, y);
  }

  lemma BestSplitUnique(older: seq<byte>, newer: seq<byte>, fpos: nat, bpos: nat, at: nat, n: nat, x: nat, y: nat)
    requires fpos + n <= |older| && bpos + n <= |older| && at + n <= |newer|
    requires BestSplit(older, newer, fpos, bpos, at, n, x) && BestSplit(older, newer, fpos, bpos, at, n, y)
    ensures x == y
  {
    hide SplitScore;
    assert SplitScore(older, newer, fpos, bpos, at, n, x) == SplitScore(older, newer, fpos, bpos, at, n, y);
  }

  lemma PartedUnique(older: seq<byte>, newer: seq<byte>, lastScan: nat, lastPos: nat, scan: nat, pos: nat,
                     f: nat, b: nat, lenf: nat, lenb: nat, lenf': nat, lenb': nat)
    requires lastScan + f <= scan <= |newer| && lastPos + f <= |older| && b <= scan - lastScan && b <= pos <= |older|
    requires Parted(older, newer, lastScan, lastPos, scan, pos, f, b, lenf, lenb)
    requires Parted(older, newer, lastScan, lastPos, scan, pos, f, b, lenf', lenb')
    ensures lenf == lenf' && lenb == lenb'
  {
    hide BestSplit;
    var overlap := (lastScan + f) - (scan - b);
    if overlap > 0 {
      BestSplitUnique(older, newer, lastPos + f - overlap, pos - b, scan - b, overlap, b - lenb, b - lenb');
    }
  }

  // -- One run of the main loop ---------------------------------------------------------

  lemma FirstStopUnique(sa: seq<nat>, older: seq<byte>, newer: seq<byte>, offset: int, start: nat, x: nat, y: nat)
    requires 0 < |older| == |sa| && InRange(sa, |older|) && 0 <= start + offset
    requires FirstStop(sa, older, newer, offset, start, x) && FirstStop(sa, older, newer, offset, start, y)
    ensures x == y
  {
    hide Stops;
  }

  lemma EndsUnique(older: seq<byte>, newer: seq<byte>, p: Place, q: Place, r: Place, lenf: nat, lenf': nat,
                   out: seq<Loop>, out': seq<Loop>)
    requires |older| < TWO63 && Within(older, newer, p) && Within(older, newer, q) && Within(older, newer, r)
    requires p.lastScan <= q.scan == r.scan && q.len == r.len && q.pos == r.pos
    requires Ends(older, newer, p, q, lenf, out) && Ends(older, newer, p, r, lenf', out')
    ensures q == r && out == out'
  {
    hide Extended, PendingLoop;
    ExtendedUnique(older, newer, p.lastScan, p.lastPos, q.scan, q.pos, lenf, q.scan - q.lastScan, lenf',
                   r.scan - r.lastScan);
  }

  lemma TurnUnique(sa: seq<nat>, older: seq<byte>, newer: seq<byte>, p: Place, q: Place, r: Place, out: seq<Loop>,
                   out': seq<Loop>)
    requires 0 < |older| < TWO63 && |older| == |sa| && InRange(sa, |older|)
    requires Turn(sa, older, newer, p, q, out) && Turn(sa, older, newer, p, r, out')
    ensures q == r && out == out'
  {
    hide Stops, InHand, Score, Ends;
    var offset, start := p.lastPos - p.lastScan, p.scan + p.len;
    FirstStopUnique(sa, older, newer, offset, start, q.scan, r.scan);
    if !(q.scan < |newer| && q.len == Score(sa, older, newer, offset, start, q.scan)) {
      var lenf: nat :| Ends(older, newer, p, q, lenf, out);
      var lenf': nat :| Ends(older, newer, p, r, lenf', out');
      EndsUnique(older, newer, p, q, r, lenf, lenf', out, out');
    }
  }

  lemma {:induction false} TrailUnique(sa: seq<nat>, older: seq<byte>, newer: seq<byte>,
                                       ps: seq<Place>, os: seq<seq<Loop>>, ps': seq<Place>, os': seq<seq<Loop>>, n: nat)
    requires 0 < |older| < TWO63 && |older| == |sa| && InRange(sa, |older|)
    requires Trail(sa, older, newer, ps, os) && Trail(sa, older, newer, ps', os') && n <= |os| && n <= |os'|
    ensures ps[n] == ps'[n] && os[..n] == os'[..n]
  {
    hide Turn;
    if n > 0 {
      TrailUnique(sa, older, newer, ps, os, ps', os', n - 1);
      assert Turn(sa, older, newer, ps[n - 1], ps[n - 1 + 1], os[n - 1]);
      assert Turn(sa, older, newer, ps'[n - 1], ps'[n - 1 + 1], os'[n - 1]);
      TurnUnique(sa, older, newer, ps[n - 1], ps[n], ps'[n], os[n - 1], os'[n - 1]);
      assert os[..n] == os[..n - 1] + [os[n - 1]] && os'[..n] == os'[..n - 1] + [os'[n - 1]];
    }
  }

  /** A trail ends as soon as it is at the end of the data. */
  lemma TrailGoesOn(sa: seq<nat>, older: seq<byte>, newer: seq<byte>, ps: seq<Place>, os: seq<seq<Loop>>, n: nat)
    requires 0 < |older| < TWO63 && |older| == |sa| && InRange(sa, |older|)
    requires Trail(sa, older, newer, ps, os) && n < |os|
    ensures ps[n].scan < |newer|
  {
    hide FirstStop, InHand, Score, Ends;
    assert Turn(sa, older, newer, ps[n], ps[n + 1], os[n]);
  }

  lemma TracedUnique(older: seq<byte>, newer: seq<byte>, x: seq<byte>, y: seq<byte>)
    requires 0 < |older| < TWO63 && Traced(older, newer, x) && Traced(older, newer, y)
    ensures x == y
  {
    hide Turn;
    var sa, ps: seq<Place>, os :| IsSuffixArray(older, sa) && Trail(sa, older, newer, ps, os) &&
      ps[|os|].scan == |newer| && x == HEADER + SpellAll(Concat(os));
    var sa', ps': seq<Place>, os' :| IsSuffixArray(older, sa') && Trail(sa', older, newer, ps', os') &&
      ps'[|os'|].scan == |newer| && y == HEADER + SpellAll(Concat(os'));
    SuffixArrayUnique(older, sa, sa');
    var n := Min(|os|, |os'|);
    TrailUnique(sa, older, newer, ps, os, ps', os', n);
    if n < |os| {
      TrailGoesOn(sa, older, newer, ps, os, n);
    } else if n < |os'| {
      TrailGoesOn(sa, older, newer, ps', os', n);
    }
    assert os == os[..n] && os' == os'[..n];
  }

  /** There is at most one patch stream for two byte strings, so the encoder's contract determines every byte of it. */
  lemma StreamUnique(older: seq<byte>, newer: seq<byte>, x: seq<byte>, y: seq<byte>)
    requires |older| < TWO63 && StreamOf(older, newer, x) && StreamOf(older, newer, y)
    ensures x == y
  {
    hide Traced;
    if newer != [] && older != [] {
      TracedUnique(older, newer, x, y);
    }
  }
}
