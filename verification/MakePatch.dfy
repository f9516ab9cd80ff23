/** The patch encoder: bsdiff's main loop over the match finder, with the forward
    and backward extension of each match and the split where the two overlap. */
module MakePatch {
  import opened Bytes
  import opened Varint
  import opened Wire
  import opened ReadSeek
  import opened SuffixSearch
  import opened Reader
  import opened Inflate

  // -- Counting matching bytes -----------------------------------------------

  /** How many of the `n` bytes from `pos` in the old and `scan` in the new data agree. */
  function Matches(older: seq<byte>, newer: seq<byte>, pos: nat, scan: nat, n: nat): nat
    requires pos + n <= |older| && scan + n <= |newer|
  {
    if n == 0 then 0
    else Matches(older, newer, pos, scan, n - 1) + (if older[pos + n - 1] == newer[scan + n - 1] then 1 else 0)
  }

  /** The same, counting back from just before `pos` and `scan`. */
  function MatchesBack(older: seq<byte>, newer: seq<byte>, pos: nat, scan: nat, n: nat): nat
    requires n <= pos <= |older| && n <= scan <= |newer|
  {
    if n == 0 then 0
    else MatchesBack(older, newer, pos, scan, n - 1) + (if older[pos - n] == newer[scan - n] then 1 else 0)
  }

  lemma {:induction false} MatchesBackIs(older: seq<byte>, newer: seq<byte>, pos: nat, scan: nat, n: nat)
    requires n <= pos <= |older| && n <= scan <= |newer|
    ensures MatchesBack(older, newer, pos, scan, n) == Matches(older, newer, pos - n, scan - n, n)
  {
    if n > 0 {
      MatchesBackIs(older, newer, pos, scan, n - 1);
      MatchesSplit(older, newer, pos - n, scan - n, 1, n);
    }
  }

  lemma {:induction false} MatchesSplit(older: seq<byte>, newer: seq<byte>, pos: nat, scan: nat, t: nat, n: nat)
    requires t <= n && pos + n <= |older| && scan + n <= |newer|
    ensures Matches(older, newer, pos, scan, n) ==
            Matches(older, newer, pos, scan, t) + Matches(older, newer, pos + t, scan + t, n - t)
  {
    if n > t {
      MatchesSplit(older, newer, pos, scan, t, n - 1);
    }
  }

  /** Twice the matches minus the span: what an extension by `n` is worth. */
  function ForwardScore(older: seq<byte>, newer: seq<byte>, pos: nat, scan: nat, n: nat): int
    requires pos + n <= |older| && scan + n <= |newer|
  {
    Matches(older, newer, pos, scan, n) * 2 - n
  }

  function BackwardScore(older: seq<byte>, newer: seq<byte>, pos: nat, scan: nat, n: nat): int
    requires n <= pos <= |older| && n <= scan <= |newer|
  {
    Matches(older, newer, pos - n, scan - n, n) * 2 - n
  }

  /** `lenf` is the first length of the best score among those within `scan` and the old data. */
  ghost predicate BestForward(older: seq<byte>, newer: seq<byte>, lastPos: nat, lastScan: nat, scan: nat, lenf: nat)
    requires scan <= |newer|
  {
    && lastScan + lenf <= scan && lastPos + lenf <= |older|
    && forall i: nat :: lastScan + i <= scan && lastPos + i <= |older| ==>
      var best := ForwardScore(older, newer, lastPos, lastScan, lenf);
      if i < lenf then ForwardScore(older, newer, lastPos, lastScan, i) < best
      else ForwardScore(older, newer, lastPos, lastScan, i) <= best
  }

  /** The same for extending backward from `scan`, down to `lastScan` at most. */
  ghost predicate BestBackward(older: seq<byte>, newer: seq<byte>, pos: nat, lastScan: nat, scan: nat, lenb: nat)
    requires pos <= |older| && lastScan <= scan <= |newer|
  {
    && lenb <= scan - lastScan && lenb <= pos
    && forall i: nat :: i <= scan - lastScan && i <= pos ==>
      var best := BackwardScore(older, newer, pos, scan, lenb);
      if i < lenb then BackwardScore(older, newer, pos, scan, i) < best
      else BackwardScore(older, newer, pos, scan, i) <= best
  }

  /** Matched bytes when the first `t` of the `n` bytes at `at` are taken from
      `fpos` in the old data and the others from `bpos` on. */
  function SplitScore(older: seq<byte>, newer: seq<byte>, fpos: nat, bpos: nat, at: nat, n: nat, t: nat): nat
    requires t <= n && fpos + n <= |older| && bpos + n <= |older| && at + n <= |newer|
  {
    Matches(older, newer, fpos, at, t) + Matches(older, newer, bpos + t, at + t, n - t)
  }

  /** `lens` is the first split of the `n` bytes at `at` that matches the most. */
  ghost predicate BestSplit(older: seq<byte>, newer: seq<byte>, fpos: nat, bpos: nat, at: nat, n: nat, lens: nat)
    requires fpos + n <= |older| && bpos + n <= |older| && at + n <= |newer|
  {
    && lens <= n
    && forall t: nat :: t <= n ==>
      var best := SplitScore(older, newer, fpos, bpos, at, n, lens);
      if t < lens then SplitScore(older, newer, fpos, bpos, at, n, t) < best
      else SplitScore(older, newer, fpos, bpos, at, n, t) <= best
  }

  /** Extends the last match forward, at most up to `scan`. */
  method ForwardExtend(older: seq<byte>, newer: seq<byte>, lastPos: nat, lastScan: nat, scan: nat) returns (lenf: nat)
    requires lastPos <= |older| && lastScan <= scan <= |newer|
    ensures BestForward(older, newer, lastPos, lastScan, scan, lenf)
  {
    var s, sf, i := 0, 0, 0;
    lenf := 0;
    while lastScan + i < scan && lastPos + i < |older|
      invariant lenf <= i && lastScan + i <= scan && lastPos + i <= |older|
      invariant s == Matches(older, newer, lastPos, lastScan, i)
      invariant sf == Matches(older, newer, lastPos, lastScan, lenf)
      invariant forall j: nat :: j < lenf ==>
        ForwardScore(older, newer, lastPos, lastScan, j) < ForwardScore(older, newer, lastPos, lastScan, lenf)
      invariant forall j: nat :: lenf <= j <= i ==>
        ForwardScore(older, newer, lastPos, lastScan, j) <= ForwardScore(older, newer, lastPos, lastScan, lenf)
    {
      if older[lastPos + i] == newer[lastScan + i] {
        s := s + 1;
      }
      i := i + 1;
      if s * 2 - i > sf * 2 - lenf {
        sf, lenf := s, i;
      }
    }
  }

  /** Extends the match at (`pos`, `scan`) backward, at most down to `lastScan`. */
  method BackwardExtend(older: seq<byte>, newer: seq<byte>, pos: nat, lastScan: nat, scan: nat) returns (lenb: nat)
    requires pos <= |older| && lastScan <= scan <= |newer|
    ensures BestBackward(older, newer, pos, lastScan, scan, lenb)
  {
    var s, sb, i := 0, 0, 1;
    lenb := 0;
    while i <= scan - lastScan && i <= pos
      invariant lenb < i && i - 1 <= scan - lastScan && i - 1 <= pos
      invariant s == MatchesBack(older, newer, pos, scan, i - 1)
      invariant sb == Matches(older, newer, pos - lenb, scan - lenb, lenb)
      invariant forall j: nat :: j < lenb ==>
        BackwardScore(older, newer, pos, scan, j) < BackwardScore(older, newer, pos, scan, lenb)
      invariant forall j: nat :: lenb <= j < i ==>
        BackwardScore(older, newer, pos, scan, j) <= BackwardScore(older, newer, pos, scan, lenb)
    {
      if older[pos - i] == newer[scan - i] {
        s := s + 1;
      }
      MatchesBackIs(older, newer, pos, scan, i);
      if s * 2 - i > sb * 2 - lenb {
        sb, lenb := s, i;
      }
      i := i + 1;
    }
  }

  /** Where to split the bytes that both extensions cover: the first split that matches most. */
  method SplitOverlap(older: seq<byte>, newer: seq<byte>, fpos: nat, bpos: nat, at: nat, overlap: nat)
      returns (lens: nat)
    requires fpos + overlap <= |older| && bpos + overlap <= |older| && at + overlap <= |newer|
    ensures BestSplit(older, newer, fpos, bpos, at, overlap, lens)
  {
    var s, ss := 0, 0;
    lens := 0;
    ghost var all := Matches(older, newer, bpos, at, overlap);
    var i := 0;
    while i < overlap
      invariant lens <= i <= overlap
      invariant s == SplitScore(older, newer, fpos, bpos, at, overlap, i) - all
      invariant ss == SplitScore(older, newer, fpos, bpos, at, overlap, lens) - all
      invariant forall t: nat :: t < lens ==>
        SplitScore(older, newer, fpos, bpos, at, overlap, t) < SplitScore(older, newer, fpos, bpos, at, overlap, lens)
      invariant forall t: nat :: lens <= t <= i ==>
        SplitScore(older, newer, fpos, bpos, at, overlap, t) <= SplitScore(older, newer, fpos, bpos, at, overlap, lens)
    {
      MatchesSplit(older, newer, bpos + i, at + i, 1, overlap - i);
      assert Matches(older, newer, bpos + i, at + i, 1) == Matches(older, newer, bpos + i, at + i, 0) +
        (if older[bpos + i] == newer[at + i] then 1 else 0);
      if newer[at + i] == older[fpos + i] {
        s := s + 1;
      }
      if newer[at + i] == older[bpos + i] {
        s := s - 1;
      }
      if s > ss {
        ss, lens := s, i + 1;
      }
      i := i + 1;
    }
  }

  // -- Score along the last match's diagonal ----------------------------------

  /** Byte `k` of the new data agrees with the old data shifted by `offset`. */
  predicate Hit(older: seq<byte>, newer: seq<byte>, offset: int, k: nat)
    requires 0 <= k + offset && k < |newer|
  {
    k + offset < |older| && older[k + offset] == newer[k]
  }

  function Diagonal(older: seq<byte>, newer: seq<byte>, offset: int, lo: nat, hi: nat): nat
    requires 0 <= lo + offset && hi <= |newer|
    decreases hi
  {
    if hi <= lo then 0
    else Diagonal(older, newer, offset, lo, hi - 1) + (if Hit(older, newer, offset, hi - 1) then 1 else 0)
  }

  lemma {:induction false} DiagonalDropFirst(older: seq<byte>, newer: seq<byte>, offset: int, lo: nat, hi: nat)
    requires 0 <= lo + offset && lo < hi <= |newer|
    ensures Diagonal(older, newer, offset, lo, hi) ==
            Diagonal(older, newer, offset, lo + 1, hi) + (if Hit(older, newer, offset, lo) then 1 else 0)
    decreases hi
  {
    if lo + 1 < hi {
      DiagonalDropFirst(older, newer, offset, lo, hi - 1);
    }
  }

  /** The match found for the new data from `k` on. */
  function Found(sa: seq<nat>, older: seq<byte>, newer: seq<byte>, k: nat): (m: Match)
    requires 0 < |older| == |sa| && InRange(sa, |older|) && k < |newer|
    ensures m.pos < |older| && k + m.len <= |newer|
  {
    SearchResult(sa, older, newer[k..])
  }

  /** How far the matches found at `start`, ..., `k` reach. */
  function Reach(sa: seq<nat>, older: seq<byte>, newer: seq<byte>, start: nat, k: nat): (r: nat)
    requires 0 < |older| == |sa| && InRange(sa, |older|) && start <= k < |newer|
    ensures k <= r <= |newer|
    decreases k
  {
    var before := if k == start then start else Reach(sa, older, newer, start, k - 1);
    var here := k + Found(sa, older, newer, k).len;
    if before < here then here else before
  }

  /** How many bytes up to there the last diagonal gets right as well. */
  function Score(sa: seq<nat>, older: seq<byte>, newer: seq<byte>, offset: int, start: nat, k: nat): nat
    requires 0 < |older| == |sa| && InRange(sa, |older|) && start <= k < |newer| && 0 <= start + offset
  {
    Diagonal(older, newer, offset, k, Reach(sa, older, newer, start, k))
  }

  /** The match found at `k` is as good as the last diagonal, or better by more than eight bytes. */
  predicate Stops(sa: seq<nat>, older: seq<byte>, newer: seq<byte>, offset: int, start: nat, k: nat)
    requires 0 < |older| == |sa| && InRange(sa, |older|) && start <= k < |newer| && 0 <= start + offset
  {
    var len, score := Found(sa, older, newer, k).len, Score(sa, older, newer, offset, start, k);
    (len == score && len != 0) || len > score + 8
  }

  /** `scan` is the first place from `start` on where the search stops, or the end of the data. */
  ghost predicate FirstStop(sa: seq<nat>, older: seq<byte>, newer: seq<byte>, offset: int, start: nat, scan: nat)
    requires 0 < |older| == |sa| && InRange(sa, |older|) && 0 <= start + offset
  {
    && start <= scan <= |newer|
    && (forall k: nat :: start <= k < scan ==> !Stops(sa, older, newer, offset, start, k))
    && (scan < |newer| ==> Stops(sa, older, newer, offset, start, scan))
  }

  /** The match in hand there: the one found there, or at the end the last one found. */
  function InHand(sa: seq<nat>, older: seq<byte>, newer: seq<byte>, start: nat, before: Match, scan: nat): Match
    requires 0 < |older| == |sa| && InRange(sa, |older|) && start <= scan <= |newer|
  {
    if scan < |newer| then Found(sa, older, newer, scan)
    else if start < scan then Found(sa, older, newer, scan - 1)
    else before
  }

  lemma SuffixArrayInRange(sa: seq<nat>, older: seq<byte>)
    requires IsSuffixArray(older, sa)
    ensures |sa| == |older| && InRange(sa, |older|)
  {
  }

  lemma FoundEmpty(sa: seq<nat>, older: seq<byte>, newer: seq<byte>, k: nat)
    requires 0 < |older| && IsSuffixArray(older, sa) && k < |newer|
    ensures Found(sa, older, newer, k) == SearchResult(sa, older, newer[k..])
    ensures Found(sa, older, newer, k).len == 0 ==> newer[k] !in older
  {
    hide SearchResult;
    SearchEmptyExactly(sa, older, newer[k..]);
  }

  lemma ReachStep(sa: seq<nat>, older: seq<byte>, newer: seq<byte>, start: nat, k: nat)
    requires 0 < |older| == |sa| && InRange(sa, |older|) && start <= k < |newer|
    ensures var before := if k == start then start else Reach(sa, older, newer, start, k - 1);
      var here := k + Found(sa, older, newer, k).len;
      Reach(sa, older, newer, start, k) == if before < here then here else before
  {
  }

  lemma StopsIs(sa: seq<nat>, older: seq<byte>, newer: seq<byte>, offset: int, start: nat, k: nat)
    requires 0 < |older| == |sa| && InRange(sa, |older|) && start <= k < |newer| && 0 <= start + offset
    ensures var len := Found(sa, older, newer, k).len;
      var score := Diagonal(older, newer, offset, k, Reach(sa, older, newer, start, k));
      Stops(sa, older, newer, offset, start, k) <==> (len == score && len != 0) || len > score + 8
  {
  }

  /** Advances to the first stop. At every test `oldscore` is the number of hits in
      [scan, scsc), so it is never negative. */
  method NextMatch(sa: seq<nat>, older: seq<byte>, newer: seq<byte>, start: nat, len0: nat, pos0: nat, lastOffset: int)
      returns (scan: nat, len: nat, pos: nat, oldscore: int)
    requires 0 < |older| && IsSuffixArray(older, sa)
    requires start <= |newer| && pos0 < |older| && 0 <= start + lastOffset
    ensures FirstStop(sa, older, newer, lastOffset, start, scan)
    ensures Match(len, pos) == InHand(sa, older, newer, start, Match(len0, pos0), scan) && pos < |older|
    ensures scan < |newer| ==> oldscore == Score(sa, older, newer, lastOffset, start, scan)
  {
    hide Bisect, Lcp, IsSuffixArray, SearchResult, Found, Reach, Stops;
    SuffixArrayInRange(sa, older);
    scan, len, pos, oldscore := start, len0, pos0, 0;
    var sc := scan;
    while scan < |newer|
      invariant start <= scan <= |newer| && pos < |older|
      invariant sc == if scan == start then start else Reach(sa, older, newer, start, scan - 1)
      invariant forall k: nat :: start <= k < scan ==> !Stops(sa, older, newer, lastOffset, start, k)
      invariant Match(len, pos) == if scan == start then Match(len0, pos0) else Found(sa, older, newer, scan - 1)
      invariant oldscore == Diagonal(older, newer, lastOffset, scan, sc)
      invariant sc < scan ==> newer[sc] !in older
    {
      len, pos := Search(sa, older, newer[scan..]);
      FoundEmpty(sa, older, newer, scan);
      assert Match(len, pos) == Found(sa, older, newer, scan);
      ghost var sc0 := sc;
      while sc < scan + len
        invariant sc0 <= sc <= |newer| && (sc <= scan + len || sc == sc0)
        invariant oldscore == Diagonal(older, newer, lastOffset, scan, sc)
        invariant sc < scan ==> newer[sc] !in older
      {
        if sc + lastOffset < |older| && older[sc + lastOffset] == newer[sc] {
          oldscore := oldscore + 1;
        }
        sc := sc + 1;
      }
      ReachStep(sa, older, newer, start, scan);
      StopsIs(sa, older, newer, lastOffset, start, scan);
      if (len == oldscore && len != 0) || len > oldscore + 8 {
        return;
      }
      if scan < sc {
        DiagonalDropFirst(older, newer, lastOffset, scan, sc);
      }
      if scan + lastOffset < |older| && older[scan + lastOffset] == newer[scan] {
        oldscore := oldscore - 1;
      }
      scan := scan + 1;
    }
  }

  // -- Emitting ----------------------------------------------------------------

  /** The control entry with shortest varints. */
  function MakeLoop(diff: seq<byte>, copy: seq<byte>, seek: int): Loop
    requires -TWO63 <= seek < TWO63
  {
    Loop(UVarint(|diff|), diff, UVarint(|copy|), copy, UVarint(ZigZag(seek)))
  }

  lemma MakeLoopWellFormed(diff: seq<byte>, copy: seq<byte>, seek: int)
    requires |diff| < TWO63 && |copy| < TWO63 && -TWO63 <= seek < TWO63
    ensures WellFormed(MakeLoop(diff, copy, seek))
    ensures UnZigZag(Value(MakeLoop(diff, copy, seek).seek)) == seek
  {
    UVarintRoundTrip(|diff|);
    UVarintRoundTrip(|copy|);
    ZigZagRoundTrip(seek);
    UVarintRoundTrip(ZigZag(seek));
  }

  function Diff(older: seq<byte>, newer: seq<byte>): (d: seq<byte>)
    requires |older| == |newer|
    ensures |d| == |newer|
  {
    seq(|newer|, i requires 0 <= i < |newer| => (newer[i] as int - older[i] as int) % 256)
  }

  /** Adding the wrapped differences back gives the new bytes. */
  lemma AddDiff(older: seq<byte>, newer: seq<byte>)
    requires |older| == |newer|
    ensures AddBytes(older, Diff(older, newer)) == newer
  {
  }

  /** `emit_loop`. */
  method EmitLoop(body: seq<byte>, newer: seq<byte>, lastScan: nat, lenf: nat, older: seq<byte>, lastPos: nat,
                  extraStart: nat, extraLen: nat, seek: int) returns (r: seq<byte>)
    requires lastScan + lenf <= |newer| && lastPos + lenf <= |older| && extraStart + extraLen <= |newer|
    requires -TWO63 <= seek < TWO63
    ensures r == body + Spell(MakeLoop(Diff(older[lastPos..lastPos + lenf], newer[lastScan..lastScan + lenf]),
                                       newer[extraStart..extraStart + extraLen], seek))
  {
    hide UVarint, ZigZag;
    r := EmitUvarint(body, lenf);
    ghost var diff := Diff(older[lastPos..lastPos + lenf], newer[lastScan..lastScan + lenf]);
    ghost var head := r;
    for i := 0 to lenf
      invariant r == head + diff[..i]
    {
      r := r + [(newer[lastScan + i] as int - older[lastPos + i] as int) % 256];
    }
    r := EmitUvarint(r, extraLen);
    r := r + newer[extraStart..extraStart + extraLen];
    r := EmitSvarint(r, seek);
  }

  // -- The main loop -----------------------------------------------------------

  function TotalLength(ls: seq<Loop>): nat {
    if ls == [] then 0 else |ls[0].diff| + |ls[0].copy| + TotalLength(ls[1..])
  }

  lemma {:induction false} ApplyLength(base: seq<byte>, ls: seq<Loop>, p: Patched)
    requires Apply(base, ls, p).Some?
    ensures |Apply(base, ls, p).value.out| == |p.out| + TotalLength(ls)
  {
    if ls != [] {
      ApplyLength(base, ls[1..], ApplyLoop(base, ls[0], p).value);
    }
  }

  /** The body so far spells loops that rebuild `newer` up to `scan` and leave the base cursor at `pos`. */
  predicate Progress(older: seq<byte>, newer: seq<byte>, body: seq<byte>, ls: seq<Loop>, scan: nat, pos: nat)
    requires scan <= |newer|
  {
    && body == HEADER + SpellAll(ls) && AllWellFormed(ls)
    && Apply(older, ls, Patched([], 0)) == Some(Patched(newer[..scan], pos))
  }

  /** The entry that takes the output from `scan` to `scan'` and the cursor from `pos` to
      `pos'`, adding `lenf` bytes. */
  function PendingLoop(older: seq<byte>, newer: seq<byte>, scan: nat, pos: nat, lenf: nat, scan': nat, pos': nat): Loop
    requires |older| < TWO63 && scan + lenf <= scan' <= |newer| && pos + lenf <= |older| && pos' <= |older|
  {
    MakeLoop(Diff(older[pos..pos + lenf], newer[scan..scan + lenf]), newer[scan + lenf..scan'], pos' - (pos + lenf))
  }

  lemma LoopRebuilds(older: seq<byte>, newer: seq<byte>, scan: nat, pos: nat, lenf: nat, scan': nat, pos': nat)
    requires |older| < TWO63 && |newer| < TWO63
    requires scan + lenf <= scan' <= |newer| && pos + lenf <= |older| && pos' <= |older|
    ensures var l := PendingLoop(older, newer, scan, pos, lenf, scan', pos');
      WellFormed(l) && ApplyLoop(older, l, Patched(newer[..scan], pos)) == Some(Patched(newer[..scan'], pos'))
  {
    hide WellFormed, Value, UnZigZag, Diff, AddBytes, UVarint, ZigZag;
    var add, copy := newer[scan..scan + lenf], newer[scan + lenf..scan'];
    var diff, seek := Diff(older[pos..pos + lenf], add), pos' - (pos + lenf);
    MakeLoopWellFormed(diff, copy, seek);
    AddDiff(older[pos..pos + lenf], add);
    assert newer[..scan] + add + copy == newer[..scan'];
  }

  lemma WellFormedSnoc(ls: seq<Loop>, l: Loop)
    requires AllWellFormed(ls) && WellFormed(l)
    ensures AllWellFormed(ls + [l])
  {
  }

  lemma ApplyMore(base: seq<byte>, ls: seq<Loop>, l: Loop, p: Patched, q: Patched, r: Patched)
    requires Apply(base, ls, p) == Some(q) && ApplyLoop(base, l, q) == Some(r)
    ensures Apply(base, ls + [l], p) == Some(r)
  {
    ApplySnoc(base, ls, l, p);
  }

  lemma SpellMore(body: seq<byte>, ls: seq<Loop>, l: Loop)
    requires body == HEADER + SpellAll(ls)
    ensures body + Spell(l) == HEADER + SpellAll(ls + [l])
  {
    SpellAllSnoc(ls, l);
  }

  /** One more loop advances the progress as the loop applies. */
  lemma AppendPending(older: seq<byte>, newer: seq<byte>, body: seq<byte>, ls: seq<Loop>, scan: nat, pos: nat,
                      lenf: nat, scan': nat, pos': nat)
    requires |older| < TWO63 && |newer| < TWO63
    requires scan + lenf <= scan' <= |newer| && pos + lenf <= |older| && pos' <= |older|
    requires Progress(older, newer, body, ls, scan, pos)
    ensures var l := PendingLoop(older, newer, scan, pos, lenf, scan', pos');
      Progress(older, newer, body + Spell(l), ls + [l], scan', pos')
  {
    var l := PendingLoop(older, newer, scan, pos, lenf, scan', pos');
    LoopRebuilds(older, newer, scan, pos, lenf, scan', pos');
    ApplyMore(older, ls, l, Patched([], 0), Patched(newer[..scan], pos), Patched(newer[..scan'], pos'));
    WellFormedSnoc(ls, l);
    SpellMore(body, ls, l);
  }

  /** A complete patch stream: loops that rebuild `newer`, whose add and copy spans tile it. */
  ghost predicate Encodes(older: seq<byte>, newer: seq<byte>, body: seq<byte>) {
    exists ls: seq<Loop>, pos: nat :: Progress(older, newer, body, ls, |newer|, pos) && TotalLength(ls) == |newer|
  }

  lemma Finished(older: seq<byte>, newer: seq<byte>, body: seq<byte>, ls: seq<Loop>, pos: nat)
    requires Progress(older, newer, body, ls, |newer|, pos)
    ensures Encodes(older, newer, body) && Decodes(older, body, newer)
  {
    assert newer[..|newer|] == newer;
    ApplyLength(older, ls, Patched([], 0));
    assert body == HEADER + SpellAll(ls) + [];
    assert DecodesAs(older, body, ls, [], Patched(newer, pos));
  }

  /** From the best extensions `f` and `b`, what is left of them once any overlap is split between them. */
  ghost predicate Parted(older: seq<byte>, newer: seq<byte>, lastScan: nat, lastPos: nat, scan: nat, pos: nat,
                         f: nat, b: nat, lenf: nat, lenb: nat)
    requires lastScan + f <= scan <= |newer| && lastPos + f <= |older| && b <= scan - lastScan && b <= pos <= |older|
  {
    var overlap := (lastScan + f) - (scan - b);
    if overlap <= 0 then lenf == f && lenb == b
    else
      && lenf <= f && lenb <= b && (f - lenf) + (b - lenb) == overlap
      && BestSplit(older, newer, lastPos + f - overlap, pos - b, scan - b, overlap, b - lenb)
  }

  /** The pending match, begun at (`lastPos`, `lastScan`), keeps `lenf` bytes and the one at (`pos`, `scan`) takes
      `lenb` bytes before it: the best extensions, the backward one only if there is data left, parted where they
      overlap. */
  ghost predicate Extended(older: seq<byte>, newer: seq<byte>, lastScan: nat, lastPos: nat, scan: nat, pos: nat,
                           lenf: nat, lenb: nat)
    requires lastScan <= scan <= |newer| && lastPos <= |older| && pos <= |older|
  {
    && lastScan + lenf <= scan - lenb && lastPos + lenf <= |older| && lenb <= pos
    && exists f: nat, b: nat ::
      && BestForward(older, newer, lastPos, lastScan, scan, f)
      && (if scan < |newer| then BestBackward(older, newer, pos, lastScan, scan, b) else b == 0)
      && Parted(older, newer, lastScan, lastPos, scan, pos, f, b, lenf, lenb)
  }

  /** How far the last match reaches forward and the found one backward. */
  method Extents(older: seq<byte>, newer: seq<byte>, lastScan: nat, lastPos: nat, scan: nat, pos: nat)
      returns (lenf: nat, lenb: nat)
    requires lastScan <= scan <= |newer| && lastPos <= |older| && pos <= |older|
    ensures Extended(older, newer, lastScan, lastPos, scan, pos, lenf, lenb)
    ensures scan == |newer| ==> lenb == 0
  {
    lenf := ForwardExtend(older, newer, lastPos, lastScan, scan);
    lenb := 0;
    if scan < |newer| {
      lenb := BackwardExtend(older, newer, pos, lastScan, scan);
    }
    ghost var f, b := lenf, lenb;
    if lastScan + lenf > scan - lenb {
      var overlap := (lastScan + lenf) - (scan - lenb);
      var lens := SplitOverlap(older, newer, lastPos + lenf - overlap, pos - lenb, scan - lenb, overlap);
      lenf := lenf + lens - overlap;
      lenb := lenb - lens;
    }
    assert Parted(older, newer, lastScan, lastPos, scan, pos, f, b, lenf, lenb);
  }

  // -- What the encoder writes ------------------------------------------------------

  /** Where the main loop stands when it comes round. */
  datatype Place = Place(scan: nat, len: nat, pos: nat, lastScan: nat, lastPos: nat)

  predicate Within(older: seq<byte>, newer: seq<byte>, p: Place) {
    && p.lastScan <= p.scan <= |newer| && (p.scan < |newer| ==> p.scan + p.len <= |newer|)
    && p.pos < |older| && p.lastPos <= |older|
  }

  /** The pending match ends where the best extensions put it, and goes out as `out`. */
  ghost predicate Ends(older: seq<byte>, newer: seq<byte>, p: Place, q: Place, lenf: nat, out: seq<Loop>)
    requires |older| < TWO63 && Within(older, newer, p) && Within(older, newer, q) && p.lastScan <= q.scan
  {
    && q.pos - q.lastPos == q.scan - q.lastScan
    && Extended(older, newer, p.lastScan, p.lastPos, q.scan, q.pos, lenf, q.scan - q.lastScan)
    && out == [PendingLoop(older, newer, p.lastScan, p.lastPos, lenf, q.lastScan, q.lastPos)]
  }

  /** One turn of the main loop: on to the first stop, where a match that only goes
      on along the last diagonal is skipped, and any other ends the pending one. */
  ghost predicate Turn(sa: seq<nat>, older: seq<byte>, newer: seq<byte>, p: Place, q: Place, out: seq<Loop>)
    requires 0 < |older| < TWO63 && |older| == |sa| && InRange(sa, |older|)
  {
    && Within(older, newer, p) && Within(older, newer, q) && p.scan < |newer|
    && var offset, start := p.lastPos - p.lastScan, p.scan + p.len;
    && FirstStop(sa, older, newer, offset, start, q.scan)
    && Match(q.len, q.pos) == InHand(sa, older, newer, start, Match(p.len, p.pos), q.scan)
    && if q.scan < |newer| && q.len == Score(sa, older, newer, offset, start, q.scan) then
         q.lastScan == p.lastScan && q.lastPos == p.lastPos && out == []
       else exists lenf: nat :: Ends(older, newer, p, q, lenf, out)
  }

  const ORIGIN := Place(0, 0, 0, 0, 0)

  ghost predicate Trail(sa: seq<nat>, older: seq<byte>, newer: seq<byte>, places: seq<Place>, outs: seq<seq<Loop>>)
    requires 0 < |older| < TWO63 && |older| == |sa| && InRange(sa, |older|)
  {
    && |places| == |outs| + 1 && places[0] == ORIGIN
    && forall i :: 0 <= i < |outs| ==> Turn(sa, older, newer, places[i], places[i + 1], outs[i])
  }

  function Concat(outs: seq<seq<Loop>>): seq<Loop> {
    if outs == [] then [] else Concat(outs[..|outs| - 1]) + outs[|outs| - 1]
  }

  /** The main loop, run to the end of the new data, writes `body`. */
  ghost predicate Traced(older: seq<byte>, newer: seq<byte>, body: seq<byte>)
    requires 0 < |older| < TWO63
  {
    exists sa, places: seq<Place>, outs ::
      && IsSuffixArray(older, sa) && Trail(sa, older, newer, places, outs)
      && places[|outs|].scan == |newer| && body == HEADER + SpellAll(Concat(outs))
  }

  /** The patch stream of two byte strings: the header alone, one verbatim copy, or what the main loop writes. */
  ghost predicate StreamOf(older: seq<byte>, newer: seq<byte>, body: seq<byte>)
    requires |older| < TWO63
  {
    if newer == [] then body == HEADER
    else if older == [] then body == HEADER + Spell(MakeLoop([], newer, 0))
    else Traced(older, newer, body)
  }

  lemma TrailMore(sa: seq<nat>, older: seq<byte>, newer: seq<byte>, places: seq<Place>, outs: seq<seq<Loop>>, q: Place,
                  out: seq<Loop>)
    requires 0 < |older| < TWO63 && |older| == |sa| && InRange(sa, |older|)
    requires Trail(sa, older, newer, places, outs) && Turn(sa, older, newer, places[|outs|], q, out)
    ensures Trail(sa, older, newer, places + [q], outs + [out]) && Concat(outs + [out]) == Concat(outs) + out
  {
    hide Turn;
    var ps, os := places + [q], outs + [out];
    assert os[..|os| - 1] == outs;
    forall i | 0 <= i < |os|
      ensures Turn(sa, older, newer, ps[i], ps[i + 1], os[i])
    {
      if i < |outs| {
        assert Turn(sa, older, newer, places[i], places[i + 1], outs[i]);
      }
    }
  }

  /** Ends the pending match at (`lastPos`, `lastScan`) and starts the one found at (`pos`, `scan`). */
  method EmitPending(body: seq<byte>, ghost ls: seq<Loop>, older: seq<byte>, newer: seq<byte>,
                     lastScan: nat, lastPos: nat, scan: nat, pos: nat)
      returns (r: seq<byte>, lastScan': nat, lastPos': nat, ghost lenf: nat, ghost out: seq<Loop>)
    requires |older| < TWO63 && |newer| < TWO63
    requires lastScan <= scan <= |newer| && lastPos <= |older| && pos <= |older|
    requires Progress(older, newer, body, ls, lastScan, lastPos)
    ensures lastScan <= lastScan' <= scan && lastPos' <= pos && scan - lastScan' == pos - lastPos'
    ensures scan == |newer| ==> lastScan' == scan
    ensures Extended(older, newer, lastScan, lastPos, scan, pos, lenf, scan - lastScan')
    ensures out == [PendingLoop(older, newer, lastScan, lastPos, lenf, lastScan', lastPos')]
    ensures Progress(older, newer, r, ls + out, lastScan', lastPos')
  {
    hide Parted, BestForward, BestBackward, Progress, Spell, Diff;
    var len, lenb := Extents(older, newer, lastScan, lastPos, scan, pos);
    var extraStart := lastScan + len;
    var extraLen := (scan - lenb) - (lastScan + len);
    var seek := (pos - lenb) - (lastPos + len);
    r := EmitLoop(body, newer, lastScan, len, older, lastPos, extraStart, extraLen, seek);
    lastScan', lastPos' := scan - lenb, pos - lenb;
    lenf := len;
    assert extraStart + extraLen == lastScan';
    out := [PendingLoop(older, newer, lastScan, lastPos, lenf, lastScan', lastPos')];
    AppendPending(older, newer, body, ls, lastScan, lastPos, lenf, lastScan', lastPos');
  }

  lemma ProgressStart(older: seq<byte>, newer: seq<byte>)
    ensures Progress(older, newer, HEADER, [], 0, 0)
  {
    assert HEADER == HEADER + SpellAll([]) && newer[..0] == [];
  }

  /** With no base to diff against, `newer` goes out verbatim as one copy span. */
  method Verbatim(body: seq<byte>, older: seq<byte>, newer: seq<byte>) returns (r: seq<byte>)
    requires |older| == 0 && |newer| < TWO63 && body == HEADER
    ensures r == HEADER + Spell(MakeLoop([], newer, 0))
    ensures Encodes(older, newer, r) && Decodes(older, r, newer)
  {
    hide Progress, Encodes, Decodes;
    r := EmitUvarint(body, 0);
    r := EmitUvarint(r, |newer|);
    r := r + newer;
    r := EmitSvarint(r, 0);
    ghost var l := PendingLoop(older, newer, 0, 0, 0, |newer|, 0);
    assert newer[0..|newer|] == newer;
    ProgressStart(older, newer);
    AppendPending(older, newer, HEADER, [], 0, 0, 0, |newer|, 0);
    assert l == MakeLoop([], newer, 0);
    assert r == HEADER + Spell(l);
    Finished(older, newer, r, [] + [l], 0);
  }

  /** `make_patch` before compression. */
  method PatchStream(older: seq<byte>, newer: seq<byte>) returns (body: seq<byte>)
    requires |older| < TWO63 && |newer| < TWO63
    ensures StreamOf(older, newer, body)
    ensures Encodes(older, newer, body) && Decodes(older, body, newer)
  {
    hide Traced, Encodes, Decodes, Progress, IsSuffixArray;
    body := HEADER;
    ProgressStart(older, newer);
    if |newer| == 0 {
      Finished(older, newer, body, [], 0);
      return;
    }
    if |older| == 0 {
      body := Verbatim(body, older, newer);
      return;
    }
    body := MainLoop(older, newer, body);
  }

  /** The main loop of `make_patch`. */
  method MainLoop(older: seq<byte>, newer: seq<byte>, header: seq<byte>) returns (body: seq<byte>)
    requires 0 < |older| < TWO63 && 0 < |newer| < TWO63 && header == HEADER
    ensures Traced(older, newer, body) && Encodes(older, newer, body) && Decodes(older, body, newer)
  {
    hide Trail, Encodes, Decodes, Progress, Extended, FirstStop, Score, InHand, Sorted, SpellAll, Concat;
    body := header;
    var sa := BuildSuffixArray(older);
    var scan: nat, len: nat, pos: nat, lastScan: nat, lastPos: nat := 0, 0, 0, 0, 0;
    var lastOffset := 0;
    ghost var places, outs := [ORIGIN], [];
    TrailStart(sa, older, newer);
    ProgressStart(older, newer);
    while scan < |newer|
      invariant Within(older, newer, Place(scan, len, pos, lastScan, lastPos))
      invariant lastPos == lastScan + lastOffset
      invariant scan == |newer| ==> lastScan == |newer|
      invariant |places| == |outs| + 1 && places[|outs|] == Place(scan, len, pos, lastScan, lastPos)
      invariant Trail(sa, older, newer, places, outs)
      invariant Progress(older, newer, body, Concat(outs), lastScan, lastPos)
      decreases if scan == |newer| then 0 else 1 + |newer| - (scan + len)
    {
      ghost var p := Place(scan, len, pos, lastScan, lastPos);
      var oldscore;
      scan, len, pos, oldscore := NextMatch(sa, older, newer, scan + len, len, pos, lastOffset);
      StopMoves(sa, older, newer, lastOffset, p.scan + p.len, scan, Match(p.len, p.pos));
      ghost var out := [];
      if len != oldscore || scan == |newer| {
        ghost var lenf;
        body, lastScan, lastPos, lenf, out :=
          EmitPending(body, Concat(outs), older, newer, lastScan, lastPos, scan, pos);
        lastOffset := pos - scan;
        assert Ends(older, newer, p, Place(scan, len, pos, lastScan, lastPos), lenf, out);
      }
      ghost var q := Place(scan, len, pos, lastScan, lastPos);
      assert Turn(sa, older, newer, p, q, out);
      TrailMore(sa, older, newer, places, outs, q, out);
      assert Concat(outs) + [] == Concat(outs);
      places, outs := places + [q], outs + [out];
    }
    BodyOfProgress(older, newer, body, Concat(outs), |newer|, lastPos);
    Finished(older, newer, body, Concat(outs), lastPos);
  }

  lemma TrailStart(sa: seq<nat>, older: seq<byte>, newer: seq<byte>)
    requires 0 < |older| < TWO63 && |older| == |sa| && InRange(sa, |older|)
    ensures Trail(sa, older, newer, [ORIGIN], []) && Concat([]) == []
  {
  }

  lemma BodyOfProgress(older: seq<byte>, newer: seq<byte>, body: seq<byte>, ls: seq<Loop>, scan: nat, pos: nat)
    requires scan <= |newer| && Progress(older, newer, body, ls, scan, pos)
    ensures body == HEADER + SpellAll(ls)
  {
  }

  /** From a stop on there is a way to go, so the loop ends. */
  lemma StopMoves(sa: seq<nat>, older: seq<byte>, newer: seq<byte>, offset: int, start: nat, scan: nat, before: Match)
    requires 0 < |older| == |sa| && InRange(sa, |older|) && 0 <= start + offset
    requires FirstStop(sa, older, newer, offset, start, scan)
    ensures start <= scan <= |newer|
    ensures scan < |newer| ==> var m := InHand(sa, older, newer, start, before, scan);
      m.len > 0 && scan + m.len <= |newer| && (m.len == Score(sa, older, newer, offset, start, scan) || m.len > 8)
  {
  }

  /** `make_patch`: the compressed stream, or none where the compressor fails and it
      throws. Applying it to `older` yields `newer`. */
  method MakePatch(z: Zstd, older: seq<byte>, newer: seq<byte>) returns (patch: Option<seq<byte>>)
    requires |older| < TWO63 && |newer| < TWO63
    ensures exists body :: patch == z.compress(body) && StreamOf(older, newer, body) && Encodes(older, newer, body)
    ensures Inverse(z) && patch.Some? ==>
      InflatesTo(z, patch.value, older, newer) && ShortVarints(z, patch.value, older)
  {
    hide StreamOf, Encodes, Decodes;
    var body := PatchStream(older, newer);
    patch := z.compress(body);
    if Inverse(z) && patch.Some? {
      PatchInflates(z, older, newer, body);
    }
  }

  lemma PatchInflates(z: Zstd, older: seq<byte>, newer: seq<byte>, body: seq<byte>)
    requires Inverse(z) && Decodes(older, body, newer) && z.compress(body).Some?
    ensures var patch := z.compress(body).value; InflatesTo(z, patch, older, newer) && ShortVarints(z, patch, older)
  {
    var patch := z.compress(body).value;
    assert Delivers(z, patch, body);
    ChunkedAcceptsExactly(older, z.decompress(patch).pieces, newer);
  }

  /** The round trip: for all byte strings, and however the decompressor cuts its output,
      a patch that was made inflates to exactly `newer`. */
  method PatchThenInflate(z: Zstd, older: seq<byte>, newer: seq<byte>)
      returns (made: bool, ok: bool, written: Option<seq<byte>>)
    requires |older| < TWO63 && |newer| < TWO63 && Inverse(z)
    ensures made ==> ok && written == Some(newer)
    ensures (forall body :: z.compress(body).Some?) ==> made
  {
    var patch := MakePatch(z, older, newer);
    if patch.None? {
      return false, false, None;
    }
    var base := new MemReadSeek(older);
    made := true;
    ok, written := InflatePatch(z, patch.value, base);
    InflatesExactly(z, patch.value, older);
  }
}
