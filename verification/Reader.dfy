/** The push-driven patch reader as a state machine over single bytes, and the
    proof that, however the stream is cut into chunks, it accepts exactly the
    streams of the grammar and writes exactly what they decode to. */
module Reader {
  import opened Bytes
  import opened Varint
  import opened Wire
  import opened ReadSeek

  /** `Undefined` is where a shift by 64 or more, which C++ leaves undefined, ends up. */
  datatype Stage = ReadHeader | ReadVarint | DoAdd | DoCopy | Done | Error | Undefined
  datatype Target = AddLen | CopyLen | Seek

  datatype State = State(
    stage: Stage, target: Target, hadError: bool, hdr: seq<byte>,
    acc: nat, shift: nat, remaining: nat, patched: Patched)

  const START := State(ReadHeader, AddLen, false, [], 0, 0, 0, Patched([], 0))

  function LeU32(b: seq<byte>): nat
    requires |b| == 4
  {
    b[0] as int + b[1] as int * 0x100 + b[2] as int * 0x1_0000 + b[3] as int * 0x100_0000
  }

  predicate HeaderOk(hdr: seq<byte>)
    requires |hdr| == 8
  {
    LeU32(hdr[..4]) == 0xB1DF && LeU32(hdr[4..]) == 0x1000
  }

  function HeaderByte(s: State, b: byte): State {
    var t := s.(hdr := s.hdr + [b]);
    if |t.hdr| != 8 then t
    else if !HeaderOk(t.hdr) then t.(hadError := true)
    else t.(stage := ReadVarint, target := AddLen)
  }

  function OnVarint(base: seq<byte>, s: State, val: nat): State {
    var t := s.(acc := 0, shift := 0);
    match t.target
    case AddLen =>
      if val == 0 then t.(target := CopyLen) else t.(remaining := val, stage := DoAdd)
    case CopyLen =>
      if val == 0 then t.(target := Seek) else t.(remaining := val, stage := DoCopy)
    case Seek =>
      var p := SeekTo(base, t.patched.pos, UnZigZag(val), Cur);
      if p < 0 then t.(hadError := true) else t.(patched := Patched(t.patched.out, p), target := AddLen)
  }

  function VarintByte(base: seq<byte>, s: State, b: byte): State {
    if s.shift >= 64 then s.(stage := Undefined)
    else
      var t := s.(acc := Accumulate(s.acc, s.shift, b), shift := s.shift + 7);
      if b >= 0x80 then t else OnVarint(base, t, t.acc)
  }

  function AddStep(base: seq<byte>, s: State, b: byte): State {
    var got := ReadAt(base, s.patched.pos, 1);
    if |got| != 1 then s.(hadError := true)
    else
      var t := s.(patched := Patched(s.patched.out + [AddByte(got[0], b)], s.patched.pos + 1));
      if s.remaining <= 1 then t.(remaining := 0, stage := ReadVarint, target := CopyLen)
      else t.(remaining := s.remaining - 1)
  }

  function CopyStep(s: State, b: byte): State {
    var t := s.(patched := Patched(s.patched.out + [b], s.patched.pos));
    if s.remaining <= 1 then t.(remaining := 0, stage := ReadVarint, target := Seek)
    else t.(remaining := s.remaining - 1)
  }

  function Step(base: seq<byte>, s: State, b: byte): State {
    if s.hadError then s
    else match s.stage
      case ReadHeader => HeaderByte(s, b)
      case ReadVarint => VarintByte(base, s, b)
      case DoAdd => AddStep(base, s, b)
      case DoCopy => CopyStep(s, b)
      case Done | Error | Undefined => s
  }

  function Run(base: seq<byte>, s: State, bytes: seq<byte>): State
    decreases |bytes|
  {
    if bytes == [] then s else Run(base, Step(base, s, bytes[0]), bytes[1..])
  }

  /** `finalize`: the stream may end only where a loop would start. */
  predicate Accepting(s: State) {
    !s.hadError && s.stage == ReadVarint && s.target == AddLen
  }

  lemma {:induction false} RunConcat(base: seq<byte>, s: State, x: seq<byte>, y: seq<byte>)
    ensures Run(base, s, x + y) == Run(base, Run(base, s, x), y)
    decreases |x|
  {
    if x == [] {
      assert x + y == y;
    } else {
      assert (x + y)[1..] == x[1..] + y;
      RunConcat(base, Step(base, s, x[0]), x[1..], y);
    }
  }

  function RunChunks(base: seq<byte>, s: State, chunks: seq<seq<byte>>): State
    decreases |chunks|
  {
    if chunks == [] then s else RunChunks(base, Run(base, s, chunks[0]), chunks[1..])
  }

  /** Where the stream is cut makes no difference. */
  lemma {:induction false} ChunkingIrrelevant(base: seq<byte>, s: State, chunks: seq<seq<byte>>)
    ensures RunChunks(base, s, chunks) == Run(base, s, Flatten(chunks))
    decreases |chunks|
  {
    if chunks != [] {
      RunConcat(base, s, chunks[0], Flatten(chunks[1..]));
      ChunkingIrrelevant(base, Run(base, s, chunks[0]), chunks[1..]);
    }
  }

  lemma {:induction false} ErrorSticks(base: seq<byte>, s: State, bytes: seq<byte>)
    requires s.hadError || s.stage in {Done, Error, Undefined}
    ensures Run(base, s, bytes) == s
    decreases |bytes|
  {
    if bytes != [] {
      ErrorSticks(base, s, bytes[1..]);
    }
  }

  /** Reading a varint: `raw` has been consumed since the varint started. */
  predicate InVarint(s: State, raw: seq<byte>) {
    !s.hadError && s.stage == ReadVarint && |raw| <= 10 && s.acc == Value(raw) && s.shift == 7 * |raw|
  }

  /** Between two varints or at the start of one: nothing accumulated, no bytes owed. */
  predicate Fresh(s: State, target: Target) {
    !s.hadError && s.stage == ReadVarint && s.target == target && s.acc == 0 && s.shift == 0 && s.remaining == 0
  }

  function WithVarint(s: State, raw: seq<byte>): State {
    s.(acc := Value(raw), shift := 7 * |raw|)
  }

  lemma {:induction false} VarintRun(base: seq<byte>, s: State, raw: seq<byte>, more: seq<byte>)
    requires InVarint(s, raw) && Unfinished(more)
    ensures |raw + more| <= 10 ==> Run(base, s, more) == WithVarint(s, raw + more)
    ensures |raw + more| > 10 ==> Run(base, s, more).stage == Undefined
    decreases |more|
  {
    if more == [] {
      assert raw + more == raw;
    } else if |raw| == 10 {
      ErrorSticks(base, Step(base, s, more[0]), more[1..]);
    } else {
      AccumulateValue(raw, more[0]);
      assert raw + more == (raw + [more[0]]) + more[1..];
      VarintRun(base, Step(base, s, more[0]), raw + [more[0]], more[1..]);
    }
  }

  /** A whole varint hands its value to `OnVarint`. */
  lemma WholeVarint(base: seq<byte>, s: State, raw: seq<byte>)
    requires Fresh(s, s.target) && IsVarint(raw)
    ensures Run(base, s, raw) == OnVarint(base, s, Value(raw))
  {
    assert InVarint(s, []);
    var init, b := raw[..|raw| - 1], raw[|raw| - 1];
    assert raw == init + [b] && [] + init == init;
    VarintRun(base, s, [], init);
    RunConcat(base, s, init, [b]);
    AccumulateValue(init, b);
    var t := WithVarint(s, init);
    assert Run(base, t, [b]) == Step(base, t, b);
  }

  /** The state after `n` of the bytes still owed, with the output and cursor at `p`. */
  function Paid(s: State, n: nat, p: Patched, next: Target): State
    requires n <= s.remaining
  {
    var t := s.(patched := p, remaining := s.remaining - n);
    if n == s.remaining then t.(stage := ReadVarint, target := next) else t
  }

  lemma AddSpanStep(base: seq<byte>, p: Patched, diff: seq<byte>)
    requires diff != []
    ensures var got := ReadAt(base, p.pos, 1);
      if |got| != 1 then p.pos >= |base| && AddSpan(base, p, diff) == None
      else AddSpan(base, p, diff) == AddSpan(base, Patched(p.out + [AddByte(got[0], diff[0])], p.pos + 1), diff[1..])
  {
    if p.pos + |diff| <= |base| {
      var span, q := base[p.pos..p.pos + |diff|], p.out + [AddByte(base[p.pos], diff[0])];
      assert span[1..] == base[p.pos + 1..p.pos + 1 + |diff[1..]|];
      assert p.out + AddBytes(span, diff) == q + AddBytes(span[1..], diff[1..]);
    }
  }

  lemma {:induction false} AddRun(base: seq<byte>, s: State, diff: seq<byte>)
    requires !s.hadError && s.stage == DoAdd && 0 < |diff| <= s.remaining
    ensures var q := AddSpan(base, s.patched, diff);
      if q.None? then Run(base, s, diff).hadError else Run(base, s, diff) == Paid(s, |diff|, q.value, CopyLen)
    decreases |diff|
  {
    var t := Step(base, s, diff[0]);
    AddSpanStep(base, s.patched, diff);
    if t.hadError {
      ErrorSticks(base, t, diff[1..]);
    } else if |diff| == 1 {
      assert Run(base, t, diff[1..]) == t;
      assert AddSpan(base, t.patched, diff[1..]).value.out == t.patched.out;
    } else {
      AddRun(base, t, diff[1..]);
    }
  }

  lemma {:induction false} CopyRun(base: seq<byte>, s: State, copy: seq<byte>)
    requires !s.hadError && s.stage == DoCopy && 0 < |copy| <= s.remaining
    ensures Run(base, s, copy) == Paid(s, |copy|, CopySpan(s.patched, copy), Seek)
    decreases |copy|
  {
    var t := Step(base, s, copy[0]);
    assert t.patched.out + copy[1..] == s.patched.out + copy;
    if |copy| == 1 {
      assert Run(base, t, copy[1..]) == t;
    } else {
      CopyRun(base, t, copy[1..]);
    }
  }

  // -- One loop, and the whole stream --------------------------------------

  lemma VarintThen(base: seq<byte>, s: State, raw: seq<byte>, rest: seq<byte>)
    requires Fresh(s, s.target) && IsVarint(raw)
    ensures Run(base, s, raw + rest) == Run(base, OnVarint(base, s, Value(raw)), rest)
  {
    RunConcat(base, s, raw, rest);
    WholeVarint(base, s, raw);
  }

  lemma NothingToAdd(base: seq<byte>, p: Patched)
    requires p.pos <= |base|
    ensures AddSpan(base, p, []) == Some(p)
  {
    assert p.out + AddBytes(base[p.pos..p.pos], []) == p.out;
  }

  lemma AddSpanPos(base: seq<byte>, p: Patched, diff: seq<byte>)
    requires AddSpan(base, p, diff).Some?
    ensures AddSpan(base, p, diff).value.pos <= |base|
  {
  }

  /** Add length and diff bytes: what the first third of a loop does. */
  lemma AddPart(base: seq<byte>, s: State, raw: seq<byte>, diff: seq<byte>, q: Option<Patched>)
    requires Fresh(s, AddLen) && IsVarint(raw) && Value(raw) == |diff| && s.patched.pos <= |base|
    requires q == AddSpan(base, s.patched, diff)
    ensures if q.None? then Run(base, s, raw + diff).hadError
      else Run(base, s, raw + diff) == s.(target := CopyLen, patched := q.value)
  {
    VarintThen(base, s, raw, diff);
    if diff == [] {
      NothingToAdd(base, s.patched);
    } else {
      AddRun(base, OnVarint(base, s, |diff|), diff);
    }
  }

  lemma CopyPart(base: seq<byte>, s: State, raw: seq<byte>, copy: seq<byte>)
    requires Fresh(s, CopyLen) && IsVarint(raw) && Value(raw) == |copy|
    ensures Run(base, s, raw + copy) == s.(target := Seek, patched := CopySpan(s.patched, copy))
  {
    VarintThen(base, s, raw, copy);
    if copy == [] {
      assert CopySpan(s.patched, copy).out == s.patched.out;
    } else {
      CopyRun(base, OnVarint(base, s, |copy|), copy);
    }
  }

  lemma SeekPart(base: seq<byte>, s: State, raw: seq<byte>)
    requires Fresh(s, Seek) && IsVarint(raw)
    ensures var q := SeekBy(base, s.patched, UnZigZag(Value(raw)));
      if q.None? then Run(base, s, raw).hadError
      else Run(base, s, raw) == s.(target := AddLen, patched := q.value)
  {
    WholeVarint(base, s, raw);
  }

  /** A well-formed loop takes the reader from one loop boundary to the next exactly as `ApplyLoop` says. */
  lemma LoopRun(base: seq<byte>, s: State, l: Loop)
    requires Fresh(s, AddLen) && WellFormed(l) && s.patched.pos <= |base|
    ensures var q := ApplyLoop(base, l, s.patched);
      if q.None? then Run(base, s, Spell(l)).hadError
      else Run(base, s, Spell(l)) == s.(patched := q.value) && q.value.pos <= |base|
  {
    var head, mid := l.addLen + l.diff, l.copyLen + l.copy;
    assert Spell(l) == head + (mid + l.seek);
    RunConcat(base, s, head, mid + l.seek);
    var added := AddSpan(base, s.patched, l.diff);
    AddPart(base, s, l.addLen, l.diff, added);
    var t := Run(base, s, head);
    if t.hadError {
      ErrorSticks(base, t, mid + l.seek);
    } else {
      AddSpanPos(base, s.patched, l.diff);
      RunConcat(base, t, mid, l.seek);
      CopyPart(base, t, l.copyLen, l.copy);
      SeekPart(base, Run(base, t, mid), l.seek);
    }
  }

  lemma {:induction false} LoopsRun(base: seq<byte>, s: State, ls: seq<Loop>)
    requires Fresh(s, AddLen) && AllWellFormed(ls) && s.patched.pos <= |base|
    ensures var q := Apply(base, ls, s.patched);
      if q.None? then Run(base, s, SpellAll(ls)).hadError
      else Run(base, s, SpellAll(ls)) == s.(patched := q.value)
    decreases |ls|
  {
    if ls != [] {
      RunConcat(base, s, Spell(ls[0]), SpellAll(ls[1..]));
      LoopRun(base, s, ls[0]);
      var t := Run(base, s, Spell(ls[0]));
      if t.hadError {
        ErrorSticks(base, t, SpellAll(ls[1..]));
      } else {
        LoopsRun(base, t, ls[1..]);
      }
    }
  }

  // -- From acceptance back to the grammar ----------------------------------

  function Continuation(bytes: seq<byte>): (k: nat)
    ensures k <= |bytes| && Unfinished(bytes[..k]) && (k < |bytes| ==> bytes[k] < 0x80)
  {
    if bytes == [] || bytes[0] < 0x80 then 0
    else
      var k := 1 + Continuation(bytes[1..]);
      assert bytes[..k] == [bytes[0]] + bytes[1..][..k - 1];
      k
  }

  lemma TooLong(base: seq<byte>, t: State, rest: seq<byte>)
    requires t.stage == Undefined || (!t.hadError && t.stage == ReadVarint && t.shift >= 64 && rest != [])
    ensures Run(base, t, rest).stage == Undefined
  {
    if t.stage == Undefined {
      ErrorSticks(base, t, rest);
    } else {
      ErrorSticks(base, Step(base, t, rest[0]), rest[1..]);
    }
  }

  /** With more than ten bytes, or none, to end a varint that must be complete, the stream is not accepted. */
  lemma VarintMustEnd(base: seq<byte>, s: State, raw: seq<byte>, rest: seq<byte>)
    requires Fresh(s, s.target) && Unfinished(raw)
    requires rest == [] || |raw| >= 10
    requires s.target == AddLen ==> rest != []
    ensures !Accepting(Run(base, s, raw + rest))
  {
    RunConcat(base, s, raw, rest);
    assert [] + raw == raw;
    VarintRun(base, s, [], raw);
    if rest != [] {
      TooLong(base, Run(base, s, raw), rest);
    }
  }

  /** An accepted stream that is to start with a complete varint does. */
  lemma TakeVarint(base: seq<byte>, s: State, bytes: seq<byte>) returns (raw: seq<byte>, rest: seq<byte>)
    requires Fresh(s, s.target) && Accepting(Run(base, s, bytes))
    requires s.target == AddLen ==> Continuation(bytes) < |bytes|
    ensures bytes == raw + rest && IsVarint(raw)
    ensures Run(base, s, bytes) == Run(base, OnVarint(base, s, Value(raw)), rest)
  {
    var k := Continuation(bytes);
    if k == |bytes| || k >= 10 {
      assert bytes == bytes[..k] + bytes[k..];
      VarintMustEnd(base, s, bytes[..k], bytes[k..]);
      assert false;
    }
    raw, rest := bytes[..k + 1], bytes[k + 1..];
    assert raw[..|raw| - 1] == bytes[..k];
    assert bytes == raw + rest;
    VarintThen(base, s, raw, rest);
  }

  /** The bytes a length promised are there. */
  lemma TakeSpan(base: seq<byte>, s: State, bytes: seq<byte>)
    requires !s.hadError && s.stage in {DoAdd, DoCopy} && 0 < s.remaining
    requires Accepting(Run(base, s, bytes))
    ensures s.remaining <= |bytes|
  {
    if bytes == [] {
      assert false;
    } else if |bytes| < s.remaining {
      if s.stage == DoAdd {
        AddRun(base, s, bytes);
      } else {
        CopyRun(base, s, bytes);
      }
      assert false;
    }
  }

  lemma TakeAdd(base: seq<byte>, s: State, bytes: seq<byte>)
      returns (raw: seq<byte>, diff: seq<byte>, rest: seq<byte>, t: State)
    requires Fresh(s, AddLen) && s.patched.pos <= |base| && Accepting(Run(base, s, bytes)) &&
      Continuation(bytes) < |bytes|
    ensures bytes == raw + diff + rest && IsVarint(raw) && Value(raw) == |diff|
    ensures Fresh(t, CopyLen) && Run(base, s, bytes) == Run(base, t, rest)
  {
    var after;
    raw, after := TakeVarint(base, s, bytes);
    var n := Value(raw);
    if n > 0 {
      TakeSpan(base, OnVarint(base, s, n), after);
    }
    diff, rest := after[..n], after[n..];
    assert bytes == raw + diff + rest;
    RunConcat(base, s, raw + diff, rest);
    AddPart(base, s, raw, diff, AddSpan(base, s.patched, diff));
    t := Run(base, s, raw + diff);
    if t.hadError {
      ErrorSticks(base, t, rest);
    }
  }

  lemma TakeCopy(base: seq<byte>, s: State, bytes: seq<byte>)
      returns (raw: seq<byte>, copy: seq<byte>, rest: seq<byte>, t: State)
    requires Fresh(s, CopyLen) && Accepting(Run(base, s, bytes))
    ensures bytes == raw + copy + rest && IsVarint(raw) && Value(raw) == |copy|
    ensures Fresh(t, Seek) && Run(base, s, bytes) == Run(base, t, rest)
  {
    var after;
    raw, after := TakeVarint(base, s, bytes);
    var n := Value(raw);
    if n > 0 {
      TakeSpan(base, OnVarint(base, s, n), after);
    }
    copy, rest := after[..n], after[n..];
    assert bytes == raw + copy + rest;
    RunConcat(base, s, raw + copy, rest);
    CopyPart(base, s, raw, copy);
    t := Run(base, s, raw + copy);
  }

  lemma TakeLoop(base: seq<byte>, s: State, bytes: seq<byte>) returns (l: Loop, rest: seq<byte>)
    requires Fresh(s, AddLen) && s.patched.pos <= |base| && Accepting(Run(base, s, bytes)) &&
      Continuation(bytes) < |bytes|
    ensures bytes == Spell(l) + rest && WellFormed(l) && |rest| < |bytes|
  {
    hide Run, Accepting, Fresh, Continuation, Value;
    var addLen, diff, rest1, t1 := TakeAdd(base, s, bytes);
    var copyLen, copy, rest2, t2 := TakeCopy(base, t1, rest1);
    var seek, rest3 := TakeVarint(base, t2, rest2);
    l, rest := Loop(addLen, diff, copyLen, copy, seek), rest3;
  }

  /** Nothing but an unfinished varint is left. */
  lemma LoopsEnd(base: seq<byte>, s: State, bytes: seq<byte>)
    requires Fresh(s, AddLen) && Accepting(Run(base, s, bytes)) && Continuation(bytes) == |bytes|
    ensures Unfinished(bytes) && |bytes| <= 10 && Run(base, s, bytes).patched == s.patched
  {
    assert InVarint(s, []);
    hide Run, Value;
    assert bytes[..|bytes|] == bytes == [] + bytes;
    VarintRun(base, s, [], bytes);
  }

  lemma AfterLoop(base: seq<byte>, s: State, l: Loop, rest: seq<byte>)
    requires Fresh(s, AddLen) && s.patched.pos <= |base| && WellFormed(l) && Accepting(Run(base, s, Spell(l) + rest))
    ensures var t := Run(base, s, Spell(l));
      && Fresh(t, AddLen) && t.patched.pos <= |base| && ApplyLoop(base, l, s.patched) == Some(t.patched)
      && Run(base, s, Spell(l) + rest) == Run(base, t, rest)
  {
    hide Run, Spell, WellFormed;
    RunConcat(base, s, Spell(l), rest);
    LoopRun(base, s, l);
    var t := Run(base, s, Spell(l));
    if t.hadError {
      ErrorSticks(base, t, rest);
      assert false;
    }
  }

  lemma {:induction false} TakeLoops(base: seq<byte>, s: State, bytes: seq<byte>)
      returns (ls: seq<Loop>, tail: seq<byte>)
    requires Fresh(s, AddLen) && s.patched.pos <= |base| && Accepting(Run(base, s, bytes))
    ensures bytes == SpellAll(ls) + tail && AllWellFormed(ls) && Unfinished(tail) && |tail| <= 10
    ensures Apply(base, ls, s.patched) == Some(Run(base, s, bytes).patched)
    decreases |bytes|
  {
    hide Run, Spell, WellFormed, ApplyLoop, Continuation;
    if Continuation(bytes) == |bytes| {
      ls, tail := [], bytes;
      assert [] + bytes == bytes;
      LoopsEnd(base, s, bytes);
    } else {
      var l, rest := TakeLoop(base, s, bytes);
      AfterLoop(base, s, l, rest);
      var more;
      more, tail := TakeLoops(base, Run(base, s, Spell(l)), rest);
      ls := [l] + more;
      assert ls[1..] == more;
      assert Spell(l) + SpellAll(more) + tail == Spell(l) + (SpellAll(more) + tail);
    }
  }

  // -- The header ------------------------------------------------------------

  lemma HeaderOkIs(hdr: seq<byte>)
    requires |hdr| == 8
    ensures HeaderOk(hdr) <==> hdr == HEADER
  {
    var lo, hi := hdr[..4], hdr[4..];
    assert hdr == lo + hi && HEADER == HEADER[..4] + HEADER[4..];
    assert LeU32(lo) == 0xB1DF <==> lo == HEADER[..4];
    assert LeU32(hi) == 0x1000 <==> hi == HEADER[4..];
  }

  lemma {:induction false} HeaderRun(base: seq<byte>, s: State, more: seq<byte>)
    requires !s.hadError && s.stage == ReadHeader && |s.hdr| < 8 && |s.hdr + more| <= 8
    ensures Run(base, s, more) ==
      if more == [] then s else HeaderByte(s.(hdr := s.hdr + more[..|more| - 1]), more[|more| - 1])
    decreases |more|
  {
    if |more| == 1 {
      var t := Step(base, s, more[0]);
      assert Run(base, t, more[1..]) == t;
      assert s.hdr + [] == s.hdr;
    } else if more != [] {
      HeaderRun(base, Step(base, s, more[0]), more[1..]);
      assert s.hdr + [more[0]] + more[1..][..|more| - 2] == s.hdr + more[..|more| - 1];
    }
  }

  const BODY := START.(stage := ReadVarint, hdr := HEADER)

  lemma HeaderFirst(base: seq<byte>, body: seq<byte>)
    ensures Run(base, START, HEADER + body) == Run(base, BODY, body)
  {
    RunConcat(base, START, HEADER, body);
    HeaderRun(base, START, HEADER);
    assert [] + HEADER[..7] + [HEADER[7]] == HEADER;
    HeaderOkIs(HEADER);
  }

  lemma TakeHeader(base: seq<byte>, stream: seq<byte>) returns (body: seq<byte>)
    requires Accepting(Run(base, START, stream))
    ensures stream == HEADER + body
  {
    var n := Min(8, |stream|);
    var hdr := stream[..n];
    body := stream[n..];
    assert stream == hdr + body;
    RunConcat(base, START, hdr, body);
    HeaderRun(base, START, hdr);
    if n > 0 {
      assert [] + hdr[..n - 1] + [hdr[n - 1]] == hdr;
    }
    if n == 8 {
      HeaderOkIs(hdr);
      if hdr != HEADER {
        ErrorSticks(base, Run(base, START, hdr), body);
        assert false;
      }
    } else {
      assert false;
    }
  }

  // -- Main results ----------------------------------------------------------

  /** A stream of the grammar is accepted, and the output is what it decodes to. */
  lemma DecodesIsAccepted(base: seq<byte>, stream: seq<byte>, out: seq<byte>)
    requires Decodes(base, stream, out)
    ensures Accepting(Run(base, START, stream)) && Run(base, START, stream).patched.out == out
  {
    var ls, tail, pos: nat :| DecodesAs(base, stream, ls, tail, Patched(out, pos));
    assert stream == HEADER + (SpellAll(ls) + tail);
    HeaderFirst(base, SpellAll(ls) + tail);
    RunConcat(base, BODY, SpellAll(ls), tail);
    LoopsRun(base, BODY, ls);
    VarintRun(base, BODY.(patched := Patched(out, pos)), [], tail);
    assert [] + tail == tail;
  }

  /** And nothing else is accepted: `finalize` holds exactly of the streams that decode. */
  lemma AcceptsExactly(base: seq<byte>, stream: seq<byte>)
    ensures Accepting(Run(base, START, stream)) <==> exists out :: Decodes(base, stream, out)
    ensures forall out :: Decodes(base, stream, out) ==> out == Run(base, START, stream).patched.out
  {
    forall out | Decodes(base, stream, out)
      ensures Accepting(Run(base, START, stream)) && out == Run(base, START, stream).patched.out
    {
      DecodesIsAccepted(base, stream, out);
    }
    if Accepting(Run(base, START, stream)) {
      var body := TakeHeader(base, stream);
      HeaderFirst(base, body);
      var ls, tail := TakeLoops(base, BODY, body);
      assert stream == HEADER + SpellAll(ls) + tail;
      var end := Run(base, START, stream).patched;
      assert DecodesAs(base, stream, ls, tail, end) && end == Patched(end.out, end.pos);
      assert Decodes(base, stream, end.out);
    }
  }

  /** The two together, for the way the reader is driven: any stream, cut anywhere. */
  lemma ChunkedAcceptsExactly(base: seq<byte>, chunks: seq<seq<byte>>, out: seq<byte>)
    ensures var s := RunChunks(base, START, chunks);
      (Accepting(s) && s.patched.out == out) <==> Decodes(base, Flatten(chunks), out)
  {
    ChunkingIrrelevant(base, START, chunks);
    AcceptsExactly(base, Flatten(chunks));
  }
}
