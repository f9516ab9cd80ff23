/** Runs from a fresh install in which something goes wrong: a newer patch is left behind, the
    patch to boot next is deleted, a tombstone is lost. */
module Histories {
  import opened Bytes
  import opened Lifecycle
  import opened LifecycleJson
  import opened Inflate
  import opened Runs
  import opened Safety
  import opened Footprint

  /** An offer whose file arrives whole, with no rollbacks. */
  function Delivery(o: Offer, file: seq<byte>, base: seq<byte>): Inputs {
    Inputs(Response(None, true, Some(o)), (url, offset) => DownloadDone(file, |file|, None), Opened(base))
  }

  function Fetched(s: Store, o: Offer, file: seq<byte>, bytes: seq<byte>): Store {
    s.(patches := s.patches[o.number := Downloaded(o.url, o.hash, o.signature, |file|)],
       downloads := s.downloads[o.number := file], artifacts := s.artifacts[o.number := bytes])
  }

  /** The file inflates to bytes that have the announced hash. */
  predicate Genuine(c: Config, o: Offer, file: seq<byte>, base: seq<byte>, bytes: seq<byte>) {
    InflateResult(c.zstd, file, base) == Inflated(true, Some(bytes)) && o.hash == c.checks.hash(bytes)
  }

  lemma DownloadRuns(c: Config, d: Device, o: Offer, file: seq<byte>, base: seq<byte>)
    ensures var (got, stop) := DownloadTrace(c, d, o, Fresh, DownloadDone(file, |file|, None));
      stop.None? && RunBlocks(c, d, got) == d.(store := d.store.(
        patches := d.store.patches[o.number := Downloaded(o.url, o.hash, o.signature, |file|)],
        downloads := d.store.downloads[o.number := file]))
  {
    hide DownloadTrace, RunBlocks;
    DownloadTraceRuns(c, d, o, Fresh, DownloadDone(file, |file|, None));
    var n := o.number;
    var got := DownloadTrace(c, d, o, Fresh, DownloadDone(file, |file|, None));
    var was := d.store.patches[n := Downloading(o.url, o.hash, o.signature)];
    assert was[n := Downloaded(o.url, o.hash, o.signature, |file|)] ==
           d.store.patches[n := Downloaded(o.url, o.hash, o.signature, |file|)];
  }

  lemma InstallRuns(c: Config, d: Device, o: Offer, file: seq<byte>, base: seq<byte>, bytes: seq<byte>)
    requires o.number in d.store.downloads && d.store.downloads[o.number] == file && Genuine(c, o, file, base, bytes)
    ensures var s := d.store.(artifacts := d.store.artifacts[o.number := bytes]);
      RunBlocks(c, d, InstallTrace(c, d, o, Opened(base)).blocks) ==
      d.(store := InstallAndPromote(s, o.number, |bytes|).store)
  {
    hide RunBlocks, InflateResult, InstallAndPromote;
    InflatingRuns(c, d, o.number, Inflated(true, Some(bytes)), Install(o.number, |bytes|));
  }

  /** An update that delivers an unknown patch installs it and promotes it. */
  lemma UpdateInstalls(c: Config, d: Device, o: Offer, file: seq<byte>, base: seq<byte>, bytes: seq<byte>)
    requires ReadState(d.store, o.number) == None && Genuine(c, o, file, base, bytes)
    ensures Do(c, d, Update(Delivery(o, file, base))).store ==
      InstallAndPromote(Fetched(d.store, o, file, bytes), o.number, |bytes|).store
  {
    hide InstallTrace, DownloadTrace, RunBlocks, Genuine, InstallAndPromote;
    var i := Delivery(o, file, base);
    var head: seq<Block> := [CopyEvents, ClearEvents] + RollbackStep(i.response);
    var d1 := RunBlocks(c, d, head);
    assert [CopyEvents] + [ClearEvents] == head;
    RunMore(c, d, [], CopyEvents);
    RunMore(c, d, [CopyEvents], ClearEvents);
    RunMore(c, d, head, Plan);
    DownloadRuns(c, d1, o, file, base);
    var got := DownloadTrace(c, d1, o, Fresh, DownloadDone(file, |file|, None)).0;
    var d2 := RunBlocks(c, d1, got);
    InstallRuns(c, d2, o, file, base, bytes);
    RunBlocksConcat(c, d, head + [Plan], got);
    RunBlocksConcat(c, d, head + [Plan] + got, InstallTrace(c, d2, o, i.base).blocks);
  }

  lemma LaunchRuns(c: Config, d: Device, now: nat)
    ensures Do(c, d, ReportStart(now)) == Step(c, d, LaunchStart(now)) &&
      Do(c, d, ReportSuccess) == Step(c, d, LaunchSuccess)
  {
    RunOne(c, d, LaunchStart(now));
    RunOne(c, d, LaunchSuccess);
  }

  /** A launch of the next patch that succeeds. */
  lemma BootedOn(c: Config, d: Device, n: nat, now: nat) returns (e: Device)
    requires d.store.pointers.next == Some(n) && IsInstalled(d.store, n)
    ensures e == Do(c, Do(c, d, ReportStart(now)), ReportSuccess)
    ensures var p := d.store.pointers;
      e.store == CleanupOlderThan(d.store.(pointers := p.(last := Some(n), booting := None, startedAt := None)), n)
  {
    LaunchRuns(c, d, now);
    e := Do(c, Do(c, d, ReportStart(now)), ReportSuccess);
    LaunchRuns(c, Do(c, d, ReportStart(now)), now);
  }

  lemma RunsOn(c: Config, d: Device, call: Call, more: seq<Call>)
    ensures RunCalls(c, d, [call] + more) == RunCalls(c, Do(c, d, call), more)
  {
    assert ([call] + more)[1..] == more;
  }

  lemma RunsNothing(c: Config, d: Device)
    ensures RunCalls(c, d, []) == d
  {
  }

  // -- A newer patch is left behind -------------------------------------------------

  /** Two updates, each followed by a launch that succeeds. */
  function TwoBoots(x: Inputs, y: Inputs, now: nat): seq<Call> {
    [Update(x), ReportStart(now), ReportSuccess, Update(y), ReportStart(now), ReportSuccess]
  }

  /** From a fresh install, whenever the server offers an older patch after a newer one
      and both boot, the newer one stays behind, with its artifact, beside the older. */
  lemma OlderOfferLeavesOne(c: Config, profile: Profile, newer: Offer, older: Offer, files: (seq<byte>, seq<byte>),
                            base: seq<byte>, bytes: (seq<byte>, seq<byte>), now: nat)
    requires older.number < newer.number
    requires Genuine(c, newer, files.0, base, bytes.0) && Genuine(c, older, files.1, base, bytes.1)
    ensures var calls := TwoBoots(Delivery(newer, files.0, base), Delivery(older, files.1, base), now);
      var t := RunCalls(c, Device(EMPTY, profile), calls).store;
      && t.pointers.next == t.pointers.last == Some(older.number)
      && IsInstalled(t, newer.number) && newer.number in t.artifacts && !TwoAtMost(t)
  {
    hide Do, Genuine;
    var x, y := Delivery(newer, files.0, base), Delivery(older, files.1, base);
    var d0 := Device(EMPTY, profile);
    UpdateInstalls(c, d0, newer, files.0, base, bytes.0);
    var d1 := Do(c, d0, Update(x));
    var d3 := BootedOn(c, d1, newer.number, now);
    UpdateInstalls(c, d3, older, files.1, base, bytes.1);
    var d4 := Do(c, d3, Update(y));
    var d6 := BootedOn(c, d4, older.number, now);
    RunsTwoBoots(c, d0, x, y, now);
    assert IsInstalled(d6.store, newer.number);
  }

  lemma RunsTwoBoots(c: Config, d: Device, x: Inputs, y: Inputs, now: nat)
    ensures var e := Do(c, Do(c, Do(c, d, Update(x)), ReportStart(now)), ReportSuccess);
      RunCalls(c, d, TwoBoots(x, y, now)) == Do(c, Do(c, Do(c, e, Update(y)), ReportStart(now)), ReportSuccess)
  {
    hide Do, RunCalls;
    var s, t := ReportStart(now), ReportSuccess;
    var d1 := Do(c, d, Update(x));
    var d2 := Do(c, d1, s);
    var e := Do(c, d2, t);
    var e1 := Do(c, e, Update(y));
    var e2 := Do(c, e1, s);
    assert TwoBoots(x, y, now) == [Update(x)] + ([s] + ([t] + ([Update(y)] + ([s] + ([t] + [])))));
    RunsOn(c, d, Update(x), [s] + ([t] + ([Update(y)] + ([s] + ([t] + [])))));
    RunsOn(c, d1, s, [t] + ([Update(y)] + ([s] + ([t] + []))));
    RunsOn(c, d2, t, [Update(y)] + ([s] + ([t] + [])));
    RunsOn(c, e, Update(y), [s] + ([t] + []));
    RunsOn(c, e1, s, [t] + []);
    RunsOn(c, e2, t, []);
    RunsNothing(c, Do(c, e2, t));
  }

  // -- A rollback while the patch is booting ------------------------------------------

  /** The server asks for a patch to be rolled back and offers none. */
  function Recall(n: nat): Call {
    Check(Response(Some([n]), false, None))
  }

  lemma RecallRuns(c: Config, d: Device, n: nat)
    ensures Do(c, d, Recall(n)) == d.(store := Uninstall(d.store, n))
  {
    hide Uninstall, UninstallAll;
    var r := Response(Some([n]), false, None);
    assert CallBlocks(c, d, Recall(n)) == [CopyEvents] + [Rollback([n])];
    RunMore(c, d, [], CopyEvents);
    RunMore(c, d, [CopyEvents], Rollback([n]));
    DropIsRollback(d.store, n);
  }

  /** A patch is delivered and starts to boot; meanwhile the server recalls it. */
  function RecalledWhileBooting(x: Inputs, n: nat, now: nat): seq<Call> {
    [Update(x), ReportStart(now), Recall(n)]
  }

  lemma RunsRecalled(c: Config, d: Device, x: Inputs, n: nat, now: nat)
    ensures RunCalls(c, d, RecalledWhileBooting(x, n, now)) ==
      Do(c, Do(c, Do(c, d, Update(x)), ReportStart(now)), Recall(n))
  {
    hide Do, RunCalls;
    var s, t := ReportStart(now), Recall(n);
    var d1 := Do(c, d, Update(x));
    var d2 := Do(c, d1, s);
    assert RecalledWhileBooting(x, n, now) == [Update(x)] + ([s] + ([t] + []));
    RunsOn(c, d, Update(x), [s] + ([t] + []));
    RunsOn(c, d1, s, [t] + []);
    RunsOn(c, d2, t, []);
    RunsNothing(c, Do(c, d2, t));
  }

  /** One patch boots, a newer one is delivered, starts to boot and is recalled meanwhile, so
      that the first is next again; then the newer one reports success. */
  function RecalledThenSuccess(x: Inputs, y: Inputs, n: nat, now: nat): seq<Call> {
    [Update(x), ReportStart(now), ReportSuccess] + RecalledWhileBooting(y, n, now)
  }

  lemma {:induction false} RunsConcat(c: Config, d: Device, xs: seq<Call>, ys: seq<Call>)
    ensures RunCalls(c, d, xs + ys) == RunCalls(c, RunCalls(c, d, xs), ys)
    decreases |xs|
  {
    hide Do;
    if xs == [] {
      assert xs + ys == ys;
    } else {
      assert (xs + ys)[1..] == xs[1..] + ys;
      RunsConcat(c, Do(c, d, xs[0]), xs[1..], ys);
    }
  }

  lemma RunsOneBoot(c: Config, d: Device, x: Inputs, now: nat)
    ensures RunCalls(c, d, [Update(x), ReportStart(now), ReportSuccess]) ==
      Do(c, Do(c, Do(c, d, Update(x)), ReportStart(now)), ReportSuccess)
  {
    hide Do, RunCalls;
    var s, t := ReportStart(now), ReportSuccess;
    var d1 := Do(c, d, Update(x));
    var d2 := Do(c, d1, s);
    assert [Update(x), s, t] == [Update(x)] + ([s] + ([t] + []));
    RunsOn(c, d, Update(x), [s] + ([t] + []));
    RunsOn(c, d1, s, [t] + []);
    RunsOn(c, d2, t, []);
    RunsNothing(c, Do(c, d2, t));
  }

  /** One patch has booted and no other is known. */
  predicate OnlyBooted(s: Store, n: nat) {
    && s.pointers == Pointers(Some(n), Some(n), None, None) && IsInstalled(s, n)
    && forall k :: k in s.patches ==> k == n
  }

  lemma FirstBoot(c: Config, profile: Profile, o: Offer, file: seq<byte>, base: seq<byte>, bytes: seq<byte>, now: nat)
    requires Genuine(c, o, file, base, bytes)
    ensures var calls := [Update(Delivery(o, file, base)), ReportStart(now), ReportSuccess];
      OnlyBooted(RunCalls(c, Device(EMPTY, profile), calls).store, o.number)
  {
    hide Do, Genuine;
    var d0 := Device(EMPTY, profile);
    UpdateInstalls(c, d0, o, file, base, bytes);
    var d3 := BootedOn(c, Do(c, d0, Update(Delivery(o, file, base))), o.number, now);
    RunsOneBoot(c, d0, Delivery(o, file, base), now);
  }

  /** The newer patch starts to boot; recalling it makes the older one next again. */
  lemma RecallFallsBack(c: Config, d: Device, older: nat, o: Offer, file: seq<byte>, base: seq<byte>, bytes: seq<byte>,
                        now: nat)
    requires OnlyBooted(d.store, older) && older != o.number && Genuine(c, o, file, base, bytes)
    ensures var e := RunCalls(c, d, RecalledWhileBooting(Delivery(o, file, base), o.number, now));
      && e.store.pointers.next == Some(older) && e.store.pointers.booting == Some(o.number) &&
        IsInstalled(e.store, older)
  {
    hide Do, Genuine;
    var y := Delivery(o, file, base);
    UpdateInstalls(c, d, o, file, base, bytes);
    var d4 := Do(c, d, Update(y));
    LaunchRuns(c, d4, now);
    var d5 := Do(c, d4, ReportStart(now));
    RecallRuns(c, d5, o.number);
    RunsRecalled(c, d, y, o.number, now);
  }

  lemma SuccessDeletes(c: Config, d: Device, older: nat, newer: nat)
    requires older < newer && d.store.pointers.next == Some(older) && d.store.pointers.booting == Some(newer)
    requires IsInstalled(d.store, older)
    ensures var e := Do(c, d, ReportSuccess); e.store.pointers.next == Some(older) && ReadState(e.store, older) == None
  {
    LaunchRuns(c, d, 0);
  }

  /** From a fresh install, for all numbers: the first patch is next to boot and Installed, and
      the success of the recalled one deletes it. */
  lemma NextCanBeDeleted(c: Config, profile: Profile, older: Offer, newer: Offer, files: (seq<byte>, seq<byte>),
                         base: seq<byte>, bytes: (seq<byte>, seq<byte>), now: nat)
    requires older.number < newer.number
    requires Genuine(c, older, files.0, base, bytes.0) && Genuine(c, newer, files.1, base, bytes.1)
    ensures
      var calls := RecalledThenSuccess(Delivery(older, files.0, base), Delivery(newer, files.1, base), newer.number,
                                       now);
      var d := RunCalls(c, Device(EMPTY, profile), calls);
      var e := Do(c, d, ReportSuccess);
      && d.store.pointers.next == Some(older.number) && IsInstalled(d.store, older.number)
      && e.store.pointers.next == Some(older.number) && ReadState(e.store, older.number) == None
  {
    hide Do, Genuine, RunCalls, OnlyBooted;
    var x, y := Delivery(older, files.0, base), Delivery(newer, files.1, base);
    var d0 := Device(EMPTY, profile);
    var first, then_ := [Update(x), ReportStart(now), ReportSuccess], RecalledWhileBooting(y, newer.number, now);
    FirstBoot(c, profile, older, files.0, base, bytes.0, now);
    RecallFallsBack(c, RunCalls(c, d0, first), older.number, newer, files.1, base, bytes.1, now);
    RunsConcat(c, d0, first, then_);
    SuccessDeletes(c, RunCalls(c, d0, first + then_), older.number, newer.number);
  }

  /** From a fresh install, for every number: a patch is recalled while it is booting; one caller
      plans to download it anew, another reports that its boot failed, and the first goes on. The
      tombstone that the report set is lost. */
  lemma TombstoneLostInterleaved(c: Config, profile: Profile, o: Offer, file: seq<byte>, base: seq<byte>,
                                 bytes: seq<byte>,
                                 now: nat)
    requires Genuine(c, o, file, base, bytes)
    ensures var n := o.number;
      var d := RunCalls(c, Device(EMPTY, profile), RecalledWhileBooting(Delivery(o, file, base), n, now));
      var bs := [Plan, LaunchFailure(now), Start(n, o.url, o.hash, o.signature)];
      && DecideStart(d.store, n, o.url, o.hash) == Fresh
      && IsBad(RunBlocks(c, d, bs[..2]).store, n) && !IsBad(RunBlocks(c, d, bs).store, n)
  {
    hide Do, Genuine;
    var n := o.number;
    var d0 := Device(EMPTY, profile);
    UpdateInstalls(c, d0, o, file, base, bytes);
    var d1 := Do(c, d0, Update(Delivery(o, file, base)));
    LaunchRuns(c, d1, now);
    var d2 := Do(c, d1, ReportStart(now));
    RecallRuns(c, d2, n);
    RunsRecalled(c, d0, Delivery(o, file, base), n, now);
    FailsThenStarts(c, Do(c, d2, Recall(n)), o, now);
  }

  lemma FailsThenStarts(c: Config, d: Device, o: Offer, now: nat)
    requires ReadState(d.store, o.number) == None && d.store.pointers.booting == Some(o.number)
    ensures var bs := [Plan, LaunchFailure(now), Start(o.number, o.url, o.hash, o.signature)];
      IsBad(RunBlocks(c, d, bs[..2]).store, o.number) && !IsBad(RunBlocks(c, d, bs).store, o.number)
  {
    var start := Start(o.number, o.url, o.hash, o.signature);
    var bs := [Plan, LaunchFailure(now), start];
    RunMore(c, d, [], Plan);
    RunMore(c, d, [Plan], LaunchFailure(now));
    assert [Plan] + [LaunchFailure(now)] == bs[..2] && bs[..2] + [start] == bs;
    RunMore(c, d, bs[..2], start);
    var e := RunBlocks(c, d, bs[..2]);
    assert IsBad(e.store, o.number);
    StepKeepsBadExactly(c, e, start, o.number);
  }
}
