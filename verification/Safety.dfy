/** What holds over whole runs: of atomic steps in any interleaving, and of entry
    points one after another. */
module Safety {
  import opened Bytes
  import opened Lifecycle
  import opened LifecycleJson
  import opened Text
  import opened Runs

  lemma RunOne(c: Config, d: Device, b: Block)
    ensures RunBlocks(c, d, [b]) == Step(c, d, b)
  {
    assert [b][1..] == [];
    assert RunBlocks(c, d, [b]) == RunBlocks(c, Step(c, d, b), [b][1..]);
  }

  // -- Steps in any order: the next-boot pointer never names a tombstone ---------

  predicate NextNotBad(s: Store) {
    s.pointers.next.Some? ==> !IsBad(s, s.pointers.next.value)
  }

  lemma {:induction false} UninstallAllNextNotBad(s: Store, ns: seq<nat>)
    requires NextNotBad(s)
    ensures NextNotBad(UninstallAll(s, ns))
    decreases |ns|
  {
    if ns != [] {
      UninstallAllNextNotBad(Uninstall(s, ns[0]), ns[1..]);
    }
  }

  lemma StepNextNotBad(c: Config, d: Device, b: Block)
    requires NextNotBad(d.store)
    ensures NextNotBad(Step(c, d, b).store)
  {
    match b
    case Rollback(ns) => UninstallAllNextNotBad(d.store, ns);
    case _ =>
  }

  /** However the blocks of any number of callers are interleaved, after each of
      them the next-boot pointer is none or names a patch that is not Bad. */
  lemma {:induction false} InterleavedNextNotBad(c: Config, d: Device, bs: seq<Block>, k: nat)
    requires NextNotBad(d.store) && k <= |bs|
    ensures NextNotBad(RunBlocks(c, d, bs[..k]).store)
    decreases k
  {
    if k > 0 {
      InterleavedNextNotBad(c, d, bs, k - 1);
      assert bs[..k] == bs[..k - 1] + [bs[k - 1]];
      RunBlocksConcat(c, d, bs[..k - 1], [bs[k - 1]]);
      var e := RunBlocks(c, d, bs[..k - 1]);
      RunOne(c, e, bs[k - 1]);
      StepNextNotBad(c, e, bs[k - 1]);
    }
  }

  // -- Tombstones ------------------------------------------------------------------

  /** Bad before and after, with the same hash, signature and size; only the reason may be another. */
  predicate SameStone(s: Store, t: Store, n: nat) {
    && IsBad(s, n) && IsBad(t, n)
    && t.patches[n].badHash == s.patches[n].badHash && t.patches[n].signature == s.patches[n].signature
    && t.patches[n].badSize == s.patches[n].badSize
  }

  lemma {:induction false} UninstallAllKeepsBad(s: Store, ns: seq<nat>, n: nat)
    requires IsBad(s, n)
    ensures SameStone(s, UninstallAll(s, ns), n)
    decreases |ns|
  {
    if ns != [] {
      UninstallAllKeepsBad(Uninstall(s, ns[0]), ns[1..], n);
    }
  }

  /** The one step that removes a tombstone is starting a download of that patch; no step changes
      the hash, signature or size it carries. */
  lemma StepKeepsBadExactly(c: Config, d: Device, b: Block, n: nat)
    requires IsBad(d.store, n)
    ensures IsBad(Step(c, d, b).store, n) <==> !(b.Start? && b.n == n)
    ensures IsBad(Step(c, d, b).store, n) <==> SameStone(d.store, Step(c, d, b).store, n)
  {
    match b
    case Rollback(ns) => UninstallAllKeepsBad(d.store, ns, n);
    case _ =>
  }

  predicate NoStart(bs: seq<Block>, n: nat) {
    forall i :: 0 <= i < |bs| ==> !(bs[i].Start? && bs[i].n == n)
  }

  lemma {:induction false} NoStartKeepsBad(c: Config, d: Device, bs: seq<Block>, n: nat)
    requires IsBad(d.store, n) && NoStart(bs, n)
    ensures SameStone(d.store, RunBlocks(c, d, bs).store, n)
    decreases |bs|
  {
    if bs != [] {
      StepKeepsBadExactly(c, d, bs[0], n);
      NoStartKeepsBad(c, Step(c, d, bs[0]), bs[1..], n);
    }
  }

  lemma DownloadStarts(c: Config, d: Device, o: Offer, action: DownloadAction, dl: DownloadResult, n: nat)
    requires o.number != n
    ensures NoStart(DownloadTrace(c, d, o, action, dl).0, n)
  {
    hide Step, FinishDownload, RunBlocks;
  }

  lemma InstallStarts(c: Config, d: Device, o: Offer, base: Base, n: nat)
    ensures NoStart(InstallTrace(c, d, o, base).blocks, n)
  {
    hide InstallAndPromote, RunBlocks;
  }

  lemma UpdateStartsNoBad(c: Config, d: Device, i: Inputs, n: nat)
    requires IsBad(d.store, n)
    ensures NoStart(UpdateTrace(c, d, i).blocks, n)
  {
    hide InstallTrace, DownloadTrace, RunBlocks;
    if i.response.Response? && i.response.patch.Some? {
      var o := i.response.patch.value;
      var head := [CopyEvents, ClearEvents] + RollbackStep(i.response);
      NoStartKeepsBad(c, d, head, n);
      var d1 := RunBlocks(c, d, head);
      var action := DecideStart(d1.store, o.number, o.url, o.hash);
      if o.number != n {
        DownloadStarts(c, d1, o, action, Arriving(i, o, action), n);
        InstallStarts(c, RunBlocks(c, d1, DownloadTrace(c, d1, o, action, Arriving(i, o, action)).0), o, i.base, n);
      }
    }
  }

  /** The plan skips a tombstone, so no entry point ever starts its download. */
  lemma CallStartsNoBad(c: Config, d: Device, call: Call, n: nat)
    requires IsBad(d.store, n)
    ensures NoStart(CallBlocks(c, d, call), n)
  {
    if call.Update? {
      hide InstallTrace, DownloadTrace, RunBlocks, DecideStart, IsBad;
      UpdateStartsNoBad(c, d, call.inputs, n);
    }
  }

  /** Within a release, once a patch is Bad it is Bad for good, with what its tombstone carries. */
  lemma {:induction false} TombstonesArePermanent(c: Config, d: Device, calls: seq<Call>, n: nat)
    requires IsBad(d.store, n)
    ensures SameStone(d.store, RunCalls(c, d, calls).store, n)
    decreases |calls|
  {
    if calls != [] {
      CallStartsNoBad(c, d, calls[0], n);
      NoStartKeepsBad(c, d, CallBlocks(c, d, calls[0]), n);
      TombstonesArePermanent(c, Do(c, d, calls[0]), calls[1..], n);
    }
  }

  /** After each of the steps the patch is Bad. */
  predicate BadThroughout(c: Config, d: Device, bs: seq<Block>, n: nat)
    decreases |bs|
  {
    IsBad(d.store, n) && (bs != [] ==> BadThroughout(c, Step(c, d, bs[0]), bs[1..], n))
  }

  /** However blocks are interleaved, a tombstone stays exactly as long as no download of the patch is started. */
  lemma {:induction false} BadThroughoutExactly(c: Config, d: Device, bs: seq<Block>, n: nat)
    requires IsBad(d.store, n)
    ensures BadThroughout(c, d, bs, n) <==> NoStart(bs, n)
    decreases |bs|
  {
    hide Step;
    if bs != [] {
      StepKeepsBadExactly(c, d, bs[0], n);
      var e := Step(c, d, bs[0]);
      if IsBad(e.store, n) {
        BadThroughoutExactly(c, e, bs[1..], n);
        assert bs == [bs[0]] + bs[1..];
      }
    }
  }

  // -- One caller's update among the steps of others -----------------------------------

  /** The device before the `k`th step. */
  function Before(c: Config, d: Device, bs: seq<Block>, k: nat): Device
    requires k <= |bs|
  {
    RunBlocks(c, d, bs[..k])
  }

  lemma BeforeNext(c: Config, d: Device, bs: seq<Block>, k: nat)
    requires k < |bs|
    ensures Before(c, d, bs, k + 1) == Step(c, Before(c, d, bs, k), bs[k])
  {
    assert bs[..k + 1] == bs[..k] + [bs[k]];
    RunMore(c, d, bs[..k], bs[k]);
  }

  /** The `k`th step makes the patch Bad. */
  predicate SetsBad(c: Config, d: Device, bs: seq<Block>, k: nat, n: nat) {
    k < |bs| && !IsBad(Before(c, d, bs, k).store, n) && IsBad(Before(c, d, bs, k + 1).store, n)
  }

  /** The `k`th step removes the tombstone of the patch. */
  predicate LosesBad(c: Config, d: Device, bs: seq<Block>, k: nat, n: nat) {
    k < |bs| && IsBad(Before(c, d, bs, k).store, n) && !IsBad(Before(c, d, bs, k + 1).store, n)
  }

  /** A tombstone that was not there at one point and is at a later one was set in between, for good. */
  lemma {:induction false} LastSet(c: Config, d: Device, bs: seq<Block>, i: nat, j: nat, n: nat) returns (k: nat)
    requires i <= j <= |bs| && !IsBad(Before(c, d, bs, i).store, n) && IsBad(Before(c, d, bs, j).store, n)
    ensures i <= k < j && SetsBad(c, d, bs, k, n) && NoStart(bs[k + 1..j], n)
    decreases j
  {
    hide Before, Step;
    assert i < j;
    if !IsBad(Before(c, d, bs, j - 1).store, n) {
      k := j - 1;
    } else {
      k := LastSet(c, d, bs, i, j - 1, n);
      BeforeNext(c, d, bs, j - 1);
      StepKeepsBadExactly(c, Before(c, d, bs, j - 1), bs[j - 1], n);
      assert bs[k + 1..j] == bs[k + 1..j - 1] + [bs[j - 1]];
    }
  }

  lemma {:induction false} StaysSet(c: Config, d: Device, bs: seq<Block>, i: nat, j: nat, n: nat)
    requires i <= j <= |bs| && IsBad(Before(c, d, bs, i).store, n) && NoStart(bs[i..j], n)
    ensures IsBad(Before(c, d, bs, j).store, n)
    decreases j
  {
    hide Before, Step;
    if i < j {
      assert bs[i..j - 1] == bs[i..j][..j - 1 - i];
      StaysSet(c, d, bs, i, j - 1, n);
      BeforeNext(c, d, bs, j - 1);
      assert bs[i..j][j - 1 - i] == bs[j - 1];
      StepKeepsBadExactly(c, Before(c, d, bs, j - 1), bs[j - 1], n);
    }
  }

  /** Whatever other callers do meanwhile, an update that goes on from its plan to start the
      download removes a tombstone exactly when one was set in between and not started over. */
  lemma TombstoneLostExactly(c: Config, d: Device, bs: seq<Block>, i: nat, j: nat, o: Offer)
    requires i < j < |bs| && bs[i] == Plan && bs[j] == Start(o.number, o.url, o.hash, o.signature)
    requires !DecideStart(Before(c, d, bs, i).store, o.number, o.url, o.hash).Skip?
    ensures LosesBad(c, d, bs, j, o.number) <==>
      exists k :: i < k < j && SetsBad(c, d, bs, k, o.number) && NoStart(bs[k + 1..j], o.number)
  {
    var n := o.number;
    assert !IsBad(Before(c, d, bs, i).store, n);
    BeforeNext(c, d, bs, i);
    BeforeNext(c, d, bs, j);
    hide Before, NoStart;
    if LosesBad(c, d, bs, j, n) {
      var k := LastSet(c, d, bs, i + 1, j, n);
    }
    if k :| i < k < j && SetsBad(c, d, bs, k, n) && NoStart(bs[k + 1..j], n) {
      StaysSet(c, d, bs, k + 1, j, n);
      StepKeepsBadExactly(c, Before(c, d, bs, j), bs[j], n);
    }
  }

  // -- The next-boot pointer is bootable --------------------------------------------

  predicate Bootable(s: Store) {
    s.pointers.next.Some? ==> IsInstalled(s, s.pointers.next.value)
  }

  /** What a boot success needs in order not to delete the patch to boot next. */
  predicate SuccessSafe(s: Store) {
    s.pointers.booting.Some? && s.pointers.next.Some? ==> s.pointers.next.value >= s.pointers.booting.value
  }

  lemma {:induction false} UninstallAllBootable(s: Store, ns: seq<nat>)
    requires Bootable(s)
    ensures Bootable(UninstallAll(s, ns))
    decreases |ns|
  {
    if ns != [] {
      UninstallAllBootable(Uninstall(s, ns[0]), ns[1..]);
    }
  }

  /** Steps that keep the pointer bootable: all but a boot success that is not safe
      and the start of a download of the very patch it names. */
  predicate Harmless(d: Device, b: Block) {
    && (b.LaunchSuccess? ==> SuccessSafe(d.store))
    && (b.Start? ==> d.store.pointers.next != Some(b.n))
  }

  lemma StepBootableExactly(c: Config, d: Device, b: Block)
    requires Bootable(d.store)
    ensures Bootable(Step(c, d, b).store) <==> Harmless(d, b)
  {
    match b
    case Rollback(ns) => UninstallAllBootable(d.store, ns);
    case Install(n, size) => InstallBootable(d.store, n, size);
    case LaunchSuccess => SuccessBootableExactly(d.store);
    case _ =>
  }

  lemma InstallBootable(s: Store, n: nat, size: nat)
    requires Bootable(s)
    ensures Bootable(InstallAndPromote(s, n, size).store)
  {
  }

  /** A boot success leaves the pointer bootable exactly when it was safe. */
  lemma SuccessBootableExactly(s: Store)
    requires Bootable(s)
    ensures Bootable(BootSuccess(s).store) <==> SuccessSafe(s)
  {
  }

  predicate AllHarmless(c: Config, d: Device, bs: seq<Block>)
    decreases |bs|
  {
    bs == [] || (Harmless(d, bs[0]) && AllHarmless(c, Step(c, d, bs[0]), bs[1..]))
  }

  /** After each of the steps the pointer is none or names an Installed patch. */
  predicate BootableSteps(c: Config, d: Device, bs: seq<Block>)
    decreases |bs|
  {
    Bootable(d.store) && (bs != [] ==> BootableSteps(c, Step(c, d, bs[0]), bs[1..]))
  }

  /** However the blocks of any number of callers are interleaved, the pointer stays bootable
      exactly when every boot success is safe and no download of the patch it names is started. */
  lemma {:induction false} InterleavedBootableExactly(c: Config, d: Device, bs: seq<Block>)
    requires Bootable(d.store)
    ensures BootableSteps(c, d, bs) <==> AllHarmless(c, d, bs)
    decreases |bs|
  {
    hide Step, Harmless, Bootable;
    if bs != [] {
      StepBootableExactly(c, d, bs[0]);
      if Bootable(Step(c, d, bs[0]).store) {
        InterleavedBootableExactly(c, Step(c, d, bs[0]), bs[1..]);
      }
    }
  }

  lemma {:induction false} HarmlessBootable(c: Config, d: Device, bs: seq<Block>)
    requires Bootable(d.store) && AllHarmless(c, d, bs)
    ensures Bootable(RunBlocks(c, d, bs).store)
    decreases |bs|
  {
    hide Step, Harmless, Bootable;
    if bs != [] {
      StepBootableExactly(c, d, bs[0]);
      HarmlessBootable(c, Step(c, d, bs[0]), bs[1..]);
    }
  }

  lemma {:induction false} AllHarmlessConcat(c: Config, d: Device, xs: seq<Block>, ys: seq<Block>)
    ensures AllHarmless(c, d, xs + ys) <==> AllHarmless(c, d, xs) && AllHarmless(c, RunBlocks(c, d, xs), ys)
    decreases |xs|
  {
    if xs == [] {
      assert xs + ys == ys;
    } else {
      assert (xs + ys)[1..] == xs[1..] + ys;
      AllHarmlessConcat(c, Step(c, d, xs[0]), xs[1..], ys);
    }
  }

  lemma {:induction false} QuietHarmless(c: Config, d: Device, bs: seq<Block>)
    requires forall i :: 0 <= i < |bs| ==> !bs[i].Start? && !bs[i].LaunchSuccess?
    ensures AllHarmless(c, d, bs)
    decreases |bs|
  {
    if bs != [] {
      QuietHarmless(c, Step(c, d, bs[0]), bs[1..]);
    }
  }

  lemma UpdateHarmless(c: Config, d: Device, i: Inputs)
    requires Bootable(d.store)
    ensures AllHarmless(c, d, UpdateTrace(c, d, i).blocks)
  {
    var head := [CopyEvents, ClearEvents] + RollbackStep(i.response);
    QuietHarmless(c, d, head);
    HarmlessBootable(c, d, head);
    hide InstallTrace, DownloadTrace, RunBlocks, Bootable;
    if i.response.Response? && i.response.available && i.response.patch.Some? {
      var o := i.response.patch.value;
      var d1 := RunBlocks(c, d, head);
      var action := DecideStart(d1.store, o.number, o.url, o.hash);
      AllHarmlessConcat(c, d, head, [Plan]);
      RunBlocksConcat(c, d, head, [Plan]);
      RunOne(c, d1, Plan);
      QuietHarmless(c, d1, [Plan]);
      if !action.Skip? {
        DownloadHarmless(c, d1, o, action, Arriving(i, o, action));
        var got := DownloadTrace(c, d1, o, action, Arriving(i, o, action)).0;
        AllHarmlessConcat(c, d, head + [Plan], got);
        RunBlocksConcat(c, d, head + [Plan], got);
        var d2 := RunBlocks(c, d1, got);
        var rest := InstallTrace(c, d2, o, i.base).blocks;
        InstallQuiet(c, d2, o, i.base);
        QuietHarmless(c, d2, rest);
        AllHarmlessConcat(c, d, head + [Plan] + got, rest);
      }
    }
  }

  lemma InstallQuiet(c: Config, d: Device, o: Offer, base: Base)
    ensures var bs := InstallTrace(c, d, o, base).blocks;
      forall i :: 0 <= i < |bs| ==> !bs[i].Start? && !bs[i].LaunchSuccess?
  {
    hide InstallAndPromote, RunBlocks;
  }

  lemma DownloadHarmless(c: Config, d: Device, o: Offer, action: DownloadAction, dl: DownloadResult)
    requires Bootable(d.store) && action == DecideStart(d.store, o.number, o.url, o.hash) && !action.Skip?
    ensures AllHarmless(c, d, DownloadTrace(c, d, o, action, dl).0)
  {
    var bs := DownloadTrace(c, d, o, action, dl).0;
    if bs != [] {
      assert !IsInstalled(d.store, o.number);
      QuietHarmless(c, Step(c, d, bs[0]), bs[1..]);
    }
  }

  lemma CallBootable(c: Config, d: Device, call: Call)
    requires Bootable(d.store)
    ensures Bootable(Do(c, d, call).store) <==> (call.ReportSuccess? ==> SuccessSafe(d.store))
  {
    var bs := CallBlocks(c, d, call);
    if call.ReportSuccess? {
      RunOne(c, d, LaunchSuccess);
      SuccessBootableExactly(d.store);
    } else {
      if call.Update? {
        UpdateHarmless(c, d, call.inputs);
      } else {
        QuietHarmless(c, d, bs);
      }
      HarmlessBootable(c, d, bs);
    }
  }

  /** After each of the calls the pointer is none or names an Installed patch. */
  predicate BootableThroughout(c: Config, d: Device, calls: seq<Call>)
    decreases |calls|
  {
    Bootable(d.store) && (calls != [] ==> BootableThroughout(c, Do(c, d, calls[0]), calls[1..]))
  }

  /** Each boot success comes when no patch, or one no older than the booting one, is next. */
  predicate SuccessesSafe(c: Config, d: Device, calls: seq<Call>)
    decreases |calls|
  {
    calls == [] ||
      ((calls[0].ReportSuccess? ==> SuccessSafe(d.store)) && SuccessesSafe(c, Do(c, d, calls[0]), calls[1..]))
  }

  /** Over any run of entry points the pointer stays bootable exactly when every boot success is safe. */
  lemma {:induction false} BootableExactly(c: Config, d: Device, calls: seq<Call>)
    requires Bootable(d.store)
    ensures BootableThroughout(c, d, calls) <==> SuccessesSafe(c, d, calls)
    decreases |calls|
  {
    if calls != [] {
      CallBootable(c, d, calls[0]);
      if Bootable(Do(c, d, calls[0]).store) {
        BootableExactly(c, Do(c, d, calls[0]), calls[1..]);
      }
    }
  }

  // -- Lost boots are detected -------------------------------------------------------

  /** An update, check or validation: no launch report and no new process. */
  predicate InBetween(call: Call) {
    call.Update? || call.Check? || call.ValidateBoot?
  }

  predicate KeepsBooting(b: Block) {
    !(b.DetectCrash? || b.LaunchStart? || b.LaunchFailure? || b.LaunchSuccess?)
  }

  lemma {:induction false} UninstallAllBooting(s: Store, ns: seq<nat>)
    ensures UninstallAll(s, ns).pointers.booting == s.pointers.booting
    decreases |ns|
  {
    if ns != [] {
      UninstallAllBooting(Uninstall(s, ns[0]), ns[1..]);
    }
  }

  lemma {:induction false} BlocksKeepBooting(c: Config, d: Device, bs: seq<Block>)
    requires AllKeep(bs)
    ensures RunBlocks(c, d, bs).store.pointers.booting == d.store.pointers.booting
    decreases |bs|
  {
    if bs != [] {
      if bs[0].Rollback? {
        UninstallAllBooting(d.store, bs[0].ns);
      }
      BlocksKeepBooting(c, Step(c, d, bs[0]), bs[1..]);
    }
  }

  predicate AllKeep(bs: seq<Block>) {
    forall i :: 0 <= i < |bs| ==> KeepsBooting(bs[i])
  }

  lemma DownloadKeeps(c: Config, d: Device, o: Offer, action: DownloadAction, dl: DownloadResult)
    ensures AllKeep(DownloadTrace(c, d, o, action, dl).0)
  {
    hide Step, FinishDownload, InstallAndPromote, RunBlocks;
  }

  lemma InstallKeeps(c: Config, d: Device, o: Offer, base: Base)
    ensures AllKeep(InstallTrace(c, d, o, base).blocks)
  {
    hide Step, FinishDownload, InstallAndPromote, RunBlocks;
  }

  lemma UpdateKeeps(c: Config, d: Device, i: Inputs)
    ensures AllKeep(UpdateTrace(c, d, i).blocks)
  {
    hide InstallTrace, DownloadTrace, RunBlocks, DecideStart;
    if i.response.Response? && i.response.available && i.response.patch.Some? {
      var o := i.response.patch.value;
      var d1 := RunBlocks(c, d, [CopyEvents, ClearEvents] + RollbackStep(i.response));
      var action := DecideStart(d1.store, o.number, o.url, o.hash);
      DownloadKeeps(c, d1, o, action, Arriving(i, o, action));
      InstallKeeps(c, RunBlocks(c, d1, DownloadTrace(c, d1, o, action, Arriving(i, o, action)).0), o, i.base);
    }
  }

  lemma {:induction false} CallsKeepBooting(c: Config, d: Device, calls: seq<Call>)
    requires forall i :: 0 <= i < |calls| ==> InBetween(calls[i])
    ensures RunCalls(c, d, calls).store.pointers.booting == d.store.pointers.booting
    decreases |calls|
  {
    if calls != [] {
      if calls[0].Update? {
        UpdateKeeps(c, d, calls[0].inputs);
      }
      BlocksKeepBooting(c, d, CallBlocks(c, d, calls[0]));
      CallsKeepBooting(c, Do(c, d, calls[0]), calls[1..]);
    }
  }

  predicate SameOwner(p: Profile, q: Profile) {
    q.clientId == p.clientId && q.release == p.release
  }

  lemma {:induction false} BlocksKeepOwner(c: Config, d: Device, bs: seq<Block>)
    ensures SameOwner(d.profile, RunBlocks(c, d, bs).profile)
    decreases |bs|
  {
    if bs != [] {
      BlocksKeepOwner(c, Step(c, d, bs[0]), bs[1..]);
    }
  }

  /** No call changes the client id or the release. */
  lemma {:induction false} CallsKeepOwner(c: Config, d: Device, calls: seq<Call>)
    ensures SameOwner(d.profile, RunCalls(c, d, calls).profile)
    decreases |calls|
  {
    if calls != [] {
      BlocksKeepOwner(c, d, CallBlocks(c, d, calls[0]));
      CallsKeepOwner(c, Do(c, d, calls[0]), calls[1..]);
    }
  }

  lemma DoOne(c: Config, d: Device, now: nat)
    ensures Do(c, d, ReportStart(now)) == Step(c, d, LaunchStart(now))
    ensures Do(c, d, Init(now)) == Step(c, d, DetectCrash(now))
    ensures Do(c, d, ReportFailure(now)) == Step(c, d, LaunchFailure(now))
  {
    RunOne(c, d, LaunchStart(now));
    RunOne(c, d, LaunchFailure(now));
    RunOne(c, d, DetectCrash(now));
  }

  /** What the server is told of a patch that did not boot. */
  predicate TellsFailure(c: Config, p: Profile, n: nat, now: nat, text: string, e: Event) {
    && e.kind == InstallFailure && e.patch == n && e.timestamp == now && e.message == Some(text)
    && e.clientId == p.clientId && e.release == p.release
    && e.appId == c.appId && e.arch == c.arch && e.platform == c.platform
  }

  /** One entry more in the queue, at its end; the client and the release are the same. */
  predicate QueuedOne(p: Profile, q: Profile) {
    && q.clientId == p.clientId && q.release == p.release
    && |q.queue| == |p.queue| + 1 && q.queue[..|p.queue|] == p.queue
  }

  /** From `d`, where `n` was booting, to `e`: the failure of `n` is dealt with and reported. */
  predicate Recovered(c: Config, d: Device, n: nat, now: nat, text: string, e: Device) {
    && IsBad(e.store, n) && e.store.pointers.booting == None && e.store.pointers.startedAt == None
    && e.store.pointers.next != Some(n) && n !in e.store.artifacts && n !in e.store.downloads
    && QueuedOne(d.profile, e.profile) && TellsFailure(c, d.profile, n, now, text, e.profile.queue[|d.profile.queue|])
  }

  /** As the next init reports it, and as the engine does. */
  function CrashText(n: nat, now: nat): string {
    "crash_recovery: patch " + Decimal(n) + " failed to boot (detected_at=" + Decimal(now) + ")"
  }

  function FailureText(n: nat): string {
    "engine_report: patch " + Decimal(n) + " failed to launch"
  }

  lemma FailureRecovered(c: Config, d: Device, n: nat, now: nat)
    requires d.store.pointers.booting == Some(n)
    ensures Recovered(c, d, n, now, CrashText(n, now), Step(c, d, DetectCrash(now)))
    ensures Recovered(c, d, n, now, FailureText(n), Step(c, d, LaunchFailure(now)))
  {
    hide Decimal;
  }

  lemma StartBooks(c: Config, d: Device, n: nat, at: nat)
    requires d.store.pointers.next == Some(n) && IsInstalled(d.store, n)
    ensures Step(c, d, LaunchStart(at)) ==
      d.(store := d.store.(pointers := d.store.pointers.(booting := Some(n), startedAt := Some(at))))
  {
  }

  /** The device after a launch start of the next patch and some calls in between. */
  function Started(c: Config, d: Device, at: nat, calls: seq<Call>): Device {
    RunCalls(c, Do(c, d, ReportStart(at)), calls)
  }

  lemma StillBooting(c: Config, d: Device, n: nat, at: nat, calls: seq<Call>)
    requires d.store.pointers.next == Some(n) && IsInstalled(d.store, n)
    requires forall i :: 0 <= i < |calls| ==> InBetween(calls[i])
    ensures Started(c, d, at, calls).store.pointers.booting == Some(n)
    ensures SameOwner(d.profile, Started(c, d, at, calls).profile)
  {
    DoOne(c, d, at);
    StartBooks(c, d, n, at);
    CallsKeepBooting(c, Do(c, d, ReportStart(at)), calls);
    CallsKeepOwner(c, Do(c, d, ReportStart(at)), calls);
  }

  /** If launch start recorded `n` as booting and no launch report follows, then after
      any updates, checks, rollbacks and validations the next init leaves `n` Bad,
      nothing booting, another patch or none to boot next, and the crash reported. */
  lemma LostBootDetected(c: Config, d: Device, n: nat, at: nat, calls: seq<Call>, now: nat)
    requires d.store.pointers.next == Some(n) && IsInstalled(d.store, n)
    requires forall i :: 0 <= i < |calls| ==> InBetween(calls[i])
    ensures var lost := Started(c, d, at, calls);
      Recovered(c, lost, n, now, CrashText(n, now), Do(c, lost, Init(now))) && SameOwner(d.profile, lost.profile)
  {
    hide Recovered, Step, RunCalls, Do, SameOwner;
    StillBooting(c, d, n, at, calls);
    DoOne(c, Started(c, d, at, calls), now);
    FailureRecovered(c, Started(c, d, at, calls), n, now);
  }

  /** And a failure that the engine reports leaves the same, told as what it is. */
  lemma FailureReported(c: Config, d: Device, n: nat, at: nat, calls: seq<Call>, now: nat)
    requires d.store.pointers.next == Some(n) && IsInstalled(d.store, n)
    requires forall i :: 0 <= i < |calls| ==> InBetween(calls[i])
    ensures var booting := Started(c, d, at, calls);
      && Recovered(c, booting, n, now, FailureText(n), Do(c, booting, ReportFailure(now)))
      && SameOwner(d.profile, booting.profile)
  {
    hide Recovered, Step, RunCalls, Do, SameOwner;
    StillBooting(c, d, n, at, calls);
    DoOne(c, Started(c, d, at, calls), now);
    FailureRecovered(c, Started(c, d, at, calls), n, now);
  }

  // -- Self-healing ------------------------------------------------------------------

  /** The pointer is none, or names an Installed patch that passes validation. */
  predicate Healthy(c: Checks, s: Store) {
    s.pointers.next.Some? ==> Flaw(c, s, s.pointers.next.value).None?
  }

  /** A validation returns normally exactly when the state is healthy, and then
      changes nothing; otherwise it tombstones the patch and moves the pointer off it. */
  lemma ValidateExactly(c: Checks, s: Store)
    ensures var o := Validate(c, s);
      if Healthy(c, s) then o == Outcome(s, None)
      else
        && o.error.Some? && IsBad(o.store, s.pointers.next.value)
        && (o.store.pointers.next == None ||
            (o.store.pointers.next == s.pointers.last && s.pointers.last != s.pointers.next))
  {
  }

  function Revalidate(c: Checks, s: Store, times: nat): Store {
    if times == 0 then s else Validate(c, Revalidate(c, s, times - 1)).store
  }

  /** From any persisted state, validating twice is enough; what failed on the way is tombstoned. */
  lemma SelfHealing(c: Checks, s: Store)
    ensures Healthy(c, Revalidate(c, s, 2))
    ensures forall k: nat :: k < 2 && !Healthy(c, Revalidate(c, s, k)) ==>
      IsBad(Revalidate(c, s, 2), Revalidate(c, s, k).pointers.next.value)
  {
    var s1 := Validate(c, s).store;
    var s2 := Validate(c, s1).store;
    assert Revalidate(c, s, 0) == s && Revalidate(c, s, 1) == s1 && Revalidate(c, s, 2) == s2;
    ValidateExactly(c, s);
    ValidateExactly(c, s1);
    if !Healthy(c, s) && !Healthy(c, s1) {
      SecondFailureEmpties(c, s1);
    }
  }

  lemma SecondFailureEmpties(c: Checks, s: Store)
    requires !Healthy(c, s) && s.pointers.next == s.pointers.last
    ensures Validate(c, s).store.pointers.next == None
    ensures forall n :: IsBad(s, n) ==> IsBad(Validate(c, s).store, n)
  {
  }

  /** And so for any number of further validations: they all return normally. */
  lemma {:induction false} StaysHealthy(c: Checks, s: Store, times: nat)
    requires times >= 2
    ensures Revalidate(c, s, times) == Revalidate(c, s, 2) && Validate(c, Revalidate(c, s, times)).error.None?
  {
    SelfHealing(c, s);
    ValidateExactly(c, Revalidate(c, s, 2));
    if times > 2 {
      StaysHealthy(c, s, times - 1);
    }
  }
}
