/** Which bytes can boot: over whole runs, every Installed patch holds bytes whose hash
    the server announced for that very patch, and every tombstone holds no files. */
module Provenance {
  import opened Bytes
  import opened Lifecycle
  import opened LifecycleJson
  import opened Runs
  import opened Safety

  /** A patch number and the hash the server announced for it. */
  type Announced = set<(nat, string)>

  predicate VouchedAt(c: Checks, s: Store, a: Announced, n: nat) {
    match ReadState(s, n)
    case Some(Installed(_, size)) =>
      n in s.artifacts && |s.artifacts[n]| == size && (n, c.hash(s.artifacts[n])) in a && n !in s.downloads
    case Some(Bad(_, _, _, _)) => n !in s.artifacts && n !in s.downloads
    case _ => true
  }

  /** Installed patches have their artifact, of the recorded size and an announced hash,
      and no download left; Bad ones have neither. */
  ghost predicate Vouched(c: Checks, s: Store, a: Announced) {
    forall n: nat :: VouchedAt(c, s, a, n)
  }

  lemma CleanupVouched(c: Checks, s: Store, ns: set<nat>, a: Announced)
    requires forall n: nat :: n !in ns ==> VouchedAt(c, s, a, n)
    requires forall n: nat :: n in ns && IsInstalled(s, n) ==> VouchedAt(c, s, a, n)
    ensures Vouched(c, CleanupAll(s, ns), a)
  {
    forall n: nat
      ensures VouchedAt(c, CleanupAll(s, ns), a, n)
    {
      assert n !in ns ==> VouchedAt(c, s, a, n);
    }
  }

  lemma PointersVouched(c: Checks, s: Store, p: Pointers, a: Announced)
    requires Vouched(c, s, a)
    ensures Vouched(c, s.(pointers := p), a)
  {
    forall n: nat
      ensures VouchedAt(c, s.(pointers := p), a, n)
    {
      assert VouchedAt(c, s, a, n);
    }
  }

  lemma RecomputeVouched(c: Checks, s: Store, a: Announced)
    requires Vouched(c, s, a)
    ensures Vouched(c, Recompute(s), a)
  {
    PointersVouched(c, s, Recompute(s).pointers, a);
  }

  lemma MarkBadVouched(c: Checks, s: Store, n: nat, reason: BadReason, a: Announced)
    requires Vouched(c, s, a)
    ensures Vouched(c, MarkBad(s, n, reason), a)
  {
    var t := Write(s, n, Tombstone(s, n, reason));
    forall k: nat | k != n
      ensures VouchedAt(c, t, a, k)
    {
      assert VouchedAt(c, s, a, k);
    }
    CleanupVouched(c, t, {n}, a);
  }

  lemma UninstallVouched(c: Checks, s: Store, n: nat, a: Announced)
    requires Vouched(c, s, a)
    ensures Vouched(c, Uninstall(s, n), a)
  {
    CleanupVouched(c, s, {n}, a);
    RecomputeVouched(c, Cleanup(s, n), a);
  }

  lemma {:induction false} UninstallAllVouched(c: Checks, s: Store, ns: seq<nat>, a: Announced)
    requires Vouched(c, s, a)
    ensures Vouched(c, UninstallAll(s, ns), a)
    decreases |ns|
  {
    if ns != [] {
      UninstallVouched(c, s, ns[0], a);
      UninstallAllVouched(c, Uninstall(s, ns[0]), ns[1..], a);
    }
  }

  lemma BootFailureVouched(c: Checks, s: Store, n: nat, a: Announced)
    requires Vouched(c, s, a)
    ensures Vouched(c, BootFailure(s, n), a)
  {
    MarkBadVouched(c, s, n, BootCrash, a);
    var t := MarkBad(s, n, BootCrash);
    var p := t.pointers.(booting := None, startedAt := None);
    PointersVouched(c, t, p, a);
    RecomputeVouched(c, t.(pointers := p), a);
  }

  lemma BootSuccessVouched(c: Checks, s: Store, a: Announced)
    requires Vouched(c, s, a)
    ensures Vouched(c, BootSuccess(s).store, a)
  {
    if s.pointers.booting.Some? {
      var n := s.pointers.booting.value;
      var t := s.(pointers := s.pointers.(last := Some(n), booting := None, startedAt := None));
      PointersVouched(c, s, t.pointers, a);
      CleanupVouched(c, t, Below(n), a);
      var u := CleanupAll(t, Below(n));
      forall k: nat
        ensures VouchedAt(c, SweepDownloads(u), a, k)
      {
        assert VouchedAt(c, u, a, k);
      }
    }
  }

  lemma ValidateVouched(c: Checks, s: Store, a: Announced)
    requires Vouched(c, s, a)
    ensures Vouched(c, Validate(c, s).store, a)
  {
    if s.pointers.next.Some? {
      var n := s.pointers.next.value;
      MarkBadVouched(c, s, n, ValidationFailed, a);
      RecomputeVouched(c, MarkBad(s, n, ValidationFailed), a);
    }
  }

  lemma PromoteVouched(c: Checks, s: Store, n: nat, a: Announced)
    requires Vouched(c, s, a)
    ensures Vouched(c, Promote(s, n).store, a)
  {
    if s.pointers.next.Some? {
      CleanupVouched(c, s, {s.pointers.next.value}, a);
      PointersVouched(c, Cleanup(s, s.pointers.next.value), Promote(s, n).store.pointers, a);
    }
    PointersVouched(c, s, Promote(s, n).store.pointers, a);
  }

  lemma InstallVouched(c: Checks, s: Store, n: nat, size: nat, a: Announced)
    requires Vouched(c, s, a)
    requires n in s.artifacts && |s.artifacts[n]| == size && (n, c.hash(s.artifacts[n])) in a
    ensures Vouched(c, InstallAndPromote(s, n, size).store, a)
  {
    var t := FinishInstall(s, n, size).store;
    forall k: nat
      ensures VouchedAt(c, t, a, k)
    {
      assert VouchedAt(c, s, a, k);
    }
    PromoteVouched(c, t, n, a);
  }

  // -- Every step an entry point takes ------------------------------------------------

  /** Files of an Installed or Bad patch are not written, and what is installed was checked. */
  predicate Checked(c: Config, s: Store, a: Announced, b: Block) {
    match b
    case WriteDownload(n, _) => !IsInstalled(s, n) && !IsBad(s, n)
    case WriteArtifact(n, _) => !IsInstalled(s, n) && !IsBad(s, n)
    case Install(n, size) => n in s.artifacts && |s.artifacts[n]| == size && (n, c.checks.hash(s.artifacts[n])) in a
    case _ => true
  }

  /** A change at one number that is neither Installed nor Bad afterwards. */
  lemma ElsewhereVouched(c: Checks, s: Store, t: Store, n: nat, a: Announced)
    requires Vouched(c, s, a) && !IsInstalled(t, n) && !IsBad(t, n)
    requires forall k: nat :: k != n ==> ReadState(t, k) == ReadState(s, k)
    requires forall k: nat :: k != n ==>
      (k in t.artifacts <==> k in s.artifacts) && (k in t.downloads <==> k in s.downloads)
    requires forall k: nat :: k != n && k in s.artifacts ==> t.artifacts[k] == s.artifacts[k]
    ensures Vouched(c, t, a)
  {
    forall k: nat
      ensures VouchedAt(c, t, a, k)
    {
      assert VouchedAt(c, s, a, k);
    }
  }

  lemma StepVouched(c: Config, d: Device, b: Block, a: Announced)
    requires Vouched(c.checks, d.store, a) && Checked(c, d.store, a, b)
    ensures Vouched(c.checks, Step(c, d, b).store, a)
  {
    hide Vouched, MarkBad, BootFailure, BootSuccess, Validate, InstallAndPromote, UninstallAll, Uninstall, Recompute,
      BootStart;
    var s := d.store;
    match b
    case Rollback(ns) => UninstallAllVouched(c.checks, s, ns, a);
    case Start(n, url, hash, sig) => ElsewhereVouched(c.checks, s, StartDownload(s, n, url, hash, sig), n, a);
    case Finish(n, size) => FinishVouched(c.checks, s, n, size, a);
    case Drop(n) => UninstallVouched(c.checks, s, n, a);
    case Reject(n, reason) =>
      MarkBadVouched(c.checks, s, n, reason, a);
      RecomputeVouched(c.checks, MarkBad(s, n, reason), a);
    case Install(n, size) => InstallVouched(c.checks, s, n, size, a);
    case DetectCrash(now) =>
      if s.pointers.booting.Some? {
        BootFailureVouched(c.checks, s, s.pointers.booting.value, a);
      }
    case LaunchStart(now) =>
      if s.pointers.next.Some? {
        StartVouched(c.checks, s, s.pointers.next.value, now, a);
      }
    case LaunchFailure(now) =>
      if s.pointers.booting.Some? {
        BootFailureVouched(c.checks, s, s.pointers.booting.value, a);
      }
    case LaunchSuccess => BootSuccessVouched(c.checks, s, a);
    case ValidateNext => ValidateVouched(c.checks, s, a);
    case WriteDownload(n, bytes) => ElsewhereVouched(c.checks, s, s.(downloads := s.downloads[n := bytes]), n, a);
    case WriteArtifact(n, bytes) => ElsewhereVouched(c.checks, s, s.(artifacts := s.artifacts[n := bytes]), n, a);
    case _ =>
  }

  lemma FinishVouched(c: Checks, s: Store, n: nat, size: nat, a: Announced)
    requires Vouched(c, s, a)
    ensures Vouched(c, FinishDownload(s, n, size).store, a)
  {
    if FinishDownload(s, n, size).error.None? {
      ElsewhereVouched(c, s, FinishDownload(s, n, size).store, n, a);
    }
  }

  lemma StartVouched(c: Checks, s: Store, n: nat, now: nat, a: Announced)
    requires Vouched(c, s, a)
    ensures Vouched(c, BootStart(s, n, now).store, a)
  {
    PointersVouched(c, s, BootStart(s, n, now).store.pointers, a);
  }

  predicate AllChecked(c: Config, d: Device, a: Announced, bs: seq<Block>)
    decreases |bs|
  {
    bs == [] || (Checked(c, d.store, a, bs[0]) && AllChecked(c, Step(c, d, bs[0]), a, bs[1..]))
  }

  lemma {:induction false} BlocksVouched(c: Config, d: Device, a: Announced, bs: seq<Block>)
    requires Vouched(c.checks, d.store, a) && AllChecked(c, d, a, bs)
    ensures Vouched(c.checks, RunBlocks(c, d, bs).store, a)
    decreases |bs|
  {
    hide Step, Vouched, Checked;
    if bs != [] {
      StepVouched(c, d, bs[0], a);
      BlocksVouched(c, Step(c, d, bs[0]), a, bs[1..]);
    }
  }

  lemma {:induction false} AllCheckedConcat(c: Config, d: Device, a: Announced, xs: seq<Block>, ys: seq<Block>)
    ensures AllChecked(c, d, a, xs + ys) <==> AllChecked(c, d, a, xs) && AllChecked(c, RunBlocks(c, d, xs), a, ys)
    decreases |xs|
  {
    hide Step, Checked;
    if xs == [] {
      assert xs + ys == ys;
    } else {
      assert (xs + ys)[1..] == xs[1..] + ys;
      AllCheckedConcat(c, Step(c, d, xs[0]), a, xs[1..], ys);
    }
  }

  lemma {:induction false} PlainChecked(c: Config, d: Device, a: Announced, bs: seq<Block>)
    requires forall i :: 0 <= i < |bs| ==> !bs[i].WriteDownload? && !bs[i].WriteArtifact? && !bs[i].Install?
    ensures AllChecked(c, d, a, bs)
    decreases |bs|
  {
    hide Step;
    if bs != [] {
      PlainChecked(c, Step(c, d, bs[0]), a, bs[1..]);
    }
  }

  predicate HasDownloaded(s: Store, n: nat) {
    n in s.patches && s.patches[n].Downloaded?
  }

  lemma DownloadChecked(c: Config, d: Device, a: Announced, o: Offer, action: DownloadAction, dl: DownloadResult)
    requires action == DecideStart(d.store, o.number, o.url, o.hash) && !action.Skip?
    ensures var (got, stop) := DownloadTrace(c, d, o, action, dl);
      && AllChecked(c, d, a, got)
      && (stop.None? ==> HasDownloaded(RunBlocks(c, d, got).store, o.number))
  {
    DownloadTraceRuns(c, d, o, action, dl);
    if !action.Complete? {
      var start: seq<Block> := [Start(o.number, o.url, o.hash, o.signature)];
      var got := DownloadTrace(c, d, o, action, dl).0;
      PlainChecked(c, d, a, start);
      var e := Step(c, d, start[0]);
      RunMore(c, d, [], start[0]);
      if |got| > 1 {
        var write := [got[1]];
        assert got == start + (write + got[2..]);
        AllCheckedConcat(c, d, a, start, write + got[2..]);
        AllCheckedConcat(c, e, a, write, got[2..]);
        assert AllChecked(c, e, a, write);
        PlainChecked(c, RunBlocks(c, e, write), a, got[2..]);
      } else {
        assert got == start;
      }
    }
  }

  lemma InstallChecked(c: Config, d: Device, a: Announced, o: Offer, base: Base)
    requires HasDownloaded(d.store, o.number) && (o.number, o.hash) in a
    ensures AllChecked(c, d, a, InstallTrace(c, d, o, base).blocks)
  {
    var bs := InstallTrace(c, d, o, base).blocks;
    if |bs| == 2 {
      var e := Step(c, d, bs[0]);
      assert Checked(c, d.store, a, bs[0]);
      assert Checked(c, e.store, a, bs[1]);
      assert bs[1..] == [bs[1]] && [bs[1]][1..] == [];
      assert AllChecked(c, Step(c, e, bs[1]), a, []);
      assert AllChecked(c, e, a, bs[1..]);
    } else {
      PlainChecked(c, d, a, bs);
    }
  }

  /** What the server announces in a call. */
  function AnnouncedIn(call: Call): Announced {
    if call.Update? && call.inputs.response.Response? && call.inputs.response.patch.Some? then
      {(call.inputs.response.patch.value.number, call.inputs.response.patch.value.hash)}
    else {}
  }

  function AnnouncedDuring(calls: seq<Call>): Announced {
    if calls == [] then {} else AnnouncedIn(calls[0]) + AnnouncedDuring(calls[1..])
  }

  lemma UpdateChecked(c: Config, d: Device, a: Announced, i: Inputs)
    requires AnnouncedIn(Update(i)) <= a
    ensures AllChecked(c, d, a, UpdateTrace(c, d, i).blocks)
  {
    hide Step, DownloadTrace, InstallTrace, DecideStart, AllChecked;
    var head := [CopyEvents, ClearEvents] + RollbackStep(i.response);
    PlainChecked(c, d, a, head);
    PlainChecked(c, d, a, head + [Plan]);
    if i.response.Response? && i.response.available && i.response.patch.Some? {
      var o := i.response.patch.value;
      var d1 := RunBlocks(c, d, head);
      PlanIdle(c, d, head);
      var action := DecideStart(d1.store, o.number, o.url, o.hash);
      if !action.Skip? {
        DownloadChecked(c, d1, a, o, action, Arriving(i, o, action));
        var got := DownloadTrace(c, d1, o, action, Arriving(i, o, action)).0;
        AllCheckedConcat(c, d, a, head + [Plan], got);
        RunBlocksConcat(c, d, head + [Plan], got);
        var d2 := RunBlocks(c, d1, got);
        if DownloadTrace(c, d1, o, action, Arriving(i, o, action)).1.None? {
          InstallChecked(c, d2, a, o, i.base);
          AllCheckedConcat(c, d, a, head + [Plan] + got, InstallTrace(c, d2, o, i.base).blocks);
        }
      }
    }
  }

  lemma PlanIdle(c: Config, d: Device, head: seq<Block>)
    ensures RunBlocks(c, d, head + [Plan]) == RunBlocks(c, d, head)
  {
    RunMore(c, d, head, Plan);
  }

  lemma CallVouched(c: Config, d: Device, a: Announced, call: Call)
    requires Vouched(c.checks, d.store, a) && AnnouncedIn(call) <= a
    ensures Vouched(c.checks, Do(c, d, call).store, a)
  {
    hide Step, Vouched, Checked, AllChecked, UpdateTrace;
    if call.Update? {
      UpdateChecked(c, d, a, call.inputs);
    } else {
      PlainChecked(c, d, a, CallBlocks(c, d, call));
    }
    BlocksVouched(c, d, a, CallBlocks(c, d, call));
  }

  lemma MoreVouched(c: Checks, s: Store, a: Announced, more: Announced)
    requires Vouched(c, s, a)
    ensures Vouched(c, s, a + more)
  {
    forall n: nat
      ensures VouchedAt(c, s, a + more, n)
    {
      assert VouchedAt(c, s, a, n);
    }
  }

  /** Over any run of entry points, an Installed patch holds its whole artifact, whose hash
      the server announced for it in this run or before; a Bad one holds no files. */
  lemma {:induction false} RunVouched(c: Config, d: Device, a: Announced, calls: seq<Call>)
    requires Vouched(c.checks, d.store, a)
    ensures Vouched(c.checks, RunCalls(c, d, calls).store, a + AnnouncedDuring(calls))
    decreases |calls|
  {
    hide Vouched, Do, AnnouncedIn;
    if calls == [] {
      assert a + AnnouncedDuring(calls) == a;
    } else {
      var b := a + AnnouncedIn(calls[0]);
      MoreVouched(c.checks, d.store, a, AnnouncedIn(calls[0]));
      CallVouched(c, d, b, calls[0]);
      RunVouched(c, Do(c, d, calls[0]), b, calls[1..]);
      assert b + AnnouncedDuring(calls[1..]) == a + AnnouncedDuring(calls);
    }
  }

  /** So where signatures are not checked, validation fails in no run from a fresh install in which every boot success
      is safe. */
  lemma ValidationNeverFails(c: Config, profile: Profile, calls: seq<Call>)
    requires c.checks.mode.InstallOnly? || c.checks.key.None?
    requires SuccessesSafe(c, Device(EMPTY, profile), calls)
    ensures var s := RunCalls(c, Device(EMPTY, profile), calls).store; Validate(c.checks, s) == Outcome(s, None)
  {
    var d := Device(EMPTY, profile);
    BootableExactly(c, d, calls);
    BootableAtEnd(c, d, calls);
    assert Vouched(c.checks, EMPTY, {});
    RunVouched(c, d, {}, calls);
    var s := RunCalls(c, d, calls).store;
    if s.pointers.next.Some? {
      assert VouchedAt(c.checks, s, {} + AnnouncedDuring(calls), s.pointers.next.value);
    }
  }

  lemma {:induction false} BootableAtEnd(c: Config, d: Device, calls: seq<Call>)
    requires BootableThroughout(c, d, calls)
    ensures Bootable(RunCalls(c, d, calls).store)
    decreases |calls|
  {
    if calls != [] {
      BootableAtEnd(c, Do(c, d, calls[0]), calls[1..]);
    }
  }
}
