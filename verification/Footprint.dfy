/** What stays on the device: when nothing but the patch to boot next and the one that
    booted last is installed, and what a server can do to keep it so. */
module Footprint {
  import opened Bytes
  import opened Lifecycle
  import opened Runs
  import opened Safety

  // -- At most two patches: exactly when --------------------------------------------

  /** Only the next and the last-booted patch are Installed. */
  ghost predicate TwoAtMost(s: Store) {
    forall k: nat :: IsInstalled(s, k) ==> Some(k) == s.pointers.next || Some(k) == s.pointers.last
  }

  /** What a boot success needs in order not to leave a patch behind: that the patch that
      booted last, if still Installed and not next, is no newer than the booting one. */
  predicate LastGoes(s: Store) {
    var p := s.pointers;
    p.booting.Some? && p.last.Some? && p.last != p.next && IsInstalled(s, p.last.value) ==>
      p.last.value <= p.booting.value
  }

  /** A boot success leaves two patches at most exactly then. */
  lemma SuccessTwoExactly(s: Store)
    requires TwoAtMost(s)
    ensures TwoAtMost(BootSuccess(s).store) <==> LastGoes(s)
  {
    if s.pointers.booting.Some? {
      var n, t := s.pointers.booting.value, BootSuccess(s).store;
      assert forall k: nat :: IsInstalled(t, k) <==> IsInstalled(s, k) && n <= k;
      if !LastGoes(s) {
        assert IsInstalled(t, s.pointers.last.value);
      }
    }
  }

  /** `t` has no more Installed patches than `s`, and the same next and last pointers. */
  ghost predicate NoMore(s: Store, t: Store) {
    && t.pointers.next == s.pointers.next && t.pointers.last == s.pointers.last
    && forall k: nat :: IsInstalled(t, k) ==> IsInstalled(s, k)
  }

  lemma RecomputeTwo(s: Store, t: Store)
    requires TwoAtMost(s) && NoMore(s, t)
    ensures TwoAtMost(Recompute(t))
  {
  }

  lemma {:induction false} UninstallAllTwo(s: Store, ns: seq<nat>)
    requires TwoAtMost(s)
    ensures TwoAtMost(UninstallAll(s, ns))
    decreases |ns|
  {
    hide TwoAtMost, Recompute;
    if ns != [] {
      RecomputeTwo(s, Cleanup(s, ns[0]));
      UninstallAllTwo(Uninstall(s, ns[0]), ns[1..]);
    }
  }

  lemma BootFailureTwo(s: Store, n: nat)
    requires TwoAtMost(s)
    ensures TwoAtMost(BootFailure(s, n))
  {
    var t := MarkBad(s, n, BootCrash);
    RecomputeTwo(s, t.(pointers := t.pointers.(booting := None, startedAt := None)));
  }

  lemma InstallTwo(s: Store, n: nat, size: nat)
    requires TwoAtMost(s)
    ensures TwoAtMost(InstallAndPromote(s, n, size).store)
  {
    var t, u := FinishInstall(s, n, size).store, InstallAndPromote(s, n, size).store;
    forall k: nat | IsInstalled(u, k)
      ensures Some(k) == u.pointers.next || Some(k) == u.pointers.last
    {
      assert IsInstalled(t, k);
      assert k != n ==> IsInstalled(s, k);
    }
  }

  /** Every other step does, whatever it installs. */
  lemma StepTwoExactly(c: Config, d: Device, b: Block)
    requires TwoAtMost(d.store)
    ensures TwoAtMost(Step(c, d, b).store) <==> (b.LaunchSuccess? ==> LastGoes(d.store))
  {
    var s := d.store;
    match b
    case Rollback(ns) => UninstallAllTwo(s, ns);
    case Drop(n) => RecomputeTwo(s, Cleanup(s, n));
    case Reject(n, reason) => RecomputeTwo(s, MarkBad(s, n, reason));
    case Install(n, size) => InstallTwo(s, n, size);
    case DetectCrash(now) =>
      if s.pointers.booting.Some? {
        BootFailureTwo(s, s.pointers.booting.value);
      }
    case LaunchFailure(now) =>
      if s.pointers.booting.Some? {
        BootFailureTwo(s, s.pointers.booting.value);
      }
    case LaunchSuccess => SuccessTwoExactly(s);
    case ValidateNext =>
      if s.pointers.next.Some? {
        RecomputeTwo(s, MarkBad(s, s.pointers.next.value, ValidationFailed));
      }
    case _ =>
  }

  /** After each of the steps at most two patches are Installed. */
  ghost predicate TwoThroughout(c: Config, d: Device, bs: seq<Block>)
    decreases |bs|
  {
    TwoAtMost(d.store) && (bs != [] ==> TwoThroughout(c, Step(c, d, bs[0]), bs[1..]))
  }

  /** The last-booted patch goes at every boot success. */
  predicate LastsGo(c: Config, d: Device, bs: seq<Block>)
    decreases |bs|
  {
    bs == [] || ((bs[0].LaunchSuccess? ==> LastGoes(d.store)) && LastsGo(c, Step(c, d, bs[0]), bs[1..]))
  }

  /** However the blocks of any number of callers are interleaved, at most two patches are
      Installed throughout exactly when the last-booted patch goes at every boot success. */
  lemma {:induction false} FootprintExactly(c: Config, d: Device, bs: seq<Block>)
    requires TwoAtMost(d.store)
    ensures TwoThroughout(c, d, bs) <==> LastsGo(c, d, bs)
    decreases |bs|
  {
    hide TwoAtMost, LastGoes, Step;
    if bs != [] {
      StepTwoExactly(c, d, bs[0]);
      if TwoAtMost(Step(c, d, bs[0]).store) {
        FootprintExactly(c, Step(c, d, bs[0]), bs[1..]);
      }
    }
  }

  // -- A server that keeps it so ------------------------------------------------------

  /** Neither the next patch, if Installed, nor the booting one is older than the last-booted. */
  predicate Ordered(s: Store) {
    var p := s.pointers;
    && (p.next.Some? && p.last.Some? && IsInstalled(s, p.next.value) ==> p.last.value <= p.next.value)
    && (p.booting.Some? && p.last.Some? ==> p.last.value <= p.booting.value)
  }

  /** No patch newer than `m` has booted last. */
  predicate BootedUpTo(s: Store, m: nat) {
    s.pointers.last.Some? ==> s.pointers.last.value <= m
  }

  /** Two patches at most, and in order, so that the last-booted goes at the next boot success. */
  ghost predicate Tidy(s: Store) {
    TwoAtMost(s) && Ordered(s)
  }

  lemma TidyLastGoes(s: Store)
    requires Tidy(s)
    ensures TwoAtMost(s) && LastGoes(s)
  {
  }

  /** The last-booted pointer stays or is forgotten, and order is kept. */
  ghost predicate KeepsOrder(s: Store, t: Store) {
    Ordered(t) && forall m: nat :: BootedUpTo(s, m) ==> BootedUpTo(t, m)
  }

  lemma RecomputeOrdered(s: Store, t: Store)
    requires Ordered(s) && NoMore(s, t) && t.pointers.booting in {s.pointers.booting, None}
    ensures KeepsOrder(s, Recompute(t))
  {
  }

  lemma {:induction false} UninstallAllOrdered(s: Store, ns: seq<nat>)
    requires Ordered(s)
    ensures KeepsOrder(s, UninstallAll(s, ns))
    decreases |ns|
  {
    hide Ordered, Recompute, BootedUpTo;
    if ns != [] {
      RecomputeOrdered(s, Cleanup(s, ns[0]));
      UninstallAllOrdered(Uninstall(s, ns[0]), ns[1..]);
    }
  }

  lemma BootFailureOrdered(s: Store, n: nat)
    requires Ordered(s)
    ensures KeepsOrder(s, BootFailure(s, n))
  {
    var t := MarkBad(s, n, BootCrash);
    RecomputeOrdered(s, t.(pointers := t.pointers.(booting := None, startedAt := None)));
  }

  lemma InstallOrdered(s: Store, n: nat, size: nat)
    requires Ordered(s) && BootedUpTo(s, n)
    ensures KeepsOrder(s, InstallAndPromote(s, n, size).store)
  {
    var o := FinishInstall(s, n, size);
    assert o.store.pointers == s.pointers;
    if o.error.None? {
      hide FinishInstall;
      assert Promote(o.store, n).store.pointers.last == s.pointers.last;
    }
  }

  lemma BootSuccessOrdered(s: Store)
    requires Ordered(s)
    ensures Ordered(BootSuccess(s).store)
  {
    if s.pointers.booting.Some? {
      var n, t := s.pointers.booting.value, BootSuccess(s).store;
      assert forall k: nat :: IsInstalled(t, k) ==> n <= k;
    }
  }

  lemma ValidateOrdered(c: Checks, s: Store)
    requires Ordered(s)
    ensures KeepsOrder(s, Validate(c, s).store)
  {
    if s.pointers.next.Some? {
      var t := MarkBad(s, s.pointers.next.value, ValidationFailed);
      RecomputeOrdered(s, t);
    }
  }

  lemma MarkBadShrinks(s: Store, n: nat, reason: BadReason)
    ensures NoMore(s, MarkBad(s, n, reason)) && MarkBad(s, n, reason).pointers == s.pointers
  {
  }

  lemma PlainOrdered(c: Config, d: Device, b: Block)
    requires Ordered(d.store)
    requires b.CopyEvents? || b.ClearEvents? || b.Plan? || b.Start? || b.Finish? || b.LaunchStart? ||
      b.WriteDownload? || b.WriteArtifact?
    ensures KeepsOrder(d.store, Step(c, d, b).store)
  {
  }

  /** A step keeps order if it installs nothing older than what booted last. */
  lemma StepOrdered(c: Config, d: Device, b: Block, m: nat)
    requires Ordered(d.store) && BootedUpTo(d.store, m) && (b.Install? ==> b.n == m)
    ensures Ordered(Step(c, d, b).store) && (!b.LaunchSuccess? ==> BootedUpTo(Step(c, d, b).store, m))
  {
    hide Ordered, BootedUpTo, MarkBad, Recompute, Cleanup, UninstallAll, BootFailure, BootSuccess, Validate,
      InstallAndPromote, NoMore, StartDownload, FinishDownload, BootStart, DecideStart;
    var s := d.store;
    match b
    case Rollback(ns) => UninstallAllOrdered(s, ns);
    case Drop(n) => UninstallAllOrdered(s, [n]); DropIsRollback(s, n);
    case Reject(n, reason) => MarkBadShrinks(s, n, reason); RecomputeOrdered(s, MarkBad(s, n, reason));
    case Install(n, size) => InstallOrdered(s, n, size);
    case DetectCrash(now) =>
      if s.pointers.booting.Some? {
        BootFailureOrdered(s, s.pointers.booting.value);
      }
    case LaunchFailure(now) =>
      if s.pointers.booting.Some? {
        BootFailureOrdered(s, s.pointers.booting.value);
      }
    case LaunchSuccess => BootSuccessOrdered(s);
    case ValidateNext => ValidateOrdered(c.checks, s);
    case _ => PlainOrdered(c, d, b);
  }

  lemma DropIsRollback(s: Store, n: nat)
    ensures UninstallAll(s, [n]) == Uninstall(s, n)
  {
    assert [n][1..] == [];
    assert UninstallAll(Uninstall(s, n), [n][1..]) == Uninstall(s, n);
  }

  lemma StepTidy(c: Config, d: Device, b: Block, m: nat)
    requires Tidy(d.store) && BootedUpTo(d.store, m) && (b.Install? ==> b.n == m)
    ensures Tidy(Step(c, d, b).store) && (!b.LaunchSuccess? ==> BootedUpTo(Step(c, d, b).store, m))
  {
    TidyLastGoes(d.store);
    StepTwoExactly(c, d, b);
    StepOrdered(c, d, b, m);
  }

  /** Steps of a call other than a boot success, which install only `m`. */
  predicate InstallsOnly(bs: seq<Block>, m: nat) {
    forall i :: 0 <= i < |bs| ==> !bs[i].LaunchSuccess? && (bs[i].Install? ==> bs[i].n == m)
  }

  lemma {:induction false} BlocksTidy(c: Config, d: Device, bs: seq<Block>, m: nat)
    requires Tidy(d.store) && BootedUpTo(d.store, m) && InstallsOnly(bs, m)
    ensures Tidy(RunBlocks(c, d, bs).store)
    decreases |bs|
  {
    hide Tidy, BootedUpTo, Step;
    if bs != [] {
      StepTidy(c, d, bs[0], m);
      BlocksTidy(c, Step(c, d, bs[0]), bs[1..], m);
    }
  }

  lemma DownloadInstallsOnly(c: Config, d: Device, o: Offer, action: DownloadAction, dl: DownloadResult, m: nat)
    ensures InstallsOnly(DownloadTrace(c, d, o, action, dl).0, m)
  {
  }

  lemma InstallInstallsOnly(c: Config, d: Device, o: Offer, base: Base)
    ensures InstallsOnly(InstallTrace(c, d, o, base).blocks, o.number)
  {
  }

  lemma UpdateInstallsOnly(c: Config, d: Device, i: Inputs, m: nat)
    requires i.response.Response? && i.response.patch.Some? ==> i.response.patch.value.number == m
    ensures InstallsOnly(UpdateTrace(c, d, i).blocks, m)
  {
    hide DownloadTrace, InstallTrace, RunBlocks, DecideStart;
    if i.response.Response? && i.response.available && i.response.patch.Some? {
      var o := i.response.patch.value;
      var d1 := RunBlocks(c, d, [CopyEvents, ClearEvents] + RollbackStep(i.response));
      var action := DecideStart(d1.store, o.number, o.url, o.hash);
      DownloadInstallsOnly(c, d1, o, action, Arriving(i, o, action), m);
      InstallInstallsOnly(c, RunBlocks(c, d1, DownloadTrace(c, d1, o, action, Arriving(i, o, action)).0), o, i.base);
    }
  }

  /** The call offers no patch older than the one that booted last. */
  predicate OffersNotOlder(d: Device, call: Call) {
    call.Update? && call.inputs.response.Response? && call.inputs.response.patch.Some? ==>
      BootedUpTo(d.store, call.inputs.response.patch.value.number)
  }

  lemma CallTidy(c: Config, d: Device, call: Call)
    requires Tidy(d.store) && OffersNotOlder(d, call)
    ensures Tidy(Do(c, d, call).store)
  {
    hide Tidy, Step, UpdateTrace;
    if call.ReportSuccess? {
      RunOne(c, d, LaunchSuccess);
      StepTidy(c, d, LaunchSuccess, LastOr(d.store, 0));
    } else {
      var m := if call.Update? && call.inputs.response.Response? && call.inputs.response.patch.Some?
               then call.inputs.response.patch.value.number else LastOr(d.store, 0);
      if call.Update? {
        UpdateInstallsOnly(c, d, call.inputs, m);
      }
      BlocksTidy(c, d, CallBlocks(c, d, call), m);
    }
  }

  function LastOr(s: Store, n: nat): (m: nat)
    ensures BootedUpTo(s, m)
  {
    if s.pointers.last.Some? then s.pointers.last.value else n
  }

  predicate NeverOlder(c: Config, d: Device, calls: seq<Call>)
    decreases |calls|
  {
    calls == [] || (OffersNotOlder(d, calls[0]) && NeverOlder(c, Do(c, d, calls[0]), calls[1..]))
  }

  /** Over any run of entry points in which no offer is older than what booted last,
      nothing but the next and the last-booted patch is Installed. */
  lemma {:induction false} RunTidy(c: Config, d: Device, calls: seq<Call>)
    requires Tidy(d.store) && NeverOlder(c, d, calls)
    ensures Tidy(RunCalls(c, d, calls).store)
    decreases |calls|
  {
    hide Tidy, Do, OffersNotOlder;
    if calls != [] {
      CallTidy(c, d, calls[0]);
      RunTidy(c, Do(c, d, calls[0]), calls[1..]);
    }
  }
}
