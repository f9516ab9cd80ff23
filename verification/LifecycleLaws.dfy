/** What the lifecycle does to each single patch: its state, its download and its artifact. */
module LifecycleLaws {
  import opened Bytes
  import opened Lifecycle
  import opened Runs

  /** All that the device holds of a patch. */
  datatype Holding = Holding(state: Option<PatchState>, download: Option<seq<byte>>, artifact: Option<seq<byte>>)

  const NOTHING := Holding(None, None, None)

  function FileAt(files: map<nat, seq<byte>>, n: nat): Option<seq<byte>> {
    if n in files then Some(files[n]) else None
  }

  function HoldingOf(s: Store, n: nat): Holding {
    Holding(ReadState(s, n), FileAt(s.downloads, n), FileAt(s.artifacts, n))
  }

  /** A removal takes all but a tombstone. */
  function Removed(h: Holding): Holding {
    Holding(if h.state.Some? && h.state.value.Bad? then h.state else None, None, None)
  }

  // -- Rollback ------------------------------------------------------------------------------------

  /** Rolling back removes the patches of the list and no other, and leaves the running boot alone. */
  lemma {:induction false} RollbackRemoves(s: Store, ns: seq<nat>, n: nat)
    ensures var t := UninstallAll(s, ns);
      && HoldingOf(t, n) == (if n in ns then Removed(HoldingOf(s, n)) else HoldingOf(s, n))
      && t.pointers.booting == s.pointers.booting && t.pointers.startedAt == s.pointers.startedAt
    decreases |ns|
  {
    if ns != [] {
      RollbackRemoves(Uninstall(s, ns[0]), ns[1..], n);
    }
  }

  predicate Usable(s: Store, n: Option<nat>) {
    n.Some? && IsInstalled(s, n.value)
  }

  /** Afterwards the last-booted patch is forgotten if it has no state; next is what it was if that
      is still Installed, else the last-booted one if that is, else none. */
  predicate Repointed(s: Store, t: Store) {
    && t.pointers.last ==
        (if s.pointers.last.Some? && ReadState(t, s.pointers.last.value) == None then None else s.pointers.last)
    && t.pointers.next ==
        (if Usable(t, s.pointers.next) then s.pointers.next
         else if Usable(t, s.pointers.last) then s.pointers.last
         else None)
  }

  lemma {:induction false} RollbackRepoints(s: Store, ns: seq<nat>)
    requires ns != []
    ensures Repointed(s, UninstallAll(s, ns))
    decreases |ns|
  {
    var u := Uninstall(s, ns[0]);
    assert UninstallAll(s, ns) == UninstallAll(u, ns[1..]);
    assert Repointed(s, u);
    if |ns| > 1 {
      hide Uninstall, UninstallAll, HoldingOf, FileAt, IsInstalled;
      RollbackRepoints(u, ns[1..]);
      var t := UninstallAll(u, ns[1..]);
      StaysGone(u, ns[1..], s.pointers.next);
      StaysGone(u, ns[1..], s.pointers.last);
    } else {
      assert UninstallAll(s, ns) == u;
    }
  }

  /** What a rollback finds unknown or not Installed stays so. */
  lemma StaysGone(s: Store, ns: seq<nat>, n: Option<nat>)
    ensures var t := UninstallAll(s, ns);
      (Usable(t, n) ==> Usable(s, n)) && (n.Some? && ReadState(s, n.value) == None ==> ReadState(t, n.value) == None)
  {
    if n.Some? {
      RollbackRemoves(s, ns, n.value);
    }
  }

  // -- Launch success ------------------------------------------------------------------------------

  /** The booting patch becomes the last-booted one and the next is what it was. Older patches are
      removed; of the others only a download that is not in flight goes. */
  lemma SuccessExactly(s: Store, n: nat, k: nat)
    requires s.pointers.booting == Some(n)
    ensures var o, h := BootSuccess(s), HoldingOf(s, k);
      && o.error == None && o.store.pointers == Pointers(s.pointers.next, Some(n), None, None)
      && HoldingOf(o.store, k) ==
          if k < n then Removed(h)
          else if h.state.Some? && (h.state.value.Downloading? || h.state.value.Downloaded?) then h
          else h.(download := None)
  {
  }

  // -- Promotion -------------------------------------------------------------------------------------

  /** An installed download has no download left; it is next to boot, and the patch that was is
      removed, unless it is the same one or the last that booted. */
  lemma InstallExactly(s: Store, n: nat, size: nat, k: nat)
    requires n in s.patches && s.patches[n].Downloaded?
    ensures var o := InstallAndPromote(s, n, size);
      && o.error == None && o.store.pointers == s.pointers.(next := Some(n))
      && HoldingOf(o.store, k) ==
          if k == n then Holding(Some(Installed(s.patches[n].signature, size)), None, FileAt(s.artifacts, n))
          else if s.pointers.next == Some(k) && s.pointers.last != Some(k) then Removed(HoldingOf(s, k))
          else HoldingOf(s, k)
  {
  }

  /** Nothing else can be installed. */
  lemma InstallsOnlyDownloaded(s: Store, n: nat, size: nat)
    ensures InstallAndPromote(s, n, size) == Outcome(s, Some(InvalidState)) <==>
      !(n in s.patches && s.patches[n].Downloaded?)
  {
  }

  // -- Launch start and downloads ----------------------------------------------------------------------

  /** Launch start records the next patch as booting, from now on, if it is Installed; else nothing changes. */
  lemma StartExactly(c: Config, d: Device, now: nat)
    ensures var p := d.store.pointers;
      Step(c, d, LaunchStart(now)) ==
      if p.next.Some? && IsInstalled(d.store, p.next.value) then
        d.(store := d.store.(pointers := Pointers(p.next, p.last, p.next, Some(now))))
      else d
  {
  }

  /** A download is complete only if it is in flight; it keeps its url, hash and signature. */
  lemma FinishExactly(s: Store, n: nat, size: nat, k: nat)
    ensures var o, h := FinishDownload(s, n, size), HoldingOf(s, n);
      var flying := h.state.Some? && (h.state.value.Downloading? || h.state.value.Downloaded?);
      && (o.error == None <==> flying) && (o.error.Some? ==> o == Outcome(s, Some(InvalidState)))
      && (flying ==> o.store.pointers == s.pointers)
      && (flying && k != n ==> HoldingOf(o.store, k) == HoldingOf(s, k))
      && (flying ==>
           HoldingOf(o.store, n) ==
             h.(state := Some(Downloaded(h.state.value.url, h.state.value.hash, h.state.value.signature, size))))
  {
  }

  // -- Tombstones --------------------------------------------------------------------------------------

  /** The tombstone says why, and what was known of the file: the announced hash and the size so far
      of a download, the size and no hash of an installed patch, what an older tombstone said. */
  lemma TombstoneSays(s: Store, n: nat, reason: BadReason, k: nat)
    ensures var t, was := HoldingOf(MarkBad(s, n, reason), k), HoldingOf(s, k);
      if k != n then t == was
      else
        && t.download == None && t.artifact == None && t.state.Some? && t.state.value.Bad?
        && t.state.value.reason == reason
        && (was.state == None ==> t.state == Some(Bad(reason, None, None, None)))
        && (was.state.Some? ==> t.state.value.signature == was.state.value.signature)
        && (was.state.Some? && InFlight(was.state.value) ==> t.state.value.badHash == Some(was.state.value.hash))
        && (was.state.Some? && was.state.value.Downloading? ==>
             t.state.value.badSize == if was.download.Some? then Some(|was.download.value|) else None)
        && (was.state.Some? && was.state.value.Downloaded? ==> t.state.value.badSize == Some(was.state.value.size))
        && (was.state.Some? && was.state.value.Installed? ==>
             t.state.value.badHash == None && t.state.value.badSize == Some(was.state.value.size))
        && (was.state.Some? && was.state.value.Bad? ==>
             t.state.value.badHash == was.state.value.badHash && t.state.value.badSize == was.state.value.badSize)
    ensures MarkBad(s, n, reason).pointers == s.pointers
  {
  }

  /** A patch that launch start has recorded and that did not boot: buried with its signature and
      size, whether the engine reports it or the next init finds it. */
  lemma FailedBootBuried(c: Config, d: Device, n: nat, at: nat, now: nat)
    requires d.store.pointers.next == Some(n) && IsInstalled(d.store, n)
    ensures var e := Step(c, d, LaunchStart(at));
      forall b :: b in {LaunchFailure(now), DetectCrash(now)} ==>
        HoldingOf(Step(c, e, b).store, n) ==
          Holding(Some(Bad(BootCrash, None, d.store.patches[n].signature, Some(d.store.patches[n].size))), None, None)
  {
  }

  // -- Validation ----------------------------------------------------------------------------------------

  /** The signature of the artifact has been checked, or need not be. */
  predicate SignatureFine(c: Checks, artifact: seq<byte>, signature: Option<string>) {
    c.mode == Strict && c.key.Some? ==>
      signature.Some? && c.signed(c.hash(artifact), signature.value, c.key.value) == Some(true)
  }

  /** Validation passes exactly if the next patch is Installed with an artifact of the recorded size
      whose signature is fine; otherwise the patch is buried, and the error tells what was wrong. */
  lemma ValidExactly(c: Checks, s: Store, n: nat)
    requires s.pointers.next == Some(n)
    ensures var o, h := Validate(c, s), HoldingOf(s, n);
      var installed := h.state.Some? && h.state.value.Installed?;
      && (o == Outcome(s, None) <==>
           installed && h.artifact.Some? && |h.artifact.value| == h.state.value.size &&
           SignatureFine(c, h.artifact.value, h.state.value.signature))
      && (o.error == Some(InvalidState) <==> !installed)
      && (o.error == Some(Io) <==> installed && h.artifact == None)
      && (o.error == Some(BadPatch) <==>
           installed && h.artifact.Some? && |h.artifact.value| != h.state.value.size)
      && (o.error == Some(BadServerResponse) <==>
           installed && h.artifact.Some? && |h.artifact.value| == h.state.value.size && c.mode == Strict &&
           c.key.Some? && h.state.value.signature.Some? &&
           c.signed(c.hash(h.artifact.value), h.state.value.signature.value, c.key.value) == None)
      && (installed && o.error.Some? ==>
           HoldingOf(o.store, n) ==
             Holding(Some(Bad(ValidationFailed, None, h.state.value.signature, Some(h.state.value.size))), None, None))
  {
  }
}
