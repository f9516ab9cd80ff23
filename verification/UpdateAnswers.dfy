/** When an update gives which answer, and the state it leaves the offered patch in. */
module UpdateAnswers {
  import opened Bytes
  import opened Lifecycle
  import opened Inflate
  import opened Runs
  import opened LifecycleLaws
  import opened UpdateLaws

  /** Nothing has happened but the rollbacks, and that to every patch but those in `ns`; the queue is empty. */
  ghost predicate OnlyRolledBack(d: Device, r: Response, e: Device, ns: set<nat>) {
    && e.profile == d.profile.(queue := []) && e.store.pointers.booting == d.store.pointers.booting
    && (forall k: nat :: k !in ns ==> HoldingOf(e.store, k) == Standing(d, r, k))
    && (ns == {} ==> e == Rolled(d, r))
  }

  lemma RolledOnly(d: Device, r: Response)
    ensures OnlyRolledBack(d, r, Rolled(d, r), {})
  {
    hide UninstallAll;
    forall k: nat
      ensures HoldingOf(Rolled(d, r).store, k) == Standing(d, r, k)
    {
      RolledExactly(d, r, k);
    }
    RolledExactly(d, r, 0);
  }

  /** No offer: no update. */
  lemma NothingOffered(c: Config, d: Device, i: Inputs)
    requires !Offering(i.response)
    ensures UpdateTrace(c, d, i).answer == (if i.response.RequestFailed? then Threw(Network) else Returned(NoUpdate))
    ensures OnlyRolledBack(d, i.response, Do(c, d, Update(i)), {})
  {
    hide Rolled, OnlyRolledBack, RunBlocks;
    HeadRuns(c, d, i.response);
    RolledOnly(d, i.response);
  }

  /** A check does the rollbacks and nothing else; the queue stays. */
  lemma CheckOnlyRollsBack(c: Config, d: Device, r: Response)
    ensures var e := Do(c, d, Check(r));
      && e == Rolled(d, r).(profile := d.profile)
      && forall k: nat :: HoldingOf(e.store, k) == Standing(d, r, k)
  {
    hide UninstallAll, HoldingOf, Standing;
    RolledOnly(d, r);
    RunMore(c, d, [], CopyEvents);
    assert [CopyEvents] + [] + [] == [CopyEvents];
    var head := [CopyEvents] + RollbackStep(r);
    if r.Response? && r.rolledBack.Some? {
      RunMore(c, d, [CopyEvents], Rollback(r.rolledBack.value));
    } else {
      assert head == [CopyEvents];
    }
    RunMore(c, d, head, Plan);
    assert head + [] == head;
  }

  /** With nothing booting, an init finds nothing and a reported failure or success changes nothing. */
  lemma NothingBooting(c: Config, d: Device, call: Call)
    requires d.store.pointers.booting == None && (call.Init? || call.ReportFailure? || call.ReportSuccess?)
    ensures Do(c, d, call) == d
  {
    RunMore(c, d, [], CallBlocks(c, d, call)[0]);
    assert CallBlocks(c, d, call) == [CallBlocks(c, d, call)[0]];
  }

  /** A patch that is Bad stays Bad, rolled back or not, and the caller is told. */
  lemma BadOffered(c: Config, d: Device, i: Inputs)
    requires Offering(i.response) && IsBad(d.store, i.response.patch.value.number)
    ensures UpdateTrace(c, d, i).answer == Returned(UpdateIsBadPatch)
    ensures OnlyRolledBack(d, i.response, Do(c, d, Update(i)), {})
  {
    hide Rolled, OnlyRolledBack, Do, UpdateTrace;
    SkipRuns(c, d, i);
    RolledOnly(d, i.response);
  }

  /** One that is Installed, and not rolled back, is no update. */
  lemma InstalledOffered(c: Config, d: Device, i: Inputs)
    requires Offering(i.response) && IsInstalled(d.store, i.response.patch.value.number)
    requires !Recalled(i.response, i.response.patch.value.number)
    ensures UpdateTrace(c, d, i).answer == Returned(NoUpdate)
    ensures OnlyRolledBack(d, i.response, Do(c, d, Update(i)), {})
  {
    hide Rolled, OnlyRolledBack, Do, UpdateTrace;
    SkipRuns(c, d, i);
    RolledOnly(d, i.response);
  }

  /** The hook fails: the patch is Downloading, with whatever the hook left of its file. */
  lemma HookFails(c: Config, d: Device, i: Inputs, o: Offer)
    requires Offering(i.response) && o == i.response.patch.value && Wanted(d, i.response, o.number)
    requires !Held(d, i.response, o) && Rest(d, i, o).DownloadFailed?
    ensures UpdateTrace(c, d, i).answer == Threw(Network)
    ensures var e, was := Do(c, d, Update(i)), Standing(d, i.response, o.number);
      && HoldingOf(e.store, o.number) ==
          was.(state := Some(Downloading(o.url, o.hash, o.signature)),
               download := if Rest(d, i, o).left.Some? then Rest(d, i, o).left else was.download)
      && OnlyRolledBack(d, i.response, e, {o.number})
  {
    hide Rolled, Do, UpdateTrace, Rest, Held, Standing;
    var action := FetchRuns(c, d, i);
    RolledOnly(d, i.response);
  }

  /** The file is not as long as announced: it goes, and the patch is unknown again, not Bad. */
  lemma LengthDiffers(c: Config, d: Device, i: Inputs, o: Offer)
    requires Offering(i.response) && o == i.response.patch.value && Wanted(d, i.response, o.number)
    requires !Held(d, i.response, o) && Rest(d, i, o).DownloadDone? && !Arrives(d, i, o)
    ensures UpdateTrace(c, d, i).answer == Threw(BadServerResponse)
    ensures var e := Do(c, d, Update(i));
      HoldingOf(e.store, o.number) == NOTHING && OnlyRolledBack(d, i.response, e, {o.number})
  {
    hide Rolled, Do, UpdateTrace, Rest, Held, Standing;
    var action := FetchRuns(c, d, i);
    RolledOnly(d, i.response);
  }

  /** The update has a file to work on. */
  ghost predicate Working(d: Device, i: Inputs, o: Offer) {
    Offering(i.response) && o == i.response.patch.value && Wanted(d, i.response, o.number) && Arrives(d, i, o)
  }

  lemma FetchedOnly(d: Device, i: Inputs, o: Offer)
    requires Working(d, i, o)
    ensures OnlyRolledBack(d, i.response, Fetched(d, i, o), {o.number})
    ensures Fetched(d, i, o).store.pointers == Rolled(d, i.response).store.pointers
    ensures HoldingOf(Fetched(d, i, o).store, o.number) == Standing(d, i.response, o.number).(
      state := Some(Downloaded(o.url, o.hash, Signature(d, i, o), Size(d, i, o))),
      download := Some(File(d, i, o)))
  {
    hide Rolled, Rest, Standing;
    RolledOnly(d, i.response);
    FetchedHolds(d, i, o);
    assert HoldingOf(Rolled(d, i.response).store, o.number) == Standing(d, i.response, o.number);
  }

  /** Without the base library the file waits, Downloaded. */
  lemma NoBase(c: Config, d: Device, i: Inputs, o: Offer)
    requires Working(d, i, o) && !i.base.Opened?
    ensures UpdateTrace(c, d, i).answer == Threw(if i.base.NoProvider? then InvalidState else Io)
    ensures var e := Do(c, d, Update(i));
      && HoldingOf(e.store, o.number) == Standing(d, i.response, o.number).(
          state := Some(Downloaded(o.url, o.hash, Signature(d, i, o), Size(d, i, o))), download := Some(File(d, i, o)))
      && OnlyRolledBack(d, i.response, e, {o.number})
  {
    hide Fetched, Do, UpdateTrace, Rest, Held, Standing, Arrives, Wanted, File, Signature, Size, OnlyRolledBack;
    ArrivedRuns(c, d, i, o);
    FetchedOnly(d, i, o);
  }

  lemma RejectRuns(c: Config, d: Device, n: nat, r: Inflated, reason: BadReason)
    ensures var e := Step(c, Inflating(c, d, n, r), Reject(n, reason));
      && e.profile == d.profile && e.store.pointers.booting == d.store.pointers.booting
      && HoldingOf(e.store, n) == Holding(Some(Tombstone(d.store, n, reason)), None, None)
      && forall k: nat :: k != n ==> HoldingOf(e.store, k) == HoldingOf(d.store, k)
  {
  }

  /** What a rejected patch leaves: a tombstone with what was known of the file. */
  ghost predicate Rejected(d: Device, i: Inputs, o: Offer, e: Device, reason: BadReason)
    requires Arrives(d, i, o)
  {
    && HoldingOf(e.store, o.number) ==
        Holding(Some(Bad(reason, Some(o.hash), Signature(d, i, o), Some(Size(d, i, o)))), None, None)
    && OnlyRolledBack(d, i.response, e, {o.number})
  }

  lemma RejectedBy(c: Config, d: Device, i: Inputs, o: Offer, r: Inflated, reason: BadReason)
    requires Working(d, i, o)
    ensures Rejected(d, i, o, Step(c, Inflating(c, Fetched(d, i, o), o.number, r), Reject(o.number, reason)), reason)
  {
    hide Fetched, Rest, Held, Standing, Arrives, Wanted, File, Signature, Size, Inflating, Step;
    FetchedOnly(d, i, o);
    RejectRuns(c, Fetched(d, i, o), o.number, r, reason);
    assert ReadState(Fetched(d, i, o).store, o.number) ==
      Some(Downloaded(o.url, o.hash, Signature(d, i, o), Size(d, i, o)));
  }

  /** A file that does not inflate. */
  lemma DoesNotInflate(c: Config, d: Device, i: Inputs, o: Offer)
    requires Working(d, i, o) && i.base.Opened?
    requires forall out :: !InflatesTo(c.zstd, File(d, i, o), i.base.bytes, out)
    ensures UpdateTrace(c, d, i).answer == Threw(BadPatch)
    ensures Rejected(d, i, o, Do(c, d, Update(i)), InvalidPatchBytes)
  {
    hide Fetched, Do, UpdateTrace, Rest, Held, Arrives, Wanted, Rejected, RunBlocks, InflateResult, InflatesTo;
    ArrivedRuns(c, d, i, o);
    FetchedHolds(d, i, o);
    InflatesExactly(c.zstd, File(d, i, o), i.base.bytes);
    var r := InflateResult(c.zstd, File(d, i, o), i.base.bytes);
    InflatingRuns(c, Fetched(d, i, o), o.number, r, Reject(o.number, InvalidPatchBytes));
    RejectedBy(c, d, i, o, r, InvalidPatchBytes);
  }

  /** A file that inflates to bytes of another hash. */
  lemma HashDiffers(c: Config, d: Device, i: Inputs, o: Offer, out: seq<byte>)
    requires Working(d, i, o) && i.base.Opened?
    requires InflatesTo(c.zstd, File(d, i, o), i.base.bytes, out) && c.checks.hash(out) != o.hash
    ensures UpdateTrace(c, d, i).answer == Threw(BadPatch)
    ensures Rejected(d, i, o, Do(c, d, Update(i)), InstallHashMismatch)
  {
    hide Fetched, Do, UpdateTrace, Rest, Held, Arrives, Wanted, Rejected, RunBlocks, InflateResult, InflatesTo;
    ArrivedRuns(c, d, i, o);
    FetchedHolds(d, i, o);
    InflatesExactly(c.zstd, File(d, i, o), i.base.bytes);
    var r := InflateResult(c.zstd, File(d, i, o), i.base.bytes);
    InflatingRuns(c, Fetched(d, i, o), o.number, r, Reject(o.number, InstallHashMismatch));
    RejectedBy(c, d, i, o, r, InstallHashMismatch);
  }

  /** The patch that was next to boot is removed, unless it is the last that booted. */
  function Displaced(p: Pointers, k: nat, h: Holding): Holding {
    if p.next == Some(k) && p.last != Some(k) then Removed(h) else h
  }

  lemma InstallStep(c: Config, d: Device, n: nat, r: Inflated, size: nat)
    requires r.written.Some? && n in d.store.patches && d.store.patches[n].Downloaded?
    ensures var f := Inflating(c, d, n, r);
      var e := Step(c, f, Install(n, size));
      && InstallAndPromote(f.store, n, size).error.None?
      && e.profile == d.profile && e.store.pointers == d.store.pointers.(next := Some(n))
      && HoldingOf(e.store, n) == Holding(Some(Installed(d.store.patches[n].signature, size)), None, r.written)
      && forall k: nat :: k != n ==>
           HoldingOf(e.store, k) == Displaced(d.store.pointers, k, HoldingOf(d.store, k))
  {
    hide InstallAndPromote;
    var s := Inflating(c, d, n, r).store;
    InstallExactly(s, n, size, n);
    forall k: nat | k != n
      ensures HoldingOf(InstallAndPromote(s, n, size).store, k) ==
              Displaced(d.store.pointers, k, HoldingOf(d.store, k))
    {
      InstallExactly(s, n, size, k);
    }
  }

  /** A file that inflates to the announced bytes: they are installed, to boot next. */
  lemma Installs(c: Config, d: Device, i: Inputs, o: Offer, out: seq<byte>)
    requires Working(d, i, o) && i.base.Opened?
    requires InflatesTo(c.zstd, File(d, i, o), i.base.bytes, out) && c.checks.hash(out) == o.hash
    ensures UpdateTrace(c, d, i).answer == Returned(UpdateInstalled)
    ensures var e := Do(c, d, Update(i));
      && e.profile == d.profile.(queue := [])
      && e.store.pointers == Rolled(d, i.response).store.pointers.(next := Some(o.number))
      && HoldingOf(e.store, o.number) == Holding(Some(Installed(Signature(d, i, o), |out|)), None, Some(out))
      && forall k: nat :: k != o.number ==>
           HoldingOf(e.store, k) == Displaced(Rolled(d, i.response).store.pointers, k, Standing(d, i.response, k))
  {
    hide Fetched, Do, UpdateTrace, Rest, Held, Arrives, Wanted, Step, RunBlocks, InflateResult, InflatesTo, Inflating,
      InstallAndPromote, File;
    ArrivedRuns(c, d, i, o);
    FetchedHolds(d, i, o);
    InflatesExactly(c.zstd, File(d, i, o), i.base.bytes);
    var r := InflateResult(c.zstd, File(d, i, o), i.base.bytes);
    InflatingRuns(c, Fetched(d, i, o), o.number, r, Install(o.number, |out|));
    FetchedOnly(d, i, o);
    InstallStep(c, Fetched(d, i, o), o.number, r, |out|);
  }

  /** An update installs exactly if a wanted patch is offered, its file is held or arrives whole,
      and that inflates over the base to bytes that have the announced hash. */
  lemma InstallsExactly(c: Config, d: Device, i: Inputs)
    ensures UpdateTrace(c, d, i).answer == Returned(UpdateInstalled) <==>
      exists o, out :: Working(d, i, o) && i.base.Opened? &&
        InflatesTo(c.zstd, File(d, i, o), i.base.bytes, out) && c.checks.hash(out) == o.hash
  {
    hide UpdateTrace, Working, InflatesTo, Do, HoldingOf, OnlyRolledBack, Rejected;
    if !Offering(i.response) {
      NothingOffered(c, d, i);
      OffersOnly(d, i);
    } else {
      var o := i.response.patch.value;
      OffersOnly(d, i);
      if !Working(d, i, o) {
        NotWorking(c, d, i, o);
      } else if !i.base.Opened? {
        NoBase(c, d, i, o);
      } else if out :| InflatesTo(c.zstd, File(d, i, o), i.base.bytes, out) {
        InflatesExactly(c.zstd, File(d, i, o), i.base.bytes);
        if c.checks.hash(out) == o.hash {
          Installs(c, d, i, o, out);
        } else {
          HashDiffers(c, d, i, o, out);
        }
      } else {
        DoesNotInflate(c, d, i, o);
      }
    }
  }

  lemma OffersOnly(d: Device, i: Inputs)
    ensures forall o :: Working(d, i, o) ==> Offering(i.response) && o == i.response.patch.value && Arrives(d, i, o)
  {
  }

  lemma NotWorking(c: Config, d: Device, i: Inputs, o: Offer)
    requires Offering(i.response) && o == i.response.patch.value && !Working(d, i, o)
    ensures UpdateTrace(c, d, i).answer != Returned(UpdateInstalled)
  {
    hide UpdateTrace, Do, HoldingOf, OnlyRolledBack;
    if !Wanted(d, i.response, o.number) {
      SkipRuns(c, d, i);
    } else if Rest(d, i, o).DownloadFailed? {
      HookFails(c, d, i, o);
    } else {
      LengthDiffers(c, d, i, o);
    }
  }

  // -- From one update to the next -------------------------------------------------------------

  /** An update that had the file but not the base, and one to which the same file is offered: the
      second needs no download, whatever the hook would do, and installs the first one's file. */
  lemma FileWaits(c: Config, d: Device, i: Inputs, o: Offer, j: Inputs, o2: Offer, out: seq<byte>)
    requires Working(d, i, o) && !i.base.Opened?
    requires Offering(j.response) && o2 == j.response.patch.value && !Recalled(j.response, o.number)
    requires o2.number == o.number && o2.url == o.url && o2.hash == o.hash && j.base.Opened?
    requires InflatesTo(c.zstd, File(d, i, o), j.base.bytes, out) && c.checks.hash(out) == o.hash
    ensures var e := Do(c, d, Update(i));
      && UpdateTrace(c, e, j).answer == Returned(UpdateInstalled)
      && HoldingOf(Do(c, e, Update(j)).store, o.number) ==
          Holding(Some(Installed(Signature(d, i, o), |out|)), None, Some(out))
  {
    hide Do, UpdateTrace, InflatesTo, OnlyRolledBack, Rest, Standing, Working;
    NoBase(c, d, i, o);
    OffersOnly(d, i);
    var e := Do(c, d, Update(i));
    assert Held(e, j.response, o2);
    WorkingHeld(e, j, o2);
    Installs(c, e, j, o2, out);
  }

  lemma WorkingHeld(d: Device, i: Inputs, o: Offer)
    requires Offering(i.response) && o == i.response.patch.value && Held(d, i.response, o)
    ensures Working(d, i, o)
  {
  }

  /** Another hash under the same number and url is fetched anew, from the beginning. */
  lemma OtherHashFetched(c: Config, d: Device, i: Inputs, o: Offer, j: Inputs, o2: Offer)
    requires Working(d, i, o) && !i.base.Opened?
    requires Offering(j.response) && o2 == j.response.patch.value && !Recalled(j.response, o.number)
    requires o2.number == o.number && o2.hash != o.hash
    ensures var e := Do(c, d, Update(i));
      Wanted(e, j.response, o2.number) && !Held(e, j.response, o2) && Rest(e, j, o2) == j.download(o2.url, 0)
  {
    hide Do, UpdateTrace, OnlyRolledBack, Standing, Working;
    NoBase(c, d, i, o);
  }

  /** After a hook that failed with part of the file, the next one is asked for the rest. */
  lemma RestAskedFor(c: Config, d: Device, i: Inputs, o: Offer, j: Inputs, o2: Offer, left: seq<byte>)
    requires Offering(i.response) && o == i.response.patch.value && Wanted(d, i.response, o.number)
    requires !Held(d, i.response, o) && Rest(d, i, o) == DownloadFailed(Some(left))
    requires Offering(j.response) && o2 == j.response.patch.value && !Recalled(j.response, o.number)
    requires o2.number == o.number && o2.url == o.url && o2.hash == o.hash
    ensures var e := Do(c, d, Update(i));
      Wanted(e, j.response, o2.number) && !Held(e, j.response, o2) && Rest(e, j, o2) == j.download(o2.url, |left|)
  {
    hide Do, UpdateTrace, OnlyRolledBack, Standing, Held, Recalled;
    HookFails(c, d, i, o);
    var e := Do(c, d, Update(i));
    assert ReadState(e.store, o.number) == Some(Downloading(o.url, o.hash, o.signature));
    assert FileAt(e.store.downloads, o.number) == Some(left);
    BegunFrom(e, j, o2, left);
  }

  lemma BegunFrom(d: Device, i: Inputs, o: Offer, left: seq<byte>)
    requires Offering(i.response) && o == i.response.patch.value && !Recalled(i.response, o.number)
    requires o.number in d.store.patches && o.number in d.store.downloads && d.store.downloads[o.number] == left
    requires d.store.patches[o.number].Downloading?
    requires d.store.patches[o.number].url == o.url && d.store.patches[o.number].hash == o.hash
    ensures Wanted(d, i.response, o.number) && !Held(d, i.response, o) && Rest(d, i, o) == i.download(o.url, |left|)
  {
  }

  // -- A server that serves ranges -----------------------------------------------------------------

  /** The built-in hook with a server that has the file and serves ranges of it: the length it takes
      from the answer is the whole file's, what it counts is what was written now. */
  ghost predicate Ranges(i: Inputs, o: Offer, file: seq<byte>) {
    file != [] && forall offset: nat :: offset < |file| ==>
      i.download(o.url, offset) == DownloadDone(file, |file| - offset, Some(|file|))
  }

  /** So a resumed download is thrown away as too short, always: an update that needs the file gets
      it exactly if none of it is there already. */
  lemma ResumedIsDropped(c: Config, d: Device, i: Inputs, o: Offer, file: seq<byte>)
    requires Offering(i.response) && o == i.response.patch.value && Wanted(d, i.response, o.number)
    requires !Held(d, i.response, o) && Ranges(i, o, file)
    requires Begun(d, i.response, o) ==> |d.store.downloads[o.number]| < |file|
    ensures var begun := Begun(d, i.response, o) && d.store.downloads[o.number] != [];
      && (Arrives(d, i, o) <==> !begun)
      && (UpdateTrace(c, d, i).answer == Threw(BadServerResponse) <==> begun)
      && (begun ==> HoldingOf(Do(c, d, Update(i)).store, o.number) == NOTHING)
  {
    hide Do, UpdateTrace, OnlyRolledBack, Held, HoldingOf, Recalled;
    if Arrives(d, i, o) {
      assert Working(d, i, o);
      if !i.base.Opened? {
        NoBase(c, d, i, o);
      } else if out :| InflatesTo(c.zstd, File(d, i, o), i.base.bytes, out) {
        if c.checks.hash(out) == o.hash {
          Installs(c, d, i, o, out);
        } else {
          HashDiffers(c, d, i, o, out);
        }
      } else {
        DoesNotInflate(c, d, i, o);
      }
    } else {
      LengthDiffers(c, d, i, o);
    }
  }
}
