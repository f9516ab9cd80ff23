/** What one update does, answer by answer: which file gets installed, what the download hook is
    asked for, and what every failure leaves behind. */
module UpdateLaws {
  import opened Bytes
  import opened Lifecycle
  import opened Inflate
  import opened Runs
  import opened LifecycleLaws

  predicate Offering(r: Response) {
    r.Response? && r.available && r.patch.Some?
  }

  /** The answer asks for this patch to be rolled back. */
  predicate Recalled(r: Response, n: nat) {
    r.Response? && r.rolledBack.Some? && n in r.rolledBack.value
  }

  /** The offered patch may be fetched: it is not Bad, nor Installed unless recalled. */
  predicate Wanted(d: Device, r: Response, n: nat) {
    !IsBad(d.store, n) && (IsInstalled(d.store, n) ==> Recalled(r, n))
  }

  /** The whole file from the offered url for the offered hash is already there. */
  predicate Held(d: Device, r: Response, o: Offer) {
    && !Recalled(r, o.number) && o.number in d.store.downloads && o.number in d.store.patches
    && d.store.patches[o.number].Downloaded?
    && d.store.patches[o.number].url == o.url && d.store.patches[o.number].hash == o.hash
  }

  /** The beginning of it is. */
  predicate Begun(d: Device, r: Response, o: Offer) {
    && !Recalled(r, o.number) && o.number in d.store.downloads && o.number in d.store.patches
    && d.store.patches[o.number].Downloading?
    && d.store.patches[o.number].url == o.url && d.store.patches[o.number].hash == o.hash
  }

  /** What the download hook answers when it is asked for the rest of the file. */
  function Rest(d: Device, i: Inputs, o: Offer): DownloadResult {
    i.download(o.url, if Begun(d, i.response, o) then |d.store.downloads[o.number]| else 0)
  }

  /** There is a file to inflate: held, or delivered now in the length announced, if one was. */
  predicate Arrives(d: Device, i: Inputs, o: Offer) {
    Held(d, i.response, o) ||
    (Rest(d, i, o).DownloadDone? &&
     (Rest(d, i, o).contentLength.Some? ==> Rest(d, i, o).contentLength.value == Rest(d, i, o).total))
  }

  function File(d: Device, i: Inputs, o: Offer): seq<byte>
    requires Arrives(d, i, o)
  {
    if Held(d, i.response, o) then d.store.downloads[o.number] else Rest(d, i, o).file
  }

  /** The signature that came with the file, and its size. */
  function Signature(d: Device, i: Inputs, o: Offer): Option<string> {
    if Held(d, i.response, o) then d.store.patches[o.number].signature else o.signature
  }

  function Size(d: Device, i: Inputs, o: Offer): nat
    requires Arrives(d, i, o)
  {
    if Held(d, i.response, o) then d.store.patches[o.number].size else Rest(d, i, o).total
  }

  // -- Rollbacks ---------------------------------------------------------------------------------

  /** What the device holds of a patch when the offer is looked at. */
  function Standing(d: Device, r: Response, n: nat): Holding {
    if Recalled(r, n) then Removed(HoldingOf(d.store, n)) else HoldingOf(d.store, n)
  }

  /** The device once the queue is cleared and the rollbacks are done. */
  function Rolled(d: Device, r: Response): Device {
    Device(if r.Response? && r.rolledBack.Some? then UninstallAll(d.store, r.rolledBack.value) else d.store,
           d.profile.(queue := []))
  }

  lemma HeadRuns(c: Config, d: Device, r: Response)
    ensures RunBlocks(c, d, [CopyEvents, ClearEvents] + RollbackStep(r)) == Rolled(d, r)
  {
    hide UninstallAll;
    RunMore(c, d, [], CopyEvents);
    RunMore(c, d, [CopyEvents], ClearEvents);
    assert [CopyEvents] + [ClearEvents] == [CopyEvents, ClearEvents] == [CopyEvents, ClearEvents] + [];
    if r.Response? && r.rolledBack.Some? {
      RunMore(c, d, [CopyEvents, ClearEvents], Rollback(r.rolledBack.value));
    }
  }

  lemma RolledExactly(d: Device, r: Response, n: nat)
    ensures HoldingOf(Rolled(d, r).store, n) == Standing(d, r, n)
    ensures Rolled(d, r).store.pointers.booting == d.store.pointers.booting
  {
    if r.Response? && r.rolledBack.Some? {
      RollbackRemoves(d.store, r.rolledBack.value, n);
    }
  }

  // -- The stages ------------------------------------------------------------------------------------

  lemma PlanIs(d: Device, r: Response, o: Offer)
    ensures var action := DecideStart(Rolled(d, r).store, o.number, o.url, o.hash);
      && (action.Skip? <==> !Wanted(d, r, o.number)) && (action == Skip(KnownBad) <==> IsBad(d.store, o.number))
      && (action.Complete? <==> Held(d, r, o))
      && (action.Resume? <==> Begun(d, r, o)) && (action.Resume? ==> action.offset == |d.store.downloads[o.number]|)
  {
    hide Rolled;
    RolledExactly(d, r, o.number);
  }

  lemma SkipRuns(c: Config, d: Device, i: Inputs)
    requires Offering(i.response) && !Wanted(d, i.response, i.response.patch.value.number)
    ensures Do(c, d, Update(i)) == Rolled(d, i.response)
    ensures UpdateTrace(c, d, i).answer ==
      Returned(if IsBad(d.store, i.response.patch.value.number) then UpdateIsBadPatch else NoUpdate)
  {
    hide Rolled, RunBlocks;
    PlanIs(d, i.response, i.response.patch.value);
    HeadRuns(c, d, i.response);
    RunMore(c, d, [CopyEvents, ClearEvents] + RollbackStep(i.response), Plan);
  }

  lemma FetchRuns(c: Config, d: Device, i: Inputs) returns (action: DownloadAction)
    requires Offering(i.response) && Wanted(d, i.response, i.response.patch.value.number)
    ensures action.Complete? <==> Held(d, i.response, i.response.patch.value)
    ensures !action.Complete? ==>
      Arriving(i, i.response.patch.value, action) == Rest(d, i, i.response.patch.value)
    ensures
      var o := i.response.patch.value;
      var (got, stop) := DownloadOutcome(c, Rolled(d, i.response), o, action, Arriving(i, o, action));
      var t := InstallTrace(c, got, o, i.base);
      && Do(c, d, Update(i)) == (if stop.Some? then got else RunBlocks(c, got, t.blocks))
      && UpdateTrace(c, d, i).answer == (if stop.Some? then Threw(stop.value) else t.answer)
  {
    hide Rolled, RunBlocks, DownloadOutcome, DownloadTrace, InstallTrace, DecideStart;
    var o := i.response.patch.value;
    var head := [CopyEvents, ClearEvents] + RollbackStep(i.response);
    PlanIs(d, i.response, o);
    HeadRuns(c, d, i.response);
    RunMore(c, d, head, Plan);
    var d1 := Rolled(d, i.response);
    action := DecideStart(d1.store, o.number, o.url, o.hash);
    DownloadTraceRuns(c, d1, o, action, Arriving(i, o, action));
    var got := DownloadTrace(c, d1, o, action, Arriving(i, o, action)).0;
    RunBlocksConcat(c, d, head + [Plan], got);
    RunBlocksConcat(c, d, head + [Plan] + got, InstallTrace(c, RunBlocks(c, d1, got), o, i.base).blocks);
  }

  /** The device with the file in place, about to be inflated. */
  function Fetched(d: Device, i: Inputs, o: Offer): Device
    requires Arrives(d, i, o)
  {
    var e := Rolled(d, i.response);
    if Held(d, i.response, o) then e
    else
      e.(store := e.store.(
        patches := e.store.patches[o.number := Downloaded(o.url, o.hash, o.signature, Rest(d, i, o).total)],
        downloads := e.store.downloads[o.number := Rest(d, i, o).file]))
  }

  lemma FetchedHolds(d: Device, i: Inputs, o: Offer)
    requires Arrives(d, i, o) && Wanted(d, i.response, o.number)
    ensures var s := Fetched(d, i, o).store;
      && ReadState(s, o.number) == Some(Downloaded(o.url, o.hash, Signature(d, i, o), Size(d, i, o)))
      && o.number in s.downloads && s.downloads[o.number] == File(d, i, o)
  {
    hide Rolled;
    RolledExactly(d, i.response, o.number);
  }

  lemma ArrivedRuns(c: Config, d: Device, i: Inputs, o: Offer)
    requires Offering(i.response) && o == i.response.patch.value && Wanted(d, i.response, o.number) && Arrives(d, i, o)
    ensures var t := InstallTrace(c, Fetched(d, i, o), o, i.base);
      Do(c, d, Update(i)) == RunBlocks(c, Fetched(d, i, o), t.blocks) && UpdateTrace(c, d, i).answer == t.answer
  {
    hide Rolled, RunBlocks, InstallTrace, Do, UpdateTrace, Rest, Held, Begun;
    var action := FetchRuns(c, d, i);
    var n := o.number;
    var was := Rolled(d, i.response).store.patches[n := Downloading(o.url, o.hash, o.signature)];
    if !action.Complete? {
      var total := Rest(d, i, o).total;
      assert was[n := Downloaded(o.url, o.hash, o.signature, total)] ==
        Rolled(d, i.response).store.patches[n := Downloaded(o.url, o.hash, o.signature, total)];
    }
  }

  /** Defined, if the file is one that the reader can read. */
  lemma ArrivedDefined(c: Config, d: Device, i: Inputs, o: Offer)
    requires Offering(i.response) && o == i.response.patch.value && Wanted(d, i.response, o.number) && Arrives(d, i, o)
    requires i.base.Opened? ==> ShortVarints(c.zstd, File(d, i, o), i.base.bytes)
    ensures UpdateDefined(c, d, i)
  {
    hide Rolled, RunBlocks, DownloadTrace, DecideStart, ShortVarints;
    PlanIs(d, i.response, o);
    HeadRuns(c, d, i.response);
    var d1 := Rolled(d, i.response);
    var action := DecideStart(d1.store, o.number, o.url, o.hash);
    DownloadTraceRuns(c, d1, o, action, Arriving(i, o, action));
    FetchedHolds(d, i, o);
  }
}
