/** The top-level state object and the updater's entry points. Every block of an
    entry point reloads the state from disk, as `with_state` does; the methods are
    proved to take exactly the steps that `Runs` lists for them. */
module Updater {
  import opened Bytes
  import opened Lifecycle
  import opened LifecycleJson
  import opened DiskLifecycle
  import opened ReadSeek
  import opened Inflate
  import opened Runs
  import opened Text

  /** The state a load finds: what is on disk if state.json is readable and of this
      release, else a fresh state, keeping the client id if there is one. */
  ghost function Loaded(disk: Disk, release: string, freshId: string): Device
    reads disk
  {
    var p := if disk.profileFile.Some? then ProfileFromJson(disk.profileFile.value) else None;
    if p.None? then Device(EMPTY, Profile(freshId, release, []))
    else if p.value.release != release then Device(EMPTY, Profile(p.value.clientId, release, []))
    else Device(Store(Readable(disk.stateFiles), disk.artifacts, disk.downloads, LoadPointers(disk.pointersFile)),
                p.value)
  }

  ghost predicate Ready(disk: Disk, release: string)
    reads disk
  {
    && disk.profileFile.Some?
    && ProfileFromJson(disk.profileFile.value).Some? && ProfileFromJson(disk.profileFile.value).value.release == release
  }

  class UpdaterState {
    const lifecycle: PatchLifecycle
    const clientId: string
    const release: string
    var queue: seq<Event>

    ghost function View(): Device
      reads this, lifecycle, lifecycle.disk
    {
      Device(lifecycle.View(), Profile(clientId, release, queue))
    }

    /** Memory and disk agree: a reload would give this very state. */
    ghost predicate Valid()
      reads this, lifecycle, lifecycle.disk
    {
      lifecycle.Synced() && Ready(lifecycle.disk, release) && View() == Loaded(lifecycle.disk, release, clientId)
    }

    constructor (lifecycle: PatchLifecycle, clientId: string, release: string, queue: seq<Event>)
      ensures this.lifecycle == lifecycle && this.clientId == clientId && this.release == release && this.queue == queue
    {
      this.lifecycle, this.clientId, this.release, this.queue := lifecycle, clientId, release, queue;
    }

    method Save()
      requires lifecycle.Synced()
      modifies lifecycle.disk`profileFile
      ensures Valid() && View() == old(View())
    {
      ProfileRoundTrip(Profile(clientId, release, queue));
      lifecycle.disk.profileFile := Some(ProfileToJson(Profile(clientId, release, queue)));
    }

    method QueueEvent(e: Event)
      requires Valid()
      modifies this, lifecycle.disk
      ensures Valid() && View() == old(View()).(profile := old(View()).profile.(queue := old(queue) + [e]))
    {
      queue := queue + [e];
      Save();
    }

    method CopyEvents(limit: nat) returns (out: seq<Event>)
      ensures out == queue[..Min(limit, |queue|)]
    {
      var n := Min(limit, |queue|);
      out := [];
      for i := 0 to n
        invariant out == queue[..i]
      {
        out := out + [queue[i]];
      }
    }

    method ClearEvents()
      requires Valid()
      modifies this, lifecycle.disk
      ensures Valid() && View() == old(View()).(profile := old(View()).profile.(queue := []))
    {
      queue := [];
      Save();
    }

    method UninstallPatch(n: nat)
      requires Valid()
      modifies lifecycle, lifecycle.disk
      ensures Valid() && View() == old(View()).(store := Uninstall(old(View()).store, n))
    {
      lifecycle.Cleanup(n);
      lifecycle.RecomputeNextBoot();
    }
  }

  /** Wipes what belongs to the release and writes a new state.json. */
  method BuildFresh(disk: Disk, release: string, clientId: string) returns (s: UpdaterState)
    modifies disk
    ensures fresh(s) && fresh(s.lifecycle) && s.lifecycle.disk == disk && s.release == release
    ensures s.Valid() && s.View() == Device(EMPTY, Profile(clientId, release, []))
  {
    disk.stateFiles, disk.artifacts, disk.downloads, disk.pointersFile := map[], map[], map[], None;
    var lifecycle := new PatchLifecycle.LoadOrDefault(disk);
    s := new UpdaterState(lifecycle, clientId, release, []);
    s.Save();
  }

  /** A reload of a state that is on disk returns it and changes nothing. */
  method LoadOrNewOnError(disk: Disk, release: string, freshId: string) returns (s: UpdaterState)
    modifies disk
    ensures fresh(s) && fresh(s.lifecycle) && s.lifecycle.disk == disk && s.release == release
    ensures s.Valid() && s.View() == old(Loaded(disk, release, freshId)) == Loaded(disk, release, freshId)
    ensures old(Ready(disk, release)) ==> unchanged(disk)
  {
    if disk.profileFile.None? {
      s := BuildFresh(disk, release, freshId);
      return;
    }
    var p := ProfileFromJson(disk.profileFile.value);
    if p.None? {
      s := BuildFresh(disk, release, freshId);
      return;
    }
    if p.value.release != release {
      s := BuildFresh(disk, release, p.value.clientId);
      return;
    }
    var lifecycle := new PatchLifecycle.LoadOrDefault(disk);
    s := new UpdaterState(lifecycle, p.value.clientId, release, p.value.queue);
  }

  /** Reloading between two operations, as every block does, changes nothing: the state
      loaded is the one in memory, whatever client id a fresh one would get. */
  method Reload(s: UpdaterState, freshId: string) returns (t: UpdaterState)
    requires s.Valid()
    modifies s.lifecycle.disk
    ensures unchanged(s.lifecycle.disk) && s.Valid()
    ensures fresh(t) && t.lifecycle.disk == s.lifecycle.disk && t.Valid() && t.View() == s.View() == old(s.View())
  {
    t := LoadOrNewOnError(s.lifecycle.disk, s.release, freshId);
  }

  /** The client id on disk, if state.json is readable. */
  ghost function ClientOnDisk(disk: Disk): Option<string>
    reads disk
  {
    if disk.profileFile.None? then None
    else
      var p := ProfileFromJson(disk.profileFile.value);
      if p.None? then None else Some(p.value.clientId)
  }

  /** Starting one release after another: every one of them has the client id that was on disk, or
      the first new one if there was none, however often the release changes; and the first start of
      a release finds nothing of another one. */
  method StartReleases(disk: Disk, releases: seq<string>, freshIds: seq<string>) returns (ids: seq<string>)
    requires releases != [] && |freshIds| == |releases|
    modifies disk
    ensures |ids| == |releases|
    ensures var id := if old(ClientOnDisk(disk)).Some? then old(ClientOnDisk(disk)).value else freshIds[0];
      (forall i :: 0 <= i < |ids| ==> ids[i] == id) && ClientOnDisk(disk) == Some(id)
    ensures |releases| > 1 && releases[|releases| - 1] != releases[|releases| - 2] ==>
      Loaded(disk, releases[|releases| - 1], ids[0]) == Device(EMPTY, Profile(ids[0], releases[|releases| - 1], []))
  {
    ghost var id := if ClientOnDisk(disk).Some? then ClientOnDisk(disk).value else freshIds[0];
    ids := [];
    for i := 0 to |releases|
      invariant |ids| == i && forall k :: 0 <= k < i ==> ids[k] == id
      invariant i == 0 ==> ClientOnDisk(disk) == old(ClientOnDisk(disk))
      invariant i > 0 ==> ClientOnDisk(disk) == Some(id) && Ready(disk, releases[i - 1])
      invariant i > 1 && releases[i - 1] != releases[i - 2] ==>
        Loaded(disk, releases[i - 1], id) == Device(EMPTY, Profile(id, releases[i - 1], []))
    {
      var s := LoadOrNewOnError(disk, releases[i], freshIds[i]);
      ids := ids + [s.clientId];
    }
  }

  class Updater {
    const disk: Disk
    const release: string
    const config: Config
    var running: Option<nat>

    /** The device as the next block will load it. */
    ghost function Current(freshId: string): Device
      reads this, disk
    {
      Loaded(disk, release, freshId)
    }

    constructor (disk: Disk, release: string, config: Config)
      ensures this.disk == disk && this.release == release && this.config == config && running == None
    {
      this.disk, this.release, this.config, running := disk, release, config, None;
    }

    method RollBackPatches(ns: seq<nat>, freshId: string)
      modifies disk
      ensures Current(freshId) == Step(config, old(Current(freshId)), Rollback(ns))
    {
      var state := LoadOrNewOnError(disk, release, freshId);
      ghost var d := state.View();
      for i := 0 to |ns|
        invariant state.Valid() && state.lifecycle.disk == disk && state.release == release && fresh(state) &&
          fresh(state.lifecycle)
        invariant state.View().profile == d.profile
        invariant UninstallAll(state.View().store, ns[i..]) == UninstallAll(d.store, ns)
      {
        assert ns[i..][1..] == ns[i + 1..];
        state.UninstallPatch(ns[i]);
      }
      assert ns[|ns|..] == [];
    }

    // -- The blocks of an update -----------------------------------------------------

    method DrainEvents(freshId: string) returns (events: seq<Event>)
      modifies disk
      ensures Current(freshId) == Step(config, old(Current(freshId)), CopyEvents)
      ensures var queue := old(Current(freshId)).profile.queue; events == queue[..Min(3, |queue|)]
    {
      var state := LoadOrNewOnError(disk, release, freshId);
      events := state.CopyEvents(3);
    }

    method ClearQueue(freshId: string) returns (current: Option<nat>)
      modifies disk
      ensures Current(freshId) == Step(config, old(Current(freshId)), ClearEvents)
      ensures current == old(Current(freshId)).store.pointers.booting
    {
      var state := LoadOrNewOnError(disk, release, freshId);
      state.ClearEvents();
      current := state.lifecycle.pointers.booting;
    }

    method PlanDownload(o: Offer, freshId: string) returns (action: DownloadAction)
      modifies disk
      ensures Ready(disk, release)
      ensures Current(freshId) == Step(config, old(Current(freshId)), Plan)
      ensures var s := old(Current(freshId)).store;
        action == DecideStart(s, o.number, o.url, o.hash) &&
        (action.Skip? <==> IsBad(s, o.number) || IsInstalled(s, o.number))
    {
      var state := LoadOrNewOnError(disk, release, freshId);
      action := state.lifecycle.DecideStart(o.number, o.url, o.hash);
    }

    method RecordStarted(o: Offer, freshId: string)
      modifies disk
      ensures Ready(disk, release)
      ensures Current(freshId) == Step(config, old(Current(freshId)), Start(o.number, o.url, o.hash, o.signature))
    {
      var state := LoadOrNewOnError(disk, release, freshId);
      state.lifecycle.RecordDownloadStarted(o.number, o.url, o.hash, o.signature);
    }

    method RecordComplete(n: nat, size: nat, freshId: string) returns (error: Option<ErrorKind>)
      modifies disk
      ensures Ready(disk, release)
      ensures Current(freshId) == Step(config, old(Current(freshId)), Finish(n, size))
      ensures error == FinishDownload(old(Current(freshId)).store, n, size).error
    {
      var state := LoadOrNewOnError(disk, release, freshId);
      error := state.lifecycle.RecordDownloadComplete(n, size);
    }

    method DropDownload(n: nat, freshId: string)
      modifies disk
      ensures Ready(disk, release)
      ensures Current(freshId) == Step(config, old(Current(freshId)), Drop(n))
    {
      var state := LoadOrNewOnError(disk, release, freshId);
      state.UninstallPatch(n);
    }

    method RejectPatch(n: nat, reason: BadReason, freshId: string)
      modifies disk
      ensures Current(freshId) == Step(config, old(Current(freshId)), Reject(n, reason))
    {
      hide Recompute, MarkBad, ProfileFromJson, LoadPointers, Readable;
      var state := LoadOrNewOnError(disk, release, freshId);
      state.lifecycle.MarkBad(n, reason);
      state.lifecycle.RecomputeNextBoot();
    }

    method InstallPatch(n: nat, size: nat, freshId: string) returns (error: Option<ErrorKind>)
      modifies disk
      ensures Current(freshId) == Step(config, old(Current(freshId)), Install(n, size))
      ensures error == InstallAndPromote(old(Current(freshId)).store, n, size).error
    {
      hide FinishInstall, Promote, ProfileFromJson, LoadPointers, Readable;
      var state := LoadOrNewOnError(disk, release, freshId);
      error := state.lifecycle.RecordInstallComplete(n, size);
      if error.Some? {
        return;
      }
      error := state.lifecycle.PromoteToNextBoot(n);
    }

    /** The download hook writes the file; the result is an input. */
    method WriteFile(n: nat, bytes: seq<byte>, freshId: string)
      requires Ready(disk, release)
      modifies disk`downloads
      ensures Ready(disk, release) && Current(freshId) == Step(config, old(Current(freshId)), WriteDownload(n, bytes))
    {
      disk.downloads := disk.downloads[n := bytes];
    }

    // -- Update ---------------------------------------------------------------------

    method Download(o: Offer, action: DownloadAction, dl: DownloadResult, freshId: string)
        returns (error: Option<ErrorKind>)
      requires Ready(disk, release)
      modifies disk
      ensures Ready(disk, release)
      ensures (Current(freshId), error) == DownloadOutcome(config, old(Current(freshId)), o, action, dl)
    {
      if action.Complete? {
        return None;
      }
      RecordStarted(o, freshId);
      match dl {
        case DownloadFailed(left) =>
          if left.Some? {
            WriteFile(o.number, left.value, freshId);
          }
          error := Some(Network);
        case DownloadDone(file, total, contentLength) =>
          WriteFile(o.number, file, freshId);
          if contentLength.Some? && contentLength.value != total {
            DropDownload(o.number, freshId);
            return Some(BadServerResponse);
          }
          error := RecordComplete(o.number, total, freshId);
      }
    }

    /** Inflates the download, if there is one, into the artifact file. */
    method Inflate(n: nat, base: seq<byte>, freshId: string) returns (ok: bool, written: Option<seq<byte>>)
      requires Ready(disk, release)
      requires n in disk.downloads ==> ShortVarints(config.zstd, disk.downloads[n], base)
      modifies disk`artifacts
      ensures Ready(disk, release)
      ensures Inflated(ok, written) ==
        if n in disk.downloads then InflateResult(config.zstd, disk.downloads[n], base) else Inflated(false, None)
      ensures Current(freshId) == Inflating(config, old(Current(freshId)), n, Inflated(ok, written))
      ensures written.Some? ==> n in disk.artifacts && disk.artifacts[n] == written.value
    {
      if n !in disk.downloads {
        return false, None;
      }
      var cursor := new MemReadSeek(base);
      ok, written := InflatePatch(config.zstd, disk.downloads[n], cursor);
      if written.Some? {
        disk.artifacts := disk.artifacts[n := written.value];
      }
    }

    method InflateAndInstall(o: Offer, base: Base, freshId: string) returns (answer: Answer)
      requires Ready(disk, release)
      requires base.Opened? && o.number in disk.downloads ==>
        ShortVarints(config.zstd, disk.downloads[o.number], base.bytes)
      modifies disk
      ensures var t := InstallTrace(config, old(Current(freshId)), o, base);
        Current(freshId) == RunBlocks(config, old(Current(freshId)), t.blocks) && answer == t.answer
    {
      ghost var d := Current(freshId);
      var n := o.number;
      if base.NoProvider? {
        return Threw(InvalidState);
      }
      if base.CannotOpen? {
        return Threw(Io);
      }
      var ok, written := Inflate(n, base.bytes, freshId);
      ghost var r := Inflated(ok, written);
      if !ok {
        InflatingRuns(config, d, n, r, Reject(n, InvalidPatchBytes));
        RejectPatch(n, InvalidPatchBytes, freshId);
        return Threw(BadPatch);
      }
      if config.checks.hash(disk.artifacts[n]) != o.hash {
        InflatingRuns(config, d, n, r, Reject(n, InstallHashMismatch));
        RejectPatch(n, InstallHashMismatch, freshId);
        return Threw(BadPatch);
      }
      var size := |disk.artifacts[n]|;
      InflatingRuns(config, d, n, r, Install(n, size));
      var error := InstallPatch(n, size, freshId);
      answer := if error.Some? then Threw(error.value) else Returned(UpdateInstalled);
    }

    /** Everything up to the rollbacks the server asked for. */
    method BeginUpdate(response: Response, freshId: string)
      modifies disk
      ensures Current(freshId) ==
        RunBlocks(config, old(Current(freshId)), [CopyEvents, ClearEvents] + RollbackStep(response))
    {
      ghost var d := Current(freshId);
      var events := DrainEvents(freshId);
      RunMore(config, d, [], CopyEvents);
      var current := ClearQueue(freshId);
      RunMore(config, d, [CopyEvents], ClearEvents);
      ghost var head: seq<Block> := [CopyEvents, ClearEvents];
      assert [CopyEvents] + [ClearEvents] == head == head + [];
      if response.Response? && response.rolledBack.Some? {
        RollBackPatches(response.rolledBack.value, freshId);
        RunMore(config, d, head, Rollback(response.rolledBack.value));
      }
    }

    /** `update_internal`. */
    method Update(inputs: Inputs, freshId: string) returns (answer: Answer)
      requires UpdateDefined(config, Current(freshId), inputs)
      modifies disk
      ensures Current(freshId) == Do(config, old(Current(freshId)), Call.Update(inputs))
      ensures answer == UpdateTrace(config, old(Current(freshId)), inputs).answer
    {
      ghost var d := Current(freshId);
      ghost var head := [CopyEvents, ClearEvents] + RollbackStep(inputs.response);
      BeginUpdate(inputs.response, freshId);
      if inputs.response.RequestFailed? {
        return Threw(Network);
      }
      if !inputs.response.available || inputs.response.patch.None? {
        return Returned(NoUpdate);
      }
      ghost var d1 := Current(freshId);
      var o := inputs.response.patch.value;
      var action := PlanDownload(o, freshId);
      RunMore(config, d, head, Plan);
      if action.Skip? {
        return Returned(if action.why.KnownBad? then UpdateIsBadPatch else NoUpdate);
      }
      var dl := Arriving(inputs, o, action);
      DownloadTraceRuns(config, d1, o, action, dl);
      ghost var got := DownloadTrace(config, d1, o, action, dl).0;
      RunBlocksConcat(config, d, head + [Plan], got);
      var error := Download(o, action, dl, freshId);
      if error.Some? {
        return Threw(error.value);
      }
      ghost var d2 := Current(freshId);
      assert d2 == RunBlocks(config, d1, got);
      assert d2.store.downloads == disk.downloads;
      ghost var rest := InstallTrace(config, d2, o, inputs.base).blocks;
      RunBlocksConcat(config, d, head + [Plan] + got, rest);
      answer := InflateAndInstall(o, inputs.base, freshId);
    }

    // -- The other entry points --------------------------------------------------------

    /** `init`, from where the configuration is set: deals with a boot that never reported back. */
    method Init(now: nat, freshId: string)
      modifies disk
      ensures Current(freshId) == Do(config, old(Current(freshId)), Call.Init(now))
    {
      ghost var d := Current(freshId);
      RunMore(config, d, [], DetectCrash(now));
      var state := LoadOrNewOnError(disk, release, freshId);
      var crashed := state.lifecycle.DetectBootCrashOnInit();
      if crashed.None? {
        return;
      }
      var n := crashed.value;
      state.QueueEvent(Event(config.appId, config.arch, state.clientId, InstallFailure, n, config.platform,
                             release, now,
        Some("crash_recovery: patch " + Decimal(n) + " failed to boot (detected_at=" + Decimal(now) + ")")));
    }

    /** `check_for_downloadable_update`. */
    method CheckForDownloadableUpdate(response: Response, freshId: string) returns (available: Option<bool>)
      modifies disk
      ensures Current(freshId) == Do(config, old(Current(freshId)), Check(response))
      ensures available.None? <==> response.RequestFailed?
      ensures available == Some(true) <==> (response.Response? && response.patch.Some? &&
        !IsBad(Current(freshId).store, response.patch.value.number) &&
        !IsInstalled(Current(freshId).store, response.patch.value.number))
    {
      hide DecideStart, UninstallAll, IsBad, IsInstalled, ProfileFromJson, LoadPointers, Readable;
      ghost var d := Current(freshId);
      var state := LoadOrNewOnError(disk, release, freshId);
      RunMore(config, d, [], CopyEvents);
      assert [CopyEvents] + [] + [] == [CopyEvents];
      if response.RequestFailed? {
        return None;
      }
      if response.rolledBack.Some? {
        RollBackPatches(response.rolledBack.value, freshId);
        RunMore(config, d, [CopyEvents], Rollback(response.rolledBack.value));
      }
      assert [CopyEvents] + RollbackStep(response) + [] == [CopyEvents] + RollbackStep(response);
      if response.patch.None? {
        return Some(false);
      }
      var action := PlanDownload(response.patch.value, freshId);
      RunMore(config, d, [CopyEvents] + RollbackStep(response), Plan);
      available := Some(action.Fresh? || action.Resume? || action.Complete?);
    }

    method ValidateNextBootPatch(freshId: string) returns (error: Option<ErrorKind>)
      modifies disk
      ensures Current(freshId) == Do(config, old(Current(freshId)), ValidateBoot)
      ensures error == Validate(config.checks, old(Current(freshId)).store).error
    {
      RunMore(config, Current(freshId), [], ValidateNext);
      var state := LoadOrNewOnError(disk, release, freshId);
      error := state.lifecycle.ValidateNextBootPatch(config.checks);
    }

    method ReportLaunchStart(now: nat, freshId: string) returns (error: Option<ErrorKind>)
      modifies this`running, disk
      ensures Current(freshId) == Do(config, old(Current(freshId)), ReportStart(now))
      ensures running == old(Current(freshId)).store.pointers.next
      ensures error.None? <==> (running.Some? ==> IsInstalled(old(Current(freshId)).store, running.value))
    {
      RunMore(config, Current(freshId), [], LaunchStart(now));
      var state := LoadOrNewOnError(disk, release, freshId);
      running := state.lifecycle.pointers.next;
      error := None;
      if running.Some? {
        error := state.lifecycle.RecordBootStart(running.value, now);
      }
    }

    method ReportLaunchFailure(now: nat, freshId: string) returns (error: Option<ErrorKind>)
      modifies disk
      ensures Current(freshId) == Do(config, old(Current(freshId)), ReportFailure(now))
      ensures error == if old(Current(freshId)).store.pointers.booting.None? then Some(InvalidState) else None
    {
      hide BootFailure, ProfileFromJson, LoadPointers, Readable;
      RunMore(config, Current(freshId), [], LaunchFailure(now));
      var state := LoadOrNewOnError(disk, release, freshId);
      if state.lifecycle.pointers.booting.None? {
        return Some(InvalidState);
      }
      var n := state.lifecycle.pointers.booting.value;
      state.lifecycle.RecordBootFailure(n);
      state.QueueEvent(Event(config.appId, config.arch, state.clientId, InstallFailure, n, config.platform,
                             release, now,
        Some("engine_report: patch " + Decimal(n) + " failed to launch")));
      error := None;
    }

    /** Tells whether a success is to be reported to the server: not when the same patch had booted before. */
    method ReportLaunchSuccess(freshId: string) returns (report: Option<nat>)
      modifies disk
      ensures Current(freshId) == Do(config, old(Current(freshId)), ReportSuccess)
      ensures var p := old(Current(freshId)).store.pointers;
        report == if p.booting.Some? && p.last != p.booting then p.booting else None
    {
      RunMore(config, Current(freshId), [], LaunchSuccess);
      var state := LoadOrNewOnError(disk, release, freshId);
      if state.lifecycle.pointers.booting.None? {
        return None;
      }
      var booting := state.lifecycle.pointers.booting;
      var previous := state.lifecycle.pointers.last;
      var error := state.lifecycle.RecordBootSuccess();
      var current := state.lifecycle.pointers.last;
      if previous.Some? && current.Some? && previous.value == current.value {
        return None;
      }
      report := booting;
    }
  }
}
