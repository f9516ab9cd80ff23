/** The updater's entry points as sequences of atomic steps over the device state,
    and what holds over whole runs of them. One `with_state` block of the source is
    one step; so is each write of a download or artifact file between blocks. */
module Runs {
  import opened Bytes
  import opened Lifecycle
  import opened LifecycleJson
  import opened Inflate
  import opened Text

  datatype Device = Device(store: Store, profile: Profile)

  datatype Config = Config(appId: string, arch: string, platform: string, checks: Checks, zstd: Zstd)

  datatype Block =
    | CopyEvents
    | ClearEvents
    | Rollback(ns: seq<nat>)
    | Plan
    | Start(n: nat, url: string, hash: string, signature: Option<string>)
    | Finish(n: nat, size: nat)
    | Drop(n: nat)
    | Reject(n: nat, reason: BadReason)
    | Install(n: nat, size: nat)
    | DetectCrash(now: nat)
    | LaunchStart(now: nat)
    | LaunchFailure(now: nat)
    | LaunchSuccess
    | ValidateNext
    | WriteDownload(n: nat, bytes: seq<byte>)
    | WriteArtifact(n: nat, bytes: seq<byte>)

  function CrashEvent(c: Config, p: Profile, n: nat, now: nat): Event {
    Event(c.appId, c.arch, p.clientId, InstallFailure, n, c.platform, p.release, now,
          Some("crash_recovery: patch " + Decimal(n) + " failed to boot (detected_at=" + Decimal(now) + ")"))
  }

  function FailureEvent(c: Config, p: Profile, n: nat, now: nat): Event {
    Event(c.appId, c.arch, p.clientId, InstallFailure, n, c.platform, p.release, now,
          Some("engine_report: patch " + Decimal(n) + " failed to launch"))
  }

  function FailBoot(d: Device, n: nat, e: Event): Device {
    Device(BootFailure(d.store, n), d.profile.(queue := d.profile.queue + [e]))
  }

  function InstallAndPromote(s: Store, n: nat, size: nat): Outcome {
    var o := FinishInstall(s, n, size);
    if o.error.Some? then o else Promote(o.store, n)
  }

  function Step(c: Config, d: Device, b: Block): Device {
    var s := d.store;
    match b
    case CopyEvents | Plan => d
    case ClearEvents => d.(profile := d.profile.(queue := []))
    case Rollback(ns) => d.(store := UninstallAll(s, ns))
    case Start(n, url, hash, sig) => d.(store := StartDownload(s, n, url, hash, sig))
    case Finish(n, size) => d.(store := FinishDownload(s, n, size).store)
    case Drop(n) => d.(store := Uninstall(s, n))
    case Reject(n, reason) => d.(store := Recompute(MarkBad(s, n, reason)))
    case Install(n, size) => d.(store := InstallAndPromote(s, n, size).store)
    case DetectCrash(now) =>
      if s.pointers.booting.None? then d
      else FailBoot(d, s.pointers.booting.value, CrashEvent(c, d.profile, s.pointers.booting.value, now))
    case LaunchStart(now) =>
      if s.pointers.next.None? then d else d.(store := BootStart(s, s.pointers.next.value, now).store)
    case LaunchFailure(now) =>
      if s.pointers.booting.None? then d
      else FailBoot(d, s.pointers.booting.value, FailureEvent(c, d.profile, s.pointers.booting.value, now))
    case LaunchSuccess => d.(store := BootSuccess(s).store)
    case ValidateNext => d.(store := Validate(c.checks, s).store)
    case WriteDownload(n, bytes) => d.(store := s.(downloads := s.downloads[n := bytes]))
    case WriteArtifact(n, bytes) => d.(store := s.(artifacts := s.artifacts[n := bytes]))
  }

  function RunBlocks(c: Config, d: Device, bs: seq<Block>): Device
    decreases |bs|
  {
    if bs == [] then d else RunBlocks(c, Step(c, d, bs[0]), bs[1..])
  }

  lemma {:induction false} RunBlocksConcat(c: Config, d: Device, xs: seq<Block>, ys: seq<Block>)
    ensures RunBlocks(c, d, xs + ys) == RunBlocks(c, RunBlocks(c, d, xs), ys)
    decreases |xs|
  {
    if xs == [] {
      assert xs + ys == ys;
    } else {
      assert (xs + ys)[1..] == xs[1..] + ys;
      RunBlocksConcat(c, Step(c, d, xs[0]), xs[1..], ys);
    }
  }

  /** A step after some others. */
  lemma RunMore(c: Config, d: Device, bs: seq<Block>, b: Block)
    ensures RunBlocks(c, d, bs + [b]) == Step(c, RunBlocks(c, d, bs), b)
    ensures bs == [] ==> RunBlocks(c, d, [b]) == Step(c, d, b)
  {
    RunBlocksConcat(c, d, bs, [b]);
    var e := RunBlocks(c, d, bs);
    assert [b][1..] == [];
    assert RunBlocks(c, e, [b]) == RunBlocks(c, Step(c, e, b), [b][1..]);
    if bs == [] {
      assert bs + [b] == [b];
    }
  }

  // -- Entry points --------------------------------------------------------------

  datatype Offer = Offer(number: nat, url: string, hash: string, signature: Option<string>)

  /** The server's answer to a patch check, or the exception the request threw. */
  datatype Response = RequestFailed | Response(rolledBack: Option<seq<nat>>, available: bool, patch: Option<Offer>)

  /** What the download hook did: threw, leaving the file as given if it touched it,
      or finished, having written `total` bytes this session. */
  datatype DownloadResult =
    | DownloadFailed(left: Option<seq<byte>>)
    | DownloadDone(file: seq<byte>, total: nat, contentLength: Option<nat>)

  /** The base snapshot: no provider, a provider that cannot open it, or its bytes. */
  datatype Base = NoProvider | CannotOpen | Opened(bytes: seq<byte>)

  /** What the outside world does in one update: the download hook answers a url and the offset to resume from. */
  datatype Inputs = Inputs(response: Response, download: (string, nat) -> DownloadResult, base: Base)

  datatype Status = NoUpdate | UpdateInstalled | UpdateIsBadPatch
  datatype Answer = Returned(status: Status) | Threw(kind: ErrorKind)

  /** The steps an entry point takes, and how it ends. */
  datatype Trace = Trace(blocks: seq<Block>, answer: Answer)

  function Arriving(i: Inputs, o: Offer, action: DownloadAction): DownloadResult {
    i.download(o.url, if action.Resume? then action.offset else 0)
  }

  function RollbackStep(r: Response): seq<Block> {
    if r.Response? && r.rolledBack.Some? then [Rollback(r.rolledBack.value)] else []
  }

  /** Inflating, checking and installing what has been downloaded. */
  function InstallTrace(c: Config, d: Device, o: Offer, base: Base): Trace {
    var n := o.number;
    match base
    case NoProvider => Trace([], Threw(InvalidState))
    case CannotOpen => Trace([], Threw(Io))
    case Opened(bytes) =>
      var r := if n in d.store.downloads then InflateResult(c.zstd, d.store.downloads[n], bytes)
        else Inflated(false, None);
      var w := if r.written.Some? then [WriteArtifact(n, r.written.value)] else [];
      if !r.ok then Trace(w + [Reject(n, InvalidPatchBytes)], Threw(BadPatch))
      else if c.checks.hash(r.written.value) != o.hash then Trace(w + [Reject(n, InstallHashMismatch)], Threw(BadPatch))
      else
        var size := |r.written.value|;
        var done := InstallAndPromote(RunBlocks(c, d, w).store, n, size);
        Trace(w + [Install(n, size)], if done.error.Some? then Threw(done.error.value) else Returned(UpdateInstalled))
  }

  /** Downloading, unless the plan says the file is already complete; none if it must stop there. */
  function DownloadTrace(c: Config, d: Device, o: Offer, action: DownloadAction, dl: DownloadResult)
      : (seq<Block>, Option<ErrorKind>)
  {
    var n := o.number;
    if action.Complete? then ([], None)
    else
      var start := [Start(n, o.url, o.hash, o.signature)];
      match dl
      case DownloadFailed(left) => (start + (if left.Some? then [WriteDownload(n, left.value)] else []), Some(Network))
      case DownloadDone(file, total, contentLength) =>
        var got := start + [WriteDownload(n, file)];
        if contentLength.Some? && contentLength.value != total then (got + [Drop(n)], Some(BadServerResponse))
        else
          (got + [Finish(n, total)], FinishDownload(RunBlocks(c, d, got).store, n, total).error)
  }

  /** The state a download leaves, and the error that stops the update there. */
  function DownloadOutcome(c: Config, d: Device, o: Offer, action: DownloadAction, dl: DownloadResult)
      : (Device, Option<ErrorKind>)
  {
    if action.Complete? then (d, None)
    else
      var n := o.number;
      var started := Step(c, d, Start(n, o.url, o.hash, o.signature));
      match dl
      case DownloadFailed(left) =>
        (if left.Some? then Step(c, started, WriteDownload(n, left.value)) else started, Some(Network))
      case DownloadDone(file, total, contentLength) =>
        var got := Step(c, started, WriteDownload(n, file));
        if contentLength.Some? && contentLength.value != total then (Step(c, got, Drop(n)), Some(BadServerResponse))
        else (Step(c, got, Finish(n, total)), FinishDownload(got.store, n, total).error)
  }

  lemma DownloadTraceRuns(c: Config, d: Device, o: Offer, action: DownloadAction, dl: DownloadResult)
    ensures var t := DownloadTrace(c, d, o, action, dl);
      (RunBlocks(c, d, t.0), t.1) == DownloadOutcome(c, d, o, action, dl)
  {
    if !action.Complete? {
      var n := o.number;
      var start := [Start(n, o.url, o.hash, o.signature)];
      RunMore(c, d, [], start[0]);
      match dl
      case DownloadFailed(left) =>
        if left.Some? {
          RunMore(c, d, start, WriteDownload(n, left.value));
        } else {
          assert start + [] == start;
        }
      case DownloadDone(file, total, contentLength) =>
        RunMore(c, d, start, WriteDownload(n, file));
        var got := start + [WriteDownload(n, file)];
        RunMore(c, d, got, Drop(n));
        RunMore(c, d, got, Finish(n, total));
    }
  }

  /** The device once the output file has been written, if it was. */
  function Inflating(c: Config, d: Device, n: nat, r: Inflated): Device {
    if r.written.Some? then Step(c, d, WriteArtifact(n, r.written.value)) else d
  }

  lemma InflatingRuns(c: Config, d: Device, n: nat, r: Inflated, b: Block)
    ensures var w := if r.written.Some? then [WriteArtifact(n, r.written.value)] else [];
      RunBlocks(c, d, w) == Inflating(c, d, n, r) && RunBlocks(c, d, w + [b]) == Step(c, Inflating(c, d, n, r), b)
  {
    if r.written.Some? {
      RunMore(c, d, [], WriteArtifact(n, r.written.value));
      RunMore(c, d, [WriteArtifact(n, r.written.value)], b);
    } else {
      RunMore(c, d, [], b);
    }
  }

  function UpdateTrace(c: Config, d: Device, i: Inputs): Trace {
    var head := [CopyEvents, ClearEvents] + RollbackStep(i.response);
    if i.response.RequestFailed? then Trace(head, Threw(Network))
    else if !i.response.available || i.response.patch.None? then Trace(head, Returned(NoUpdate))
    else
      var o := i.response.patch.value;
      var d1 := RunBlocks(c, d, head);
      var action := DecideStart(d1.store, o.number, o.url, o.hash);
      if action.Skip? then
        Trace(head + [Plan], Returned(if action.why.KnownBad? then UpdateIsBadPatch else NoUpdate))
      else
        var (got, stop) := DownloadTrace(c, d1, o, action, Arriving(i, o, action));
        if stop.Some? then Trace(head + [Plan] + got, Threw(stop.value))
        else
          var t := InstallTrace(c, RunBlocks(c, d1, got), o, i.base);
          Trace(head + [Plan] + got + t.blocks, t.answer)
  }

  /** No file this update would inflate has a varint longer than ten bytes. */
  predicate UpdateDefined(c: Config, d: Device, i: Inputs) {
    i.response.Response? && i.response.available && i.response.patch.Some? && i.base.Opened? ==>
      var o := i.response.patch.value;
      var d1 := RunBlocks(c, d, [CopyEvents, ClearEvents] + RollbackStep(i.response));
      var action := DecideStart(d1.store, o.number, o.url, o.hash);
      var (got, stop) := DownloadTrace(c, d1, o, action, Arriving(i, o, action));
      var files := RunBlocks(c, d1, got).store.downloads;
      !action.Skip? && stop.None? && o.number in files ==> ShortVarints(c.zstd, files[o.number], i.base.bytes)
  }

  datatype Call =
    | Init(now: nat)
    | Update(inputs: Inputs)
    | Check(response: Response)
    | ValidateBoot
    | ReportStart(at: nat)
    | ReportFailure(when: nat)
    | ReportSuccess

  function CallBlocks(c: Config, d: Device, call: Call): seq<Block> {
    match call
    case Init(now) => [DetectCrash(now)]
    case Update(inputs) => UpdateTrace(c, d, inputs).blocks
    case Check(r) => [CopyEvents] + RollbackStep(r) + (if r.Response? && r.patch.Some? then [Plan] else [])
    case ValidateBoot => [ValidateNext]
    case ReportStart(now) => [LaunchStart(now)]
    case ReportFailure(now) => [LaunchFailure(now)]
    case ReportSuccess => [LaunchSuccess]
  }

  function Do(c: Config, d: Device, call: Call): Device {
    RunBlocks(c, d, CallBlocks(c, d, call))
  }

  /** One entry point after another, within one release. */
  function RunCalls(c: Config, d: Device, calls: seq<Call>): Device
    decreases |calls|
  {
    if calls == [] then d else RunCalls(c, Do(c, d, calls[0]), calls[1..])
  }
}
