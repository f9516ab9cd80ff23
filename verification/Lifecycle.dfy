/** What the patch lifecycle does, as functions on its persistent state: the
    per-patch states, the artifact and download files, and the release pointers. */
module Lifecycle {
  import opened Bytes

  datatype BadReason = BootCrash | InvalidPatchBytes | InstallHashMismatch | ValidationFailed

  datatype PatchState =
    | Downloading(url: string, hash: string, signature: Option<string>)
    | Downloaded(url: string, hash: string, signature: Option<string>, size: nat)
    | Installed(signature: Option<string>, size: nat)
    | Bad(reason: BadReason, badHash: Option<string>, signature: Option<string>, badSize: Option<nat>)

  datatype Pointers = Pointers(next: Option<nat>, last: Option<nat>, booting: Option<nat>, startedAt: Option<nat>)

  const UNSET := Pointers(None, None, None, None)

  /** A patch with no entry in `patches` is Unknown. */
  datatype Store = Store(
    patches: map<nat, PatchState>,
    artifacts: map<nat, seq<byte>>,
    downloads: map<nat, seq<byte>>,
    pointers: Pointers)

  const EMPTY := Store(map[], map[], map[], UNSET)

  datatype SkipReason = AlreadyInstalled | KnownBad
  datatype DownloadAction = Fresh | Resume(offset: nat) | Complete | Skip(why: SkipReason)

  datatype ErrorKind = InvalidState | Io | BadPatch | InvalidSignature | Network | BadServerResponse

  /** The state an operation leaves, and the exception it throws if any. */
  datatype Outcome = Outcome(store: Store, error: Option<ErrorKind>)

  datatype Mode = Strict | InstallOnly

  /** Foreign functions and configuration: file hash, signature check (none when it throws), key, mode. */
  datatype Checks = Checks(
    hash: seq<byte> -> string,
    signed: (string, string, string) -> Option<bool>,
    key: Option<string>,
    mode: Mode)

  function ReadState(s: Store, n: nat): Option<PatchState> {
    if n in s.patches then Some(s.patches[n]) else None
  }

  predicate IsInstalled(s: Store, n: nat) {
    n in s.patches && s.patches[n].Installed?
  }

  predicate IsBad(s: Store, n: nat) {
    n in s.patches && s.patches[n].Bad?
  }

  function Write(s: Store, n: nat, p: PatchState): Store {
    s.(patches := s.patches[n := p])
  }

  function DecideStart(s: Store, n: nat, url: string, hash: string): DownloadAction {
    match ReadState(s, n)
    case None => Fresh
    case Some(Downloading(u, h, _)) =>
      if u == url && h == hash && n in s.downloads then Resume(|s.downloads[n]|) else Fresh
    case Some(Downloaded(u, h, _, _)) =>
      if u == url && h == hash && n in s.downloads then Complete else Fresh
    case Some(Installed(_, _)) => Skip(AlreadyInstalled)
    case Some(Bad(_, _, _, _)) => Skip(KnownBad)
  }

  function StartDownload(s: Store, n: nat, url: string, hash: string, signature: Option<string>): Store {
    Write(s, n, Downloading(url, hash, signature))
  }

  function FinishDownload(s: Store, n: nat, size: nat): Outcome {
    match ReadState(s, n)
    case Some(Downloading(u, h, sig)) => Outcome(Write(s, n, Downloaded(u, h, sig, size)), None)
    case Some(Downloaded(u, h, sig, _)) => Outcome(Write(s, n, Downloaded(u, h, sig, size)), None)
    case _ => Outcome(s, Some(InvalidState))
  }

  function FinishInstall(s: Store, n: nat, size: nat): Outcome {
    match ReadState(s, n)
    case Some(Downloaded(_, _, sig, _)) =>
      Outcome(Write(s, n, Installed(sig, size)).(downloads := s.downloads - {n}), None)
    case _ => Outcome(s, Some(InvalidState))
  }

  /** Deletes the files of the patches in `ns`, and forgets those that are not Bad. */
  function CleanupAll(s: Store, ns: set<nat>): Store {
    s.(patches := map n | n in s.patches && (n !in ns || s.patches[n].Bad?) :: s.patches[n],
       artifacts := s.artifacts - ns,
       downloads := s.downloads - ns)
  }

  function Cleanup(s: Store, n: nat): Store {
    CleanupAll(s, {n})
  }

  function Promote(s: Store, n: nat): Outcome {
    if !IsInstalled(s, n) then Outcome(s, Some(InvalidState))
    else
      var prev := s.pointers.next;
      var t := if prev.Some? && prev.value != n && s.pointers.last != prev then Cleanup(s, prev.value) else s;
      Outcome(t.(pointers := t.pointers.(next := Some(n))), None)
  }

  /** Forgets a last-booted patch that has no state, and moves a next-boot pointer
      that is not Installed to the last-booted patch if that is, else to none. */
  function Recompute(s: Store): Store {
    var p := s.pointers;
    var last := if p.last.Some? && ReadState(s, p.last.value).None? then None else p.last;
    var next :=
      if p.next.Some? && IsInstalled(s, p.next.value) then p.next
      else if last.Some? && IsInstalled(s, last.value) then last
      else None;
    s.(pointers := p.(last := last, next := next))
  }

  function Tombstone(s: Store, n: nat, reason: BadReason): PatchState {
    match ReadState(s, n)
    case None => Bad(reason, None, None, None)
    case Some(Downloading(_, h, sig)) =>
      Bad(reason, Some(h), sig, if n in s.downloads then Some(|s.downloads[n]|) else None)
    case Some(Downloaded(_, h, sig, size)) => Bad(reason, Some(h), sig, Some(size))
    case Some(Installed(sig, size)) => Bad(reason, None, sig, Some(size))
    case Some(Bad(_, h, sig, size)) => Bad(reason, h, sig, size)
  }

  function MarkBad(s: Store, n: nat, reason: BadReason): Store {
    Cleanup(Write(s, n, Tombstone(s, n, reason)), n)
  }

  function Uninstall(s: Store, n: nat): Store {
    Recompute(Cleanup(s, n))
  }

  function UninstallAll(s: Store, ns: seq<nat>): Store
    decreases |ns|
  {
    if ns == [] then s else UninstallAll(Uninstall(s, ns[0]), ns[1..])
  }

  function BootStart(s: Store, n: nat, now: nat): Outcome {
    if !IsInstalled(s, n) || s.pointers.next != Some(n) then Outcome(s, Some(InvalidState))
    else Outcome(s.(pointers := s.pointers.(booting := Some(n), startedAt := Some(now))), None)
  }

  predicate InFlight(p: PatchState) {
    p.Downloading? || p.Downloaded?
  }

  /** The downloads kept by the orphan sweep: those still in flight. */
  function SweepDownloads(s: Store): Store {
    s.(downloads := map n | n in s.downloads && n in s.patches && InFlight(s.patches[n]) :: s.downloads[n])
  }

  function Below(n: nat): (r: set<nat>)
    ensures forall k: nat :: k in r <==> k < n
  {
    if n == 0 then {} else Below(n - 1) + {n - 1}
  }

  /** Everything with a number below `n` goes, except tombstones; so do orphan downloads. */
  function CleanupOlderThan(s: Store, n: nat): Store {
    SweepDownloads(CleanupAll(s, Below(n)))
  }

  function BootSuccess(s: Store): Outcome {
    match s.pointers.booting
    case None => Outcome(s, Some(InvalidState))
    case Some(n) =>
      var p := s.pointers.(last := Some(n), booting := None, startedAt := None);
      Outcome(CleanupOlderThan(s.(pointers := p), n), None)
  }

  function BootFailure(s: Store, n: nat): Store {
    var t := MarkBad(s, n, BootCrash);
    Recompute(t.(pointers := t.pointers.(booting := None, startedAt := None)))
  }

  /** What is wrong with an installed patch, if anything. */
  function Flaw(c: Checks, s: Store, n: nat): Option<ErrorKind> {
    if !IsInstalled(s, n) then Some(InvalidState)
    else if n !in s.artifacts then Some(Io)
    else if |s.artifacts[n]| != s.patches[n].size then Some(BadPatch)
    else if c.mode.InstallOnly? || c.key.None? then None
    else match s.patches[n].signature
      case None => Some(InvalidSignature)
      case Some(sig) =>
        match c.signed(c.hash(s.artifacts[n]), sig, c.key.value)
        case None => Some(BadServerResponse)
        case Some(ok) => if ok then None else Some(InvalidSignature)
  }

  function Validate(c: Checks, s: Store): Outcome {
    match s.pointers.next
    case None => Outcome(s, None)
    case Some(n) =>
      var flaw := Flaw(c, s, n);
      if flaw.None? then Outcome(s, None)
      else Outcome(Recompute(MarkBad(s, n, ValidationFailed)), flaw)
  }
}
