/** The lifecycle object over the files on disk. Each method is proved to do what
    the function of the same name in `Lifecycle` says, and to leave its in-memory
    pointers equal to those on disk, also when it throws. */
module DiskLifecycle {
  import opened Bytes
  import opened Lifecycle
  import opened LifecycleJson

  /** The files: {state_root}/state.json and pointers.json, patches/{n}/state.json
      and dlc.vmcode, and {download_root}/{n}. */
  class Disk {
    var profileFile: Option<Json>
    var pointersFile: Option<Json>
    var stateFiles: map<nat, Json>
    var artifacts: map<nat, seq<byte>>
    var downloads: map<nat, seq<byte>>

    constructor ()
      ensures profileFile == None && pointersFile == None
      ensures stateFiles == map[] && artifacts == map[] && downloads == map[]
    {
      profileFile, pointersFile := None, None;
      stateFiles, artifacts, downloads := map[], map[], map[];
    }
  }

  /** The readable states; an unreadable file counts as no state. */
  function Readable(files: map<nat, Json>): map<nat, PatchState> {
    map n | n in files && StateFromJson(files[n]).Some? :: StateFromJson(files[n]).value
  }

  function LoadPointers(file: Option<Json>): Pointers {
    var p := if file.Some? then PointersFromJson(file.value) else None;
    if p.Some? then p.value else UNSET
  }

  lemma ReadableWrite(files: map<nat, Json>, n: nat, p: PatchState)
    ensures Readable(files[n := StateToJson(p)]) == Readable(files)[n := p]
  {
    StateRoundTrip(p);
  }

  lemma ReadableRemove(files: map<nat, Json>, n: nat)
    ensures Readable(files - {n}) == Readable(files) - {n}
  {
  }

  class PatchLifecycle {
    const disk: Disk
    var pointers: Pointers

    /** Memory and disk agree. */
    ghost predicate Synced()
      reads this, disk
    {
      pointers == LoadPointers(disk.pointersFile)
    }

    ghost function View(): Store
      reads this, disk
    {
      Store(Readable(disk.stateFiles), disk.artifacts, disk.downloads, pointers)
    }

    /** `load_or_default`: what a reload from disk gives. */
    constructor LoadOrDefault(disk: Disk)
      ensures this.disk == disk && Synced()
      ensures View() ==
        Store(Readable(disk.stateFiles), disk.artifacts, disk.downloads, LoadPointers(disk.pointersFile))
    {
      this.disk := disk;
      pointers := UNSET;
      new;
      if disk.pointersFile.Some? {
        var p := PointersFromJson(disk.pointersFile.value);
        if p.Some? {
          pointers := p.value;
        }
      }
    }

    method ReadState(n: nat) returns (s: Option<PatchState>)
      ensures s == Lifecycle.ReadState(View(), n)
    {
      if n !in disk.stateFiles {
        return None;
      }
      s := StateFromJson(disk.stateFiles[n]);
    }

    method WriteState(n: nat, state: PatchState)
      requires Synced()
      modifies disk`stateFiles
      ensures Synced() && View() == Write(old(View()), n, state)
    {
      ReadableWrite(disk.stateFiles, n, state);
      disk.stateFiles := disk.stateFiles[n := StateToJson(state)];
    }

    method SavePointers()
      modifies disk`pointersFile
      ensures Synced() && View() == old(View())
    {
      PointersRoundTrip(pointers);
      disk.pointersFile := Some(PointersToJson(pointers));
    }

    method DecideStart(n: nat, url: string, hash: string) returns (action: DownloadAction)
      ensures action == Lifecycle.DecideStart(View(), n, url, hash)
    {
      var state := ReadState(n);
      match state {
        case None => action := Fresh;
        case Some(Downloading(u, h, _)) =>
          if u == url && h == hash && n in disk.downloads {
            action := Resume(|disk.downloads[n]|);
          } else {
            action := Fresh;
          }
        case Some(Downloaded(u, h, _, _)) =>
          if u == url && h == hash && n in disk.downloads {
            action := Complete;
          } else {
            action := Fresh;
          }
        case Some(Installed(_, _)) => action := Skip(AlreadyInstalled);
        case Some(Bad(_, _, _, _)) => action := Skip(KnownBad);
      }
    }

    method RecordDownloadStarted(n: nat, url: string, hash: string, signature: Option<string>)
      requires Synced()
      modifies disk
      ensures Synced() && View() == StartDownload(old(View()), n, url, hash, signature)
      ensures unchanged(disk`profileFile)
    {
      WriteState(n, Downloading(url, hash, signature));
    }

    method RecordDownloadComplete(n: nat, size: nat) returns (error: Option<ErrorKind>)
      requires Synced()
      modifies disk
      ensures Synced() && Outcome(View(), error) == FinishDownload(old(View()), n, size)
      ensures unchanged(disk`profileFile)
    {
      var state := ReadState(n);
      match state {
        case Some(Downloading(url, hash, signature)) =>
          WriteState(n, Downloaded(url, hash, signature, size));
          error := None;
        case Some(Downloaded(url, hash, signature, _)) =>
          WriteState(n, Downloaded(url, hash, signature, size));
          error := None;
        case _ =>
          error := Some(InvalidState);
      }
    }

    method RecordInstallComplete(n: nat, size: nat) returns (error: Option<ErrorKind>)
      requires Synced()
      modifies disk
      ensures Synced() && Outcome(View(), error) == FinishInstall(old(View()), n, size)
      ensures unchanged(disk`profileFile)
    {
      var state := ReadState(n);
      if state.None? || !state.value.Downloaded? {
        return Some(InvalidState);
      }
      WriteState(n, Installed(state.value.signature, size));
      if n in disk.downloads {
        disk.downloads := disk.downloads - {n};
      }
      error := None;
      assert View().downloads == old(View()).downloads - {n};
    }

    method DeleteArtifactFiles(n: nat)
      requires Synced()
      modifies disk`artifacts, disk`downloads
      ensures Synced()
      ensures View() == old(View()).(artifacts := old(View()).artifacts - {n}, downloads := old(View()).downloads - {n})
    {
      disk.artifacts := disk.artifacts - {n};
      if n in disk.downloads {
        disk.downloads := disk.downloads - {n};
      }
      assert disk.downloads == old(disk.downloads) - {n};
    }

    method ForgetDir(n: nat)
      requires Synced()
      modifies disk`stateFiles, disk`artifacts, disk`downloads
      ensures Synced()
      ensures View() == old(View()).(patches := old(View()).patches - {n},
                                     artifacts := old(View()).artifacts - {n}, downloads := old(View()).downloads - {n})
      ensures n !in disk.stateFiles
    {
      ReadableRemove(disk.stateFiles, n);
      disk.stateFiles := disk.stateFiles - {n};
      disk.artifacts := disk.artifacts - {n};
      if n in disk.downloads {
        disk.downloads := disk.downloads - {n};
      }
      assert disk.downloads == old(disk.downloads) - {n};
    }

    method Cleanup(n: nat)
      requires Synced()
      modifies disk
      ensures Synced() && View() == Lifecycle.Cleanup(old(View()), n)
      ensures unchanged(disk`profileFile)
    {
      var state := ReadState(n);
      if state.Some? && state.value.Bad? {
        DeleteArtifactFiles(n);
        assert View().patches == Lifecycle.Cleanup(old(View()), n).patches;
      } else {
        ForgetDir(n);
        assert View().patches == Lifecycle.Cleanup(old(View()), n).patches;
      }
    }

    method PromoteToNextBoot(n: nat) returns (error: Option<ErrorKind>)
      requires Synced()
      modifies this, disk
      ensures Synced() && Outcome(View(), error) == Promote(old(View()), n)
      ensures unchanged(disk`profileFile)
    {
      var state := ReadState(n);
      if state.None? || !state.value.Installed? {
        return Some(InvalidState);
      }
      var lastBooted := pointers.last;
      if pointers.next.Some? {
        var prev := pointers.next.value;
        if prev != n && (lastBooted.None? || lastBooted.value != prev) {
          Cleanup(prev);
        }
      }
      pointers := pointers.(next := Some(n));
      SavePointers();
      error := None;
    }

    method RecomputeNextBoot()
      requires Synced()
      modifies this, disk
      ensures Synced() && View() == Recompute(old(View()))
      ensures unchanged(disk`profileFile)
    {
      var dirty := false;
      if pointers.last.Some? {
        var state := ReadState(pointers.last.value);
        if state.None? {
          pointers := pointers.(last := None);
          dirty := true;
        }
      }
      var alreadyValid := false;
      if pointers.next.Some? {
        var state := ReadState(pointers.next.value);
        alreadyValid := state.Some? && state.value.Installed?;
      }
      if !alreadyValid {
        var target := None;
        if pointers.last.Some? {
          var state := ReadState(pointers.last.value);
          if state.Some? && state.value.Installed? {
            target := pointers.last;
          }
        }
        if pointers.next != target {
          pointers := pointers.(next := target);
          dirty := true;
        }
      }
      if dirty {
        SavePointers();
      }
    }

    method MarkBad(n: nat, reason: BadReason)
      requires Synced()
      modifies disk
      ensures Synced() && View() == Lifecycle.MarkBad(old(View()), n, reason)
      ensures unchanged(disk`profileFile)
    {
      var prior := ReadState(n);
      var bad;
      match prior {
        case None => bad := Bad(reason, None, None, None);
        case Some(Downloading(_, hash, signature)) =>
          var size := None;
          if n in disk.downloads {
            size := Some(|disk.downloads[n]|);
          }
          bad := Bad(reason, Some(hash), signature, size);
        case Some(Downloaded(_, hash, signature, size)) => bad := Bad(reason, Some(hash), signature, Some(size));
        case Some(Installed(signature, size)) => bad := Bad(reason, None, signature, Some(size));
        case Some(Bad(_, hash, signature, size)) => bad := Bad(reason, hash, signature, size);
      }
      WriteState(n, bad);
      Cleanup(n);
    }

    method RecordBootStart(n: nat, now: nat) returns (error: Option<ErrorKind>)
      requires Synced()
      modifies this, disk
      ensures Synced() && Outcome(View(), error) == BootStart(old(View()), n, now)
      ensures unchanged(disk`profileFile)
    {
      var state := ReadState(n);
      if state.None? || !state.value.Installed? {
        return Some(InvalidState);
      }
      if pointers.next.None? || pointers.next.value != n {
        return Some(InvalidState);
      }
      pointers := pointers.(booting := Some(n), startedAt := Some(now));
      SavePointers();
      error := None;
    }

    method RecordBootSuccess() returns (error: Option<ErrorKind>)
      requires Synced()
      modifies this, disk
      ensures Synced() && Outcome(View(), error) == BootSuccess(old(View()))
      ensures unchanged(disk`profileFile)
    {
      if pointers.booting.None? {
        return Some(InvalidState);
      }
      var n := pointers.booting.value;
      pointers := pointers.(last := Some(n), booting := None, startedAt := None);
      SavePointers();
      CleanupOlderThan(n);
      error := None;
    }

    method RecordBootFailure(n: nat)
      requires Synced()
      modifies this, disk
      ensures Synced() && View() == BootFailure(old(View()), n)
      ensures unchanged(disk`profileFile)
    {
      MarkBad(n, BootCrash);
      pointers := pointers.(booting := None, startedAt := None);
      SavePointers();
      RecomputeNextBoot();
    }

    method DetectBootCrashOnInit() returns (crashed: Option<nat>)
      requires Synced()
      modifies this, disk
      ensures Synced() && crashed == old(pointers.booting)
      ensures View() == if crashed.None? then old(View()) else BootFailure(old(View()), crashed.value)
      ensures unchanged(disk`profileFile)
    {
      if pointers.booting.None? {
        return None;
      }
      var n := pointers.booting.value;
      RecordBootFailure(n);
      crashed := Some(n);
    }

    /** Goes through the patch directories below `n`. */
    method CleanupOlderThan(n: nat)
      requires Synced()
      modifies disk
      ensures Synced() && View() == Lifecycle.CleanupOlderThan(old(View()), n)
      ensures unchanged(disk`profileFile)
    {
      var entries := disk.stateFiles.Keys + disk.artifacts.Keys;
      ghost var done: set<nat> := {};
      assert CleanupAll(View(), {}) == View();
      while entries != {}
        invariant Synced() && disk.profileFile == old(disk.profileFile)
        invariant View() == CleanupAll(old(View()), done)
        invariant forall k :: k in done ==> k < n
        invariant forall k :: k in old(disk.stateFiles.Keys + disk.artifacts.Keys) ==>
          k in entries || k in done || k >= n
        decreases entries
      {
        var num :| num in entries;
        entries := entries - {num};
        if num < n {
          Cleanup(num);
          CleanupMore(old(View()), done, num);
          done := done + {num};
        }
      }
      CleanupOrphanDownloads();
      SweepCovers(old(View()), done, n);
    }

    method CleanupOrphanDownloads()
      requires Synced()
      modifies disk`downloads
      ensures Synced() && View() == SweepDownloads(old(View()))
    {
      var entries := disk.downloads.Keys;
      ghost var kept: set<nat> := {};
      while entries != {}
        invariant Synced() && entries <= disk.downloads.Keys
        invariant forall k :: k in disk.downloads ==>
          k in old(disk.downloads) && disk.downloads[k] == old(disk.downloads)[k]
        invariant forall k :: k in disk.downloads && k !in entries ==> Keeps(old(View()), k)
        invariant forall k :: k in old(disk.downloads) && Keeps(old(View()), k) ==> k in disk.downloads
        decreases entries
      {
        var num :| num in entries;
        entries := entries - {num};
        var state := ReadState(num);
        var keep := state.Some? && InFlight(state.value);
        if !keep {
          disk.downloads := disk.downloads - {num};
        }
      }
      assert disk.downloads == SweepDownloads(old(View())).downloads;
    }

    method ValidateInstalledPatch(n: nat, checks: Checks) returns (error: Option<ErrorKind>)
      ensures error == Flaw(checks, View(), n)
    {
      var state := ReadState(n);
      if state.None? || !state.value.Installed? {
        return Some(InvalidState);
      }
      var inst := state.value;
      if n !in disk.artifacts {
        return Some(Io);
      }
      if |disk.artifacts[n]| != inst.size {
        return Some(BadPatch);
      }
      if checks.mode == Strict && checks.key.Some? {
        if inst.signature.None? {
          return Some(InvalidSignature);
        }
        var signed := checks.signed(checks.hash(disk.artifacts[n]), inst.signature.value, checks.key.value);
        if signed.None? {
          return Some(BadServerResponse);
        }
        if !signed.value {
          return Some(InvalidSignature);
        }
      }
      error := None;
    }

    method ValidateNextBootPatch(checks: Checks) returns (error: Option<ErrorKind>)
      requires Synced()
      modifies this, disk
      ensures Synced() && Outcome(View(), error) == Validate(checks, old(View()))
      ensures unchanged(disk`profileFile)
    {
      if pointers.next.None? {
        return None;
      }
      var n := pointers.next.value;
      error := ValidateInstalledPatch(n, checks);
      if error.Some? {
        MarkBad(n, ValidationFailed);
        RecomputeNextBoot();
      }
    }
  }

  predicate Keeps(s: Store, n: nat) {
    n in s.patches && InFlight(s.patches[n])
  }

  lemma CleanupMore(s: Store, done: set<nat>, n: nat)
    ensures Lifecycle.Cleanup(CleanupAll(s, done), n) == CleanupAll(s, done + {n})
  {
    var a, b := Lifecycle.Cleanup(CleanupAll(s, done), n), CleanupAll(s, done + {n});
    assert a.patches == b.patches && a.artifacts == b.artifacts && a.downloads == b.downloads;
  }

  /** Cleaning the directories that exist below `n`, then the orphan downloads, covers every number below `n`. */
  lemma SweepCovers(s: Store, done: set<nat>, n: nat)
    requires forall k :: k in done ==> k < n
    requires forall k :: k in s.patches.Keys + s.artifacts.Keys && k < n ==> k in done
    ensures SweepDownloads(CleanupAll(s, done)) == Lifecycle.CleanupOlderThan(s, n)
  {
    var a, b := SweepDownloads(CleanupAll(s, done)), Lifecycle.CleanupOlderThan(s, n);
    assert a.patches == b.patches;
    assert a.artifacts == b.artifacts;
    assert a.downloads == b.downloads;
  }
}
