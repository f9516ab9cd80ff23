/** From the encoder on the server to the patch that boots next on the device. */
module EndToEnd {
  import opened Bytes
  import opened Lifecycle
  import opened Inflate
  import opened Runs
  import opened UpdateLaws
  import MakePatch
  import Updater

  /** A patch file that `make_patch` produces for these two byte strings. */
  ghost predicate IsPatch(c: Config, file: seq<byte>, older: seq<byte>, newer: seq<byte>) {
    && Inverse(c.zstd) && ShortVarints(c.zstd, file, older) && InflatesTo(c.zstd, file, older, newer)
  }

  /** The server offers a patch that the device wants, asks for any rollbacks, and the file, held
      from before or delivered now, is a patch from `older` to `newer`. */
  ghost predicate Offered(c: Config, d: Device, i: Inputs, n: nat, older: seq<byte>, newer: seq<byte>) {
    Offering(i.response) &&
    var o := i.response.patch.value;
    && o.number == n && o.hash == c.checks.hash(newer) && Wanted(d, i.response, n) && i.base == Opened(older)
    && Arrives(d, i, o) && IsPatch(c, File(d, i, o), older, newer)
  }

  /** What the device looks like with the patch delivered. */
  ghost predicate Delivered(c: Config, e: Device, n: nat, newer: seq<byte>, signature: Option<string>) {
    && e.store.pointers.next == Some(n)
    && ReadState(e.store, n) == Some(Installed(signature, |newer|))
    && n in e.store.artifacts && e.store.artifacts[n] == newer
  }

  lemma InstallDelivers(c: Config, d: Device, o: Offer, older: seq<byte>, newer: seq<byte>,
                        signature: Option<string>, total: nat)
    requires o.number in d.store.downloads && IsPatch(c, d.store.downloads[o.number], older, newer)
    requires o.hash == c.checks.hash(newer)
    requires ReadState(d.store, o.number) == Some(Downloaded(o.url, o.hash, signature, total))
    ensures var t := InstallTrace(c, d, o, Opened(older));
      t.answer == Returned(UpdateInstalled) && Delivered(c, RunBlocks(c, d, t.blocks), o.number, newer, signature)
  {
    hide Inverse, InflatesTo, ShortVarints, InflateResult;
    var n := o.number;
    InflatesExactly(c.zstd, d.store.downloads[n], older);
    var r := InflateResult(c.zstd, d.store.downloads[n], older);
    InflatingRuns(c, d, n, r, Install(n, |newer|));
  }

  /** One update cycle installs exactly `newer`, to boot next, whatever the device knew of the
      patch; and with the file held from before it does not depend on the download hook. */
  lemma UpdateDelivers(c: Config, d: Device, i: Inputs, n: nat, older: seq<byte>, newer: seq<byte>)
    requires Offered(c, d, i, n, older, newer)
    ensures UpdateDefined(c, d, i)
    ensures UpdateTrace(c, d, i).answer == Returned(UpdateInstalled)
    ensures Delivered(c, Do(c, d, Update(i)), n, newer, Signature(d, i, i.response.patch.value))
  {
    hide InstallTrace, Delivered, RunBlocks, Inverse, InflatesTo, Do, UpdateTrace, Rolled;
    var o := i.response.patch.value;
    ArrivedRuns(c, d, i, o);
    FetchedHolds(d, i, o);
    InstallDelivers(c, Fetched(d, i, o), o, older, newer, Signature(d, i, o), Size(d, i, o));
    ArrivedDefined(c, d, i, o);
  }

  /** And it boots: validation passes, without a signature check or with a good signature. */
  lemma DeliveredValidates(c: Config, e: Device, n: nat, newer: seq<byte>, signature: Option<string>)
    requires Delivered(c, e, n, newer, signature)
    ensures Validate(c.checks, e.store) == Outcome(e.store, None) <==>
      (c.checks.mode.InstallOnly? || c.checks.key.None? ||
       (signature.Some? && c.checks.signed(c.checks.hash(newer), signature.value, c.checks.key.value) == Some(true)))
  {
  }

  /** The whole way: the encoder makes the patch, the updater fetches and applies it. */
  method ShipAndUpdate(u: Updater.Updater, older: seq<byte>, newer: seq<byte>, o: Offer, rolledBack: Option<seq<nat>>,
                       announced: bool, freshId: string) returns (answer: Option<Answer>)
    requires |older| < TWO63 && |newer| < TWO63 && Inverse(u.config.zstd) && o.hash == u.config.checks.hash(newer)
    requires Wanted(u.Current(freshId), Response(rolledBack, true, Some(o)), o.number)
    requires !Held(u.Current(freshId), Response(rolledBack, true, Some(o)), o)
    modifies u.disk
    ensures answer.Some? ==> answer == Some(Returned(UpdateInstalled))
    ensures answer.Some? ==> Delivered(u.config, u.Current(freshId), o.number, newer, o.signature)
    ensures answer.None? ==> unchanged(u.disk)
    ensures (forall body :: u.config.zstd.compress(body).Some?) ==> answer.Some?
  {
    hide Wanted, Held, Delivered, InflatesTo, ShortVarints, Rolled, ReadState;
    var made := MakePatch.MakePatch(u.config.zstd, older, newer);
    if made.None? {
      return None;
    }
    var patch := made.value;
    var length := if announced then Some(|patch|) else None;
    var inputs := Inputs(Response(rolledBack, true, Some(o)), (url, offset) => DownloadDone(patch, |patch|, length),
                         Opened(older));
    UpdateDelivers(u.config, u.Current(freshId), inputs, o.number, older, newer);
    var got := u.Update(inputs, freshId);
    answer := Some(got);
  }
}
