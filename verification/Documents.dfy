/** Which documents stand for which state: those that agree with the one that is written, where
    optional fields may be null or absent, and anything else may be there besides. */
module Documents {
  import opened Bytes
  import opened Lifecycle
  import opened LifecycleJson

  /** The document has the fields that were written; those that are null may be absent. */
  predicate Agrees(j: Json, written: Json) {
    && j.JObject? && written.JObject?
    && forall k :: k in written.fields ==>
         if written.fields[k].JNull? then k !in j.fields || j.fields[k].JNull?
         else k in j.fields && j.fields[k] == written.fields[k]
  }

  predicate Has(j: Json, k: string, v: Json) {
    j.JObject? && (if v.JNull? then k !in j.fields || j.fields[k].JNull? else k in j.fields && j.fields[k] == v)
  }

  lemma HasString(j: Json, k: string, o: Option<string>)
    requires j.JObject?
    ensures OptString(j, k) == Some(o) <==> Has(j, k, StringOrNull(o))
    ensures o.Some? ==> (GetString(At(j, k)) == o <==> Has(j, k, JString(o.value)))
  {
  }

  lemma HasNumber(j: Json, k: string, o: Option<nat>)
    requires j.JObject?
    ensures OptNumber(j, k) == Some(o) <==> Has(j, k, NumberOrNull(o))
    ensures o.Some? ==> (GetNumber(At(j, k)) == o <==> Has(j, k, JNumber(o.value)))
  {
  }

  // -- Patch states -----------------------------------------------------------------------------

  lemma DownloadingAgrees(j: Json, url: string, hash: string, sig: Option<string>)
    requires j.JObject?
    ensures Agrees(j, StateToJson(Downloading(url, hash, sig))) <==>
      Has(j, "kind", JString("Downloading")) && Has(j, "url", JString(url)) && Has(j, "hash", JString(hash)) &&
      Has(j, "signature", StringOrNull(sig))
  {
    hide StringOrNull;
    KeysDiffer();
    var w := StateToJson(Downloading(url, hash, sig)).fields;
    assert w["kind"] == JString("Downloading") && w["url"] == JString(url) && w["hash"] == JString(hash);
    assert w["signature"] == StringOrNull(sig);
  }

  lemma DownloadedAgrees(j: Json, url: string, hash: string, sig: Option<string>, size: nat)
    requires j.JObject?
    ensures Agrees(j, StateToJson(Downloaded(url, hash, sig, size))) <==>
      Has(j, "kind", JString("Downloaded")) && Has(j, "url", JString(url)) && Has(j, "hash", JString(hash)) &&
      Has(j, "signature", StringOrNull(sig)) && Has(j, "size", JNumber(size))
  {
    hide StringOrNull;
    KeysDiffer();
    var w := StateToJson(Downloaded(url, hash, sig, size)).fields;
    assert w["kind"] == JString("Downloaded") && w["url"] == JString(url) && w["hash"] == JString(hash);
    assert w["signature"] == StringOrNull(sig) && w["size"] == JNumber(size);
  }

  lemma InstalledAgrees(j: Json, sig: Option<string>, size: nat)
    requires j.JObject?
    ensures Agrees(j, StateToJson(Installed(sig, size))) <==>
      Has(j, "kind", JString("Installed")) && Has(j, "signature", StringOrNull(sig)) && Has(j, "size", JNumber(size))
  {
    hide StringOrNull;
    KeysDiffer();
    var w := StateToJson(Installed(sig, size)).fields;
    assert w["kind"] == JString("Installed") && w["signature"] == StringOrNull(sig) && w["size"] == JNumber(size);
  }

  lemma BadAgrees(j: Json, reason: BadReason, hash: Option<string>, sig: Option<string>, size: Option<nat>)
    requires j.JObject?
    ensures Agrees(j, StateToJson(Bad(reason, hash, sig, size))) <==>
      Has(j, "kind", JString("Bad")) && Has(j, "reason", JString(ReasonToString(reason))) &&
      Has(j, "hash", StringOrNull(hash)) && Has(j, "signature", StringOrNull(sig)) &&
      Has(j, "size", NumberOrNull(size))
  {
    hide StringOrNull, NumberOrNull, ReasonToString;
    KeysDiffer();
    var w := StateToJson(Bad(reason, hash, sig, size)).fields;
    assert w["kind"] == JString("Bad") && w["reason"] == JString(ReasonToString(reason));
    assert w["hash"] == StringOrNull(hash) && w["signature"] == StringOrNull(sig) && w["size"] == NumberOrNull(size);
  }

  lemma KeysDiffer()
    ensures "kind" !in {"url", "hash", "signature", "size", "reason"}
    ensures "url" !in {"hash", "signature", "size", "reason"} && "hash" !in {"signature", "size", "reason"}
    ensures "signature" !in {"size", "reason"} && "size" != "reason"
  {
    assert |"kind"| == 4 && |"url"| == 3 && |"hash"| == 4 && |"signature"| == 9 && |"size"| == 4 && |"reason"| == 6;
    assert "kind"[0] == 'k' && "hash"[0] == 'h' && "size"[0] == 's';
  }

  lemma ReasonExactly(s: string, r: BadReason)
    ensures ReasonFromString(s) == Some(r) <==> s == ReasonToString(r)
  {
    ReasonRoundTrip(r);
  }

  /** A document reads as a state exactly if it agrees with what is written for that state. */
  lemma StateReadExactly(j: Json, p: PatchState)
    requires j.JObject?
    ensures StateFromJson(j) == Some(p) <==> Agrees(j, StateToJson(p))
  {
    hide Has, OptString, OptNumber, GetString, GetNumber, At, Agrees, StateToJson, StringOrNull, NumberOrNull,
      ReasonToString, ReasonFromString;
    KindsDiffer();
    match p
    case Downloading(url, hash, sig) =>
      DownloadingAgrees(j, url, hash, sig);
      HasString(j, "kind", Some("Downloading"));
      HasString(j, "url", Some(url));
      HasString(j, "hash", Some(hash));
      HasString(j, "signature", sig);
    case Downloaded(url, hash, sig, size) =>
      DownloadedAgrees(j, url, hash, sig, size);
      HasString(j, "kind", Some("Downloaded"));
      HasString(j, "url", Some(url));
      HasString(j, "hash", Some(hash));
      HasString(j, "signature", sig);
      HasNumber(j, "size", Some(size));
    case Installed(sig, size) =>
      InstalledAgrees(j, sig, size);
      HasString(j, "kind", Some("Installed"));
      HasString(j, "signature", sig);
      HasNumber(j, "size", Some(size));
    case Bad(reason, hash, sig, size) =>
      BadAgrees(j, reason, hash, sig, size);
      HasString(j, "kind", Some("Bad"));
      HasString(j, "reason", Some(ReasonToString(reason)));
      if GetString(At(j, "reason")).Some? {
        ReasonExactly(GetString(At(j, "reason")).value, reason);
      }
      HasString(j, "hash", hash);
      HasString(j, "signature", sig);
      HasNumber(j, "size", size);
  }

  // -- Pointers -----------------------------------------------------------------------------------

  lemma PointerKeysDiffer()
    ensures "next_boot_patch" !in {"last_booted_patch", "currently_booting_patch", "boot_started_at"}
    ensures "last_booted_patch" !in {"currently_booting_patch", "boot_started_at"}
    ensures "currently_booting_patch" != "boot_started_at"
  {
    assert |"next_boot_patch"| == 15 && |"last_booted_patch"| == 17 && |"currently_booting_patch"| == 23;
    assert "boot_started_at"[0] == 'b' && "next_boot_patch"[0] == 'n' && |"boot_started_at"| == 15;
  }

  lemma PointersReadExactly(j: Json, p: Pointers)
    requires j.JObject?
    ensures PointersFromJson(j) == Some(p) <==> Agrees(j, PointersToJson(p))
  {
    hide NumberOrNull, OptNumber;
    PointerKeysDiffer();
    HasNumber(j, "next_boot_patch", p.next);
    HasNumber(j, "last_booted_patch", p.last);
    HasNumber(j, "currently_booting_patch", p.booting);
    HasNumber(j, "boot_started_at", p.startedAt);
    var w := PointersToJson(p).fields;
    assert w["next_boot_patch"] == NumberOrNull(p.next) && w["last_booted_patch"] == NumberOrNull(p.last);
    assert w["currently_booting_patch"] == NumberOrNull(p.booting);
    assert w["boot_started_at"] == NumberOrNull(p.startedAt);
  }

  // -- Events ---------------------------------------------------------------------------------------

  lemma WireExactly(s: string, t: EventType)
    ensures FromWire(s) == Some(t) <==> s == WireString(t)
  {
    WireRoundTrip(t);
  }

  lemma EventAgrees(j: Json, e: Event)
    requires j.JObject?
    ensures Agrees(j, EventToJson(e)) <==>
      && Has(j, "app_id", JString(e.appId)) && Has(j, "arch", JString(e.arch))
      && Has(j, "client_id", JString(e.clientId)) && Has(j, "type", JString(WireString(e.kind)))
      && Has(j, "patch_number", JNumber(e.patch)) && Has(j, "platform", JString(e.platform))
      && Has(j, "release_version", JString(e.release)) && Has(j, "timestamp", JNumber(e.timestamp))
      && Has(j, "message", StringOrNull(e.message))
  {
    hide EventToJson, WireString, StringOrNull, Has, Agrees;
    EventFields(e);
    EventKeys(e);
    var w := EventToJson(e);
    AgreesIs(j, w);
    assert At(w, "app_id") == Some(w.fields["app_id"]) && At(w, "arch") == Some(w.fields["arch"]);
    assert At(w, "client_id") == Some(w.fields["client_id"]) && At(w, "type") == Some(w.fields["type"]);
    assert At(w, "patch_number") == Some(w.fields["patch_number"]);
    assert At(w, "platform") == Some(w.fields["platform"]) && At(w, "message") == Some(w.fields["message"]);
    assert At(w, "release_version") == Some(w.fields["release_version"]);
    assert At(w, "timestamp") == Some(w.fields["timestamp"]);
  }

  lemma EventKeys(e: Event)
    ensures EventToJson(e).JObject?
    ensures EventToJson(e).fields.Keys ==
      {"app_id", "arch", "client_id", "type", "patch_number", "platform", "release_version", "timestamp", "message"}
  {
    hide WireString, StringOrNull;
  }

  lemma AgreesIs(j: Json, w: Json)
    requires j.JObject? && w.JObject?
    ensures Agrees(j, w) <==> forall k :: k in w.fields ==> Has(j, k, w.fields[k])
  {
  }

  /** And as an event of the queue. */
  lemma EventReadExactly(j: Json, e: Event)
    requires j.JObject?
    ensures EventFromJson(j) == Some(e) <==> Agrees(j, EventToJson(e))
  {
    hide Has, OptString, GetString, GetNumber, At, Agrees, EventToJson, StringOrNull, WireString, FromWire;
    EventAgrees(j, e);
    HasString(j, "app_id", Some(e.appId));
    HasString(j, "arch", Some(e.arch));
    HasString(j, "client_id", Some(e.clientId));
    HasString(j, "type", Some(WireString(e.kind)));
    if GetString(At(j, "type")).Some? {
      WireExactly(GetString(At(j, "type")).value, e.kind);
    }
    HasNumber(j, "patch_number", Some(e.patch));
    HasString(j, "platform", Some(e.platform));
    HasString(j, "release_version", Some(e.release));
    HasNumber(j, "timestamp", Some(e.timestamp));
    HasString(j, "message", e.message);
  }
}
