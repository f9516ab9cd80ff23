/** The documents the lifecycle keeps on disk, and that each survives being
    written and read back. */
module LifecycleJson {
  import opened Bytes
  import opened Lifecycle

  /** A file whose text is no JSON at all stands as a document no reader accepts. */
  datatype Json =
    | JNull
    | JNumber(n: nat)
    | JString(s: string)
    | JArray(items: seq<Json>)
    | JObject(fields: map<string, Json>)

  /** `j.at(key)`: none where it throws. */
  function At(j: Json, key: string): Option<Json> {
    if j.JObject? && key in j.fields then Some(j.fields[key]) else None
  }

  function GetString(j: Option<Json>): Option<string> {
    if j.Some? && j.value.JString? then Some(j.value.s) else None
  }

  function GetNumber(j: Option<Json>): Option<nat> {
    if j.Some? && j.value.JNumber? then Some(j.value.n) else None
  }

  /** A field that may be absent or null; none where reading it throws. */
  function OptString(j: Json, key: string): Option<Option<string>> {
    var f := At(j, key);
    if f.None? || f.value.JNull? then Some(None)
    else if f.value.JString? then Some(Some(f.value.s)) else None
  }

  function OptNumber(j: Json, key: string): Option<Option<nat>> {
    var f := At(j, key);
    if f.None? || f.value.JNull? then Some(None)
    else if f.value.JNumber? then Some(Some(f.value.n)) else None
  }

  function StringOrNull(o: Option<string>): Json {
    if o.Some? then JString(o.value) else JNull
  }

  function NumberOrNull(o: Option<nat>): Json {
    if o.Some? then JNumber(o.value) else JNull
  }

  function ReasonToString(r: BadReason): string {
    match r
    case BootCrash => "BootCrash"
    case InvalidPatchBytes => "InvalidPatchBytes"
    case InstallHashMismatch => "InstallHashMismatch"
    case ValidationFailed => "ValidationFailed"
  }

  function ReasonFromString(s: string): Option<BadReason> {
    if s == "BootCrash" then Some(BootCrash)
    else if s == "InvalidPatchBytes" then Some(InvalidPatchBytes)
    else if s == "InstallHashMismatch" then Some(InstallHashMismatch)
    else if s == "ValidationFailed" then Some(ValidationFailed)
    else None
  }

  function StateToJson(p: PatchState): Json {
    match p
    case Downloading(url, hash, sig) =>
      JObject(map["kind" := JString("Downloading"), "url" := JString(url), "hash" := JString(hash),
                  "signature" := StringOrNull(sig)])
    case Downloaded(url, hash, sig, size) =>
      JObject(map["kind" := JString("Downloaded"), "url" := JString(url), "hash" := JString(hash),
                  "signature" := StringOrNull(sig), "size" := JNumber(size)])
    case Installed(sig, size) =>
      JObject(map["kind" := JString("Installed"), "signature" := StringOrNull(sig), "size" := JNumber(size)])
    case Bad(reason, hash, sig, size) =>
      JObject(map["kind" := JString("Bad"), "reason" := JString(ReasonToString(reason)), "hash" := StringOrNull(hash),
                  "signature" := StringOrNull(sig), "size" := NumberOrNull(size)])
  }

  function StateFromJson(j: Json): Option<PatchState> {
    var kind := GetString(At(j, "kind"));
    var url, hash := GetString(At(j, "url")), GetString(At(j, "hash"));
    var sig, size := OptString(j, "signature"), GetNumber(At(j, "size"));
    if kind == Some("Downloading") then
      if url.Some? && hash.Some? && sig.Some? then Some(Downloading(url.value, hash.value, sig.value)) else None
    else if kind == Some("Downloaded") then
      if url.Some? && hash.Some? && sig.Some? && size.Some? then
        Some(Downloaded(url.value, hash.value, sig.value, size.value))
      else None
    else if kind == Some("Installed") then
      if sig.Some? && size.Some? then Some(Installed(sig.value, size.value)) else None
    else if kind == Some("Bad") then BadFromJson(j, sig)
    else None
  }

  function BadFromJson(j: Json, sig: Option<Option<string>>): Option<PatchState> {
    var name := GetString(At(j, "reason"));
    var reason := if name.Some? then ReasonFromString(name.value) else None;
    var hash, size := OptString(j, "hash"), OptNumber(j, "size");
    if reason.Some? && hash.Some? && sig.Some? && size.Some? then
      Some(Bad(reason.value, hash.value, sig.value, size.value))
    else None
  }

  lemma ReasonRoundTrip(r: BadReason)
    ensures ReasonFromString(ReasonToString(r)) == Some(r)
  {
    assert |"BootCrash"| == 9 && |"InvalidPatchBytes"| == 17 && |"InstallHashMismatch"| == 19 &&
      |"ValidationFailed"| == 16;
  }

  /** The tags are told apart by their first letter and their length. */
  lemma KindsDiffer()
    ensures "Downloading" != "Downloaded" && "Downloading" != "Installed" && "Downloaded" != "Installed"
    ensures "Bad" != "Downloading" && "Bad" != "Downloaded" && "Bad" != "Installed"
  {
    assert |"Downloading"| == 11 && |"Downloaded"| == 10 && |"Installed"| == 9 && |"Bad"| == 3;
  }

  /** A patch state survives its state.json. */
  lemma StateRoundTrip(p: PatchState)
    ensures StateFromJson(StateToJson(p)) == Some(p)
  {
    if p.Bad? {
      BadRoundTrip(p);
    } else {
      hide ReasonToString, BadFromJson;
      KindsDiffer();
    }
  }

  lemma BadRoundTrip(p: PatchState)
    requires p.Bad?
    ensures StateFromJson(StateToJson(p)) == Some(p)
  {
    hide ReasonToString, ReasonFromString;
    KindsDiffer();
    ReasonRoundTrip(p.reason);
    var j := StateToJson(p);
    assert At(j, "kind") == Some(JString("Bad"));
  }

  function PointersToJson(p: Pointers): Json {
    JObject(map["next_boot_patch" := NumberOrNull(p.next), "last_booted_patch" := NumberOrNull(p.last),
                "currently_booting_patch" := NumberOrNull(p.booting), "boot_started_at" := NumberOrNull(p.startedAt)])
  }

  function PointersFromJson(j: Json): Option<Pointers> {
    var next, last := OptNumber(j, "next_boot_patch"), OptNumber(j, "last_booted_patch");
    var booting, started := OptNumber(j, "currently_booting_patch"), OptNumber(j, "boot_started_at");
    if next.Some? && last.Some? && booting.Some? && started.Some? then
      Some(Pointers(next.value, last.value, booting.value, started.value))
    else None
  }

  lemma PointersRoundTrip(p: Pointers)
    ensures PointersFromJson(PointersToJson(p)) == Some(p)
  {
    var f := PointersToJson(p).fields;
    assert |"next_boot_patch"| == 15 && |"last_booted_patch"| == 17 && |"currently_booting_patch"| == 23;
    assert "last_booted_patch" in f && "next_boot_patch" in f && "currently_booting_patch" in f &&
      "boot_started_at" in f;
    assert "boot_started_at"[0] == 'b' && "next_boot_patch"[0] == 'n';
  }

  // -- Events ------------------------------------------------------------------

  datatype EventType = InstallSuccess | InstallFailure | Download | UpdateFailure

  datatype Event = Event(
    appId: string, arch: string, clientId: string, kind: EventType, patch: nat,
    platform: string, release: string, timestamp: nat, message: Option<string>)

  function WireString(t: EventType): string {
    match t
    case InstallSuccess => "__patch_install__"
    case InstallFailure => "__patch_install_failure__"
    case Download => "__patch_download__"
    case UpdateFailure => "__patch_update_failure__"
  }

  function FromWire(s: string): Option<EventType> {
    if s == "__patch_install__" then Some(InstallSuccess)
    else if s == "__patch_install_failure__" then Some(InstallFailure)
    else if s == "__patch_download__" then Some(Download)
    else if s == "__patch_update_failure__" then Some(UpdateFailure)
    else None
  }

  function EventToJson(e: Event): Json {
    JObject(map["app_id" := JString(e.appId), "arch" := JString(e.arch), "client_id" := JString(e.clientId)] +
            map["type" := JString(WireString(e.kind)), "patch_number" := JNumber(e.patch),
                "platform" := JString(e.platform)] +
            map["release_version" := JString(e.release), "timestamp" := JNumber(e.timestamp),
                "message" := StringOrNull(e.message)])
  }

  function EventFromJson(j: Json): Option<Event> {
    var app, arch, client := GetString(At(j, "app_id")), GetString(At(j, "arch")), GetString(At(j, "client_id"));
    var name := GetString(At(j, "type"));
    var kind := if name.Some? then FromWire(name.value) else None;
    var patch, platform := GetNumber(At(j, "patch_number")), GetString(At(j, "platform"));
    var release, time := GetString(At(j, "release_version")), GetNumber(At(j, "timestamp"));
    var message := OptString(j, "message");
    if app.Some? && arch.Some? && client.Some? && kind.Some? && patch.Some? && platform.Some? && release.Some? &&
      time.Some? && message.Some? then
      Some(Event(app.value, arch.value, client.value, kind.value, patch.value, platform.value, release.value,
                 time.value, message.value))
    else None
  }

  lemma WireRoundTrip(t: EventType)
    ensures FromWire(WireString(t)) == Some(t)
  {
    assert |"__patch_install__"| == 17 && |"__patch_install_failure__"| == 25 && |"__patch_download__"| == 18 &&
      |"__patch_update_failure__"| == 24;
  }

  lemma EventKeysDiffer()
    ensures "app_id" !in {"arch", "client_id", "type", "patch_number", "platform", "release_version", "timestamp",
                          "message"}
    ensures "arch" !in {"client_id", "type", "patch_number", "platform", "release_version", "timestamp", "message"}
    ensures "client_id" !in {"type", "patch_number", "platform", "release_version", "timestamp", "message"}
    ensures "type" !in {"patch_number", "platform", "release_version", "timestamp", "message"}
    ensures "patch_number" !in {"platform", "release_version", "timestamp", "message"}
    ensures "platform" !in {"release_version", "timestamp", "message"}
    ensures "release_version" !in {"timestamp", "message"} && "timestamp" != "message"
  {
    assert |"app_id"| == 6 && |"arch"| == 4 && |"client_id"| == 9 && |"type"| == 4 && |"patch_number"| == 12;
    assert |"platform"| == 8 && |"release_version"| == 15 && |"timestamp"| == 9 && |"message"| == 7;
    assert "arch"[0] == 'a' && "type"[0] == 't' && "client_id"[0] == 'c' && "timestamp"[0] == 't';
  }

  lemma EventFields(e: Event)
    ensures var j := EventToJson(e);
      && At(j, "app_id") == Some(JString(e.appId)) && At(j, "arch") == Some(JString(e.arch))
      && At(j, "client_id") == Some(JString(e.clientId)) && At(j, "type") == Some(JString(WireString(e.kind)))
      && At(j, "patch_number") == Some(JNumber(e.patch)) && At(j, "platform") == Some(JString(e.platform))
      && At(j, "release_version") == Some(JString(e.release)) && At(j, "timestamp") == Some(JNumber(e.timestamp))
      && At(j, "message") == Some(StringOrNull(e.message))
  {
    hide WireString, StringOrNull;
    EventKeysDiffer();
  }

  lemma EventRoundTrip(e: Event)
    ensures EventFromJson(EventToJson(e)) == Some(e)
  {
    hide WireString, FromWire, EventToJson, At;
    EventFields(e);
    WireRoundTrip(e.kind);
  }

  /** The readable events of the queue; malformed entries are skipped. */
  function EventsFromJson(items: seq<Json>): seq<Event> {
    if items == [] then []
    else
      var e := EventFromJson(items[0]);
      (if e.Some? then [e.value] else []) + EventsFromJson(items[1..])
  }

  function EventsToJson(es: seq<Event>): seq<Json> {
    if es == [] then [] else [EventToJson(es[0])] + EventsToJson(es[1..])
  }

  lemma {:induction false} EventsRoundTrip(es: seq<Event>)
    ensures EventsFromJson(EventsToJson(es)) == es
  {
    if es != [] {
      EventRoundTrip(es[0]);
      EventsRoundTrip(es[1..]);
      assert EventsToJson(es)[1..] == EventsToJson(es[1..]);
    }
  }

  /** The top-level state.json. */
  datatype Profile = Profile(clientId: string, release: string, queue: seq<Event>)

  function ProfileToJson(p: Profile): Json {
    JObject(map["client_id" := JString(p.clientId), "release_version" := JString(p.release),
                "queued_events" := JArray(EventsToJson(p.queue))])
  }

  function ProfileFromJson(j: Json): Option<Profile> {
    var client, release := GetString(At(j, "client_id")), GetString(At(j, "release_version"));
    var queue := At(j, "queued_events");
    if client.Some? && release.Some? then
      var events := if queue.Some? && queue.value.JArray? then EventsFromJson(queue.value.items) else [];
      Some(Profile(client.value, release.value, events))
    else None
  }

  lemma ProfileRoundTrip(p: Profile)
    ensures ProfileFromJson(ProfileToJson(p)) == Some(p)
  {
    EventsRoundTrip(p.queue);
    assert |"client_id"| == 9 && |"release_version"| == 15 && |"queued_events"| == 13;
  }
}
