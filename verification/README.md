# Verified model of the Dashpod patch system

Dashpod ships a new version of an app's compiled library as a binary patch: the server encodes
the difference between two byte strings, the device downloads it, rebuilds the new library from
the one in its APK, and boots it next time, falling back when a patch turns out bad. This project
models the four places where that can go wrong and proves what they are relied on for.

**The patch codec** (`Bytes`, `Varint`, `Wire`, `ReadSeek`, `Reader`, `Inflate`, `SuffixSearch`, `MakePatch`, `PatchUnique`,
`PatchLaws`).
The bsdiff encoder with its suffix array, binary search, main loop, extensions and overlap split;
the byte-at-a-time decoder; the driver that feeds it what zstd delivers. Main results: for all byte
strings, and however the decompressor cuts its output, inflating what the encoder made yields exactly
the new bytes; the decoder accepts exactly the streams of the grammar `HEADER LOOP*` plus at most an
unfinished varint; the encoder's contract (first stop, best extensions, best split) leaves not one byte
of the stream open; a match is taken exactly when it gets more than eight bytes right that the last one would get wrong,
and an extension ends where the majority of bytes no longer agrees; the search returns the longest match if and only if it was not misled by a suffix
that is a proper prefix of the query.

**The patch lifecycle** (`Lifecycle`, `LifecycleLaws`, `LifecycleJson`, `Documents`, `DiskLifecycle`, `Text`, `Runs`, `Updater`,
`UpdateLaws`, `UpdateAnswers`, `Safety`, `Provenance`, `Footprint`, `Histories`, `EndToEnd`).
`Lifecycle` says what each transition does to the persistent state; `DiskLifecycle` and `Updater` are the
objects over files on disk, proved to do exactly that, with memory and disk in agreement after every
operation, including those that throw. One `with_state` block is one atomic step. Main results, over all
runs: tombstones are permanent in sequential runs (and are lost in one interleaving, which is shown); the
next-boot pointer never names a Bad patch under any interleaving; it names an Installed patch
throughout, under any interleaving, if and only if every boot success came while no older patch was next and no download of the
next patch was started; lost
boots are detected; two validations heal any persisted state; every Installed patch holds bytes whose hash the
server announced; nothing but the next and the last-booted patch is installed, under any interleaving, if and only if the last-booted one
goes at every boot success; and an offered patch made by the encoder ends up installed byte for byte.
Apart from the transitions, each answer of an update is characterised by what the device holds, what the server says and what
the hook delivers, with the state it leaves: which file is installed, when the hook is not asked or asked for the rest of a
file, what is forgotten and what is buried, and what a tombstone says. `LifecycleLaws` says the same of each transition, patch
by patch; `Documents` which documents stand for which state.

**The DEX canonicaliser and differ** (`OpcodeTable`, `Formats`, `Canonicalizer`, `Renumbering`, `Meaning`, `Separators`, `Building`,
`Faithful`, `FaithfulPools`, `Collisions`, `SimplePools`, `DexModel`, `Annotations`, `Differ`, `Members`, `Verdict`).
The sizes and operands of the opcodes follow from the instruction formats, and what code is and means is said by the formats.
What code means is said by what its operands denote: strings, types, fields, methods, prototypes, call sites and method
handles, not their names. Main results: renumbering the constant pools changes neither text nor meaning. For any two sets of
pools, equal text means equal meaning for all code if and only if no operand's text misleads (goes on after another with a comma
and a beginning of what may follow) and what reads the same denotes the same; equal meaning means equal text if and only if
call sites and handles keep their numbers. For two given methods there are conditions that a caller can check of what they
refer to. The differ's report is safe exactly when everything but source files agrees, and over faithful pools that is: the same
structure, the same meaning of every method, the same values and annotations. Said of the lists in the file: a report is safe
exactly if every class, every direct and virtual method and every static and instance field has a partner in the other file.
What `additiveOnly` amounts to.

**The APK zip reader** (`Zip`, `ZipLayout`). Main result: for every list of entries, stored or deflated, laid out as PKWARE's
APPNOTE prescribes (sections 4.3.7, 4.3.12 and 4.3.16), opening a name yields a cursor over exactly the plain bytes of
the first entry that has it, or nothing if there is none or it is packed in another way.

Where the code and its own words differ, the model follows the code:

- The comment on `search` (updater/patch/src/make_patch.cpp:48-50) says it finds the longest match. It does not always:
  `SuffixSearch.SearchNotAlwaysLongest`. What a caller can check beforehand is that no suffix of the old bytes is a proper prefix of
  the query: `SuffixSearch.SearchLongest`. What the search does otherwise is said by `SuffixSearch.ResultCovers`: if the last upper
  probe is a proper prefix of the query, the length returned is that of the probe; if not, the match is the longest.
  `SuffixSearch.SearchLongestExactly` puts the two together.
- `additiveOnly` is documented as "the only differences are new classes/methods"
  (packages/dashpod_cli/lib/src/archive_diff/android_archive_differ.dart:11-13). Once something has been added, changed
  bytecode goes unseen: `Differ.AdditiveHidesBytecode`; exactly what it means: `Differ.AdditiveExactly`.
- The canonical text is meant to tell code apart, and does not always. A string constant that goes on after another with a comma
  and the number of a code unit can make two methods read the same (`Collisions.CanonicalCanCollide`; for which units:
  `Collisions.NumeralExactly`). Call sites and method handles are written as bare numbers, so different ones under one number
  read the same (`Collisions.CallSitesCollide`) and one under two numbers reads as two (`Collisions.CallSiteReadsTwice`). A field
  name with a dot in it can be read as part of the class name (`Collisions.FieldsCollide`). When all this is excluded, over any
  pools: `FaithfulPools.SoundExactly`, `FaithfulPools.CompleteExactly` and, together, `FaithfulPools.FaithfulExactly`; what is
  left of the first condition where names have no separators in them: `Collisions.PlainMisleadsExactly`; what a caller can check of
  two methods: `Faithful.CanonicalExactly`.
- Annotation sets are meant to be compared whatever their order. With a stable sort they are exactly if annotations of one type
  in a set are the same: `Annotations.OrderMattersExactly`.
- The patch to boot next can be deleted by a boot success: `Histories.NextCanBeDeleted`; exactly when: `Safety.SuccessBootableExactly`.
- A tombstone can be lost between the blocks of two concurrent callers: `Histories.TombstoneLostInterleaved`; exactly when an update
  that is under way loses it: `Safety.TombstoneLostExactly`.
- A patch can stay installed that is neither next nor last-booted: `Histories.OlderOfferLeavesOne`; exactly when a boot success
  leaves one: `Footprint.SuccessTwoExactly`.

- A download that was interrupted is meant to be resumed. With the built-in hook and a server that serves ranges it never is: the
  length taken from `Content-Range` is the whole file's and the bytes counted are those written now
  (updater/src/net/network.cpp:180-189 and 219), so what arrives counts as too short and is thrown away:
  `UpdateAnswers.ResumedIsDropped`. The update after that one begins anew.

Parameters of the model: zstd, assumed only to be inverse (`Inflate.Inverse`); the file hash and the signature check; raw inflate, assumed
only to give a deflated text back when asked for its plain length (`ZipLayout.Inflates`); the answers of the server; the download hook, as
a function of url and offset; the base snapshot; the clock and the client id; the sort of
annotations, assumed only to sort by type, and where it says so to be stable; the DEX section parser.

## Model

| member | source | states |
|---|---|---|
| Varint.EmitUvarint | updater/patch/src/make_patch.cpp:84-90 | appends the LEB128 spelling of a number |
| Varint.UVarintShortest | updater/patch/src/make_patch.cpp:84-90 | no varint with the same value has fewer bytes than the one emitted |
| Varint.EmitSvarint | updater/patch/src/make_patch.cpp:92-96 | appends the spelling of the zigzag image of a signed 64-bit number |
| Varint.UVarintRoundTrip | updater/patch/src/make_patch.cpp:84-90 | what is emitted for any 64-bit number is one complete varint of at most ten bytes with that value |
| Varint.ZigZagRoundTrip | updater/src/core/inflate.cpp:98-99 | undoing zigzag gives back every signed 64-bit number |
| Varint.AccumulateValue | updater/src/core/inflate.cpp:143-144 | or-ing seven bits at a time into a 64-bit word computes the value of the bytes, up to the tenth |
| ReadSeek.MemReadSeek.Read | updater/src/platform/android.cpp:269-275 | returns the bytes at the cursor, short only at the end, and moves past them |
| ReadSeek.MemReadSeek.Seek | updater/src/platform/android.cpp:277-288 | moves within [0, size], or answers -1 and stays |
| Reader.RunConcat | updater/src/core/inflate.cpp:118-173 | reading two strings one after the other is reading their concatenation |
| Reader.ChunkingIrrelevant | updater/src/core/inflate.cpp:118-173 | however a stream is cut into chunks, the reader ends in the same state with the same output |
| Reader.LoopRun | updater/src/core/inflate.cpp:75-181 | reading one well-formed control entry applies it to output and base cursor, or fails where it does not apply |
| Reader.DecodesIsAccepted | updater/src/core/inflate.cpp:118-181 | every stream of the grammar that applies to the base is accepted, with the output it decodes to |
| Reader.AcceptsExactly | updater/src/core/inflate.cpp:118-181 | the final state accepts if and only if the stream is the header, complete control entries that apply, and at most an unfinished add length; the output is then the only one it decodes to |
| Reader.ChunkedAcceptsExactly | updater/src/core/inflate.cpp:118-181 | the same, both ways, for any way of cutting the stream |
| Inflate.BipatchReader.AddByte | updater/src/core/inflate.cpp:64-72 | writes base byte plus difference modulo 256 and moves the base cursor, or fails at the end of the base without writing |
| Inflate.BipatchReader.OnVarint | updater/src/core/inflate.cpp:75-111 | takes the step of the state machine for a finished varint, seeking the base for the third of them |
| Inflate.BipatchReader.HeaderByte | updater/src/core/inflate.cpp:122-140 | collects eight header bytes and rejects a wrong magic number or version |
| Inflate.BipatchReader.FeedByte | updater/src/core/inflate.cpp:119-171 | one byte moves the whole object as one step of the state machine does |
| Inflate.BipatchReader.Feed | updater/src/core/inflate.cpp:118-173 | a chunk moves the whole object as a run of the state machine does, and reports an error exactly if it met one |
| Inflate.BipatchReader.Finalize | updater/src/core/inflate.cpp:178-181 | answers whether the stream may end here |
| Inflate.InflatePatch | updater/src/core/inflate.cpp:186-271 | success, and the contents of the output file on success and failure, for every delivery of the decompressor |
| Inflate.InflatesExactly | updater/src/core/inflate.cpp:186-271 | inflating succeeds if and only if the file is a frame that decompresses to a stream that decodes; the output file then holds what it decodes to |
| SuffixSearch.SuffixLessIsLess | updater/patch/src/make_patch.cpp:28-35 | the comparator is lexicographic order and tells any two suffixes apart |
| SuffixSearch.SuffixOrder | updater/patch/src/make_patch.cpp:28-35 | the comparator is a strict total order on suffixes |
| SuffixSearch.BuildSuffixArray | updater/patch/src/make_patch.cpp:25-37 | every position once, in the order of the suffixes |
| SuffixSearch.MatchLen | updater/patch/src/make_patch.cpp:40-46 | the length of the longest common prefix |
| SuffixSearch.Search | updater/patch/src/make_patch.cpp:51-78 | the bisection's answer: a position in range and the exact common prefix length there |
| SuffixSearch.ResultCovers | updater/patch/src/make_patch.cpp:56-77 | where the last upper probe is a proper prefix of the query, its length is what is returned; everywhere else the match is the longest over all suffixes |
| SuffixSearch.SearchLongestExactly | updater/patch/src/make_patch.cpp:48-78 | so the match is the longest if and only if the last upper probe is not a proper prefix of the query that occurs elsewhere with the query's next byte |
| SuffixSearch.SearchLongest | updater/patch/src/make_patch.cpp:51-78 | the condition a caller can check: the match is the longest when no suffix of the old bytes is a proper prefix of the query |
| SuffixSearch.SearchNotAlwaysLongest | updater/patch/src/make_patch.cpp:48-78 | an old and a query string for which a longer match exists than is returned |
| SuffixSearch.SearchEmptyExactly | updater/patch/src/make_patch.cpp:51-78 | the match is empty if and only if the query's first byte is nowhere in the old bytes |
| MakePatch.ForwardExtend | updater/patch/src/make_patch.cpp:210-218 | the first length with the highest score, twice the matches minus the length |
| MakePatch.BackwardExtend | updater/patch/src/make_patch.cpp:221-229 | the same backward from the found match |
| MakePatch.SplitOverlap | updater/patch/src/make_patch.cpp:233-245 | the first split of the overlap that matches the most bytes over all splits |
| MakePatch.Extents | updater/patch/src/make_patch.cpp:207-247 | best extensions parted at the best split: both lengths stay non-negative, in range and do not overlap |
| MakePatch.NextMatch | updater/patch/src/make_patch.cpp:179-205 | stops at the first place whose match equals a non-zero diagonal score or beats it by more than eight, or at the end; the running score is at every test the number of hits on the last diagonal |
| MakePatch.EmitLoop | updater/patch/src/make_patch.cpp:99-115 | appends one control entry with the wrapped differences, the copied bytes and the seek |
| MakePatch.AddDiff | updater/patch/src/make_patch.cpp:106-109 | adding the wrapped differences back onto the old bytes gives the new ones |
| MakePatch.LoopRebuilds | updater/patch/src/make_patch.cpp:249-261 | the entry emitted for a finished match takes the output from one scan position to the next and the base cursor with it, so every seek lands within the base |
| MakePatch.EmitPending | updater/patch/src/make_patch.cpp:207-261 | ends a match by its best extents and keeps the invariant: output so far is the new data up to the last scan, base cursor at the last position |
| MakePatch.Verbatim | updater/patch/src/make_patch.cpp:158-166 | with an empty base, one copy span of the whole new data |
| MakePatch.MainLoop | updater/patch/src/make_patch.cpp:168-263 | terminates, reads in range, and writes the control entries of the turns it takes, which rebuild the new data |
| MakePatch.PatchStream | updater/patch/src/make_patch.cpp:134-266 | the stream of the two byte strings: it is the one the rules prescribe, its add and copy spans tile the new data, and it decodes to it |
| MakePatch.ApplyLength | updater/patch/src/make_patch.cpp:249-258 | applied entries write as many bytes as their add and copy spans sum to |
| MakePatch.MakePatch | updater/patch/src/make_patch.cpp:134-266 | the compressed stream, or none where the compressor fails; it inflates over the old bytes to the new ones |
| MakePatch.PatchThenInflate | updater/patch/src/make_patch.cpp:134-266 | the round trip for all byte strings: inflating a patch that was made succeeds and the output file holds exactly the new bytes |
| PatchUnique.SuffixArrayUnique | updater/patch/src/make_patch.cpp:25-37 | there is one suffix array, so the choice of sort does not matter |
| PatchUnique.ExtendedUnique | updater/patch/src/make_patch.cpp:207-247 | there is one way to part the best extensions |
| PatchUnique.StreamUnique | updater/patch/src/make_patch.cpp:134-266 | two streams that satisfy the encoder's contract for the same inputs are equal byte for byte |
| PatchLaws.TakenPays | updater/patch/src/make_patch.cpp:179-207 | a control entry is begun before the end of the data only for a match longer by more than eight bytes than all the hits of the last diagonal, up to where any match of the search reaches |
| PatchLaws.PassedOver | updater/patch/src/make_patch.cpp:179-207 | no place passed over has such a match, nor one of exactly as many bytes as the diagonal hits; at such a one the turn ends without an entry |
| PatchLaws.ForwardMajority | updater/patch/src/make_patch.cpp:210-218 | a forward extension is the best if and only if more than half of any last bytes of it agree and never more than half of those that come next |
| PatchLaws.BackwardMajority | updater/patch/src/make_patch.cpp:221-229 | the same of a backward extension |
| LifecycleJson.StateRoundTrip | updater/src/cache/lifecycle.cpp:54-136 | every patch state survives its state.json |
| LifecycleJson.PointersRoundTrip | updater/src/cache/lifecycle.cpp:138-164 | the release pointers survive pointers.json |
| LifecycleJson.WireRoundTrip | updater/src/net/events.cpp:7-23 | every event type survives its wire string |
| LifecycleJson.EventRoundTrip | updater/src/net/events.cpp:25-60 | every event survives its document |
| LifecycleJson.EventsRoundTrip | updater/src/cache/updater_state.cpp:125-150 | the queue survives being written and read, in order |
| LifecycleJson.ProfileRoundTrip | updater/src/cache/updater_state.cpp:141-151 | client id, release and queue survive the top-level state.json |
| Documents.StateReadExactly | updater/src/cache/lifecycle.cpp:54-136 | a document reads as a patch state if and only if it has the fields that are written for it; those that are null may be absent, others may be there |
| Documents.PointersReadExactly | updater/src/cache/lifecycle.cpp:138-164 | the same of the pointers |
| Documents.EventReadExactly | updater/src/net/events.cpp:25-60 | the same of a queued event |
| LifecycleLaws.RollbackRemoves | updater/src/cache/updater_state.cpp:203-206 | rolling back takes the files and the state of every listed patch, but not a tombstone, and nothing of any other; the running boot is left alone |
| LifecycleLaws.RollbackRepoints | updater/src/cache/lifecycle.cpp:346-376 | afterwards the last-booted patch is forgotten if it is unknown, and next is what it was if still Installed, else the last-booted patch if that is, else none |
| LifecycleLaws.SuccessExactly | updater/src/cache/lifecycle.cpp:477-545 | a boot success, patch by patch: the booting one is last-booted, next is what it was, older ones go but for tombstones, and of the others any download not in flight |
| LifecycleLaws.InstallExactly | updater/src/cache/lifecycle.cpp:301-344 | installing, patch by patch: the download goes, the patch is next, and the one before it goes unless it is the last that booted |
| LifecycleLaws.StartExactly | updater/src/cache/lifecycle.cpp:459-475 | a launch start records the next patch and the time if it is Installed, and changes nothing else |
| LifecycleLaws.FinishExactly | updater/src/cache/lifecycle.cpp:277-299 | only a patch in flight becomes Downloaded; it keeps its url, hash and signature |
| LifecycleLaws.TombstoneSays | updater/src/cache/lifecycle.cpp:378-407 | which reason, hash, signature and size a tombstone carries, for each state that the patch was in; its files are gone |
| LifecycleLaws.FailedBootBuried | updater/src/cache/lifecycle.cpp:490-503 | a patch whose boot fails or is lost is buried as a boot crash with its signature and size |
| LifecycleLaws.ValidExactly | updater/src/cache/lifecycle.cpp:547-599 | validation passes if and only if the next patch is Installed with an artifact of the recorded size and a good signature where one is asked for; which error says what is wrong, and the tombstone then left |
| DiskLifecycle.PatchLifecycle.LoadOrDefault | updater/src/cache/lifecycle.cpp:177-192 | a reload has the pointers on disk, or none if they are unreadable |
| DiskLifecycle.PatchLifecycle.ReadState | updater/src/cache/lifecycle.cpp:218-227 | an unreadable state file counts as no state |
| DiskLifecycle.PatchLifecycle.DecideStart | updater/src/cache/lifecycle.cpp:237-267 | the plan for an offer, as `UpdateAnswers` relates it to what an update then does |
| DiskLifecycle.PatchLifecycle.RecordDownloadStarted | updater/src/cache/lifecycle.cpp:269-275 | the patch becomes Downloading, nothing else changes |
| DiskLifecycle.PatchLifecycle.RecordDownloadComplete | updater/src/cache/lifecycle.cpp:277-299 | Downloading or Downloaded becomes Downloaded with the size; any other state throws and nothing changes |
| DiskLifecycle.PatchLifecycle.RecordInstallComplete | updater/src/cache/lifecycle.cpp:301-326 | Downloaded becomes Installed and the download goes; any other state throws and nothing changes |
| DiskLifecycle.PatchLifecycle.Cleanup | updater/src/cache/lifecycle.cpp:409-457 | files go, the state goes unless it is Bad, other patches are untouched |
| DiskLifecycle.PatchLifecycle.PromoteToNextBoot | updater/src/cache/lifecycle.cpp:328-344 | an Installed patch becomes next and the one before it is cleaned up unless it booted last |
| DiskLifecycle.PatchLifecycle.RecomputeNextBoot | updater/src/cache/lifecycle.cpp:346-376 | a next pointer that is not Installed falls back to the last-booted patch if that is, else to none |
| DiskLifecycle.PatchLifecycle.MarkBad | updater/src/cache/lifecycle.cpp:378-407 | the tombstone keeps what was known of the patch; its files go |
| DiskLifecycle.PatchLifecycle.RecordBootStart | updater/src/cache/lifecycle.cpp:459-475 | booting is recorded only for the Installed next patch; otherwise it throws and nothing changes |
| DiskLifecycle.PatchLifecycle.RecordBootSuccess | updater/src/cache/lifecycle.cpp:477-488 | the booting patch becomes last-booted and everything older goes, tombstones excepted |
| DiskLifecycle.PatchLifecycle.RecordBootFailure | updater/src/cache/lifecycle.cpp:490-496 | tombstone, no booting patch, next recomputed |
| DiskLifecycle.PatchLifecycle.DetectBootCrashOnInit | updater/src/cache/lifecycle.cpp:498-503 | a booting patch left over is treated as a boot failure and named |
| DiskLifecycle.PatchLifecycle.CleanupOlderThan | updater/src/cache/lifecycle.cpp:505-521 | going through the directories one by one, in any order, removes every patch below the number but the tombstones, and the orphan downloads |
| DiskLifecycle.PatchLifecycle.CleanupOrphanDownloads | updater/src/cache/lifecycle.cpp:523-545 | exactly the downloads of patches in flight remain |
| DiskLifecycle.PatchLifecycle.ValidateInstalledPatch | updater/src/cache/lifecycle.cpp:547-584 | the first flaw found: not Installed, artifact missing, wrong size, and in strict mode with a key a missing or wrong signature |
| DiskLifecycle.PatchLifecycle.ValidateNextBootPatch | updater/src/cache/lifecycle.cpp:586-599 | a flawed next patch is tombstoned and next recomputed before the error is passed on |
| Updater.UpdaterState.Save | updater/src/cache/updater_state.cpp:141-151 | after it a reload would give this very state |
| Updater.LoadOrNewOnError | updater/src/cache/updater_state.cpp:76-139 | reload transparency: it gives what is on disk and, if that is of this release, writes nothing; otherwise everything is wiped, the client id kept if readable |
| Updater.Reload | updater/src/core/updater.cpp:25-29 | a reload between two operations gives the very state in memory and writes nothing, whatever client id a fresh state would get |
| Updater.StartReleases | updater/src/cache/updater_state.cpp:76-121 | a client keeps its id through any sequence of releases, and the first start of a release finds nothing of another |
| Updater.UpdaterState.UninstallPatch | updater/src/cache/updater_state.cpp:203-206 | cleanup and recomputation, memory and disk in agreement |
| Updater.UpdaterState.QueueEvent | updater/src/cache/updater_state.cpp:212-215 | the event is last in the queue, in memory and on disk |
| Updater.Updater.RollBackPatches | updater/src/core/updater.cpp:41-45 | uninstalls the patches in order as one atomic step |
| Updater.Updater.Update | updater/src/core/updater.cpp:72-237 | takes exactly the steps of the update trace, reloading from disk at each, and answers as it says |
| Updater.Updater.Init | updater/src/core/updater.cpp:47-70 | deals with a boot that never reported back and queues the crash report |
| Updater.Updater.CheckForDownloadableUpdate | updater/src/core/updater.cpp:286-320 | applies rollbacks and answers whether the offered patch is then neither Bad nor Installed |
| Updater.Updater.ValidateNextBootPatch | updater/src/core/updater.cpp:365-369 | one atomic validation step with its error |
| Updater.Updater.ReportLaunchStart | updater/src/core/updater.cpp:371-382 | the next patch becomes the running one and is recorded as booting, or it throws if it is not Installed |
| Updater.Updater.ReportLaunchFailure | updater/src/core/updater.cpp:384-411 | throws if nothing is booting, else tombstones the booting patch and queues the report |
| Updater.Updater.ReportLaunchSuccess | updater/src/core/updater.cpp:413-448 | records the success and reports it unless the same patch had booted before |
| Runs.DownloadTraceRuns | updater/src/core/updater.cpp:139-169 | the steps of a download lead to the state and error that each outcome of the hook calls for |
| Runs.RunBlocksConcat | updater/src/core/updater.cpp:25-29 | a run of atomic steps can be cut anywhere |
| UpdateAnswers.NothingOffered | updater/src/core/updater.cpp:112-119 | without an offer: no update, or the network error; only the rollbacks are done and the queue is cleared |
| UpdateAnswers.CheckOnlyRollsBack | updater/src/core/updater.cpp:286-320 | a check does the rollbacks and nothing else |
| UpdateAnswers.NothingBooting | updater/src/core/updater.cpp:47-70 | with nothing booting, an init and a reported failure or success change nothing |
| UpdateAnswers.BadOffered | updater/src/core/updater.cpp:122-134 | an offered patch that is Bad: the caller is told, and it stays as it was, recalled or not |
| UpdateAnswers.InstalledOffered | updater/src/core/updater.cpp:122-134 | one that is Installed and not recalled: no update, and it stays as it was |
| UpdateAnswers.HookFails | updater/src/core/updater.cpp:147-156 | the hook fails: the network error, the patch is Downloading from the offered url, with whatever the hook left of the file |
| UpdateAnswers.LengthDiffers | updater/src/core/updater.cpp:156-165 | the file is not as long as announced: the bad-response error, the file goes, and the patch is unknown, not Bad |
| UpdateAnswers.NoBase | updater/src/core/updater.cpp:174-183 | no base library: an error, and the file waits, Downloaded |
| UpdateAnswers.DoesNotInflate | updater/src/core/updater.cpp:184-191 | the file does not inflate: the bad-patch error, and a tombstone with the offered hash, the file's signature and size |
| UpdateAnswers.HashDiffers | updater/src/core/updater.cpp:192-199 | it inflates to bytes of another hash: the same with the other reason |
| UpdateAnswers.Installs | updater/src/core/updater.cpp:182-211 | otherwise the bytes are installed, to boot next, and of all other patches only the one that was next goes, unless it booted last |
| UpdateAnswers.InstallsExactly | updater/src/core/updater.cpp:72-237 | an update installs if and only if a wanted patch is offered, its file is held or arrives whole, and it inflates over the base to bytes of the offered hash |
| UpdateAnswers.FileWaits | updater/src/core/updater.cpp:136-183 | after an update without the base, one that is offered the same file installs it whatever the hook would do |
| UpdateAnswers.OtherHashFetched | updater/src/core/updater.cpp:122-156 | one that is offered another hash under the same number fetches the file anew from the beginning |
| UpdateAnswers.RestAskedFor | updater/src/core/updater.cpp:139-156 | after a hook that failed with part of the file, the next is asked for the rest, from the length of what is there |
| UpdateAnswers.ResumedIsDropped | updater/src/net/network.cpp:147-221 | with a server that serves ranges an update gets the file if and only if none of it is there already; otherwise it throws what it has away |
| Safety.InterleavedNextNotBad | updater/src/cache/lifecycle.cpp:328-407 | under any interleaving of atomic steps of any callers, next never names a Bad patch after any of them |
| Safety.StepKeepsBadExactly | updater/src/cache/lifecycle.cpp:269-275 | a step removes a tombstone if and only if it starts a download of that patch; no step changes the hash, signature or size it carries |
| Safety.CallStartsNoBad | updater/src/core/updater.cpp:123-151 | no entry point, run alone, starts a download of a Bad patch |
| Safety.TombstonesArePermanent | updater/src/cache/lifecycle.cpp:237-299 | over any sequence of entry points of a release, once Bad is always Bad, and its tombstone keeps hash, signature and size |
| Safety.BadThroughoutExactly | updater/src/cache/lifecycle.cpp:237-299 | under any interleaving a tombstone stays throughout if and only if no download of that patch is started |
| Safety.TombstoneLostExactly | updater/src/core/updater.cpp:123-151 | whatever other callers do between an update's plan and its start of the download, the start removes a tombstone if and only if one was set in between and not started over |
| Safety.SuccessBootableExactly | updater/src/cache/lifecycle.cpp:477-521 | a boot success keeps next Installed if and only if next is none or not older than the booting patch |
| Safety.StepBootableExactly | updater/src/cache/lifecycle.cpp:328-376 | a step keeps next Installed or none if and only if it is neither a boot success that is not safe nor the start of a download of the very next patch |
| Safety.InterleavedBootableExactly | updater/src/cache/lifecycle.cpp:328-521 | under any interleaving of atomic steps next is none or Installed throughout if and only if every step is of that kind |
| Safety.BootableExactly | updater/src/cache/lifecycle.cpp:328-376 | over any run of entry points next is none or Installed throughout if and only if every boot success was of that kind |
| Safety.LostBootDetected | updater/src/core/updater.cpp:47-70 | a launch start without a later report, whatever updates, checks, rollbacks and validations follow, ends at the next init with the patch Bad, its files gone, nothing booting, another or no patch next, and one entry more in the queue: an install failure of this patch, with the client, release, app, architecture, platform, time and message |
| Safety.FailureReported | updater/src/core/updater.cpp:384-411 | the same of a failure that the engine reports, told as what it is |
| Safety.CallsKeepOwner | updater/src/cache/updater_state.cpp:141-151 | no entry point changes the client id or the release |
| Safety.ValidateExactly | updater/src/cache/lifecycle.cpp:586-599 | validation returns normally, changing nothing, if and only if next is none or flawless; otherwise that patch is Bad and next moves off it |
| Safety.SelfHealing | updater/src/cache/lifecycle.cpp:346-407 | from any persisted state two validations are enough, and what failed is tombstoned |
| Safety.StaysHealthy | updater/src/cache/lifecycle.cpp:586-599 | every further validation returns normally and changes nothing |
| Provenance.StepVouched | updater/src/core/updater.cpp:72-237 | a step that installs only checked bytes and writes no file of an Installed or Bad patch keeps the invariant on artifacts |
| Provenance.UpdateChecked | updater/src/core/updater.cpp:123-211 | every step an update takes is of that kind, whatever the server, the hook and the inflater do |
| Provenance.RunVouched | updater/src/core/updater.cpp:182-211 | over any run of entry points each Installed patch holds its whole artifact with a hash the server announced for it, each Bad patch holds no files |
| Provenance.ValidationNeverFails | updater/src/cache/lifecycle.cpp:547-599 | where signatures are not checked, no validation fails in a run from a fresh install whose boot successes are safe |
| Footprint.SuccessTwoExactly | updater/src/cache/lifecycle.cpp:477-521 | a boot success leaves nothing but the next and the last-booted patch Installed if and only if the one that booted last, if Installed and not next, is no newer than the booting one |
| Footprint.StepTwoExactly | updater/src/cache/lifecycle.cpp:328-407 | every other step does, whatever it installs |
| Footprint.FootprintExactly | updater/src/cache/lifecycle.cpp:328-521 | under any interleaving of atomic steps, only the next and the last-booted patch are Installed throughout if and only if the last-booted one goes at every boot success |
| Footprint.RunTidy | updater/src/cache/lifecycle.cpp:328-521 | a server can see to it: over any run of entry points in which no offer is older than what booted last, it holds at the end, and order is kept |
| Histories.UpdateInstalls | updater/src/core/updater.cpp:72-237 | the whole store after an update that delivers an unknown patch |
| Histories.OlderOfferLeavesOne | updater/src/cache/lifecycle.cpp:505-521 | from a fresh install, for all numbers: a newer patch is delivered and boots, then an older one; the newer stays behind, Installed, with its artifact, neither next nor last-booted |
| Histories.NextCanBeDeleted | updater/src/cache/lifecycle.cpp:482-487 | from a fresh install, for all numbers: an older patch boots, a newer one is delivered, starts to boot and is recalled meanwhile; the older is next again, and the success of the newer deletes it |
| Histories.TombstoneLostInterleaved | updater/src/core/updater.cpp:123-151 | from a fresh install, for every number: a patch is recalled while booting; between the plan and the start of another caller's download its failure sets a tombstone, which the start removes |
| EndToEnd.UpdateDelivers | updater/src/core/updater.cpp:72-237 | whatever the device knows of the patch, if it is neither Bad nor Installed without being recalled: the file held for the offered url and hash, or else the one delivered whole, is installed by one update, its bytes exactly the new ones, with the signature that came with it, and is next to boot; with the file held the hook has no part in it |
| EndToEnd.DeliveredValidates | updater/src/cache/lifecycle.cpp:547-572 | a delivered patch passes validation if and only if signatures are not checked or its signature is good |
| EndToEnd.ShipAndUpdate | updater/src/core/updater.cpp:72-237 | encoder to device: the patch made for two byte strings ends up installed as the second, on every device that wants it and does not hold a file for it |
| OpcodeTable.OpcodeSize | packages/dexdiff/lib/src/parser/opcode_table.dart:51-68 | no instruction is empty or longer than five units, so the walk moves on |
| OpcodeTable.RefAtMember | packages/dexdiff/lib/src/parser/opcode_table.dart:37-42 | finds the reference at a unit if there is one and none otherwise |
| OpcodeTable.RefsFit | packages/dexdiff/lib/src/parser/opcode_table.dart:80-127 | every pool index lies within its instruction and never in the unit with the opcode |
| Formats.ReferencesExactly | packages/dexdiff/lib/src/parser/opcode_table.dart:73-127 | which units of an instruction hold which index is what follows from its format and what its mnemonic takes |
| Formats.SizesExactly | packages/dexdiff/lib/src/parser/opcode_table.dart:51-68 | and so is its size |
| Canonicalizer.ReadOperand | packages/dexdiff/lib/src/parser/dalvik_parser.dart:425-441 | one or two units spell the index, which is resolved or out of range |
| Canonicalizer.WriteInsn | packages/dexdiff/lib/src/parser/dalvik_parser.dart:415-443 | writes an instruction's words, or fails as the whole walk does |
| Canonicalizer.WritePayload | packages/dexdiff/lib/src/parser/dalvik_parser.dart:404-411 | writes a payload's units as they are |
| Canonicalizer.ReadItem | packages/dexdiff/lib/src/parser/dalvik_parser.dart:398-413 | a payload only where the opcode byte is zero and its size is not, an instruction otherwise |
| Canonicalizer.Canonicalize | packages/dexdiff/lib/src/parser/dalvik_parser.dart:386-445 | the walk terminates with the words of all items, each followed by a comma, or fails where a read is out of range |
| Renumbering.PayloadSizeOf | packages/dexdiff/lib/src/parser/dalvik_parser.dart:771-786 | the size of each kind of payload in terms of its own first units |
| Renumbering.ItemKind | packages/dexdiff/lib/src/parser/dalvik_parser.dart:398-413 | a payload starts exactly at a unit 0x100, 0x200 or 0x300; any other starts the instruction of its low byte |
| Renumbering.RenumberedItemStays | packages/dexdiff/lib/src/parser/dalvik_parser.dart:398-416 | renumbering operands never changes where instructions and payloads begin |
| Renumbering.RenumberingInvariant | packages/dexdiff/lib/src/parser/dalvik_parser.dart:386-476 | streams that differ only by renumbering pools consistently have the same text |
| Meaning.RenumberingKeepsMeaning | packages/dexdiff/lib/src/parser/dalvik_parser.dart:386-476 | and mean the same, if call sites and handles are the same: every operand denotes what it denoted |
| Meaning.AlikeMeans | packages/dexdiff/lib/src/parser/dalvik_parser.dart:447-476 | streams that read alike mean the same, where what they refer to denotes the same if it reads the same |
| Meaning.MeansAlike | packages/dexdiff/lib/src/parser/dalvik_parser.dart:447-476 | streams that mean the same read alike, where what they refer to reads the same if it denotes the same |
| Renumbering.WordsExactly | packages/dexdiff/lib/src/parser/dalvik_parser.dart:386-445 | the words are equal if and only if the streams read alike: the same items, and operands that read the same |
| Separators.SpellInjective | packages/dexdiff/lib/src/parser/dalvik_parser.dart:407-441 | words with commas only inside parentheses can be read back from the text |
| Building.TailWords | packages/dexdiff/lib/src/parser/dalvik_parser.dart:397-444 | the words from a unit on depend on the units from there on and nothing else |
| Faithful.TextCut | packages/dexdiff/lib/src/parser/dalvik_parser.dart:386-476 | streams with equal text read alike, or an operand that the walk comes to in both reads differently but the same with what follows it |
| Faithful.TextExactly | packages/dexdiff/lib/src/parser/dalvik_parser.dart:386-476 | for any two methods, equal text if and only if they read alike, if no operand of one goes on after one of the other in the same pool with a comma and a number below 65536 |
| Faithful.CanonicalExactly | packages/dexdiff/lib/src/parser/dalvik_parser.dart:386-476 | and then equal text says that they mean the same where what they refer to is told apart by its text, and unequal text that they do not where it is not told apart needlessly |
| Faithful.PlainNoneMistakable | packages/dexdiff/lib/src/parser/dalvik_parser.dart:447-476 | the condition holds if names have no commas or parentheses and no string that is loaded has a number below 65536 after a comma |
| FaithfulPools.SoundExactly | packages/dexdiff/lib/src/parser/dalvik_parser.dart:386-476 | for any two sets of pools: equal text means equal meaning for all code if and only if neither set misleads and what reads the same denotes the same |
| FaithfulPools.CompleteExactly | packages/dexdiff/lib/src/parser/dalvik_parser.dart:471-474 | for any two sets of pools: equal meaning means equal text for all code if and only if no call site or handle has another number |
| FaithfulPools.FaithfulExactly | packages/dexdiff/lib/src/parser/dalvik_parser.dart:386-476 | for any two sets of pools: text is equal exactly where meaning is, for all code, if and only if all of these hold |
| Collisions.PlainMisleadsExactly | packages/dexdiff/lib/src/parser/dalvik_parser.dart:447-476 | where names have no commas or parentheses, pools mislead if and only if a string of one is a string of the other, a comma and a beginning of a text that goes on with a text |
| Collisions.NumeralExactly | packages/dexdiff/lib/src/parser/dalvik_parser.dart:415-443 | over any pools, some text is the number of a code unit, a comma and another text, if and only if that unit's opcode takes no pool operand |
| Collisions.CanonicalCanCollide | packages/dexdiff/lib/src/parser/dalvik_parser.dart:447-458 | for every string and every unit whose opcode takes no pool operand: loading the string, the unit and zeros reads the same as loading the string that goes on with the number, and the zeros |
| Collisions.CallSitesCollide | packages/dexdiff/lib/src/parser/dalvik_parser.dart:471-474 | any two different call sites under one number have the same text |
| Collisions.FieldsCollide | packages/dexdiff/lib/src/parser/dalvik_parser.dart:461-463 | a field whose name has a dot in it has the text of the field of a class whose name ends there |
| Collisions.CallSiteReadsTwice | packages/dexdiff/lib/src/parser/dalvik_parser.dart:471-474 | one call site under two numbers has two texts |
| SimplePools.FieldTextExactly | packages/dexdiff/lib/src/parser/dalvik_parser.dart:461-463 | where names have none of the separators, two fields read the same if and only if class, name and type are the same |
| SimplePools.MethodTextExactly | packages/dexdiff/lib/src/parser/dalvik_parser.dart:464-467 | two methods if and only if class, name, parameters and return type are |
| SimplePools.ProtoTextExactly | packages/dexdiff/lib/src/parser/dalvik_parser.dart:468-470 | two prototypes if and only if return type and parameters are |
| SimplePools.SimpleLegible | packages/dexdiff/lib/src/parser/dalvik_parser.dart:447-476 | so what reads the same denotes the same, in such pools with the same call sites and handles |
| SimplePools.SimpleFaithful | packages/dexdiff/lib/src/parser/dalvik_parser.dart:386-476 | and over any two such sets of pools with the same call sites and handles, none of them twice, text is equal exactly where meaning is, for all code, if and only if no string misleads |
| DexModel.ValueEqualsIs | packages/dexdiff/lib/src/model/encoded_value.dart:9-150 | equality of encoded values, arrays and annotations included, is structural |
| DexModel.AnnotationEqualsIs | packages/dexdiff/lib/src/model/annotation.dart:26-36 | comparing sizes and one side's entries is equality of annotations |
| Annotations.SortedListEquals | packages/dexdiff/lib/src/model/annotation.dart:122-133 | compares the two lists as sorted |
| Annotations.SortedEqualsExactly | packages/dexdiff/lib/src/model/annotation.dart:122-133 | equal only if the same annotations; if annotations of one type are the same, exactly then, in whatever order, for every sort by type |
| Annotations.StableEqualsExactly | packages/dexdiff/lib/src/model/annotation.dart:122-133 | with a stable sort, equal if and only if the annotations of each type are the same in the same order |
| Annotations.OrderMattersExactly | packages/dexdiff/lib/src/model/annotation.dart:122-133 | with a stable sort, a set equals every reordering of itself if and only if its annotations of one type are the same |
| Annotations.OrderCanMatter | packages/dexdiff/lib/src/model/annotation.dart:122-133 | with two of a type, a stable sort tells two orders of the same annotations apart |
| Differ.CompareMembers | packages/dexdiff/lib/src/differ/dalvik_differ.dart:130-179 | logs exactly the members added, removed and with changed flags |
| Differ.CompareStructure | packages/dexdiff/lib/src/differ/dalvik_differ.dart:53-128 | logs exactly the structural changes of a class |
| Differ.CompareBytecode | packages/dexdiff/lib/src/differ/dalvik_differ.dart:194-216 | logs exactly the common methods whose code differs |
| Differ.CompareDirectories | packages/dexdiff/lib/src/model/annotation.dart:71-162 | compares class, field, method and parameter annotations, each set sorted |
| Differ.CompareData | packages/dexdiff/lib/src/differ/dalvik_differ.dart:183-264 | logs exactly the changes of code, annotations and static values |
| Differ.Diff | packages/dexdiff/lib/src/differ/dalvik_differ.dart:11-49 | reports exactly the changes there are, those of data only if the structure has no breaking one |
| Differ.StructureSafeExactly | packages/dexdiff/lib/src/differ/dalvik_differ.dart:14-42 | no breaking structural change if and only if the same classes agree on flags, superclass, interfaces and members |
| Differ.SafeExactly | packages/dexdiff/lib/src/differ/dalvik_differ.dart:11-304 | a safe report means agreement on everything but source files, and exactly that where annotations of one type in a set are the same |
| Members.MethodKeyExactly | packages/dexdiff/lib/src/differ/dalvik_differ.dart:268-280 | two methods have the same key if and only if class, name, parameters and return type are the same |
| Members.FieldKeyExactly | packages/dexdiff/lib/src/differ/dalvik_differ.dart:104-108 | two fields if and only if class, name and type are |
| Members.ReportExactly | packages/dexdiff/lib/src/differ/dalvik_differ.dart:11-304 | for any two lists of classes: the report is safe if and only if the files have the same classes, and every entry of their direct and virtual methods has a partner in the other with the same flags and code, every static and instance field one with the same flags |
| Members.DiffIsSafe | packages/dexdiff/lib/src/differ/dalvik_differ.dart:11-49 | the verdict that is computed from the report, in the same terms |
| Members.ReportedExactly | packages/dexdiff/lib/src/differ/dalvik_differ.dart:11-264 | the whole report in terms of the lists: which change of which entry is listed under which kind |
| Members.SurvivalExactly | packages/dashpod_cli/lib/src/archive_diff/android_archive_differ.dart:124-130 | only additions in the structure if and only if every class of the baseline is kept with every entry of its lists |
| Verdict.SafeMeansSame | packages/dexdiff/lib/src/differ/dalvik_differ.dart:11-304 | over faithful pools a safe report says that structure, every method's registers and meaning, static values and annotations are the same, and exactly that where annotations of one type in a set are the same |
| Verdict.ChangeReported | packages/dexdiff/lib/src/differ/dalvik_differ.dart:194-216 | a method whose meaning changes makes the report unsafe, if nothing it refers to can be mistaken and what reads the same denotes the same |
| Differ.CompareDex | packages/dashpod_cli/lib/src/archive_diff/android_archive_differ.dart:108-145 | additive exactly when both files are there, both parse and every reported change is an addition or safe |
| Differ.OuterAdditiveExactly | packages/dashpod_cli/lib/src/archive_diff/android_archive_differ.dart:124-130 | only additions in the structure if and only if every class and member of the baseline survives unchanged in flags, superclass and interfaces |
| Differ.AdditiveExactly | packages/dashpod_cli/lib/src/archive_diff/android_archive_differ.dart:120-135 | additive if and only if everything survives and, when nothing was added, the data agree too |
| Differ.AdditiveHidesBytecode | packages/dexdiff/lib/src/differ/dalvik_differ.dart:38-42 | with a class added, changed bytecode passes as additive |
| Zip.LocateEocd | updater/src/platform/android.cpp:91-130 | the last end-record signature in the last 22 + 65535 bytes; none for ZIP64 markers |
| Zip.ReadCentral | updater/src/platform/android.cpp:152-180 | one directory entry and where the next starts, or nothing if it cannot be read |
| Zip.FindCentralDirEntry | updater/src/platform/android.cpp:89-187 | the first entry with the name among those the directory announces, none past an unreadable one |
| Zip.LocalDataStart | updater/src/platform/android.cpp:207-212 | past the local header, whose own name and extra lengths count |
| Zip.SlicedFileReadSeek.Read | updater/src/platform/android.cpp:236-244 | within the file, reads as a cursor over the slice |
| Zip.SlicedFileReadSeek.Seek | updater/src/platform/android.cpp:246-258 | within the file, seeks as a cursor over the slice, never out of [0, size] |
| Zip.OpenEntryFromZip | updater/src/platform/android.cpp:295-361 | a slice for a stored entry, for a deflated one what its text inflates to in a buffer of its plain size, nothing otherwise |
| ZipLayout.FindInDirectory | updater/src/platform/android.cpp:151-186 | over any directory laid out entry after entry, the walk finds the first entry with the name, or none |
| ZipLayout.EocdFound | updater/src/platform/android.cpp:103-130 | the end record is found whatever precedes it, if no signature starts later |
| ZipLayout.Zip64Refused | updater/src/platform/android.cpp:117-127 | with the ZIP64 marker in the number of entries or the offset, nothing is opened |
| ZipLayout.NoCommentNoSignature | updater/src/platform/android.cpp:103-110 | without a comment there is no room for a later signature |
| ZipLayout.DirectoryFound | updater/src/platform/android.cpp:91-187 | in a laid out archive, looking up a name gives the fields of the first entry with it |
| ZipLayout.EntryWithin | updater/src/platform/android.cpp:207-212 | where an entry's data start is exactly where they were put |
| ZipLayout.OpenFindsFirst | updater/src/platform/android.cpp:295-361 | opening a name gives the first such entry's plain bytes, a stored one's as a slice of the file, a deflated one's in memory; nothing if there is none or it is packed in another way |
| ZipLayout.Serve | updater/src/platform/android.cpp:218-259 | any sequence of reads and seeks on a slice is answered as a cursor over its bytes answers |
| ZipLayout.ReadEntry | updater/src/platform/android.cpp:295-361 | layout and reader are inverse: for every list of entries and every sequence of requests, the answers are those of a cursor over the named entry's plain bytes, stored or deflated |

## Left out

- SuffixSearch.BuildSuffixArray: sorts by insertion where the source calls `std::sort`; `PatchUnique.SuffixArrayUnique` says the result is the same.
- Inflate.BipatchReader.Feed: requires that no varint is longer than ten bytes; beyond that the source shifts a 64-bit word by 64 or more, which C++ leaves undefined. Write errors of the output stream are not modelled.
- Inflate.InflatePatch: what the decompressor still holds back once its input is consumed is part of what it delivers here; the buffer sizes of the loop, creating the output directory and failing writes are not modelled.
- ReadSeek.MemReadSeek.Seek: positions are unbounded integers; the 64-bit sum of position and offset is not wrapped.
- MakePatch.MakePatch: sizes are below 2^63 as the signed index type has it.
- Renumbering.RenumberingInvariant: not claimed of try/catch tables, whose items are emitted raw and hold byte offsets that move with the width of their numbers.
- Faithful.CanonicalExactly: what is asked of operands that could be mistaken is enough, not always needed; the exact condition is that of `FaithfulPools.SoundExactly`, which speaks of what may follow an operand and is not for a caller to compute.
- Verdict.SafeMeansSame: of methods without try tables, whose text is that of their instructions alone.
- Differ.Diff: the report is characterised as a set; order, repetition and description texts are not.
- Differ.CompareMembers: the same of what is logged.
- Differ.CompareStructure: the same of what is logged.
- Differ.CompareBytecode: the same of what is logged.
- Differ.CompareData: the same of what is logged.
- Annotations.SortedEqualsExactly: with different annotations of one type in a set only one direction holds for every sort; for a stable one see `Annotations.OrderMattersExactly`.
- DiskLifecycle.PatchLifecycle.CleanupOlderThan: the early return when there is no patches directory at all, and the removal of files and directories whose names are not numbers.
- DiskLifecycle.PatchLifecycle.CleanupOrphanDownloads: downloads whose names are not numbers, which the source removes too.
- LifecycleJson.StateRoundTrip: documents hold natural numbers, strings, lists and objects; conversions of negative or fractional numbers are not modelled.
- Updater.Updater.Update: sending events, the request's contents, the lock that answers "already in progress" and the download event are not modelled; a hook that throws is taken to throw a network error.
- Updater.Updater.Init: parsing and installing the configuration; the exceptions it swallows come only from the file system.
- File system errors, thread preemption inside a block and logging: every block runs whole, every write succeeds.
- That every installed patch is promoted: a crash between installing and promoting leaves it unpromoted for good.
- Parsing of the other DEX sections, of strings and of class data: the parser is a parameter of `Differ.CompareDex`.
- ZIP64, encryption flags, archives with a signature inside the comment, and the search through split APKs in a directory.
- The HTTP client, signing, hashing, zlib and zstd themselves; the C interface; the command line tools.
