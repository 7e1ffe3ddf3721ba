# Recotem: training, publishing and serving, verified

Recotem trains a recommender, publishes it as one signed file, and serves it from a process that
swaps new models in while it answers requests. This project states what the moving parts of that
chain promise and proves it in Dafny: over every input, every run, and every interleaving of the
threads and processes involved. `dafny verify dfyconfig.toml` checks everything.

## How it is organised

The hot-swap watcher, the hardest part, is modelled twice. `WatcherModel` says on values what each
operation does to the watcher's tables and to the registry; a run is a sequence of scans, stat
results, time-outs and ends of ticks, with all file-system outcomes as inputs. `WatcherSafety`,
`WatcherScan`, `Availability`, `Freshness`, `YamlCache` and `Ticks` prove invariants and properties of
all runs. `Watcher` is the thread itself, an object that changes its fields, its per-recipe records and
the shared registry in place; every method is proved to do what the value model says, so `RunLoop`
inherits the results. `Startup` builds the initial objects and carries the results back to the start
of the process. `Registry` is the shared registry as an object, `RegistryRaces` the same registry
step by step under its lock, with concurrent readers. `Naming` is the stub-name search.

`Container`, `Utf8`, `ByteStrings`, `Signing` and `ArtifactIO` are the artifact format, its signature
and reading and writing; `Publish` is the publication protocol with concurrent crashing writers.
`Budgets`, `TrialGuard`, `Search`, `Orphans` and `Objective` are the hyper-parameter search: dividing the
trials, queueing and guarding the budgets, accounting for learners that cannot be stopped. `RecipeLock` is the
lock between trainers, `Auth` the anonymous-host memory and the key check, `Batch` the batch
endpoints. `Runs`, `Sequences` and `Wrappers` hold what several of them share.

Time matters in `Freshness`, `YamlCache` and `Startup`: a history gives the file at each path at each
instant, every event carries the instants of its stat and its read, and content behind a pointer is
immutable. Reads follow one another; stats may precede the reads of earlier events, as in a poll that
starts all its stats at once. Markers and mtimes are only compared for equality.

## What came out false, and exactly when it holds

- Remembered markers prove freshness only if the storage never shows an old marker again after other
  content; `FreshIff` is the exact condition. Content-derived ETags of a file that goes from A to B and
  back violate it.
- Start-up reads an artifact first and stats it afterwards (src/recotem/serving/app.py:778, then
  watcher.py:1458). A rewrite in between is never noticed while the new file rests
  (`StatAfterReadIsStaleForGood`). `StartAlwaysFreshIff` says exactly when freshness holds over all runs
  from the start, `QuietStartStaysFresh` that a quiet start-up is enough for any number of recipes.
- The comment at src/recotem/serving/watcher.py:277-286 says a preseeded stub is found by the first
  rescan. That is so only if a recipe of the same name was loaded; otherwise the stub is not watched, the
  rescan makes a second one and orphans the first: `FirstScanKeepsStubIff`.
- The comment at src/recotem/recipe/loader.py:714-717 says a file with a duplicate recipe name is skipped;
  the code reports it as a failure, so it gets a stub (`LoadDirectoryLenient` follows the code).
- An error text is not cleared when the bytes already served reappear; `ErrorClearedIff` lists exactly what
  clears one. A failed load is tried again only if the marker triggered it, not the sidecar
  (`FailedLoadIsRetriedIff`).
- The comment at src/recotem/serving/watcher.py:843-848 says one misbehaving recipe must not mark all others
  unhealthy. A sidecar that is not UTF-8 text, or whose existence check raises (a file name that is too long
  with the suffix), raises out of the poll: `TickFailsIff` says exactly when a tick fails,
  `OneBadSidecarMarksAll` what follows. At start-up the undecodable one fails the whole process
  (`BuildInitialStates`).
- No recipe carries a `_yaml_path` or `yaml_path`, so in the code the YAML mtime that would lift the
  suppression of an unreadable sidecar is always absent; the model takes it as an input.
- A published artifact's name carries eight hex digits of its hash. Two writers whose different artifacts share
  them can make one's pointer lead to the other's artifact; `AlwaysLiveIff` says exactly when that is excluded.
- A recipe whose YAML file changes its output path goes on being watched at the old one
  (`WatchedPathIsKept`); only the row of a stub takes a path from its file (`RecipeIsAdopted`).
- The docstring at src/recotem/training/search.py:585 promises budgets that always add up to the
  trials; `SevenForFour` is the counterexample, `ScaledTotal` the exact condition, `ScaledOvershoot`
  and `OvershootIsAttained` the tight bound.
- The comment at src/recotem/training/search.py:300-306 promises no overshoot within one process because the
  check is made under a lock. Nothing is reserved at the check, so the lock alone does not keep the promise;
  the queue of trials with fixed classes does, as long as it lasts. A fresh search never overshoots
  (`FreshSearchStaysWithinBudgets`). A resumed one does, with two threads or more, once it has more trials than
  its classes still lack together, by up to p - 1 with p threads: `SearchTightIff`, `WorstCaseIsAttained`.

## Model

| member | source | states |
|---|---|---|
| `Freshness.FreshIff` | src/recotem/serving/watcher.py:767-852 | The exact condition, from any state that satisfies the invariant: over every schedule of scans, stats that overlap earlier loads as the thread pool makes them, reads, failures and rewrites, and at every later instant, a row whose remembered marker is the file's current one serves the digest of the current content, if and only if the markers remembered now stand for what is being served and the storage never shows an old marker again after other authentic content. |
| `Freshness.FreshIffMarkersSteady` | src/recotem/serving/watcher.py:596-626 | From the discovery of a recipe on, only the storage is left in that condition. |
| `Freshness.ForcedLoad` | src/recotem/serving/watcher.py:839-850 | A changed sidecar forces a load where the marker alone would not, and authentic bytes that build end up served under the marker that was statted. |
| `Freshness.VersionedMarkersAreSteady` | src/recotem/serving/watcher.py:858-995 | A storage whose files carry numbered versions with one marker per version meets that condition. |
| `Freshness.RunKeepsRecord` | src/recotem/serving/watcher.py:858-995 | Every run keeps the record behind freshness: each remembered pair of marker and digest was seen at an instant no later than an instant at which the file held authentic bytes of that digest. |
| `Freshness.OneObservationServes` | src/recotem/serving/watcher.py:767-852 | A file that rests from stat to read and builds is served after that one observation, whether the code skipped, acknowledged or swapped. |
| `Ticks.TickServes` | src/recotem/serving/watcher.py:685-765 | Progress of a whole tick with overlapping stats: every answered recipe whose file rests from its own stat to its own read and builds is served after the tick with that content, provided no answer handled before its own raises. |
| `Ticks.TickServesListed` | src/recotem/serving/watcher.py:589-852 | From the YAML file to the served model in one tick: a recipe that the tick's own scan discovers or recovers is served from its output path after the tick, with no assumption about where it is watched. |
| `Ticks.TickFailsIff` | src/recotem/serving/watcher.py:1303-1310 | A tick fails if and only if some watched recipe with an unmoved marker has a sidecar whose consultation raises, because it cannot be probed or is not UTF-8 text, and no answer handled before it ends the thread. |
| `Ticks.AnswersBehindStarve` | src/recotem/serving/watcher.py:728-743 | The answers behind the first that raises are not handled in that tick. |
| `Ticks.OneBadSidecarMarksAll` | src/recotem/serving/watcher.py:843-849 | One recipe at rest with a sidecar that raises when consulted fails every tick, whatever the other recipes do short of exhausting memory or stack, and from the threshold on every watched recipe is marked unhealthy after every tick. |
| `Ticks.ErrorsAreConsecutive` | src/recotem/serving/watcher.py:344-350 | After any run the counter is the number of failed ticks since the last good one. |
| `Freshness.StaleForGood` | src/recotem/serving/watcher.py:826-852 | Once the remembered marker is the one the file shows, the digest being served stays the same in every later state, until the recipe is dropped or the marker moves or a sidecar appears, with stats overlapping earlier loads. |
| `Availability.ServedModelFate` | src/recotem/serving/watcher.py:642-653 | One step of any kind either drops a served model because a completed scan did not find its name, or swaps it for newly verified bytes, or leaves recommender, version and marker exactly as they were. |
| `Availability.ServedThroughout` | src/recotem/serving/watcher.py:782-821 | Over any run in which the recipe stays in the directory a served model stays served and genuine, whatever fails. |
| `Availability.BrokenFileStaysServed` | src/recotem/serving/watcher.py:535-587 | Over any number of scans that list a once-parsed file and fail to parse it, the file keeps its name, every scan finds the name, and its model is served throughout. |
| `Availability.OnceParsedStaysKnown` | src/recotem/serving/watcher.py:589-594 | A file that parsed once stays mapped to a watched name for as long as it is listed, through scans in which it parses, breaks or changes its name. |
| `Availability.ParsedOnceSurvivesBreaking` | src/recotem/serving/watcher.py:535-594 | A file parsed by one scan and broken in a later one keeps its recipe's name and the model under it, whatever happened between. |
| `Availability.ErrorClearedIff` | src/recotem/serving/watcher.py:826-842 | Exactly when an error text goes away, for every event: a read of bytes other than those on record that build, the end of a successful tick for the sentinel, the discovery of a recipe under the name of an unwatched entry, and nothing else; so a file that reappears with the bytes already served keeps the old complaint. |
| `Availability.FailedLoadIsRetriedIff` | src/recotem/serving/watcher.py:1373-1384 | After a load that failed, in reading or in building, the same marker and sidecar text trigger another read if and only if the first one was triggered by the marker; one triggered by the sidecar alone changes nothing later, even when a read would succeed. |
| `Availability.FailedStatShows` | src/recotem/serving/watcher.py:782-821 | A missing artifact, a failed stat and a hung stat each leave their own complaint on the entry and change nothing else. |
| `Availability.FailedLoadShows` | src/recotem/serving/watcher.py:875-984 | A failed read and a failed build leave their complaints; new authentic bytes that build give exactly the entry with their digest and the statted marker. |
| `Availability.FailedTickShows` | src/recotem/serving/watcher.py:349-382 | A failed tick counts, and from the threshold on marks exactly the watched recipes. |
| `Availability.ThirdErrorSuppresses` | src/recotem/serving/watcher.py:1336-1371 | The third read error in a row suppresses a sidecar until the YAML mtime visibly changes; the first two trigger loads. |
| `Availability.SidecarMemory` | src/recotem/serving/watcher.py:1303-1384 | What each answer about a sidecar leaves in memory: the error count starts anew, a vanished one is forgotten, an absent one is not. |
| `Availability.BrokenFileKeepsNameIff` | src/recotem/serving/watcher.py:548-575 | A scan that finds a mapped path broken keeps its name if and only if the name is watched; otherwise a second stub under a new name takes the path over and the first one stays in the registry. |
| `WatcherSafety.StepKeepsInv` | src/recotem/serving/watcher.py:997-1084 | Every step keeps: loaded entries were built from bytes that parsed and passed the MAC, their digest is the registry's and the watcher's, watched names are registered, the sentinel stands only on watched names of a watcher at its threshold. |
| `WatcherSafety.RunKeepsInv` | src/recotem/serving/watcher.py:326-358 | The same over every run. |
| `WatcherSafety.TickOkClears` | src/recotem/serving/watcher.py:386-413 | A successful tick leaves no sentinel anywhere, changes no other error text and nothing else about any entry. |
| `WatcherSafety.LoadKeepsRow` | src/recotem/serving/watcher.py:900-984 | A load leaves registry entry and watcher record of its recipe in agreement in every branch. |
| `WatcherScan.ScanReconciles` | src/recotem/serving/watcher.py:642-676 | After a completed scan the watched names are exactly the found ones and all registered, path map and mtime cache mention only listed files, and every mapped name is watched. |
| `WatcherScan.RecipeIsAdopted` | src/recotem/serving/watcher.py:596-640 | Where a recipe is watched after a scan: an unwatched name gets a row at the recipe's output path with nothing seen and nothing loaded; the row of a stub gets recipe and path and forgets its marker. |
| `WatcherScan.WatchedPathIsKept` | src/recotem/serving/watcher.py:627-640 | A watched row that has an artifact path keeps it, even when its file now declares another. |
| `WatcherScan.BrokenFileGoesUnder` | src/recotem/serving/watcher.py:548-575 | The name a broken file goes under: its mapped name, its stem, or a new stub made from its stem, with the tables that result. |
| `WatcherScan.BrokenFileShows` | src/recotem/serving/watcher.py:556-572 | Whatever name a broken file goes under has a complaint about the YAML file. |
| `WatcherScan.UnlistedShows` | src/recotem/serving/watcher.py:482-505 | A directory that cannot be listed shows on every watched recipe and changes nothing else. |
| `WatcherScan.FoundModelsSurvive` | src/recotem/serving/watcher.py:642-653 | A scan keeps the recommender and version of every found name and removes every name it did not find. |
| `WatcherScan.BrokenFileKeepsName` | src/recotem/serving/watcher.py:548-567 | A listed file that does not parse keeps the name it is known under among the found names. |
| `WatcherScan.ParsedFileRemembered` | src/recotem/serving/watcher.py:589-605 | After a scan that parsed a file, its path maps to its recipe's name and the name is watched. |
| `WatcherScan.ScanKeepsPath` | src/recotem/serving/watcher.py:548-567 | The path of a listed file stays mapped to a watched name, and to the same one if the file is broken. |
| `WatcherScan.BetweenScans` | src/recotem/serving/watcher.py:685-765 | No step other than a scan changes the watched names, the path map or the mtime cache. |
| `Availability.RowGivesDomain` | src/recotem/serving/watcher.py:1086-1106 | Every watched name is registered, so annotating a watched recipe always finds an entry; every served name is watched. |
| `Naming.DedupStubName` | src/recotem/serving/_naming.py:8-26 | The suffix loop ends and returns the first untaken name of the candidate order. |
| `Naming.FirstFreeIsLeast` | src/recotem/serving/_naming.py:8-26 | The name carries the least number whose candidate is not taken; the search ends because candidates never repeat. |
| `YamlCache.CacheRefinesReparsing` | src/recotem/serving/watcher.py:516-534 | Over any run, with steady mtimes, the watcher with its per-file mtime cache reaches the same names, rows, entries and errors as one that parses every file, each at an instant between the cached scan's own stat and parse of it. |
| `YamlCache.CacheTruthfulIffMtimesSteady` | src/recotem/serving/watcher.py:516-534 | A cache hit stands for what the file parses to at the instant of the stat, in every run, if and only if equal mtimes around a parse mean an equal parse. |
| `YamlCache.SameScan` | src/recotem/serving/watcher.py:507-679 | One scan with the cache and one without it, given the recipes the cache gave, end in the same tables. |
| `Watcher.RecipeWatchState.CheckSidecarChanged` | src/recotem/serving/watcher.py:1215-1384 | The sidecar state machine on the record's fields: suppression after three I/O errors, contents remembered on change, and the verdict, including the existence probe and the decoding that raise. |
| `Watcher.ArtifactWatcher.BuildEntry` | src/recotem/serving/watcher.py:997-1084 | Parser cursor, MAC check and deserialization outcome on the real bytes give a fresh entry, a refusal or the end of the thread, exactly as the value model says. |
| `Watcher.ArtifactWatcher.LoadRecipe` | src/recotem/serving/watcher.py:858-995 | Updates record and registry in place to exactly the loaded state of the model, with its outcome. |
| `Watcher.ArtifactWatcher.ProcessStatResult` | src/recotem/serving/watcher.py:767-852 | The missing, failed, unchanged and changed branches, on the fields, as in the model. |
| `Watcher.ArtifactWatcher.RegisterYamlFailureStub` | src/recotem/serving/watcher.py:419-472 | A fresh unloaded entry and record under the first free name, and the path mapped to it. |
| `Watcher.ArtifactWatcher.ScanBrokenFile` | src/recotem/serving/watcher.py:535-587 | An unparsable file annotates the entry it is known under or becomes a stub. |
| `Watcher.ArtifactWatcher.ScanYamlFile` | src/recotem/serving/watcher.py:510-640 | One file of the loop, with the mtime cache in front of the parser. |
| `Watcher.ArtifactWatcher.ScanRecipesDir` | src/recotem/serving/watcher.py:474-679 | The whole scan in place: the file loop, the loop over names nobody found, the eviction of stale paths; or the annotation of every recipe when the directory cannot be listed. |
| `Watcher.ArtifactWatcher.PollArtifacts` | src/recotem/serving/watcher.py:685-765 | Answers are handled in order of arrival up to the first that raises; the effect is a run of the model. |
| `Watcher.ArtifactWatcher.MarkError` | src/recotem/serving/watcher.py:1086-1106 | Annotates the entry and reports whether there is one. |
| `Watcher.ArtifactWatcher.MarkAllUnhealthy` | src/recotem/serving/watcher.py:367-382 | The sentinel is written to exactly the watched, registered names. |
| `Watcher.ArtifactWatcher.ClearWatcherUnhealthyErrors` | src/recotem/serving/watcher.py:386-413 | Exactly the sentinels on watched names are cleared. |
| `Watcher.ArtifactWatcher.Tick` | src/recotem/serving/watcher.py:335-358 | One iteration, with the counter of consecutive errors: a run of the model, and whether the thread survives. |
| `Watcher.ArtifactWatcher.RunLoop` | src/recotem/serving/watcher.py:326-365 | The thread's whole life is a run of the model, so it keeps what runs keep. |
| `Watcher.ArtifactWatcher.PreseedYamlPath` | src/recotem/serving/watcher.py:277-293 | Only the path map changes. |
| `Startup.OnlyVerifiedIsServed` | src/recotem/serving/app.py:761-930 | From start-up on, over every run: what is served was built from bytes that parsed and, with a key ring, carried a valid MAC; their digest is the version and the watcher's record; the sentinel is honest; watched names are registered. |
| `Startup.StartIsSafe` | src/recotem/serving/watcher.py:1437-1495 | Every start state satisfies the invariant of the watcher. |
| `Startup.QuietStartStaysFresh` | src/recotem/serving/app.py:761-930 | If each file is quiet between its start-up read and its stat and markers are steady, freshness holds in every reachable state from the start of the process on. |
| `Startup.QuietStartIsRecorded` | src/recotem/serving/watcher.py:1453-1471 | A quiet start-up leaves records as good as any made later. |
| `Startup.StatAfterReadIsStaleForGood` | src/recotem/serving/watcher.py:1457-1471 | Without quiet: whatever was read at start-up is served in every later state while the file rests under the marker statted afterwards, however different its content. |
| `Startup.StartAlwaysFreshIff` | src/recotem/serving/watcher.py:1457-1471 | Freshness from the start of the process over every run, for a recipe loaded at start-up: it holds if and only if the storage never shows an old marker again after other content and the start-up read and stat saw contents of one digest. |
| `Startup.FirstScanKeepsStubIff` | src/recotem/serving/app.py:222-250 | The first rescan that still cannot parse a file keeps the stub made for it at start-up if and only if a recipe of that name was loaded too; otherwise it makes a second stub and leaves the first one unwatched in the registry. |
| `Startup.LoadDirectoryLenient` | src/recotem/recipe/loader.py:745-794 | One result per file, in order; a name belongs to the first file that claims it, later claims are failures. |
| `Startup.FirstClaimerKeeps` | src/recotem/recipe/loader.py:745-794 | A recipe keeps its name if and only if no earlier file declares it, and every declared name has a result. |
| `Startup.NameStubs` | src/recotem/serving/app.py:222-253 | Stub names in file order, pairwise different, each the first one free among the names before it. |
| `Startup.StubOfFile` | src/recotem/serving/app.py:222-233 | Each file without a recipe has its stub, in file order, at its path, named after its stem with the smallest number that makes it free. |
| `Startup.StartLoadsIff` | src/recotem/serving/app.py:777-930 | What a start-up load comes to: an artifact that is read, authentic and builds is served from the first instant, anything else leaves its complaint. |
| `Startup.StartRemembers` | src/recotem/serving/watcher.py:1453-1493 | What the watcher remembers of a start-up load, for every answer of the stat and of the sidecar. |
| `Startup.FillRegistry` | src/recotem/serving/app.py:298-336 | Loads registered in any order of completion give the same registry. |
| `Startup.BuildInitialStates` | src/recotem/serving/watcher.py:1437-1495 | One record per recipe with marker, digest and sidecar text for loaded ones; the whole start-up fails exactly if a loaded recipe's sidecar is not UTF-8 text. |
| `Startup.CreateApp` | src/recotem/serving/app.py:268-370 | The objects built at start-up have exactly the start state, which satisfies the invariant. |
| `Registry.ModelRegistry.Replace` | src/recotem/serving/registry.py:228-243 | Contents and loaded counter after an insertion or replacement. |
| `Registry.ModelRegistry.ReplaceWithMarker` | src/recotem/serving/registry.py:245-264 | The entry is inserted with its marker and digest already set. |
| `Registry.ModelRegistry.Remove` | src/recotem/serving/registry.py:266-274 | The name goes, and the counter with it if it was loaded. |
| `Registry.ModelRegistry.SetLoadError` | src/recotem/serving/registry.py:276-293 | Only the error text of that entry changes; reports whether there is one. |
| `Registry.ModelRegistry.UpdateLoadedMarker` | src/recotem/serving/registry.py:295-308 | Only marker and digest of that entry change. |
| `Registry.ModelRegistry.HealthCounts` | src/recotem/serving/registry.py:323-332 | Both numbers describe the same contents: the loaded entries and all entries. |
| `Registry.CountAfterReplace` | src/recotem/serving/registry.py:235-243 | The net change of the loaded counter in all four cases of old and new loadedness. |
| `RegistryRaces.EveryAnswerIsWhole` | src/recotem/serving/registry.py:245-332 | For any number of readers and any interleaving with the watcher's insertions, removals and error annotations, every answer pairs a recommender with the version of the same bytes, and every health report counts one registry content. |
| `RegistryRaces.StepKeepsInv` | src/recotem/serving/registry.py:228-274 | Each step keeps mutual exclusion, whole entries, the counter and what readers hold. |
| `RegistryRaces.LookupAnswers` | src/recotem/serving/registry.py:218-221 | An undisturbed lookup answers with what the registry holds under the name. |
| `RegistryRaces.HealthAnswers` | src/recotem/serving/registry.py:323-332 | An undisturbed health check reports the counter and the size of the registry. |
| `RegistryRaces.SwapCompletes` | src/recotem/serving/registry.py:245-264 | An undisturbed swap ends with the new model and the version of its bytes under the name, all other names as before. |
| `RegistryRaces.TwoStepSwapTears` | src/recotem/serving/watcher.py:972-984 | With insertion and marking in two critical sections, one reader suffices to see a loaded recommender under no version. |
| `Container.ParseBuild` | src/recotem/artifact/format.py:198-233 | Parsing a built artifact returns its key id, digest, header and payload offset. |
| `Container.BuildParse` | src/recotem/artifact/format.py:89-195 | Any accepted byte string is the build of its parsed parts. |
| `Container.AcceptedIffBuilt` | src/recotem/artifact/format.py:89-195 | Accepted byte strings are exactly the built ones with a payload within the cap. |
| `Container.PrefixAcceptedIff` | src/recotem/artifact/format.py:89-195 | A prefix of accepted data is accepted if and only if it reaches the payload offset, with the same header. |
| `Container.CutReports` | src/recotem/artifact/format.py:89-195 | The error for an artifact cut short, for every place of the cut. |
| `Container.LayoutOf` | src/recotem/artifact/format.py:198-233 | The layout byte by byte: magic, little-endian version and lengths, fields, payload. |
| `Container.BuildsIff` | src/recotem/artifact/format.py:198-233 | Exactly which parts can be built, and the error otherwise. |
| `Container.ParseHeaderFromBytes` | src/recotem/artifact/format.py:89-195 | The cursor with its length checks computes the parse function, errors included. |
| `Utf8.DecodeEncode` | src/recotem/artifact/io.py:334 | Decoding an encoded key id returns it: re-encoding the decoded id for the MAC loses nothing. |
| `Utf8.EncodeDecode` | src/recotem/artifact/io.py:334 | Every accepted byte string is the encoding of what it decodes to (RFC 3629, sections 3 and 4). |
| `Utf8.Rfc3629Examples` | src/recotem/artifact/io.py:168 | The examples of section 7 of RFC 3629. |
| `Signing.BuildKeyRing` | src/recotem/artifact/signing.py:259-337 | Construction succeeds exactly on a non-empty list of acceptable entries, otherwise reports the first bad one, and holds each key under its id in order. |
| `Signing.RefusedBecause` | src/recotem/artifact/signing.py:259-337 | Which key-ring entries are refused, and with which of the complaints. |
| `ArtifactIO.VerifiedAfterSigning` | src/recotem/artifact/signing.py:370-418 | What was signed verifies under exactly the rings that hold a key of equal MAC for the signing id, and comes back unchanged; otherwise the error is the unknown id or the mismatch. |
| `ArtifactIO.VerifiedIff` | src/recotem/artifact/signing.py:381-418 | What the MAC covers, on the bytes of the file: an artifact verifies if and only if the ring holds its key id and the digest is the MAC of key id, header and payload under that key. |
| `ArtifactIO.SignedMac` | src/recotem/artifact/signing.py:381-385 | The bytes a writer signs carry the MAC of key id, header and payload under its first key. |
| `ArtifactIO.ReadOutcome` | src/recotem/artifact/io.py:306-406 | What a read comes to for every content and size of the file at the path and of the file behind its pointer. |
| `ArtifactIO.ShaNameShape` | src/recotem/artifact/io.py:190-201 | The name of a published artifact: stem, dot, the first four digest bytes in hex, ".recotem". |
| `ArtifactIO.RoundTrip` | src/recotem/artifact/io.py:125-212 | Write, then read, in both versioning modes and under any ring that kept the signing key: exactly the header bytes and payload written, no other file touched. |
| `ArtifactIO.PointerResolvesIff` | src/recotem/artifact/io.py:115 | A written pointer is recognised and names its artifact if and only if the output name keeps to the pointer alphabet and the line fits in 512 bytes. |
| `ArtifactIO.AcceptedIsNoPointer` | src/recotem/artifact/io.py:370-379 | No accepted artifact reads as a pointer. |
| `ArtifactIO.FileStore.WriteAtomic` | src/recotem/artifact/io.py:220-263 | The destination changes only if nothing raised. |
| `ArtifactIO.FileStore.WriteArtifact` | src/recotem/artifact/io.py:125-212 | The files and the result after a publication in either mode, for every combination of failing writes. |
| `Publish.PublicationIsCrashSafe` | src/recotem/artifact/io.py:189-263 | Any number of writers and readers interleaved step by step, writers crashing anywhere: a pointer at the output path names a complete artifact whose own hash gives that name, no reader finds a dangling pointer, and what a reader gets is one complete written artifact. |
| `Publish.AlwaysLiveIff` | src/recotem/artifact/io.py:189-203 | A publication publishes: in every interleaving, the step with which a writer finishes leaves its own artifact live at the output path, as the file itself or behind the pointer there, if and only if no other append writer puts a different artifact under the same eight digits. |
| `Publish.FinishedIsLive` | src/recotem/artifact/io.py:200-203 | The positive half, for any run and any kind of writer. |
| `Publish.RivalTakesShelf` | src/recotem/artifact/io.py:190-203 | A rival with the same eight digits between the two writes: the pointer then leads to the rival's artifact. |
| `Publish.LiveIsRead` | src/recotem/artifact/io.py:306-406 | A reader that starts at a live publication gets its artifact. |
| `Publish.LeftAloneFinishes` | src/recotem/artifact/io.py:178-263 | A writer left alone finishes, locally and on an object store, in both modes, and is live then. |
| `Publish.StepKeepsInv` | src/recotem/artifact/io.py:220-263 | Each step of opening, filling, renaming, putting, unwinding, crashing and reading keeps the publication invariant. |
| `Budgets.ComputeBudgets` | src/recotem/training/search.py:559-667 | Refuses an unknown alias, otherwise gives every class the budget of the closed form, for any rounding. |
| `Budgets.ResolveOverrides` | src/recotem/training/search.py:596-613 | The last override that means a class decides, negative counts become 0. |
| `Budgets.ScaledOvershoot` | src/recotem/training/search.py:637-649 | Scaled-down budgets add up to at least the trials and to at most the trials plus the positive classes minus one, for every rounding within a half. |
| `Budgets.ScaledTotal` | src/recotem/training/search.py:637-649 | They add up to exactly the trials if and only if the rounded shares of all but the last positive class leave at least one trial. |
| `Budgets.ScaledIsFair` | src/recotem/training/search.py:637-649 | Every positive class gets at least one trial, every other class none. |
| `Budgets.ShareNearProportion` | src/recotem/training/search.py:646 | A rounded share is less than one above and at most a half below its exact proportion. |
| `Budgets.OvershootIsAttained` | src/recotem/training/search.py:637-649 | The bound is tight for any number of classes and trials. |
| `Budgets.SevenForFour` | src/recotem/training/search.py:585-586 | Counts 100, 1, 1, 1 and four trials give seven, under round-half-even, against the documented sum. |
| `Budgets.OthersAreExact` | src/recotem/training/search.py:588-667 | In every other branch the budgets add up to exactly the trials. |
| `Budgets.TotalIsEnough` | src/recotem/training/search.py:588-667 | In every branch the budgets add up to at least the trials. |
| `Budgets.NothingAskedIsEven` | src/recotem/training/search.py:588-620 | From the counts alone: if there are none, or only zeros for all classes, the trials are split evenly, the leading classes taking the remainder. |
| `Budgets.ZeroIsSkipped` | src/recotem/training/search.py:570 | An explicit zero skips the class, unless only zeros were given for all. |
| `Budgets.FittingCountsAreHonoured` | src/recotem/training/search.py:651-667 | Counts that fit are honoured literally; the leftover goes evenly to the classes without a count, or else to the last positive one. |
| `Budgets.FewTrialsGoFirst` | src/recotem/training/search.py:627-635 | With fewer trials than positive classes, the first of them in class order get one trial each. |
| `Budgets.CutCountsAreProportional` | src/recotem/training/search.py:637-649 | Counts that do not fit: every positive class but the last gets its rounded proportion, all positive ones at least one trial, all others none. |
| `Budgets.UncountedAreAlike` | src/recotem/training/search.py:588-661 | Classes without a count of their own, in the whole even split as in the split of a leftover: an earlier class gets as many trials as a later one or one more. |
| `TrialGuard.OvershootIsBounded` | src/recotem/training/search.py:333-341 | In every interleaving of p threads, completed and in-flight trials of a class stay within its seed or its budget plus p minus 1, and within its seed and the trials of it that the queue and later suggestions can start. |
| `TrialGuard.WorstCaseIsAttained` | src/recotem/training/search.py:325-341 | The largest load of a class over all runs, exactly, for any queue of waiting trials: no run exceeds the smaller of those two bounds, and some run attains it. |
| `TrialGuard.TightIff` | src/recotem/training/search.py:300-306 | For any queue of trials waiting in the study, leftovers included: the guard never lets a class exceed seed and budget if and only if there is one thread, or the budget is used up from the start, or queue and suggestions cannot start one trial of the class too many. |
| `TrialGuard.SearchTightIff` | src/recotem/training/search.py:257-341 | For the queue that the search itself makes, fresh or resumed, of one class or of several: the third alternative is that the search has no more trials than its classes lack together. |
| `TrialGuard.FreshSearchNeverOvershoots` | src/recotem/training/search.py:257-341 | A fresh search whose positive budgets add up to its trials or more never gives a class more trials than its budget. |
| `Search.FreshSearchStaysWithinBudgets` | src/recotem/training/search.py:225-341 | The budgets that the trials are divided into do: a fresh search never gives a class more trials than its budget, for any counts, classes, trials and threads. |
| `TrialGuard.SeedCounters` | src/recotem/training/search.py:312-318 | Per class of the search, the completed trials of the resumed study. |
| `TrialGuard.EnqueueRemaining` | src/recotem/training/search.py:266-279 | With several classes, the queue holds in class order exactly what each class lacks: completed and queued trials together are its budget, or what was completed if that is more. With one class nothing is queued. |
| `TrialGuard.QueueCounts` | src/recotem/training/search.py:273-279 | Every class is queued exactly as often as it lacks trials. |
| `Orphans.OrphansAreCounted` | src/recotem/training/search.py:347-453 | In every interleaving of time-outs and returning learners: live is the orphans still learning, total the trials ever orphaned, no orphan is discounted twice, a trial that falls through finds what its learner left, live stays within 32 plus p minus 1, even while threads that have not hit the ceiling keep starting trials. |
| `Orphans.TrialFallsThrough` | src/recotem/training/search.py:376-386 | A learner that returns in time hands its ending to the trial. |
| `Orphans.LateTrialFallsThrough` | src/recotem/training/search.py:388-403 | One that returns between the time-out and the second look is no orphan. |
| `Orphans.OrphanReturns` | src/recotem/training/search.py:376-380 | An orphan that returns is live no more and stays in the total. |
| `Orphans.BoundIsAttained` | src/recotem/training/search.py:436-446 | With p threads some run reaches 32 plus p minus 1 live orphans. |
| `Objective.SearchCounters.BudgetLeft` | src/recotem/training/search.py:337-341 | The critical section of the check is the check step of the budget machine. |
| `Objective.SearchCounters.CountCompleted` | src/recotem/training/search.py:464-465 | The critical section of the increment is its finish step. |
| `Objective.SearchCounters.LearnerFinished` | src/recotem/training/search.py:376-380 | The learner's finally block is the exit step of the orphan machine. |
| `Objective.SearchCounters.Recheck` | src/recotem/training/search.py:388-446 | The second look after a timed-out join is its recheck step, with the verdict the objective acts on. |
| `RecipeLock.MutualExclusion` | src/recotem/training/lock.py:16-33 | As long as nobody unlinks the sentinel, for any number of processes and any interleaving: all descriptors share one inode, nobody is inside beside an exclusive holder, and every pointer written follows immediately on its own writer's artifact. |
| `RecipeLock.EntersIff` | src/recotem/training/lock.py:222-294 | A process that asks gets in if and only if nobody is inside, or all inside, and it, hold shared locks. |
| `RecipeLock.LockPassesOn` | src/recotem/training/lock.py:309-316 | When the only process inside closes its descriptor or dies, any other opens the sentinel and is in. |
| `RecipeLock.UnlinkingBreaksIt` | src/recotem/training/lock.py:19-29 | With the sentinel deleted while held, two trainers are inside and their writes interleave. |
| `RecipeLock.LockClient.Acquire` | src/recotem/training/lock.py:222-316 | Every path closes the descriptor it opened exactly once; the result in every mode of waiting, of failing on busy and of answer of the system calls. |
| `RecipeLock.LockClient.Poll` | src/recotem/training/lock.py:258-292 | The polling loop stops at the one attempt that decides; a time-out has waited at least as long as asked. |
| `RecipeLock.DecisionIsUnique` | src/recotem/training/lock.py:258-292 | At most one attempt decides, with one outcome. |
| `RecipeLock.LockClient.WarnRemote` | src/recotem/training/lock.py:177-181 | The advisory is a warning once per lock path. |
| `Auth.AnonymousAudit.Record` | src/recotem/serving/auth.py:191-205 | The first-seen event fires if and only if the host was never seen or at least 1024 other hosts have been seen since; the dictionary stays the most recent part of the whole history. |
| `Auth.ByRecencyIsOrdered` | src/recotem/serving/auth.py:41-47 | The reference list holds every host once, in order of last access. |
| `Auth.TouchKeepsMostRecent` | src/recotem/serving/auth.py:191-205 | One update of the bounded dictionary keeps it equal to the last entries of the reference list. |
| `Auth.ForgottenIff` | src/recotem/serving/auth.py:191-205 | Membership in terms of the history alone: a host is forgotten exactly if never seen or displaced by enough different hosts. |
| `Auth.VerifyApiKey` | src/recotem/serving/auth.py:209-298 | Accepted exactly when the length is in range and some entry has the digest, attributed to the first such entry, with one digest computed on every path. |
| `Batch.BuildItems` | src/recotem/serving/routes.py:155-198 | Exactly the candidates that are not excluded and validate in full or bare form, in ranking order; every candidate is returned, excluded or dropped; the fallback count. |
| `Batch.MetadataIsJoinedById` | src/recotem/serving/routes.py:171-197 | A served item has its candidate's id and score, and the metadata under its own id where the schema accepts them. |
| `Batch.BatchRecommend` | src/recotem/serving/routes.py:520-647 | One answer per element at its own index with the error or items that element must get; the error metric counts the error answers; no response exactly if an admitted element runs out of memory. |
| `Batch.RecommendAnswers` | src/recotem/serving/routes.py:520-647 | Which element of a batch of known users gets which answer, each as an exact condition on elements and answers. |
| `Batch.BatchRecommendRelated` | src/recotem/serving/routes.py:685-819 | The same for related items, with the seed checks in their order. |
| `Batch.RelatedAnswers` | src/recotem/serving/routes.py:685-819 | The same for a batch of seed lists. |
| `Batch.CapRejectedIff` | src/recotem/serving/routes.py:547-558 | Read off a response alone: an element gets the cap error if and only if its limit exceeds what the limits of the earlier elements that did not get it leave of 5000. |
| `Batch.ResponseWithinCap` | src/recotem/serving/routes.py:520-647 | The items of a response total at most 5000 if the recommender respects its cutoff. |

## Left out

- SHA-256, HMAC and scrypt are arbitrary functions; nothing is claimed about forgery or collisions. A freshness result that needs contents of one path with equal digests to be equal says so, and one that polls stubs without a path says that what stands at the empty path is no authentic artifact.
- JSON, unpickling, the version preflight and metadata loading are one outcome per load: builds, refused, or out of memory or stack.
- File systems, object stores and fsspec: only an abstract map of whole files with atomic replacement, and stat and read outcomes. Containment checks on output paths are not modelled.
- Content behind a pointer is taken as immutable: the object's name carries only eight hex digits of its hash (src/recotem/artifact/io.py:190), so the freshness results assume that no two artifacts of one output path share them. The publication results do not.
- Splitting `kid:hex` strings and decoding hex digits: key-ring entries arrive split and decoded, with the failures as inputs.
- Logging, metrics (except the batch error count and the divergence case), the post-HMAC failure streak and the stat error-class tracker: they steer log levels only.
- The unreachable branches of the watcher: a load without a marker, and a sidecar path that cannot be formed.
- The thread pool of the poll: stat calls are answers that arrive in any order; a future that itself raises is an answer that never comes, which changes nothing.
- Ending the thread while a directory listing runs out of memory: such a run simply has no further events.
- StartAlwaysFreshIff: is stated for an output path that one loaded recipe uses; two loaded recipes writing one path fall under FreshIff.
- FreshIff: asks for a watched row whose sidecar check is not suppressed while it remembers a marker; without one nothing can force a read under an unmoved marker.
- RunLoop: does not model the stop event, sleeping and jitter; a stopped loop is a shorter list of ticks, and a poll that a stop interrupts by closing its thread pool is its last.
- `UpdateLoadedMarker` is no step of `RegistryRaces`: nothing in the serving code calls it.
- Scaling in `Budgets` uses exact rationals with any rounding within one half in place of floating point.
- CreateApp: takes the results of the directory scan as the list of loadings, one per distinct recipe name; parallel loading appears only as an arbitrary order of completion.
- The Windows lock, the derivation of a lock path for remote outputs, and clocks other than a strictly increasing counter.
- `LockClient` covers one acquisition at a time; how the kernel grants locks between processes is the state machine beside it.
- The single-request endpoints, health details, routing, response headers, CLI, configuration, recipe schema and environment expansion: one-branch facts.
- Optuna's queue is first in, first out, and a waiting trial keeps the class it was queued with; trials left waiting by an interrupted run are covered by TightIff, whose queue is arbitrary.
- irspack, Optuna and pandas: the suggested class, scores, recommendations and validation verdicts are inputs.
