/** How the server starts: the recipes directory is read leniently, every artifact is loaded once,
    and the watcher begins from what that produced. */
module Startup {
  import opened Wrappers
  import opened Runs
  import opened Sequences
  import opened ByteStrings
  import opened Container
  import opened ArtifactIO
  import opened Naming
  import opened Registry
  import opened WatcherModel
  import opened WatcherSafety
  import opened WatcherScan
  import opened Availability
  import opened Freshness
  import opened Watcher

  // ------------------------------------------------------------------ reading the directory

  /** One YAML file, in file-name order, and what parsing it gives. */
  datatype YamlFile = YamlFile(path: string, stem: string, parsed: Option<Recipe>)

  /** Some file among the first `n` parsed to a recipe of this name. */
  predicate Claimed(files: seq<YamlFile>, n: nat, name: string)
    requires n <= |files|
  {
    exists j :: 0 <= j < n && files[j].parsed.Some? && files[j].parsed.value.name == name
  }

  /** A recipe whose name an earlier file has claimed is reported as a failure. */
  function ResultOf(files: seq<YamlFile>, i: nat): Option<Recipe>
    requires i < |files|
  {
    if files[i].parsed.Some? && Claimed(files, i, files[i].parsed.value.name) then None else files[i].parsed
  }

  /** One result per file; every name some file claims belongs to the first file that claims it. */
  method LoadDirectoryLenient(files: seq<YamlFile>) returns (results: seq<Option<Recipe>>)
    ensures |results| == |files|
    ensures forall i :: 0 <= i < |files| ==> results[i] == ResultOf(files, i)
  {
    results := [];
    var namesSeen: set<string> := {};
    for i := 0 to |files|
      invariant |results| == i
      invariant forall k :: 0 <= k < i ==> results[k] == ResultOf(files, k)
      invariant forall name :: name in namesSeen <==> Claimed(files, i, name)
    {
      match files[i].parsed {
        case None =>
          results := results + [None];
        case Some(recipe) =>
          if recipe.name in namesSeen {
            results := results + [None];
          } else {
            results := results + [Some(recipe)];
            namesSeen := namesSeen + {recipe.name};
          }
      }
      assert forall name :: Claimed(files, i + 1, name) <==>
        Claimed(files, i, name) || (files[i].parsed.Some? && files[i].parsed.value.name == name);
    }
  }

  /** No two results carry recipes of one name. */
  lemma ResultsAreDistinct(files: seq<YamlFile>, i: nat, j: nat)
    requires i < j < |files| && ResultOf(files, i).Some? && ResultOf(files, j).Some?
    ensures ResultOf(files, i).value.name != ResultOf(files, j).value.name
  {
  }

  /** A name that some file declares has exactly one result, that of the first file to declare it. */
  lemma FirstClaimerKeeps(files: seq<YamlFile>, i: nat, r: Recipe)
    requires i < |files| && files[i].parsed == Some(r)
    ensures ResultOf(files, i) == Some(r) <==>
      forall j :: 0 <= j < i && files[j].parsed.Some? ==> files[j].parsed.value.name != r.name
    ensures exists j :: 0 <= j <= i && ResultOf(files, j).Some? && ResultOf(files, j).value.name == r.name
  {
    var j := 0;
    while !(files[j].parsed.Some? && files[j].parsed.value.name == r.name)
      invariant 0 <= j <= i
      invariant forall k :: 0 <= k < j && files[k].parsed.Some? ==> files[k].parsed.value.name != r.name
      decreases i - j
    {
      j := j + 1;
    }
    assert ResultOf(files, j).Some?;
  }

  // ------------------------------------------------------------------ stubs for broken files

  datatype StubName = StubName(name: string, path: string)

  /** The names taken and the stubs made by the first `n` results; a stub avoids the names of the
      results before it, not those after. */
  function StubsAfter(files: seq<YamlFile>, results: seq<Option<Recipe>>, n: nat): (set<string>, seq<StubName>)
    requires n <= |files| == |results|
  {
    if n == 0 then ({}, []) else
    var (seen, stubs) := StubsAfter(files, results, n - 1);
    match results[n - 1]
    case Some(recipe) => (seen + {recipe.name}, stubs)
    case None =>
      var name := FirstFree(files[n - 1].stem, seen, 0);
      (seen + {name}, stubs + [StubName(name, files[n - 1].path)])
  }

  lemma {:induction false} StubsDiffer(files: seq<YamlFile>, results: seq<Option<Recipe>>, n: nat)
    requires n <= |files| == |results|
    ensures forall i :: 0 <= i < |StubsAfter(files, results, n).1| ==>
      StubsAfter(files, results, n).1[i].name in StubsAfter(files, results, n).0
    ensures forall i, j :: 0 <= i < j < |StubsAfter(files, results, n).1| ==>
      StubsAfter(files, results, n).1[i].name != StubsAfter(files, results, n).1[j].name
  {
    if n > 0 {
      StubsDiffer(files, results, n - 1);
      var (seen, stubs) := StubsAfter(files, results, n - 1);
      match results[n - 1]
      case Some(recipe) =>
        assert StubsAfter(files, results, n) == (seen + {recipe.name}, stubs);
      case None =>
        var name := FirstFree(files[n - 1].stem, seen, 0);
        assert StubsAfter(files, results, n) == (seen + {name}, stubs + [StubName(name, files[n - 1].path)]);
    }
  }

  /** A name is taken after `n` results exactly if a recipe or a stub before has it. */
  lemma {:induction false} TakenIff(files: seq<YamlFile>, results: seq<Option<Recipe>>, n: nat, name: string)
    requires n <= |files| == |results|
    ensures name in StubsAfter(files, results, n).0 <==>
      || (exists i :: 0 <= i < n && results[i].Some? && results[i].value.name == name)
      || (exists k :: 0 <= k < |StubsAfter(files, results, n).1| && StubsAfter(files, results, n).1[k].name == name)
  {
    if n > 0 {
      TakenIff(files, results, n - 1, name);
      var (seen, stubs) := StubsAfter(files, results, n - 1);
      match results[n - 1]
      case Some(recipe) =>
        assert StubsAfter(files, results, n) == (seen + {recipe.name}, stubs);
      case None =>
        var stub := StubName(FirstFree(files[n - 1].stem, seen, 0), files[n - 1].path);
        assert StubsAfter(files, results, n) == (seen + {stub.name}, stubs + [stub]);
        assert (stubs + [stub])[|stubs|] == stub;
        assert forall k :: 0 <= k < |stubs| ==> (stubs + [stub])[k] == stubs[k];
    }
  }

  /** Each file without a recipe has its stub, in file order, at its path and named after its stem:
      by the stem itself if that is free, otherwise with the smallest number that makes it so. */
  lemma {:induction false} StubOfFile(files: seq<YamlFile>, results: seq<Option<Recipe>>, i: nat, n: nat) returns (number: nat)
    requires i < n <= |files| == |results| && results[i].None?
    ensures
      var k, stubs := CountIf(results[..i], (r: Option<Recipe>) => r.None?), StubsAfter(files, results, n).1;
      && k < |stubs| && stubs[k].path == files[i].path && stubs[k].name == Candidate(files[i].stem, number)
      && forall j :: 0 <= j < number ==> Candidate(files[i].stem, j) in StubsAfter(files, results, i).0
    ensures number == 0 <==> files[i].stem !in StubsAfter(files, results, i).0
    decreases n
  {
    hide CountIf, Candidate;
    if i == n - 1 {
      var (seen, stubs) := StubsAfter(files, results, i);
      StubCount(files, results, i);
      number := FirstFreeIsLeast(files[i].stem, seen, 0);
      assert StubsAfter(files, results, n).1 == stubs + [StubName(FirstFree(files[i].stem, seen, 0), files[i].path)];
      FirstCandidate(files[i].stem);
    } else {
      number := StubOfFile(files, results, i, n - 1);
    }
  }

  lemma FirstCandidate(stem: string)
    ensures Candidate(stem, 0) == stem
  {
  }

  lemma {:induction false} StubCount(files: seq<YamlFile>, results: seq<Option<Recipe>>, n: nat)
    requires n <= |files| == |results|
    ensures |StubsAfter(files, results, n).1| == CountIf(results[..n], (r: Option<Recipe>) => r.None?)
  {
    if n > 0 {
      StubCount(files, results, n - 1);
      assert results[..n][..n - 1] == results[..n - 1];
    }
  }

  method NameStubs(files: seq<YamlFile>, results: seq<Option<Recipe>>) returns (stubs: seq<StubName>)
    requires |files| == |results|
    ensures stubs == StubsAfter(files, results, |files|).1
    ensures forall i, j :: 0 <= i < j < |stubs| ==> stubs[i].name != stubs[j].name
  {
    var seen: set<string> := {};
    stubs := [];
    for i := 0 to |files|
      invariant (seen, stubs) == StubsAfter(files, results, i)
    {
      match results[i] {
        case Some(recipe) =>
          seen := seen + {recipe.name};
        case None =>
          var name := DedupStubName(files[i].stem, seen);
          seen := seen + {name};
          stubs := stubs + [StubName(name, files[i].path)];
      }
    }
    StubsDiffer(files, results, |files|);
  }

  // ------------------------------------------------------------------ loading each artifact once

  /** What the outside world answers while one recipe's artifact is loaded and, later, statted. */
  datatype Loading = Loading(
    recipe: Recipe, read: Read, late: Late, entryMarker: Option<Marker>, stat: Stat, sidecar: SidecarFile)

  /** The entry of a start-up load: exhaustion is a failure here, not the end of a thread. */
  function LoadedEntry(cfg: Config, l: Loading): Entry {
    match l.read
    case ReadFails => Stub(Some(ReadFailed))
    case ReadOk(data) =>
      match BuildEntry(cfg, Some(l.recipe), data, l.late)
      case Built(e) => e.(marker := l.entryMarker, sha := Some(cfg.crypto.sha256(data)))
      case _ => Stub(Some(BuildFailed))
  }

  /** Only a loaded recipe has its marker and digest remembered; the marker is statted here, after
      the artifact was read. */
  function InitialState(cfg: Config, l: Loading): WatchState {
    var state := NewState(Some(l.recipe), l.recipe.outputPath);
    var e := LoadedEntry(cfg, l);
    if !e.loaded then state else
      state.(
        lastMarker := match l.stat case NotThere => Unset case StatRaised(_) => StatErrorSentinel case Marked(m) => Seen(m),
        lastSha := e.sha,
        sidecar := FRESH_SIDECAR.(contents := if l.sidecar.Contents? then Some(l.sidecar.text) else None))
  }

  ghost predicate DistinctLoadings(loads: seq<Loading>) {
    forall i, j :: 0 <= i < j < |loads| ==> loads[i].recipe.name != loads[j].recipe.name
  }

  function Names(loads: seq<Loading>): set<string> {
    set i | 0 <= i < |loads| :: loads[i].recipe.name
  }

  /** The first loading of that name (there is only one). */
  function LoadingOf(loads: seq<Loading>, name: string): Loading
    requires name in Names(loads)
  {
    if loads[0].recipe.name == name then loads[0]
    else
      assert exists i :: 0 <= i < |loads[1..]| && loads[1..][i].recipe.name == name by {
        var i :| 0 <= i < |loads| && loads[i].recipe.name == name;
        assert loads[1..][i - 1].recipe.name == name;
      }
      LoadingOf(loads[1..], name)
  }

  lemma {:induction false} LoadingAt(loads: seq<Loading>, i: nat)
    requires i < |loads| && DistinctLoadings(loads)
    ensures loads[i].recipe.name in Names(loads) && LoadingOf(loads, loads[i].recipe.name) == loads[i]
  {
    if i > 0 {
      assert loads[1..][i - 1] == loads[i];
      LoadingAt(loads[1..], i - 1);
    }
  }

  /** The registry once every load has come in, in whatever order. */
  function Filled(cfg: Config, base: View, loads: seq<Loading>): View {
    map n | n in base.Keys + Names(loads) ::
      if n in Names(loads) then LoadedEntry(cfg, LoadingOf(loads, n)) else base[n]
  }

  function InitialStates(cfg: Config, loads: seq<Loading>): map<string, WatchState> {
    map n | n in Names(loads) :: InitialState(cfg, LoadingOf(loads, n))
  }

  function StubEntries(stubs: seq<StubName>, n: nat): View
    requires n <= |stubs|
  {
    if n == 0 then map[] else StubEntries(stubs, n - 1)[stubs[n - 1].name := Stub(Some(YamlFailed))]
  }

  function StubPaths(stubs: seq<StubName>, n: nat): map<string, string>
    requires n <= |stubs|
  {
    if n == 0 then map[] else StubPaths(stubs, n - 1)[stubs[n - 1].path := stubs[n - 1].name]
  }

  /** Where the watcher begins. */
  function StartState(cfg: Config, stubs: seq<StubName>, loads: seq<Loading>): WState {
    WState(InitialStates(cfg, loads), Filled(cfg, StubEntries(stubs, |stubs|), loads), StubPaths(stubs, |stubs|), map[], 0)
  }

  // ------------------------------------------------------------------ the start state is safe

  lemma {:induction false} StubEntriesAreStubs(stubs: seq<StubName>, n: nat, name: string)
    requires n <= |stubs|
    ensures name in StubEntries(stubs, n) <==> exists i :: 0 <= i < n && stubs[i].name == name
    ensures name in StubEntries(stubs, n) ==> StubEntries(stubs, n)[name] == Stub(Some(YamlFailed))
  {
    if n > 0 {
      StubEntriesAreStubs(stubs, n - 1, name);
    }
  }

  /** From the first instant on, only what verified is served: every start state satisfies the
      invariant that every step of the watcher keeps. */
  lemma StartIsSafe(cfg: Config, stubs: seq<StubName>, loads: seq<Loading>)
    ensures Inv(cfg, StartState(cfg, stubs, loads))
  {
    hide Authentic, Filled, LoadingOf, Names;
    var w := StartState(cfg, stubs, loads);
    forall n
      ensures NameInv(cfg, w, n)
    {
      StubEntriesAreStubs(stubs, |stubs|, n);
      FilledAt(cfg, StubEntries(stubs, |stubs|), loads, n);
      if n in Names(loads) {
        LoadedEntryIsGenuine(cfg, LoadingOf(loads, n));
      }
    }
  }

  /** Serve only what verified, over every run of the process: a loaded entry was built from bytes
      that parsed and, with a key ring, carried a valid MAC; their digest is the entry's version and
      the watcher's record. The sentinel only ever stands on watched entries of a failing watcher,
      and no watched name is missing from the registry. */
  lemma OnlyVerifiedIsServed(cfg: Config, stubs: seq<StubName>, loads: seq<Loading>, events: seq<Event>, n: string)
    ensures
      var w := Run(Applying(cfg), StartState(cfg, stubs, loads), events);
      && (n in w.registry && w.registry[n].loaded ==>
            var model := w.registry[n].model;
            && model.Some? && n in w.states
            && w.registry[n].sha == Some(cfg.crypto.sha256(model.value)) == w.states[n].lastSha
            && (if cfg.ring.Some? then Verified(cfg.crypto, cfg.ring.value, model.value, cfg.maxPayload).Success?
                else Parse(model.value, cfg.maxPayload).Success?))
      && (n in w.registry && w.registry[n].error == Some(WatcherUnhealthy) ==>
            n in w.states && w.errors >= cfg.threshold)
      && (n in w.states ==> n in w.registry)
  {
    hide Verified, Parse, StartState, Run, Inv;
    StartIsSafe(cfg, stubs, loads);
    RunKeepsInv(cfg, StartState(cfg, stubs, loads), events);
    InvRow(cfg, Run(Applying(cfg), StartState(cfg, stubs, loads), events), n);
  }

  lemma FilledAt(cfg: Config, base: View, loads: seq<Loading>, n: string)
    ensures n in Filled(cfg, base, loads) <==> n in base || n in Names(loads)
    ensures n in Names(loads) ==> Filled(cfg, base, loads)[n] == LoadedEntry(cfg, LoadingOf(loads, n))
    ensures n !in Names(loads) && n in base ==> Filled(cfg, base, loads)[n] == base[n]
  {
  }

  lemma LoadedEntryIsGenuine(cfg: Config, l: Loading)
    ensures
      var e := LoadedEntry(cfg, l);
      && (e.loaded ==> Genuine(cfg, e) && e.error.None? && l.read == ReadOk(e.model.value))
      && (!e.loaded ==> e == Stub(e.error) && e.error.Some? && e.error != Some(WatcherUnhealthy))
  {
  }

  /** What a start-up load comes to: an artifact that can be read, is authentic and builds is served
      from the first instant on; anything else leaves a complaint. */
  lemma StartLoadsIff(cfg: Config, l: Loading)
    ensures
      LoadedEntry(cfg, l) ==
      match l.read
      case ReadFails => Entry(false, None, Some(ReadFailed), None, None)
      case ReadOk(data) =>
        if Authentic(cfg, data) && l.late.Builds?
        then Entry(true, Some(data), None, l.entryMarker, Some(cfg.crypto.sha256(data)))
        else Entry(false, None, Some(BuildFailed), None, None)
  {
    hide Authentic;
  }

  /** What the watcher remembers of a start-up load. Only a loaded recipe has anything remembered: its
      digest, the marker of its stat if there was one, and its sidecar's text. A failed stat leaves
      a memory that no marker equals, so the first successful stat reads the artifact again. */
  lemma StartRemembers(cfg: Config, l: Loading, m: Marker)
    ensures
      var st := InitialState(cfg, l);
      && st.recipe == Some(l.recipe) && st.path == l.recipe.outputPath
      && (LoadedEntry(cfg, l).loaded ==>
            && st.lastSha == LoadedEntry(cfg, l).sha
            && (st.lastMarker == Seen(m) <==> l.stat == Marked(m))
            && (st.lastMarker == Unset <==> l.stat.NotThere?)
            && (st.sidecar.contents.Some? <==> l.sidecar.Contents?)
            && (l.sidecar.Contents? ==> st.sidecar.contents == Some(l.sidecar.text)))
      && (!LoadedEntry(cfg, l).loaded ==> st.lastSha.None? && st.lastMarker == Unset && st.sidecar.contents.None?)
      && !st.sidecar.unsupported && st.sidecar.ioErrors == 0
  {
    hide LoadedEntry;
  }

  // ------------------------------------------------------------------ read first, stat later

  /** The load read the file at `readAt` and the watcher's record statted it at `statAt`. */
  ghost predicate ObservedAt(world: World, l: Loading, readAt: nat, statAt: nat) {
    && readAt <= statAt
    && (l.read.ReadOk? ==>
          There(world, l.recipe.outputPath, readAt) && DataAt(world, l.recipe.outputPath, readAt) == l.read.data)
    && (l.stat.Marked? ==>
          There(world, l.recipe.outputPath, statAt) && MarkerAt(world, l.recipe.outputPath, statAt) == l.stat.m)
  }

  /** The file does not change from its read to its stat. */
  ghost predicate Quiet(world: World, l: Loading, readAt: nat, statAt: nat) {
    world.file(l.recipe.outputPath, readAt) == world.file(l.recipe.outputPath, statAt)
  }

  lemma QuietRowRecorded(
    cfg: Config, world: World, l: Loading, readAt: nat, statAt: nat, path: string, since: nat, now: nat)
    requires ObservedAt(world, l, readAt, statAt) && since <= readAt && statAt <= now && EmptyPathInert(cfg, world)
    requires l.recipe.outputPath == path ==> Quiet(world, l, readAt, statAt)
    ensures RowRecorded(cfg, world, InitialState(cfg, l), path, since, now)
  {
    hide Authentic, Content;
    var e := LoadedEntry(cfg, l);
    LoadedEntryIsGenuine(cfg, l);
    if e.loaded && l.recipe.outputPath == path {
      assert ReadAt(cfg, world, path, e.sha.value, readAt);
      if l.stat.Marked? {
        assert StattedAt(world, path, l.stat.m, readAt);
      }
    }
  }

  /** With a quiet start-up, the markers remembered at the start are as good as any remembered
      later, so the freshness results hold for runs from the start state. */
  lemma QuietStartIsRecorded(
    cfg: Config, world: World, stubs: seq<StubName>, loads: seq<Loading>, times: seq<(nat, nat)>,
    path: string, since: nat, now: nat)
    requires DistinctLoadings(loads) && |times| == |loads| && EmptyPathInert(cfg, world)
    requires forall i :: 0 <= i < |loads| ==>
      && ObservedAt(world, loads[i], times[i].0, times[i].1) && since <= times[i].0 && times[i].1 <= now
      && (loads[i].recipe.outputPath == path ==> Quiet(world, loads[i], times[i].0, times[i].1))
    ensures Recorded(cfg, world, StartState(cfg, stubs, loads), path, since, now)
  {
    hide InitialState, RowRecorded, ObservedAt, Quiet, EmptyPathInert;
    forall n | n in Names(loads)
      ensures RowRecorded(cfg, world, InitialState(cfg, LoadingOf(loads, n)), path, since, now)
    {
      var i :| 0 <= i < |loads| && loads[i].recipe.name == n;
      LoadingAt(loads, i);
      QuietRowRecorded(cfg, world, loads[i], times[i].0, times[i].1, path, since, now);
    }
  }

  /** The freshness theorem from the start of the process on: with a quiet start-up and a storage
      that never shows an old marker again, in every reachable state and at every later instant a
      row whose remembered marker is the file's current one serves the file's current content. */
  lemma QuietStartStaysFresh(
    cfg: Config, world: World, stubs: seq<StubName>, loads: seq<Loading>, times: seq<(nat, nat)>,
    path: string, since: nat, now: nat, run: seq<Timed>, t: nat)
    requires DistinctLoadings(loads) && |times| == |loads| && since <= now
    requires forall i :: 0 <= i < |loads| ==>
      && ObservedAt(world, loads[i], times[i].0, times[i].1) && since <= times[i].0 && times[i].1 <= now
      && (loads[i].recipe.outputPath == path ==> Quiet(world, loads[i], times[i].0, times[i].1))
    requires path != "" && CollisionFree(cfg, world, path) && EmptyPathInert(cfg, world)
    requires SteadyMarkers(cfg, world, path, since)
    requires Plausible(cfg, world, StartState(cfg, stubs, loads), since, now, run) && EndOf(now, run) <= t
    ensures FreshAt(cfg, world, After(cfg, StartState(cfg, stubs, loads), run), path, t)
  {
    hide SteadyMarkers, Plausible, StartState, Inv, Recorded, FreshAt, After, CollisionFree, ObservedAt, Quiet;
    hide EmptyPathInert;
    var w := StartState(cfg, stubs, loads);
    QuietStartIsRecorded(cfg, world, stubs, loads, times, path, since, now);
    StartIsSafe(cfg, stubs, loads);
    RunKeepsRecord(cfg, world, w, path, since, now, run);
    RecordProvesFresh(cfg, world, After(cfg, w, run), path, since, EndOf(now, run), t);
  }

  lemma StartRow(cfg: Config, stubs: seq<StubName>, loads: seq<Loading>, i: nat)
    requires DistinctLoadings(loads) && i < |loads|
    ensures
      var w, n := StartState(cfg, stubs, loads), loads[i].recipe.name;
      && n in w.states && w.states[n] == InitialState(cfg, loads[i])
      && n in w.registry && w.registry[n] == LoadedEntry(cfg, loads[i])
  {
    hide LoadedEntry, InitialState, LoadingOf;
    LoadingAt(loads, i);
  }

  /** Without quiet it goes wrong, and for good. A file is read, rewritten, then statted, and from
      then on keeps the marker of that stat: at every later state, until the name is dropped, the
      watcher still serves the digest of what it read, whatever the file holds. */
  lemma {:induction false} StatAfterReadIsStaleForGood(
    cfg: Config, world: World, stubs: seq<StubName>, loads: seq<Loading>, i: nat, readAt: nat, statAt: nat, run: seq<Timed>)
    requires DistinctLoadings(loads) && i < |loads| && ObservedAt(world, loads[i], readAt, statAt)
    requires LoadedEntry(cfg, loads[i]).loaded && loads[i].stat.Marked? && loads[i].recipe.outputPath != ""
    requires AtRest(world, loads[i].recipe.outputPath, loads[i].stat.m, statAt)
    requires Plausible(cfg, world, StartState(cfg, stubs, loads), statAt, statAt, run)
    requires AlwaysFound(cfg, StartState(cfg, stubs, loads), Events(run), loads[i].recipe.name)
    requires forall k :: 0 <= k < |run| && run[k].e.Observed? && run[k].e.name == loads[i].recipe.name ==>
      run[k].e.o.sidecar.Absent?
    ensures
      var w := After(cfg, StartState(cfg, stubs, loads), run);
      && Serving(w, loads[i].recipe.name)
      && w.registry[loads[i].recipe.name].sha
         == Some(cfg.crypto.sha256(DataAt(world, loads[i].recipe.outputPath, readAt)))
  {
    hide Authentic, Content, Inv, Plausible, AlwaysFound, AtRest, StartState;
    var l := loads[i];
    var w, n := StartState(cfg, stubs, loads), l.recipe.name;
    StartRow(cfg, stubs, loads, i);
    StartIsSafe(cfg, stubs, loads);
    LoadedEntryIsGenuine(cfg, l);
    StaleForGood(cfg, world, w, statAt, statAt, run, n, l.recipe.outputPath, l.stat.m, LoadedEntry(cfg, l).sha.value);
  }

  /** The loads as start-up makes them: every file is read before any is statted. */
  ghost predicate LoadsObserved(world: World, loads: seq<Loading>, times: seq<(nat, nat)>) {
    && |times| == |loads|
    && (forall j :: 0 <= j < |loads| ==> ObservedAt(world, loads[j], times[j].0, times[j].1))
    && forall i, j :: 0 <= i < |loads| && 0 <= j < |loads| ==> times[i].0 <= times[j].1
  }

  /** A loaded row was read from a path at which artifacts can stand. */
  lemma LoadedRead(cfg: Config, world: World, l: Loading, readAt: nat, statAt: nat)
    requires ObservedAt(world, l, readAt, statAt) && EmptyPathInert(cfg, world) && LoadedEntry(cfg, l).loaded
    ensures l.recipe.outputPath != "" && l.read.ReadOk? && LoadedEntry(cfg, l).sha == Some(cfg.crypto.sha256(l.read.data))
    ensures ReadAt(cfg, world, l.recipe.outputPath, cfg.crypto.sha256(l.read.data), readAt)
  {
    hide Authentic, Content;
    LoadedEntryIsGenuine(cfg, l);
    EntryDigest(cfg, l);
  }

  lemma StartReadThere(cfg: Config, world: World, stubs: seq<StubName>, loads: seq<Loading>, times: seq<(nat, nat)>, i: nat)
    requires DistinctLoadings(loads) && i < |loads| && LoadsObserved(world, loads, times) && EmptyPathInert(cfg, world)
    ensures ReadThere(cfg, world, StartState(cfg, stubs, loads), loads[i].recipe.outputPath, times[i].1)
  {
    hide LoadedEntry, LoadingOf, ReadAt, EmptyPathInert, ObservedAt;
    var w := StartState(cfg, stubs, loads);
    forall n | n in w.states && w.states[n].lastSha.Some?
      ensures w.states[n].path != ""
      ensures w.states[n].path == loads[i].recipe.outputPath ==>
        WasThere(cfg, world, loads[i].recipe.outputPath, w.states[n].lastSha.value, times[i].1)
    {
      var j :| 0 <= j < |loads| && loads[j].recipe.name == n;
      StartRow(cfg, stubs, loads, j);
      LoadedRead(cfg, world, loads[j], times[j].0, times[j].1);
    }
  }

  /** Freshness from the start of the process, over every run: it holds exactly if the storage never
      shows an old marker again after other content and the file had, at the instant of its
      start-up stat, content of the digest that had been read before. */
  lemma StartAlwaysFreshIff(
    cfg: Config, world: World, stubs: seq<StubName>, loads: seq<Loading>, times: seq<(nat, nat)>, i: nat)
    requires DistinctLoadings(loads) && i < |loads| && LoadsObserved(world, loads, times)
    requires CollisionFree(cfg, world, loads[i].recipe.outputPath) && EmptyPathInert(cfg, world)
    requires LoadedEntry(cfg, loads[i]).loaded
    requires forall j :: 0 <= j < |loads| && j != i && loads[j].recipe.outputPath == loads[i].recipe.outputPath ==>
      !LoadedEntry(cfg, loads[j]).loaded
    ensures
      var path, readAt, statAt := loads[i].recipe.outputPath, times[i].0, times[i].1;
      AlwaysFresh(cfg, world, StartState(cfg, stubs, loads), path, statAt) <==>
      && SteadyMarkers(cfg, world, path, statAt)
      && (loads[i].stat.Marked? ==>
            cfg.crypto.sha256(DataAt(world, path, readAt)) == cfg.crypto.sha256(DataAt(world, path, statAt)))
  {
    hide Authentic, Content, Inv, AlwaysFresh, SteadyMarkers, CollisionFree, EmptyPathInert, LoadedEntry, StartState, ReadThere;
    var w, l, path := StartState(cfg, stubs, loads), loads[i], loads[i].recipe.outputPath;
    StartRow(cfg, stubs, loads, i);
    StartIsSafe(cfg, stubs, loads);
    LoadedRead(cfg, world, l, times[i].0, times[i].1);
    StartReadThere(cfg, world, stubs, loads, times, i);
    FreshIff(cfg, world, w, path, l.recipe.name, times[i].1);
    if SteadyMarkers(cfg, world, path, times[i].1) {
      StartMarkersStandIff(cfg, world, stubs, loads, times, i);
    }
  }

  lemma StartMarkersStandIff(
    cfg: Config, world: World, stubs: seq<StubName>, loads: seq<Loading>, times: seq<(nat, nat)>, i: nat)
    requires DistinctLoadings(loads) && i < |loads| && LoadsObserved(world, loads, times)
    requires CollisionFree(cfg, world, loads[i].recipe.outputPath) && EmptyPathInert(cfg, world)
    requires LoadedEntry(cfg, loads[i]).loaded
    requires forall j :: 0 <= j < |loads| && j != i && loads[j].recipe.outputPath == loads[i].recipe.outputPath ==>
      !LoadedEntry(cfg, loads[j]).loaded
    requires SteadyMarkers(cfg, world, loads[i].recipe.outputPath, times[i].1)
    ensures
      var path, readAt, statAt := loads[i].recipe.outputPath, times[i].0, times[i].1;
      MarkersStand(cfg, world, StartState(cfg, stubs, loads), path, statAt) <==>
      (loads[i].stat.Marked? ==>
         cfg.crypto.sha256(DataAt(world, path, readAt)) == cfg.crypto.sha256(DataAt(world, path, statAt)))
  {
    hide Authentic, Content, LoadedEntry, LoadingOf, EmptyPathInert;
    var w, l, path := StartState(cfg, stubs, loads), loads[i], loads[i].recipe.outputPath;
    StartRow(cfg, stubs, loads, i);
    LoadedRead(cfg, world, l, times[i].0, times[i].1);
    forall n | n in w.states && w.states[n].path == path && w.states[n].lastSha.Some?
      ensures n == l.recipe.name
    {
      var j :| 0 <= j < |loads| && loads[j].recipe.name == n;
      StartRow(cfg, stubs, loads, j);
    }
    if l.stat.Marked? {
      StandsIff(cfg, world, path, l.stat.m, cfg.crypto.sha256(l.read.data), times[i].0, times[i].1);
    }
  }

  /** A marker seen at `statAt` stands for the digest read at `readAt` exactly if the file had that
      digest when the marker was seen. */
  lemma StandsIff(cfg: Config, world: World, path: string, m: Marker, sha: Digest, readAt: nat, statAt: nat)
    requires StattedAt(world, path, m, statAt) && ReadAt(cfg, world, path, sha, readAt)
    requires CollisionFree(cfg, world, path) && SteadyMarkers(cfg, world, path, statAt)
    ensures StandsFor(cfg, world, path, m, sha, statAt) <==> cfg.crypto.sha256(DataAt(world, path, statAt)) == sha
  {
    hide Authentic, Content;
    if cfg.crypto.sha256(DataAt(world, path, statAt)) == sha {
      assert DataAt(world, path, statAt) == DataAt(world, path, readAt);
      forall k | statAt <= k && StattedAt(world, path, m, k)
        ensures cfg.crypto.sha256(DataAt(world, path, k)) == sha
      {
        assert SameMarkerAround(world, path, statAt, statAt, k);
      }
    }
  }

  lemma EntryDigest(cfg: Config, l: Loading)
    requires LoadedEntry(cfg, l).loaded
    ensures l.read.ReadOk? && LoadedEntry(cfg, l).sha == Some(cfg.crypto.sha256(l.read.data))
  {
  }

  // ------------------------------------------------------------------ what becomes of the stubs

  lemma {:induction false} StubPathAt(stubs: seq<StubName>, n: nat, i: nat)
    requires i < n <= |stubs| && forall j, k :: 0 <= j < k < |stubs| ==> stubs[j].path != stubs[k].path
    ensures stubs[i].path in StubPaths(stubs, n) && StubPaths(stubs, n)[stubs[i].path] == stubs[i].name
  {
    if i < n - 1 {
      StubPathAt(stubs, n - 1, i);
    }
  }

  /** A start-up stub is registered, and its path is handed to the watcher so that the first rescan
      can find it. The first rescan that still cannot parse the file keeps the stub's name exactly
      if a recipe of that name was loaded too. Otherwise it makes a second stub under a new name,
      and the first one stays behind, watched by nobody. */
  lemma FirstScanKeepsStubIff(cfg: Config, stubs: seq<StubName>, loads: seq<Loading>, i: nat, files: seq<Probe>, f: nat)
    requires i < |stubs| && forall j, k :: 0 <= j < k < |stubs| ==> stubs[j].path != stubs[k].path
    requires DistinctPaths(files) && f < |files| && files[f].path == stubs[i].path && files[f].parsed.None?
    ensures
      var start, path := StartState(cfg, stubs, loads), stubs[i].path;
      var w := Scan(start, Some(files));
      && path in w.paths && w.paths[path] in w.states && stubs[i].name in w.registry
      && (w.paths[path] == stubs[i].name <==> stubs[i].name in Names(loads))
      && (stubs[i].name !in Names(loads) ==> w.paths[path] !in start.registry)
  {
    hide Scan, Filled, LoadingOf, Names, Inv;
    var w := StartState(cfg, stubs, loads);
    StubPathAt(stubs, |stubs|, i);
    StubEntriesAreStubs(stubs, |stubs|, stubs[i].name);
    FilledAt(cfg, StubEntries(stubs, |stubs|), loads, stubs[i].name);
    StartIsSafe(cfg, stubs, loads);
    RowGivesDomain(cfg, w);
    BrokenFileKeepsNameIff(w, files, f, stubs[i].name);
  }

  // ------------------------------------------------------------------ the objects

  lemma FilledStep(cfg: Config, base: View, loads: seq<Loading>, done: set<nat>, v: View, i: nat)
    requires DistinctLoadings(loads) && i < |loads| && FilledSoFar(cfg, base, loads, done, v)
    ensures FilledSoFar(cfg, base, loads, done + {i}, v[loads[i].recipe.name := LoadedEntry(cfg, loads[i])])
  {
    hide LoadedEntry;
  }

  /** The registry after the loads numbered in `done` have come in. */
  ghost predicate FilledSoFar(cfg: Config, base: View, loads: seq<Loading>, done: set<nat>, v: View) {
    && (forall n :: n in v <==> n in base || exists i :: i in done && 0 <= i < |loads| && loads[i].recipe.name == n)
    && (forall i :: i in done && 0 <= i < |loads| ==>
          loads[i].recipe.name in v && v[loads[i].recipe.name] == LoadedEntry(cfg, loads[i]))
    && (forall n :: n in v && (forall i :: i in done && 0 <= i < |loads| ==> loads[i].recipe.name != n) ==>
          n in base && v[n] == base[n])
  }

  lemma FilledAtLast(cfg: Config, base: View, loads: seq<Loading>, done: set<nat>, v: View)
    requires DistinctLoadings(loads) && FilledSoFar(cfg, base, loads, done, v)
    requires forall i :: 0 <= i < |loads| ==> i in done
    ensures v == Filled(cfg, base, loads)
  {
    hide LoadedEntry, LoadingOf;
    forall n | n in Names(loads)
      ensures n in v && v[n] == LoadedEntry(cfg, LoadingOf(loads, n))
    {
      var i :| 0 <= i < |loads| && loads[i].recipe.name == n;
      LoadingAt(loads, i);
    }
    assert v.Keys == base.Keys + Names(loads);
  }

  method LoadArtifact(cfg: Config, l: Loading) returns (entry: ModelEntry)
    ensures fresh(entry) && entry.Snapshot() == LoadedEntry(cfg, l)
  {
    hide WatcherModel.BuildEntry;
    match l.read {
      case ReadFails =>
        entry := new ModelEntry(false, None, Some(ReadFailed), None, None);
      case ReadOk(data) =>
        match WatcherModel.BuildEntry(cfg, Some(l.recipe), data, l.late) {
          case Built(e) =>
            entry := new ModelEntry(e.loaded, e.model, e.error, l.entryMarker, Some(cfg.crypto.sha256(data)));
          case _ =>
            entry := new ModelEntry(false, None, Some(BuildFailed), None, None);
        }
    }
  }

  function Indices(n: nat): (s: set<nat>)
    ensures forall i :: i in s <==> 0 <= i < n
  {
    if n == 0 then {} else Indices(n - 1) + {n - 1}
  }

  /** Register the loads as they complete, in any order: the outcome is the same. */
  method FillRegistry(cfg: Config, registry: ModelRegistry, loads: seq<Loading>)
    requires registry.Valid() && DistinctLoadings(loads)
    modifies registry
    ensures registry.Valid() && registry.Contents() == Filled(cfg, old(registry.Contents()), loads)
    ensures fresh(registry.entries.Values - old(registry.entries.Values))
  {
    hide FilledSoFar, Filled, LoadedEntry, ModelRegistry.Valid, ModelRegistry.Contents;
    ghost var base := registry.Contents();
    var todo := Indices(|loads|);
    ghost var done: set<nat> := {};
    NothingFilled(cfg, base, loads);
    while todo != {}
      invariant done + todo == Indices(|loads|)
      invariant registry.Valid() && fresh(registry.entries.Values - old(registry.entries.Values))
      invariant FilledSoFar(cfg, base, loads, done, registry.Contents())
      decreases |todo|
    {
      var i :| i in todo;
      FilledStep(cfg, base, loads, done, registry.Contents(), i);
      var entry := LoadArtifact(cfg, loads[i]);
      registry.Replace(loads[i].recipe.name, entry);
      todo, done := todo - {i}, done + {i};
    }
    FilledAtLast(cfg, base, loads, done, registry.Contents());
  }

  lemma NothingFilled(cfg: Config, base: View, loads: seq<Loading>)
    ensures FilledSoFar(cfg, base, loads, {}, base)
  {
  }

  method RegisterStubs(registry: ModelRegistry, stubs: seq<StubName>)
    requires registry.Valid() && registry.Contents() == map[]
    modifies registry
    ensures registry.Valid() && registry.Contents() == StubEntries(stubs, |stubs|)
    ensures fresh(registry.entries.Values - old(registry.entries.Values))
  {
    hide ModelRegistry.Valid, ModelRegistry.Contents;
    for i := 0 to |stubs|
      invariant registry.Valid() && registry.Contents() == StubEntries(stubs, i)
      invariant fresh(registry.entries.Values - old(registry.entries.Values))
    {
      var stub := new ModelEntry(false, None, Some(YamlFailed), None, None);
      registry.Replace(stubs[i].name, stub);
    }
  }

  method WatchLoaded(cfg: Config, l: Loading) returns (state: RecipeWatchState)
    ensures fresh(state) && state.Snapshot() == InitialState(cfg, l)
  {
    hide LoadedEntry;
    state := new RecipeWatchState(Some(l.recipe), l.recipe.outputPath);
    var e := LoadedEntry(cfg, l);
    if e.loaded {
      match l.stat {
        case StatRaised(_) => state.lastMarker := StatErrorSentinel;
        case NotThere => state.lastMarker := Unset;
        case Marked(m) => state.lastMarker := Seen(m);
      }
      state.lastSha := e.sha;
      if l.sidecar.Contents? {
        state.sidecarContents := Some(l.sidecar.text);
      }
    }
  }

  /** One record per recipe. A sidecar that is not UTF-8 text raises out of the whole start-up. */
  method BuildInitialStates(cfg: Config, loads: seq<Loading>) returns (states: Option<map<string, RecipeWatchState>>)
    requires DistinctLoadings(loads)
    ensures states.None? <==> exists i :: 0 <= i < |loads| && LoadedEntry(cfg, loads[i]).loaded && loads[i].sidecar.Undecodable?
    ensures states.Some? ==>
      && (forall n :: n in states.value ==> fresh(states.value[n])) && states.value.Keys == Names(loads)
      && (forall m, n :: m in states.value && n in states.value && m != n ==> states.value[m] != states.value[n])
      && (forall i :: 0 <= i < |loads| ==>
            loads[i].recipe.name in states.value
            && states.value[loads[i].recipe.name].Snapshot() == InitialState(cfg, loads[i]))
  {
    hide LoadedEntry, InitialState;
    var built: map<string, RecipeWatchState> := map[];
    for i := 0 to |loads|
      invariant forall k :: 0 <= k < i ==> !(LoadedEntry(cfg, loads[k]).loaded && loads[k].sidecar.Undecodable?)
      invariant (forall n :: n in built ==> fresh(built[n])) && built.Keys == set k | 0 <= k < i :: loads[k].recipe.name
      invariant forall m, n :: m in built && n in built && m != n ==> built[m] != built[n]
      invariant forall k :: 0 <= k < i ==>
        loads[k].recipe.name in built && built[loads[k].recipe.name].Snapshot() == InitialState(cfg, loads[k])
    {
      if LoadedEntry(cfg, loads[i]).loaded && loads[i].sidecar.Undecodable? {
        return None;
      }
      var state := WatchLoaded(cfg, loads[i]);
      built := built[loads[i].recipe.name := state];
    }
    return Some(built);
  }

  /** Build the registry and the watcher; start-up fails as a whole only on an undecodable sidecar. */
  method CreateApp(cfg: Config, stubs: seq<StubName>, loads: seq<Loading>) returns (watcher: ArtifactWatcher?)
    requires DistinctLoadings(loads)
    ensures watcher == null <==> exists i :: 0 <= i < |loads| && LoadedEntry(cfg, loads[i]).loaded && loads[i].sidecar.Undecodable?
    ensures watcher != null ==>
      fresh(watcher) && watcher.Valid() && watcher.cfg == cfg
      && watcher.View() == StartState(cfg, stubs, loads) && Inv(cfg, watcher.View())
  {
    hide LoadedEntry, InitialState, Filled, Inv, LoadingOf, ModelRegistry.Valid, ModelRegistry.Contents;
    StartIsSafe(cfg, stubs, loads);
    var registry := new ModelRegistry();
    RegisterStubs(registry, stubs);
    FillRegistry(cfg, registry, loads);
    var states := BuildInitialStates(cfg, loads);
    if states.None? {
      return null;
    }
    watcher := new ArtifactWatcher(cfg, registry, states.value);
    forall n | n in Names(loads)
      ensures watcher.States()[n] == InitialState(cfg, LoadingOf(loads, n))
    {
      var i :| 0 <= i < |loads| && loads[i].recipe.name == n;
      LoadingAt(loads, i);
    }
    assert watcher.States() == InitialStates(cfg, loads);
    for i := 0 to |stubs|
      invariant watcher.Valid() && watcher.View() == StartState(cfg, stubs, loads).(paths := StubPaths(stubs, i))
    {
      watcher.PreseedYamlPath(stubs[i].path, stubs[i].name);
    }
  }
}
