/** The scan's per-file mtime cache: a scan that uses it does what a scan that parses every file
    would do, with each file read at an instant inside the scan. */
module YamlCache {
  import opened Wrappers
  import opened Runs
  import opened Registry
  import opened Naming
  import opened WatcherModel
  import opened WatcherSafety
  import opened WatcherScan
  import opened Availability

  // ------------------------------------------------------------------ with and without the cache

  /** The same tables, the cache aside. */
  predicate Same(w: WState, u: WState) {
    u == w.(cache := u.cache)
  }

  /** The probe of a scan that ignores the cache: no mtime, and the recipe that the cached scan
      used as the result of parsing. */
  function Reparsed(cache: map<string, (Mtime, Recipe)>, p: Probe): Probe {
    p.(mtime := None, parsed := RecipeOf(cache, p))
  }

  function ReparsedListing(w: WState, listing: Option<seq<Probe>>): Option<seq<Probe>> {
    match listing
    case None => None
    case Some(files) => Some(seq(|files|, i requires 0 <= i < |files| => Reparsed(w.cache, files[i])))
  }

  lemma SameFile(w: WState, u: WState, current: set<string>, p: Probe, q: Probe)
    requires Same(w, u) && q == p.(mtime := None, parsed := RecipeOf(w.cache, p))
    ensures
      var (w', name), (u', other) := ScanFile(w, current, p), ScanFile(u, current, q);
      Same(w', u') && name == other
  {
    hide FirstFree, WithError;
  }

  /** The files before the `i`th leave the cache alone where the `i`th looks at it. */
  lemma SameRecipe(w: WState, files: seq<Probe>, i: nat)
    requires w.states.Keys <= w.registry.Keys && DistinctPaths(files) && i < |files|
    ensures RecipeOf(ScanPrefix(w, files, i).0.cache, files[i]) == RecipeOf(w.cache, files[i])
  {
    hide ScanPrefix;
    FileMetFresh(w, files, i);
  }

  lemma {:induction false} SamePrefix(w: WState, u: WState, files: seq<Probe>, parsed: seq<Probe>, n: nat)
    requires w.states.Keys <= w.registry.Keys && DistinctPaths(files) && Same(w, u)
    requires n <= |files| == |parsed| && forall i :: 0 <= i < |files| ==> parsed[i] == Reparsed(w.cache, files[i])
    ensures
      var (w', found), (u', other) := ScanPrefix(w, files, n), ScanPrefix(u, parsed, n);
      Same(w', u') && found == other
  {
    hide Same, ScanFile, RecipeOf;
    if n > 0 {
      SamePrefix(w, u, files, parsed, n - 1);
      SameRecipe(w, files, n - 1);
      var v, v' := ScanPrefix(w, files, n - 1).0, ScanPrefix(u, parsed, n - 1).0;
      assert parsed[n - 1] == Reparsed(w.cache, files[n - 1]);
      SameFile(v, v', w.states.Keys, files[n - 1], parsed[n - 1]);
      SameNames(w, u);
    }
  }

  lemma SameNames(w: WState, u: WState)
    requires Same(w, u)
    ensures w.states.Keys == u.states.Keys
  {
  }

  /** One scan with the cache and one without end in the same names, rows, entries and errors. */
  lemma SameScan(w: WState, u: WState, files: seq<Probe>)
    requires w.states.Keys <= w.registry.Keys && DistinctPaths(files) && Same(w, u)
    ensures Same(Scan(w, Some(files)), Scan(u, ReparsedListing(w, Some(files))))
  {
    hide ScanPrefix, Reparsed;
    var parsed := ReparsedListing(w, Some(files)).value;
    SamePrefix(w, u, files, parsed, |files|);
    assert Present(parsed) == Present(files) by {
      SamePaths(w, files);
    }
  }

  lemma SamePaths(w: WState, files: seq<Probe>)
    ensures Present(ReparsedListing(w, Some(files)).value) == Present(files)
  {
    var parsed := ReparsedListing(w, Some(files)).value;
    forall i | 0 <= i < |files|
      ensures files[i].path in Present(parsed)
    {
      assert parsed[i].path == files[i].path;
    }
  }

  lemma SameLoad(cfg: Config, w: WState, u: WState, name: string, marker: Marker, read: Read, late: Late)
    requires Same(w, u) && name in w.states
    ensures Same(Load(cfg, w, name, marker, read, late).0, Load(cfg, u, name, marker, read, late).0)
  {
    hide BuildEntry, WithError;
  }

  lemma SameProcess(cfg: Config, w: WState, u: WState, name: string, o: Observation)
    requires Same(w, u)
    ensures Same(ProcessStat(cfg, w, name, o).0, ProcessStat(cfg, u, name, o).0)
  {
    hide Load, CheckSidecar, WithError;
    if name in w.states && o.stat.Marked? {
      var st := w.states[name];
      SameLoad(cfg, w, u, name, o.stat.m, o.read, o.late);
      var sidecar := CheckSidecar(st.sidecar, o.yamlMtime, o.sidecar).0;
      var states := w.states[name := st.(sidecar := sidecar)];
      SameLoad(cfg, w.(states := states), u.(states := states), name, o.stat.m, o.read, o.late);
    }
  }

  /** Apart from scans that list files, no event looks at the cache. */
  lemma SameOtherEvent(cfg: Config, w: WState, u: WState, e: Event)
    requires Same(w, u) && (e.Scanned? ==> e.listing.None?)
    ensures Same(Apply(cfg, w, e), Apply(cfg, u, e))
  {
    hide ProcessStat, WithError, Annotate, Sentinels;
    match e
    case Observed(name, o) => SameProcess(cfg, w, u, name, o);
    case TickOk => assert Sentinels(w) == Sentinels(u) by { SameSentinels(w, u); }
    case _ =>
  }

  lemma SameSentinels(w: WState, u: WState)
    requires Same(w, u)
    ensures Sentinels(w) == Sentinels(u)
  {
  }

  // ------------------------------------------------------------------ the files in time

  datatype YamlVersion = YamlVersion(mtime: Mtime, recipe: Option<Recipe>)

  /** The YAML file at each path at each instant; parsing depends on the version alone. */
  type YamlWorld = (string, nat) -> Option<YamlVersion>

  function ParseAt(yaml: YamlWorld, path: string, t: nat): Option<Recipe> {
    if yaml(path, t).Some? then yaml(path, t).value.recipe else None
  }

  predicate MtimeAt(yaml: YamlWorld, path: string, m: Mtime, t: nat) {
    yaml(path, t).Some? && yaml(path, t).value.mtime == m
  }

  /** An event; for a scan, the stat and parse instants of each file; and when it ends. */
  datatype Step = Step(e: Event, times: seq<(nat, nat)>, end: nat)

  ghost predicate ProbeConsistent(yaml: YamlWorld, p: Probe, statAt: nat, parseAt: nat) {
    && (p.mtime.Some? ==> MtimeAt(yaml, p.path, p.mtime.value, statAt))
    && p.parsed == ParseAt(yaml, p.path, parseAt)
  }

  ghost predicate StepConsistent(yaml: YamlWorld, now: nat, step: Step) {
    && now <= step.end
    && (step.e.Scanned? && step.e.listing.Some? ==>
          var files := step.e.listing.value;
          && DistinctPaths(files) && |step.times| == |files|
          && forall i :: 0 <= i < |files| ==>
            && now <= step.times[i].0 <= step.times[i].1 <= step.end
            && ProbeConsistent(yaml, files[i], step.times[i].0, step.times[i].1))
  }

  ghost predicate Plausible(cfg: Config, yaml: YamlWorld, w: WState, now: nat, run: seq<Step>)
    decreases |run|
  {
    run != [] ==>
      && StepConsistent(yaml, now, run[0])
      && Plausible(cfg, yaml, Apply(cfg, w, run[0].e), run[0].end, run[1..])
  }

  function After(cfg: Config, w: WState, run: seq<Step>): WState
    decreases |run|
  {
    if run == [] then w else After(cfg, Apply(cfg, w, run[0].e), run[1..])
  }

  function EndOf(now: nat, run: seq<Step>): nat {
    if run == [] then now else run[|run| - 1].end
  }

  /** The cache entry pairs an mtime seen at some instant with a recipe parsed then or later. */
  ghost predicate EntryRecorded(yaml: YamlWorld, path: string, m: Mtime, r: Recipe, since: nat, now: nat) {
    exists i, j :: since <= i <= j <= now && MtimeAt(yaml, path, m, i) && ParsedAs(yaml, path, r, j)
  }

  ghost predicate ParsedAs(yaml: YamlWorld, path: string, r: Recipe, j: nat) {
    ParseAt(yaml, path, j) == Some(r)
  }

  ghost predicate CacheRecorded(yaml: YamlWorld, cache: map<string, (Mtime, Recipe)>, path: string, since: nat, now: nat) {
    path in cache ==> EntryRecorded(yaml, path, cache[path].0, cache[path].1, since, now)
  }

  lemma RecordedLater(yaml: YamlWorld, cache: map<string, (Mtime, Recipe)>, path: string, since: nat, now: nat, later: nat)
    requires CacheRecorded(yaml, cache, path, since, now) && now <= later
    ensures CacheRecorded(yaml, cache, path, since, later)
  {
    hide MtimeAt, ParsedAs;
  }

  lemma ProbeKeepsCacheRecorded(
    yaml: YamlWorld, cache: map<string, (Mtime, Recipe)>, p: Probe, path: string, since: nat, at: (nat, nat), end: nat)
    requires CacheRecorded(yaml, cache, path, since, end) && since <= at.0 <= at.1 <= end
    requires ProbeConsistent(yaml, p, at.0, at.1)
    ensures CacheRecorded(yaml, CacheAfter(cache, p), path, since, end)
  {
    if !CacheHit(cache, p) && p.parsed.Some? && p.mtime.Some? && p.path == path {
      assert MtimeAt(yaml, path, p.mtime.value, at.0) && ParsedAs(yaml, path, p.parsed.value, at.1);
    }
  }

  lemma {:induction false} PrefixKeepsCacheRecorded(
    yaml: YamlWorld, w: WState, step: Step, n: nat, path: string, since: nat, now: nat)
    requires StepConsistent(yaml, now, step) && step.e.Scanned? && step.e.listing.Some? && n <= |step.e.listing.value|
    requires since <= now && CacheRecorded(yaml, w.cache, path, since, step.end)
    ensures CacheRecorded(yaml, ScanPrefix(w, step.e.listing.value, n).0.cache, path, since, step.end)
  {
    hide CacheRecorded, ProbeConsistent, FirstFree;
    if n > 0 {
      var files := step.e.listing.value;
      var w' := ScanPrefix(w, files, n - 1).0;
      PrefixKeepsCacheRecorded(yaml, w, step, n - 1, path, since, now);
      ProbeKeepsCacheRecorded(yaml, w'.cache, files[n - 1], path, since, step.times[n - 1], step.end);
      ScanFileCache(w', w.states.Keys, files[n - 1]);
    }
  }

  lemma ScanFileCache(w: WState, current: set<string>, p: Probe)
    ensures ScanFile(w, current, p).0.cache == CacheAfter(w.cache, p)
  {
    hide FirstFree, WithError;
  }

  lemma StepKeepsCacheRecorded(cfg: Config, yaml: YamlWorld, w: WState, step: Step, path: string, since: nat, now: nat)
    requires StepConsistent(yaml, now, step) && since <= now && CacheRecorded(yaml, w.cache, path, since, now)
    ensures CacheRecorded(yaml, Apply(cfg, w, step.e).cache, path, since, step.end)
  {
    hide EntryRecorded, ScanPrefix, StepConsistent, ProcessStat, Annotate;
    assert now <= step.end by {
      EndsLater(yaml, now, step);
    }
    RecordedLater(yaml, w.cache, path, since, now, step.end);
    if step.e.Scanned? && step.e.listing.Some? {
      var files := step.e.listing.value;
      PrefixKeepsCacheRecorded(yaml, w, step, |files|, path, since, now);
      EvictOnlyDrops(w, files);
    } else {
      NoScanKeepsTables(cfg, w, step.e);
    }
  }

  lemma EndsLater(yaml: YamlWorld, now: nat, step: Step)
    requires StepConsistent(yaml, now, step)
    ensures now <= step.end
  {
  }

  lemma EvictOnlyDrops(w: WState, files: seq<Probe>)
    ensures
      var c, c' := ScanPrefix(w, files, |files|).0.cache, Scan(w, Some(files)).cache;
      forall p :: p in c' ==> p in c && c'[p] == c[p]
  {
    hide ScanPrefix;
  }

  lemma {:induction false} RunKeepsCacheRecorded(
    cfg: Config, yaml: YamlWorld, w: WState, run: seq<Step>, path: string, since: nat, now: nat)
    requires Plausible(cfg, yaml, w, now, run) && since <= now && CacheRecorded(yaml, w.cache, path, since, now)
    ensures now <= EndOf(now, run)
    ensures CacheRecorded(yaml, After(cfg, w, run).cache, path, since, EndOf(now, run))
    decreases |run|
  {
    hide CacheRecorded, Apply;
    if run != [] {
      StepKeepsCacheRecorded(cfg, yaml, w, run[0], path, since, now);
      RunKeepsCacheRecorded(cfg, yaml, Apply(cfg, w, run[0].e), run[1..], path, since, run[0].end);
      assert EndOf(now, run) == EndOf(run[0].end, run[1..]);
    }
  }

  // ------------------------------------------------------------------ when the cache tells the truth

  /** A file that shows one mtime at two instants parses at the later one as whatever recipe it
      gave in between. */
  ghost predicate SteadyMtimes(yaml: YamlWorld, path: string, since: nat) {
    forall i, j, k :: since <= i <= j <= k && SameMtimeAround(yaml, path, i, j, k) && ParseAt(yaml, path, j).Some? ==>
      ParseAt(yaml, path, k) == ParseAt(yaml, path, j)
  }

  predicate SameMtimeAround(yaml: YamlWorld, path: string, i: nat, j: nat, k: nat) {
    && yaml(path, i).Some? && yaml(path, j).Some? && yaml(path, k).Some?
    && yaml(path, i).value.mtime == yaml(path, k).value.mtime
  }

  /** A stat at `t` that hits the cache finds there what the file parses to at `t`. */
  ghost predicate TruthfulAt(yaml: YamlWorld, w: WState, path: string, t: nat) {
    path in w.cache && MtimeAt(yaml, path, w.cache[path].0, t) ==> ParseAt(yaml, path, t) == Some(w.cache[path].1)
  }

  ghost predicate AlwaysTruthful(cfg: Config, yaml: YamlWorld, w: WState, path: string, now: nat) {
    forall run, t :: Plausible(cfg, yaml, w, now, run) && EndOf(now, run) <= t ==>
      TruthfulAt(yaml, After(cfg, w, run), path, t)
  }

  lemma RecordProvesTruth(yaml: YamlWorld, w: WState, path: string, since: nat, now: nat, t: nat)
    requires CacheRecorded(yaml, w.cache, path, since, now) && now <= t && SteadyMtimes(yaml, path, since)
    ensures TruthfulAt(yaml, w, path, t)
  {
    if path in w.cache && MtimeAt(yaml, path, w.cache[path].0, t) {
      var i, j :| since <= i <= j <= now && MtimeAt(yaml, path, w.cache[path].0, i) && ParsedAs(yaml, path, w.cache[path].1, j);
      assert SameMtimeAround(yaml, path, i, j, t);
    }
  }

  function MisledScan(yaml: YamlWorld, path: string, i: nat, j: nat): Step
    requires yaml(path, i).Some?
  {
    Step(Scanned(Some([Probe(path, path, Some(yaml(path, i).value.mtime), ParseAt(yaml, path, j))])), [(i, j)], j)
  }

  lemma UnsteadyMisleadsScan(cfg: Config, yaml: YamlWorld, w: WState, path: string, now: nat, i: nat, j: nat, k: nat)
    requires w.states.Keys <= w.registry.Keys && path !in w.cache
    requires now <= i <= j <= k && SameMtimeAround(yaml, path, i, j, k)
    requires ParseAt(yaml, path, j).Some? && ParseAt(yaml, path, k) != ParseAt(yaml, path, j)
    ensures
      var run := [MisledScan(yaml, path, i, j)];
      && Plausible(cfg, yaml, w, now, run) && EndOf(now, run) <= k
      && !TruthfulAt(yaml, After(cfg, w, run), path, k)
  {
    var step := MisledScan(yaml, path, i, j);
    var files := step.e.listing.value;
    var p := files[0];
    var w' := Apply(cfg, w, step.e);
    assert path in w'.cache && w'.cache[path] == (p.mtime.value, p.parsed.value) by {
      FreshParseIsCached(w, p);
    }
    assert After(cfg, w, [step]) == w' && Plausible(cfg, yaml, w, now, [step]) by {
      hide Apply;
      assert Plausible(cfg, yaml, w', j, []) && [step][1..] == [] && After(cfg, w', []) == w';
    }
  }

  /** A scan of one file that parses caches it under the mtime seen before. */
  lemma FreshParseIsCached(w: WState, p: Probe)
    requires p.path !in w.cache && p.mtime.Some? && p.parsed.Some?
    ensures
      var cache := Scan(w, Some([p])).cache;
      p.path in cache && cache[p.path] == (p.mtime.value, p.parsed.value)
  {
    hide FirstFree, WithError;
    var files := [p];
    assert ScanPrefix(w, files, 0) == (w, {});
    assert ScanPrefix(w, files, 1) == (ScanParsed(w, p, p.parsed.value), {} + {p.parsed.value.name});
    assert files[0].path in Present(files);
  }

  /** The exact condition: for every run from a state that has not cached the file, the cache
      stands in for a parse at the instant of the stat if and only if the file's mtimes are steady. */
  lemma CacheTruthfulIffMtimesSteady(cfg: Config, yaml: YamlWorld, w: WState, path: string, now: nat)
    requires w.states.Keys <= w.registry.Keys && path !in w.cache
    ensures AlwaysTruthful(cfg, yaml, w, path, now) <==> SteadyMtimes(yaml, path, now)
  {
    hide Plausible, After, TruthfulAt;
    if SteadyMtimes(yaml, path, now) {
      forall run, t | Plausible(cfg, yaml, w, now, run) && EndOf(now, run) <= t
        ensures TruthfulAt(yaml, After(cfg, w, run), path, t)
      {
        RunKeepsCacheRecorded(cfg, yaml, w, run, path, now, now);
        RecordProvesTruth(yaml, After(cfg, w, run), path, now, EndOf(now, run), t);
      }
    } else {
      var i, j, k :| now <= i <= j <= k && SameMtimeAround(yaml, path, i, j, k)
                     && ParseAt(yaml, path, j).Some? && ParseAt(yaml, path, k) != ParseAt(yaml, path, j);
      UnsteadyMisleadsScan(cfg, yaml, w, path, now, i, j, k);
    }
  }

  // ------------------------------------------------------------------ refinement over runs

  /** The run that reparses every file: same events, scans without the cache. */
  function Uncached(cfg: Config, w: WState, run: seq<Step>): seq<Event>
    decreases |run|
  {
    if run == [] then []
    else
      var e := run[0].e;
      [if e.Scanned? then Scanned(ReparsedListing(w, e.listing)) else e] + Uncached(cfg, Apply(cfg, w, e), run[1..])
  }

  /** Every file of the scan is given the recipe that it parses to at an instant between its stat
      and its parse. */
  ghost predicate HonestScan(yaml: YamlWorld, w: WState, step: Step) {
    step.e.Scanned? && step.e.listing.Some? ==>
      var files := step.e.listing.value;
      |step.times| == |files| && forall i :: 0 <= i < |files| ==>
        ParsesWithin(yaml, files[i].path, RecipeOf(w.cache, files[i]), step.times[i].0, step.times[i].1)
  }

  ghost predicate ParsesWithin(yaml: YamlWorld, path: string, r: Option<Recipe>, from: nat, to: nat) {
    exists t :: from <= t <= to && r == ParseAt(yaml, path, t)
  }

  ghost predicate HonestRun(cfg: Config, yaml: YamlWorld, w: WState, run: seq<Step>)
    decreases |run|
  {
    run != [] ==> HonestScan(yaml, w, run[0]) && HonestRun(cfg, yaml, Apply(cfg, w, run[0].e), run[1..])
  }

  lemma StepIsHonest(yaml: YamlWorld, w: WState, step: Step, now: nat)
    requires StepConsistent(yaml, now, step)
    requires forall p, t :: now <= t ==> TruthfulAt(yaml, w, p, t)
    ensures HonestScan(yaml, w, step)
  {
    if step.e.Scanned? && step.e.listing.Some? {
      var files := step.e.listing.value;
      forall i | 0 <= i < |files|
        ensures ParsesWithin(yaml, files[i].path, RecipeOf(w.cache, files[i]), step.times[i].0, step.times[i].1)
      {
        assert ProbeConsistent(yaml, files[i], step.times[i].0, step.times[i].1);
        assert TruthfulAt(yaml, w, files[i].path, step.times[i].0);
        var t := if CacheHit(w.cache, files[i]) then step.times[i].0 else step.times[i].1;
        assert RecipeOf(w.cache, files[i]) == ParseAt(yaml, files[i].path, t);
      }
    }
  }

  lemma SameStep(cfg: Config, w: WState, u: WState, step: Step, yaml: YamlWorld, now: nat)
    requires Inv(cfg, w) && Same(w, u) && StepConsistent(yaml, now, step)
    ensures
      var e := step.e;
      Same(Apply(cfg, w, e), Apply(cfg, u, if e.Scanned? then Scanned(ReparsedListing(w, e.listing)) else e))
  {
    hide Inv, Scan, ProbeConsistent;
    RowGivesDomain(cfg, w);
    if step.e.Scanned? && step.e.listing.Some? {
      SameScan(w, u, step.e.listing.value);
    } else {
      SameOtherEvent(cfg, w, u, step.e);
    }
  }

  /** The cached watcher refines the uncached one: over any run, with steady mtimes, scans that
      parse every file at instants within the cached scans' own windows reach the same names,
      rows, entries and errors. */
  lemma {:induction false} CacheRefinesReparsing(
    cfg: Config, yaml: YamlWorld, w: WState, u: WState, run: seq<Step>, since: nat, now: nat)
    requires Inv(cfg, w) && Same(w, u) && Plausible(cfg, yaml, w, now, run)
    requires since <= now && forall p :: CacheRecorded(yaml, w.cache, p, since, now) && SteadyMtimes(yaml, p, since)
    ensures HonestRun(cfg, yaml, w, run)
    ensures Same(After(cfg, w, run), Run(Applying(cfg), u, Uncached(cfg, w, run)))
    decreases |run|
  {
    hide Inv, Apply, CacheRecorded, SteadyMtimes, TruthfulAt, StepConsistent, HonestScan, Same;
    if run != [] {
      var step := run[0];
      var e' := if step.e.Scanned? then Scanned(ReparsedListing(w, step.e.listing)) else step.e;
      forall p, t | now <= t
        ensures TruthfulAt(yaml, w, p, t)
      {
        RecordProvesTruth(yaml, w, p, since, now, t);
      }
      StepIsHonest(yaml, w, step, now);
      SameStep(cfg, w, u, step, yaml, now);
      StepKeepsInv(cfg, w, step.e);
      EndsLater(yaml, now, step);
      forall p
        ensures CacheRecorded(yaml, Apply(cfg, w, step.e).cache, p, since, step.end)
      {
        StepKeepsCacheRecorded(cfg, yaml, w, step, p, since, now);
      }
      CacheRefinesReparsing(cfg, yaml, Apply(cfg, w, step.e), Apply(cfg, u, e'), run[1..], since, step.end);
      assert Uncached(cfg, w, run)[1..] == Uncached(cfg, Apply(cfg, w, step.e), run[1..]);
    }
  }
}
