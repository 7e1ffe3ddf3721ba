/** Directory scans: what a scan leaves in the tables, file by file and as a whole, and what moves
    between scans. */
module WatcherScan {
  import opened Wrappers
  import opened Runs
  import opened ByteStrings
  import opened Registry
  import opened Naming
  import opened WatcherModel
  import opened WatcherSafety

  /** A directory listing names each file once. */
  ghost predicate DistinctPaths(files: seq<Probe>) {
    forall i, j :: 0 <= i < j < |files| ==> files[i].path != files[j].path
  }

  /** Nothing about the entry differs but, perhaps, its error text, and that only towards a
      complaint about the YAML file. */
  predicate SameModel(a: Entry, b: Entry) {
    b == a.(error := b.error) && (b.error == a.error || b.error == Some(YamlFailed))
  }

  // ------------------------------------------------------------------ one file

  /** Rows are added only under `found`; a known name's row keeps its model; a row outside
      `found` is not touched. */
  ghost predicate RowsKept(w: WState, w': WState, found: set<string>)
  {
    && w'.errors == w.errors
    && w'.states.Keys == w.states.Keys + found
    && w'.registry.Keys == w.registry.Keys + found
    && (forall n :: n in w.states && n in w.registry ==> SameModel(w.registry[n], w'.registry[n]))
    && (forall n :: n in w.registry && n !in found ==> w'.registry[n] == w.registry[n])
  }

  /** The path map and the mtime cache change only at the paths in `touched`. */
  ghost predicate TablesKept(w: WState, w': WState, touched: set<string>)
  {
    && (forall q :: q !in touched ==> (q in w.paths <==> q in w'.paths) && (q in w.cache <==> q in w'.cache))
    && (forall q :: q !in touched && q in w.paths ==> w'.paths[q] == w.paths[q])
    && (forall q :: q !in touched && q in w.cache ==> w'.cache[q] == w.cache[q])
  }

  lemma RowsCompose(w: WState, w': WState, w'': WState, a: set<string>, b: set<string>)
    requires RowsKept(w, w', a) && RowsKept(w', w'', b)
    ensures RowsKept(w, w'', a + b)
  {
  }

  lemma TablesCompose(w: WState, w': WState, w'': WState, a: set<string>, b: set<string>)
    requires TablesKept(w, w', a) && TablesKept(w', w'', b)
    ensures TablesKept(w, w'', a + b)
  {
  }

  lemma BrokenEffect(w: WState, current: set<string>, p: Probe)
    requires w.states.Keys <= w.registry.Keys && current <= w.states.Keys
    ensures
      var (w', name) := ScanBroken(w, current, p);
      && RowsKept(w, w', {name}) && TablesKept(w, w', {p.path})
      && (p.path in w'.paths ==> w'.paths[p.path] == name)
    ensures
      var known, r := KnownName(w, current, p), ScanBroken(w, current, p);
      if known.Some? && known.value in current then r.1 == known.value
      else r.1 !in w.states && r.1 !in w.registry
  {
    hide FirstFree;
  }

  lemma ParsedKeepsRows(w: WState, p: Probe, recipe: Recipe)
    requires w.states.Keys <= w.registry.Keys
    ensures RowsKept(w, ScanParsed(w, p, recipe), {recipe.name})
  {
    hide CacheAfter;
    var w' := ScanParsed(w, p, recipe);
    assert w'.states.Keys == w.states.Keys + {recipe.name};
    assert w'.registry.Keys == w.registry.Keys + {recipe.name};
  }

  lemma ParsedEffect(w: WState, p: Probe, recipe: Recipe)
    requires w.states.Keys <= w.registry.Keys
    ensures
      var w' := ScanParsed(w, p, recipe);
      && RowsKept(w, w', {recipe.name}) && TablesKept(w, w', {p.path})
      && p.path in w'.paths && w'.paths[p.path] == recipe.name
  {
    hide RowsKept;
    ParsedKeepsRows(w, p, recipe);
  }

  lemma ScanFileEffect(w: WState, current: set<string>, p: Probe)
    requires w.states.Keys <= w.registry.Keys && current <= w.states.Keys
    ensures
      var (w', name) := ScanFile(w, current, p);
      && RowsKept(w, w', {name}) && TablesKept(w, w', {p.path})
      && (p.path in w'.paths ==> w'.paths[p.path] == name)
  {
    hide ScanBroken, ScanParsed, RowsKept, TablesKept, RecipeOf;
    match RecipeOf(w.cache, p)
    case None => BrokenEffect(w, current, p);
    case Some(recipe) => ParsedEffect(w, p, recipe);
  }

  // ------------------------------------------------------------------ a prefix of the files

  lemma PresentGrows(files: seq<Probe>, n: nat)
    requires DistinctPaths(files) && n < |files|
    ensures Present(files[..n + 1]) == Present(files[..n]) + {files[n].path}
    ensures files[n].path !in Present(files[..n])
  {
    assert files[..n + 1] == files[..n] + [files[n]];
  }

  lemma NothingScanned(w: WState)
    ensures RowsKept(w, w, {}) && TablesKept(w, w, {})
  {
  }

  lemma {:induction false} PrefixKeeps(w: WState, files: seq<Probe>, n: nat)
    requires w.states.Keys <= w.registry.Keys && DistinctPaths(files) && n <= |files|
    ensures
      var (w', found) := ScanPrefix(w, files, n);
      RowsKept(w, w', found) && TablesKept(w, w', Present(files[..n]))
  {
    hide ScanFile, RowsKept, TablesKept;
    if n > 0 {
      hide Present;
      var (w', found) := ScanPrefix(w, files, n - 1);
      PrefixKeeps(w, files, n - 1);
      RowsGrow(w, w', found);
      ScanFileEffect(w', w.states.Keys, files[n - 1]);
      var (w'', name) := ScanFile(w', w.states.Keys, files[n - 1]);
      RowsCompose(w, w', w'', found, {name});
      TablesCompose(w, w', w'', Present(files[..n - 1]), {files[n - 1].path});
      PresentGrows(files, n - 1);
    } else {
      NothingScanned(w);
      assert Present(files[..0]) == {};
    }
  }

  lemma RowsGrow(w: WState, w': WState, found: set<string>)
    requires RowsKept(w, w', found) && w.states.Keys <= w.registry.Keys
    ensures w.states.Keys <= w'.states.Keys <= w'.registry.Keys
  {
  }

  /** The path of a file already scanned is mapped, if at all, to a found name. */
  lemma {:induction false} PrefixMaps(w: WState, files: seq<Probe>, n: nat, i: nat)
    requires w.states.Keys <= w.registry.Keys && DistinctPaths(files) && i < n <= |files|
    ensures
      var (w', found) := ScanPrefix(w, files, n);
      files[i].path in w'.paths ==> w'.paths[files[i].path] in found
  {
    hide ScanFile, RowsKept;
    var w' := ScanPrefix(w, files, n - 1).0;
    PrefixKeeps(w, files, n - 1);
    RowsGrow(w, w', ScanPrefix(w, files, n - 1).1);
    ScanFileEffect(w', w.states.Keys, files[n - 1]);
    if i < n - 1 {
      PrefixMaps(w, files, n - 1, i);
    }
  }

  // ------------------------------------------------------------------ a whole scan

  /** The path tables speak only of watched names. */
  ghost predicate PathsWatched(w: WState) {
    forall p :: p in w.paths ==> w.paths[p] in w.states
  }

  /** Reconciliation: after a completed scan the watched names are exactly the found ones, the
      path tables mention only present files, and every mapped name is watched. */
  lemma ScanReconciles(w: WState, files: seq<Probe>)
    requires w.states.Keys <= w.registry.Keys && DistinctPaths(files)
    ensures
      var w' := Scan(w, Some(files));
      && w'.states.Keys == Found(w, files) <= w'.registry.Keys
      && PathsWatched(w')
      && w'.paths.Keys <= Present(files) && w'.cache.Keys <= Present(files)
      && (forall i :: 0 <= i < |files| && files[i].path in ScanPrefix(w, files, |files|).0.paths ==> files[i].path in w'.paths)
  {
    hide ScanPrefix, SameModel;
    PrefixKeeps(w, files, |files|);
    assert files[..|files|] == files;
    forall i | 0 <= i < |files|
      ensures files[i].path in ScanPrefix(w, files, |files|).0.paths ==>
                ScanPrefix(w, files, |files|).0.paths[files[i].path] in Found(w, files)
    {
      PrefixMaps(w, files, |files|, i);
    }
  }

  /** A loaded model survives a scan that finds its name: same recommender, same version. */
  lemma FoundModelsSurvive(w: WState, files: seq<Probe>, n: string)
    requires w.states.Keys <= w.registry.Keys && DistinctPaths(files) && n in w.states
    ensures
      var w' := Scan(w, Some(files));
      if n in Found(w, files) then n in w'.registry && SameModel(w.registry[n], w'.registry[n])
      else n !in w'.registry && n !in w'.states
  {
    hide ScanPrefix, SameModel;
    PrefixKeeps(w, files, |files|);
  }

  /** Where a file is met, the tables still say about it what they said before the scan. */
  lemma FileMetFresh(w: WState, files: seq<Probe>, i: nat)
    requires w.states.Keys <= w.registry.Keys && DistinctPaths(files) && i < |files|
    ensures
      var w', p := ScanPrefix(w, files, i).0, files[i];
      && RecipeOf(w'.cache, p) == RecipeOf(w.cache, p)
      && KnownName(w', w.states.Keys, p) == KnownName(w, w.states.Keys, p)
      && w'.states.Keys <= w'.registry.Keys && w.states.Keys <= w'.states.Keys
  {
    hide ScanPrefix, SameModel;
    PrefixKeeps(w, files, i);
    PresentGrows(files, i);
  }

  lemma {:induction false} FoundGrows(w: WState, files: seq<Probe>, i: nat, n: nat)
    requires i <= n <= |files|
    ensures ScanPrefix(w, files, i).1 <= ScanPrefix(w, files, n).1
    decreases n
  {
    hide ScanFile;
    if i < n {
      FoundGrows(w, files, i, n - 1);
    }
  }

  /** A present file that no longer parses keeps the name it was known under. */
  lemma BrokenFileKeepsName(w: WState, files: seq<Probe>, i: nat)
    requires w.states.Keys <= w.registry.Keys && DistinctPaths(files) && i < |files|
    requires RecipeOf(w.cache, files[i]).None?
    requires KnownName(w, w.states.Keys, files[i]).Some? && KnownName(w, w.states.Keys, files[i]).value in w.states
    ensures KnownName(w, w.states.Keys, files[i]).value in Found(w, files)
  {
    hide RecipeOf, KnownName, ScanBroken, ScanParsed;
    var w' := ScanPrefix(w, files, i).0;
    FileMetFresh(w, files, i);
    BrokenEffect(w', w.states.Keys, files[i]);
    FoundGrows(w, files, i + 1, |files|);
  }

  /** After a scan that parsed a file, the file's path is mapped to its recipe's name. */
  lemma ParsedFileRemembered(w: WState, files: seq<Probe>, i: nat)
    requires w.states.Keys <= w.registry.Keys && DistinctPaths(files) && i < |files|
    requires RecipeOf(w.cache, files[i]).Some?
    ensures
      var w', p, name := Scan(w, Some(files)), files[i].path, RecipeOf(w.cache, files[i]).value.name;
      p in w'.paths && w'.paths[p] == name && name in w'.states
  {
    hide RecipeOf, ScanParsed, ScanBroken;
    var name := RecipeOf(w.cache, files[i]).value.name;
    FileMetFresh(w, files, i);
    ParsedEffect(ScanPrefix(w, files, i).0, files[i], RecipeOf(w.cache, files[i]).value);
    assert i + 1 <= |files| && ScanPrefix(w, files, i + 1).0.paths[files[i].path] == name;
    PathKept(w, files, i, |files|);
    FoundGrows(w, files, i + 1, |files|);
    ScanReconciles(w, files);
  }

  lemma {:induction false} PathKept(w: WState, files: seq<Probe>, i: nat, n: nat)
    requires w.states.Keys <= w.registry.Keys && DistinctPaths(files) && i < n <= |files|
    requires files[i].path in ScanPrefix(w, files, i + 1).0.paths
    ensures files[i].path in ScanPrefix(w, files, n).0.paths
    ensures ScanPrefix(w, files, n).0.paths[files[i].path] == ScanPrefix(w, files, i + 1).0.paths[files[i].path]
    decreases n
  {
    hide ScanFile, SameModel;
    if i + 1 < n {
      PathKept(w, files, i, n - 1);
      PrefixKeeps(w, files, n - 1);
      ScanFileEffect(ScanPrefix(w, files, n - 1).0, w.states.Keys, files[n - 1]);
    }
  }

  lemma BrokenKeepsPath(w: WState, current: set<string>, p: Probe)
    requires p.path in w.paths && w.paths[p.path] in current
    ensures ScanBroken(w, current, p).0.paths == w.paths
  {
    hide WithError, FirstFree;
  }

  /** The path of a present file stays mapped to a watched name: to the recipe's, if the file
      parses, and to the name it had, if it does not. */
  lemma ScanKeepsPath(w: WState, files: seq<Probe>, i: nat)
    requires w.states.Keys <= w.registry.Keys && DistinctPaths(files) && i < |files|
    requires files[i].path in w.paths && w.paths[files[i].path] in w.states
    ensures
      var w', p := Scan(w, Some(files)), files[i].path;
      && p in w'.paths && w'.paths[p] in w'.states
      && (RecipeOf(w.cache, files[i]).None? ==> w'.paths[p] == w.paths[p] && w.paths[p] in Found(w, files))
  {
    hide RecipeOf, ScanParsed, ScanBroken, RowsKept, SameModel;
    var p := files[i].path;
    if RecipeOf(w.cache, files[i]).Some? {
      ParsedFileRemembered(w, files, i);
    } else {
      var mid := ScanPrefix(w, files, i).0;
      PrefixKeeps(w, files, i);
      PresentGrows(files, i);
      FileMetFresh(w, files, i);
      BrokenKeepsPath(mid, w.states.Keys, files[i]);
      assert p in ScanPrefix(w, files, i + 1).0.paths && ScanPrefix(w, files, i + 1).0.paths[p] == w.paths[p];
      PathKept(w, files, i, |files|);
      BrokenFileKeepsName(w, files, i);
      ScanReconciles(w, files);
    }
  }

  lemma LoadKeepsTables(cfg: Config, w: WState, name: string, marker: Marker, read: Read, late: Late)
    requires name in w.states
    ensures
      var w' := Load(cfg, w, name, marker, read, late).0;
      w'.states.Keys == w.states.Keys && w'.paths == w.paths && w'.cache == w.cache
  {
    hide BuildEntry, WithError;
  }

  lemma NoScanKeepsTables(cfg: Config, w: WState, e: Event)
    requires e.Scanned? ==> e.listing.None?
    ensures var w' := Apply(cfg, w, e); w'.states.Keys == w.states.Keys && w'.paths == w.paths && w'.cache == w.cache
  {
    hide Load, CheckSidecar, WithError, Annotate, Sentinels;
    if e.Observed? && e.name in w.states && e.o.stat.Marked? {
      var sidecar := CheckSidecar(w.states[e.name].sidecar, e.o.yamlMtime, e.o.sidecar).0;
      LoadKeepsTables(cfg, w, e.name, e.o.stat.m, e.o.read, e.o.late);
      LoadKeepsTables(cfg, w.(states := w.states[e.name := w.states[e.name].(sidecar := sidecar)]), e.name, e.o.stat.m,
                      e.o.read, e.o.late);
    }
  }

  /** Between scans the watched names, the path map and the mtime cache do not move. */
  lemma {:induction false} BetweenScans(cfg: Config, w: WState, events: seq<Event>)
    requires forall e :: e in events && e.Scanned? ==> e.listing.None?
    ensures var w' := Run(Applying(cfg), w, events); w'.states.Keys == w.states.Keys && w'.paths == w.paths && w'.cache == w.cache
    decreases |events|
  {
    hide Apply;
    if events != [] {
      NoScanKeepsTables(cfg, w, events[0]);
      BetweenScans(cfg, Apply(cfg, w, events[0]), events[1..]);
    }
  }

  // ------------------------------------------------------------------ the watcher's own rows

  /** A known row is untouched, except that the row of a former stub may receive a path. */
  predicate RowKept(a: WatchState, b: WatchState) {
    b == a || (a.path == "" && b.lastSha == a.lastSha && b.lastMarker == Unset)
  }

  predicate Unloaded(st: WatchState) {
    st.lastSha.None? && st.lastMarker == Unset
  }

  /** Known rows are kept and new rows start unloaded. */
  ghost predicate StatesKept(w: WState, w': WState) {
    && (forall n :: n in w.states ==> n in w'.states && RowKept(w.states[n], w'.states[n]))
    && (forall n :: n in w'.states && n !in w.states ==> Unloaded(w'.states[n]))
  }

  lemma StatesCompose(w: WState, w': WState, w'': WState)
    requires StatesKept(w, w') && StatesKept(w', w'')
    ensures StatesKept(w, w'')
  {
  }

  lemma ScanFileKeepsStates(w: WState, current: set<string>, p: Probe)
    ensures StatesKept(w, ScanFile(w, current, p).0)
  {
    hide FirstFree, CacheAfter, WithError, RecipeOf;
  }

  lemma {:induction false} ScanKeepsStates(w: WState, files: seq<Probe>, n: nat)
    requires n <= |files|
    ensures StatesKept(w, ScanPrefix(w, files, n).0)
  {
    hide ScanFile;
    if n > 0 {
      hide StatesKept;
      var w' := ScanPrefix(w, files, n - 1).0;
      ScanKeepsStates(w, files, n - 1);
      ScanFileKeepsStates(w', w.states.Keys, files[n - 1]);
      StatesCompose(w, w', ScanFile(w', w.states.Keys, files[n - 1]).0);
    }
  }

  // ------------------------------------------------------------------ where a recipe is watched

  predicate HasRecipe(w: WState, p: Probe, n: string) {
    RecipeOf(w.cache, p).Some? && RecipeOf(w.cache, p).value.name == n
  }

  /** A file of another recipe, or of none, leaves the row alone; so does any file, once the row has
      an artifact path. */
  lemma FileKeepsRow(w: WState, current: set<string>, p: Probe, n: string)
    requires n in w.states && (!HasRecipe(w, p, n) || w.states[n].path != "")
    ensures
      var w' := ScanFile(w, current, p).0;
      n in w'.states && w'.states[n] == w.states[n]
  {
    hide RecipeOf, CacheAfter, WithError;
  }

  /** A name that is not watched yet can only become the stub of a broken file. */
  lemma FileMayStub(w: WState, current: set<string>, p: Probe, n: string)
    requires n !in w.states && !HasRecipe(w, p, n)
    ensures
      var w' := ScanFile(w, current, p).0;
      n in w'.states ==> w'.states[n] == NewState(None, "")
  {
    hide RecipeOf, CacheAfter, WithError, FirstFree;
  }

  /** The row of `n` before the first file with its recipe: as it was, or the stub of a broken file. */
  lemma {:induction false} RowBefore(w: WState, files: seq<Probe>, k: nat, n: string)
    requires w.states.Keys <= w.registry.Keys && DistinctPaths(files) && k <= |files|
    requires forall j :: 0 <= j < k ==> !HasRecipe(w, files[j], n)
    ensures
      var v := ScanPrefix(w, files, k).0;
      if n in w.states then n in v.states && v.states[n] == w.states[n]
      else n in v.states ==> v.states[n] == NewState(None, "")
  {
    hide ScanFile, RecipeOf;
    if k > 0 {
      var v := ScanPrefix(w, files, k - 1).0;
      RowBefore(w, files, k - 1, n);
      FileMetFresh(w, files, k - 1);
      assert !HasRecipe(w, files[k - 1], n);
      if n in v.states {
        FileKeepsRow(v, w.states.Keys, files[k - 1], n);
      } else {
        FileMayStub(v, w.states.Keys, files[k - 1], n);
      }
    }
  }

  /** A row with an artifact path stays as it is to the end of the files. */
  lemma {:induction false} RowAfter(w: WState, files: seq<Probe>, i: nat, k: nat, n: string)
    requires i <= k <= |files|
    requires n in ScanPrefix(w, files, i).0.states && ScanPrefix(w, files, i).0.states[n].path != ""
    ensures
      var v, v' := ScanPrefix(w, files, i).0, ScanPrefix(w, files, k).0;
      n in v'.states && v'.states[n] == v.states[n]
    decreases k
  {
    hide ScanFile;
    if i < k {
      RowAfter(w, files, i, k - 1, n);
      FileKeepsRow(ScanPrefix(w, files, k - 1).0, w.states.Keys, files[k - 1], n);
    }
  }

  lemma AdoptsPath(w: WState, current: set<string>, p: Probe, r: Recipe)
    requires RecipeOf(w.cache, p) == Some(r) && r.outputPath != ""
    requires r.name in w.states ==> w.states[r.name].path == ""
    ensures
      var w' := ScanFile(w, current, p).0;
      && r.name in w'.states
      && w'.states[r.name].path == r.outputPath && w'.states[r.name].recipe == Some(r) && w'.states[r.name].lastMarker == Unset
      && (r.name in w.states ==>
            w'.states[r.name].lastSha == w.states[r.name].lastSha && w'.states[r.name].sidecar == w.states[r.name].sidecar)
      && (r.name !in w.states ==>
            w'.states[r.name].lastSha.None? && w'.states[r.name].sidecar == SidecarState(None, false, None, 0))
  {
    hide RecipeOf, CacheAfter;
  }

  /** Where a recipe is watched after a scan that met its file, the first one of its name. A name
      that was not watched gets a row at the recipe's output path, with nothing seen and nothing
      loaded. The row of a stub gets recipe and path and forgets its marker. */
  lemma RecipeIsAdopted(w: WState, files: seq<Probe>, i: nat, r: Recipe)
    requires w.states.Keys <= w.registry.Keys && DistinctPaths(files) && i < |files|
    requires RecipeOf(w.cache, files[i]) == Some(r) && r.outputPath != ""
    requires forall j :: 0 <= j < i ==> !HasRecipe(w, files[j], r.name)
    requires r.name in w.states ==> w.states[r.name].path == ""
    ensures
      var w' := Scan(w, Some(files));
      && r.name in w'.states && r.name in w'.registry
      && if r.name in w.states
         then w'.states[r.name] == w.states[r.name].(path := r.outputPath, recipe := Some(r), lastMarker := Unset)
         else w'.states[r.name] == WatchState(Some(r), r.outputPath, Unset, None, SidecarState(None, false, None, 0))
  {
    hide ScanFile, RecipeOf;
    var n := r.name;
    RowBefore(w, files, i, n);
    FileMetFresh(w, files, i);
    AdoptsPath(ScanPrefix(w, files, i).0, w.states.Keys, files[i], r);
    RowAfter(w, files, i + 1, |files|, n);
    ParsedFileRemembered(w, files, i);
    ScanReconciles(w, files);
    EvictKeepsRows(w, files, n);
  }

  lemma EvictKeepsRows(w: WState, files: seq<Probe>, n: string)
    requires n in Scan(w, Some(files)).states
    ensures n in ScanPrefix(w, files, |files|).0.states
    ensures Scan(w, Some(files)).states[n] == ScanPrefix(w, files, |files|).0.states[n]
  {
    hide ScanPrefix;
  }

  /** A watched row that has an artifact path keeps it, even when its file now declares another. */
  lemma WatchedPathIsKept(w: WState, files: seq<Probe>, n: string)
    requires w.states.Keys <= w.registry.Keys && DistinctPaths(files)
    requires n in w.states && w.states[n].path != "" && n in Found(w, files)
    ensures
      var w' := Scan(w, Some(files));
      n in w'.states && w'.states[n] == w.states[n]
  {
    assert ScanPrefix(w, files, 0).0 == w;
    RowAfter(w, files, 0, |files|, n);
    ScanReconciles(w, files);
    EvictKeepsRows(w, files, n);
  }

  /** Which name a broken file goes under. The one its path is mapped to, if that is watched;
      otherwise, for a path never mapped, its stem, if that is watched; otherwise a new name, made
      from its stem, under which it is watched without a recipe. */
  lemma BrokenFileGoesUnder(w: WState, current: set<string>, p: Probe)
    requires current <= w.states.Keys <= w.registry.Keys && RecipeOf(w.cache, p).None?
    ensures
      var (w', name) := ScanFile(w, current, p);
      && (p.path in w.paths && w.paths[p.path] in current ==>
            name == w.paths[p.path] && w'.states == w.states && w'.paths == w.paths)
      && (p.path !in w.paths && p.stem in current ==>
            name == p.stem && w'.states == w.states && w'.paths == w.paths)
      && (!(p.path in w.paths && w.paths[p.path] in current) && !(p.path !in w.paths && p.stem in current) ==>
            && name == FirstFree(p.stem, w.states.Keys + w.registry.Keys, 0)
            && w'.states == w.states[name := WatchState(None, "", Unset, None, SidecarState(None, false, None, 0))]
            && w'.registry == w.registry[name := Entry(false, None, Some(YamlFailed), None, None)]
            && w'.paths == w.paths[p.path := name])
  {
    hide RecipeOf, FirstFree;
  }

  /** A broken file shows: whatever name it ends up under has a complaint about the YAML file. */
  lemma BrokenFileShows(w: WState, current: set<string>, p: Probe)
    requires current <= w.states.Keys <= w.registry.Keys && RecipeOf(w.cache, p).None?
    ensures
      var (w', name) := ScanFile(w, current, p);
      name in w'.registry && w'.registry[name].error == Some(YamlFailed)
  {
    hide RecipeOf, FirstFree;
  }

  /** A directory that cannot be listed shows on every watched recipe, and changes nothing else. */
  lemma UnlistedShows(w: WState)
    requires w.states.Keys <= w.registry.Keys
    ensures
      var w' := Scan(w, None);
      && w'.states == w.states && w'.paths == w.paths && w'.cache == w.cache && w'.registry.Keys == w.registry.Keys
      && forall n :: n in w.registry ==>
           w'.registry[n] == w.registry[n].(error := if n in w.states then Some(ScanFailed) else w.registry[n].error)
  {
  }
}
