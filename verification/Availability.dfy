/** What no step of the watcher can do to a model that is being served. */
module Availability {
  import opened Wrappers
  import opened Runs
  import opened ByteStrings
  import opened Registry
  import opened Naming
  import opened WatcherModel
  import opened WatcherSafety
  import opened WatcherScan

  ghost predicate Serving(w: WState, n: string) {
    n in w.registry && w.registry[n].loaded
  }

  /** The same recommender under the same version and marker; only the error text may differ. */
  predicate Kept(a: Entry, b: Entry) {
    b == a.(error := b.error)
  }

  /** The event read, authenticated and built new bytes for `n`, and `e` is what they gave. */
  ghost predicate SwappedIn(cfg: Config, w: WState, event: Event, n: string, e: Entry) {
    && event.Observed? && event.name == n && event.o.stat.Marked? && event.o.read.ReadOk?
    && n in w.states && w.states[n].lastSha != Some(cfg.crypto.sha256(event.o.read.data))
    && Genuine(cfg, e) && e.model == Some(event.o.read.data)
    && e.marker == Some(event.o.stat.m) && e.error.None?
  }

  /** The event was a completed scan that did not find `n`. */
  ghost predicate Dropped(w: WState, event: Event, n: string) {
    event.Scanned? && event.listing.Some? && n !in Found(w, event.listing.value)
  }

  ghost predicate GoodListing(event: Event) {
    event.Scanned? && event.listing.Some? ==> DistinctPaths(event.listing.value)
  }

  lemma RowGivesDomain(cfg: Config, w: WState)
    requires Inv(cfg, w)
    ensures w.states.Keys <= w.registry.Keys
    ensures forall n :: Serving(w, n) ==> n in w.states && Genuine(cfg, w.registry[n])
  {
    hide Genuine;
    forall n
      ensures n in w.states ==> n in w.registry
      ensures Serving(w, n) ==> n in w.states && Genuine(cfg, w.registry[n])
    {
      assert NameInv(cfg, w, n);
    }
  }

  lemma LoadFate(cfg: Config, w: WState, name: string, marker: Marker, read: Read, late: Late, n: string)
    requires name in w.states && n in w.registry
    ensures
      var w' := Load(cfg, w, name, marker, read, late).0;
      && n in w'.registry
      && ((Kept(w.registry[n], w'.registry[n]) && (w'.registry[n].error.None? ==> w.registry[n].error.None?))
          || (n == name && read.ReadOk? && w.states[n].lastSha != Some(cfg.crypto.sha256(read.data))
              && Genuine(cfg, w'.registry[n]) && w'.registry[n].model == Some(read.data)
              && w'.registry[n].marker == Some(marker) && w'.registry[n].error.None?))
  {
    hide BuildEntry, Genuine;
    if read.ReadOk? && BuildEntry(cfg, w.states[name].recipe, read.data, late).Built? {
      BuiltIsGenuine(cfg, w.states[name].recipe, read.data, late, marker);
    }
  }

  lemma ObservedFate(cfg: Config, w: WState, e: Event, n: string)
    requires e.Observed? && n in w.registry
    ensures
      var w' := Apply(cfg, w, e);
      && n in w'.registry
      && (SwappedIn(cfg, w, e, n, w'.registry[n])
          || (Kept(w.registry[n], w'.registry[n]) && (w'.registry[n].error.None? ==> w.registry[n].error.None?)))
  {
    hide Load, CheckSidecar, Genuine;
    if e.name in w.states && e.o.stat.Marked? {
      var sidecar := CheckSidecar(w.states[e.name].sidecar, e.o.yamlMtime, e.o.sidecar).0;
      LoadFate(cfg, w, e.name, e.o.stat.m, e.o.read, e.o.late, n);
      LoadFate(cfg, w.(states := w.states[e.name := w.states[e.name].(sidecar := sidecar)]), e.name, e.o.stat.m,
               e.o.read, e.o.late, n);
    }
  }

  /** Availability: the only ways a served model changes are a successful swap of its own bytes,
      and the disappearance of its recipe from the directory. */
  lemma ServedModelFate(cfg: Config, w: WState, e: Event, n: string)
    requires Inv(cfg, w) && Serving(w, n) && GoodListing(e)
    ensures
      var w' := Apply(cfg, w, e);
      if Dropped(w, e, n) then n !in w'.registry && n !in w'.states
      else Serving(w', n) && (Kept(w.registry[n], w'.registry[n]) || SwappedIn(cfg, w, e, n, w'.registry[n]))
  {
    hide Authentic, Inv, ProcessStat, ScanPrefix, Evict, Sentinels;
    RowGivesDomain(cfg, w);
    if e.Observed? {
      ObservedFate(cfg, w, e, n);
    } else if e.Scanned? && e.listing.Some? {
      FoundModelsSurvive(w, e.listing.value, n);
    }
  }

  /** Every scan of the run finds `n`. */
  ghost predicate AlwaysFound(cfg: Config, w: WState, events: seq<Event>, n: string)
    decreases |events|
  {
    events != [] ==>
      && GoodListing(events[0]) && !Dropped(w, events[0], n)
      && AlwaysFound(cfg, Apply(cfg, w, events[0]), events[1..], n)
  }

  /** As long as the recipe stays in the directory, no run of failures, corrupt artifacts,
      unreachable storage or broken YAML stops an authentic model from being served. */
  lemma {:induction false} ServedThroughout(cfg: Config, w: WState, events: seq<Event>, n: string)
    requires Inv(cfg, w) && Serving(w, n) && AlwaysFound(cfg, w, events, n)
    ensures Serving(Run(Applying(cfg), w, events), n) && Genuine(cfg, Run(Applying(cfg), w, events).registry[n])
    decreases |events|
  {
    hide Genuine, Inv, Apply, Dropped;
    if events == [] {
      RowGivesDomain(cfg, w);
    } else {
      ServedModelFate(cfg, w, events[0], n);
      StepKeepsInv(cfg, w, events[0]);
      ServedThroughout(cfg, Apply(cfg, w, events[0]), events[1..], n);
    }
  }

  /** A file that parsed once and is later present but broken keeps its recipe's name, and the
      model under that name keeps being served, whatever happened between the two scans. */
  lemma ParsedOnceSurvivesBreaking(
    cfg: Config, w: WState, files: seq<Probe>, i: nat, events: seq<Event>, later: seq<Probe>, j: nat)
    requires Inv(cfg, w) && DistinctPaths(files) && i < |files| && RecipeOf(w.cache, files[i]).Some?
    requires forall e :: e in events && e.Scanned? ==> e.listing.None?
    requires DistinctPaths(later) && j < |later| && later[j].path == files[i].path
    requires RecipeOf(Run(Applying(cfg), Scan(w, Some(files)), events).cache, later[j]).None?
    ensures
      var before, name := Run(Applying(cfg), Scan(w, Some(files)), events), RecipeOf(w.cache, files[i]).value.name;
      var after := Scan(before, Some(later));
      && name in after.states
      && (Serving(before, name) ==> Serving(after, name) && Kept(before.registry[name], after.registry[name]))
  {
    hide Genuine, Inv, Apply, Scan, ScanPrefix, RecipeOf;
    var w1 := Scan(w, Some(files));
    var before := Run(Applying(cfg), w1, events);
    var name := RecipeOf(w.cache, files[i]).value.name;
    RowGivesDomain(cfg, w);
    ParsedFileRemembered(w, files, i);
    ScanKeepsInv(cfg, w, files);
    BetweenScans(cfg, w1, events);
    RunKeepsInv(cfg, w1, events);
    RowGivesDomain(cfg, before);
    BrokenFileKeepsName(before, later, j);
    ScanReconciles(before, later);
    FoundModelsSurvive(before, later, name);
  }

  /** Every completed scan of the run lists the file `p`. */
  ghost predicate AlwaysListed(events: seq<Event>, p: string) {
    forall e :: e in events && e.Scanned? && e.listing.Some? ==> Lists(e.listing.value, p)
  }

  ghost predicate Lists(files: seq<Probe>, p: string) {
    DistinctPaths(files) && exists i :: 0 <= i < |files| && files[i].path == p
  }

  ghost predicate Known(w: WState, p: string) {
    p in w.paths && w.paths[p] in w.states
  }

  lemma StepKeepsKnown(cfg: Config, w: WState, e: Event, p: string)
    requires Inv(cfg, w) && Known(w, p) && AlwaysListed([e], p)
    ensures Known(Apply(cfg, w, e), p)
  {
    hide Inv, Scan, ProcessStat;
    RowGivesDomain(cfg, w);
    if e.Scanned? && e.listing.Some? {
      assert e in [e];
      var i :| 0 <= i < |e.listing.value| && e.listing.value[i].path == p;
      ScanKeepsPath(w, e.listing.value, i);
    } else {
      NoScanKeepsTables(cfg, w, e);
    }
  }

  /** A file that parsed once stays known under a watched name for as long as it is listed, through
      any number of scans in which it parses, breaks or changes its name. */
  lemma {:induction false} OnceParsedStaysKnown(cfg: Config, w: WState, events: seq<Event>, p: string)
    requires Inv(cfg, w) && Known(w, p) && AlwaysListed(events, p)
    ensures Known(Run(Applying(cfg), w, events), p)
    decreases |events|
  {
    hide Inv, Apply, Known, Lists;
    if events != [] {
      assert events[0] in events;
      StepKeepsKnown(cfg, w, events[0], p);
      StepKeepsInv(cfg, w, events[0]);
      OnceParsedStaysKnown(cfg, Apply(cfg, w, events[0]), events[1..], p);
    }
  }

  /** Every completed scan of the run lists `p` and fails to parse it. */
  ghost predicate AlwaysBroken(cfg: Config, w: WState, events: seq<Event>, p: string)
    decreases |events|
  {
    events != [] ==>
      && (events[0].Scanned? && events[0].listing.Some? ==> BrokenIn(w, events[0].listing.value, p))
      && AlwaysBroken(cfg, Apply(cfg, w, events[0]), events[1..], p)
  }

  ghost predicate BrokenIn(w: WState, files: seq<Probe>, p: string) {
    DistinctPaths(files) && exists i :: 0 <= i < |files| && files[i].path == p && RecipeOf(w.cache, files[i]).None?
  }

  lemma BrokenStep(cfg: Config, w: WState, e: Event, p: string)
    requires Inv(cfg, w) && Known(w, p)
    requires e.Scanned? && e.listing.Some? ==> BrokenIn(w, e.listing.value, p)
    ensures
      var w' := Apply(cfg, w, e);
      Known(w', p) && w'.paths[p] == w.paths[p] && GoodListing(e) && !Dropped(w, e, w.paths[p])
  {
    hide Inv, Scan, ProcessStat, RecipeOf;
    RowGivesDomain(cfg, w);
    if e.Scanned? && e.listing.Some? {
      var i :| 0 <= i < |e.listing.value| && e.listing.value[i].path == p && RecipeOf(w.cache, e.listing.value[i]).None?;
      ScanKeepsPath(w, e.listing.value, i);
    } else {
      NoScanKeepsTables(cfg, w, e);
    }
  }

  /** ... and as long as it stays broken its name is found by every scan, so its model is served
      throughout. */
  lemma {:induction false} BrokenFileStaysServed(cfg: Config, w: WState, events: seq<Event>, p: string)
    requires Inv(cfg, w) && Known(w, p) && AlwaysBroken(cfg, w, events, p)
    ensures AlwaysFound(cfg, w, events, w.paths[p])
    ensures Known(Run(Applying(cfg), w, events), p) && Run(Applying(cfg), w, events).paths[p] == w.paths[p]
    ensures Serving(w, w.paths[p]) ==> Serving(Run(Applying(cfg), w, events), w.paths[p])
    decreases |events|
  {
    hide Inv, Apply, BrokenIn, Dropped, GoodListing, Serving;
    if events != [] {
      BrokenStep(cfg, w, events[0], p);
      StepKeepsInv(cfg, w, events[0]);
      BrokenFileStaysServed(cfg, Apply(cfg, w, events[0]), events[1..], p);
    }
    if Serving(w, w.paths[p]) {
      ServedThroughout(cfg, w, events, w.paths[p]);
    }
  }

  lemma ScanKeepsInv(cfg: Config, w: WState, files: seq<Probe>)
    requires Inv(cfg, w)
    ensures Inv(cfg, Scan(w, Some(files)))
  {
    hide Inv, Scan;
    StepKeepsInv(cfg, w, Scanned(Some(files)));
  }

  // ------------------------------------------------------------------ what shows when something fails

  /** The entry of `n` carries the complaint, and nothing else has changed. */
  ghost predicate Complains(w: WState, w': WState, n: string, error: LoadError) {
    && w'.states == w.states && w'.paths == w.paths && w'.cache == w.cache && w'.errors == w.errors
    && n in w.registry && w'.registry == w.registry[n := w.registry[n].(error := Some(error))]
  }

  /** A missing artifact, a failed stat and a stat that hangs each leave their own complaint. */
  lemma FailedStatShows(cfg: Config, w: WState, n: string, o: Observation)
    requires n in w.states && n in w.registry
    ensures o.stat.NotThere? ==> Complains(w, Apply(cfg, w, Observed(n, o)), n, ArtifactMissing)
    ensures o.stat.StatRaised? ==> Complains(w, Apply(cfg, w, Observed(n, o)), n, StatFailed(o.stat.errorClass))
    ensures Complains(w, Apply(cfg, w, TimedOut(n)), n, StatTimeout)
  {
  }

  /** A load that fails leaves its complaint, too; a tick that fails at the threshold leaves the
      sentinel on every watched recipe, and below the threshold nothing. */
  lemma FailedLoadShows(cfg: Config, w: WState, n: string, o: Observation)
    requires n in w.states && n in w.registry && Reads(w, n, o)
    ensures
      var w' := Apply(cfg, w, Observed(n, o));
      && n in w'.registry
      && (o.read.ReadFails? ==> w'.registry[n].error == Some(ReadFailed))
      && (o.read.ReadOk? && w.states[n].lastSha != Some(cfg.crypto.sha256(o.read.data)) ==>
            && (!Authentic(cfg, o.read.data) || o.late.Refused? ==> w'.registry[n].error == Some(BuildFailed))
            && (Authentic(cfg, o.read.data) && o.late.Builds? && w.states[n].recipe.Some? ==>
                  w'.registry[n] == Entry(true, Some(o.read.data), None, Some(o.stat.m), Some(cfg.crypto.sha256(o.read.data)))))
  {
    hide CheckSidecar, Authentic;
  }

  lemma FailedTickShows(cfg: Config, w: WState)
    requires w.states.Keys <= w.registry.Keys
    ensures
      var w' := Apply(cfg, w, TickFailed);
      && w'.errors == w.errors + 1 && w'.registry.Keys == w.registry.Keys
      && forall n :: n in w.registry ==>
           w'.registry[n] == w.registry[n].(
             error := if w.errors + 1 >= cfg.threshold && n in w.states then Some(WatcherUnhealthy) else w.registry[n].error)
  {
  }

  // ------------------------------------------------------------------ sidecars

  /** The third failure in a row to read a sidecar suppresses it: no more loads on its account while
      the mtime of the recipe's file does not visibly change; when it does, the sidecar is taken up
      where it was left. The first two failures trigger loads. */
  lemma ThirdErrorSuppresses(s: SidecarState, first: Option<Mtime>, second: Option<Mtime>, third: Option<Mtime>)
    requires !s.unsupported && s.ioErrors == 0
    ensures
      var (s1, v1) := CheckSidecar(s, first, IoError);
      var (s2, v2) := CheckSidecar(s1, second, IoError);
      var (s3, v3) := CheckSidecar(s2, third, IoError);
      && v1 == v2 == Changed && v3 == Unchanged
      && (forall file, mtime: Option<Mtime> :: mtime.None? || third.None? || mtime == third ==> CheckSidecar(s3, mtime, file) == (s3, Unchanged))
      && (forall file, mtime: Option<Mtime> :: mtime.Some? && third.Some? && mtime != third ==>
            CheckSidecar(s3, mtime, file) == CheckSidecar(s.(unsupportedAt := None), mtime, file))
  {
  }

  /** Any answer but an I/O error or an exception starts the count of errors anew. A sidecar that
      vanished while it was read is forgotten, so that the same text triggers a load again; one
      that is just absent is not. */
  lemma SidecarMemory(s: SidecarState, mtime: Option<Mtime>, text: string)
    requires !s.unsupported
    ensures CheckSidecar(s, mtime, Absent) == (s.(ioErrors := 0), Unchanged)
    ensures CheckSidecar(s, mtime, Vanished) == (s.(ioErrors := 0, contents := None), Unchanged)
    ensures CheckSidecar(s, mtime, Contents(text)).0 == s.(ioErrors := 0, contents := Some(text))
    ensures CheckSidecar(s, mtime, Contents(text)).1.Changed? <==> s.contents != Some(text)
    ensures CheckSidecar(CheckSidecar(s, mtime, Vanished).0, mtime, Contents(text)).1.Changed?
    ensures CheckSidecar(s, mtime, Undecodable) == CheckSidecar(s, mtime, Unprobeable) == (s, Unreadable)
  {
  }

  // ------------------------------------------------------------------ when an error text goes away

  /** Does handling the stat result read the artifact? */
  predicate Reads(w: WState, name: string, o: Observation) {
    && name in w.states && o.stat.Marked?
    && (w.states[name].lastMarker != Seen(o.stat.m)
        || CheckSidecar(w.states[name].sidecar, o.yamlMtime, o.sidecar).1.Changed?)
  }

  /** The event reads bytes other than those on record, and they build. */
  predicate Swaps(cfg: Config, w: WState, e: Event, n: string) {
    && e.Observed? && e.name == n && Reads(w, n, e.o) && e.o.read.ReadOk?
    && w.states[n].lastSha != Some(cfg.crypto.sha256(e.o.read.data))
    && BuildEntry(cfg, w.states[n].recipe, e.o.read.data, e.o.late).Built?
  }

  /** Some file of the listing has a recipe of this name. */
  ghost predicate Recipes(w: WState, files: seq<Probe>, n: string) {
    exists i :: 0 <= i < |files| && HasRecipe(w, files[i], n)
  }

  lemma LoadClearsIff(cfg: Config, w: WState, name: string, marker: Marker, read: Read, late: Late)
    requires name in w.states && name in w.registry && w.registry[name].error.Some?
    ensures
      var w' := Load(cfg, w, name, marker, read, late).0;
      && name in w'.registry
      && (w'.registry[name].error.None? <==>
          read.ReadOk? && w.states[name].lastSha != Some(cfg.crypto.sha256(read.data))
          && BuildEntry(cfg, w.states[name].recipe, read.data, late).Built?)
  {
    hide BuildEntry;
    if read.ReadOk? && BuildEntry(cfg, w.states[name].recipe, read.data, late).Built? {
      BuiltIsGenuine(cfg, w.states[name].recipe, read.data, late, marker);
    }
  }

  lemma ObservedClearsIff(cfg: Config, w: WState, e: Event, n: string)
    requires e.Observed? && n in w.registry && w.registry[n].error.Some?
    ensures n in Apply(cfg, w, e).registry && (Apply(cfg, w, e).registry[n].error.None? <==> Swaps(cfg, w, e, n))
  {
    hide Load, CheckSidecar, BuildEntry;
    ObservedFate(cfg, w, e, n);
    if e.name == n && n in w.states && e.o.stat.Marked? {
      var sidecar := CheckSidecar(w.states[n].sidecar, e.o.yamlMtime, e.o.sidecar).0;
      LoadClearsIff(cfg, w, n, e.o.stat.m, e.o.read, e.o.late);
      LoadClearsIff(cfg, w.(states := w.states[n := w.states[n].(sidecar := sidecar)]), n, e.o.stat.m, e.o.read, e.o.late);
    }
  }

  /** An unwatched entry through the first files of a scan: untouched, until a recipe of its name
      turns up and a fresh stub takes its place. */
  ghost predicate Orphaned(w: WState, w': WState, n: string, discovered: bool) {
    && n in w.registry && n in w'.registry
    && (if discovered then n in w'.states && w'.registry[n].error.None?
        else n !in w'.states && w'.registry[n] == w.registry[n])
  }

  lemma OrphanMeetsFile(w: WState, v: WState, current: set<string>, p: Probe, n: string, discovered: bool)
    requires n !in current && current <= v.states.Keys && Orphaned(w, v, n, discovered)
    requires RecipeOf(v.cache, p) == RecipeOf(w.cache, p)
    ensures Orphaned(w, ScanFile(v, current, p).0, n, discovered || HasRecipe(w, p, n))
  {
    hide RecipeOf, FirstFree, CacheAfter;
  }

  lemma {:induction false} OrphanInScan(w: WState, files: seq<Probe>, k: nat, n: string)
    requires w.states.Keys <= w.registry.Keys && DistinctPaths(files) && k <= |files|
    requires n !in w.states && n in w.registry
    ensures Orphaned(w, ScanPrefix(w, files, k).0, n, Recipes(w, files[..k], n))
  {
    hide ScanFile, RecipeOf;
    if k > 0 {
      OrphanInScan(w, files, k - 1, n);
      FileMetFresh(w, files, k - 1);
      OrphanMeetsFile(w, ScanPrefix(w, files, k - 1).0, w.states.Keys, files[k - 1], n, Recipes(w, files[..k - 1], n));
      OneMoreRecipe(w, files, k, n);
    } else {
      assert ScanPrefix(w, files, 0).0 == w && files[..0] == [];
    }
  }

  lemma OneMoreRecipe(w: WState, files: seq<Probe>, k: nat, n: string)
    requires 0 < k <= |files|
    ensures Recipes(w, files[..k], n) <==> Recipes(w, files[..k - 1], n) || HasRecipe(w, files[k - 1], n)
  {
    hide HasRecipe;
    assert files[..k] == files[..k - 1] + [files[k - 1]];
  }

  lemma ScanClearsIff(w: WState, files: seq<Probe>, n: string)
    requires w.states.Keys <= w.registry.Keys && DistinctPaths(files)
    requires n in w.registry && w.registry[n].error.Some? && n in Scan(w, Some(files)).registry
    ensures Scan(w, Some(files)).registry[n].error.None? <==> n !in w.states && Recipes(w, files, n)
  {
    hide ScanPrefix, Recipes;
    if n in w.states {
      FoundModelsSurvive(w, files, n);
    } else {
      OrphanInScan(w, files, |files|, n);
      assert files[..|files|] == files;
    }
  }

  /** Exactly when an error text goes away. A swap to new bytes takes it away, a successful tick
      takes the sentinel away, and so does the discovery of a recipe under the name of an entry
      nobody watched; nothing else does. In particular a file that reappears with the bytes
      already served leaves the old complaint in place. */
  lemma ErrorClearedIff(cfg: Config, w: WState, e: Event, n: string)
    requires Inv(cfg, w) && GoodListing(e)
    requires n in w.registry && w.registry[n].error.Some? && n in Apply(cfg, w, e).registry
    ensures
      Apply(cfg, w, e).registry[n].error.None? <==>
      match e
      case Observed(name, o) => Swaps(cfg, w, e, n)
      case TickOk => w.registry[n].error == Some(WatcherUnhealthy)
      case Scanned(listing) => listing.Some? && n !in w.states && Recipes(w, listing.value, n)
      case _ => false
  {
    hide Inv, ProcessStat, Scan, Swaps, Recipes;
    RowGivesDomain(cfg, w);
    InvRow(cfg, w, n);
    match e
    case Observed(name, o) => ObservedClearsIff(cfg, w, e, n);
    case Scanned(listing) =>
      if listing.Some? {
        ScanClearsIff(w, listing.value, n);
      } else {
        UnlistedClearsNothing(w, n);
      }
    case _ =>
  }

  lemma UnlistedClearsNothing(w: WState, n: string)
    requires n in w.registry && w.registry[n].error.Some?
    ensures Scan(w, None).registry[n].error.Some?
  {
  }

  // ------------------------------------------------------------------ loads that are not retried

  /** The load that the observation triggers fails: nothing to read, or bytes that do not build. */
  predicate LoadFails(cfg: Config, w: WState, n: string, o: Observation)
    requires n in w.states
  {
    match o.read
    case ReadFails => true
    case ReadOk(data) =>
      w.states[n].lastSha != Some(cfg.crypto.sha256(data)) && BuildEntry(cfg, w.states[n].recipe, data, o.late).BuildError?
  }

  lemma FailedLoadLeavesRow(cfg: Config, w: WState, n: string, o: Observation)
    requires n in w.states && n in w.registry && Reads(w, n, o) && LoadFails(cfg, w, n, o)
    ensures
      var w' := ProcessStat(cfg, w, n, o).0;
      && n in w'.states && n in w'.registry && w'.registry[n].error.Some?
      && w'.states[n] == w.states[n].(sidecar := w'.states[n].sidecar)
      && w'.states[n].sidecar == if w.states[n].lastMarker != Seen(o.stat.m) then w.states[n].sidecar
         else CheckSidecar(w.states[n].sidecar, o.yamlMtime, o.sidecar).0
  {
    hide BuildEntry, CheckSidecar;
  }

  /** A sidecar that has just triggered a read is quiet while its text stays. */
  lemma SameTextIsUnchanged(s: SidecarState, yamlMtime: Option<Mtime>, later: Option<Mtime>, text: string)
    requires CheckSidecar(s, yamlMtime, Contents(text)).1.Changed?
    ensures
      var t := CheckSidecar(s, yamlMtime, Contents(text)).0;
      CheckSidecar(t, later, Contents(text)) == (t, Unchanged)
  {
  }

  /** Is a failed load tried again, while marker and sidecar text stay the same? Exactly if it was
      triggered by the marker. A load triggered by the `.sha256` sidecar alone is tried once:
      later polls change nothing, even when a read would now succeed. */
  lemma FailedLoadIsRetriedIff(
    cfg: Config, w: WState, n: string, m: Marker, text: string, o: Observation, again: Observation)
    requires Inv(cfg, w) && n in w.states
    requires o.stat == again.stat == Marked(m) && o.sidecar == again.sidecar == Contents(text)
    requires Reads(w, n, o) && LoadFails(cfg, w, n, o)
    ensures
      var w' := ProcessStat(cfg, w, n, o).0;
      && n in w'.registry && w'.registry[n].error.Some?
      && (Reads(w', n, again) <==> w.states[n].lastMarker != Seen(m))
      && (!Reads(w', n, again) ==> ProcessStat(cfg, w', n, again) == (w', Normal))
  {
    hide Inv, CheckSidecar, LoadFails, Load;
    RowGivesDomain(cfg, w);
    FailedLoadLeavesRow(cfg, w, n, o);
    if w.states[n].lastMarker == Seen(m) {
      SameTextIsUnchanged(w.states[n].sidecar, o.yamlMtime, again.yamlMtime, text);
      var w' := ProcessStat(cfg, w, n, o).0;
      assert w'.states[n := w'.states[n].(sidecar := w'.states[n].sidecar)] == w'.states;
    }
  }

  // ------------------------------------------------------------------ preseeded stubs

  /** A path that is already mapped when a scan finds its file broken: the scan keeps the name
      exactly if the name is watched. If it is not, a second stub takes the path over, and the
      first one stays in the registry, watched by nobody. */
  lemma BrokenFileKeepsNameIff(w: WState, files: seq<Probe>, i: nat, name: string)
    requires w.states.Keys <= w.registry.Keys && DistinctPaths(files) && i < |files|
    requires files[i].path in w.paths && w.paths[files[i].path] == name && name in w.registry
    requires RecipeOf(w.cache, files[i]).None?
    ensures
      var w', path := Scan(w, Some(files)), files[i].path;
      && path in w'.paths && w'.paths[path] in w'.states && name in w'.registry
      && (w'.paths[path] == name <==> name in w.states)
      && (name !in w.states ==> w'.paths[path] !in w.registry)
  {
    hide RecipeOf, RowsKept, Scan;
    if name in w.states {
      ScanKeepsPath(w, files, i);
      ScanReconciles(w, files);
    } else {
      SecondStub(w, files, i, name);
    }
  }

  lemma SecondStub(w: WState, files: seq<Probe>, i: nat, name: string)
    requires w.states.Keys <= w.registry.Keys && DistinctPaths(files) && i < |files|
    requires files[i].path in w.paths && w.paths[files[i].path] == name && name in w.registry && name !in w.states
    requires RecipeOf(w.cache, files[i]).None?
    ensures
      var w', path := Scan(w, Some(files)), files[i].path;
      path in w'.paths && w'.paths[path] in w'.states && w'.paths[path] !in w.registry && name in w'.registry
  {
    hide ScanParsed, RecipeOf, RowsKept, Evict, Scan;
    var mid := ScanPrefix(w, files, i).0;
    FileMetFresh(w, files, i);
    PrefixKeeps(w, files, i);
    PresentGrows(files, i);
    RegistryGrows(w, mid, ScanPrefix(w, files, i).1);
    StubTakesPath(mid, w.states.Keys, files[i]);
    PathKept(w, files, i, |files|);
    ScanReconciles(w, files);
    PrefixKeeps(w, files, |files|);
    RegistryGrows(w, ScanPrefix(w, files, |files|).0, Found(w, files));
    EvictSparesUnwatched(w, files, name);
    EvictKeepsValues(w, files, files[i].path);
  }

  lemma StubTakesPath(w: WState, current: set<string>, p: Probe)
    requires p.path in w.paths && w.paths[p.path] !in current
    ensures
      var w' := ScanBroken(w, current, p).0;
      p.path in w'.paths && w'.paths[p.path] !in w.registry
  {
    hide FirstFree;
  }

  lemma EvictKeepsValues(w: WState, files: seq<Probe>, p: string)
    ensures p in Scan(w, Some(files)).paths ==>
      p in ScanPrefix(w, files, |files|).0.paths && Scan(w, Some(files)).paths[p] == ScanPrefix(w, files, |files|).0.paths[p]
  {
    hide ScanPrefix;
  }

  lemma RegistryGrows(w: WState, w': WState, found: set<string>)
    requires RowsKept(w, w', found)
    ensures w.registry.Keys <= w'.registry.Keys
  {
  }

  lemma EvictSparesUnwatched(w: WState, files: seq<Probe>, n: string)
    requires n !in w.states && n in ScanPrefix(w, files, |files|).0.registry
    ensures n in Scan(w, Some(files)).registry
  {
    hide ScanPrefix;
  }
}
