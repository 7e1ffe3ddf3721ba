/** The hot-swap watcher itself: an object whose ticks update its tables, its per-recipe records
    and the shared registry in place. Every method is tied to the value-level model. */
module Watcher {
  import opened Wrappers
  import opened Runs
  import opened ByteStrings
  import opened Utf8
  import opened Container
  import opened Signing
  import opened ArtifactIO
  import opened Naming
  import opened Registry
  import opened WatcherModel
  import opened WatcherSafety

  // ------------------------------------------------------------------ one recipe's record

  class RecipeWatchState {
    var recipe: Option<Recipe>
    var artifactPath: string
    var lastMarker: LastMarker
    var lastSha: Option<Digest>
    var sidecarContents: Option<string>
    var sidecarUnsupported: bool
    var sidecarUnsupportedAt: Option<Mtime>
    var sidecarIoErrors: nat

    function Sidecar(): SidecarState
      reads this
    {
      SidecarState(sidecarContents, sidecarUnsupported, sidecarUnsupportedAt, sidecarIoErrors)
    }

    function Snapshot(): WatchState
      reads this
    {
      WatchState(recipe, artifactPath, lastMarker, lastSha, Sidecar())
    }

    constructor (recipe: Option<Recipe>, path: string)
      ensures Snapshot() == NewState(recipe, path)
    {
      this.recipe, artifactPath, lastMarker, lastSha := recipe, path, Unset, None;
      sidecarContents, sidecarUnsupported, sidecarUnsupportedAt, sidecarIoErrors := None, false, None, 0;
    }

    method CheckSidecarChanged(yamlMtime: Option<Mtime>, file: SidecarFile) returns (verdict: SidecarVerdict)
      modifies this
      ensures Snapshot() == old(Snapshot()).(sidecar := CheckSidecar(old(Sidecar()), yamlMtime, file).0)
      ensures verdict == CheckSidecar(old(Sidecar()), yamlMtime, file).1
    {
      if sidecarUnsupported {
        if yamlMtime.None? || sidecarUnsupportedAt.None? || yamlMtime == sidecarUnsupportedAt {
          return Unchanged;
        }
        sidecarUnsupported, sidecarUnsupportedAt := false, None;
      }
      match file {
        case Absent =>
          sidecarIoErrors := 0;
          return Unchanged;
        case Vanished =>
          sidecarContents, sidecarIoErrors := None, 0;
          return Unchanged;
        case IoError =>
          sidecarIoErrors := sidecarIoErrors + 1;
          if sidecarIoErrors >= 3 {
            sidecarUnsupported, sidecarUnsupportedAt, sidecarIoErrors := true, yamlMtime, 0;
            return Unchanged;
          }
          return Changed;
        case Undecodable =>
          return Unreadable;
        case Unprobeable =>
          return Unreadable;
        case Contents(text) =>
          sidecarIoErrors := 0;
          if sidecarContents == Some(text) {
            return Unchanged;
          }
          sidecarContents := Some(text);
          return Changed;
      }
    }
  }

  // ------------------------------------------------------------------ loops over the tables

  /** The answers to one poll's stat calls, in the order in which they arrive. */
  datatype Answer = Answered(name: string, o: Observation) | Hung(name: string)

  datatype TickInput = TickInput(listing: Option<seq<Probe>>, answers: seq<Answer>)

  function AsEvent(a: Answer): Event {
    match a
    case Answered(name, o) => Observed(name, o)
    case Hung(name) => TimedOut(name)
  }

  function AnswerOutcome(cfg: Config, w: WState, a: Answer): Outcome {
    match a
    case Answered(name, o) => ProcessStat(cfg, w, name, o).1
    case Hung(_) => Normal
  }

  /** What one poll does, event by event: it stops at the first answer whose handling raises. */
  function PollEvents(cfg: Config, w: WState, answers: seq<Answer>): (seq<Event>, Outcome)
    decreases |answers|
  {
    if answers == [] then ([], Normal) else
    var (e, outcome) := (AsEvent(answers[0]), AnswerOutcome(cfg, w, answers[0]));
    if outcome != Normal then ([e], outcome) else
    var (rest, end) := PollEvents(cfg, Apply(cfg, w, e), answers[1..]);
    ([e] + rest, end)
  }

  /** One tick as a run of the model, and whether the thread survives it. */
  function TickEvents(cfg: Config, w: WState, input: TickInput): (seq<Event>, bool) {
    var (polled, outcome) := PollEvents(cfg, Scan(w, input.listing), input.answers);
    var before := [Scanned(input.listing)] + polled;
    match outcome
    case Normal => (before + [TickOk], true)
    case Raises => (before + [TickFailed], true)
    case Dies => (before, false)
  }

  function LoopEvents(cfg: Config, w: WState, ticks: seq<TickInput>): seq<Event>
    decreases |ticks|
  {
    if ticks == [] then [] else
    var (events, alive) := TickEvents(cfg, w, ticks[0]);
    if alive then events + LoopEvents(cfg, Run(Applying(cfg), w, events), ticks[1..]) else events
  }

  lemma OneScan(cfg: Config, w: WState, listing: Option<seq<Probe>>)
    ensures Run(Applying(cfg), w, [Scanned(listing)]) == Scan(w, listing)
  {
    hide Scan;
    RunOne(Applying(cfg), w, Scanned(listing));
  }

  /** The first `i` answers were handled without raising; they took `w0` to `w`. */
  predicate PollSoFar(cfg: Config, w0: WState, w: WState, answers: seq<Answer>, i: nat, done: seq<Event>)
    requires i <= |answers|
  {
    var (rest, end) := PollEvents(cfg, w, answers[i..]);
    w == Run(Applying(cfg), w0, done) && PollEvents(cfg, w0, answers) == (done + rest, end)
  }

  lemma PollStarts(cfg: Config, w: WState, answers: seq<Answer>)
    ensures PollSoFar(cfg, w, w, answers, 0, [])
  {
    hide Apply, AsEvent, AnswerOutcome;
    assert answers[0..] == answers;
    assert [] + PollEvents(cfg, w, answers).0 == PollEvents(cfg, w, answers).0;
  }

  lemma PollContinues(cfg: Config, w0: WState, w: WState, answers: seq<Answer>, i: nat, done: seq<Event>)
    requires i < |answers| && PollSoFar(cfg, w0, w, answers, i, done)
    ensures
      var e, outcome := AsEvent(answers[i]), AnswerOutcome(cfg, w, answers[i]);
      var w' := Apply(cfg, w, e);
      && (outcome == Normal ==> PollSoFar(cfg, w0, w', answers, i + 1, done + [e]))
      && (outcome != Normal ==> w' == Run(Applying(cfg), w0, done + [e]) && PollEvents(cfg, w0, answers) == (done + [e], outcome))
  {
    hide Apply, Run, AsEvent, AnswerOutcome;
    var e := AsEvent(answers[i]);
    RunAppend(Applying(cfg), w0, done, [e]);
    RunOne(Applying(cfg), w, e);
    assert answers[i..][1..] == answers[i + 1..];
    var rest := PollEvents(cfg, Apply(cfg, w, e), answers[i + 1..]).0;
    assert done + ([e] + rest) == done + [e] + rest;
  }

  lemma PollEnds(cfg: Config, w0: WState, w: WState, answers: seq<Answer>, done: seq<Event>)
    requires PollSoFar(cfg, w0, w, answers, |answers|, done)
    ensures PollEvents(cfg, w0, answers) == (done, Normal) && w == Run(Applying(cfg), w0, done)
  {
    hide Run;
    assert answers[|answers|..] == [] && done + [] == done;
  }

  /** Drop the rows of some names, and the path and cache rows that lead to them. */
  function DropNames(w: WState, gone: set<string>): WState {
    w.(registry := w.registry - gone,
       states := w.states - gone,
       paths := map p | p in w.paths && w.paths[p] !in gone :: w.paths[p],
       cache := map p | p in w.cache && !(p in w.paths && w.paths[p] in gone) :: w.cache[p])
  }

  lemma FewerValues<K, V>(m: map<K, V>, gone: set<K>)
    ensures (m - gone).Values <= m.Values
  {
  }

  lemma DropOne(w: WState, n: string)
    ensures DropNames(w, {n}) == w.(
      registry := w.registry - {n},
      states := w.states - {n},
      paths := map p | p in w.paths && w.paths[p] != n :: w.paths[p],
      cache := map p | p in w.cache && !(p in w.paths && w.paths[p] == n) :: w.cache[p])
  {
  }

  lemma DropOneMore(w: WState, gone: set<string>, n: string)
    ensures DropNames(DropNames(w, gone), {n}) == DropNames(w, gone + {n})
  {
  }

  lemma EvictInTwoSteps(w: WState, gone: set<string>, present: set<string>)
    ensures
      var v := DropNames(w, gone);
      Evict(w, gone, present) == v.(
        paths := map p | p in v.paths && p in present :: v.paths[p],
        cache := map p | p in v.cache && p in present :: v.cache[p])
  {
  }

  lemma DropNothing(w: WState)
    ensures DropNames(w, {}) == w
  {
  }

  lemma AnnotateOneMore(v: View, names: set<string>, n: string, error: Option<LoadError>)
    ensures WithError(Annotate(v, names, error), n, error) == Annotate(v, names + {n}, error)
    ensures Annotate(v, {}, error) == v
  {
  }

  /** `set_load_error` on each of the names. */
  method AnnotateAll(registry: ModelRegistry, names: set<string>, error: Option<LoadError>)
    requires registry.Valid()
    modifies registry.entries.Values
    ensures registry.Valid() && registry.Contents() == Annotate(old(registry.Contents()), names, error)
  {
    hide WithError, Annotate;
    ghost var before, done := registry.Contents(), {};
    var todo := names;
    AnnotateOneMore(before, {}, "", error);
    while todo != {}
      invariant done + todo == names && registry.Valid()
      invariant registry.Contents() == Annotate(before, done, error)
      decreases |todo|
    {
      var n :| n in todo;
      AnnotateOneMore(before, done, n, error);
      var _ := registry.SetLoadError(n, error);
      todo, done := todo - {n}, done + {n};
    }
    assert done == names;
  }

  function SentinelsAmong(v: View, names: set<string>): set<string> {
    set n | n in names && n in v && v[n].error == Some(WatcherUnhealthy)
  }

  method ClearIfSentinel(registry: ModelRegistry, name: string)
    requires registry.Valid()
    modifies registry.entries.Values
    ensures registry.Valid()
    ensures registry.Contents() == Cleared(old(registry.Contents()), name)
  {
    hide WithError;
    var entry := registry.Get(name);
    assert entry != null ==> registry.Contents()[name] == entry.Snapshot();
    if entry != null && entry.error == Some(WatcherUnhealthy) {
      var _ := registry.SetLoadError(name, None);
    }
  }

  function Cleared(v: View, name: string): View {
    if name in v && v[name].error == Some(WatcherUnhealthy) then WithError(v, name, None) else v
  }

  lemma ClearOneMore(v: View, names: set<string>, n: string)
    ensures
      Cleared(Annotate(v, SentinelsAmong(v, names), None), n) == Annotate(v, SentinelsAmong(v, names + {n}), None)
    ensures Annotate(v, SentinelsAmong(v, {}), None) == v
  {
  }

  /** `set_load_error(name, None)` on each of the names whose error text is the sentinel. */
  method ClearSentinels(registry: ModelRegistry, names: set<string>)
    requires registry.Valid()
    modifies registry.entries.Values
    ensures registry.Valid()
    ensures registry.Contents() == Annotate(old(registry.Contents()), SentinelsAmong(old(registry.Contents()), names), None)
  {
    hide WithError, Annotate, SentinelsAmong, Cleared;
    ghost var before, done := registry.Contents(), {};
    var todo := names;
    ClearOneMore(before, {}, "");
    while todo != {}
      invariant done + todo == names && registry.Valid()
      invariant registry.Contents() == Annotate(before, SentinelsAmong(before, done), None)
      decreases |todo|
    {
      var n :| n in todo;
      ClearOneMore(before, done, n);
      ClearIfSentinel(registry, n);
      todo, done := todo - {n}, done + {n};
    }
    assert done == names;
  }

  /** What a recipe changes in the rows: a new row, a recovered one, or nothing. */
  function Discovered(w: WState, recipe: Recipe): WState {
    if recipe.name !in w.states then
      w.(states := w.states[recipe.name := NewState(Some(recipe), recipe.outputPath)],
         registry := w.registry[recipe.name := Stub(None)])
    else if w.states[recipe.name].path == "" && recipe.outputPath != "" then
      w.(states := w.states[recipe.name := w.states[recipe.name].(
           path := recipe.outputPath, recipe := Some(recipe), lastMarker := Unset)])
    else w
  }

  lemma ScanFileIs(w: WState, current: set<string>, p: Probe)
    ensures
      var recipe, cache := RecipeOf(w.cache, p), CacheAfter(w.cache, p);
      && (recipe.None? ==> cache == w.cache && ScanFile(w, current, p) == ScanBroken(w, current, p))
      && (recipe.Some? ==>
            var v := w.(paths := w.paths[p.path := recipe.value.name], cache := cache);
            ScanFile(w, current, p) == (Discovered(v, recipe.value), recipe.value.name))
  {
    hide ScanBroken;
  }

  // ------------------------------------------------------------------ the watcher

  class ArtifactWatcher {
    const cfg: Config
    const registry: ModelRegistry
    var states: map<string, RecipeWatchState>
    var paths: map<string, string>
    var cache: map<string, (Mtime, Recipe)>
    var errors: nat

    ghost function States(): map<string, WatchState>
      reads this`states, states.Values
    {
      map n | n in states :: states[n].Snapshot()
    }

    ghost function View(): WState
      reads this, states.Values, registry, registry.entries.Values
    {
      WState(States(), registry.Contents(), paths, cache, errors)
    }

    lemma SameNames()
      ensures View().states.Keys == states.Keys && View().registry.Keys == registry.entries.Keys
    {
    }

    lemma SameRecord(name: string)
      ensures name in states ==> View().states[name] == states[name].Snapshot()
    {
    }

    /** Every name has a record object of its own. */
    ghost predicate Valid()
      reads this`states, registry, registry.entries.Values
    {
      && registry.Valid()
      && forall m, n :: m in states && n in states && m != n ==> states[m] != states[n]
    }

    constructor (cfg: Config, registry: ModelRegistry, initial: map<string, RecipeWatchState>)
      requires registry.Valid()
      requires forall m, n :: m in initial && n in initial && m != n ==> initial[m] != initial[n]
      ensures Valid() && this.cfg == cfg && this.registry == registry && states == initial
      ensures paths == map[] && cache == map[] && errors == 0
    {
      this.cfg, this.registry, states := cfg, registry, initial;
      paths, cache, errors := map[], map[], 0;
    }

    /** Start-up tells the watcher under which stub name a broken file is already registered. */
    method PreseedYamlPath(path: string, stub: string)
      requires Valid()
      modifies this`paths
      ensures Valid() && View() == old(View()).(paths := old(paths)[path := stub])
    {
      paths := paths[path := stub];
    }

    /** Annotates the entry; a missing entry is what the divergence metric counts. */
    method MarkError(name: string, error: LoadError) returns (found: bool)
      requires Valid()
      modifies registry.entries.Values
      ensures Valid() && found == (name in registry.entries)
      ensures View() == old(View()).(registry := WithError(old(View()).registry, name, Some(error)))
    {
      found := registry.SetLoadError(name, Some(error));
    }

    method MarkAllUnhealthy()
      requires Valid()
      modifies registry.entries.Values
      ensures Valid()
      ensures View() == old(View()).(registry := Annotate(old(View()).registry, old(View()).states.Keys, Some(WatcherUnhealthy)))
    {
      AnnotateAll(registry, states.Keys, Some(WatcherUnhealthy));
    }

    method ClearWatcherUnhealthyErrors()
      requires Valid()
      modifies registry.entries.Values
      ensures Valid()
      ensures View() == old(View()).(registry := Annotate(old(View()).registry, Sentinels(old(View())), None))
    {
      ClearSentinels(registry, states.Keys);
      assert SentinelsAmong(old(View()).registry, states.Keys) == Sentinels(old(View()));
    }

    /** Parse, verify, deserialize: a fresh entry, `null` for a refusal, or the thread's end. */
    method BuildEntry(recipe: Option<Recipe>, data: bytes, late: Late) returns (entry: ModelEntry?, fatal: bool)
      ensures
        match WatcherModel.BuildEntry(cfg, recipe, data, late)
        case Built(e) => entry != null && fresh(entry) && entry.Snapshot() == e && !fatal
        case BuildError => entry == null && !fatal
        case Fatal => entry == null && fatal
    {
      hide Parse;
      var parsed := ParseHeaderFromBytes(data, cfg.maxPayload);
      if parsed.Failure? {
        return null, false;
      }
      var header := parsed.value;
      if cfg.ring.Some? {
        var refusal := VerifyHmac(cfg.crypto, cfg.ring.value, header.kid, Encode(header.kid), header.headerData,
                                  data[header.payloadOffset..], header.hmacDigest);
        if refusal.Some? {
          return null, false;
        }
      }
      match late {
        case Exhausted => return null, true;
        case Refused => return null, false;
        case Builds =>
          if recipe.None? {
            return null, false;
          }
          entry := new ModelEntry(true, Some(data), None, None, None);
          return entry, false;
      }
    }

    method Acknowledge(name: string, marker: Marker)
      requires Valid() && name in states
      modifies states[name]
      ensures Valid()
      ensures States() == old(States())[name := old(States())[name].(lastMarker := Seen(marker))]
    {
      hide ModelRegistry.Valid, ModelRegistry.Contents;
      states[name].lastMarker := Seen(marker);
      assert States() == old(States())[name := old(States())[name].(lastMarker := Seen(marker))];
    }

    method RecordSwap(name: string, marker: Marker, sha: Digest)
      requires Valid() && name in states
      modifies states[name]
      ensures Valid()
      ensures States() == old(States())[name := old(States())[name].(lastMarker := Seen(marker), lastSha := Some(sha))]
    {
      hide ModelRegistry.Valid, ModelRegistry.Contents;
      states[name].lastSha := Some(sha);
      states[name].lastMarker := Seen(marker);
      assert States() == old(States())[name := old(States())[name].(lastMarker := Seen(marker), lastSha := Some(sha))];
    }

    method SwapIn(name: string, entry: ModelEntry, marker: Marker, sha: Digest)
      requires Valid() && name in states && entry !in registry.entries.Values
      modifies states[name], registry, entry
      ensures Valid() && registry.entries == old(registry.entries)[name := entry]
      ensures View() == old(View()).(
        registry := old(View()).registry[name := old(entry.Snapshot()).(marker := Some(marker), sha := Some(sha))],
        states := old(View()).states[name := old(View()).states[name].(lastMarker := Seen(marker), lastSha := Some(sha))])
    {
      hide ModelRegistry.Valid, ModelRegistry.Contents;
      registry.ReplaceWithMarker(name, entry, marker, sha);
      assert States() == old(States());
      RecordSwap(name, marker, sha);
    }

    method CheckSidecarOf(name: string, yamlMtime: Option<Mtime>, file: SidecarFile) returns (verdict: SidecarVerdict)
      requires Valid() && name in states
      modifies states[name]
      ensures Valid() && verdict == CheckSidecar(old(States())[name].sidecar, yamlMtime, file).1
      ensures States() == old(States())[name := old(States())[name].(
        sidecar := CheckSidecar(old(States())[name].sidecar, yamlMtime, file).0)]
    {
      hide ModelRegistry.Valid, ModelRegistry.Contents;
      hide CheckSidecar;
      verdict := states[name].CheckSidecarChanged(yamlMtime, file);
      ghost var before := old(States())[name];
      assert States() == old(States())[name := before.(sidecar := CheckSidecar(before.sidecar, yamlMtime, file).0)];
    }

    /** Read, verify and swap in; the record is written only after the registry took the entry. */
    method LoadRecipe(name: string, marker: Marker, read: Read, late: Late) returns (outcome: Outcome)
      requires Valid() && name in states
      modifies states[name], registry, registry.entries.Values
      ensures Valid() && fresh(registry.entries.Values - old(registry.entries.Values))
      ensures (View(), outcome) == Load(cfg, old(View()), name, marker, read, late)
    {
      hide ModelRegistry.Valid, ModelRegistry.Contents;
      hide WatcherModel.BuildEntry, WithError, ArtifactWatcher.States;
      SameNames();
      SameRecord(name);
      var state := states[name];
      if read.ReadFails? {
        var _ := MarkError(name, ReadFailed);
        return Normal;
      }
      var sha := cfg.crypto.sha256(read.data);
      if state.lastSha == Some(sha) {
        Acknowledge(name, marker);
        return Normal;
      }
      var entry, fatal := BuildEntry(state.recipe, read.data, late);
      if fatal {
        return Dies;
      }
      if entry == null {
        var _ := MarkError(name, BuildFailed);
        return Normal;
      }
      SwapIn(name, entry, marker, sha);
      return Normal;
    }

    method ProcessStatResult(name: string, o: Observation) returns (outcome: Outcome)
      requires Valid()
      modifies states.Values, registry, registry.entries.Values
      ensures Valid() && fresh(registry.entries.Values - old(registry.entries.Values))
      ensures (View(), outcome) == ProcessStat(cfg, old(View()), name, o)
    {
      hide Load, WithError, CheckSidecar, ModelRegistry.Valid, ModelRegistry.Contents, ArtifactWatcher.States;
      SameNames();
      SameRecord(name);
      if name !in states {
        return Normal;
      }
      match o.stat {
        case NotThere =>
          var _ := MarkError(name, ArtifactMissing);
          return Normal;
        case StatRaised(c) =>
          var _ := MarkError(name, StatFailed(c));
          return Normal;
        case Marked(m) =>
          if states[name].lastMarker != Seen(m) {
            outcome := LoadRecipe(name, m, o.read, o.late);
            return;
          }
          var verdict := CheckSidecarOf(name, o.yamlMtime, o.sidecar);
          match verdict {
            case Unchanged => return Normal;
            case Unreadable => return Raises;
            case Changed => outcome := LoadRecipe(name, m, o.read, o.late);
          }
      }
    }

    // ---------------------------------------------------------------- scanning

    /** A new row under `name`: a fresh record and a fresh, never loaded entry. */
    method Register(name: string, recipe: Option<Recipe>, path: string, error: Option<LoadError>)
      requires Valid() && name !in states
      modifies this`states, registry
      ensures Valid() && fresh(registry.entries.Values - old(registry.entries.Values))
      ensures fresh(states.Values - old(states.Values))
      ensures View() == old(View()).(
        registry := old(View()).registry[name := Stub(error)],
        states := old(View()).states[name := NewState(recipe, path)])
    {
      hide ModelRegistry.Valid, ModelRegistry.Contents, ArtifactWatcher.States;
      var stub := new ModelEntry(false, None, error, None, None);
      registry.Replace(name, stub);
      AddRecord(name, recipe, path);
    }

    method AddRecord(name: string, recipe: Option<Recipe>, path: string)
      requires Valid() && name !in states
      modifies this`states
      ensures Valid() && fresh(states.Values - old(states.Values))
      ensures States() == old(States())[name := NewState(recipe, path)]
    {
      hide ModelRegistry.Valid;
      var state := new RecipeWatchState(recipe, path);
      states := states[name := state];
      assert States() == old(States())[name := NewState(recipe, path)];
    }

    method RegisterYamlFailureStub(p: Probe) returns (stub: string)
      requires Valid()
      modifies this, registry
      ensures Valid() && fresh(registry.entries.Values - old(registry.entries.Values))
      ensures fresh(states.Values - old(states.Values))
      ensures stub == FirstFree(p.stem, old(View()).states.Keys + old(View()).registry.Keys, 0)
      ensures View() == old(View()).(
        registry := old(View()).registry[stub := Stub(Some(YamlFailed))],
        states := old(View()).states[stub := NewState(None, "")],
        paths := old(paths)[p.path := stub])
    {
      hide ModelRegistry.Valid, ModelRegistry.Contents, FirstFree, ArtifactWatcher.States;
      SameNames();
      stub := DedupStubName(p.stem, states.Keys + registry.entries.Keys);
      Register(stub, None, "", Some(YamlFailed));
      paths := paths[p.path := stub];
    }

    /** A file that does not parse keeps the name under which it is known, or gets a stub. */
    method ScanBrokenFile(current: set<string>, p: Probe) returns (name: string)
      requires Valid()
      modifies this, registry, registry.entries.Values
      ensures Valid() && fresh(registry.entries.Values - old(registry.entries.Values))
      ensures fresh(states.Values - old(states.Values))
      ensures (View(), name) == ScanBroken(old(View()), current, p)
    {
      hide FirstFree, WithError;
      var existing := if p.path in paths then Some(paths[p.path]) else None;
      if existing.None? {
        existing := if p.stem in current then Some(p.stem) else None;
      }
      if existing.Some? && existing.value in current {
        var _ := MarkError(existing.value, YamlFailed);
        return existing.value;
      }
      name := RegisterYamlFailureStub(p);
    }

    /** A former stub gets its artifact path and forgets its marker. */
    method Recover(recipe: Recipe)
      requires Valid() && recipe.name in states
      modifies states[recipe.name]
      ensures Valid()
      ensures States() == old(States())[recipe.name := old(States())[recipe.name].(
        path := recipe.outputPath, recipe := Some(recipe), lastMarker := Unset)]
    {
      hide ModelRegistry.Valid, ModelRegistry.Contents;
      var state := states[recipe.name];
      state.artifactPath, state.recipe, state.lastMarker := recipe.outputPath, Some(recipe), Unset;
      assert States() == old(States())[recipe.name := old(States())[recipe.name].(
        path := recipe.outputPath, recipe := Some(recipe), lastMarker := Unset)];
    }

    /** Parse the file, unless the cache has its recipe for this mtime; only successes are cached. */
    method LoadYaml(p: Probe) returns (recipe: Option<Recipe>)
      modifies this`cache
      ensures recipe == RecipeOf(old(cache), p) && cache == CacheAfter(old(cache), p)
    {
      if p.path in cache && p.mtime == Some(cache[p.path].0) {
        return Some(cache[p.path].1);
      }
      recipe := p.parsed;
      if recipe.Some? && p.mtime.Some? {
        cache := cache[p.path := (p.mtime.value, recipe.value)];
      }
    }

    /** One file of the listing. */
    method ScanYamlFile(current: set<string>, p: Probe) returns (name: string)
      requires Valid()
      modifies this, states.Values, registry, registry.entries.Values
      ensures Valid() && fresh(registry.entries.Values - old(registry.entries.Values))
      ensures fresh(states.Values - old(states.Values))
      ensures (View(), name) == ScanFile(old(View()), current, p)
    {
      hide ScanFile, ScanBroken, RecipeOf, Discovered, CacheAfter, ModelRegistry.Valid, ModelRegistry.Contents, ArtifactWatcher.States;
      ScanFileIs(View(), current, p);
      var recipe := LoadYaml(p);
      if recipe.None? {
        name := ScanBrokenFile(current, p);
        return;
      }
      paths := paths[p.path := recipe.value.name];
      Discover(recipe.value);
      return recipe.value.name;
    }

    method Discover(recipe: Recipe)
      requires Valid()
      modifies this`states, states.Values, registry
      ensures Valid() && fresh(registry.entries.Values - old(registry.entries.Values))
      ensures fresh(states.Values - old(states.Values))
      ensures View() == Discovered(old(View()), recipe)
    {
      hide ModelRegistry.Valid, ModelRegistry.Contents;
      if recipe.name !in states {
        Register(recipe.name, Some(recipe), recipe.outputPath, None);
      } else if states[recipe.name].artifactPath == "" && recipe.outputPath != "" {
        Recover(recipe);
      }
    }

    /** Forget one name: its entry, its record, and the path and cache rows that lead to it. */
    method Forget(gone: string)
      requires Valid()
      modifies this, registry
      ensures Valid() && registry.entries == old(registry.entries) - {gone} && states == old(states) - {gone}
      ensures View() == DropNames(old(View()), {gone})
    {
      hide ModelRegistry.Valid, ModelRegistry.Contents, ArtifactWatcher.States, DropNames;
      DropOne(View(), gone);
      registry.Remove(gone);
      ForgetRecord(gone);
      ForgetPaths(gone);
    }

    method ForgetRecord(gone: string)
      requires Valid()
      modifies this`states
      ensures Valid() && states == old(states) - {gone} && States() == old(States()) - {gone}
    {
      states := states - {gone};
      assert States() == old(States()) - {gone};
    }

    method ForgetPaths(gone: string)
      modifies this`paths, this`cache
      ensures paths == map p | p in old(paths) && old(paths)[p] != gone :: old(paths)[p]
      ensures cache == map p | p in old(cache) && !(p in old(paths) && old(paths)[p] == gone) :: old(cache)[p]
    {
      cache := map p | p in cache && !(p in paths && paths[p] == gone) :: cache[p];
      paths := map p | p in paths && paths[p] != gone :: paths[p];
    }

    /** Rescan the recipes directory: every file in turn, then the names nobody found. */
    method ScanRecipesDir(listing: Option<seq<Probe>>)
      requires Valid()
      modifies this, states.Values, registry, registry.entries.Values
      ensures Valid() && fresh(registry.entries.Values - old(registry.entries.Values))
      ensures fresh(states.Values - old(states.Values))
      ensures View() == Scan(old(View()), listing)
    {
      hide ScanFile, DropNames, Evict, Annotate, ModelRegistry.Valid, ModelRegistry.Contents, ArtifactWatcher.States;
      SameNames();
      if listing.None? {
        AnnotateAll(registry, states.Keys, Some(ScanFailed));
        return;
      }
      var files, current, found := listing.value, states.Keys, {};
      for i := 0 to |files|
        invariant Valid() && fresh(registry.entries.Values - old(registry.entries.Values))
        invariant fresh(states.Values - old(states.Values))
        invariant (View(), found) == ScanPrefix(old(View()), files, i)
      {
        var name := ScanYamlFile(current, files[i]);
        found := found + {name};
      }
      FewerValues(states, current - found);
      FewerValues(registry.entries, current - found);
      EvictUnfound(current - found, set i | 0 <= i < |files| :: files[i].path);
    }

    method EvictUnfound(gone: set<string>, present: set<string>)
      requires Valid()
      modifies this, registry
      ensures Valid() && registry.entries == old(registry.entries) - gone && states == old(states) - gone
      ensures View() == Evict(old(View()), gone, present)
    {
      hide DropNames, Evict, ModelRegistry.Valid, ModelRegistry.Contents, ArtifactWatcher.States;
      var todo := gone;
      ghost var w, done := View(), {};
      DropNothing(w);
      while todo != {}
        invariant Valid() && done + todo == gone
        invariant registry.entries == old(registry.entries) - done && states == old(states) - done
        invariant View() == DropNames(w, done)
        decreases |todo|
      {
        var n :| n in todo;
        DropOneMore(w, done, n);
        Forget(n);
        todo, done := todo - {n}, done + {n};
      }
      assert done == gone;
      EvictInTwoSteps(w, gone, present);
      ForgetAbsent(present);
    }

    method ForgetAbsent(present: set<string>)
      modifies this`paths, this`cache
      ensures paths == map p | p in old(paths) && p in present :: old(paths)[p]
      ensures cache == map p | p in old(cache) && p in present :: old(cache)[p]
    {
      paths := map p | p in paths && p in present :: paths[p];
      cache := map p | p in cache && p in present :: cache[p];
    }

    // ---------------------------------------------------------------- ticks

    method HandleAnswer(a: Answer) returns (outcome: Outcome)
      requires Valid()
      modifies states.Values, registry, registry.entries.Values
      ensures Valid() && fresh(registry.entries.Values - old(registry.entries.Values))
      ensures View() == Apply(cfg, old(View()), AsEvent(a)) && outcome == AnswerOutcome(cfg, old(View()), a)
    {
      hide ProcessStat, WithError, ModelRegistry.Valid, ModelRegistry.Contents, ArtifactWatcher.States;
      match a {
        case Answered(name, o) =>
          outcome := ProcessStatResult(name, o);
        case Hung(name) =>
          SameNames();
          outcome := Normal;
          // stat calls are only ever started for names in `states`
          if name in states {
            var _ := MarkError(name, StatTimeout);
          }
      }
    }

    /** Handle the answers in order of arrival, up to the first whose handling raises. */
    method PollArtifacts(answers: seq<Answer>) returns (outcome: Outcome)
      requires Valid()
      modifies states.Values, registry, registry.entries.Values
      ensures Valid() && fresh(registry.entries.Values - old(registry.entries.Values))
      ensures View() == Run(Applying(cfg), old(View()), PollEvents(cfg, old(View()), answers).0)
      ensures outcome == PollEvents(cfg, old(View()), answers).1
    {
      hide Apply, Run, AsEvent, AnswerOutcome, PollEvents, PollSoFar;
      hide ModelRegistry.Valid, ModelRegistry.Contents, ArtifactWatcher.States;
      ghost var w, done: seq<Event> := View(), [];
      PollStarts(cfg, w, answers);
      var i := 0;
      while i < |answers|
        invariant 0 <= i <= |answers|
        invariant Valid() && fresh(registry.entries.Values - old(registry.entries.Values))
        invariant PollSoFar(cfg, w, View(), answers, i, done)
      {
        PollContinues(cfg, w, View(), answers, i, done);
        done := done + [AsEvent(answers[i])];
        outcome := HandleAnswer(answers[i]);
        if outcome != Normal {
          return;
        }
        i := i + 1;
      }
      PollEnds(cfg, w, View(), answers, done);
      return Normal;
    }

    /** One iteration of the thread's loop; `false` when the thread dies of it. */
    method Tick(input: TickInput) returns (alive: bool)
      requires Valid()
      modifies this, states.Values, registry, registry.entries.Values
      ensures Valid() && fresh(registry.entries.Values - old(registry.entries.Values))
      ensures fresh(states.Values - old(states.Values))
      ensures View() == Run(Applying(cfg), old(View()), TickEvents(cfg, old(View()), input).0)
      ensures alive == TickEvents(cfg, old(View()), input).1
    {
      hide Scan, PollEvents, Apply, ModelRegistry.Valid, ModelRegistry.Contents, ArtifactWatcher.States;
      ghost var before := View();
      ghost var scanned := [Scanned(input.listing)];
      OneScan(cfg, before, input.listing);
      ScanRecipesDir(input.listing);
      ghost var polled := PollEvents(cfg, View(), input.answers).0;
      RunAppend(Applying(cfg), before, scanned, polled);
      var outcome := PollArtifacts(input.answers);
      ghost var w := View();
      if outcome == Dies {
        return false;
      }
      ghost var last := if outcome == Normal then TickOk else TickFailed;
      RunAppend(Applying(cfg), before, scanned + polled, [last]);
      RunOne(Applying(cfg), w, last);
      EndTick(outcome == Normal);
      return true;
    }

    /** Count the tick as a success or as a failure. */
    method EndTick(succeeded: bool)
      requires Valid()
      modifies this`errors, registry.entries.Values
      ensures Valid() && View() == Apply(cfg, old(View()), if succeeded then TickOk else TickFailed)
    {
      hide Annotate, Sentinels, ModelRegistry.Valid, ModelRegistry.Contents, ArtifactWatcher.States;
      if succeeded {
        if errors >= cfg.threshold {
          ClearWatcherUnhealthyErrors();
        }
        errors := 0;
      } else {
        errors := errors + 1;
        if errors >= cfg.threshold {
          MarkAllUnhealthy();
        }
      }
    }

    /** The thread's main loop, until it is stopped or dies: a run of the model, so whatever
        runs of the model keep, the thread keeps. */
    method RunLoop(ticks: seq<TickInput>) returns (alive: bool)
      requires Valid()
      modifies this, states.Values, registry, registry.entries.Values
      ensures Valid()
      ensures View() == Run(Applying(cfg), old(View()), LoopEvents(cfg, old(View()), ticks))
      ensures Inv(cfg, old(View())) ==> Inv(cfg, View())
    {
      hide TickEvents, Apply, Inv, ModelRegistry.Valid, ModelRegistry.Contents, ArtifactWatcher.States;
      ghost var w, done: seq<Event> := View(), [];
      ghost var all := LoopEvents(cfg, w, ticks);
      var i := 0;
      alive := true;
      assert ticks[0..] == ticks && [] + all == all;
      while i < |ticks| && alive
        invariant 0 <= i <= |ticks|
        invariant Valid() && fresh(registry.entries.Values - old(registry.entries.Values))
        invariant fresh(states.Values - old(states.Values))
        invariant View() == Run(Applying(cfg), w, done)
        invariant if alive then all == done + LoopEvents(cfg, View(), ticks[i..]) else all == done
      {
        ghost var (events, _) := TickEvents(cfg, View(), ticks[i]);
        RunAppend(Applying(cfg), w, done, events);
        alive := Tick(ticks[i]);
        assert ticks[i..][1..] == ticks[i + 1..];
        assert done + (events + LoopEvents(cfg, View(), ticks[i + 1..])) == done + events + LoopEvents(cfg, View(), ticks[i + 1..]);
        done := done + events;
        i := i + 1;
      }
      assert done + [] == done;
      if Inv(cfg, w) {
        RunKeepsInv(cfg, w, all);
      }
    }
  }
}
