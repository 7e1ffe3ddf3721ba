/** What each operation of the hot-swap watcher does to the watcher's own tables and to the
    registry, as functions on values. File-system and deserialization outcomes are inputs. */
module WatcherModel {
  import opened Wrappers
  import opened ByteStrings
  import opened Container
  import opened Signing
  import opened ArtifactIO
  import opened Registry
  import opened Naming

  type Mtime = int

  /** The part of a parsed recipe that the watcher uses. */
  datatype Recipe = Recipe(name: string, outputPath: string)

  /** `None`, the sentinel for a failed first stat, or the marker of an earlier stat. */
  datatype LastMarker = Unset | StatErrorSentinel | Seen(m: Marker)

  datatype SidecarState = SidecarState(
    contents: Option<string>, unsupported: bool, unsupportedAt: Option<Mtime>, ioErrors: nat)

  /** `recipe` is `None` for the stub of a YAML file that never parsed. */
  datatype WatchState = WatchState(
    recipe: Option<Recipe>, path: string, lastMarker: LastMarker, lastSha: Option<Digest>, sidecar: SidecarState)

  datatype WState = WState(
    states: map<string, WatchState>, registry: View, paths: map<string, string>,
    cache: map<string, (Mtime, Recipe)>, errors: nat)

  /** `ring` is `None` when unsigned artifacts are allowed. */
  datatype Config = Config(crypto: Crypto, ring: Option<KeyRing>, maxPayload: nat, threshold: nat)

  const FRESH_SIDECAR := SidecarState(None, false, None, 0)

  function NewState(recipe: Option<Recipe>, path: string): WatchState {
    WatchState(recipe, path, Unset, None, FRESH_SIDECAR)
  }

  function Stub(error: Option<LoadError>): Entry {
    Entry(false, None, error, None, None)
  }

  // ------------------------------------------------------------------ loading

  /** What happens after the MAC check: header JSON, version preflight, unpickling, metadata. */
  datatype Late = Builds | Refused | Exhausted

  datatype Build = Built(e: Entry) | BuildError | Fatal

  /** The bytes parse and, when a ring is configured, carry a valid MAC. */
  predicate Authentic(cfg: Config, data: bytes)
  {
    match cfg.ring
    case Some(ring) => Verified(cfg.crypto, ring, data, cfg.maxPayload).Success?
    case None => Parse(data, cfg.maxPayload).Success?
  }

  /** A stub without a recipe never builds: its metadata setting cannot be looked up. */
  function BuildEntry(cfg: Config, recipe: Option<Recipe>, data: bytes, late: Late): Build
  {
    if !Authentic(cfg, data) then BuildError
    else match late
      case Exhausted => Fatal
      case Refused => BuildError
      case Builds => if recipe.None? then BuildError else Built(Entry(true, Some(data), None, None, None))
  }

  datatype Read = ReadFails | ReadOk(data: bytes)

  /** Does a step end normally, raise into the poll loop, or end the thread? */
  datatype Outcome = Normal | Raises | Dies

  function Load(cfg: Config, w: WState, name: string, marker: Marker, read: Read, late: Late): (WState, Outcome)
    requires name in w.states
  {
    var st := w.states[name];
    match read
    case ReadFails => (w.(registry := WithError(w.registry, name, Some(ReadFailed))), Normal)
    case ReadOk(data) =>
      var sha := cfg.crypto.sha256(data);
      if st.lastSha == Some(sha) then
        (w.(states := w.states[name := st.(lastMarker := Seen(marker))]), Normal)
      else match BuildEntry(cfg, st.recipe, data, late)
        case BuildError => (w.(registry := WithError(w.registry, name, Some(BuildFailed))), Normal)
        case Fatal => (w, Dies)
        case Built(e) =>
          (w.(registry := w.registry[name := e.(marker := Some(marker), sha := Some(sha))],
              states := w.states[name := st.(lastMarker := Seen(marker), lastSha := Some(sha))]), Normal)
  }

  // ------------------------------------------------------------------ polling

  /** The `.sha256` file beside the artifact, as `exists` and `read_text` report it. `exists` itself
      raises on errors other than those of a missing file (`Unprobeable`), for example when the
      sidecar's name is too long though the artifact's is not. */
  datatype SidecarFile = Absent | Contents(text: string) | Vanished | IoError | Undecodable | Unprobeable

  /** Consulting the file raises an exception that nothing catches. */
  predicate RaisesWhenChecked(file: SidecarFile) {
    file.Undecodable? || file.Unprobeable?
  }

  datatype SidecarVerdict = Unchanged | Changed | Unreadable

  function CheckSidecar(s: SidecarState, yamlMtime: Option<Mtime>, file: SidecarFile): (SidecarState, SidecarVerdict)
  {
    if s.unsupported && (yamlMtime.None? || s.unsupportedAt.None? || yamlMtime == s.unsupportedAt) then (s, Unchanged)
    else
      var t := if s.unsupported then s.(unsupported := false, unsupportedAt := None) else s;
      match file
      case Absent => (t.(ioErrors := 0), Unchanged)
      case Contents(text) =>
        if t.contents == Some(text) then (t.(ioErrors := 0), Unchanged)
        else (t.(ioErrors := 0, contents := Some(text)), Changed)
      case Vanished => (t.(ioErrors := 0, contents := None), Unchanged)
      case IoError =>
        if t.ioErrors + 1 >= 3 then (t.(unsupported := true, unsupportedAt := yamlMtime, ioErrors := 0), Unchanged)
        else (t.(ioErrors := t.ioErrors + 1), Changed)
      case Undecodable => (t, Unreadable)
      case Unprobeable => (t, Unreadable)
  }

  datatype Stat = NotThere | StatRaised(errorClass: string) | Marked(m: Marker)

  /** Everything the outside world answers while one stat result is processed. */
  datatype Observation = Observation(
    stat: Stat, yamlMtime: Option<Mtime>, sidecar: SidecarFile, read: Read, late: Late)

  function ProcessStat(cfg: Config, w: WState, name: string, o: Observation): (WState, Outcome)
  {
    if name !in w.states then (w, Normal) else
    match o.stat
    case NotThere => (w.(registry := WithError(w.registry, name, Some(ArtifactMissing))), Normal)
    case StatRaised(c) => (w.(registry := WithError(w.registry, name, Some(StatFailed(c)))), Normal)
    case Marked(m) =>
      if w.states[name].lastMarker != Seen(m) then Load(cfg, w, name, m, o.read, o.late)
      else
        var (sidecar, verdict) := CheckSidecar(w.states[name].sidecar, o.yamlMtime, o.sidecar);
        var w' := w.(states := w.states[name := w.states[name].(sidecar := sidecar)]);
        match verdict
        case Unchanged => (w', Normal)
        case Unreadable => (w', Raises)
        case Changed => Load(cfg, w', name, m, o.read, o.late)
  }

  // ------------------------------------------------------------------ scanning

  /** One YAML file as a scan meets it. `parsed` is what `load_recipe` gives if it is called. */
  datatype Probe = Probe(path: string, stem: string, mtime: Option<Mtime>, parsed: Option<Recipe>)

  predicate CacheHit(cache: map<string, (Mtime, Recipe)>, p: Probe) {
    p.path in cache && p.mtime == Some(cache[p.path].0)
  }

  function RecipeOf(cache: map<string, (Mtime, Recipe)>, p: Probe): Option<Recipe> {
    if CacheHit(cache, p) then Some(cache[p.path].1) else p.parsed
  }

  function CacheAfter(cache: map<string, (Mtime, Recipe)>, p: Probe): map<string, (Mtime, Recipe)> {
    if !CacheHit(cache, p) && p.parsed.Some? && p.mtime.Some? then cache[p.path := (p.mtime.value, p.parsed.value)]
    else cache
  }

  /** The name under which a file that fails to parse is already known. */
  function KnownName(w: WState, current: set<string>, p: Probe): Option<string> {
    if p.path in w.paths then Some(w.paths[p.path])
    else if p.stem in current then Some(p.stem) else None
  }

  /** A file that fails to parse: keep the entry it is known under, or add a stub. */
  function ScanBroken(w: WState, current: set<string>, p: Probe): (WState, string)
  {
    var known := KnownName(w, current, p);
    if known.Some? && known.value in current then
      (w.(registry := WithError(w.registry, known.value, Some(YamlFailed))), known.value)
    else
      var stub := FirstFree(p.stem, w.states.Keys + w.registry.Keys, 0);
      (w.(registry := w.registry[stub := Stub(Some(YamlFailed))],
          states := w.states[stub := NewState(None, "")],
          paths := w.paths[p.path := stub]), stub)
  }

  /** A file with a recipe: discover it, or give a former stub its artifact path. */
  function ScanParsed(w: WState, p: Probe, recipe: Recipe): WState
  {
    var w' := w.(paths := w.paths[p.path := recipe.name], cache := CacheAfter(w.cache, p));
    if recipe.name !in w.states then
      w'.(states := w.states[recipe.name := NewState(Some(recipe), recipe.outputPath)],
          registry := w.registry[recipe.name := Stub(None)])
    else if w.states[recipe.name].path == "" && recipe.outputPath != "" then
      w'.(states := w.states[recipe.name := w.states[recipe.name].(
            path := recipe.outputPath, recipe := Some(recipe), lastMarker := Unset)])
    else w'
  }

  /** The tables after one file, and the name it keeps alive. */
  function ScanFile(w: WState, current: set<string>, p: Probe): (WState, string)
  {
    match RecipeOf(w.cache, p)
    case None => ScanBroken(w, current, p)
    case Some(recipe) => (ScanParsed(w, p, recipe), recipe.name)
  }

  /** The tables and the found names after the first `n` files. */
  function ScanPrefix(w: WState, files: seq<Probe>, n: nat): (WState, set<string>)
    requires n <= |files|
  {
    if n == 0 then (w, {}) else
    var (w', found) := ScanPrefix(w, files, n - 1);
    var (w'', name) := ScanFile(w', w.states.Keys, files[n - 1]);
    (w'', found + {name})
  }

  function Found(w: WState, files: seq<Probe>): set<string> {
    ScanPrefix(w, files, |files|).1
  }

  function Present(files: seq<Probe>): set<string> {
    set i | 0 <= i < |files| :: files[i].path
  }

  /** Drop what was known before the scan and not found by it, then stale path keys. */
  function Evict(w: WState, gone: set<string>, present: set<string>): WState
  {
    w.(registry := w.registry - gone,
       states := w.states - gone,
       paths := map p | p in w.paths && w.paths[p] !in gone && p in present :: w.paths[p],
       cache := map p | p in w.cache && p in present && !(p in w.paths && w.paths[p] in gone) :: w.cache[p])
  }

  function Annotate(v: View, names: set<string>, error: Option<LoadError>): View {
    map n | n in v :: if n in names then v[n].(error := error) else v[n]
  }

  /** `None` is a directory that could not be listed. */
  function Scan(w: WState, listing: Option<seq<Probe>>): WState
  {
    match listing
    case None => w.(registry := Annotate(w.registry, w.states.Keys, Some(ScanFailed)))
    case Some(files) =>
      var (w', found) := ScanPrefix(w, files, |files|);
      Evict(w', w.states.Keys - found, Present(files))
  }

  // ------------------------------------------------------------------ ends of ticks, runs

  /** The names whose error text is the sentinel and may be cleared. */
  function Sentinels(w: WState): set<string> {
    set n | n in w.states && n in w.registry && w.registry[n].error == Some(WatcherUnhealthy)
  }

  function TickSucceeded(cfg: Config, w: WState): WState {
    var w' := if w.errors >= cfg.threshold then w.(registry := Annotate(w.registry, Sentinels(w), None)) else w;
    w'.(errors := 0)
  }

  function TickRaised(cfg: Config, w: WState): WState {
    var w' := w.(errors := w.errors + 1);
    if w'.errors >= cfg.threshold then w'.(registry := Annotate(w'.registry, w'.states.Keys, Some(WatcherUnhealthy)))
    else w'
  }

  datatype Event =
    | Scanned(listing: Option<seq<Probe>>)
    | Observed(name: string, o: Observation)
    | TimedOut(name: string)
    | TickOk | TickFailed

  /** One step of the watcher thread. */
  function Apply(cfg: Config, w: WState, e: Event): WState
  {
    match e
    case Scanned(listing) => Scan(w, listing)
    case Observed(name, o) => ProcessStat(cfg, w, name, o).0
    case TimedOut(name) => if name in w.states then w.(registry := WithError(w.registry, name, Some(StatTimeout))) else w
    case TickOk => TickSucceeded(cfg, w)
    case TickFailed => TickRaised(cfg, w)
  }

  function Applying(cfg: Config): (WState, Event) -> WState {
    (w, e) => Apply(cfg, w, e)
  }
}
