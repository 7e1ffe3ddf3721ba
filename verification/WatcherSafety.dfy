/** What every step of the watcher keeps: served models are authentic and match the watcher's own
    record, watched names are registered, the sentinel is honest. */
module WatcherSafety {
  import opened Wrappers
  import opened Runs
  import opened ByteStrings
  import opened Signing
  import opened ArtifactIO
  import opened Registry
  import opened Naming
  import opened WatcherModel

  // ------------------------------------------------------------------ the invariant

  /** A loaded entry was built from bytes that passed every check, and says so. */
  ghost predicate Genuine(cfg: Config, e: Entry)
  {
    e.loaded && e.model.Some? && Authentic(cfg, e.model.value) && e.sha == Some(cfg.crypto.sha256(e.model.value))
  }

  /** The registry entry and the watcher's record of one name agree. */
  ghost predicate Agrees(cfg: Config, w: WState, n: string)
    requires n in w.states
  {
    && n in w.registry
    && w.registry[n].loaded == w.states[n].lastSha.Some?
    && w.registry[n].sha == w.states[n].lastSha
    && (w.states[n].lastMarker != Unset ==> w.states[n].lastSha.Some?)
  }

  /** What holds of one name, in the tables or not. */
  ghost predicate NameInv(cfg: Config, w: WState, n: string)
  {
    && (n in w.states ==> Agrees(cfg, w, n))
    && (n in w.registry ==>
          && (if w.registry[n].loaded then n in w.states && Genuine(cfg, w.registry[n])
              else w.registry[n].model.None? && w.registry[n].sha.None?)
          && (w.registry[n].error == Some(WatcherUnhealthy) ==> n in w.states && w.errors >= cfg.threshold))
  }

  ghost predicate Inv(cfg: Config, w: WState)
  {
    forall n :: NameInv(cfg, w, n)
  }

  lemma InvRow(cfg: Config, w: WState, n: string)
    requires Inv(cfg, w)
    ensures NameInv(cfg, w, n)
  {
  }

  /** To re-establish the invariant, look only at the names whose rows changed. */
  lemma RowsUnchanged(cfg: Config, w: WState, w': WState, changed: set<string>)
    requires Inv(cfg, w) && w'.errors >= w.errors
    requires forall n :: n !in changed ==> (n in w.states <==> n in w'.states) && (n in w.registry <==> n in w'.registry)
    requires forall n :: n !in changed && n in w.states ==> w'.states[n] == w.states[n]
    requires forall n :: n !in changed && n in w.registry ==> w'.registry[n] == w.registry[n]
    requires forall n :: n in changed ==> NameInv(cfg, w', n)
    ensures Inv(cfg, w')
  {
    hide Genuine;
    forall n
      ensures NameInv(cfg, w', n)
    {
      assert NameInv(cfg, w, n);
    }
  }

  lemma WithErrorKeepsInv(cfg: Config, w: WState, name: string, error: LoadError)
    requires Inv(cfg, w) && error != WatcherUnhealthy
    ensures Inv(cfg, w.(registry := WithError(w.registry, name, Some(error))))
  {
    hide Authentic;
    assert NameInv(cfg, w, name);
    RowsUnchanged(cfg, w, w.(registry := WithError(w.registry, name, Some(error))), {name});
  }

  lemma BuiltIsGenuine(cfg: Config, recipe: Option<Recipe>, data: bytes, late: Late, marker: Marker)
    requires BuildEntry(cfg, recipe, data, late).Built?
    ensures
      var e := BuildEntry(cfg, recipe, data, late).e.(marker := Some(marker), sha := Some(cfg.crypto.sha256(data)));
      Genuine(cfg, e) && e.model == Some(data) && e.error.None? && e.marker == Some(marker)
  {
  }

  /** Loading keeps the row it works on in order. */
  lemma LoadKeepsRow(cfg: Config, w: WState, name: string, marker: Marker, read: Read, late: Late)
    requires NameInv(cfg, w, name) && name in w.states
    ensures NameInv(cfg, Load(cfg, w, name, marker, read, late).0, name)
  {
    hide BuildEntry, Genuine;
    if read.ReadOk? && BuildEntry(cfg, w.states[name].recipe, read.data, late).Built? {
      BuiltIsGenuine(cfg, w.states[name].recipe, read.data, late, marker);
    } else if w.registry[name].loaded {
      ErrorIsNoEvidence(cfg, w.registry[name], Some(BuildFailed));
      ErrorIsNoEvidence(cfg, w.registry[name], Some(ReadFailed));
    }
  }

  lemma LoadKeepsInv(cfg: Config, w: WState, name: string, marker: Marker, read: Read, late: Late)
    requires Inv(cfg, w) && name in w.states
    ensures Inv(cfg, Load(cfg, w, name, marker, read, late).0)
  {
    hide BuildEntry, NameInv;
    LoadKeepsRow(cfg, w, name, marker, read, late);
    RowsUnchanged(cfg, w, Load(cfg, w, name, marker, read, late).0, {name});
  }

  lemma SidecarKeepsInv(cfg: Config, w: WState, name: string, sidecar: SidecarState)
    requires Inv(cfg, w) && name in w.states
    ensures Inv(cfg, w.(states := w.states[name := w.states[name].(sidecar := sidecar)]))
  {
    hide Authentic;
    assert NameInv(cfg, w, name);
    RowsUnchanged(cfg, w, w.(states := w.states[name := w.states[name].(sidecar := sidecar)]), {name});
  }

  lemma ProcessKeepsInv(cfg: Config, w: WState, name: string, o: Observation)
    requires Inv(cfg, w)
    ensures Inv(cfg, ProcessStat(cfg, w, name, o).0)
  {
    hide Inv, Load, WithError, CheckSidecar;
    if name in w.states {
      match o.stat
      case NotThere =>
        WithErrorKeepsInv(cfg, w, name, ArtifactMissing);
      case StatRaised(c) =>
        WithErrorKeepsInv(cfg, w, name, StatFailed(c));
      case Marked(m) =>
        if w.states[name].lastMarker != Seen(m) {
          LoadKeepsInv(cfg, w, name, m, o.read, o.late);
        } else {
          var sidecar := CheckSidecar(w.states[name].sidecar, o.yamlMtime, o.sidecar).0;
          SidecarKeepsInv(cfg, w, name, sidecar);
          LoadKeepsInv(cfg, w.(states := w.states[name := w.states[name].(sidecar := sidecar)]), name, m, o.read, o.late);
        }
    }
  }

  lemma AnnotateKeepsInv(cfg: Config, w: WState, w': WState, names: set<string>, error: Option<LoadError>)
    requires Inv(cfg, w) && names <= w.states.Keys && w'.errors >= w.errors
    requires w'.states == w.states && w'.registry == Annotate(w.registry, names, error)
    requires error == Some(WatcherUnhealthy) ==> w'.errors >= cfg.threshold
    ensures Inv(cfg, w')
  {
    hide Authentic, Genuine;
    forall n
      ensures NameInv(cfg, w', n)
    {
      assert NameInv(cfg, w, n);
      if n in w.registry && Genuine(cfg, w.registry[n]) {
        ErrorIsNoEvidence(cfg, w.registry[n], w'.registry[n].error);
      }
    }
  }

  lemma ErrorIsNoEvidence(cfg: Config, e: Entry, error: Option<LoadError>)
    requires Genuine(cfg, e)
    ensures Genuine(cfg, e.(error := error))
  {
  }

  /** A new, never loaded row: a discovered recipe or the stub of a broken file. */
  lemma NewRowKeepsInv(cfg: Config, w: WState, w': WState, name: string, st: WatchState, error: Option<LoadError>)
    requires Inv(cfg, w) && name !in w.states && st.lastSha.None? && st.lastMarker == Unset
    requires error != Some(WatcherUnhealthy) && w'.errors == w.errors
    requires w'.states == w.states[name := st] && w'.registry == w.registry[name := Stub(error)]
    ensures Inv(cfg, w')
  {
    hide Authentic;
    RowsUnchanged(cfg, w, w', {name});
  }

  lemma ScanBrokenKeepsInv(cfg: Config, w: WState, current: set<string>, p: Probe)
    requires Inv(cfg, w)
    ensures Inv(cfg, ScanBroken(w, current, p).0)
  {
    hide Inv, FirstFree, WithError;
    var known := KnownName(w, current, p);
    if known.Some? && known.value in current {
      WithErrorKeepsInv(cfg, w, known.value, YamlFailed);
    } else {
      var stub := FirstFree(p.stem, w.states.Keys + w.registry.Keys, 0);
      NewRowKeepsInv(cfg, w, ScanBroken(w, current, p).0, stub, NewState(None, ""), Some(YamlFailed));
    }
  }

  lemma ScanParsedKeepsInv(cfg: Config, w: WState, p: Probe, recipe: Recipe)
    requires Inv(cfg, w)
    ensures Inv(cfg, ScanParsed(w, p, recipe))
  {
    hide Authentic, CacheAfter;
    var w' := ScanParsed(w, p, recipe);
    if recipe.name !in w.states {
      NewRowKeepsInv(cfg, w, w', recipe.name, NewState(Some(recipe), recipe.outputPath), None);
    } else {
      assert NameInv(cfg, w, recipe.name);
      RowsUnchanged(cfg, w, w', {recipe.name});
    }
  }

  lemma EvictKeepsInv(cfg: Config, w: WState, gone: set<string>, present: set<string>)
    requires Inv(cfg, w)
    ensures Inv(cfg, Evict(w, gone, present))
  {
    hide Authentic;
    RowsUnchanged(cfg, w, Evict(w, gone, present), gone);
  }

  lemma {:induction false} ScanPrefixKeepsInv(cfg: Config, w: WState, files: seq<Probe>, n: nat)
    requires Inv(cfg, w) && n <= |files|
    ensures Inv(cfg, ScanPrefix(w, files, n).0)
  {
    hide Inv, ScanBroken, ScanParsed, RecipeOf;
    if n > 0 {
      ScanPrefixKeepsInv(cfg, w, files, n - 1);
      var w', p := ScanPrefix(w, files, n - 1).0, files[n - 1];
      match RecipeOf(w'.cache, p)
      case None => ScanBrokenKeepsInv(cfg, w', w.states.Keys, p);
      case Some(recipe) => ScanParsedKeepsInv(cfg, w', p, recipe);
    }
  }

  /** Serve only what verified: every event keeps the invariant. */
  lemma StepKeepsInv(cfg: Config, w: WState, e: Event)
    requires Inv(cfg, w)
    ensures Inv(cfg, Apply(cfg, w, e))
  {
    hide Inv, ScanFile, Evict, ProcessStat, WithError, Annotate, Sentinels;
    match e
    case Scanned(listing) =>
      if listing.None? {
        AnnotateKeepsInv(cfg, w, Scan(w, listing), w.states.Keys, Some(ScanFailed));
      } else {
        var files := listing.value;
        ScanPrefixKeepsInv(cfg, w, files, |files|);
        var (w', found) := ScanPrefix(w, files, |files|);
        EvictKeepsInv(cfg, w', w.states.Keys - found, Present(files));
      }
    case Observed(name, o) =>
      ProcessKeepsInv(cfg, w, name, o);
    case TimedOut(name) =>
      WithErrorKeepsInv(cfg, w, name, StatTimeout);
    case TickOk =>
      TickOkClears(cfg, w);
    case TickFailed =>
      var w' := w.(errors := w.errors + 1);
      if w'.errors >= cfg.threshold {
        AnnotateKeepsInv(cfg, w, TickRaised(cfg, w), w.states.Keys, Some(WatcherUnhealthy));
      } else {
        RowsUnchanged(cfg, w, w', {});
      }
  }

  lemma RunKeepsInv(cfg: Config, w: WState, events: seq<Event>)
    requires Inv(cfg, w)
    ensures Inv(cfg, Run(Applying(cfg), w, events))
  {
    hide Inv, Apply;
    forall v, e | Inv(cfg, v)
      ensures Inv(cfg, Applying(cfg)(v, e))
    {
      StepKeepsInv(cfg, v, e);
    }
    RunKeeps(Applying(cfg), v => Inv(cfg, v), w, events);
  }

  // ------------------------------------------------------------------ the sentinel

  /** A tick that succeeds leaves no sentinel anywhere, touches no other error text, and
      changes nothing else about any entry. */
  lemma TickOkClears(cfg: Config, w: WState)
    requires Inv(cfg, w)
    ensures
      var w' := Apply(cfg, w, TickOk);
      && Inv(cfg, w') && w'.registry.Keys == w.registry.Keys
      && forall n :: n in w.registry ==>
        && w'.registry[n].error != Some(WatcherUnhealthy)
        && (w.registry[n].error != Some(WatcherUnhealthy) ==> w'.registry[n] == w.registry[n])
        && w'.registry[n] == w.registry[n].(error := w'.registry[n].error)
  {
    hide Genuine;
    var w' := Apply(cfg, w, TickOk);
    forall n
      ensures NameInv(cfg, w', n)
      ensures n in w.registry ==>
        && w'.registry[n].error != Some(WatcherUnhealthy)
        && (w.registry[n].error != Some(WatcherUnhealthy) ==> w'.registry[n] == w.registry[n])
        && w'.registry[n] == w.registry[n].(error := w'.registry[n].error)
    {
      assert NameInv(cfg, w, n);
      if n in w.registry && Genuine(cfg, w.registry[n]) {
        ErrorIsNoEvidence(cfg, w.registry[n], w'.registry[n].error);
      }
    }
  }
}
