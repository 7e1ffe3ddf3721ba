/** Stat first, read later, remember the earlier marker: when a remembered marker proves that
    the model being served is the file's current content. */
module Freshness {
  import opened Wrappers
  import opened ByteStrings
  import opened ArtifactIO
  import opened Registry
  import opened WatcherModel
  import opened WatcherSafety
  import opened WatcherScan
  import opened Availability

  /** What stands at an artifact path at one instant. */
  datatype Version = Version(marker: Marker, raw: bytes)

  /** The whole outside history: the file at each path at each time, and the immutable,
      content-addressed object behind each pointer target. */
  datatype World = World(file: (string, nat) -> Option<Version>, target: bytes -> bytes)

  /** The bytes a read gets, through the pointer if there is one. */
  function Content(world: World, v: Version): bytes {
    match PointerTarget(v.raw)
    case None => v.raw
    case Some(name) => world.target(name)
  }

  predicate There(world: World, path: string, t: nat) {
    world.file(path, t).Some?
  }

  function DataAt(world: World, path: string, t: nat): bytes
    requires There(world, path, t)
  {
    Content(world, world.file(path, t).value)
  }

  function MarkerAt(world: World, path: string, t: nat): Marker
    requires There(world, path, t)
  {
    world.file(path, t).value.marker
  }

  // ------------------------------------------------------------------ runs in time

  /** An event with the instants at which the stat and the read took place. */
  datatype Timed = Timed(e: Event, statAt: nat, readAt: nat)

  /** The event stats before it reads and sees what is there. Its read comes after `now`, the
      instant of the previous read; its stat may come at any time from `since` on, because a poll
      starts all its stats at once and then loads one artifact after another. */
  ghost predicate Consistent(world: World, w: WState, since: nat, now: nat, t: Timed)
  {
    && since <= t.statAt <= t.readAt && now <= t.readAt
    && GoodListing(t.e)
    && (t.e.Observed? && t.e.name in w.states ==>
          var path := w.states[t.e.name].path;
          && (t.e.o.stat.Marked? ==> There(world, path, t.statAt) && MarkerAt(world, path, t.statAt) == t.e.o.stat.m)
          && (t.e.o.stat.NotThere? ==> !There(world, path, t.statAt))
          && (t.e.o.read.ReadOk? ==> There(world, path, t.readAt) && DataAt(world, path, t.readAt) == t.e.o.read.data))
  }

  ghost predicate Plausible(cfg: Config, world: World, w: WState, since: nat, now: nat, run: seq<Timed>)
    decreases |run|
  {
    run != [] ==>
      && Consistent(world, w, since, now, run[0])
      && Plausible(cfg, world, Apply(cfg, w, run[0].e), since, run[0].readAt, run[1..])
  }

  function After(cfg: Config, w: WState, run: seq<Timed>): WState
    decreases |run|
  {
    if run == [] then w else After(cfg, Apply(cfg, w, run[0].e), run[1..])
  }

  function EndOf(now: nat, run: seq<Timed>): nat {
    if run == [] then now else run[|run| - 1].readAt
  }

  // ------------------------------------------------------------------ what the rows record

  /** At some instant up to `now` the file held authentic bytes with this digest. */
  ghost predicate WasThere(cfg: Config, world: World, path: string, sha: Digest, now: nat) {
    exists j: nat :: j <= now && ReadAt(cfg, world, path, sha, j)
  }

  ghost predicate ReadAt(cfg: Config, world: World, path: string, sha: Digest, j: nat) {
    There(world, path, j) && cfg.crypto.sha256(DataAt(world, path, j)) == sha && Authentic(cfg, DataAt(world, path, j))
  }

  /** ... and the marker had been seen at that instant or before. */
  ghost predicate SeenThenRead(cfg: Config, world: World, path: string, m: Marker, sha: Digest, since: nat, now: nat) {
    exists i, j :: since <= i <= j <= now && StattedAt(world, path, m, i) && ReadAt(cfg, world, path, sha, j)
  }

  /** Whenever, from `since` on, the file shows the marker, it holds content with the digest. */
  ghost predicate StandsFor(cfg: Config, world: World, path: string, m: Marker, sha: Digest, since: nat) {
    forall k :: since <= k && StattedAt(world, path, m, k) ==> cfg.crypto.sha256(DataAt(world, path, k)) == sha
  }

  ghost predicate StattedAt(world: World, path: string, m: Marker, i: nat) {
    There(world, path, i) && MarkerAt(world, path, i) == m
  }

  ghost predicate RowRecorded(cfg: Config, world: World, st: WatchState, path: string, since: nat, now: nat)
  {
    && (st.path == "" ==> st.lastSha.None?)
    && (st.path == path && st.lastSha.Some? ==> WasThere(cfg, world, path, st.lastSha.value, now))
    && (st.path == path && st.lastMarker.Seen? && st.lastSha.Some? ==>
          || SeenThenRead(cfg, world, path, st.lastMarker.m, st.lastSha.value, since, now)
          || StandsFor(cfg, world, path, st.lastMarker.m, st.lastSha.value, since))
  }

  ghost predicate Recorded(cfg: Config, world: World, w: WState, path: string, since: nat, now: nat) {
    forall n :: n in w.states ==> RowRecorded(cfg, world, w.states[n], path, since, now)
  }

  /** What stands at the empty path, which a stub is polled at, is no artifact. */
  ghost predicate EmptyPathInert(cfg: Config, world: World) {
    forall s :: There(world, "", s) ==> !Authentic(cfg, DataAt(world, "", s))
  }

  /** No two contents the file ever has share a digest. */
  ghost predicate CollisionFree(cfg: Config, world: World, path: string) {
    forall s, t :: There(world, path, s) && There(world, path, t)
                   && cfg.crypto.sha256(DataAt(world, path, s)) == cfg.crypto.sha256(DataAt(world, path, t))
                   ==> DataAt(world, path, s) == DataAt(world, path, t)
  }

  lemma RowStaysRecorded(cfg: Config, world: World, st: WatchState, path: string, since: nat, now: nat, later: nat)
    requires RowRecorded(cfg, world, st, path, since, now) && now <= later
    ensures RowRecorded(cfg, world, st, path, since, later)
  {
    hide StattedAt, ReadAt, StandsFor;
  }

  lemma KeptRowStaysRecorded(
    cfg: Config, world: World, st: WatchState, st': WatchState, path: string, since: nat, now: nat, later: nat)
    requires RowRecorded(cfg, world, st, path, since, now) && now <= later && RowKept(st, st')
    ensures RowRecorded(cfg, world, st', path, since, later)
  {
    hide StattedAt, ReadAt, StandsFor;
    RowStaysRecorded(cfg, world, st, path, since, now, later);
  }

  /** Reading bytes whose digest is already on record, or bytes that were just built, leaves a
      row that records both instants. */
  lemma LoadedRowRecorded(
    cfg: Config, world: World, w: WState, name: string, o: Observation, path: string, since: nat, now: nat, t: Timed)
    requires path != "" && CollisionFree(cfg, world, path) && since <= now
    requires name in w.states && RowRecorded(cfg, world, w.states[name], path, since, now)
    requires t.e == Observed(name, o) && Consistent(world, w, since, now, t) && o.stat.Marked?
    requires EmptyPathInert(cfg, world)
    ensures RowRecorded(cfg, world, Load(cfg, w, name, o.stat.m, o.read, o.late).0.states[name], path, since, t.readAt)
  {
    hide Authentic, Content, WithError;
    var st := w.states[name];
    var st' := Load(cfg, w, name, o.stat.m, o.read, o.late).0.states[name];
    RowStaysRecorded(cfg, world, st, path, since, now, t.readAt);
    if st' != st && st.path == path {
      assert StattedAt(world, path, o.stat.m, t.statAt);
      var sha := cfg.crypto.sha256(o.read.data);
      if st.lastSha == Some(sha) {
        var j: nat :| j <= now && ReadAt(cfg, world, path, sha, j);
        assert DataAt(world, path, j) == DataAt(world, path, t.readAt);
      }
      assert ReadAt(cfg, world, path, sha, t.readAt);
    }
  }

  lemma ObservedKeepsRecord(cfg: Config, world: World, w: WState, path: string, since: nat, now: nat, t: Timed)
    requires path != "" && CollisionFree(cfg, world, path) && since <= now
    requires EmptyPathInert(cfg, world)
    requires Recorded(cfg, world, w, path, since, now) && Consistent(world, w, since, now, t) && t.e.Observed?
    ensures Recorded(cfg, world, Apply(cfg, w, t.e), path, since, t.readAt)
  {
    hide CollisionFree, RowRecorded, Load, CheckSidecar, WithError;
    var name, o := t.e.name, t.e.o;
    var w' := Apply(cfg, w, t.e);
    forall n | n in w.states
      ensures RowRecorded(cfg, world, w.states[n], path, since, t.readAt)
    {
      RowStaysRecorded(cfg, world, w.states[n], path, since, now, t.readAt);
    }
    if name in w.states && o.stat.Marked? {
      LoadTouchesOneRow(cfg, w, name, o.stat.m, o.read, o.late);
      if w.states[name].lastMarker != Seen(o.stat.m) {
        LoadedRowRecorded(cfg, world, w, name, o, path, since, now, t);
      } else {
        var sidecar := CheckSidecar(w.states[name].sidecar, o.yamlMtime, o.sidecar).0;
        var mid := w.(states := w.states[name := w.states[name].(sidecar := sidecar)]);
        SidecarIsNoRecord(cfg, world, w.states[name], sidecar, path, since, now);
        LoadTouchesOneRow(cfg, mid, name, o.stat.m, o.read, o.late);
        LoadedRowRecorded(cfg, world, mid, name, o, path, since, now, t);
        RowStaysRecorded(cfg, world, mid.states[name], path, since, now, t.readAt);
      }
    }
  }

  lemma SidecarIsNoRecord(
    cfg: Config, world: World, st: WatchState, sidecar: SidecarState, path: string, since: nat, now: nat)
    requires RowRecorded(cfg, world, st, path, since, now)
    ensures RowRecorded(cfg, world, st.(sidecar := sidecar), path, since, now)
  {
  }

  lemma LoadTouchesOneRow(cfg: Config, w: WState, name: string, m: Marker, read: Read, late: Late)
    requires name in w.states
    ensures
      var w' := Load(cfg, w, name, m, read, late).0;
      w'.states.Keys == w.states.Keys && forall n :: n in w.states && n != name ==> w'.states[n] == w.states[n]
  {
    hide BuildEntry, WithError;
  }

  /** Every event, at whatever instants it stats and reads, keeps the record truthful. */
  lemma StepKeepsRecord(cfg: Config, world: World, w: WState, path: string, since: nat, now: nat, t: Timed)
    requires path != "" && CollisionFree(cfg, world, path) && since <= now
    requires EmptyPathInert(cfg, world)
    requires Recorded(cfg, world, w, path, since, now) && Consistent(world, w, since, now, t)
    ensures Recorded(cfg, world, Apply(cfg, w, t.e), path, since, t.readAt)
  {
    if t.e.Observed? {
      ObservedKeepsRecord(cfg, world, w, path, since, now, t);
    } else {
      hide CollisionFree, RowRecorded, ScanPrefix, Annotate, Sentinels;
      if t.e.Scanned? && t.e.listing.Some? {
        ScanKeepsStates(w, t.e.listing.value, |t.e.listing.value|);
      }
      var w' := Apply(cfg, w, t.e);
      forall n | n in w'.states
        ensures RowRecorded(cfg, world, w'.states[n], path, since, t.readAt)
      {
        if n in w.states {
          KeptRowStaysRecorded(cfg, world, w.states[n], w'.states[n], path, since, now, t.readAt);
        } else {
          UnloadedIsRecorded(cfg, world, w'.states[n], path, since, t.readAt);
        }
      }
    }
  }

  lemma UnloadedIsRecorded(cfg: Config, world: World, st: WatchState, path: string, since: nat, now: nat)
    requires Unloaded(st)
    ensures RowRecorded(cfg, world, st, path, since, now)
  {
  }

  lemma {:induction false} RunKeepsRecord(
    cfg: Config, world: World, w: WState, path: string, since: nat, now: nat, run: seq<Timed>)
    requires path != "" && CollisionFree(cfg, world, path) && since <= now
    requires EmptyPathInert(cfg, world)
    requires Inv(cfg, w) && Recorded(cfg, world, w, path, since, now) && Plausible(cfg, world, w, since, now, run)
    ensures now <= EndOf(now, run)
    ensures Inv(cfg, After(cfg, w, run)) && Recorded(cfg, world, After(cfg, w, run), path, since, EndOf(now, run))
    decreases |run|
  {
    hide CollisionFree, Recorded, Inv, Apply;
    if run != [] {
      StepKeepsRecord(cfg, world, w, path, since, now, run[0]);
      StepKeepsInv(cfg, w, run[0].e);
      RunKeepsRecord(cfg, world, Apply(cfg, w, run[0].e), path, since, run[0].readAt, run[1..]);
      assert EndOf(now, run) == EndOf(run[0].readAt, run[1..]);
    }
  }

  // ------------------------------------------------------------------ when the record proves freshness

  /** From `since` on, whenever the file shows one marker at two instants, any authentic content
      it had in between is the content it has at the later one. */
  ghost predicate SteadyMarkers(cfg: Config, world: World, path: string, since: nat) {
    forall i, j, k :: since <= i <= j <= k && SameMarkerAround(world, path, i, j, k)
                      && Authentic(cfg, DataAt(world, path, j))
                      ==> DataAt(world, path, j) == DataAt(world, path, k)
  }

  predicate SameMarkerAround(world: World, path: string, i: nat, j: nat, k: nat) {
    && There(world, path, i) && There(world, path, j) && There(world, path, k)
    && MarkerAt(world, path, i) == MarkerAt(world, path, k)
  }

  /** At time `t`, no watcher row for `path` is mistaken: a row whose remembered marker is the
      file's current one serves a model with the digest of the file's current content. */
  ghost predicate FreshAt(cfg: Config, world: World, w: WState, path: string, t: nat) {
    There(world, path, t) ==>
      forall n :: n in w.states && w.states[n].path == path && w.states[n].lastMarker == Seen(MarkerAt(world, path, t)) ==>
        Serving(w, n) && w.registry[n].sha == Some(cfg.crypto.sha256(DataAt(world, path, t)))
  }

  lemma RecordProvesFresh(cfg: Config, world: World, w: WState, path: string, since: nat, now: nat, t: nat)
    requires Inv(cfg, w) && Recorded(cfg, world, w, path, since, now) && since <= now <= t
    requires SteadyMarkers(cfg, world, path, since)
    ensures FreshAt(cfg, world, w, path, t)
  {
    hide Authentic, Content, Inv;
    if There(world, path, t) {
      forall n | n in w.states && w.states[n].path == path && w.states[n].lastMarker == Seen(MarkerAt(world, path, t))
        ensures Serving(w, n) && w.registry[n].sha == Some(cfg.crypto.sha256(DataAt(world, path, t)))
      {
        InvRow(cfg, w, n);
        var st := w.states[n];
        assert RowRecorded(cfg, world, st, path, since, now);
        if StandsFor(cfg, world, path, st.lastMarker.m, st.lastSha.value, since) {
          assert StattedAt(world, path, st.lastMarker.m, t);
        } else {
          var i, j :| since <= i <= j <= now && StattedAt(world, path, st.lastMarker.m, i)
                      && ReadAt(cfg, world, path, st.lastSha.value, j);
          assert SameMarkerAround(world, path, i, j, t);
        }
      }
    }
  }

  /** The row of `n` can be made to load what stands at `path`. */
  ghost predicate Watches(w: WState, path: string, n: string) {
    && n in w.states && w.states[n].path == path && w.states[n].recipe.Some?
    && (w.states[n].sidecar.unsupported ==> !w.states[n].lastMarker.Seen?)
  }

  /** Whatever is served from `path` was read there once. */
  ghost predicate ReadThere(cfg: Config, world: World, w: WState, path: string, now: nat) {
    forall m :: m in w.states && w.states[m].lastSha.Some? ==>
      && w.states[m].path != ""
      && (w.states[m].path == path ==> WasThere(cfg, world, path, w.states[m].lastSha.value, now))
  }

  /** Every marker remembered for `path` stands, from `now` on, for the content being served. */
  ghost predicate MarkersStand(cfg: Config, world: World, w: WState, path: string, now: nat) {
    forall m :: m in w.states && w.states[m].path == path && w.states[m].lastMarker.Seen? && w.states[m].lastSha.Some? ==>
      StandsFor(cfg, world, path, w.states[m].lastMarker.m, w.states[m].lastSha.value, now)
  }

  /** Fresh after every run and at every later instant. */
  ghost predicate AlwaysFresh(cfg: Config, world: World, w: WState, path: string, now: nat) {
    forall run, t :: Plausible(cfg, world, w, now, now, run) && EndOf(now, run) <= t ==>
      FreshAt(cfg, world, After(cfg, w, run), path, t)
  }

  lemma SteadyImpliesFresh(cfg: Config, world: World, w: WState, path: string, now: nat, run: seq<Timed>, t: nat)
    requires path != "" && CollisionFree(cfg, world, path) && EmptyPathInert(cfg, world)
    requires Inv(cfg, w) && Recorded(cfg, world, w, path, now, now)
    requires SteadyMarkers(cfg, world, path, now)
    requires Plausible(cfg, world, w, now, now, run) && EndOf(now, run) <= t
    ensures FreshAt(cfg, world, After(cfg, w, run), path, t)
  {
    RunKeepsRecord(cfg, world, w, path, now, now, run);
    RecordProvesFresh(cfg, world, After(cfg, w, run), path, now, EndOf(now, run), t);
  }

  /** A sidecar text that the row has not seen. */
  function NewText(s: SidecarState): string {
    if s.contents == Some("a") then "b" else "a"
  }

  /** The run that exploits a marker which comes back: stat at `i`, read at `j`. A changed sidecar
      forces the read where the marker alone would not. */
  function MisledRun(world: World, w: WState, path: string, n: string, i: nat, j: nat): seq<Timed>
    requires There(world, path, i) && There(world, path, j) && n in w.states
  {
    var sidecar := Contents(NewText(w.states[n].sidecar));
    [Timed(Observed(n, Observation(Marked(MarkerAt(world, path, i)), None, sidecar, ReadOk(DataAt(world, path, j)), Builds)), i, j)]
  }

  /** A forced load of authentic bytes ends with their digest served under the marker given. */
  lemma ForcedLoad(cfg: Config, w: WState, path: string, n: string, m: Marker, data: bytes)
    requires Inv(cfg, w) && Watches(w, path, n) && Authentic(cfg, data)
    ensures
      var o := Observation(Marked(m), None, Contents(NewText(w.states[n].sidecar)), ReadOk(data), Builds);
      var w' := ProcessStat(cfg, w, n, o).0;
      && n in w'.states && w'.states[n].path == path && w'.states[n].lastMarker == Seen(m)
      && n in w'.registry && w'.registry[n].sha == Some(cfg.crypto.sha256(data))
  {
    hide Authentic, Inv, WithError;
    InvRow(cfg, w, n);
  }

  lemma UnsteadyMisleads(cfg: Config, world: World, w: WState, path: string, n: string, now: nat, i: nat, j: nat, k: nat)
    requires Inv(cfg, w) && path != "" && Watches(w, path, n) && CollisionFree(cfg, world, path)
    requires now <= i <= j <= k && SameMarkerAround(world, path, i, j, k)
    requires Authentic(cfg, DataAt(world, path, j)) && DataAt(world, path, j) != DataAt(world, path, k)
    ensures
      var run := MisledRun(world, w, path, n, i, j);
      && Plausible(cfg, world, w, now, now, run) && EndOf(now, run) <= k
      && !FreshAt(cfg, world, After(cfg, w, run), path, k)
  {
    hide Authentic, Content, Inv, ProcessStat, Watches;
    WatchedPath(w, path, n);
    var run := MisledRun(world, w, path, n, i, j);
    var w' := Apply(cfg, w, run[0].e);
    ForcedLoad(cfg, w, path, n, MarkerAt(world, path, i), DataAt(world, path, j));
    assert run[1..] == [];
    assert Plausible(cfg, world, w', now, j, run[1..]);
    assert After(cfg, w, run) == After(cfg, w', run[1..]) == w';
  }

  lemma WatchedPath(w: WState, path: string, n: string)
    requires Watches(w, path, n)
    ensures n in w.states && w.states[n].path == path
  {
  }

  /** The exact condition, from any state that satisfies the invariant: for every schedule of
      scans, overlapping stats, reads, failures and rewrites of the file, a remembered marker is
      always proof of freshness if and only if the markers remembered now stand for what is being
      served, and the storage never shows an old marker again after other content. */
  lemma FreshIff(cfg: Config, world: World, w: WState, path: string, n: string, now: nat)
    requires Inv(cfg, w) && path != "" && Watches(w, path, n) && ReadThere(cfg, world, w, path, now)
    requires CollisionFree(cfg, world, path) && EmptyPathInert(cfg, world)
    ensures AlwaysFresh(cfg, world, w, path, now)
       <==> SteadyMarkers(cfg, world, path, now) && MarkersStand(cfg, world, w, path, now)
  {
    hide Authentic, Content, Inv, FreshAt, CollisionFree, Plausible, After, Watches, StandsFor, SteadyMarkers, WasThere;
    if SteadyMarkers(cfg, world, path, now) && MarkersStand(cfg, world, w, path, now) {
      forall run, t | Plausible(cfg, world, w, now, now, run) && EndOf(now, run) <= t
        ensures FreshAt(cfg, world, After(cfg, w, run), path, t)
      {
        SteadyImpliesFresh(cfg, world, w, path, now, run, t);
      }
    }
    if AlwaysFresh(cfg, world, w, path, now) {
      FreshNowMarkersStand(cfg, world, w, path, now);
      FreshNowMarkersSteady(cfg, world, w, path, n, now);
    }
  }

  /** The empty run shows that remembered markers stand. */
  lemma FreshNowMarkersStand(cfg: Config, world: World, w: WState, path: string, now: nat)
    requires Inv(cfg, w) && AlwaysFresh(cfg, world, w, path, now)
    ensures MarkersStand(cfg, world, w, path, now)
  {
    hide Authentic, Content, Inv;
    assert Plausible(cfg, world, w, now, now, []) && After(cfg, w, []) == w;
    forall m, k | m in w.states && w.states[m].path == path && w.states[m].lastMarker.Seen? && w.states[m].lastSha.Some?
                  && now <= k && StattedAt(world, path, w.states[m].lastMarker.m, k)
      ensures cfg.crypto.sha256(DataAt(world, path, k)) == w.states[m].lastSha.value
    {
      InvRow(cfg, w, m);
      assert EndOf(now, []) <= k;
      assert FreshAt(cfg, world, After(cfg, w, []), path, k);
    }
  }

  lemma FreshNowMarkersSteady(cfg: Config, world: World, w: WState, path: string, n: string, now: nat)
    requires Inv(cfg, w) && path != "" && Watches(w, path, n) && CollisionFree(cfg, world, path)
    requires AlwaysFresh(cfg, world, w, path, now)
    ensures SteadyMarkers(cfg, world, path, now)
  {
    hide Authentic, Content, Inv, FreshAt, CollisionFree, Plausible, After, Watches;
    if !SteadyMarkers(cfg, world, path, now) {
      var i, j, k :| now <= i <= j <= k && SameMarkerAround(world, path, i, j, k)
                     && Authentic(cfg, DataAt(world, path, j)) && DataAt(world, path, j) != DataAt(world, path, k);
      UnsteadyMisleads(cfg, world, w, path, n, now, i, j, k);
    }
  }

  /** Nothing of `path` has been seen yet; `n` was just discovered there. */
  ghost predicate JustDiscovered(cfg: Config, w: WState, path: string, n: string) {
    && Inv(cfg, w) && path != ""
    && n in w.states && w.states[n].path == path && w.states[n].recipe.Some?
    && (forall m :: m in w.states && w.states[m].path == path ==> Unloaded(w.states[m]))
    && (forall m :: m in w.states && w.states[m].path == "" ==> w.states[m].lastSha.None?)
  }

  /** From the discovery of a recipe on, only the storage is left in the condition. */
  lemma FreshIffMarkersSteady(cfg: Config, world: World, w: WState, path: string, n: string, now: nat)
    requires JustDiscovered(cfg, w, path, n) && CollisionFree(cfg, world, path) && EmptyPathInert(cfg, world)
    ensures AlwaysFresh(cfg, world, w, path, now) <==> SteadyMarkers(cfg, world, path, now)
  {
    hide Inv, AlwaysFresh, SteadyMarkers, CollisionFree, EmptyPathInert, StandsFor, WasThere;
    FreshIff(cfg, world, w, path, n, now);
  }

  /** A sufficient condition a storage can promise: the file's contents are numbered versions, the
      number only grows, and each version has a marker of its own. */
  ghost predicate MarkerPerVersion(world: World, path: string, number: nat -> nat, version: nat -> Option<Version>) {
    && (forall s, t :: s <= t ==> number(s) <= number(t))
    && (forall t :: world.file(path, t) == version(number(t)))
    && (forall a, b :: version(a).Some? && version(b).Some? && version(a).value.marker == version(b).value.marker ==> a == b)
  }

  lemma VersionedMarkersAreSteady(
    cfg: Config, world: World, path: string, number: nat -> nat, version: nat -> Option<Version>, since: nat)
    requires MarkerPerVersion(world, path, number, version)
    ensures SteadyMarkers(cfg, world, path, since)
  {
    hide Authentic, Content;
    forall i, j, k | since <= i <= j <= k && SameMarkerAround(world, path, i, j, k)
      ensures DataAt(world, path, j) == DataAt(world, path, k)
    {
      assert world.file(path, i) == version(number(i)) && world.file(path, k) == version(number(k));
      assert number(i) == number(k);
      assert number(i) <= number(j) <= number(k);
      assert world.file(path, j) == world.file(path, k);
    }
  }

  /** Progress: when the file rests from stat to read, and its content is authentic and builds,
      one observation leaves it served, whichever way the observation went through the code. */
  lemma OneObservationServes(
    cfg: Config, world: World, w: WState, path: string, since: nat, now: nat, n: string, t: Timed)
    requires Inv(cfg, w) && Recorded(cfg, world, w, path, since, now) && SteadyMarkers(cfg, world, path, since)
    requires since <= now
    requires n in w.states && w.states[n].path == path && w.states[n].recipe.Some?
    requires Consistent(world, w, since, now, t) && t.e.Observed? && t.e.name == n && t.e.o.stat.Marked?
    requires forall s :: t.statAt <= s <= t.readAt ==> world.file(path, s) == world.file(path, t.statAt)
    requires t.e.o.read.ReadOk? && t.e.o.late.Builds? && Authentic(cfg, t.e.o.read.data)
    ensures
      var w' := Apply(cfg, w, t.e);
      && Serving(w', n) && w'.registry[n].sha == Some(cfg.crypto.sha256(DataAt(world, path, t.readAt)))
      && n in w'.states && w'.states[n].lastMarker == Seen(MarkerAt(world, path, t.readAt))
  {
    hide Authentic, Content, Inv, WithError, CheckSidecar;
    assert t.readAt >= t.statAt && world.file(path, t.readAt) == world.file(path, t.statAt);
    InvRow(cfg, w, n);
    RecordProvesFresh(cfg, world, w, path, since, now, t.readAt);
    assert DataAt(world, path, t.readAt) == t.e.o.read.data;
  }

  // ------------------------------------------------------------------ stuck on old content

  /** The row remembers the marker the file now shows, whatever is being served. */
  ghost predicate Settled(w: WState, n: string, path: string, m: Marker, sha: Digest) {
    && n in w.states && w.states[n].path == path && w.states[n].lastMarker == Seen(m)
    && Serving(w, n) && w.registry[n].sha == Some(sha)
  }

  /** From `since` on the file keeps showing marker `m`, or cannot be statted. */
  ghost predicate AtRest(world: World, path: string, m: Marker, since: nat) {
    forall t :: since <= t && There(world, path, t) ==> MarkerAt(world, path, t) == m
  }

  lemma SettledObserved(
    cfg: Config, world: World, w: WState, since: nat, now: nat, t: Timed, n: string, path: string, m: Marker, sha: Digest)
    requires Settled(w, n, path, m, sha) && AtRest(world, path, m, since)
    requires Consistent(world, w, since, now, t) && t.e.Observed? && (t.e.name == n ==> t.e.o.sidecar.Absent?)
    ensures Settled(Apply(cfg, w, t.e), n, path, m, sha)
  {
    hide Authentic, Content, Load, WithError, Genuine;
    ObservedFate(cfg, w, t.e, n);
    if t.e.name != n {
      OtherRowsStay(cfg, w, t.e.name, t.e.o, n);
    }
  }

  lemma OtherRowsStay(cfg: Config, w: WState, name: string, o: Observation, n: string)
    requires n in w.states && n != name
    ensures
      var w' := ProcessStat(cfg, w, name, o).0;
      n in w'.states && w'.states[n] == w.states[n]
  {
    hide Load, CheckSidecar, WithError;
    if name in w.states && o.stat.Marked? {
      var sidecar := CheckSidecar(w.states[name].sidecar, o.yamlMtime, o.sidecar).0;
      LoadTouchesOneRow(cfg, w, name, o.stat.m, o.read, o.late);
      LoadTouchesOneRow(cfg, w.(states := w.states[name := w.states[name].(sidecar := sidecar)]), name, o.stat.m,
                        o.read, o.late);
    }
  }

  lemma SettledStep(cfg: Config, world: World, w: WState, since: nat, now: nat, t: Timed, n: string, path: string, m: Marker, sha: Digest)
    requires Inv(cfg, w) && path != "" && Settled(w, n, path, m, sha) && AtRest(world, path, m, since)
    requires Consistent(world, w, since, now, t) && !Dropped(w, t.e, n)
    requires t.e.Observed? && t.e.name == n ==> t.e.o.sidecar.Absent?
    ensures Settled(Apply(cfg, w, t.e), n, path, m, sha)
  {
    hide Authentic, Content, Inv, ProcessStat, ScanPrefix;
    if t.e.Observed? {
      SettledObserved(cfg, world, w, since, now, t, n, path, m, sha);
    } else if t.e.Scanned? && t.e.listing.Some? {
      var files := t.e.listing.value;
      RowGivesDomain(cfg, w);
      ScanKeepsStates(w, files, |files|);
      FoundModelsSurvive(w, files, n);
    }
  }

  /** Once the remembered marker is the one the file shows, the watcher never reads the file
      again: whatever it serves then, it serves in every later state. So a start-up that read
      before a rewrite and statted after it serves the old model until the next rewrite. */
  lemma {:induction false} StaleForGood(
    cfg: Config, world: World, w: WState, since: nat, now: nat, run: seq<Timed>, n: string, path: string, m: Marker, sha: Digest)
    requires Inv(cfg, w) && path != "" && Settled(w, n, path, m, sha) && AtRest(world, path, m, since)
    requires Plausible(cfg, world, w, since, now, run)
    requires AlwaysFound(cfg, w, Events(run), n)
    requires forall i :: 0 <= i < |run| && run[i].e.Observed? && run[i].e.name == n ==> run[i].e.o.sidecar.Absent?
    ensures Settled(After(cfg, w, run), n, path, m, sha)
    decreases |run|
  {
    hide Inv, Apply, Settled, Dropped;
    if run != [] {
      var w' := Apply(cfg, w, run[0].e);
      assert Events(run)[1..] == Events(run[1..]);
      SettledStep(cfg, world, w, since, now, run[0], n, path, m, sha);
      StepKeepsInv(cfg, w, run[0].e);
      StaleForGood(cfg, world, w', since, run[0].readAt, run[1..], n, path, m, sha);
    }
  }

  function Events(run: seq<Timed>): seq<Event> {
    seq(|run|, i requires 0 <= i < |run| => run[i].e)
  }
}
