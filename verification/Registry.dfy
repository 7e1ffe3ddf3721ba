/** The name -> entry registry shared by the watcher thread and the request threads.
    Each method is one critical section of the registry lock. */
module Registry {
  import opened Wrappers
  import opened ByteStrings

  /** A change marker (ETag, or mtime with size): compared for equality only. */
  type Marker = int

  datatype LoadError =
    | WatcherUnhealthy                 // the sentinel "watcher unhealthy"
    | YamlFailed | ScanFailed
    | StatFailed(errorClass: string) | ArtifactMissing | StatTimeout
    | ReadFailed | BuildFailed

  /** What a request thread can see of an entry. `model` stands for the recommender: the bytes
      it was deserialized from. `sha` is the digest behind `model_version` (`None` for ""). */
  datatype Entry = Entry(
    loaded: bool, model: Option<bytes>, error: Option<LoadError>, marker: Option<Marker>, sha: Option<Digest>)

  type View = map<string, Entry>

  function LoadedNames(v: View): set<string> {
    set n | n in v && v[n].loaded
  }

  function WithError(v: View, name: string, error: Option<LoadError>): View {
    if name in v then v[name := v[name].(error := error)] else v
  }

  function WithMarker(v: View, name: string, marker: Marker, sha: Digest): View {
    if name in v then v[name := v[name].(marker := Some(marker), sha := Some(sha))] else v
  }

  lemma CountAfterReplace(v: View, name: string, e: Entry)
    ensures
      var before := if name in v && v[name].loaded then 1 else 0;
      |LoadedNames(v[name := e])| == |LoadedNames(v)| - before + if e.loaded then 1 else 0
  {
    var rest := LoadedNames(v) - {name};
    assert LoadedNames(v[name := e]) == if e.loaded then rest + {name} else rest;
    assert LoadedNames(v) == if name in v && v[name].loaded then rest + {name} else rest;
  }

  lemma CountAfterRemove(v: View, name: string)
    ensures |LoadedNames(v - {name})| == |LoadedNames(v)| - if name in v && v[name].loaded then 1 else 0
  {
    var rest := LoadedNames(v) - {name};
    assert LoadedNames(v - {name}) == rest;
    assert LoadedNames(v) == if name in v && v[name].loaded then rest + {name} else rest;
  }

  lemma CountAfterError(v: View, name: string, error: Option<LoadError>)
    ensures LoadedNames(WithError(v, name, error)) == LoadedNames(v)
  {
  }

  /** Header, key id, metadata and recommender never change after construction; the error text
      and the loaded marker are annotated in place. */
  class ModelEntry {
    const loaded: bool
    const model: Option<bytes>
    var error: Option<LoadError>
    var marker: Option<Marker>
    var sha: Option<Digest>

    constructor (loaded: bool, model: Option<bytes>, error: Option<LoadError>, marker: Option<Marker>, sha: Option<Digest>)
      ensures Snapshot() == Entry(loaded, model, error, marker, sha)
    {
      this.loaded, this.model := loaded, model;
      this.error, this.marker, this.sha := error, marker, sha;
    }

    function Snapshot(): Entry
      reads this
    {
      Entry(loaded, model, error, marker, sha)
    }
  }

  class ModelRegistry {
    var entries: map<string, ModelEntry>
    var loadedCount: int

    ghost function Contents(): View
      reads this, entries.Values
    {
      map n | n in entries :: entries[n].Snapshot()
    }

    /** Every name has an entry object of its own, and the counter is right. */
    ghost predicate Valid()
      reads this, entries.Values
    {
      && (forall m, n :: m in entries && n in entries && m != n ==> entries[m] != entries[n])
      && loadedCount == |LoadedNames(Contents())|
    }

    constructor ()
      ensures Valid() && entries == map[] && Contents() == map[]
    {
      entries, loadedCount := map[], 0;
    }

    method Get(name: string) returns (e: ModelEntry?)
      ensures if name in entries then e == entries[name] else e == null
    {
      return if name in entries then entries[name] else null;
    }

    method Replace(name: string, entry: ModelEntry)
      requires Valid() && forall n :: n in entries && n != name ==> entries[n] != entry
      modifies this
      ensures Valid() && entries == old(entries)[name := entry]
      ensures Contents() == old(Contents())[name := entry.Snapshot()]
    {
      Install(name, entry);
    }

    /** Insert the entry and set its marker without letting go of the lock in between. */
    method ReplaceWithMarker(name: string, entry: ModelEntry, marker: Marker, sha: Digest)
      requires Valid() && entry !in entries.Values
      modifies this, entry`marker, entry`sha
      ensures Valid() && entries == old(entries)[name := entry]
      ensures Contents() == old(Contents())[name := old(entry.Snapshot()).(marker := Some(marker), sha := Some(sha))]
    {
      entry.marker, entry.sha := Some(marker), Some(sha);
      assert Contents() == old(Contents());
      Install(name, entry);
    }

    /** Store the entry and adjust the counter by the net change in loaded-ness. */
    method Install(name: string, entry: ModelEntry)
      requires Valid() && forall n :: n in entries && n != name ==> entries[n] != entry
      modifies this
      ensures Valid() && entries == old(entries)[name := entry]
      ensures Contents() == old(Contents())[name := entry.Snapshot()]
    {
      hide LoadedNames;
      ghost var before, e := Contents(), entry.Snapshot();
      CountAfterReplace(before, name, e);
      var oldLoaded := name in entries && entries[name].loaded;
      assert oldLoaded == (name in before && before[name].loaded);
      entries := entries[name := entry];
      assert Contents() == before[name := e];
      if entry.loaded && !oldLoaded {
        loadedCount := loadedCount + 1;
      } else if !entry.loaded && oldLoaded {
        loadedCount := loadedCount - 1;
      }
      assert Contents() == before[name := e];
      assert loadedCount == |LoadedNames(before[name := e])|;
      assert loadedCount == |LoadedNames(Contents())|;
      assert forall m, n :: m in entries && n in entries && m != n ==> entries[m] != entries[n];
    }

    method Remove(name: string)
      requires Valid()
      modifies this
      ensures Valid() && entries == old(entries) - {name} && Contents() == old(Contents()) - {name}
    {
      hide LoadedNames;
      CountAfterRemove(Contents(), name);
      assert (name in entries && entries[name].loaded) == (name in Contents() && Contents()[name].loaded);
      if name in entries && entries[name].loaded {
        loadedCount := loadedCount - 1;
      }
      entries := entries - {name};
      assert Contents() == old(Contents()) - {name};
    }

    /** Annotates the entry in place; `false` when there is nothing to annotate. */
    method SetLoadError(name: string, error: Option<LoadError>) returns (found: bool)
      requires Valid()
      modifies entries.Values
      ensures Valid() && found == (name in entries)
      ensures Contents() == WithError(old(Contents()), name, error)
    {
      if name !in entries {
        return false;
      }
      CountAfterError(Contents(), name, error);
      entries[name].error := error;
      assert Contents() == WithError(old(Contents()), name, error);
      return true;
    }

    /** Overwrites marker and digest in place; the caller vouches that they belong together. */
    method UpdateLoadedMarker(name: string, marker: Marker, sha: Digest) returns (found: bool)
      requires Valid()
      modifies entries.Values
      ensures Valid() && found == (name in entries)
      ensures Contents() == WithMarker(old(Contents()), name, marker, sha)
    {
      if name !in entries {
        return false;
      }
      assert LoadedNames(WithMarker(Contents(), name, marker, sha)) == LoadedNames(Contents());
      entries[name].marker, entries[name].sha := Some(marker), Some(sha);
      assert Contents() == WithMarker(old(Contents()), name, marker, sha);
      return true;
    }

    /** A matching pair: both numbers describe the same registry contents. */
    method HealthCounts() returns (loaded: int, total: nat)
      requires Valid()
      ensures loaded == |LoadedNames(Contents())| && total == |Contents().Keys| && 0 <= loaded <= total
    {
      assert Contents().Keys == entries.Keys;
      SubsetSize(LoadedNames(Contents()), Contents().Keys);
      return loadedCount, |entries|;
    }
  }

  lemma SubsetSize<T>(a: set<T>, b: set<T>)
    requires a <= b
    ensures |a| <= |b|
  {
    assert |b - a| + |a| == |b| by {
      assert b == (b - a) + a;
    }
  }
}
