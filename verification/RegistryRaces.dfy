/** The registry lock, step by step: the watcher swaps entries in while request threads look
    entries up and use them later, outside the lock. */
module RegistryRaces {
  import opened Wrappers
  import opened Runs
  import opened ByteStrings

  type Sha = bytes -> Digest

  /** An entry object in memory: the recommender, as its artifact bytes, the version, the error text. */
  datatype Cell = Cell(model: Option<bytes>, version: Option<Digest>, error: Option<string>)

  datatype Owner = Watcher | Reader(r: nat)

  /** Where the watcher thread stands. Until it is inserted, an entry is the watcher's own. */
  datatype WriterPc =
    | Idle
    | Built(name: string, cell: Cell)
    | Holding(name: string, cell: Cell)
    | Marked(name: string, cell: Cell)
    | Inserted(change: int, id: nat)
    | Counted(id: nat)
    | Unmarked(id: nat)
    | Removing(name: string)
    | RemoveHolding(name: string)
    | Popped(change: int)
    | Removed
    | Annotating(name: string, error: Option<string>)
    | AnnotateHolding(name: string, error: Option<string>)
    | Annotated

  /** Where a request thread stands: a lookup that is used later, or a health check. */
  datatype ReaderPc =
    | Free
    | Wants(name: string)
    | Locked(name: string)
    | Fetched(found: Option<nat>)
    | Got(found: Option<nat>)
    | HasModel(id: nat, model: Option<bytes>)
    | Responds(model: Option<bytes>, version: Option<Digest>)
    | WantsHealth
    | HealthLocked(seen: map<string, nat>)
    | HealthCounted(loaded: int, seen: map<string, nat>)
    | HealthRead(loaded: int, total: nat, seen: map<string, nat>)
    | Reports(loaded: int, total: nat, seen: map<string, nat>)

  datatype State = State(
    cells: seq<Cell>, entries: map<string, nat>, count: int, lock: Option<Owner>, w: WriterPc, readers: seq<ReaderPc>)

  datatype Action =
    | Build(name: string, model: Option<bytes>) | Remove(name: string) | Annotate(name: string, error: Option<string>) | Proceed
    | Look(r: nat, name: string) | AskHealth(r: nat) | Serve(r: nat)

  function LoadedIn(cells: seq<Cell>, entries: map<string, nat>): set<string> {
    set n | n in entries && entries[n] < |cells| && cells[entries[n]].model.Some?
  }

  function Weight(cells: seq<Cell>, entries: map<string, nat>, name: string): int {
    if name in LoadedIn(cells, entries) then 1 else 0
  }

  /** The next step of the watcher. `atomic` is the insertion as it is: the marker is set under the
      same lock; otherwise the entry is inserted first and marked in a second critical section. */
  function WriterStep(sha: Sha, atomic: bool, s: State): State {
    match s.w
    case Idle => s
    case Built(name, cell) =>
      if s.lock.None? then s.(lock := Some(Watcher), w := Holding(name, cell)) else s
    case Holding(name, cell) =>
      s.(w := Marked(name, if atomic && cell.model.Some? then cell.(version := Some(sha(cell.model.value))) else cell))
    case Marked(name, cell) =>
      var change := (if cell.model.Some? then 1 else 0) - Weight(s.cells, s.entries, name);
      s.(cells := s.cells + [cell], entries := s.entries[name := |s.cells|], w := Inserted(change, |s.cells|))
    case Inserted(change, id) => s.(count := s.count + change, w := Counted(id))
    case Counted(id) => s.(lock := None, w := if atomic then Idle else Unmarked(id))
    case Unmarked(id) =>
      if s.lock.None? && id < |s.cells| && s.cells[id].model.Some? then
        s.(cells := s.cells[id := s.cells[id].(version := Some(sha(s.cells[id].model.value)))], w := Idle)
      else s
    case Removing(name) =>
      if s.lock.None? then s.(lock := Some(Watcher), w := RemoveHolding(name)) else s
    case RemoveHolding(name) =>
      s.(entries := s.entries - {name}, w := Popped(-Weight(s.cells, s.entries, name)))
    case Popped(change) => s.(count := s.count + change, w := Removed)
    case Removed => s.(lock := None, w := Idle)
    case Annotating(name, error) =>
      if s.lock.None? then s.(lock := Some(Watcher), w := AnnotateHolding(name, error)) else s
    case AnnotateHolding(name, error) =>
      if name in s.entries && s.entries[name] < |s.cells| then
        s.(cells := s.cells[s.entries[name] := s.cells[s.entries[name]].(error := error)], w := Annotated)
      else s.(w := Annotated)
    case Annotated => s.(lock := None, w := Idle)
  }

  function ReaderStep(s: State, r: nat): State
    requires r < |s.readers|
  {
    match s.readers[r]
    case Free => s
    case Wants(name) =>
      if s.lock.None? then s.(lock := Some(Reader(r)), readers := s.readers[r := Locked(name)]) else s
    case Locked(name) =>
      s.(readers := s.readers[r := Fetched(if name in s.entries then Some(s.entries[name]) else None)])
    case Fetched(id) => s.(lock := None, readers := s.readers[r := Got(id)])
    case Got(id) =>
      if id.Some? && id.value < |s.cells| then
        s.(readers := s.readers[r := HasModel(id.value, s.cells[id.value].model)])
      else s.(readers := s.readers[r := Free])
    case HasModel(id, model) =>
      if id < |s.cells| then s.(readers := s.readers[r := Responds(model, s.cells[id].version)]) else s
    case Responds(_, _) => s.(readers := s.readers[r := Free])
    case WantsHealth =>
      if s.lock.None? then s.(lock := Some(Reader(r)), readers := s.readers[r := HealthLocked(s.entries)]) else s
    case HealthLocked(seen) => s.(readers := s.readers[r := HealthCounted(s.count, seen)])
    case HealthCounted(loaded, seen) => s.(readers := s.readers[r := HealthRead(loaded, |s.entries|, seen)])
    case HealthRead(loaded, total, seen) => s.(lock := None, readers := s.readers[r := Reports(loaded, total, seen)])
    case Reports(_, _, _) => s.(readers := s.readers[r := Free])
  }

  /** Any thread may move next; a move that is not enabled changes nothing. */
  function Step(sha: Sha, atomic: bool, s: State, a: Action): State {
    match a
    case Build(name, model) => if s.w.Idle? then s.(w := Built(name, Cell(model, None, None))) else s
    case Remove(name) => if s.w.Idle? then s.(w := Removing(name)) else s
    case Annotate(name, error) => if s.w.Idle? then s.(w := Annotating(name, error)) else s
    case Proceed => WriterStep(sha, atomic, s)
    case Look(r, name) => if r < |s.readers| && s.readers[r].Free? then s.(readers := s.readers[r := Wants(name)]) else s
    case AskHealth(r) => if r < |s.readers| && s.readers[r].Free? then s.(readers := s.readers[r := WantsHealth]) else s
    case Serve(r) => if r < |s.readers| then ReaderStep(s, r) else s
  }

  function Stepping(sha: Sha, atomic: bool): (State, Action) -> State {
    (s, a) => Step(sha, atomic, s, a)
  }

  function Start(readers: nat): State {
    State([], map[], 0, None, Idle, seq(readers, _ => Free))
  }

  // ------------------------------------------------------------------ the invariant

  /** The version is the digest of the bytes behind the recommender. */
  ghost predicate Fits(sha: Sha, model: Option<bytes>, version: Option<Digest>) {
    model.Some? ==> version == Some(sha(model.value))
  }

  ghost predicate Whole(sha: Sha, c: Cell) {
    Fits(sha, c.model, c.version)
  }

  predicate WriterInside(w: WriterPc) {
    w.Holding? || w.Marked? || w.Inserted? || w.Counted? || w.RemoveHolding? || w.Popped? || w.Removed?
    || w.AnnotateHolding? || w.Annotated?
  }

  predicate ReaderInside(pc: ReaderPc) {
    pc.Locked? || pc.Fetched? || pc.HealthLocked? || pc.HealthCounted? || pc.HealthRead?
  }

  /** At most one thread is inside a critical section, and the lock says which. */
  ghost predicate LockInv(s: State) {
    && (s.lock == Some(Watcher) <==> WriterInside(s.w))
    && (forall r :: 0 <= r < |s.readers| ==> (s.lock == Some(Reader(r)) <==> ReaderInside(s.readers[r])))
    && !s.w.Unmarked?
  }

  ghost predicate CellsInv(sha: Sha, s: State) {
    && (forall i :: 0 <= i < |s.cells| ==> Whole(sha, s.cells[i]))
    && (forall n :: n in s.entries ==> s.entries[n] < |s.cells|)
    && (s.w.Marked? ==> Whole(sha, s.w.cell))
  }

  function Pending(w: WriterPc): int {
    match w
    case Inserted(change, _) => change
    case Popped(change) => change
    case _ => 0
  }

  ghost predicate CountInv(s: State) {
    s.count + Pending(s.w) == |LoadedIn(s.cells, s.entries)|
  }

  ghost predicate ReaderInv(sha: Sha, s: State, pc: ReaderPc) {
    match pc
    case Fetched(id) => id.Some? ==> id.value < |s.cells|
    case Got(id) => id.Some? ==> id.value < |s.cells|
    case HasModel(id, model) => id < |s.cells| && s.cells[id].model == model
    case Responds(model, version) => Fits(sha, model, version)
    case HealthLocked(seen) => seen == s.entries
    case HealthCounted(loaded, seen) => seen == s.entries && loaded == |LoadedIn(s.cells, seen)|
    case HealthRead(loaded, total, seen) =>
      seen == s.entries && loaded == |LoadedIn(s.cells, seen)| && total == |seen|
    case Reports(loaded, total, seen) =>
      loaded == |LoadedIn(s.cells, seen)| && total == |seen| && forall n :: n in seen ==> seen[n] < |s.cells|
    case _ => true
  }

  ghost predicate Inv(sha: Sha, s: State) {
    && LockInv(s) && CellsInv(sha, s) && CountInv(s)
    && forall r :: 0 <= r < |s.readers| ==> ReaderInv(sha, s, s.readers[r])
  }

  lemma LoadedAfterInsert(cells: seq<Cell>, entries: map<string, nat>, name: string, cell: Cell)
    requires forall n :: n in entries ==> entries[n] < |cells|
    ensures |LoadedIn(cells + [cell], entries[name := |cells|])|
         == |LoadedIn(cells, entries)| - Weight(cells, entries, name) + (if cell.model.Some? then 1 else 0)
  {
    var longer, more := cells + [cell], entries[name := |cells|];
    forall n
      ensures n in LoadedIn(longer, more) <==>
        n in (if cell.model.Some? then LoadedIn(cells, entries) + {name} else LoadedIn(cells, entries) - {name})
    {
      if n != name && n in entries {
        assert more[n] == entries[n] && longer[more[n]] == cells[entries[n]];
      } else if n == name {
        assert longer[more[n]] == cell;
      }
    }
    SizeWith(LoadedIn(cells, entries), LoadedIn(longer, more), name, cell.model.Some?);
  }

  lemma SizeWith(before: set<string>, after: set<string>, name: string, loaded: bool)
    requires forall n :: n in after <==> n in (if loaded then before + {name} else before - {name})
    ensures |after| == |before| - (if name in before then 1 else 0) + if loaded then 1 else 0
  {
    if loaded {
      assert after == (before - {name}) + {name};
    } else {
      assert after == before - {name};
    }
  }

  lemma LoadedAfterPop(cells: seq<Cell>, entries: map<string, nat>, name: string)
    ensures |LoadedIn(cells, entries - {name})| == |LoadedIn(cells, entries)| - Weight(cells, entries, name)
  {
    var fewer := entries - {name};
    forall n
      ensures n in LoadedIn(cells, fewer) <==> n in LoadedIn(cells, entries) - {name}
    {
      assert n in fewer <==> n in entries && n != name;
    }
    SizeWithout(LoadedIn(cells, entries), LoadedIn(cells, fewer), name);
  }

  lemma SizeWithout(before: set<string>, after: set<string>, name: string)
    requires forall n :: n in after <==> n in before - {name}
    ensures |after| == |before| - if name in before then 1 else 0
  {
    assert after == before - {name};
  }

  /** Entries are only ever added to memory, and only their error text is changed there. */
  ghost predicate Extends(s: State, s': State) {
    && |s.cells| <= |s'.cells|
    && forall i :: 0 <= i < |s.cells| ==> s'.cells[i] == s.cells[i].(error := s'.cells[i].error)
  }

  /** So what a reader noted stays true. */
  lemma ReaderUnmoved(sha: Sha, s: State, s': State, pc: ReaderPc)
    requires ReaderInv(sha, s, pc) && Extends(s, s')
    requires forall n :: n in s.entries ==> s.entries[n] < |s.cells|
    requires ReaderInside(pc) ==> s'.entries == s.entries
    ensures ReaderInv(sha, s', pc)
  {
    match pc
    case Reports(_, _, seen) => LoadedGrows(s, s', seen);
    case HealthCounted(_, seen) => LoadedGrows(s, s', seen);
    case HealthRead(_, _, seen) => LoadedGrows(s, s', seen);
    case _ =>
  }

  lemma LoadedGrows(s: State, s': State, seen: map<string, nat>)
    requires Extends(s, s') && forall n :: n in seen ==> seen[n] < |s.cells|
    ensures LoadedIn(s'.cells, seen) == LoadedIn(s.cells, seen)
  {
  }

  lemma WriterKeepsInv(sha: Sha, s: State)
    requires Inv(sha, s)
    ensures Inv(sha, WriterStep(sha, true, s))
  {
    hide ReaderInv, LoadedIn, Weight;
    var s' := WriterStep(sha, true, s);
    forall r | 0 <= r < |s.readers|
      ensures ReaderInv(sha, s', s'.readers[r])
    {
      ReaderUnmoved(sha, s, s', s.readers[r]);
    }
    match s.w
    case Marked(name, cell) => LoadedAfterInsert(s.cells, s.entries, name, cell);
    case RemoveHolding(name) => LoadedAfterPop(s.cells, s.entries, name);
    case AnnotateHolding(_, _) => LoadedGrows(s, s', s.entries);
    case _ =>
  }

  lemma ReaderKeepsInv(sha: Sha, s: State, r: nat)
    requires Inv(sha, s) && r < |s.readers|
    ensures Inv(sha, ReaderStep(s, r))
  {
    hide LoadedIn, Fits;
    var s' := ReaderStep(s, r);
    assert ReaderInv(sha, s, s.readers[r]);
    forall q | 0 <= q < |s.readers| && q != r
      ensures ReaderInv(sha, s', s'.readers[q])
    {
      ReaderUnmoved(sha, s, s', s.readers[q]);
    }
    assert ReaderInv(sha, s', s'.readers[r]) by {
      hide LockInv;
    }
  }

  lemma StepKeepsInv(sha: Sha, s: State, a: Action)
    requires Inv(sha, s)
    ensures Inv(sha, Step(sha, true, s, a))
  {
    hide Inv, WriterStep, ReaderStep;
    match a
    case Proceed => WriterKeepsInv(sha, s);
    case Serve(r) => if r < |s.readers| { ReaderKeepsInv(sha, s, r); }
    case _ => BeginningKeepsInv(sha, s, a);
  }

  /** Deciding what to do next touches nothing shared. */
  lemma BeginningKeepsInv(sha: Sha, s: State, a: Action)
    requires Inv(sha, s) && !a.Proceed? && !a.Serve?
    ensures Inv(sha, Step(sha, true, s, a))
  {
    hide LoadedIn, Whole;
    var s' := Step(sha, true, s, a);
    forall r | 0 <= r < |s.readers|
      ensures ReaderInv(sha, s', s'.readers[r])
    {
      ReaderUnmoved(sha, s, s', s.readers[r]);
    }
  }

  lemma RunKeepsInv(sha: Sha, s: State, actions: seq<Action>)
    requires Inv(sha, s)
    ensures Inv(sha, Run(Stepping(sha, true), s, actions)) && |Run(Stepping(sha, true), s, actions).readers| == |s.readers|
  {
    hide Inv, Step;
    forall t, a | Inv(sha, t) && |t.readers| == |s.readers|
      ensures Inv(sha, Stepping(sha, true)(t, a)) && |Stepping(sha, true)(t, a).readers| == |s.readers|
    {
      StepKeepsInv(sha, t, a);
      StepKeepsReaders(sha, t, a);
    }
    RunKeeps(Stepping(sha, true), t => Inv(sha, t) && |t.readers| == |s.readers|, s, actions);
  }

  lemma StepKeepsReaders(sha: Sha, s: State, a: Action)
    ensures |Step(sha, true, s, a).readers| == |s.readers|
  {
    hide Weight;
  }

  /** For any number of readers and any interleaving: whoever answers a request answers with a
      recommender and a version from the same bytes, and whoever reports health reports the
      number of loaded and of all entries of one registry content. */
  lemma EveryAnswerIsWhole(sha: Sha, readers: nat, actions: seq<Action>, r: nat)
    requires r < readers
    ensures
      var s := Run(Stepping(sha, true), Start(readers), actions);
      && |s.readers| == readers
      && match s.readers[r]
         case Responds(model, version) => model.Some? ==> version == Some(sha(model.value))
         case Reports(loaded, total, seen) => loaded == |LoadedIn(s.cells, seen)| && total == |seen|
         case _ => true
  {
    hide Step;
    assert LoadedIn([], map[]) == {};
    RunKeepsInv(sha, Start(readers), actions);
    assert ReaderInv(sha, Run(Stepping(sha, true), Start(readers), actions), Run(Stepping(sha, true), Start(readers), actions).readers[r]);
  }

  // ------------------------------------------------------------------ operations that complete

  lemma RunFive(sha: Sha, s: State, a: Action, b: Action, c: Action, d: Action, e: Action)
    ensures Run(Stepping(sha, true), s, [a, b, c] + [d, e])
      == Step(sha, true, Step(sha, true, Step(sha, true, Step(sha, true, Step(sha, true, s, a), b), c), d), e)
  {
    hide Run, Step;
    RunAppend(Stepping(sha, true), s, [a, b, c], [d, e]);
    RunThree(Stepping(sha, true), s, a, b, c);
    RunTwo(Stepping(sha, true), Step(sha, true, Step(sha, true, Step(sha, true, s, a), b), c), d, e);
  }

  /** An undisturbed lookup answers with what the registry holds under the name. */
  lemma LookupAnswers(sha: Sha, s: State, r: nat, name: string)
    requires r < |s.readers| && s.readers[r] == Wants(name) && s.lock.None?
    requires name in s.entries && s.entries[name] < |s.cells|
    ensures
      var cell := s.cells[s.entries[name]];
      Run(Stepping(sha, true), s, [Serve(r), Serve(r), Serve(r)] + [Serve(r), Serve(r)])
      == s.(readers := s.readers[r := Responds(cell.model, cell.version)])
  {
    hide Run;
    RunFive(sha, s, Serve(r), Serve(r), Serve(r), Serve(r), Serve(r));
    var id := s.entries[name];
    var s1 := s.(lock := Some(Reader(r)), readers := s.readers[r := Locked(name)]);
    var s2 := s1.(readers := s.readers[r := Fetched(Some(id))]);
    var s3 := s.(readers := s.readers[r := Got(Some(id))]);
    var s4 := s.(readers := s.readers[r := HasModel(id, s.cells[id].model)]);
    assert ReaderStep(s, r) == s1;
    assert ReaderStep(s1, r) == s2;
    assert ReaderStep(s2, r) == s3;
    assert ReaderStep(s3, r) == s4;
  }

  /** An undisturbed health check reports the counter and the size of the registry. */
  lemma HealthAnswers(sha: Sha, s: State, r: nat)
    requires r < |s.readers| && s.readers[r] == WantsHealth && s.lock.None?
    ensures
      Run(Stepping(sha, true), s, [Serve(r), Serve(r)] + [Serve(r), Serve(r)])
      == s.(readers := s.readers[r := Reports(s.count, |s.entries|, s.entries)])
  {
    hide Run;
    RunAppend(Stepping(sha, true), s, [Serve(r), Serve(r)], [Serve(r), Serve(r)]);
    RunTwo(Stepping(sha, true), s, Serve(r), Serve(r));
    var s1 := s.(lock := Some(Reader(r)), readers := s.readers[r := HealthLocked(s.entries)]);
    var s2 := s1.(readers := s.readers[r := HealthCounted(s.count, s.entries)]);
    var s3 := s1.(readers := s.readers[r := HealthRead(s.count, |s.entries|, s.entries)]);
    assert ReaderStep(s, r) == s1;
    assert ReaderStep(s1, r) == s2;
    assert ReaderStep(s2, r) == s3;
    RunTwo(Stepping(sha, true), s2, Serve(r), Serve(r));
  }

  /** An undisturbed swap ends with the new model under the name, with the version of its bytes. */
  lemma SwapCompletes(sha: Sha, s: State, name: string, model: bytes)
    requires s.w == Built(name, Cell(Some(model), None, None)) && s.lock.None?
    ensures
      var t := Run(Stepping(sha, true), s, [Proceed, Proceed, Proceed] + [Proceed, Proceed]);
      && t.w.Idle? && t.lock.None? && t.readers == s.readers && t.entries.Keys == s.entries.Keys + {name}
      && t.entries[name] < |t.cells| && t.cells[t.entries[name]] == Cell(Some(model), Some(sha(model)), None)
      && forall n :: n in s.entries && n != name ==> t.entries[n] == s.entries[n]
  {
    hide Run, LoadedIn;
    RunFive(sha, s, Proceed, Proceed, Proceed, Proceed, Proceed);
    var cell := Cell(Some(model), Some(sha(model)), None);
    var s1 := s.(lock := Some(Watcher), w := Holding(name, Cell(Some(model), None, None)));
    var s2 := s1.(w := Marked(name, cell));
    assert WriterStep(sha, true, s) == s1;
    assert WriterStep(sha, true, s1) == s2;
  }

  /** An undisturbed removal takes the name away, an undisturbed annotation leaves its text. */
  lemma RemovalCompletes(sha: Sha, s: State, name: string)
    requires s.w == Removing(name) && s.lock.None?
    ensures
      var t := Run(Stepping(sha, true), s, [Proceed, Proceed] + [Proceed, Proceed]);
      t.w.Idle? && t.lock.None? && t.readers == s.readers && t.cells == s.cells && t.entries == s.entries - {name}
  {
    hide Run, LoadedIn;
    RunAppend(Stepping(sha, true), s, [Proceed, Proceed], [Proceed, Proceed]);
    RunTwo(Stepping(sha, true), s, Proceed, Proceed);
    RunTwo(Stepping(sha, true), Step(sha, true, Step(sha, true, s, Proceed), Proceed), Proceed, Proceed);
  }

  lemma AnnotationCompletes(sha: Sha, s: State, name: string, error: Option<string>)
    requires s.w == Annotating(name, error) && s.lock.None? && name in s.entries && s.entries[name] < |s.cells|
    ensures
      var t := Run(Stepping(sha, true), s, [Proceed, Proceed, Proceed]);
      t == s.(w := Idle, cells := s.cells[s.entries[name] := s.cells[s.entries[name]].(error := error)])
  {
    hide Run;
    RunThree(Stepping(sha, true), s, Proceed, Proceed, Proceed);
  }

  // ------------------------------------------------------------------ two critical sections

  function Torn(name: string, model: bytes, at: ReaderPc, lock: Option<Owner>): State {
    State([Cell(Some(model), None, None)], map[name := 0], 1, lock, Unmarked(0), [at])
  }

  const SWAP_HALF := [Proceed, Proceed, Proceed, Proceed, Proceed]

  const LOOKUP := [Serve(0), Serve(0), Serve(0), Serve(0), Serve(0)]

  lemma HalfASwap(sha: Sha, name: string, model: bytes)
    ensures Run(Stepping(sha, false), Start(1).(w := Built(name, Cell(Some(model), None, None))), SWAP_HALF) == Torn(name, model, Free, None)
  {
    var cell := Cell(Some(model), None, None);
    var s1 := Start(1).(w := Built(name, cell));
    var s2 := s1.(lock := Some(Watcher), w := Holding(name, cell));
    var s3 := s2.(w := Marked(name, cell));
    var s4 := s3.(cells := [cell], entries := map[name := 0], w := Inserted(1, 0));
    var s5 := s4.(count := 1, w := Counted(0));
    assert WriterStep(sha, false, s3) == s4 by {
      assert LoadedIn([], map[]) == {};
    }
    assert WriterStep(sha, false, s5) == Torn(name, model, Free, None) by {
      assert Start(1).readers == [Free];
    }
    FiveSteps(sha, [s1, s2, s3, s4, s5, Torn(name, model, Free, None)], Proceed);
  }

  lemma LookupOfTorn(sha: Sha, name: string, model: bytes)
    ensures Run(Stepping(sha, false), Torn(name, model, Wants(name), None), LOOKUP) == Torn(name, model, Responds(Some(model), None), None)
  {
    FiveSteps(sha, [
      Torn(name, model, Wants(name), None), Torn(name, model, Locked(name), Some(Reader(0))),
      Torn(name, model, Fetched(Some(0)), Some(Reader(0))), Torn(name, model, Got(Some(0)), None),
      Torn(name, model, HasModel(0, Some(model)), None), Torn(name, model, Responds(Some(model), None), None)], Serve(0));
  }

  lemma FiveSteps(sha: Sha, states: seq<State>, a: Action)
    requires |states| == 6
    requires Step(sha, false, states[0], a) == states[1] && Step(sha, false, states[1], a) == states[2]
    requires Step(sha, false, states[2], a) == states[3] && Step(sha, false, states[3], a) == states[4]
    requires Step(sha, false, states[4], a) == states[5]
    ensures Run(Stepping(sha, false), states[0], [a, a, a, a, a]) == states[5]
  {
    hide Step, Run;
    assert [a, a, a, a, a] == [a, a] + ([a, a] + [a]);
    RunAppend(Stepping(sha, false), states[0], [a, a], [a, a] + [a]);
    RunAppend(Stepping(sha, false), states[2], [a, a], [a]);
    RunTwo(Stepping(sha, false), states[0], a, a);
    RunTwo(Stepping(sha, false), states[2], a, a);
    RunOne(Stepping(sha, false), states[4], a);
  }

  /** With insertion and marking in two critical sections, one reader is enough to see a loaded
      recommender under no version. */
  lemma TwoStepSwapTears(sha: Sha, name: string, model: bytes)
    ensures
      var actions := ([Build(name, Some(model))] + SWAP_HALF) + ([Look(0, name)] + LOOKUP);
      Run(Stepping(sha, false), Start(1), actions).readers == [Responds(Some(model), None)]
  {
    hide Run, WriterStep, ReaderStep, SWAP_HALF, LOOKUP;
    var begun := [Build(name, Some(model))] + SWAP_HALF;
    RunAppend(Stepping(sha, false), Start(1), begun, [Look(0, name)] + LOOKUP);
    RunFirst(Stepping(sha, false), Start(1), Build(name, Some(model)), SWAP_HALF);
    assert Step(sha, false, Start(1), Build(name, Some(model))) == Start(1).(w := Built(name, Cell(Some(model), None, None)));
    HalfASwap(sha, name, model);
    assert Step(sha, false, Torn(name, model, Free, None), Look(0, name)) == Torn(name, model, Wants(name), None);
    RunFirst(Stepping(sha, false), Torn(name, model, Free, None), Look(0, name), LOOKUP);
    LookupOfTorn(sha, name, model);
  }
}
