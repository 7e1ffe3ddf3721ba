/** The publish protocol: any number of writers and readers of one output path, interleaved
    step by step, every writer free to crash between any two steps. */
module Publish {
  import opened Wrappers
  import opened Runs
  import opened ByteStrings
  import opened Container
  import opened Signing
  import opened ArtifactIO

  /** A file of the output directory: a temp file of writer `w`, or a published name.
      `mkstemp` never hands out a name in use, so temp files share no name with anything. */
  datatype Where = Temp(w: nat) | At(name: bytes)

  /** `first` tells the artifact write of a publication from its pointer write. */
  datatype Pc = Idle | Filling(first: bool, written: nat) | Between | Finished | Dead

  datatype Writer = Writer(local: bool, mode: Versioning, artifact: bytes, pc: Pc)

  datatype Reader = Start | HasPointer(target: bytes) | Got(data: bytes) | NoArtifact | Dangling

  datatype State = State(files: map<Where, bytes>, writers: seq<Writer>, readers: seq<Reader>)

  /** The output name, the hash, and the payload cap under which artifacts were built. */
  datatype Site = Site(out: bytes, crypto: Crypto, cap: nat)

  datatype Action =
    | OpenTemp(w: nat) | Fill(w: nat, upTo: nat) | Rename(w: nat) | PutObject(w: nat)
    | Unwind(w: nat) | Crash(w: nat)
    | ReadPath(r: nat) | ReadTarget(r: nat)

  function NameFor(site: Site, artifact: bytes): bytes {
    ShaName(site.out, site.crypto.sha256(artifact))
  }

  function Dest(site: Site, writer: Writer, first: bool): Where {
    if first && writer.mode.AppendSha? then At(NameFor(site, writer.artifact)) else At(site.out)
  }

  function Data(site: Site, writer: Writer, first: bool): bytes {
    if first then writer.artifact else PointerBytes(site.out, site.crypto.sha256(writer.artifact))
  }

  function After(writer: Writer, first: bool): Pc {
    if first && writer.mode.AppendSha? then Between else Finished
  }

  function WithPc(s: State, files: map<Where, bytes>, w: nat, pc: Pc): State
    requires w < |s.writers|
  {
    State(files, s.writers[w := s.writers[w].(pc := pc)], s.readers)
  }

  /** One step of the system; an action that is not enabled changes nothing. */
  function Step(site: Site, s: State, a: Action): State
  {
    match a
    case OpenTemp(w) =>
      if w < |s.writers| && s.writers[w].local && s.writers[w].pc in {Idle, Between}
      then WithPc(s, s.files[Temp(w) := []], w, Filling(s.writers[w].pc == Idle, 0)) else s
    case Fill(w, upTo) =>
      if w < |s.writers| && s.writers[w].pc.Filling?
         && s.writers[w].pc.written < upTo <= |Data(site, s.writers[w], s.writers[w].pc.first)|
      then
        var first := s.writers[w].pc.first;
        WithPc(s, s.files[Temp(w) := Data(site, s.writers[w], first)[..upTo]], w, Filling(first, upTo))
      else s
    case Rename(w) =>
      if w < |s.writers| && s.writers[w].pc.Filling? && Temp(w) in s.files
         && s.writers[w].pc.written == |Data(site, s.writers[w], s.writers[w].pc.first)|
      then
        var first := s.writers[w].pc.first;
        WithPc(s, s.files[Dest(site, s.writers[w], first) := s.files[Temp(w)]] - {Temp(w)}, w, After(s.writers[w], first))
      else s
    case PutObject(w) =>
      if w < |s.writers| && !s.writers[w].local && s.writers[w].pc in {Idle, Between}
      then
        var first := s.writers[w].pc == Idle;
        WithPc(s, s.files[Dest(site, s.writers[w], first) := Data(site, s.writers[w], first)], w, After(s.writers[w], first))
      else s
    case Unwind(w) =>
      if w < |s.writers| && s.writers[w].pc != Finished then WithPc(s, s.files - {Temp(w)}, w, Dead) else s
    case Crash(w) =>
      if w < |s.writers| && s.writers[w].pc != Finished then WithPc(s, s.files, w, Dead) else s
    case ReadPath(r) =>
      if r < |s.readers| && s.readers[r] == Start
      then s.(readers := s.readers[r := Opened(site, s.files)]) else s
    case ReadTarget(r) =>
      if r < |s.readers| && s.readers[r].HasPointer?
      then
        var t := At(s.readers[r].target);
        s.(readers := s.readers[r := if t in s.files then Got(s.files[t]) else Dangling])
      else s
  }

  /** What a reader knows after reading the output path. */
  function Opened(site: Site, files: map<Where, bytes>): Reader {
    if At(site.out) !in files then NoArtifact else
    match PointerTarget(files[At(site.out)])
    case None => Got(files[At(site.out)])
    case Some(name) => HasPointer(name)
  }

  function Stepping(site: Site): (State, Action) -> State {
    (s, a) => Step(site, s, a)
  }

  // ------------------------------------------------------------------ invariant

  /** The complete artifacts: those found at the start and those the writers publish. */
  ghost function Complete(legacy: set<bytes>, writers: seq<Writer>): set<bytes> {
    legacy + set w | 0 <= w < |writers| :: writers[w].artifact
  }

  /** `name` holds a complete artifact, the one its sha suffix was computed from. */
  ghost predicate Shelved(site: Site, complete: set<bytes>, files: map<Where, bytes>, name: bytes) {
    && name != site.out && At(name) in files
    && files[At(name)] in complete && NameFor(site, files[At(name)]) == name
  }

  /** The output path holds nothing, a complete artifact, or a pointer to a shelved one. */
  ghost predicate OutputSound(site: Site, complete: set<bytes>, files: map<Where, bytes>) {
    At(site.out) in files ==>
      var raw := files[At(site.out)];
      match PointerTarget(raw)
      case None => raw in complete
      case Some(name) => Shelved(site, complete, files, name)
  }

  ghost predicate WriterSound(site: Site, complete: set<bytes>, s: State, w: nat)
    requires w < |s.writers|
  {
    var writer := s.writers[w];
    && writer.artifact in complete
    && (writer.pc.Filling? ==>
          && writer.pc.written <= |Data(site, writer, writer.pc.first)|
          && Temp(w) in s.files && s.files[Temp(w)] == Data(site, writer, writer.pc.first)[..writer.pc.written])
    && (writer.pc == Between || (writer.pc.Filling? && !writer.pc.first) ==>
          Shelved(site, complete, s.files, NameFor(site, writer.artifact)))
  }

  ghost predicate ReaderSound(site: Site, complete: set<bytes>, s: State, r: nat)
    requires r < |s.readers|
  {
    match s.readers[r]
    case HasPointer(name) => Shelved(site, complete, s.files, name)
    case Got(data) => data in complete
    case Dangling => false
    case _ => true
  }

  ghost predicate Inv(site: Site, complete: set<bytes>, s: State) {
    && (forall a :: a in complete ==> Parse(a, site.cap).Success?)
    && OutputSound(site, complete, s.files)
    && (forall w :: 0 <= w < |s.writers| ==> WriterSound(site, complete, s, w))
    && (forall r :: 0 <= r < |s.readers| ==> ReaderSound(site, complete, s, r))
  }

  /** Pointers written for this output name are ones a reader recognises. */
  ghost predicate GoodName(site: Site) {
    |Stem(site.out)| + 18 <= MAX_POINTER && forall i :: 0 <= i < |Stem(site.out)| ==> NameByte(Stem(site.out)[i])
  }

  /** Everyone is about to start; the output path may hold an earlier publication. */
  ghost predicate Init(site: Site, legacy: set<bytes>, s: State) {
    && GoodName(site)
    && (forall a :: a in legacy ==> Parse(a, site.cap).Success?)
    && (forall w :: 0 <= w < |s.writers| ==> s.writers[w].pc == Idle && Parse(s.writers[w].artifact, site.cap).Success?)
    && (forall r :: 0 <= r < |s.readers| ==> s.readers[r] == Start)
    && OutputSound(site, legacy, s.files)
  }

  lemma InitImpliesInv(site: Site, legacy: set<bytes>, s: State)
    requires Init(site, legacy, s)
    ensures Inv(site, Complete(legacy, s.writers), s)
  {
    forall w | 0 <= w < |s.writers|
      ensures WriterSound(site, Complete(legacy, s.writers), s, w)
    {
      assert s.writers[w].pc == Idle;
    }
  }

  /** Writing a shelf name, or any temp file, leaves every shelved artifact shelved. */
  lemma ShelvesSurvive(site: Site, complete: set<bytes>, files: map<Where, bytes>, files': map<Where, bytes>)
    requires forall f :: f in files && f.At? && f.name != site.out ==> f in files'
    requires forall f :: f in files' && f.At? && f.name != site.out ==>
      (f in files && files'[f] == files[f]) || (files'[f] in complete && NameFor(site, files'[f]) == f.name)
    ensures forall name :: Shelved(site, complete, files, name) ==> Shelved(site, complete, files', name)
  {
  }

  /** Putting the data of a phase at its destination keeps the output path sound, and after the
      first phase of a pointer publication the artifact is on its shelf. */
  lemma PutKeepsSound(site: Site, complete: set<bytes>, files: map<Where, bytes>, writer: Writer, first: bool)
    requires GoodName(site) && OutputSound(site, complete, files)
    requires forall a :: a in complete ==> Parse(a, site.cap).Success?
    requires writer.artifact in complete
    requires !first ==> Shelved(site, complete, files, NameFor(site, writer.artifact))
    ensures
      var files' := files[Dest(site, writer, first) := Data(site, writer, first)];
      && OutputSound(site, complete, files')
      && (forall name :: Shelved(site, complete, files, name) ==> Shelved(site, complete, files', name))
      && (first && writer.mode.AppendSha? ==> Shelved(site, complete, files', NameFor(site, writer.artifact)))
  {
    hide PointerTarget, Parse;
    var files' := files[Dest(site, writer, first) := Data(site, writer, first)];
    ShaNameDiffers(site.out, site.crypto.sha256(writer.artifact));
    ShelvesSurvive(site, complete, files, files');
    PointerResolvesIff(site.out, site.crypto.sha256(writer.artifact));
    AcceptedIsNoPointer(writer.artifact, site.cap);
  }

  /** A step that changes at most the files of writer `w` and its program counter keeps the
      invariant, if shelves and output stay sound and `w` itself does. */
  lemma OthersUnaffected(site: Site, complete: set<bytes>, s: State, s': State, w: nat)
    requires Inv(site, complete, s) && w < |s.writers|
    requires |s'.writers| == |s.writers| && s'.writers == s.writers[w := s'.writers[w]] && s'.readers == s.readers
    requires OutputSound(site, complete, s'.files)
    requires forall name :: Shelved(site, complete, s.files, name) ==> Shelved(site, complete, s'.files, name)
    requires forall v :: v != w && Temp(v) in s.files ==> Temp(v) in s'.files && s'.files[Temp(v)] == s.files[Temp(v)]
    requires WriterSound(site, complete, s', w)
    ensures Inv(site, complete, s')
  {
    hide OutputSound, Shelved, PointerTarget, Parse, Data;
    forall v | 0 <= v < |s'.writers|
      ensures WriterSound(site, complete, s', v)
    {
      assert WriterSound(site, complete, s, v);
    }
    forall r | 0 <= r < |s'.readers|
      ensures ReaderSound(site, complete, s', r)
    {
      assert ReaderSound(site, complete, s, r);
    }
  }

  /** Steps that touch only the temp file of `w`: opening, filling, unwinding, crashing. */
  lemma TempOnly(site: Site, complete: set<bytes>, s: State, s': State, w: nat, pc: Pc)
    requires Inv(site, complete, s) && w < |s.writers|
    requires s' == WithPc(s, s'.files, w, pc)
    requires forall f :: f != Temp(w) ==> (f in s.files <==> f in s'.files)
    requires forall f :: f != Temp(w) && f in s.files ==> s'.files[f] == s.files[f]
    requires pc == Dead || (pc.Filling? && LocallySound(site, s, s', w, pc))
    ensures Inv(site, complete, s')
  {
    hide PointerTarget, Parse, NameFor;
    assert WriterSound(site, complete, s, w);
    ShelvesSurvive(site, complete, s.files, s'.files);
    OthersUnaffected(site, complete, s, s', w);
  }

  ghost predicate LocallySound(site: Site, s: State, s': State, w: nat, pc: Pc)
    requires w < |s.writers| && pc.Filling?
  {
    && pc.written <= |Data(site, s.writers[w], pc.first)|
    && Temp(w) in s'.files && s'.files[Temp(w)] == Data(site, s.writers[w], pc.first)[..pc.written]
    && (!pc.first ==> s.writers[w].pc == Between || (s.writers[w].pc.Filling? && !s.writers[w].pc.first))
  }

  /** Steps that publish: a rename over the destination, or a direct put. */
  lemma WriteStep(site: Site, complete: set<bytes>, s: State, s': State, w: nat, first: bool)
    requires GoodName(site) && Inv(site, complete, s) && w < |s.writers|
    requires first || s.writers[w].pc == Between || (s.writers[w].pc.Filling? && !s.writers[w].pc.first)
    requires s' == WithPc(s, s'.files, w, After(s.writers[w], first))
    requires
      var put := s.files[Dest(site, s.writers[w], first) := Data(site, s.writers[w], first)];
      s'.files == put || s'.files == put - {Temp(w)}
    ensures Inv(site, complete, s')
  {
    hide PointerTarget, Parse, Data, NameFor, GoodName;
    var put := s.files[Dest(site, s.writers[w], first) := Data(site, s.writers[w], first)];
    assert WriterSound(site, complete, s, w);
    PutKeepsSound(site, complete, s.files, s.writers[w], first);
    ShelvesSurvive(site, complete, put, s'.files);
    OthersUnaffected(site, complete, s, s', w);
  }

  lemma ReadStep(site: Site, complete: set<bytes>, s: State, s': State, r: nat)
    requires Inv(site, complete, s) && r < |s.readers|
    requires |s'.readers| == |s.readers| && s' == s.(readers := s.readers[r := s'.readers[r]])
    requires ReaderSound(site, complete, s', r)
    ensures Inv(site, complete, s')
  {
    hide OutputSound, Shelved, PointerTarget, Parse, Data;
    forall v | 0 <= v < |s'.writers|
      ensures WriterSound(site, complete, s', v)
    {
      assert WriterSound(site, complete, s, v);
    }
    forall q | 0 <= q < |s'.readers|
      ensures ReaderSound(site, complete, s', q)
    {
      assert q != r ==> ReaderSound(site, complete, s, q);
    }
  }

  lemma StepKeepsInv(site: Site, complete: set<bytes>, s: State, a: Action)
    requires GoodName(site) && Inv(site, complete, s)
    ensures Inv(site, complete, Step(site, s, a))
  {
    hide PointerTarget, Parse, GoodName, NameFor;
    var s' := Step(site, s, a);
    if s' != s {
      match a
      case OpenTemp(w) =>
        TempOnly(site, complete, s, s', w, Filling(s.writers[w].pc == Idle, 0));
      case Fill(w, upTo) =>
        TempOnly(site, complete, s, s', w, Filling(s.writers[w].pc.first, upTo));
      case Unwind(w) =>
        TempOnly(site, complete, s, s', w, Dead);
      case Crash(w) =>
        TempOnly(site, complete, s, s', w, Dead);
      case Rename(w) =>
        var data := Data(site, s.writers[w], s.writers[w].pc.first);
        assert WriterSound(site, complete, s, w);
        assert data[..|data|] == data;
        WriteStep(site, complete, s, s', w, s.writers[w].pc.first);
      case PutObject(w) =>
        WriteStep(site, complete, s, s', w, s.writers[w].pc == Idle);
      case ReadPath(r) =>
        ReadStep(site, complete, s, s', r);
      case ReadTarget(r) =>
        assert ReaderSound(site, complete, s, r);
        ReadStep(site, complete, s, s', r);
    }
  }

  /** The invariant holds after every run. */
  lemma RunKeepsInv(site: Site, complete: set<bytes>, s: State, actions: seq<Action>)
    requires GoodName(site) && Inv(site, complete, s)
    ensures Inv(site, complete, Run(Stepping(site), s, actions))
  {
    hide Inv, Step, GoodName;
    forall t, a | Inv(site, complete, t)
      ensures Inv(site, complete, Stepping(site)(t, a))
    {
      StepKeepsInv(site, complete, t, a);
    }
    RunKeeps(Stepping(site), t => Inv(site, complete, t), s, actions);
  }

  /** Crash-safe publication. After any run: a pointer at the output path names an existing,
      complete artifact whose own hash gives that name; no reader ever finds a dangling pointer;
      and what a reader got is, byte for byte, one complete artifact. */
  lemma PublicationIsCrashSafe(site: Site, legacy: set<bytes>, s: State, actions: seq<Action>)
    requires Init(site, legacy, s)
    ensures
      var t, complete := Run(Stepping(site), s, actions), Complete(legacy, s.writers);
      && (At(site.out) in t.files && PointerTarget(t.files[At(site.out)]).Some? ==>
            Shelved(site, complete, t.files, PointerTarget(t.files[At(site.out)]).value))
      && (At(site.out) in t.files && PointerTarget(t.files[At(site.out)]).None? ==> t.files[At(site.out)] in complete)
      && (forall r :: 0 <= r < |t.readers| ==> t.readers[r] != Dangling)
      && (forall r :: 0 <= r < |t.readers| && t.readers[r].Got? ==>
            t.readers[r].data in complete && Parse(t.readers[r].data, site.cap).Success?)
  {
    hide PointerTarget, Parse, GoodName;
    InitImpliesInv(site, legacy, s);
    RunKeepsInv(site, Complete(legacy, s.writers), s, actions);
    var t, complete := Run(Stepping(site), s, actions), Complete(legacy, s.writers);
    forall r | 0 <= r < |t.readers|
      ensures t.readers[r] != Dangling
      ensures t.readers[r].Got? ==> t.readers[r].data in complete
    {
      assert ReaderSound(site, complete, t, r);
    }
  }

  // ------------------------------------------------------------------ publications publish

  /** Only a publication in two steps is ever between them or in its second one. */
  ghost predicate Staged(w: Writer) {
    w.pc == Between || (w.pc.Filling? && !w.pc.first) ==> w.mode.AppendSha?
  }

  ghost predicate AllStaged(s: State) {
    forall w :: 0 <= w < |s.writers| ==> Staged(s.writers[w])
  }

  lemma StepKeepsStaged(site: Site, s: State, a: Action)
    requires AllStaged(s)
    ensures AllStaged(Step(site, s, a))
  {
    hide PointerTarget, Parse, ShaName;
  }

  /** No step changes what a writer writes, or how. */
  ghost predicate SameJobs(s: State, t: State) {
    && |t.writers| == |s.writers|
    && forall w :: 0 <= w < |s.writers| ==> t.writers[w] == s.writers[w].(pc := t.writers[w].pc)
  }

  lemma StepKeepsJobs(site: Site, s: State, a: Action)
    ensures SameJobs(s, Step(site, s, a))
  {
    hide PointerTarget, ShaName;
  }

  lemma RunKeepsStaged(site: Site, s: State, actions: seq<Action>)
    requires AllStaged(s)
    ensures AllStaged(Run(Stepping(site), s, actions)) && SameJobs(s, Run(Stepping(site), s, actions))
  {
    hide Step, AllStaged;
    forall t, a | AllStaged(t) && SameJobs(s, t)
      ensures AllStaged(Stepping(site)(t, a)) && SameJobs(s, Stepping(site)(t, a))
    {
      StepKeepsStaged(site, t, a);
      StepKeepsJobs(site, t, a);
    }
    RunKeeps(Stepping(site), t => AllStaged(t) && SameJobs(s, t), s, actions);
  }

  /** No other writer puts a different artifact under the name of this one, if it has a name of its
      own at all. */
  ghost predicate OwnName(site: Site, writers: seq<Writer>, w: nat)
    requires w < |writers|
  {
    forall v :: 0 <= v < |writers| && writers[v].mode.AppendSha? && writers[w].mode.AppendSha?
                && NameFor(site, writers[v].artifact) == NameFor(site, writers[w].artifact)
                ==> writers[v].artifact == writers[w].artifact
  }

  /** Once its artifact is on the shelf it stays there. */
  ghost predicate OnShelf(site: Site, s: State, w: nat)
    requires w < |s.writers|
  {
    var name := At(NameFor(site, s.writers[w].artifact));
    s.writers[w].pc == Between || (s.writers[w].pc.Filling? && !s.writers[w].pc.first) ==>
      name in s.files && s.files[name] == s.writers[w].artifact
  }

  lemma NameIsNotOut(site: Site, artifact: bytes)
    ensures NameFor(site, artifact) != site.out
  {
    ShaNameDiffers(site.out, site.crypto.sha256(artifact));
  }

  lemma StepKeepsOnShelf(site: Site, complete: set<bytes>, s: State, a: Action, w: nat)
    requires w < |s.writers| && OnShelf(site, s, w) && OwnName(site, s.writers, w) && AllStaged(s)
    requires Inv(site, complete, s)
    ensures OnShelf(site, Step(site, s, a), w)
  {
    hide PointerTarget, Parse, NameFor, OutputSound, Shelved;
    NameIsNotOut(site, s.writers[w].artifact);
    if a.Rename? && a.w < |s.writers| {
      assert WriterSound(site, complete, s, a.w);
      if s.writers[a.w].pc.Filling? {
        var data := Data(site, s.writers[a.w], s.writers[a.w].pc.first);
        assert data[..|data|] == data;
      }
    }
  }

  lemma RunKeepsOnShelf(site: Site, complete: set<bytes>, s: State, actions: seq<Action>, w: nat)
    requires w < |s.writers| && OnShelf(site, s, w) && OwnName(site, s.writers, w) && AllStaged(s)
    requires GoodName(site) && Inv(site, complete, s)
    ensures w < |Run(Stepping(site), s, actions).writers| && OnShelf(site, Run(Stepping(site), s, actions), w)
  {
    hide Step, AllStaged, Inv, GoodName, OnShelf;
    forall t, a | OnShelfInv(site, complete, s, t, w)
      ensures OnShelfInv(site, complete, s, Stepping(site)(t, a), w)
    {
      OwnNameKept(site, s, t, w);
      StepKeepsOnShelf(site, complete, t, a, w);
      StepKeepsStaged(site, t, a);
      StepKeepsJobs(site, t, a);
      StepKeepsInv(site, complete, t, a);
    }
    RunKeeps(Stepping(site), t => OnShelfInv(site, complete, s, t, w), s, actions);
  }

  ghost predicate OnShelfInv(site: Site, complete: set<bytes>, s: State, t: State, w: nat) {
    && SameJobs(s, t) && w < |t.writers| && OnShelf(site, t, w) && AllStaged(t) && Inv(site, complete, t)
  }

  lemma OwnNameKept(site: Site, s: State, t: State, w: nat)
    requires w < |s.writers| && OwnName(site, s.writers, w) && SameJobs(s, t)
    ensures OwnName(site, t.writers, w)
  {
  }

  /** What a finished publication leaves behind, in the files themselves. */
  ghost predicate Live(site: Site, files: map<Where, bytes>, mode: Versioning, artifact: bytes) {
    && At(site.out) in files
    && match mode
       case AlwaysOverwrite => files[At(site.out)] == artifact
       case AppendSha =>
         var name := ShaName(site.out, site.crypto.sha256(artifact));
         PointerTarget(files[At(site.out)]) == Some(name) && At(name) in files && files[At(name)] == artifact
  }

  /** A step that finishes a publication has just put its last file in place. */
  lemma FinishingStep(site: Site, complete: set<bytes>, s: State, a: Action, w: nat)
    requires GoodName(site) && Inv(site, complete, s) && AllStaged(s) && w < |s.writers| && OnShelf(site, s, w)
    requires s.writers[w].pc != Finished && Step(site, s, a).writers[w].pc == Finished
    ensures Live(site, Step(site, s, a).files, s.writers[w].mode, s.writers[w].artifact)
  {
    hide Parse, OutputSound, Shelved, PointerTarget, ShaName, PointerBytes;
    var writer := s.writers[w];
    NameIsNotOut(site, writer.artifact);
    PointerResolvesIff(site.out, site.crypto.sha256(writer.artifact));
    assert a.Rename? || a.PutObject?;
    assert a.w == w;
    if a.Rename? {
      assert WriterSound(site, complete, s, w);
      var data := Data(site, writer, writer.pc.first);
      assert data[..|data|] == data;
    }
  }

  ghost predicate FinishesBy(site: Site, t: State, a: Action, w: nat) {
    w < |t.writers| && w < |Step(site, t, a).writers| && t.writers[w].pc != Finished && Step(site, t, a).writers[w].pc == Finished
  }

  /** A publication publishes: after any run, the step with which a writer finishes leaves its own
      artifact live at the output path, provided no other writer puts a different artifact under
      the same eight digits. */
  lemma FinishedIsLive(site: Site, legacy: set<bytes>, s: State, actions: seq<Action>, a: Action, w: nat)
    requires Init(site, legacy, s) && w < |s.writers| && OwnName(site, s.writers, w)
    requires FinishesBy(site, Run(Stepping(site), s, actions), a, w)
    ensures Live(site, Step(site, Run(Stepping(site), s, actions), a).files, s.writers[w].mode, s.writers[w].artifact)
  {
    hide Step, PointerTarget, Parse, NameFor;
    var complete := Complete(legacy, s.writers);
    InitImpliesInv(site, legacy, s);
    RunKeepsInv(site, complete, s, actions);
    RunKeepsStaged(site, s, actions);
    RunKeepsOnShelf(site, complete, s, actions, w);
    FinishingStep(site, complete, Run(Stepping(site), s, actions), a, w);
  }

  /** A reader that starts at a live publication gets its artifact. */
  lemma LiveIsRead(site: Site, s: State, mode: Versioning, artifact: bytes, r: nat)
    requires Live(site, s.files, mode, artifact) && Parse(artifact, site.cap).Success?
    requires r < |s.readers| && s.readers[r] == Start
    ensures Run(Stepping(site), s, [ReadPath(r), ReadTarget(r)]).readers == s.readers[r := Got(artifact)]
  {
    hide Run, PointerTarget, Parse, ShaName;
    AcceptedIsNoPointer(artifact, site.cap);
    RunTwo(Stepping(site), s, ReadPath(r), ReadTarget(r));
  }

  // ------------------------------------------------------------------ left alone, a writer finishes

  /** One file write of writer `w`: the steps before the one that puts the file in place, and it. */
  lemma OneWrite(site: Site, s: State, w: nat) returns (front: seq<Action>, last: Action)
    requires w < |s.writers| && s.writers[w].pc in {Idle, Between}
    requires Staged(s.writers[w])
    ensures
      var writer, first, mid := s.writers[w], s.writers[w].pc == Idle, Run(Stepping(site), s, front);
      var name := if first && writer.mode.AppendSha? then NameFor(site, writer.artifact) else site.out;
      var data := if first then writer.artifact else PointerBytes(site.out, site.crypto.sha256(writer.artifact));
      var t := Step(site, mid, last);
      && w < |mid.writers| && mid.writers[w].pc != Finished
      && t.readers == s.readers && At(name) in t.files && t.files[At(name)] == data
      && t.writers == s.writers[w := writer.(pc := if first && writer.mode.AppendSha? then Between else Finished)]
      && forall f :: f != At(name) && f != Temp(w) ==> (f in t.files <==> f in s.files) && (f in s.files ==> t.files[f] == s.files[f])
  {
    hide PointerTarget, Parse, ShaName, Run, PointerBytes;
    var writer := s.writers[w];
    if !writer.local {
      front, last := [], PutObject(w);
      RunNothing(Stepping(site), s);
    } else {
      var data := Data(site, writer, writer.pc == Idle);
      last := Rename(w);
      if data == [] {
        front := [OpenTemp(w)];
        RunOne(Stepping(site), s, OpenTemp(w));
      } else {
        front := [OpenTemp(w), Fill(w, |data|)];
        assert data[..|data|] == data;
        RunTwo(Stepping(site), s, OpenTemp(w), Fill(w, |data|));
      }
    }
  }

  lemma RunLast(site: Site, s: State, front: seq<Action>, last: Action)
    ensures Run(Stepping(site), s, front + [last]) == Step(site, Run(Stepping(site), s, front), last)
  {
    hide Step;
    RunAppend(Stepping(site), s, front, [last]);
    RunOne(Stepping(site), Run(Stepping(site), s, front), last);
  }

  /** A writer left alone finishes, on a local disk as on an object store, in both modes, and its
      artifact is then live. */
  lemma LeftAloneFinishes(site: Site, s: State, w: nat) returns (actions: seq<Action>)
    requires GoodName(site) && w < |s.writers| && s.writers[w].pc == Idle
    ensures
      var t := Run(Stepping(site), s, actions);
      && t.writers == s.writers[w := s.writers[w].(pc := Finished)] && t.readers == s.readers
      && Live(site, t.files, s.writers[w].mode, s.writers[w].artifact)
  {
    hide Run, Step, PointerTarget, ShaName, PointerBytes, Stem;
    NameIsNotOut(site, s.writers[w].artifact);
    PointerResolvesIff(site.out, site.crypto.sha256(s.writers[w].artifact));
    var front, last := OneWrite(site, s, w);
    actions := front + [last];
    RunLast(site, s, front, last);
    if s.writers[w].mode.AppendSha? {
      var t := Run(Stepping(site), s, actions);
      var front', last' := OneWrite(site, t, w);
      RunLast(site, t, front', last');
      RunAppend(Stepping(site), s, actions, front' + [last']);
      actions := actions + (front' + [last']);
    }
  }

  // ------------------------------------------------------------------ names that collide

  /** Whatever the others do, the step with which `w` finishes leaves its own artifact live. */
  ghost predicate AlwaysLive(site: Site, s: State, w: nat)
    requires w < |s.writers|
  {
    forall actions, a :: FinishesBy(site, Run(Stepping(site), s, actions), a, w) ==>
      Live(site, Step(site, Run(Stepping(site), s, actions), a).files, s.writers[w].mode, s.writers[w].artifact)
  }

  /** A rival with the same eight digits, putting its artifact on the shelf between the two writes
      of `w`, has its own artifact read through the pointer of `w`. */
  lemma RivalTakesShelf(site: Site, legacy: set<bytes>, s: State, w: nat, v: nat) returns (actions: seq<Action>, last: Action)
    requires Init(site, legacy, s) && w < |s.writers| && v < |s.writers|
    requires s.writers[w].mode.AppendSha? && s.writers[v].mode.AppendSha?
    requires NameFor(site, s.writers[v].artifact) == NameFor(site, s.writers[w].artifact)
    requires s.writers[v].artifact != s.writers[w].artifact
    ensures FinishesBy(site, Run(Stepping(site), s, actions), last, w)
    ensures !Live(site, Step(site, Run(Stepping(site), s, actions), last).files, s.writers[w].mode, s.writers[w].artifact)
  {
    hide Run, Step, PointerTarget, ShaName, PointerBytes, OutputSound, Parse;
    NameIsNotOut(site, s.writers[w].artifact);
    var front, put := OneWrite(site, s, w);
    RunLast(site, s, front, put);
    var s1 := Run(Stepping(site), s, front + [put]);
    var front', put' := OneWrite(site, s1, v);
    RunLast(site, s1, front', put');
    var s2 := Run(Stepping(site), s1, front' + [put']);
    var front'', put'' := OneWrite(site, s2, w);
    RunAppend(Stepping(site), s, front + [put], front' + [put']);
    RunAppend(Stepping(site), s, (front + [put]) + (front' + [put']), front'');
    actions, last := (front + [put]) + (front' + [put']) + front'', put'';
  }

  /** Exactly when a publication is sure to publish its own artifact. */
  lemma AlwaysLiveIff(site: Site, legacy: set<bytes>, s: State, w: nat)
    requires Init(site, legacy, s) && w < |s.writers|
    ensures AlwaysLive(site, s, w) <==> OwnName(site, s.writers, w)
  {
    hide Init, Run, Step, Live, NameFor;
    if OwnName(site, s.writers, w) {
      forall actions, a | FinishesBy(site, Run(Stepping(site), s, actions), a, w)
        ensures Live(site, Step(site, Run(Stepping(site), s, actions), a).files, s.writers[w].mode, s.writers[w].artifact)
      {
        FinishedIsLive(site, legacy, s, actions, a, w);
      }
    } else {
      var v :| 0 <= v < |s.writers| && s.writers[v].mode.AppendSha? && s.writers[w].mode.AppendSha?
               && NameFor(site, s.writers[v].artifact) == NameFor(site, s.writers[w].artifact)
               && s.writers[v].artifact != s.writers[w].artifact;
      var actions, last := RivalTakesShelf(site, legacy, s, w, v);
    }
  }
}
