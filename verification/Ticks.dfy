/** Whole ticks: what one poll achieves for the files at rest, and what one unreadable sidecar does
    to everybody else. */
module Ticks {
  import opened Wrappers
  import opened Sequences
  import opened Runs
  import opened Registry
  import opened WatcherModel
  import opened WatcherSafety
  import opened WatcherScan
  import opened Availability
  import opened Freshness
  import opened Watcher

  // ------------------------------------------------------------------ one poll

  /** A poll starts one stat per watched name. */
  ghost predicate OnePerName(answers: seq<Answer>) {
    forall i, j :: 0 <= i < j < |answers| ==> answers[i].name != answers[j].name
  }

  function AsEvents(answers: seq<Answer>): seq<Event> {
    seq(|answers|, i requires 0 <= i < |answers| => AsEvent(answers[i]))
  }

  /** An answer is handled on the row of its own name alone. */
  lemma OutcomeIsLocal(cfg: Config, w: WState, a: Answer, e: Event, b: Answer)
    requires e == AsEvent(a) && a.name != b.name
    ensures AnswerOutcome(cfg, Apply(cfg, w, e), b) == AnswerOutcome(cfg, w, b)
  {
    hide BuildEntry, CheckSidecar, WithError;
    if b.name in w.states {
      if a.Answered? {
        OtherRowsStay(cfg, w, a.name, a.o, b.name);
      }
    } else {
      NoScanKeepsTables(cfg, w, e);
    }
  }

  /** What a poll does, judged on the state before it: all answers are handled, or those up to the
      first that does not end normally. */
  lemma {:induction false} PollStopsAtFirst(cfg: Config, w: WState, answers: seq<Answer>, k: nat)
    requires OnePerName(answers) && k <= |answers|
    requires forall j :: 0 <= j < k ==> AnswerOutcome(cfg, w, answers[j]) == Normal
    ensures k == |answers| ==> PollEvents(cfg, w, answers) == (AsEvents(answers), Normal)
    ensures k < |answers| && AnswerOutcome(cfg, w, answers[k]) != Normal ==>
      PollEvents(cfg, w, answers) == (AsEvents(answers[..k + 1]), AnswerOutcome(cfg, w, answers[k]))
    ensures k < |answers| ==>
      |PollEvents(cfg, w, answers).0| > k && PollEvents(cfg, w, answers).0[..k + 1] == AsEvents(answers[..k + 1])
    decreases k
  {
    hide AnswerOutcome, Apply;
    if answers != [] {
      var e := AsEvent(answers[0]);
      if k == 0 {
        assert answers[..1] == [answers[0]] && AsEvents(answers[..1]) == [e];
      } else {
        var w', rest := Apply(cfg, w, e), answers[1..];
        forall j | 0 <= j < |rest|
          ensures AnswerOutcome(cfg, w', rest[j]) == AnswerOutcome(cfg, w, answers[j + 1])
        {
          OutcomeIsLocal(cfg, w, answers[0], e, answers[j + 1]);
        }
        PollStopsAtFirst(cfg, w', rest, k - 1);
        assert AsEvents(answers) == [e] + AsEvents(rest);
        if k < |answers| {
          assert AsEvents(answers[..k + 1]) == [e] + AsEvents(rest[..k]);
        }
      }
    }
  }

  // ------------------------------------------------------------------ which answers raise

  predicate Suppressed(s: SidecarState, yamlMtime: Option<Mtime>) {
    s.unsupported && (yamlMtime.None? || s.unsupportedAt.None? || yamlMtime == s.unsupportedAt)
  }

  /** The artifact looks unchanged, and consulting its sidecar raises: the file cannot be probed, or
      is not UTF-8 text. */
  predicate Poisons(w: WState, a: Answer) {
    && a.Answered? && a.name in w.states && a.o.stat.Marked?
    && w.states[a.name].lastMarker == Seen(a.o.stat.m)
    && RaisesWhenChecked(a.o.sidecar) && !Suppressed(w.states[a.name].sidecar, a.o.yamlMtime)
  }

  /** New authentic bytes are read and memory or stack runs out on them. */
  predicate Exhausts(cfg: Config, w: WState, a: Answer) {
    && a.Answered? && Reads(w, a.name, a.o) && a.o.read.ReadOk?
    && w.states[a.name].lastSha != Some(cfg.crypto.sha256(a.o.read.data))
    && Authentic(cfg, a.o.read.data) && a.o.late.Exhausted?
  }

  lemma OutcomeIff(cfg: Config, w: WState, a: Answer)
    ensures AnswerOutcome(cfg, w, a) == Raises <==> Poisons(w, a)
    ensures AnswerOutcome(cfg, w, a) == Dies <==> Exhausts(cfg, w, a)
  {
    hide Authentic, WithError;
  }

  /** Exactly when a tick fails, in terms of the state its scan leaves: some recipe's sidecar is
      unreadable, and no answer handled before it ends the thread. */
  lemma TickFailsIff(cfg: Config, w: WState, input: TickInput)
    requires OnePerName(input.answers)
    ensures
      var scanned, events := Scan(w, input.listing), TickEvents(cfg, w, input).0;
      events[|events| - 1] == TickFailed <==>
      exists k :: 0 <= k < |input.answers| && Poisons(scanned, input.answers[k])
                  && forall j :: 0 <= j < k ==> !Exhausts(cfg, scanned, input.answers[j])
  {
    hide Scan, Poisons, Exhausts, PollEvents;
    var scanned, answers := Scan(w, input.listing), input.answers;
    forall a
      ensures AnswerOutcome(cfg, scanned, a) == Raises <==> Poisons(scanned, a)
      ensures AnswerOutcome(cfg, scanned, a) == Dies <==> Exhausts(cfg, scanned, a)
    {
      OutcomeIff(cfg, scanned, a);
    }
    var first := FirstNotNormal(cfg, scanned, answers);
    PollStopsAtFirst(cfg, scanned, answers, first);
    if first < |answers| {
      EventsAre(answers[..first + 1]);
    } else {
      EventsAre(answers);
    }
  }

  /** The answers behind the first that raises are not handled in this tick. */
  lemma AnswersBehindStarve(cfg: Config, w: WState, input: TickInput, k: nat)
    requires OnePerName(input.answers) && k < |input.answers|
    requires var scanned := Scan(w, input.listing);
      && Poisons(scanned, input.answers[k])
      && forall j :: 0 <= j < k ==> !Poisons(scanned, input.answers[j]) && !Exhausts(cfg, scanned, input.answers[j])
    ensures TickEvents(cfg, w, input)
         == ([Scanned(input.listing)] + AsEvents(input.answers[..k + 1]) + [TickFailed], true)
  {
    hide Scan, Poisons, Exhausts, PollEvents;
    var scanned := Scan(w, input.listing);
    forall j | 0 <= j <= k
      ensures AnswerOutcome(cfg, scanned, input.answers[j]) == if j == k then Raises else Normal
    {
      OutcomeIff(cfg, scanned, input.answers[j]);
    }
    PollStopsAtFirst(cfg, scanned, input.answers, k);
  }

  lemma EventsAre(answers: seq<Answer>)
    ensures |AsEvents(answers)| == |answers|
    ensures forall i :: 0 <= i < |answers| ==> AsEvents(answers)[i] != TickFailed
  {
  }

  lemma {:induction false} FirstNotNormal(cfg: Config, w: WState, answers: seq<Answer>) returns (k: nat)
    ensures k <= |answers| && forall j :: 0 <= j < k ==> AnswerOutcome(cfg, w, answers[j]) == Normal
    ensures k < |answers| ==> AnswerOutcome(cfg, w, answers[k]) != Normal
  {
    hide AnswerOutcome;
    k := 0;
    while k < |answers| && AnswerOutcome(cfg, w, answers[k]) == Normal
      invariant k <= |answers| && forall j :: 0 <= j < k ==> AnswerOutcome(cfg, w, answers[j]) == Normal
    {
      k := k + 1;
    }
  }

  // ------------------------------------------------------------------ rows that stay put

  /** No scan, and nothing for `n` but a sidecar that cannot be read. */
  predicate Harmless(e: Event, n: string, st: WatchState) {
    && !e.Scanned?
    && (e.Observed? && e.name == n ==>
          e.o.stat.Marked? && st.lastMarker == Seen(e.o.stat.m) && RaisesWhenChecked(e.o.sidecar) && !st.sidecar.unsupported)
  }

  lemma HarmlessStep(cfg: Config, w: WState, e: Event, n: string)
    requires n in w.states && n in w.registry && Harmless(e, n, w.states[n])
    ensures
      var w' := Apply(cfg, w, e);
      && n in w'.states && w'.states[n] == w.states[n]
      && n in w'.registry && Kept(w.registry[n], w'.registry[n])
  {
    hide Load, Genuine;
    if e.Observed? {
      ObservedFate(cfg, w, e, n);
      if e.name != n {
        OtherRowsStay(cfg, w, e.name, e.o, n);
      }
    }
  }

  lemma {:induction false} HarmlessRun(cfg: Config, w: WState, events: seq<Event>, n: string)
    requires n in w.states && n in w.registry && forall e :: e in events ==> Harmless(e, n, w.states[n])
    ensures
      var w' := Run(Applying(cfg), w, events);
      && n in w'.states && w'.states[n] == w.states[n]
      && n in w'.registry && Kept(w.registry[n], w'.registry[n])
    decreases |events|
  {
    hide Apply, Harmless;
    if events != [] {
      assert events[0] in events;
      HarmlessStep(cfg, w, events[0], n);
      HarmlessRun(cfg, Apply(cfg, w, events[0]), events[1..], n);
    }
  }

  // ------------------------------------------------------------------ one bad sidecar

  /** The answer for `n` shows marker `m` and a sidecar that raises when it is consulted. */
  ghost predicate Poisoned(input: TickInput, n: string, m: Marker) {
    exists k :: 0 <= k < |input.answers| && PoisonFor(input.answers[k], n, m)
  }

  predicate PoisonFor(a: Answer, n: string, m: Marker) {
    a.Answered? && a.name == n && a.o.stat == Marked(m) && RaisesWhenChecked(a.o.sidecar)
  }

  /** The row remembers `m` and its sidecar is not suppressed. */
  predicate Exposed(w: WState, n: string, m: Marker) {
    n in w.states && n in w.registry && w.states[n].lastMarker == Seen(m) && !w.states[n].sidecar.unsupported
  }

  ghost predicate Badly(input: TickInput, n: string, m: Marker) {
    && OnePerName(input.answers) && Poisoned(input, n, m)
    && forall a :: a in input.answers && a.Answered? ==> !a.o.late.Exhausted?
  }

  /** Such a tick fails: the answers behind the first unreadable sidecar are not handled, and the
      row of `n` stays as the scan left it, ready to fail the next tick. */
  lemma BadTickFails(cfg: Config, w: WState, input: TickInput, n: string, m: Marker)
    requires Exposed(Scan(w, input.listing), n, m) && Badly(input, n, m)
    ensures
      var scanned, (events, alive) := Scan(w, input.listing), TickEvents(cfg, w, input);
      var before := Run(Applying(cfg), w, events[..|events| - 1]);
      && alive && events != [] && events[|events| - 1] == TickFailed
      && Run(Applying(cfg), w, events) == TickRaised(cfg, before)
      && n in before.states && before.states[n] == scanned.states[n] && n in before.registry
      && before.errors == w.errors
  {
    hide Scan, PollEvents, ProcessStat, Run, Exposed;
    var scanned, answers := Scan(w, input.listing), input.answers;
    var k :| 0 <= k < |answers| && PoisonFor(answers[k], n, m);
    var first := FirstNotNormal(cfg, scanned, answers);
    ExposedRaises(cfg, scanned, answers[k], n, m);
    assert first <= k;
    assert answers[first] in answers;
    NoneDies(cfg, scanned, answers[first]);
    PollStopsAtFirst(cfg, scanned, answers, first);
    var polled := AsEvents(answers[..first + 1]);
    HarmlessPoll(cfg, scanned, answers[..first + 1], n, m, k);
    var front := [Scanned(input.listing)] + polled;
    assert TickEvents(cfg, w, input) == (front + [TickFailed], true);
    assert (front + [TickFailed])[..|front|] == front;
    RunFirst(Applying(cfg), w, Scanned(input.listing), polled);
    RunAppend(Applying(cfg), w, front, [TickFailed]);
    RunOne(Applying(cfg), Run(Applying(cfg), w, front), TickFailed);
    ErrorsCounted(cfg, w, front);
  }

  lemma ExposedRaises(cfg: Config, w: WState, a: Answer, n: string, m: Marker)
    requires Exposed(w, n, m) && PoisonFor(a, n, m)
    ensures AnswerOutcome(cfg, w, a) == Raises
  {
    OutcomeIff(cfg, w, a);
  }

  lemma NoneDies(cfg: Config, w: WState, a: Answer)
    requires a.Answered? ==> !a.o.late.Exhausted?
    ensures AnswerOutcome(cfg, w, a) != Dies
  {
    OutcomeIff(cfg, w, a);
  }

  lemma HarmlessPoll(cfg: Config, w: WState, answers: seq<Answer>, n: string, m: Marker, k: nat)
    requires Exposed(w, n, m)
    requires forall i :: 0 <= i < |answers| && answers[i].Answered? && answers[i].name == n ==> PoisonFor(answers[i], n, m)
    ensures
      var w' := Run(Applying(cfg), w, AsEvents(answers));
      n in w'.states && w'.states[n] == w.states[n] && n in w'.registry
  {
    hide Run;
    forall e | e in AsEvents(answers)
      ensures Harmless(e, n, w.states[n])
    {
      var i :| 0 <= i < |answers| && e == AsEvent(answers[i]);
    }
    HarmlessRun(cfg, w, AsEvents(answers), n);
  }

  predicate EndsTick(e: Event) {
    e.TickOk? || e.TickFailed?
  }

  /** Only the end of a tick moves the counter of failures. */
  lemma {:induction false} ErrorsCounted(cfg: Config, w: WState, events: seq<Event>)
    requires forall e :: e in events ==> !EndsTick(e)
    ensures Run(Applying(cfg), w, events).errors == w.errors
    decreases |events|
  {
    hide Apply;
    if events != [] {
      assert events[0] in events;
      ErrorsKept(cfg, w, events[0]);
      ErrorsCounted(cfg, Apply(cfg, w, events[0]), events[1..]);
    }
  }

  lemma ErrorsKept(cfg: Config, w: WState, e: Event)
    requires !EndsTick(e)
    ensures Apply(cfg, w, e).errors == w.errors
  {
    hide BuildEntry, CheckSidecar, WithError, ScanFile;
    if e.Scanned? && e.listing.Some? {
      ScanKeepsErrors(w, e.listing.value, |e.listing.value|);
    }
  }

  lemma {:induction false} ScanKeepsErrors(w: WState, files: seq<Probe>, n: nat)
    requires n <= |files|
    ensures ScanPrefix(w, files, n).0.errors == w.errors
  {
    if n > 0 {
      ScanKeepsErrors(w, files, n - 1);
    }
  }

  /** A scan that finds a name with an artifact path leaves its row alone. */
  lemma ScanKeepsRow(w: WState, listing: Option<seq<Probe>>, n: string)
    requires w.states.Keys <= w.registry.Keys && n in w.states && w.states[n].path != ""
    requires listing.Some? ==> DistinctPaths(listing.value) && n in Found(w, listing.value)
    ensures n in Scan(w, listing).states && Scan(w, listing).states[n] == w.states[n] && n in Scan(w, listing).registry
    ensures listing.None? || SameModel(w.registry[n], Scan(w, listing).registry[n])
  {
    hide ScanPrefix;
    if listing.Some? {
      ScanKeepsStates(w, listing.value, |listing.value|);
      FoundModelsSurvive(w, listing.value, n);
    }
  }

  /** Every scan of the ticks finds `n`. */
  ghost predicate ScansFind(cfg: Config, w: WState, ticks: seq<TickInput>, n: string)
    decreases |ticks|
  {
    ticks != [] ==>
      && (ticks[0].listing.Some? ==> DistinctPaths(ticks[0].listing.value) && n in Found(w, ticks[0].listing.value))
      && ScansFind(cfg, Run(Applying(cfg), w, TickEvents(cfg, w, ticks[0]).0), ticks[1..], n)
  }

  /** Every watched recipe is marked with the watcher's own failure. */
  ghost predicate AllMarked(w: WState) {
    forall x :: x in w.states ==> x in w.registry && w.registry[x].error == Some(WatcherUnhealthy)
  }

  lemma RaisedMarksAll(cfg: Config, w: WState)
    requires Inv(cfg, w)
    ensures
      var w' := TickRaised(cfg, w);
      && w'.states == w.states && w'.errors == w.errors + 1 && w'.registry.Keys == w.registry.Keys
      && (w'.errors >= cfg.threshold ==> AllMarked(w'))
  {
    hide Inv;
    RowGivesDomain(cfg, w);
  }

  lemma OneBadTick(cfg: Config, w: WState, input: TickInput, n: string, m: Marker)
    requires Inv(cfg, w) && Exposed(w, n, m) && w.states[n].path != "" && Badly(input, n, m)
    requires input.listing.Some? ==> DistinctPaths(input.listing.value) && n in Found(w, input.listing.value)
    ensures
      var w' := Run(Applying(cfg), w, TickEvents(cfg, w, input).0);
      && TickEvents(cfg, w, input).1
      && Inv(cfg, w') && Exposed(w', n, m) && w'.states[n].path != ""
      && w'.errors == w.errors + 1 && (w'.errors >= cfg.threshold ==> AllMarked(w'))
  {
    hide Inv, Scan, Badly, Run, TickRaised, AllMarked;
    RowGivesDomain(cfg, w);
    ScanKeepsRow(w, input.listing, n);
    BadTickFails(cfg, w, input, n, m);
    var events := TickEvents(cfg, w, input).0;
    RunKeepsInv(cfg, w, events);
    RunKeepsInv(cfg, w, events[..|events| - 1]);
    RaisedMarksAll(cfg, Run(Applying(cfg), w, events[..|events| - 1]));
  }

  /** One recipe whose artifact rests and whose sidecar raises when it is consulted fails every tick,
      whatever the other recipes do short of exhausting memory or stack; from the tick on at which the failures reach the threshold, every
      watched recipe is marked unhealthy after every tick. */
  lemma {:induction false} OneBadSidecarMarksAll(cfg: Config, w: WState, ticks: seq<TickInput>, n: string, m: Marker)
    requires Inv(cfg, w) && Exposed(w, n, m) && w.states[n].path != ""
    requires ScansFind(cfg, w, ticks, n) && forall i :: 0 <= i < |ticks| ==> Badly(ticks[i], n, m)
    ensures
      var w' := Run(Applying(cfg), w, LoopEvents(cfg, w, ticks));
      && w'.errors == w.errors + |ticks|
      && (ticks != [] && w'.errors >= cfg.threshold ==> AllMarked(w'))
    decreases |ticks|
  {
    hide Inv, Exposed, Badly, TickEvents, AllMarked, Applying;
    if ticks != [] {
      var events := TickEvents(cfg, w, ticks[0]).0;
      var w1 := Run(Applying(cfg), w, events);
      OneBadTick(cfg, w, ticks[0], n, m);
      OneBadSidecarMarksAll(cfg, w1, ticks[1..], n, m);
      var rest := LoopEvents(cfg, w1, ticks[1..]);
      RunAppend(Applying(cfg), w, events, rest);
      if |ticks| == 1 {
        assert rest == [] && events + rest == events;
      }
    }
  }

  /** The failed ticks since the last good one, on top of `before` if there was none. */
  function FailedSince(before: nat, events: seq<Event>): nat
    decreases |events|
  {
    if events == [] then before else
    var e := events[|events| - 1];
    if e.TickOk? then 0 else FailedSince(before, events[..|events| - 1]) + if e.TickFailed? then 1 else 0
  }

  /** The counter counts consecutive failures: after any run it is the number of failed ticks since
      the last good one. */
  lemma {:induction false} ErrorsAreConsecutive(cfg: Config, w: WState, events: seq<Event>)
    ensures Run(Applying(cfg), w, events).errors == FailedSince(w.errors, events)
    decreases |events|
  {
    hide Apply, Run;
    if events == [] {
      RunNothing(Applying(cfg), w);
    } else {
      var init, e := events[..|events| - 1], events[|events| - 1];
      assert events == init + [e];
      ErrorsAreConsecutive(cfg, w, init);
      RunAppend(Applying(cfg), w, init, [e]);
      RunOne(Applying(cfg), Run(Applying(cfg), w, init), e);
      ErrorsMove(cfg, Run(Applying(cfg), w, init), e);
    }
  }

  lemma ErrorsMove(cfg: Config, w: WState, e: Event)
    ensures Apply(cfg, w, e).errors == match e case TickOk => 0 case TickFailed => w.errors + 1 case _ => w.errors
  {
    hide Scan, ProcessStat, WithError;
    if !EndsTick(e) {
      ErrorsKept(cfg, w, e);
    }
  }

  // ------------------------------------------------------------------ what a tick achieves

  lemma {:induction false} AfterIsRun(cfg: Config, w: WState, run: seq<Timed>)
    ensures After(cfg, w, run) == Run(Applying(cfg), w, Freshness.Events(run))
    decreases |run|
  {
    hide Apply;
    if run != [] {
      AfterIsRun(cfg, Apply(cfg, w, run[0].e), run[1..]);
      assert Freshness.Events(run)[1..] == Freshness.Events(run[1..]);
    }
  }

  /** A schedule splits into the schedule of a first part and that of the rest. */
  lemma {:induction false} PlausibleSplits(cfg: Config, world: World, w: WState, since: nat, now: nat, a: seq<Timed>, b: seq<Timed>)
    requires Plausible(cfg, world, w, since, now, a + b)
    ensures Plausible(cfg, world, w, since, now, a)
    ensures Plausible(cfg, world, After(cfg, w, a), since, EndOf(now, a), b)
    ensures After(cfg, w, a + b) == After(cfg, After(cfg, w, a), b)
    decreases |a|
  {
    hide Apply, Consistent;
    if a == [] {
      assert a + b == b;
    } else {
      assert (a + b)[1..] == a[1..] + b && (a + b)[0] == a[0];
      PlausibleSplits(cfg, world, Apply(cfg, w, a[0].e), since, a[0].readAt, a[1..], b);
      assert EndOf(now, a) == EndOf(a[0].readAt, a[1..]);
    }
  }

  /** The events of a tick around the answer with number `k`. */
  lemma TickAround(cfg: Config, w: WState, input: TickInput, k: nat)
    requires OnePerName(input.answers) && k < |input.answers|
    requires forall j :: 0 <= j < k ==> AnswerOutcome(cfg, Scan(w, input.listing), input.answers[j]) == Normal
    ensures
      var events, n := TickEvents(cfg, w, input).0, input.answers[k].name;
      && |events| > k + 1 && events[0] == Scanned(input.listing) && events[k + 1] == AsEvent(input.answers[k])
      && events[1..k + 1] == AsEvents(input.answers[..k])
      && (forall i :: 1 <= i < |events| && i != k + 1 ==>
            !events[i].Scanned? && (events[i].Observed? ==> events[i].name != n))
  {
    hide Scan, AnswerOutcome, PollEvents;
    var scanned, answers, n := Scan(w, input.listing), input.answers, input.answers[k].name;
    var polled := PollEvents(cfg, scanned, answers).0;
    PollStopsAtFirst(cfg, scanned, answers, k);
    var first := FirstNotNormal(cfg, scanned, answers);
    PollStopsAtFirst(cfg, scanned, answers, first);
    var upTo := if first < |answers| then first + 1 else first;
    assert answers[..|answers|] == answers;
    assert polled == AsEvents(answers[..upTo]);
    assert polled[..k] == polled[..k + 1][..k] == AsEvents(answers[..k]);
    var events := TickEvents(cfg, w, input).0;
    assert events[..|polled| + 1] == [Scanned(input.listing)] + polled;
    assert events[1..k + 1] == polled[..k];
    forall i | 1 <= i < |events| && i != k + 1
      ensures !events[i].Scanned? && (events[i].Observed? ==> events[i].name != n)
    {
      if i <= |polled| {
        assert events[i] == polled[i - 1] == AsEvent(answers[i - 1]);
      }
    }
  }

  /** Progress of a whole tick, with its stats overlapping as they may: an answered recipe whose
      file rests from its stat to its read, and whose content is authentic and builds, is served
      after the tick with that content, provided no answer handled before its own raises. */
  lemma {:induction false} TickServes(
    cfg: Config, world: World, w: WState, path: string, since: nat, now: nat, input: TickInput, run: seq<Timed>, k: nat)
    requires Inv(cfg, w) && Recorded(cfg, world, w, path, since, now) && SteadyMarkers(cfg, world, path, since)
    requires path != "" && since <= now && CollisionFree(cfg, world, path) && EmptyPathInert(cfg, world)
    requires OnePerName(input.answers) && k < |input.answers| && input.answers[k].Answered?
    requires Freshness.Events(run) == TickEvents(cfg, w, input).0 && Plausible(cfg, world, w, since, now, run)
    requires forall j :: 0 <= j < k ==> AnswerOutcome(cfg, Scan(w, input.listing), input.answers[j]) == Normal
    requires var n, scanned := input.answers[k].name, Scan(w, input.listing);
      n in scanned.states && scanned.states[n].path == path && scanned.states[n].recipe.Some?
    requires var o := input.answers[k].o;
      o.stat.Marked? && o.read.ReadOk? && o.late.Builds? && Authentic(cfg, o.read.data)
    requires k + 1 < |run| &&
      forall s :: run[k + 1].statAt <= s <= run[k + 1].readAt ==> world.file(path, s) == world.file(path, run[k + 1].statAt)
    ensures
      var w', n, t := After(cfg, w, run), input.answers[k].name, run[k + 1].readAt;
      && There(world, path, t)
      && Serving(w', n) && w'.registry[n].sha == Some(cfg.crypto.sha256(DataAt(world, path, t)))
      && n in w'.states && w'.states[n].lastMarker == Seen(MarkerAt(world, path, t))
  {
    hide Authentic, Content, Inv, Recorded, SteadyMarkers, CollisionFree, EmptyPathInert, AnswerOutcome, Scan, Apply;
    hide Plausible, Consistent, After, Run, TickEvents;
    var n, before, t, after := input.answers[k].name, run[..k + 1], run[k + 1], run[k + 2..];
    assert run == before + ([t] + after);
    TickAround(cfg, w, input, k);
    PlausibleSplits(cfg, world, w, since, now, before, [t] + after);
    var v := After(cfg, w, before);
    PlausibleSplits(cfg, world, v, since, EndOf(now, before), [t], after);
    RunKeepsRecord(cfg, world, w, path, since, now, before);
    RowBefore(cfg, w, input, before, k);
    ServedByAnswer(cfg, world, v, path, since, EndOf(now, before), n, t);
    var v' := After(cfg, v, [t]);
    AfterIsRun(cfg, v', after);
    forall e | e in Freshness.Events(after)
      ensures Harmless(e, n, v'.states[n])
    {
      var i :| 0 <= i < |after| && e == Freshness.Events(after)[i];
      assert e == Freshness.Events(run)[k + 2 + i];
    }
    HarmlessRun(cfg, v', Freshness.Events(after), n);
  }

  /** From the YAML file to the served model in one tick: a recipe that the tick's own scan
      discovers, or recovers from a stub, is served from its output path after the tick, if its
      file rests from stat to read and builds, and no answer handled before its own raises. */
  lemma {:induction false} TickServesListed(
    cfg: Config, world: World, w: WState, since: nat, now: nat, input: TickInput, i: nat, r: Recipe, run: seq<Timed>, k: nat)
    requires Inv(cfg, w) && Recorded(cfg, world, w, r.outputPath, since, now) && SteadyMarkers(cfg, world, r.outputPath, since)
    requires r.outputPath != "" && since <= now && CollisionFree(cfg, world, r.outputPath) && EmptyPathInert(cfg, world)
    requires input.listing.Some? && DistinctPaths(input.listing.value) && i < |input.listing.value|
    requires RecipeOf(w.cache, input.listing.value[i]) == Some(r)
    requires forall j :: 0 <= j < i ==> !HasRecipe(w, input.listing.value[j], r.name)
    requires r.name in w.states ==> w.states[r.name].path == ""
    requires OnePerName(input.answers) && k < |input.answers| && input.answers[k].Answered? && input.answers[k].name == r.name
    requires Freshness.Events(run) == TickEvents(cfg, w, input).0 && Plausible(cfg, world, w, since, now, run)
    requires forall j :: 0 <= j < k ==> AnswerOutcome(cfg, Scan(w, input.listing), input.answers[j]) == Normal
    requires var o := input.answers[k].o;
      o.stat.Marked? && o.read.ReadOk? && o.late.Builds? && Authentic(cfg, o.read.data)
    requires k + 1 < |run| && forall s :: run[k + 1].statAt <= s <= run[k + 1].readAt ==>
      world.file(r.outputPath, s) == world.file(r.outputPath, run[k + 1].statAt)
    ensures
      var w', t := After(cfg, w, run), run[k + 1].readAt;
      && There(world, r.outputPath, t)
      && Serving(w', r.name) && w'.registry[r.name].sha == Some(cfg.crypto.sha256(DataAt(world, r.outputPath, t)))
      && r.name in w'.states && w'.states[r.name].lastMarker == Seen(MarkerAt(world, r.outputPath, t))
  {
    hide Authentic, Content, Inv, Recorded, SteadyMarkers, CollisionFree, EmptyPathInert, AnswerOutcome, Scan, Apply;
    hide Plausible, After, TickEvents, OnePerName;
    RowGivesDomain(cfg, w);
    RecipeIsAdopted(w, input.listing.value, i, r);
    TickServes(cfg, world, w, r.outputPath, since, now, input, run, k);
  }

  /** Before its own answer the row of `n` is as the scan left it. */
  lemma RowBefore(cfg: Config, w: WState, input: TickInput, before: seq<Timed>, k: nat)
    requires Inv(cfg, w) && OnePerName(input.answers) && k < |input.answers| && |before| == k + 1
    requires Freshness.Events(before) == [Scanned(input.listing)] + AsEvents(input.answers[..k])
    requires input.answers[k].name in Scan(w, input.listing).states
    ensures
      var v, n := After(cfg, w, before), input.answers[k].name;
      n in v.states && v.states[n] == Scan(w, input.listing).states[n]
  {
    hide Inv, Scan, Run;
    var n, scanned := input.answers[k].name, Scan(w, input.listing);
    AfterIsRun(cfg, w, before);
    RunFirst(Applying(cfg), w, Scanned(input.listing), AsEvents(input.answers[..k]));
    StepKeepsInv(cfg, w, Scanned(input.listing));
    RowGivesDomain(cfg, scanned);
    forall e | e in AsEvents(input.answers[..k])
      ensures Harmless(e, n, scanned.states[n])
    {
      var i :| 0 <= i < k && e == AsEvent(input.answers[i]);
    }
    HarmlessRun(cfg, scanned, AsEvents(input.answers[..k]), n);
  }

  lemma ServedByAnswer(cfg: Config, world: World, w: WState, path: string, since: nat, now: nat, n: string, t: Timed)
    requires Inv(cfg, w) && Recorded(cfg, world, w, path, since, now) && SteadyMarkers(cfg, world, path, since)
    requires since <= now && n in w.states && w.states[n].path == path && w.states[n].recipe.Some?
    requires Plausible(cfg, world, w, since, now, [t]) && t.e.Observed? && t.e.name == n && t.e.o.stat.Marked?
    requires forall s :: t.statAt <= s <= t.readAt ==> world.file(path, s) == world.file(path, t.statAt)
    requires t.e.o.read.ReadOk? && t.e.o.late.Builds? && Authentic(cfg, t.e.o.read.data)
    ensures
      var w' := After(cfg, w, [t]);
      && There(world, path, t.readAt)
      && Serving(w', n) && w'.registry[n].sha == Some(cfg.crypto.sha256(DataAt(world, path, t.readAt)))
      && n in w'.states && w'.states[n].lastMarker == Seen(MarkerAt(world, path, t.readAt))
  {
    hide Authentic, Content, Inv, Recorded, SteadyMarkers, Apply;
    assert [t][1..] == [] && After(cfg, Apply(cfg, w, t.e), []) == Apply(cfg, w, t.e);
    OneObservationServes(cfg, world, w, path, since, now, n, t);
  }
}
