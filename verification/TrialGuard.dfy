/** The per-class budgets of a search that runs trials on several threads. What a class still lacks
    is queued before the search; a trial checks the budget when it starts and is counted only when
    it has been scored. */
module TrialGuard {
  import opened Sequences
  import opened Runs
  import Budgets

  type Tally = map<string, nat>

  function Count(t: Tally, c: string): nat {
    if c in t then t[c] else 0
  }

  // ------------------------------------------------------------------ before the search

  /** A trial already in the study: was it completed, and for which class? */
  datatype Past = Past(complete: bool, class_: string)

  function CompletedOf(past: seq<Past>, c: string): nat {
    CountIf(past, t => t == Past(true, c))
  }

  /** Completed trials of a resumed study, per class of this search. */
  method SeedCounters(classes: seq<string>, past: seq<Past>) returns (t: Tally)
    ensures t.Keys == set c | c in classes
    ensures forall c :: c in classes ==> t[c] == CompletedOf(past, c)
  {
    t := map c | c in classes :: 0;
    for i := 0 to |past|
      invariant t.Keys == set c | c in classes
      invariant forall c :: c in classes ==> t[c] == CompletedOf(past[..i], c)
    {
      assert past[..i + 1][..i] == past[..i];
      if past[i].complete && past[i].class_ in t {
        t := t[past[i].class_ := t[past[i].class_] + 1];
      }
    }
    assert past[..|past|] == past;
  }

  function Occurrences(queue: seq<string>, c: string): nat {
    CountIf(queue, name => name == c)
  }

  function Lacking(budget: string -> nat, completed: Tally, c: string): nat {
    if budget(c) > Count(completed, c) then budget(c) - Count(completed, c) else 0
  }

  /** As many trials of each class, in class order, as it lacks. */
  function Queue(classes: seq<string>, budget: string -> nat, completed: Tally): seq<string> {
    if classes == [] then [] else
    var c := classes[|classes| - 1];
    Queue(classes[..|classes| - 1], budget, completed) + seq(Lacking(budget, completed, c), _ => c)
  }

  function TotalLacking(classes: seq<string>, budget: string -> nat, completed: Tally): nat {
    if classes == [] then 0 else
    TotalLacking(classes[..|classes| - 1], budget, completed) + Lacking(budget, completed, classes[|classes| - 1])
  }

  /** A search of one class needs no queue: its trials have no choice. */
  function InitialQueue(classes: seq<string>, budget: string -> nat, completed: Tally): seq<string> {
    if |classes| > 1 then Queue(classes, budget, completed) else []
  }

  /** Queue what each class still lacks, if there is more than one class. */
  method EnqueueRemaining(classes: seq<string>, budget: string -> nat, completed: Tally) returns (queue: seq<string>)
    requires Distinct(classes) && forall c :: c in classes ==> c in completed
    ensures queue == InitialQueue(classes, budget, completed)
    ensures |classes| <= 1 ==> queue == []
    ensures |classes| > 1 ==> |queue| == TotalLacking(classes, budget, completed)
    ensures |classes| > 1 ==> forall c :: c in classes ==>
      Occurrences(queue, c) + completed[c] == Max(budget(c), completed[c])
  {
    queue := [];
    if |classes| <= 1 {
      return;
    }
    for i := 0 to |classes|
      invariant queue == Queue(classes[..i], budget, completed)
    {
      var name := classes[i];
      var remaining := if budget(name) > completed[name] then budget(name) - completed[name] else 0;
      ghost var before := queue;
      for k := 0 to remaining
        invariant queue == before + seq(k, _ => name)
      {
        queue := queue + [name];
      }
      assert classes[..i + 1][..i] == classes[..i];
    }
    assert classes[..|classes|] == classes;
    forall c | c in classes
      ensures Occurrences(queue, c) == Lacking(budget, completed, c)
    {
      QueueCounts(classes, budget, completed, c);
    }
    QueueLength(classes, budget, completed);
  }

  lemma {:induction false} QueueLength(classes: seq<string>, budget: string -> nat, completed: Tally)
    ensures |Queue(classes, budget, completed)| == TotalLacking(classes, budget, completed)
  {
    if classes != [] {
      QueueLength(classes[..|classes| - 1], budget, completed);
    }
  }

  /** Every class is queued exactly as often as it lacks trials. */
  lemma {:induction false} QueueCounts(classes: seq<string>, budget: string -> nat, completed: Tally, c: string)
    requires Distinct(classes)
    ensures Occurrences(Queue(classes, budget, completed), c) == if c in classes then Lacking(budget, completed, c) else 0
  {
    hide CountIf, Lacking;
    if classes == [] {
      CountNothing((name: string) => name == c);
    } else {
      var init, d := classes[..|classes| - 1], classes[|classes| - 1];
      assert classes == init + [d] && d !in init;
      QueueCounts(init, budget, completed, c);
      CountAppend(Queue(init, budget, completed), seq(Lacking(budget, completed, d), _ => d), name => name == c);
      CountRepeat(Lacking(budget, completed, d), d, name => name == c);
    }
  }

  // ------------------------------------------------------------------ the search as a state machine

  datatype Worker = Free | Chosen(c: string) | Running(c: string) | Scored(c: string)

  /** `queue` holds the classes of the trials still waiting in the study, first in, first out;
      `started` counts the trials that the study has handed out. */
  datatype State = State(done: Tally, workers: seq<Worker>, queue: seq<string>, started: nat)

  datatype Config = Config(classes: seq<string>, budget: string -> nat, trials: nat)

  datatype Action =
    | Choose(i: nat, c: string)         // a trial starts: the queue's, or one with a suggested class
    | Check(i: nat)                     // the lock-protected comparison with the budget
    | Learn(i: nat, scored: bool)       // training and scoring succeed, or the trial fails or is pruned
    | Finish(i: nat)                    // the lock-protected increment

  function Tail(queue: seq<string>): seq<string> {
    if queue == [] then [] else queue[1..]
  }

  /** A worker's next step; a step that is not enabled changes nothing. */
  function Step(cfg: Config, s: State, a: Action): State {
    if a.i >= |s.workers| then s else
    match (a, s.workers[a.i])
    case (Choose(i, suggested), Free) =>
      var c := if s.queue != [] then s.queue[0] else suggested;
      if s.started < cfg.trials && (s.queue != [] || c in cfg.classes) then
        s.(workers := s.workers[i := Chosen(c)], queue := Tail(s.queue), started := s.started + 1)
      else s
    case (Check(i), Chosen(c)) =>
      s.(workers := s.workers[i := if Count(s.done, c) >= cfg.budget(c) then Free else Running(c)])
    case (Learn(i, scored), Running(c)) => s.(workers := s.workers[i := if scored then Scored(c) else Free])
    case (Finish(i), Scored(c)) => s.(done := s.done[c := Count(s.done, c) + 1], workers := s.workers[i := Free])
    case _ => s
  }

  function Stepping(cfg: Config): (State, Action) -> State {
    (s, a) => Step(cfg, s, a)
  }

  function Start(seeded: Tally, p: nat, queue: seq<string>): State {
    State(seeded, seq(p, _ => Free), queue, 0)
  }

  /** The most trials of class `c` among the next `n`. */
  function Starts(queue: seq<string>, n: nat, c: string): nat {
    if n == 0 then 0
    else if queue == [] then n
    else (if queue[0] == c then 1 else 0) + Starts(queue[1..], n - 1, c)
  }

  /** Past the check and not yet counted. */
  predicate InFlight(w: Worker, c: string) {
    w == Running(c) || w == Scored(c)
  }

  function Flying(ws: seq<Worker>, c: string): nat {
    CountIf(ws, w => InFlight(w, c))
  }

  function Waiting(ws: seq<Worker>, c: string): nat {
    CountIf(ws, w => w == Chosen(c))
  }

  /** What has been counted and what will be, unless it fails. */
  function Load(s: State, c: string): nat {
    Count(s.done, c) + Flying(s.workers, c)
  }

  // ------------------------------------------------------------------ no run does worse

  /** The concurrency bound, and the bound by what can still be started: `most` from the start on. */
  ghost predicate Bounded(cfg: Config, seeded: nat, most: nat, p: nat, s: State, c: string) {
    && |s.workers| == p && s.started <= cfg.trials
    && Load(s, c) <= Max(seeded, cfg.budget(c) + p - 1)
    && Load(s, c) + Waiting(s.workers, c) + Starts(s.queue, cfg.trials - s.started, c) <= most
  }

  lemma ChoosingUsesStarts(queue: seq<string>, n: nat, suggested: string, c: string)
    requires n > 0
    ensures
      var chosen := if queue != [] then queue[0] else suggested;
      Starts(Tail(queue), n - 1, c) + (if chosen == c then 1 else 0) <= Starts(queue, n, c)
  {
    if queue == [] && n > 1 {
      assert Starts([], n - 1, c) == n - 1;
    }
  }

  lemma StepKeepsBound(cfg: Config, seeded: nat, most: nat, p: nat, s: State, a: Action, c: string)
    requires Bounded(cfg, seeded, most, p, s, c)
    ensures Bounded(cfg, seeded, most, p, Step(cfg, s, a), c)
  {
    hide CountIf, Starts;
    var s' := Step(cfg, s, a);
    if a.i < p && s' != s {
      CountUpdate(s.workers, a.i, s'.workers[a.i], w => InFlight(w, c));
      CountUpdate(s.workers, a.i, s'.workers[a.i], w => w == Chosen(c));
      CountAtMost(s.workers, w => InFlight(w, c));
      assert s'.workers == s.workers[a.i := s'.workers[a.i]];
      if a.Choose? {
        ChoosingUsesStarts(s.queue, cfg.trials - s.started, a.c, c);
      }
    }
  }

  lemma RunKeepsBound(cfg: Config, seeded: nat, most: nat, p: nat, s: State, actions: seq<Action>, c: string)
    requires Bounded(cfg, seeded, most, p, s, c)
    ensures Bounded(cfg, seeded, most, p, Run(Stepping(cfg), s, actions), c)
  {
    hide Bounded, Step;
    forall t, a | Bounded(cfg, seeded, most, p, t, c)
      ensures Bounded(cfg, seeded, most, p, Stepping(cfg)(t, a), c)
    {
      StepKeepsBound(cfg, seeded, most, p, t, a, c);
    }
    RunKeeps(Stepping(cfg), t => Bounded(cfg, seeded, most, p, t, c), s, actions);
  }

  /** With `p` threads, however they interleave and whichever trials fail: completed and in-flight
      trials of a class never exceed its budget by more than `p - 1`, nor its seed and the trials
      of it that queue and suggestions can start. */
  lemma OvershootIsBounded(cfg: Config, seeded: Tally, p: nat, queue: seq<string>, actions: seq<Action>, c: string)
    requires p >= 1
    ensures
      var s := Run(Stepping(cfg), Start(seeded, p, queue), actions);
      && Load(s, c) <= Max(Count(seeded, c), cfg.budget(c) + p - 1)
      && Load(s, c) <= Count(seeded, c) + Starts(queue, cfg.trials, c)
  {
    hide Step, CountIf;
    var s := Start(seeded, p, queue);
    CountNone(s.workers, w => InFlight(w, c));
    CountNone(s.workers, w => w == Chosen(c));
    RunKeepsBound(cfg, Count(seeded, c), Count(seeded, c) + Starts(queue, cfg.trials, c), p, s, actions, c);
  }

  ghost predicate Exhausted(cfg: Config, s: State, c: string, n: nat) {
    Count(s.done, c) == n >= cfg.budget(c) && forall i :: 0 <= i < |s.workers| ==> !InFlight(s.workers[i], c)
  }

  lemma StepStaysExhausted(cfg: Config, s: State, a: Action, c: string, n: nat)
    requires Exhausted(cfg, s, c, n)
    ensures Exhausted(cfg, Step(cfg, s, a), c, n)
  {
  }

  lemma RunStaysExhausted(cfg: Config, s: State, actions: seq<Action>, c: string, n: nat)
    requires Exhausted(cfg, s, c, n)
    ensures Exhausted(cfg, Run(Stepping(cfg), s, actions), c, n)
  {
    hide Exhausted, Step;
    forall t, a | Exhausted(cfg, t, c, n)
      ensures Exhausted(cfg, Stepping(cfg)(t, a), c, n)
    {
      StepStaysExhausted(cfg, t, a, c, n);
    }
    RunKeeps(Stepping(cfg), t => Exhausted(cfg, t, c, n), s, actions);
  }

  /** A class whose budget is used up from the start never gets another trial. */
  lemma ExhaustedStays(cfg: Config, seeded: Tally, p: nat, queue: seq<string>, actions: seq<Action>, c: string)
    requires Count(seeded, c) >= cfg.budget(c)
    ensures Load(Run(Stepping(cfg), Start(seeded, p, queue), actions), c) == Count(seeded, c)
  {
    hide Run, CountIf;
    RunStaysExhausted(cfg, Start(seeded, p, queue), actions, c, Count(seeded, c));
    CountNone(Run(Stepping(cfg), Start(seeded, p, queue), actions).workers, w => InFlight(w, c));
  }

  // ------------------------------------------------------------------ some run does as badly

  /** The first `k` threads have passed the check for `c`; the others are idle. */
  function Crowd(t: Tally, c: string, p: nat, k: nat, queue: seq<string>, started: nat): State {
    State(t, seq(p, i => if i < k then Running(c) else Free), queue, started)
  }

  /** Is the next trial one of class `c`, if the search wants it? */
  predicate Next(queue: seq<string>, c: string) {
    queue == [] || queue[0] == c
  }

  /** A trial of another class comes and goes. */
  lemma Skips(cfg: Config, t: Tally, c: string, p: nat, k: nat, queue: seq<string>, started: nat)
    requires k < p && !Next(queue, c) && started < cfg.trials
    ensures Run(Stepping(cfg), Crowd(t, c, p, k, queue, started), [Choose(k, c), Check(k), Learn(k, false)])
         == Crowd(t, c, p, k, queue[1..], started + 1)
  {
    hide Run;
    var s, s' := Crowd(t, c, p, k, queue, started), Crowd(t, c, p, k, queue[1..], started + 1);
    RunThree(Stepping(cfg), s, Choose(k, c), Check(k), Learn(k, false));
    assert s.workers[k := Chosen(queue[0])][k := Free] == s'.workers;
    assert s.workers[k := Chosen(queue[0])][k := Running(queue[0])][k := Free] == s'.workers;
  }

  /** A trial of class `c` passes the check and stays in flight. */
  lemma Joins(cfg: Config, t: Tally, c: string, p: nat, k: nat, queue: seq<string>, started: nat)
    requires k < p && Next(queue, c) && started < cfg.trials && c in cfg.classes && Count(t, c) < cfg.budget(c)
    ensures Run(Stepping(cfg), Crowd(t, c, p, k, queue, started), [Choose(k, c), Check(k)])
         == Crowd(t, c, p, k + 1, Tail(queue), started + 1)
  {
    hide Run;
    var s, s' := Crowd(t, c, p, k, queue, started), Crowd(t, c, p, k + 1, Tail(queue), started + 1);
    RunTwo(Stepping(cfg), s, Choose(k, c), Check(k));
    assert s.workers[k := Chosen(c)][k := Running(c)] == s'.workers;
  }

  /** A trial of class `c` runs alone and is counted. */
  lemma Completes(cfg: Config, t: Tally, c: string, p: nat, queue: seq<string>, started: nat)
    requires p >= 1 && Next(queue, c) && started < cfg.trials && c in cfg.classes && c in t && t[c] < cfg.budget(c)
    ensures Run(Stepping(cfg), Crowd(t, c, p, 0, queue, started), [Choose(0, c), Check(0)] + [Learn(0, true), Finish(0)])
         == Crowd(t[c := t[c] + 1], c, p, 0, Tail(queue), started + 1)
  {
    hide Run;
    var s, s' := Crowd(t, c, p, 0, queue, started), Crowd(t, c, p, 1, Tail(queue), started + 1);
    RunAppend(Stepping(cfg), s, [Choose(0, c), Check(0)], [Learn(0, true), Finish(0)]);
    Joins(cfg, t, c, p, 0, queue, started);
    RunTwo(Stepping(cfg), s', Learn(0, true), Finish(0));
    assert s'.workers[0 := Scored(c)][0 := Free] == s.workers;
  }

  lemma {:induction false} CrowdFlies(c: string, p: nat, k: nat)
    requires k <= p
    ensures Flying(seq(p, i => if i < k then Running(c) else Free), c) == k
  {
    if p > 0 {
      var ws := seq(p, i => if i < k then Running(c) else Free);
      if k == p {
        CrowdFlies(c, p - 1, k - 1);
        assert ws[..p - 1] == seq(p - 1, i => if i < k - 1 then Running(c) else Free);
      } else {
        CrowdFlies(c, p - 1, k);
        assert ws[..p - 1] == seq(p - 1, i => if i < k then Running(c) else Free);
      }
    }
  }

  /** From a crowd the load can grow by any number of trials that queue, suggestions and threads
      allow: trials of `c` complete one by one until one is missing, then gather in flight. */
  lemma {:induction false} Reach(cfg: Config, t: Tally, c: string, p: nat, k: nat, queue: seq<string>, started: nat, more: nat)
    returns (actions: seq<Action>)
    requires c in cfg.classes && c in t && t[c] < cfg.budget(c) && 1 <= p && k <= p && started <= cfg.trials
    requires k > 0 ==> t[c] == cfg.budget(c) - 1
    requires t[c] + k + more <= cfg.budget(c) + p - 1 && more <= Starts(queue, cfg.trials - started, c)
    ensures Load(Run(Stepping(cfg), Crowd(t, c, p, k, queue, started), actions), c) == t[c] + k + more
    decreases cfg.trials - started
  {
    hide Run, Step, CountIf;
    var s := Crowd(t, c, p, k, queue, started);
    if more == 0 {
      actions := [];
      RunNothing(Stepping(cfg), s);
      CrowdFlies(c, p, k);
    } else {
      var first, rest;
      EmptyStarts(cfg.trials - started, c);
      if !Next(queue, c) {
        first := [Choose(k, c), Check(k), Learn(k, false)];
        Skips(cfg, t, c, p, k, queue, started);
        rest := Reach(cfg, t, c, p, k, queue[1..], started + 1, more);
      } else if t[c] < cfg.budget(c) - 1 {
        first := [Choose(0, c), Check(0)] + [Learn(0, true), Finish(0)];
        Completes(cfg, t, c, p, queue, started);
        rest := Reach(cfg, t[c := t[c] + 1], c, p, 0, Tail(queue), started + 1, more - 1);
      } else {
        first := [Choose(k, c), Check(k)];
        Joins(cfg, t, c, p, k, queue, started);
        rest := Reach(cfg, t, c, p, k + 1, Tail(queue), started + 1, more - 1);
      }
      actions := first + rest;
      RunAppend(Stepping(cfg), s, first, rest);
    }
  }

  lemma EmptyStarts(n: nat, c: string)
    ensures Starts([], n, c) == n
  {
  }

  // ------------------------------------------------------------------ the worst case, exactly

  /** The largest number of completed and in-flight trials of class `c` in any run. */
  function WorstLoad(cfg: Config, seeded: Tally, p: nat, queue: seq<string>, c: string): int {
    if Count(seeded, c) >= cfg.budget(c) then Count(seeded, c)
    else Min(cfg.budget(c) + p - 1, Count(seeded, c) + Starts(queue, cfg.trials, c))
  }

  /** No run exceeds the worst case, and some run attains it. */
  lemma WorstCaseIsAttained(cfg: Config, seeded: Tally, p: nat, queue: seq<string>, c: string) returns (actions: seq<Action>)
    requires p >= 1 && c in seeded && c in cfg.classes
    ensures forall any :: Load(Run(Stepping(cfg), Start(seeded, p, queue), any), c) <= WorstLoad(cfg, seeded, p, queue, c)
    ensures Load(Run(Stepping(cfg), Start(seeded, p, queue), actions), c) == WorstLoad(cfg, seeded, p, queue, c)
  {
    hide Run, Load;
    forall any
      ensures Load(Run(Stepping(cfg), Start(seeded, p, queue), any), c) <= WorstLoad(cfg, seeded, p, queue, c)
    {
      if seeded[c] >= cfg.budget(c) {
        ExhaustedStays(cfg, seeded, p, queue, any, c);
      } else {
        OvershootIsBounded(cfg, seeded, p, queue, any, c);
      }
    }
    if seeded[c] >= cfg.budget(c) {
      actions := [];
      ExhaustedStays(cfg, seeded, p, queue, [], c);
    } else {
      assert Start(seeded, p, queue).workers == Crowd(seeded, c, p, 0, queue, 0).workers;
      actions := Reach(cfg, seeded, c, p, 0, queue, 0, WorstLoad(cfg, seeded, p, queue, c) - seeded[c]);
    }
  }

  ghost predicate NeverOvershoots(cfg: Config, seeded: Tally, p: nat, queue: seq<string>, c: string) {
    forall actions ::
      Load(Run(Stepping(cfg), Start(seeded, p, queue), actions), c) <= Max(Count(seeded, c), cfg.budget(c))
  }

  /** Exactly when a class stays within its seed and budget, whatever waits in the study's queue:
      with one thread, with a budget that is used up from the start, or if queue and suggestions
      cannot start one trial of it too many. */
  lemma TightIff(cfg: Config, seeded: Tally, p: nat, queue: seq<string>, c: string)
    requires p >= 1 && c in seeded && c in cfg.classes
    ensures NeverOvershoots(cfg, seeded, p, queue, c)
       <==> p == 1 || seeded[c] >= cfg.budget(c) || seeded[c] + Starts(queue, cfg.trials, c) <= cfg.budget(c)
  {
    hide Run, Load, Starts;
    var actions := WorstCaseIsAttained(cfg, seeded, p, queue, c);
    assert Load(Run(Stepping(cfg), Start(seeded, p, queue), actions), c) == WorstLoad(cfg, seeded, p, queue, c);
  }

  lemma {:induction false} StartsIs(queue: seq<string>, n: nat, c: string)
    ensures n <= |queue| ==> Starts(queue, n, c) <= Occurrences(queue, c)
    ensures n >= |queue| ==> Starts(queue, n, c) == Occurrences(queue, c) + n - |queue|
  {
    hide CountIf;
    if queue == [] {
      CountNothing((name: string) => name == c);
    } else if n > 0 {
      StartsIs(queue[1..], n - 1, c);
      assert queue == [queue[0]] + queue[1..];
      CountAppend([queue[0]], queue[1..], name => name == c);
      CountRepeat(1, queue[0], name => name == c);
      assert [queue[0]] == seq(1, _ => queue[0]);
    }
  }

  /** For the queue that the search itself makes, fresh or resumed, of one class or of several: a
      class stays within its seed and budget exactly if there is one thread, its budget is used up
      from the start, or the search has no more trials than all its classes lack together. */
  lemma SearchTightIff(cfg: Config, seeded: Tally, p: nat, c: string)
    requires p >= 1 && c in seeded && c in cfg.classes && Distinct(cfg.classes)
    ensures NeverOvershoots(cfg, seeded, p, InitialQueue(cfg.classes, cfg.budget, seeded), c)
       <==> p == 1 || seeded[c] >= cfg.budget(c) || cfg.trials <= TotalLacking(cfg.classes, cfg.budget, seeded)
  {
    hide Run, Load, Starts, CountIf, NeverOvershoots;
    var queue := InitialQueue(cfg.classes, cfg.budget, seeded);
    TightIff(cfg, seeded, p, queue, c);
    StartsIs(queue, cfg.trials, c);
    if |cfg.classes| > 1 {
      QueueCounts(cfg.classes, cfg.budget, seeded, c);
      QueueLength(cfg.classes, cfg.budget, seeded);
    } else {
      assert cfg.classes == [c] && cfg.classes[..0] == [];
      CountNothing((name: string) => name == c);
    }
  }

  // ------------------------------------------------------------------ fresh searches

  function BudgetOf(b: map<string, int>): string -> nat {
    c => if c in b && b[c] > 0 then b[c] else 0
  }

  /** The classes that the search keeps: those with a positive budget. */
  function Active(b: map<string, int>, cs: seq<string>): seq<string> {
    Budgets.Filter(cs, c => c in b && b[c] > 0)
  }

  lemma {:induction false} FreshLacking(b: map<string, int>, cs: seq<string>, seeded: Tally)
    requires forall c :: c in cs ==> c in b && b[c] > 0 && Count(seeded, c) == 0
    ensures TotalLacking(cs, BudgetOf(b), seeded) == Budgets.Total(b, cs)
  {
    if cs != [] {
      FreshLacking(b, cs[..|cs| - 1], seeded);
    }
  }

  lemma ActiveIff(b: map<string, int>, cs: seq<string>, c: string)
    ensures c in Active(b, cs) <==> c in cs && c in b && b[c] > 0
  {
  }

  /** A fresh search whose positive budgets add up to its trials or more never gives a class more
      trials than its budget, with any number of classes and threads: the trials are used up before
      a class can be suggested once too often. */
  lemma FreshSearchNeverOvershoots(b: map<string, int>, cs: seq<string>, n: nat, p: nat, seeded: Tally, c: string)
    requires Distinct(cs) && p >= 1 && c in seeded && c in Active(b, cs)
    requires Budgets.Total(b, Active(b, cs)) >= n && forall d :: d in cs ==> Count(seeded, d) == 0
    ensures
      var cfg := Config(Active(b, cs), BudgetOf(b), n);
      NeverOvershoots(cfg, seeded, p, InitialQueue(cfg.classes, cfg.budget, seeded), c)
  {
    hide NeverOvershoots, Budgets.Filter, Budgets.Total;
    var cfg := Config(Active(b, cs), BudgetOf(b), n);
    Budgets.FilterDistinct(cs, c => c in b && b[c] > 0);
    SearchTightIff(cfg, seeded, p, c);
    FreshLacking(b, cfg.classes, seeded);
  }
}
