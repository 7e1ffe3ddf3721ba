/** Trials that time out: the learner thread cannot be stopped, so the trial is given up and the
    thread is counted as an orphan until it returns by itself. */
module Orphans {
  import opened Sequences
  import opened Runs

  /** How the learning step ended. A learner that dies of memory or stack exhaustion leaves
      neither a result nor an exception behind. */
  datatype Ending = Result | Exception | Died

  /** `Ended` has left its result but not yet taken the orphan lock; `Exited` has, and with it set
      the trial's `completed` flag. */
  datatype Learner = Learning | Ended(e: Ending) | Exited(e: Ending)

  /** The thread that runs the objective: in `join`, past a join that saw a live learner, falling
      through with the learner's ending, or gone after orphaning it. */
  datatype Main = Joining | TimedOut | FellThrough(e: Ending) | Pruned | CeilingHit

  datatype Trial = Trial(learner: Learner, orphaned: bool, main: Main, decrements: nat)

  datatype State = State(trials: seq<Trial>, live: int, total: int)

  const CEILING := 32

  datatype Action =
    | Start
    | LearnEnds(i: nat, e: Ending)
    | LearnerExits(i: nat)
    | JoinReturns(i: nat)
    | JoinTimesOut(i: nat)
    | Recheck(i: nat)

  predicate Active(t: Trial) {
    t.main.Joining? || t.main.TimedOut?
  }

  predicate IsLiveOrphan(t: Trial) {
    t.orphaned && !t.learner.Exited?
  }

  predicate HitCeiling(t: Trial) {
    t.main.CeilingHit?
  }

  /** One step of some thread; a step that is not enabled changes nothing. There are `p` objective
      threads. One that has found the ceiling reached raises out of the search and starts nothing
      more; the others go on until the error stops them, which may be never. */
  function Step(p: nat, s: State, a: Action): State {
    match a
    case Start =>
      if CountIf(s.trials, Active) + CountIf(s.trials, HitCeiling) < p then
        s.(trials := s.trials + [Trial(Learning, false, Joining, 0)])
      else s
    case LearnEnds(i, e) =>
      if i < |s.trials| && s.trials[i].learner.Learning? then
        s.(trials := s.trials[i := s.trials[i].(learner := Ended(e))])
      else s
    case LearnerExits(i) =>
      if i < |s.trials| && s.trials[i].learner.Ended? then LeaveLearner(s, i) else s
    case JoinReturns(i) =>
      if i < |s.trials| && s.trials[i].main.Joining? && s.trials[i].learner.Exited? then
        s.(trials := s.trials[i := s.trials[i].(main := FellThrough(s.trials[i].learner.e))])
      else s
    case JoinTimesOut(i) =>
      if i < |s.trials| && s.trials[i].main.Joining? then
        s.(trials := s.trials[i := s.trials[i].(main := TimedOut)])
      else s
    case Recheck(i) =>
      if i < |s.trials| && s.trials[i].main.TimedOut? then GiveUp(s, i) else s
  }

  /** The learner's `finally` block, under the orphan lock. */
  function LeaveLearner(s: State, i: nat): State
    requires i < |s.trials| && s.trials[i].learner.Ended?
  {
    var t := s.trials[i];
    if t.orphaned then
      s.(trials := s.trials[i := t.(learner := Exited(t.learner.e), decrements := t.decrements + 1)], live := s.live - 1)
    else
      s.(trials := s.trials[i := t.(learner := Exited(t.learner.e))])
  }

  /** The objective's second look, under the orphan lock: a learner that has completed by now is
      not an orphan after all. */
  function GiveUp(s: State, i: nat): State
    requires i < |s.trials|
  {
    var t := s.trials[i];
    if t.learner.Exited? then s.(trials := s.trials[i := t.(main := FellThrough(t.learner.e))])
    else
      s.(trials := s.trials[i := t.(orphaned := true, main := if s.live + 1 >= CEILING then CeilingHit else Pruned)],
         live := s.live + 1, total := s.total + 1)
  }

  function Stepping(p: nat): (State, Action) -> State {
    (s, a) => Step(p, s, a)
  }

  const IDLE := State([], 0, 0)

  // ------------------------------------------------------------------ what every run keeps

  ghost predicate TrialInv(t: Trial) {
    && (t.orphaned <==> t.main.Pruned? || t.main.CeilingHit?)
    && (t.main.FellThrough? ==> t.learner == Exited(t.main.e))
    && t.decrements == if t.orphaned && t.learner.Exited? then 1 else 0
  }

  predicate WasOrphaned(t: Trial) {
    t.orphaned
  }

  ghost predicate Inv(p: nat, s: State) {
    && (forall i :: 0 <= i < |s.trials| ==> TrialInv(s.trials[i]))
    && s.live == CountIf(s.trials, IsLiveOrphan)
    && s.total == CountIf(s.trials, WasOrphaned)
    && CountIf(s.trials, Active) + CountIf(s.trials, HitCeiling) <= p
    && s.live <= CEILING - 1 + CountIf(s.trials, HitCeiling)
  }

  lemma UpdateCounts(ts: seq<Trial>, i: nat, t: Trial)
    requires i < |ts|
    ensures CountIf(ts[i := t], IsLiveOrphan)
      == CountIf(ts, IsLiveOrphan) - (if IsLiveOrphan(ts[i]) then 1 else 0) + if IsLiveOrphan(t) then 1 else 0
    ensures CountIf(ts[i := t], WasOrphaned)
      == CountIf(ts, WasOrphaned) - (if ts[i].orphaned then 1 else 0) + if t.orphaned then 1 else 0
    ensures CountIf(ts[i := t], Active)
      == CountIf(ts, Active) - (if Active(ts[i]) then 1 else 0) + if Active(t) then 1 else 0
    ensures CountIf(ts[i := t], HitCeiling)
      == CountIf(ts, HitCeiling) - (if HitCeiling(ts[i]) then 1 else 0) + if HitCeiling(t) then 1 else 0
  {
    CountUpdate(ts, i, t, IsLiveOrphan);
    CountUpdate(ts, i, t, WasOrphaned);
    CountUpdate(ts, i, t, Active);
    CountUpdate(ts, i, t, HitCeiling);
  }

  lemma StepKeepsInv(p: nat, s: State, a: Action)
    requires Inv(p, s)
    ensures Inv(p, Step(p, s, a))
  {
    hide CountIf;
    if a.Start? {
      var t := Trial(Learning, false, Joining, 0);
      CountSnoc(s.trials, t, IsLiveOrphan);
      CountSnoc(s.trials, t, WasOrphaned);
      CountSnoc(s.trials, t, Active);
      CountSnoc(s.trials, t, HitCeiling);
    } else if a.i < |s.trials| {
      var s' := Step(p, s, a);
      UpdateCounts(s.trials, a.i, s'.trials[a.i]);
      assert s'.trials == s.trials[a.i := s'.trials[a.i]];
    }
  }

  lemma RunKeepsInv(p: nat, s: State, actions: seq<Action>)
    requires Inv(p, s)
    ensures Inv(p, Run(Stepping(p), s, actions))
  {
    hide Inv, Step;
    forall t, a | Inv(p, t)
      ensures Inv(p, Stepping(p)(t, a))
    {
      StepKeepsInv(p, t, a);
    }
    RunKeeps(Stepping(p), t => Inv(p, t), s, actions);
  }

  /** In every interleaving of time-outs and returning learners: the live counter is the number of
      orphans still learning, the total is the number of trials ever orphaned, no orphan is
      discounted twice, a trial that falls through finds what its learner left, and no more than
      `p - 1` orphans are ever live beyond the ceiling, even if the threads that have not hit it
      start new trials for as long as they like. */
  lemma OrphansAreCounted(p: nat, actions: seq<Action>)
    requires p >= 1
    ensures
      var s := Run(Stepping(p), IDLE, actions);
      && s.live == CountIf(s.trials, IsLiveOrphan) && s.total == CountIf(s.trials, WasOrphaned)
      && s.live <= 32 + p - 1
      && forall i :: 0 <= i < |s.trials| ==>
        && s.trials[i].decrements <= 1
        && (s.trials[i].main.FellThrough? ==> !s.trials[i].orphaned && s.trials[i].learner == Exited(s.trials[i].main.e))
  {
    hide Step, CountIf;
    CountNothing(IsLiveOrphan);
    CountNothing(WasOrphaned);
    CountNothing(Active);
    CountNothing(HitCeiling);
    RunKeepsInv(p, IDLE, actions);
  }

  // ------------------------------------------------------------------ the bound is attained

  /** `a` orphans still learning, the last ones beyond the ceiling, and `k` trials past a join. */
  function Pile(a: nat, k: nat): State {
    State(seq(a + k, i => if i < a then Trial(Learning, true, if i + 1 >= CEILING then CeilingHit else Pruned, 0)
                          else Trial(Learning, false, TimedOut, 0)),
          a, a)
  }

  lemma {:induction false} PileActive(a: nat, k: nat)
    ensures CountIf(Pile(a, k).trials, Active) == k
  {
    if a + k > 0 {
      var ts := Pile(a, k).trials;
      if k > 0 {
        PileActive(a, k - 1);
        assert ts[..a + k - 1] == Pile(a, k - 1).trials;
      } else {
        PileActive(a - 1, 0);
        assert ts[..a - 1] == Pile(a - 1, 0).trials;
      }
    }
  }

  /** Below the ceiling nobody has hit it. */
  lemma PileBelow(a: nat, k: nat)
    requires a < CEILING
    ensures CountIf(Pile(a, k).trials, HitCeiling) == 0
  {
    CountNone(Pile(a, k).trials, HitCeiling);
  }

  /** One more trial starts and sees its join time out. */
  lemma OneMoreTimesOut(p: nat, a: nat, k: nat)
    requires a < CEILING && k < p
    ensures Run(Stepping(p), Pile(a, k), [Start, JoinTimesOut(a + k)]) == Pile(a, k + 1)
  {
    hide CountIf, Run;
    PileActive(a, k);
    PileBelow(a, k);
    var s := Step(p, Pile(a, k), Start);
    assert s.trials == Pile(a, k).trials + [Trial(Learning, false, Joining, 0)];
    assert Step(p, s, JoinTimesOut(a + k)).trials == Pile(a, k + 1).trials;
    RunTwo(Stepping(p), Pile(a, k), Start, JoinTimesOut(a + k));
  }

  lemma OneMoreOrphan(p: nat, a: nat, k: nat)
    requires k > 0
    ensures Run(Stepping(p), Pile(a, k), [Recheck(a)]) == Pile(a + 1, k - 1)
  {
    hide Run;
    assert Step(p, Pile(a, k), Recheck(a)).trials == Pile(a + 1, k - 1).trials;
    RunOne(Stepping(p), Pile(a, k), Recheck(a));
  }

  lemma {:induction false} TimeOuts(p: nat, a: nat, k: nat) returns (actions: seq<Action>)
    requires a < CEILING && k <= p
    ensures Run(Stepping(p), Pile(a, 0), actions) == Pile(a, k)
  {
    actions := [];
    if k > 0 {
      hide Run, Pile;
      var before := TimeOuts(p, a, k - 1);
      actions := before + [Start, JoinTimesOut(a + (k - 1))];
      RunAppend(Stepping(p), Pile(a, 0), before, [Start, JoinTimesOut(a + (k - 1))]);
      OneMoreTimesOut(p, a, k - 1);
    }
  }

  lemma {:induction false} Orphan(p: nat, a: nat, k: nat) returns (actions: seq<Action>)
    ensures Run(Stepping(p), Pile(a, k), actions) == Pile(a + k, 0)
    decreases k
  {
    actions := [];
    if k > 0 {
      hide Run, Pile;
      var after := Orphan(p, a + 1, k - 1);
      actions := [Recheck(a)] + after;
      RunAppend(Stepping(p), Pile(a, k), [Recheck(a)], after);
      OneMoreOrphan(p, a, k);
    }
  }

  lemma {:induction false} UpToCeiling(p: nat, a: nat) returns (actions: seq<Action>)
    requires p >= 1 && a < CEILING
    ensures Run(Stepping(p), Pile(0, 0), actions) == Pile(a, 0)
  {
    actions := [];
    if a > 0 {
      hide Run, Pile;
      var before := UpToCeiling(p, a - 1);
      var start := TimeOuts(p, a - 1, 1);
      var orphan := Orphan(p, a - 1, 1);
      actions := before + (start + orphan);
      RunAppend(Stepping(p), Pile(0, 0), before, start + orphan);
      RunAppend(Stepping(p), Pile(a - 1, 0), start, orphan);
    }
  }

  /** With `p` threads that all time out just below the ceiling, `p - 1` orphans go beyond it. */
  lemma BoundIsAttained(p: nat) returns (actions: seq<Action>)
    requires p >= 1
    ensures Run(Stepping(p), IDLE, actions).live == 32 + p - 1
  {
    hide Run;
    var a := CEILING - 1;
    var below := UpToCeiling(p, a);
    var crowd := TimeOuts(p, a, p);
    var orphan := Orphan(p, a, p);
    actions := below + (crowd + orphan);
    assert Pile(0, 0) == IDLE;
    RunAppend(Stepping(p), IDLE, below, crowd + orphan);
    RunAppend(Stepping(p), Pile(a, 0), crowd, orphan);
  }

  // ------------------------------------------------------------------ learners that return

  /** A learner that returns in time hands its ending to the trial. */
  lemma TrialFallsThrough(p: nat, s: State, i: nat, e: Ending)
    requires i < |s.trials| && s.trials[i].main.Joining? && s.trials[i].learner.Learning? && !s.trials[i].orphaned
    ensures
      var t := Run(Stepping(p), s, [LearnEnds(i, e), LearnerExits(i), JoinReturns(i)]);
      && t.trials == s.trials[i := s.trials[i].(learner := Exited(e), main := FellThrough(e))]
      && t.live == s.live && t.total == s.total
  {
    hide Run;
    RunThree(Stepping(p), s, LearnEnds(i, e), LearnerExits(i), JoinReturns(i));
  }

  /** One that returns between the time-out and the second look is no orphan either. */
  lemma LateTrialFallsThrough(p: nat, s: State, i: nat, e: Ending)
    requires i < |s.trials| && s.trials[i].main.TimedOut? && s.trials[i].learner.Learning? && !s.trials[i].orphaned
    ensures
      var t := Run(Stepping(p), s, [LearnEnds(i, e), LearnerExits(i), Recheck(i)]);
      && t.trials == s.trials[i := s.trials[i].(learner := Exited(e), main := FellThrough(e))]
      && t.live == s.live && t.total == s.total
  {
    hide Run;
    RunThree(Stepping(p), s, LearnEnds(i, e), LearnerExits(i), Recheck(i));
  }

  /** An orphan that returns is live no more, and stays in the total. */
  lemma OrphanReturns(p: nat, s: State, i: nat, e: Ending)
    requires i < |s.trials| && s.trials[i].orphaned && s.trials[i].learner.Learning?
    ensures
      var t := Run(Stepping(p), s, [LearnEnds(i, e), LearnerExits(i)]);
      && t.live == s.live - 1 && t.total == s.total
      && t.trials == s.trials[i := s.trials[i].(learner := Exited(e), decrements := s.trials[i].decrements + 1)]
  {
    hide Run;
    RunTwo(Stepping(p), s, LearnEnds(i, e), LearnerExits(i));
  }
}
