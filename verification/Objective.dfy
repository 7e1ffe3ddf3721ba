/** The counters that the objective function shares between its threads, and the four critical
    sections that touch them: each is one step of the budget or of the orphan state machine. */
module Objective {
  import TrialGuard
  import Orphans

  /** The flags of one trial that its two threads share. */
  class TrialState {
    var completed: bool
    var orphaned: bool

    constructor ()
      ensures !completed && !orphaned
    {
      completed, orphaned := false, false;
    }
  }

  datatype Verdict = NotOrphaned | Orphaned(ceilingReached: bool)

  class SearchCounters {
    var completed: TrialGuard.Tally
    var live: int
    var total: int

    constructor (seeded: TrialGuard.Tally)
      ensures completed == seeded && live == 0 && total == 0
    {
      completed, live, total := seeded, 0, 0;
    }

    /** The fields hold what the orphan machine says about the search and about trial `i`. */
    ghost predicate Represents(s: Orphans.State, t: TrialState, i: nat)
      reads this, t
    {
      && live == s.live && total == s.total
      && i < |s.trials| && t.orphaned == s.trials[i].orphaned && t.completed == s.trials[i].learner.Exited?
    }

    /** The check at the start of a trial; nothing is reserved. */
    method BudgetLeft(cfg: TrialGuard.Config, c: string, ghost s: TrialGuard.State, ghost i: nat) returns (left: bool)
      requires completed == s.done && i < |s.workers| && s.workers[i] == TrialGuard.Chosen(c)
      ensures TrialGuard.Step(cfg, s, TrialGuard.Check(i))
           == s.(workers := s.workers[i := if left then TrialGuard.Running(c) else TrialGuard.Free])
    {
      return (if c in completed then completed[c] else 0) < cfg.budget(c);
    }

    /** The increment after scoring. */
    method CountCompleted(cfg: TrialGuard.Config, c: string, ghost s: TrialGuard.State, ghost i: nat)
      requires completed == s.done && i < |s.workers| && s.workers[i] == TrialGuard.Scored(c)
      modifies this`completed
      ensures completed == TrialGuard.Step(cfg, s, TrialGuard.Finish(i)).done
    {
      completed := completed[c := (if c in completed then completed[c] else 0) + 1];
    }

    /** The learner's last act. */
    method LearnerFinished(t: TrialState, ghost p: nat, ghost s: Orphans.State, ghost i: nat)
      requires Represents(s, t, i) && s.trials[i].learner.Ended?
      modifies this`live, t`completed
      ensures Represents(Orphans.Step(p, s, Orphans.LearnerExits(i)), t, i)
    {
      t.completed := true;
      if t.orphaned {
        live := live - 1;
      }
    }

    /** After a join that timed out: orphan the trial, unless it has completed in the meantime. */
    method Recheck(t: TrialState, ghost p: nat, ghost s: Orphans.State, ghost i: nat) returns (verdict: Verdict)
      requires Represents(s, t, i) && s.trials[i].main.TimedOut?
      modifies this`live, this`total, t`orphaned
      ensures Represents(Orphans.Step(p, s, Orphans.Recheck(i)), t, i)
      ensures
        match Orphans.Step(p, s, Orphans.Recheck(i)).trials[i].main
        case FellThrough(_) => verdict == NotOrphaned
        case Pruned => verdict == Orphaned(false)
        case CeilingHit => verdict == Orphaned(true)
        case _ => false
    {
      if t.completed {
        return NotOrphaned;
      }
      t.orphaned := true;
      live := live + 1;
      total := total + 1;
      return Orphaned(live >= Orphans.CEILING);
    }
  }
}
