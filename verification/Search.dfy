/** The search as a whole: how its trials are divided, queued and guarded. */
module Search {
  import opened Sequences
  import Budgets
  import TrialGuard

  /** The division of the trials meets what the guard needs: a fresh search, with whatever counts,
      classes, trials and threads, never gives a class more trials than its budget. */
  lemma FreshSearchStaysWithinBudgets(
    b: map<string, int>, m: Budgets.Counts, cs: seq<string>, n: nat, rnd: Budgets.Rounding, p: nat,
    seeded: TrialGuard.Tally, c: string)
    requires Distinct(cs) && Budgets.HasBudgets(b, m, cs, n, rnd) && Budgets.WithinHalf(rnd) && p >= 1
    requires c in TrialGuard.Active(b, cs) && c in seeded && forall d :: d in cs ==> TrialGuard.Count(seeded, d) == 0
    ensures
      var classes, budget := TrialGuard.Active(b, cs), TrialGuard.BudgetOf(b);
      TrialGuard.NeverOvershoots(
        TrialGuard.Config(classes, budget, n), seeded, p, TrialGuard.InitialQueue(classes, budget, seeded), c)
  {
    hide TrialGuard.NeverOvershoots, Budgets.HasBudgets, Budgets.Filter, Budgets.Total, Budgets.WithinHalf;
    Budgets.TotalIsEnough(b, m, cs, n, rnd);
    Budgets.TotalOfPositive(b, m, cs, n, rnd);
    TrialGuard.FreshSearchNeverOvershoots(b, cs, n, p, seeded, c);
  }
}
