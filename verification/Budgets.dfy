/** Dividing the trials of a search among the algorithm classes. */
module Budgets {
  import opened Wrappers
  import opened Sequences

  // ------------------------------------------------------------------ sums and filters

  function Filter(cs: seq<string>, keep: string -> bool): (r: seq<string>)
    ensures forall c :: c in r <==> c in cs && keep(c)
  {
    if cs == [] then [] else
    var c := cs[|cs| - 1];
    assert cs == cs[..|cs| - 1] + [c];
    Filter(cs[..|cs| - 1], keep) + if keep(c) then [c] else []
  }

  lemma Snoc(cs: seq<string>)
    requires cs != []
    ensures cs == cs[..|cs| - 1] + [cs[|cs| - 1]]
    ensures Distinct(cs) ==> Distinct(cs[..|cs| - 1]) && cs[|cs| - 1] !in cs[..|cs| - 1]
  {
  }

  lemma FilterSnoc(cs: seq<string>, keep: string -> bool, c: string)
    ensures Filter(cs + [c], keep) == Filter(cs, keep) + if keep(c) then [c] else []
  {
    assert (cs + [c])[..|cs|] == cs;
  }

  lemma TotalSnoc(b: map<string, int>, cs: seq<string>, c: string)
    requires c in b && forall d :: d in cs ==> d in b
    ensures Total(b, cs + [c]) == Total(b, cs) + b[c]
  {
    assert (cs + [c])[..|cs|] == cs;
  }

  lemma {:induction false} FilterDistinct(cs: seq<string>, keep: string -> bool)
    requires Distinct(cs)
    ensures Distinct(Filter(cs, keep))
  {
    if cs != [] {
      var init, c := cs[..|cs| - 1], cs[|cs| - 1];
      FilterDistinct(init, keep);
      assert c !in init;
      var f := Filter(init, keep);
      forall i | 0 <= i < |f|
        ensures f[i] != c
      {
        assert f[i] in f;
      }
    }
  }

  function Total(b: map<string, int>, cs: seq<string>): int
    requires forall c :: c in cs ==> c in b
  {
    if cs == [] then 0 else Total(b, cs[..|cs| - 1]) + b[cs[|cs| - 1]]
  }

  lemma FilteredTotal(b: map<string, int>, cs: seq<string>, keep: string -> bool, c: string)
    requires forall d :: d in cs + [c] ==> d in b
    ensures Total(b, Filter(cs + [c], keep)) == Total(b, Filter(cs, keep)) + if keep(c) then b[c] else 0
  {
    hide Filter, Total;
    FilterSnoc(cs, keep, c);
    if keep(c) {
      TotalSnoc(b, Filter(cs, keep), c);
    } else {
      assert Filter(cs, keep) + [] == Filter(cs, keep);
    }
  }

  /** A total over all classes is the total over those kept plus the total over the others. */
  lemma {:induction false} TotalSplits(b: map<string, int>, cs: seq<string>, keep: string -> bool, drop: string -> bool)
    requires forall c :: c in cs ==> c in b
    requires forall c :: c in cs ==> keep(c) == !drop(c)
    ensures Total(b, cs) == Total(b, Filter(cs, keep)) + Total(b, Filter(cs, drop))
  {
    if cs != [] {
      hide Filter, Total;
      var init, c := cs[..|cs| - 1], cs[|cs| - 1];
      Snoc(cs);
      TotalSplits(b, init, keep, drop);
      TotalSnoc(b, init, c);
      FilteredTotal(b, init, keep, c);
      FilteredTotal(b, init, drop, c);
    }
  }

  lemma {:induction false} TotalZero(b: map<string, int>, cs: seq<string>)
    requires forall c :: c in cs ==> c in b && b[c] == 0
    ensures Total(b, cs) == 0
  {
    if cs != [] {
      TotalZero(b, cs[..|cs| - 1]);
    }
  }

  // ------------------------------------------------------------------ the two simple splits

  function Even(cs: seq<string>, n: nat, c: string): nat
    requires c in cs
  {
    n / |cs| + if LastIndex(cs, c) < n % |cs| then 1 else 0
  }

  lemma DivMod(n: nat, q: nat)
    requires q > 0
    ensures q * (n / q) + n % q == n && n % q < q
  {
  }

  lemma Times(j: int, q: int)
    ensures (j + 1) * q == j * q + q
  {
  }

  lemma {:induction false} EvenPrefix(b: map<string, int>, cs: seq<string>, n: nat, j: nat)
    requires Distinct(cs) && cs != [] && j <= |cs|
    requires forall c :: c in cs ==> c in b && b[c] == Even(cs, n, c)
    ensures Total(b, cs[..j]) == j * (n / |cs|) + if j < n % |cs| then j else n % |cs|
  {
    if j > 0 {
      hide Total;
      EvenPrefix(b, cs, n, j - 1);
      TotalSnoc(b, cs[..j - 1], cs[j - 1]);
      assert cs[..j] == cs[..j - 1] + [cs[j - 1]] && cs[j - 1] in cs;
      assert LastIndex(cs, cs[j - 1]) == j - 1;
      Times(j - 1, n / |cs|);
    }
  }

  lemma EvenTotal(b: map<string, int>, cs: seq<string>, n: nat)
    requires Distinct(cs) && cs != []
    requires forall c :: c in cs ==> c in b && b[c] == Even(cs, n, c)
    ensures Total(b, cs) == n
  {
    hide Total, Even;
    EvenPrefix(b, cs, n, |cs|);
    assert cs[..|cs|] == cs;
    DivMod(n, |cs|);
  }

  function OneEach(cs: seq<string>, n: nat, c: string): nat
    requires c in cs
  {
    if LastIndex(cs, c) < n then 1 else 0
  }

  lemma {:induction false} OneEachPrefix(b: map<string, int>, cs: seq<string>, n: nat, j: nat)
    requires Distinct(cs) && j <= |cs|
    requires forall c :: c in cs ==> c in b && b[c] == OneEach(cs, n, c)
    ensures Total(b, cs[..j]) == if j < n then j else n
  {
    if j > 0 {
      OneEachPrefix(b, cs, n, j - 1);
      assert cs[..j][..j - 1] == cs[..j - 1] && cs[j - 1] in cs;
      assert LastIndex(cs, cs[j - 1]) == j - 1;
    }
  }

  // ------------------------------------------------------------------ proportional rounding

  /** `round(p / q)` in whatever way, as long as it is off by at most one half. */
  type Rounding = (nat, nat) -> int

  ghost predicate WithinHalf(rnd: Rounding) {
    forall p, q :: q > 0 ==> 0 - q <= 2 * (rnd(p, q) * q - p) <= q
  }

  /** Python's rule: halves go to the even neighbour. */
  function HalfEven(p: nat, q: nat): int
  {
    if q == 0 then 0 else
    var down, twice := p / q, 2 * (p % q);
    if twice > q || (twice == q && down % 2 == 1) then down + 1 else down
  }

  lemma HalfEvenIsWithinHalf()
    ensures WithinHalf(HalfEven)
  {
    forall p: nat, q: nat | q > 0
      ensures 0 - q <= 2 * (HalfEven(p, q) * q - p) <= q
    {
      var down := p / q;
      assert p == down * q + p % q;
      assert (down + 1) * q == down * q + q;
    }
  }

  /** Exact halves go to an even number. */
  lemma TiesGoToEven(p: nat, q: nat)
    requires q > 0 && 2 * (p % q) == q
    ensures HalfEven(p, q) % 2 == 0
  {
  }

  type Counts = map<string, nat>

  function Values(m: Counts, cs: seq<string>): nat
    requires forall c :: c in cs ==> c in m
  {
    if cs == [] then 0 else Values(m, cs[..|cs| - 1]) + m[cs[|cs| - 1]]
  }

  function Share(m: Counts, n: nat, sum: nat, rnd: Rounding, c: string): int
    requires c in m
  {
    Max(1, rnd(m[c] * n, sum))
  }

  /** The rounded shares of the positive classes other than `last`. */
  function Shares(m: Counts, n: nat, sum: nat, rnd: Rounding, cs: seq<string>, last: string): nat
    requires forall c :: c in cs ==> c in m
  {
    if cs == [] then 0 else
    var c := cs[|cs| - 1];
    Shares(m, n, sum, rnd, cs[..|cs| - 1], last) + if m[c] > 0 && c != last then Share(m, n, sum, rnd, c) else 0
  }

  function Positives(m: Counts, cs: seq<string>): seq<string>
    requires forall c :: c in cs ==> c in m
  {
    Filter(cs, c => c in m && m[c] > 0)
  }

  /** A share exceeds its exact proportion by less than one, and falls short by at most a half. */
  lemma ShareNearProportion(m: Counts, n: nat, sum: nat, rnd: Rounding, c: string)
    requires WithinHalf(rnd) && c in m && m[c] > 0 && n > 0 && sum > 0
    ensures Share(m, n, sum, rnd, c) * sum < m[c] * n + sum
    ensures 2 * m[c] * n <= 2 * Share(m, n, sum, rnd, c) * sum + sum
  {
    var b := rnd(m[c] * n, sum);
    assert m[c] * n > 0;
    assert 0 - sum <= 2 * (b * sum - m[c] * n) <= sum;
    if b < 1 {
      assert b * sum <= sum;
    }
  }

  /** `x` shares of `others` classes whose values add up to `values`: less than one too many each. */
  ghost predicate Under(x: int, values: int, others: int, n: int, sum: int) {
    && others >= 0
    && x * sum <= values * n + others * sum
    && (others > 0 ==> x * sum < values * n + others * sum)
  }

  lemma {:induction false} SharesBound(m: Counts, n: nat, sum: nat, rnd: Rounding, cs: seq<string>, last: string)
    requires WithinHalf(rnd) && n > 0 && sum > 0 && Distinct(cs) && last in m && m[last] > 0
    requires forall c :: c in cs ==> c in m
    ensures
      var others := |Positives(m, cs)| - if last in cs then 1 else 0;
      var values := Values(m, cs) - if last in cs then m[last] else 0;
      Under(Shares(m, n, sum, rnd, cs, last), values, others, n, sum)
  {
    if cs == [] {
      assert Under(0, 0, 0, n, sum);
    } else {
      hide WithinHalf, Share, Filter, Under;
      var init, c := cs[..|cs| - 1], cs[|cs| - 1];
      Snoc(cs);
      SharesBound(m, n, sum, rnd, init, last);
      PositivesSnoc(m, init, c);
      if m[c] > 0 && c != last {
        ShareNearProportion(m, n, sum, rnd, c);
        var others := |Positives(m, init)| - if last in init then 1 else 0;
        var values := Values(m, init) - if last in init then m[last] else 0;
        AddShare(Shares(m, n, sum, rnd, init, last), Share(m, n, sum, rnd, c), values, m[c], others, n, sum);
      }
    }
  }

  lemma PositivesSnoc(m: Counts, cs: seq<string>, c: string)
    requires c in m && forall d :: d in cs ==> d in m
    ensures Positives(m, cs + [c]) == Positives(m, cs) + if m[c] > 0 then [c] else []
  {
    FilterSnoc(cs, c => c in m && m[c] > 0, c);
  }

  lemma AddShare(x: int, share: int, values: int, v: int, others: int, n: int, sum: int)
    requires Under(x, values, others, n, sum) && share * sum < v * n + sum
    ensures Under(x + share, values + v, others + 1, n, sum)
  {
    assert (x + share) * sum == x * sum + share * sum;
    assert (values + v) * n == values * n + v * n;
    assert (others + 1) * sum == others * sum + sum;
  }

  // ------------------------------------------------------------------ the budget of each class

  function Explicit(m: Counts, cs: seq<string>): seq<string> {
    Filter(cs, c => c in m)
  }

  function Unspecified(m: Counts, cs: seq<string>): seq<string> {
    Filter(cs, c => c !in m)
  }

  function ExplicitSum(m: Counts, cs: seq<string>): nat {
    Values(m, Explicit(m, cs))
  }

  function PositiveClasses(m: Counts, cs: seq<string>): seq<string> {
    Positives(m, Explicit(m, cs))
  }

  predicate NoOverride(m: Counts, cs: seq<string>) {
    m == map[] || (ExplicitSum(m, cs) == 0 && Unspecified(m, cs) == [])
  }

  predicate ScaledDown(m: Counts, cs: seq<string>, n: nat) {
    !NoOverride(m, cs) && ExplicitSum(m, cs) > n >= |PositiveClasses(m, cs)|
  }

  /** What the shares of all but the last positive class add up to. */
  function Allocated(m: Counts, cs: seq<string>, n: nat, rnd: Rounding): nat
    requires PositiveClasses(m, cs) != []
  {
    var ps := PositiveClasses(m, cs);
    Shares(m, n, ExplicitSum(m, cs), rnd, Explicit(m, cs), ps[|ps| - 1])
  }

  lemma {:induction false} PositiveValues(m: Counts, cs: seq<string>)
    requires forall c :: c in cs ==> c in m
    ensures Values(m, cs) > 0 <==> Positives(m, cs) != []
  {
    if cs != [] {
      assert cs == cs[..|cs| - 1] + [cs[|cs| - 1]];
      PositiveValues(m, cs[..|cs| - 1]);
    }
  }

  function Budget(m: Counts, cs: seq<string>, n: nat, rnd: Rounding, c: string): int
    requires c in cs
  {
    var ps, us := PositiveClasses(m, cs), Unspecified(m, cs);
    if NoOverride(m, cs) then Even(cs, n, c)
    else if ExplicitSum(m, cs) > n then
      if c !in m || m[c] == 0 then 0
      else if n < |ps| then OneEach(ps, n, c)
      else if c != ps[|ps| - 1] then Share(m, n, ExplicitSum(m, cs), rnd, c)
      else Max(1, n - Allocated(m, cs, n, rnd))
    else
      var leftover := n - ExplicitSum(m, cs);
      if c !in m then Even(us, leftover, c)
      else m[c] + if us == [] && ps != [] && c == ps[|ps| - 1] then leftover else 0
  }

  ghost predicate HasBudgets(b: map<string, int>, m: Counts, cs: seq<string>, n: nat, rnd: Rounding) {
    forall c :: c in cs ==> c in b && b[c] == Budget(m, cs, n, rnd, c)
  }

  // ------------------------------------------------------------------ what the budgets add up to

  lemma ClassFacts(m: Counts, cs: seq<string>)
    requires Distinct(cs)
    ensures Distinct(Explicit(m, cs)) && Distinct(Unspecified(m, cs)) && Distinct(PositiveClasses(m, cs))
    ensures ExplicitSum(m, cs) > 0 <==> PositiveClasses(m, cs) != []
    ensures forall c :: c in PositiveClasses(m, cs) <==> c in cs && c in m && m[c] > 0
  {
    FilterDistinct(cs, c => c in m);
    FilterDistinct(cs, c => c !in m);
    FilterDistinct(Explicit(m, cs), c => c in m && m[c] > 0);
    PositiveValues(m, Explicit(m, cs));
  }

  lemma TotalByKind(b: map<string, int>, m: Counts, cs: seq<string>)
    requires forall c :: c in cs ==> c in b
    ensures Total(b, cs) == Total(b, Explicit(m, cs)) + Total(b, Unspecified(m, cs))
    ensures (forall c :: c in cs && c in m && m[c] == 0 ==> b[c] == 0) ==>
      Total(b, Explicit(m, cs)) == Total(b, PositiveClasses(m, cs))
  {
    hide Total, Filter;
    TotalSplits(b, cs, c => c in m, c => c !in m);
    var es := Explicit(m, cs);
    TotalSplits(b, es, c => c in m && m[c] > 0, c => !(c in m && m[c] > 0));
    if forall c :: c in cs && c in m && m[c] == 0 ==> b[c] == 0 {
      TotalZero(b, Filter(es, c => !(c in m && m[c] > 0)));
    }
  }

  lemma {:induction false} TotalOfShares(b: map<string, int>, m: Counts, n: nat, sum: nat, rnd: Rounding, cs: seq<string>, last: string)
    requires Distinct(cs) && forall c :: c in cs ==> c in m && c in b
    requires forall c :: c in cs && c != last ==> b[c] == if m[c] == 0 then 0 else Share(m, n, sum, rnd, c)
    ensures Total(b, cs) == Shares(m, n, sum, rnd, cs, last) + if last in cs then b[last] else 0
  {
    hide Share;
    if cs != [] {
      Snoc(cs);
      TotalOfShares(b, m, n, sum, rnd, cs[..|cs| - 1], last);
    }
  }

  /** Scaling down gives every positive class at least one trial and every other class none. */
  lemma ScaledIsFair(b: map<string, int>, m: Counts, cs: seq<string>, n: nat, rnd: Rounding, c: string)
    requires Distinct(cs) && HasBudgets(b, m, cs, n, rnd) && ScaledDown(m, cs, n) && c in cs
    ensures if c in m && m[c] > 0 then b[c] >= 1 else b[c] == 0
  {
    hide NoOverride, Filter, Allocated;
    ClassFacts(m, cs);
  }

  /** It hands out what all but the last class round to, and the rest, but at least one, to the
      last. So the total is the number of trials exactly when the others leave one over. */
  lemma ScaledTotal(b: map<string, int>, m: Counts, cs: seq<string>, n: nat, rnd: Rounding)
    requires Distinct(cs) && HasBudgets(b, m, cs, n, rnd) && ScaledDown(m, cs, n)
    ensures PositiveClasses(m, cs) != []
    ensures Total(b, cs) == Max(n, Allocated(m, cs, n, rnd) + 1)
    ensures Total(b, cs) == n <==> Allocated(m, cs, n, rnd) < n
  {
    hide NoOverride, Filter, Total, Share, Shares, Values;
    ClassFacts(m, cs);
    var es, us, ps := Explicit(m, cs), Unspecified(m, cs), PositiveClasses(m, cs);
    var last := ps[|ps| - 1];
    TotalByKind(b, m, cs);
    TotalZero(b, us);
    assert last in ps;
    TotalOfShares(b, m, n, ExplicitSum(m, cs), rnd, es, last);
  }

  /** The total is never too small, and too big by less than the number of positive classes. */
  lemma ScaledOvershoot(b: map<string, int>, m: Counts, cs: seq<string>, n: nat, rnd: Rounding)
    requires Distinct(cs) && HasBudgets(b, m, cs, n, rnd) && ScaledDown(m, cs, n) && WithinHalf(rnd)
    ensures n <= Total(b, cs) <= n + |PositiveClasses(m, cs)| - 1
  {
    hide HasBudgets, NoOverride, Filter, Total, Shares, Values, WithinHalf, Under;
    ClassFacts(m, cs);
    ScaledTotal(b, m, cs, n, rnd);
    var es, ps := Explicit(m, cs), PositiveClasses(m, cs);
    var last := ps[|ps| - 1];
    assert last in ps;
    SharesBound(m, n, ExplicitSum(m, cs), rnd, es, last);
    UnderGivesBound(Allocated(m, cs, n, rnd), ExplicitSum(m, cs), m[last], |ps|, n);
  }

  lemma UnderGivesBound(x: int, sum: nat, v: nat, k: nat, n: nat)
    requires k > 0 && v > 0 && n > 0 && sum > 0 && Under(x, sum - v, k - 1, n, sum)
    ensures k > 1 ==> x <= n + k - 2
    ensures k == 1 ==> x < n
  {
    assert (sum - v) * n == sum * n - v * n;
    assert v * n > 0;
    assert sum * n + (k - 1) * sum == (n + k - 1) * sum;
    Monotone(x, n + k - 1, sum);
  }

  lemma Monotone(x: int, y: int, s: int)
    requires s > 0
    ensures x >= y ==> x * s >= y * s
  {
  }

  /** In every other branch the budgets add up to the number of trials. */
  lemma OthersAreExact(b: map<string, int>, m: Counts, cs: seq<string>, n: nat, rnd: Rounding)
    requires Distinct(cs) && cs != [] && HasBudgets(b, m, cs, n, rnd) && !ScaledDown(m, cs, n)
    ensures Total(b, cs) == n
  {
    hide Filter, Total, Values, Share, Allocated;
    ClassFacts(m, cs);
    var es, us, ps := Explicit(m, cs), Unspecified(m, cs), PositiveClasses(m, cs);
    if NoOverride(m, cs) {
      hide Even;
      EvenTotal(b, cs, n);
    } else if ExplicitSum(m, cs) > n {
      TotalByKind(b, m, cs);
      TotalZero(b, us);
      OneEachPrefix(b, ps, n, |ps|);
      assert ps[..|ps|] == ps;
    } else {
      LeftoverTotal(b, m, cs, n, rnd);
    }
  }

  lemma {:induction false} TotalOfValues(b: map<string, int>, m: Counts, cs: seq<string>, last: Option<string>, extra: int)
    requires Distinct(cs) && forall c :: c in cs ==> c in m && c in b
    requires forall c :: c in cs ==> b[c] == m[c] + if Some(c) == last then extra else 0
    ensures Total(b, cs) == Values(m, cs) + if last.Some? && last.value in cs then extra else 0
  {
    if cs != [] {
      Snoc(cs);
      TotalOfValues(b, m, cs[..|cs| - 1], last, extra);
    }
  }

  lemma LeftoverTotal(b: map<string, int>, m: Counts, cs: seq<string>, n: nat, rnd: Rounding)
    requires Distinct(cs) && HasBudgets(b, m, cs, n, rnd) && !NoOverride(m, cs) && ExplicitSum(m, cs) <= n
    ensures Total(b, cs) == n
  {
    hide Filter, Total, Values, Share, Allocated, Even;
    ClassFacts(m, cs);
    TotalByKind(b, m, cs);
    var es, us, ps := Explicit(m, cs), Unspecified(m, cs), PositiveClasses(m, cs);
    var leftover := n - ExplicitSum(m, cs);
    if us == [] {
      assert ps[|ps| - 1] in ps;
      TotalOfValues(b, m, es, Some(ps[|ps| - 1]), leftover);
      TotalZero(b, us);
    } else {
      TotalOfValues(b, m, es, None, 0);
      EvenTotal(b, us, leftover);
    }
  }

  /** In every branch the budgets add up to at least the trials. */
  lemma TotalIsEnough(b: map<string, int>, m: Counts, cs: seq<string>, n: nat, rnd: Rounding)
    requires Distinct(cs) && cs != [] && HasBudgets(b, m, cs, n, rnd) && WithinHalf(rnd)
    ensures Total(b, cs) >= n
  {
    hide HasBudgets, Total, Values, WithinHalf, Filter, ScaledDown;
    if ScaledDown(m, cs, n) {
      ScaledOvershoot(b, m, cs, n, rnd);
    } else {
      OthersAreExact(b, m, cs, n, rnd);
    }
  }

  lemma BudgetsAreNatural(b: map<string, int>, m: Counts, cs: seq<string>, n: nat, rnd: Rounding, c: string)
    requires HasBudgets(b, m, cs, n, rnd) && c in cs
    ensures c in b && b[c] >= 0
  {
    hide Filter, Values, Shares;
  }

  /** The classes with a positive budget have all the trials. */
  lemma TotalOfPositive(b: map<string, int>, m: Counts, cs: seq<string>, n: nat, rnd: Rounding)
    requires HasBudgets(b, m, cs, n, rnd)
    ensures Total(b, Filter(cs, c => c in b && b[c] > 0)) == Total(b, cs)
  {
    hide HasBudgets, Total, Filter;
    forall c | c in cs
      ensures c in b && b[c] >= 0
    {
      BudgetsAreNatural(b, m, cs, n, rnd, c);
    }
    TotalSplits(b, cs, c => c in b && b[c] > 0, c => !(c in b && b[c] > 0));
    TotalZero(b, Filter(cs, c => !(c in b && b[c] > 0)));
  }

  /** Classes without a count of their own are treated alike, whether the whole search is split
      evenly or only the leftover: an earlier one gets as many trials as a later one, or one more. */
  lemma UncountedAreAlike(b: map<string, int>, m: Counts, cs: seq<string>, n: nat, rnd: Rounding, i: nat, j: nat)
    requires Distinct(cs) && HasBudgets(b, m, cs, n, rnd) && i < j < |cs|
    requires NoOverride(m, cs) || (cs[i] !in m && cs[j] !in m)
    ensures b[cs[j]] <= b[cs[i]] <= b[cs[j]] + 1
  {
    hide Values, Share, Shares, Allocated;
    var us := Unspecified(m, cs);
    assert b[cs[i]] == Budget(m, cs, n, rnd, cs[i]) && b[cs[j]] == Budget(m, cs, n, rnd, cs[j]);
    if !NoOverride(m, cs) {
      FilterKeepsOrder(cs, c => c !in m, i, j);
    }
  }

  lemma {:induction false} FilterKeepsOrder(cs: seq<string>, keep: string -> bool, i: nat, j: nat)
    requires Distinct(cs) && i < j < |cs| && keep(cs[i]) && keep(cs[j])
    ensures cs[i] in Filter(cs, keep) && cs[j] in Filter(cs, keep)
    ensures LastIndex(Filter(cs, keep), cs[i]) < LastIndex(Filter(cs, keep), cs[j])
  {
    hide Filter;
    var init, c := cs[..|cs| - 1], cs[|cs| - 1];
    Snoc(cs);
    FilterSnoc(init, keep, c);
    FilterDistinct(cs, keep);
    if j == |cs| - 1 {
      assert cs[i] in init;
      assert cs[i] in Filter(init, keep);
      LastOfSnoc(Filter(init, keep), cs[i], c);
    } else {
      FilterKeepsOrder(init, keep, i, j);
      if keep(c) {
        LastOfSnoc(Filter(init, keep), cs[i], c);
        LastOfSnoc(Filter(init, keep), cs[j], c);
      } else {
        assert Filter(init, keep) + [] == Filter(init, keep);
      }
    }
  }

  lemma LastOfSnoc(s: seq<string>, x: string, c: string)
    requires x in s && x != c
    ensures LastIndex(s + [c], x) == LastIndex(s, x) < |s| && LastIndex(s + [c], c) == |s|
  {
    assert (s + [c])[..|s|] == s;
  }

  // ------------------------------------------------------------------ the budgets, from the counts alone

  /** What the counts ask for, all in all. */
  function Asked(m: Counts, cs: seq<string>): nat {
    if cs == [] then 0 else
    var c := cs[|cs| - 1];
    Asked(m, cs[..|cs| - 1]) + if c in m then m[c] else 0
  }

  predicate IsPositive(m: Counts, c: string) {
    c in m && m[c] > 0
  }

  /** There is a count that is not zero, or a class without one. */
  ghost predicate SomethingAsked(m: Counts, cs: seq<string>) {
    m != map[] && exists c :: c in cs && (c !in m || m[c] > 0)
  }

  lemma {:induction false} AskedIsExplicit(m: Counts, cs: seq<string>)
    ensures Asked(m, cs) == ExplicitSum(m, cs)
  {
    hide Filter;
    if cs != [] {
      var init, c := cs[..|cs| - 1], cs[|cs| - 1];
      Snoc(cs);
      AskedIsExplicit(m, init);
      FilterSnoc(init, c => c in m, c);
      if c in m {
        assert (Explicit(m, init) + [c])[..|Explicit(m, init)|] == Explicit(m, init);
      } else {
        assert Explicit(m, init) + [] == Explicit(m, init);
      }
    } else {
      assert Explicit(m, []) == [] by {
        FilterAll([], c => c in m);
      }
    }
  }

  lemma {:induction false} FilterTwice(cs: seq<string>, keep: string -> bool, both: string -> bool)
    requires forall c :: both(c) ==> keep(c)
    ensures Filter(Filter(cs, keep), both) == Filter(cs, both)
  {
    hide Filter;
    if cs == [] {
      FilterAll(cs, keep);
      FilterAll(cs, both);
    } else {
      var init, c := cs[..|cs| - 1], cs[|cs| - 1];
      Snoc(cs);
      FilterTwice(init, keep, both);
      FilterSnoc(init, keep, c);
      FilterSnoc(init, both, c);
      FilterSnoc(Filter(init, keep), both, c);
      assert Filter(init, keep) + [] == Filter(init, keep) && Filter(init, both) + [] == Filter(init, both);
    }
  }

  lemma {:induction false} FilterSize(cs: seq<string>, keep: string -> bool)
    ensures |Filter(cs, keep)| == CountIf(cs, keep)
  {
    if cs != [] {
      FilterSize(cs[..|cs| - 1], keep);
    }
  }

  /** Where a class stands among those kept: after as many as were kept before it. */
  lemma {:induction false} FilterIndex(cs: seq<string>, keep: string -> bool, i: nat)
    requires Distinct(cs) && i < |cs| && keep(cs[i])
    ensures cs[i] in Filter(cs, keep) && LastIndex(Filter(cs, keep), cs[i]) == CountIf(cs[..i], keep)
  {
    hide Filter, CountIf;
    var init, c := cs[..|cs| - 1], cs[|cs| - 1];
    Snoc(cs);
    FilterSnoc(init, keep, c);
    if i == |cs| - 1 {
      FilterSize(init, keep);
      NewLast(Filter(init, keep), c);
    } else {
      FilterIndex(init, keep, i);
      assert init[..i] == cs[..i];
      if keep(c) {
        LastOfSnoc(Filter(init, keep), cs[i], c);
      } else {
        assert Filter(init, keep) + [] == Filter(init, keep);
      }
    }
  }

  lemma NewLast(s: seq<string>, c: string)
    ensures LastIndex(s + [c], c) == |s|
  {
  }

  /** The classes of each kind, found by looking at the counts. */
  lemma Kinds(m: Counts, cs: seq<string>)
    requires Distinct(cs)
    ensures ExplicitSum(m, cs) == Asked(m, cs)
    ensures PositiveClasses(m, cs) == Filter(cs, c => IsPositive(m, c))
    ensures |PositiveClasses(m, cs)| == CountIf(cs, c => IsPositive(m, c))
    ensures |Unspecified(m, cs)| == CountIf(cs, c => c !in m)
    ensures cs != [] ==> (NoOverride(m, cs) <==> !SomethingAsked(m, cs))
  {
    hide Filter, CountIf;
    AskedIsExplicit(m, cs);
    FilterTwice(cs, c => c in m, c => c in m && m[c] > 0);
    SamePositives(m, cs);
    FilterSize(cs, c => IsPositive(m, c));
    FilterSize(cs, c => c !in m);
    ClassFacts(m, cs);
    if Unspecified(m, cs) != [] {
      assert Unspecified(m, cs)[0] in Unspecified(m, cs);
    }
    if PositiveClasses(m, cs) != [] {
      assert PositiveClasses(m, cs)[0] in PositiveClasses(m, cs);
    }
  }

  lemma {:induction false} SamePositives(m: Counts, cs: seq<string>)
    ensures Filter(cs, c => c in m && m[c] > 0) == Filter(cs, c => IsPositive(m, c))
  {
    if cs != [] {
      SamePositives(m, cs[..|cs| - 1]);
    }
  }

  /** Where nothing is asked for, or only zeros for all, the trials are split evenly, the leading
      classes taking the remainder. */
  lemma NothingAskedIsEven(b: map<string, int>, m: Counts, cs: seq<string>, n: nat, rnd: Rounding, i: nat)
    requires Distinct(cs) && HasBudgets(b, m, cs, n, rnd) && !SomethingAsked(m, cs) && i < |cs|
    ensures b[cs[i]] == n / |cs| + if i < n % |cs| then 1 else 0
  {
    hide Filter, CountIf, NoOverride, Values, Shares;
    Kinds(m, cs);
    assert b[cs[i]] == Budget(m, cs, n, rnd, cs[i]);
  }

  /** An explicit zero skips the class, unless nothing else was asked for. */
  lemma ZeroIsSkipped(b: map<string, int>, m: Counts, cs: seq<string>, n: nat, rnd: Rounding, c: string)
    requires Distinct(cs) && HasBudgets(b, m, cs, n, rnd) && SomethingAsked(m, cs)
    requires c in cs && c in m && m[c] == 0
    ensures b[c] == 0
  {
    hide Filter, CountIf, NoOverride, Values, Shares, Allocated, SomethingAsked;
    Kinds(m, cs);
    ClassFacts(m, cs);
    var ps := PositiveClasses(m, cs);
    if ps != [] {
      assert ps[|ps| - 1] in ps;
    }
  }

  /** Counts that fit are honoured literally. What they leave goes to the classes without a count,
      evenly, the leading ones taking the remainder; if there is none, to the last positive class. */
  lemma FittingCountsAreHonoured(b: map<string, int>, m: Counts, cs: seq<string>, n: nat, rnd: Rounding, i: nat)
    requires Distinct(cs) && HasBudgets(b, m, cs, n, rnd) && SomethingAsked(m, cs)
    requires Asked(m, cs) <= n && i < |cs|
    ensures
      var c, left, uncounted := cs[i], n - Asked(m, cs), CountIf(cs, c => c !in m);
      && (c !in m ==> uncounted > 0)
      && (c !in m ==>
            b[c] == left / uncounted + if CountIf(cs[..i], c => c !in m) < left % uncounted then 1 else 0)
      && (c in m && uncounted > 0 ==> b[c] == m[c])
      && (c in m && uncounted == 0 ==>
            b[c] == m[c] + if m[c] > 0 && forall j :: i < j < |cs| ==> !IsPositive(m, cs[j]) then left else 0)
  {
    hide Filter, CountIf, NoOverride, Values, Shares, Allocated, SomethingAsked, IsPositive;
    Kinds(m, cs);
    ClassFacts(m, cs);
    var c, us, ps := cs[i], Unspecified(m, cs), PositiveClasses(m, cs);
    assert b[c] == Budget(m, cs, n, rnd, c);
    if c !in m {
      FilterIndex(cs, c => c !in m, i);
    } else if ps != [] {
      LastPositiveIs(m, cs, i);
    }
  }

  /** The last positive class is the one behind which no other is positive. */
  lemma LastPositiveIs(m: Counts, cs: seq<string>, i: nat)
    requires Distinct(cs) && i < |cs| && PositiveClasses(m, cs) != []
    ensures
      cs[i] == PositiveClasses(m, cs)[|PositiveClasses(m, cs)| - 1] <==>
      IsPositive(m, cs[i]) && forall j :: i < j < |cs| ==> !IsPositive(m, cs[j])
  {
    hide Filter, CountIf;
    Kinds(m, cs);
    var keep := c => IsPositive(m, c);
    var ps := PositiveClasses(m, cs);
    var last := ps[|ps| - 1];
    assert last in ps;
    FilterDistinct(cs, keep);
    var k :| 0 <= k < |cs| && cs[k] == last;
    forall j | 0 <= j < |cs| && IsPositive(m, cs[j])
      ensures j <= k
    {
      FilterIndex(cs, keep, j);
      if j > k {
        FilterKeepsOrder(cs, keep, k, j);
      }
    }
  }

  lemma {:induction false} AskedIsSomething(m: Counts, cs: seq<string>)
    requires Asked(m, cs) > 0
    ensures SomethingAsked(m, cs)
  {
    var init, c := cs[..|cs| - 1], cs[|cs| - 1];
    Snoc(cs);
    if !IsPositive(m, c) {
      AskedIsSomething(m, init);
      var d :| d in init && (d !in m || m[d] > 0);
      assert d in cs;
    } else {
      assert c in cs && c in m;
    }
  }

  /** With fewer trials than positive classes, the first of them get one trial each. */
  lemma FewTrialsGoFirst(b: map<string, int>, m: Counts, cs: seq<string>, n: nat, rnd: Rounding, i: nat)
    requires Distinct(cs) && HasBudgets(b, m, cs, n, rnd) && Asked(m, cs) > n
    requires CountIf(cs, c => IsPositive(m, c)) > n && i < |cs|
    ensures b[cs[i]] == if IsPositive(m, cs[i]) && CountIf(cs[..i], c => IsPositive(m, c)) < n then 1 else 0
  {
    hide Filter, CountIf, Values, Shares, Allocated, NoOverride, SomethingAsked, Even;
    Kinds(m, cs);
    AskedIsSomething(m, cs);
    ClassFacts(m, cs);
    assert b[cs[i]] == Budget(m, cs, n, rnd, cs[i]);
    if IsPositive(m, cs[i]) {
      FilterIndex(cs, c => IsPositive(m, c), i);
    }
  }

  /** Counts that do not fit are scaled down: every positive class but the last gets its proportion,
      rounded, and at least one trial; zeros and classes without a count get none. */
  lemma CutCountsAreProportional(b: map<string, int>, m: Counts, cs: seq<string>, n: nat, rnd: Rounding, i: nat)
    requires Distinct(cs) && HasBudgets(b, m, cs, n, rnd) && WithinHalf(rnd) && Asked(m, cs) > n
    requires CountIf(cs, c => IsPositive(m, c)) <= n && i < |cs|
    ensures !IsPositive(m, cs[i]) ==> b[cs[i]] == 0
    ensures IsPositive(m, cs[i]) ==> b[cs[i]] >= 1
    ensures IsPositive(m, cs[i]) && (exists j :: i < j < |cs| && IsPositive(m, cs[j])) ==>
      && b[cs[i]] * Asked(m, cs) < m[cs[i]] * n + Asked(m, cs)
      && 2 * m[cs[i]] * n <= 2 * b[cs[i]] * Asked(m, cs) + Asked(m, cs)
  {
    hide Filter, CountIf, Values, Shares, Allocated, WithinHalf, Share, NoOverride, SomethingAsked, Even;
    Kinds(m, cs);
    AskedIsSomething(m, cs);
    ClassFacts(m, cs);
    var c := cs[i];
    assert b[c] == Budget(m, cs, n, rnd, c);
    if IsPositive(m, c) {
      assert c in PositiveClasses(m, cs);
      LastPositiveIs(m, cs, i);
      ShareNearProportion(m, n, Asked(m, cs), rnd, c);
      ShareIsPositive(m, n, Asked(m, cs), rnd, c);
    }
  }

  lemma ShareIsPositive(m: Counts, n: nat, sum: nat, rnd: Rounding, c: string)
    requires c in m
    ensures Share(m, n, sum, rnd, c) >= 1
  {
  }

  // ------------------------------------------------------------------ the bound is attained

  lemma {:induction false} FilterAll(cs: seq<string>, keep: string -> bool)
    requires forall c :: c in cs ==> keep(c)
    ensures Filter(cs, keep) == cs
  {
    if cs != [] {
      Snoc(cs);
      FilterAll(cs[..|cs| - 1], keep);
    }
  }

  /** One big count in front of ones. */
  ghost predicate BigFirst(m: Counts, cs: seq<string>, v: nat) {
    forall i :: 0 <= i < |cs| ==> cs[i] in m && m[cs[i]] == if i == 0 then v else 1
  }

  lemma {:induction false} BigFirstValues(m: Counts, cs: seq<string>, v: nat, j: nat)
    requires BigFirst(m, cs, v) && 1 <= j <= |cs|
    ensures Values(m, cs[..j]) == v + j - 1
  {
    assert cs[..j][..j - 1] == cs[..j - 1];
    if j > 1 {
      BigFirstValues(m, cs, v, j - 1);
    }
  }

  lemma BigFirstShares(m: Counts, cs: seq<string>, v: nat, n: nat, sum: nat, rnd: Rounding)
    requires WithinHalf(rnd) && BigFirst(m, cs, v) && |cs| >= 2 && n >= |cs|
    requires sum == v + |cs| - 1 && 2 * n * (|cs| - 1) < sum
    ensures Share(m, n, sum, rnd, cs[0]) == n
    ensures forall i :: 1 <= i < |cs| ==> Share(m, n, sum, rnd, cs[i]) == 1
  {
    hide WithinHalf;
    NearBig(v, n, |cs| - 1, sum);
    NearSmall(n, |cs| - 1, sum);
    RoundsTo(rnd, v * n, sum, n);
    RoundsTo(rnd, 1 * n, sum, 0);
  }

  lemma NearBig(v: nat, n: nat, k: nat, sum: nat)
    requires sum == v + k && 2 * n * k < sum
    ensures 0 <= 2 * (n * sum - v * n) < sum
  {
    assert n * sum == n * v + n * k;
  }

  lemma NearSmall(n: nat, k: nat, sum: nat)
    requires 2 * n * k < sum && k >= 1 && n >= 1
    ensures 0 < 2 * n < sum
  {
    Monotone(k, 1, 2 * n);
  }

  /** Less than a half away from an integer there is only that integer to round to. */
  lemma RoundsTo(rnd: Rounding, p: nat, q: nat, r: int)
    requires WithinHalf(rnd) && q > 0 && 0 - q < 2 * (r * q - p) < q
    ensures rnd(p, q) == r
  {
    var b := rnd(p, q);
    assert 0 - q <= 2 * (b * q - p) <= q;
    assert b * q - r * q == (b - r) * q;
    Monotone(b - r, 1, q);
    Monotone(-1, b - r, q);
  }

  lemma {:induction false} BigFirstAllocated(
    m: Counts, cs: seq<string>, v: nat, n: nat, sum: nat, rnd: Rounding, j: nat)
    requires WithinHalf(rnd) && BigFirst(m, cs, v) && Distinct(cs) && |cs| >= 2 && n >= |cs| && v > 0
    requires sum == v + |cs| - 1 && 2 * n * (|cs| - 1) < sum && 1 <= j < |cs|
    ensures Shares(m, n, sum, rnd, cs[..j], cs[|cs| - 1]) == n + j - 1
  {
    hide WithinHalf, Share;
    BigFirstShares(m, cs, v, n, sum, rnd);
    assert cs[..j][..j - 1] == cs[..j - 1];
    if j > 1 {
      BigFirstAllocated(m, cs, v, n, sum, rnd, j - 1);
    }
  }

  /** The overshoot bound is tight: for any number of classes and trials, one count that is large
      enough and ones for the rest exceed the trials by one less than the number of classes. */
  lemma OvershootIsAttained(b: map<string, int>, m: Counts, cs: seq<string>, v: nat, n: nat, rnd: Rounding)
    requires Distinct(cs) && cs != [] && WithinHalf(rnd) && BigFirst(m, cs, v)
    requires n >= |cs| && v > n && 2 * n * (|cs| - 1) < v + |cs| - 1
    requires HasBudgets(b, m, cs, n, rnd)
    ensures ScaledDown(m, cs, n) && |PositiveClasses(m, cs)| == |cs| && Total(b, cs) == n + |cs| - 1
  {
    hide HasBudgets, WithinHalf, Share, Shares, Filter, Values, Total;
    BigFirstFacts(m, cs, v);
    ScaledTotal(b, m, cs, n, rnd);
    BigFirstLeaves(m, cs, v, n, rnd);
  }

  lemma BigFirstFacts(m: Counts, cs: seq<string>, v: nat)
    requires BigFirst(m, cs, v) && cs != [] && v > 0
    ensures Explicit(m, cs) == cs && PositiveClasses(m, cs) == cs && ExplicitSum(m, cs) == v + |cs| - 1 && m != map[]
  {
    hide Filter, Values;
    FilterAll(cs, c => c in m);
    FilterAll(cs, c => c in m && m[c] > 0);
    BigFirstValues(m, cs, v, |cs|);
    assert cs[..|cs|] == cs;
    assert cs[0] in m;
  }

  lemma BigFirstLeaves(m: Counts, cs: seq<string>, v: nat, n: nat, rnd: Rounding)
    requires WithinHalf(rnd) && BigFirst(m, cs, v) && Distinct(cs) && cs != [] && n >= |cs| && v > 0
    requires 2 * n * (|cs| - 1) < v + |cs| - 1
    requires PositiveClasses(m, cs) == cs == Explicit(m, cs) && ExplicitSum(m, cs) == v + |cs| - 1
    ensures Allocated(m, cs, n, rnd) == if |cs| >= 2 then n + |cs| - 2 else 0
  {
    hide WithinHalf, Share, Filter, Values;
    var last := cs[|cs| - 1];
    var sum := v + |cs| - 1;
    assert Shares(m, n, sum, rnd, cs, last) == Shares(m, n, sum, rnd, cs[..|cs| - 1], last);
    if |cs| == 1 {
      assert cs[..|cs| - 1] == [];
    } else {
      BigFirstAllocated(m, cs, v, n, v + |cs| - 1, rnd, |cs| - 1);
    }
  }

  /** Python's own rounding, four classes, four trials, counts 100, 1, 1, 1: seven trials. */
  lemma SevenForFour(b: map<string, int>)
    requires HasBudgets(b, map["a" := 100, "b" := 1, "c" := 1, "d" := 1], ["a", "b", "c", "d"], 4, HalfEven)
    ensures Total(b, ["a", "b", "c", "d"]) == 7
  {
    hide Total, HasBudgets;
    HalfEvenIsWithinHalf();
    var cs := ["a", "b", "c", "d"];
    var m: Counts := map["a" := 100, "b" := 1, "c" := 1, "d" := 1];
    assert cs[0] != cs[1] && cs[0] != cs[2] && cs[0] != cs[3] && cs[1] != cs[2] && cs[1] != cs[3] && cs[2] != cs[3] by {
      assert cs[0][0] == 'a' && cs[1][0] == 'b' && cs[2][0] == 'c' && cs[3][0] == 'd';
    }
    OvershootIsAttained(b, m, cs, 100, 4, HalfEven);
  }

  // ------------------------------------------------------------------ the method

  datatype BudgetError = UnknownAlias(alias: string)

  type Resolver = string -> Option<string>

  function Canonical(cs: seq<string>, resolve: Resolver, alias: string): Option<string> {
    if alias in cs then Some(alias) else resolve(alias)
  }

  /** The override that decides about `c` among the first `i`: the last one that means `c`. */
  ghost predicate Decides(cs: seq<string>, overrides: seq<(string, int)>, resolve: Resolver, i: nat, c: string, k: int) {
    && 0 <= k < i <= |overrides| && Canonical(cs, resolve, overrides[k].0) == Some(c)
    && forall l :: k < l < i ==> Canonical(cs, resolve, overrides[l].0) != Some(c)
  }

  ghost predicate Resolved(m: Counts, cs: seq<string>, overrides: seq<(string, int)>, resolve: Resolver, i: nat) {
    && (forall c, k :: Decides(cs, overrides, resolve, i, c, k) ==> c in m && m[c] == Max(0, overrides[k].1))
    && (forall c :: c in m ==> exists k :: Decides(cs, overrides, resolve, i, c, k))
  }

  /** Aliases become class names, later entries replace earlier ones, negative counts become 0. */
  method ResolveOverrides(cs: seq<string>, overrides: seq<(string, int)>, resolve: Resolver)
    returns (r: Result<Counts, BudgetError>)
    ensures r.Failure? <==> exists i :: 0 <= i < |overrides| && Canonical(cs, resolve, overrides[i].0).None?
    ensures r.Failure? ==> Canonical(cs, resolve, r.error.alias).None?
    ensures r.Success? ==> Resolved(r.value, cs, overrides, resolve, |overrides|)
    ensures r.Success? ==> (r.value == map[] <==> overrides == [])
  {
    var m: Counts := map[];
    for i := 0 to |overrides|
      invariant Resolved(m, cs, overrides, resolve, i)
      invariant forall k :: 0 <= k < i ==> Canonical(cs, resolve, overrides[k].0).Some?
      invariant m == map[] <==> i == 0
    {
      var (alias, count) := overrides[i];
      var name := Canonical(cs, resolve, alias);
      if name.None? {
        return Failure(UnknownAlias(alias));
      }
      ResolveOne(m, cs, overrides, resolve, i);
      m := m[name.value := if count > 0 then count else 0];
      assert name.value in m;
    }
    return Success(m);
  }

  lemma ResolveOne(m: Counts, cs: seq<string>, overrides: seq<(string, int)>, resolve: Resolver, i: nat)
    requires i < |overrides| && Resolved(m, cs, overrides, resolve, i) && Canonical(cs, resolve, overrides[i].0).Some?
    ensures
      var count: nat := if overrides[i].1 > 0 then overrides[i].1 else 0;
      Resolved(m[Canonical(cs, resolve, overrides[i].0).value := count], cs, overrides, resolve, i + 1)
  {
    hide Canonical;
    var name := Canonical(cs, resolve, overrides[i].0).value;
    var count: nat := if overrides[i].1 > 0 then overrides[i].1 else 0;
    var m' := m[name := count];
    forall c, k | Decides(cs, overrides, resolve, i + 1, c, k)
      ensures c in m' && m'[c] == Max(0, overrides[k].1)
    {
      if k < i {
        assert Decides(cs, overrides, resolve, i, c, k);
      }
    }
    var next := i + 1;
    forall c | c in m'
      ensures exists k :: Decides(cs, overrides, resolve, next, c, k)
    {
      if c == name {
        assert Decides(cs, overrides, resolve, next, c, i);
      } else {
        var k :| Decides(cs, overrides, resolve, i, c, k);
        assert Decides(cs, overrides, resolve, next, c, k);
      }
    }
  }

  /** Overwrites the budgets of `cs`; the leading classes absorb the remainder. */
  method SplitEvenly(before: map<string, int>, cs: seq<string>, n: nat) returns (b: map<string, int>)
    requires Distinct(cs) && cs != []
    ensures b.Keys == before.Keys + set c | c in cs
    ensures forall c :: c in b ==> if c in cs then b[c] == Even(cs, n, c) else c in before && b[c] == before[c]
  {
    b := before;
    var base, rem := n / |cs|, n % |cs|;
    for i := 0 to |cs|
      invariant b.Keys == before.Keys + set c | c in cs[..i]
      invariant forall c :: c in b ==> if c in cs[..i] then b[c] == Even(cs, n, c) else c in before && b[c] == before[c]
    {
      assert LastIndex(cs, cs[i]) == i;
      b := b[cs[i] := base + if i < rem then 1 else 0];
      assert cs[..i + 1] == cs[..i] + [cs[i]];
    }
    assert cs[..|cs|] == cs;
  }

  method GiveOneEach(before: map<string, int>, cs: seq<string>, n: nat) returns (b: map<string, int>)
    requires Distinct(cs)
    ensures b.Keys == before.Keys + set c | c in cs
    ensures forall c :: c in b ==> if c in cs then b[c] == OneEach(cs, n, c) else c in before && b[c] == before[c]
  {
    b := before;
    for i := 0 to |cs|
      invariant b.Keys == before.Keys + set c | c in cs[..i]
      invariant forall c :: c in b ==> if c in cs[..i] then b[c] == OneEach(cs, n, c) else c in before && b[c] == before[c]
    {
      assert LastIndex(cs, cs[i]) == i;
      b := b[cs[i] := if i < n then 1 else 0];
      assert cs[..i + 1] == cs[..i] + [cs[i]];
    }
    assert cs[..|cs|] == cs;
  }

  lemma {:induction false} LastIsLast(m: Counts, cs: seq<string>, i: nat, j: nat)
    requires Distinct(cs) && forall c :: c in cs ==> c in m
    requires i < j < |cs| && Positives(m, cs) != [] && cs[i] == Positives(m, cs)[|Positives(m, cs)| - 1]
    ensures m[cs[j]] == 0
  {
    hide Filter;
    var init, c := cs[..|cs| - 1], cs[|cs| - 1];
    Snoc(cs);
    PositivesSnoc(m, init, c);
    assert m[c] == 0;
    assert Positives(m, init) == Positives(m, cs);
    if j < |cs| - 1 {
      LastIsLast(m, init, i, j);
    }
  }

  /** What scaling gives a class when the others' shares come to `given`. */
  function Scaled(m: Counts, n: nat, sum: nat, rnd: Rounding, last: string, given: int, c: string): int
    requires c in m
  {
    if m[c] == 0 then 0 else if c != last then Share(m, n, sum, rnd, c) else Max(1, n - given)
  }

  /** The first `i` classes have their scaled budgets and nothing else has changed. */
  ghost predicate ScaledUpTo(b: map<string, int>, before: map<string, int>, m: Counts, es: seq<string>, i: nat,
                             value: string -> int)
    requires i <= |es|
  {
    && b.Keys == before.Keys + (set c | c in es[..i])
    && forall c :: c in b ==> if c in es[..i] then b[c] == value(c) else c in before && b[c] == before[c]
  }

  lemma ScaleOne(b: map<string, int>, before: map<string, int>, m: Counts, es: seq<string>, i: nat,
                 value: string -> int, value': string -> int)
    requires i < |es| && Distinct(es) && ScaledUpTo(b, before, m, es, i, value)
    requires forall c :: c in es[..i] ==> value'(c) == value(c)
    ensures ScaledUpTo(b[es[i] := value'(es[i])], before, m, es, i + 1, value')
  {
    assert es[..i + 1] == es[..i] + [es[i]];
  }

  lemma SharesSnoc(m: Counts, n: nat, sum: nat, rnd: Rounding, es: seq<string>, i: nat, last: string)
    requires i < |es| && forall c :: c in es ==> c in m
    ensures Shares(m, n, sum, rnd, es[..i + 1], last)
      == Shares(m, n, sum, rnd, es[..i], last) + if m[es[i]] > 0 && es[i] != last then Share(m, n, sum, rnd, es[i]) else 0
  {
    assert es[..i + 1][..i] == es[..i];
  }

  lemma NothingAfterLast(m: Counts, es: seq<string>, last: string, i: nat)
    requires Distinct(es) && forall c :: c in es ==> c in m
    requires Positives(m, es) != [] && last == Positives(m, es)[|Positives(m, es)| - 1]
    requires i < |es| && last in es[..i]
    ensures m[es[i]] == 0
  {
    hide Positives;
    var j :| 0 <= j < i && es[..i][j] == last;
    LastIsLast(m, es, j, i);
  }

  /** Proportional shares in class order; the last positive class gets what is left, but at least one. */
  method ScaleDown(before: map<string, int>, m: Counts, es: seq<string>, last: string, n: nat, sum: nat, rnd: Rounding)
    returns (b: map<string, int>)
    requires Distinct(es) && forall c :: c in es ==> c in m
    requires Positives(m, es) != [] && last == Positives(m, es)[|Positives(m, es)| - 1]
    ensures b.Keys == before.Keys + set c | c in es
    ensures forall c :: c in b ==>
      if c in es then b[c] == Scaled(m, n, sum, rnd, last, Shares(m, n, sum, rnd, es, last), c)
      else c in before && b[c] == before[c]
  {
    hide Positives, Share, Shares, ScaledUpTo;
    b := before;
    var given := 0;
    ghost var value := c => if c in m then Scaled(m, n, sum, rnd, last, given, c) else 0;
    NothingScaled(before, m, es, value);
    assert Shares(m, n, sum, rnd, es[..0], last) == 0 by { NothingShared(m, n, sum, rnd, last); assert es[..0] == []; }
    for i := 0 to |es|
      invariant given == Shares(m, n, sum, rnd, es[..i], last)
      invariant value == c => if c in m then Scaled(m, n, sum, rnd, last, given, c) else 0
      invariant ScaledUpTo(b, before, m, es, i, value)
    {
      var c := es[i];
      SharesSnoc(m, n, sum, rnd, es, i, last);
      if last in es[..i] {
        NothingAfterLast(m, es, last, i);
      }
      ghost var old_b := b;
      if m[c] == 0 {
        b := b[c := 0];
      } else if c == last {
        b := b[c := Max(1, n - given)];
      } else {
        var share := Share(m, n, sum, rnd, c);
        b := b[c := share];
        given := given + share;
      }
      ghost var value' := c => if c in m then Scaled(m, n, sum, rnd, last, given, c) else 0;
      ScaleOne(old_b, before, m, es, i, value, value');
      value := value';
    }
    AllScaled(b, before, m, es, value);
    assert es[..|es|] == es;
  }

  lemma NothingShared(m: Counts, n: nat, sum: nat, rnd: Rounding, last: string)
    ensures Shares(m, n, sum, rnd, [], last) == 0
  {
  }

  lemma NothingScaled(before: map<string, int>, m: Counts, es: seq<string>, value: string -> int)
    ensures ScaledUpTo(before, before, m, es, 0, value)
  {
  }

  lemma AllScaled(b: map<string, int>, before: map<string, int>, m: Counts, es: seq<string>, value: string -> int)
    requires ScaledUpTo(b, before, m, es, |es|, value)
    ensures b.Keys == before.Keys + set c | c in es
    ensures forall c :: c in b ==> if c in es then b[c] == value(c) else c in before && b[c] == before[c]
  {
    assert es[..|es|] == es;
  }

  method AssignCounts(before: map<string, int>, m: Counts, es: seq<string>) returns (b: map<string, int>)
    requires Distinct(es) && forall c :: c in es ==> c in m
    ensures b.Keys == before.Keys + set c | c in es
    ensures forall c :: c in b ==> if c in es then b[c] == m[c] else c in before && b[c] == before[c]
  {
    b := before;
    for i := 0 to |es|
      invariant b.Keys == before.Keys + set c | c in es[..i]
      invariant forall c :: c in b ==> if c in es[..i] then b[c] == m[c] else c in before && b[c] == before[c]
    {
      b := b[es[i] := m[es[i]]];
      assert es[..i + 1] == es[..i] + [es[i]];
    }
    assert es[..|es|] == es;
  }

  /** More is asked for than there is. */
  method CutBack(cs: seq<string>, n: nat, m: Counts, rnd: Rounding) returns (b: map<string, int>)
    requires Distinct(cs) && !NoOverride(m, cs) && ExplicitSum(m, cs) > n
    ensures b.Keys == (set c | c in cs) && HasBudgets(b, m, cs, n, rnd)
  {
    hide Share, Shares, Values, Filter, NoOverride;
    ClassFacts(m, cs);
    var explicit, nonzero := Explicit(m, cs), PositiveClasses(m, cs);
    b := map c | c in cs :: 0;
    if n < |nonzero| {
      b := GiveOneEach(b, nonzero, n);
    } else {
      b := ScaleDown(b, m, explicit, nonzero[|nonzero| - 1], n, ExplicitSum(m, cs), rnd);
    }
  }

  /** There is enough: explicit counts literally, the leftover to the others or to the last. */
  method HandOut(cs: seq<string>, n: nat, m: Counts, rnd: Rounding) returns (b: map<string, int>)
    requires Distinct(cs) && !NoOverride(m, cs) && ExplicitSum(m, cs) <= n
    ensures b.Keys == (set c | c in cs) && HasBudgets(b, m, cs, n, rnd)
  {
    hide Even, Share, Shares, Values, Filter, Allocated, HasBudgets;
    ClassFacts(m, cs);
    var explicit, unspecified, nonzero := Explicit(m, cs), Unspecified(m, cs), PositiveClasses(m, cs);
    b := map c | c in cs :: 0;
    b := AssignCounts(b, m, explicit);
    var leftover := n - ExplicitSum(m, cs);
    if leftover <= 0 {
      NothingLeft(unspecified);
    } else if unspecified != [] {
      b := SplitEvenly(b, unspecified, leftover);
    } else if nonzero != [] {
      assert nonzero[|nonzero| - 1] in nonzero;
      b := b[nonzero[|nonzero| - 1] := b[nonzero[|nonzero| - 1]] + leftover];
    }
    LeftoverBudgets(b, m, cs, n, rnd);
  }

  lemma LeftoverBudgets(b: map<string, int>, m: Counts, cs: seq<string>, n: nat, rnd: Rounding)
    requires Distinct(cs) && !NoOverride(m, cs) && ExplicitSum(m, cs) <= n && b.Keys == set c | c in cs
    requires
      var us, ps, leftover := Unspecified(m, cs), PositiveClasses(m, cs), n - ExplicitSum(m, cs);
      forall c :: c in cs ==>
        if c in us then b[c] == Even(us, leftover, c)
        else b[c] == m[c] + if us == [] && ps != [] && c == ps[|ps| - 1] then leftover else 0
    ensures HasBudgets(b, m, cs, n, rnd)
  {
    hide Even, Share, Shares, Values, Filter, Allocated;
  }

  lemma NothingLeft(cs: seq<string>)
    ensures forall c :: c in cs ==> Even(cs, 0, c) == 0
  {
  }

  /** The budgets under overrides that are already resolved. */
  method BudgetsFor(cs: seq<string>, n: nat, m: Counts, rnd: Rounding) returns (b: map<string, int>)
    requires Distinct(cs) && cs != []
    ensures b.Keys == (set c | c in cs) && HasBudgets(b, m, cs, n, rnd)
  {
    hide Even, Share, Shares, Values, Filter;
    if m == map[] || (ExplicitSum(m, cs) == 0 && Unspecified(m, cs) == []) {
      b := SplitEvenly(map[], cs, n);
    } else if ExplicitSum(m, cs) > n {
      b := CutBack(cs, n, m, rnd);
    } else {
      b := HandOut(cs, n, m, rnd);
    }
  }

  /** An unknown alias is refused; otherwise every class has its budget. */
  method ComputeBudgets(cs: seq<string>, n: nat, overrides: seq<(string, int)>, resolve: Resolver, rnd: Rounding)
    returns (r: Result<map<string, int>, BudgetError>, ghost m: Counts)
    requires Distinct(cs) && cs != []
    ensures r.Failure? <==> exists i :: 0 <= i < |overrides| && Canonical(cs, resolve, overrides[i].0).None?
    ensures r.Success? ==>
      && r.value.Keys == (set c | c in cs)
      && Resolved(m, cs, overrides, resolve, |overrides|) && HasBudgets(r.value, m, cs, n, rnd)
  {
    hide HasBudgets, Resolved, Canonical;
    m := map[];
    var resolved := ResolveOverrides(cs, overrides, resolve);
    if resolved.Failure? {
      return Failure(resolved.error), m;
    }
    m := resolved.value;
    var b := BudgetsFor(cs, n, resolved.value, rnd);
    return Success(b), m;
  }
}
