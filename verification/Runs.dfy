/** Runs of state machines: what every interleaving argument in this project starts from. */
module Runs {

  /** The state after a sequence of actions. */
  function Run<S, A>(step: (S, A) -> S, s: S, actions: seq<A>): S
    decreases |actions|
  {
    if actions == [] then s else Run(step, step(s, actions[0]), actions[1..])
  }

  lemma {:induction false} RunAppend<S, A>(step: (S, A) -> S, s: S, a: seq<A>, b: seq<A>)
    ensures Run(step, s, a + b) == Run(step, Run(step, s, a), b)
    decreases |a|
  {
    if a == [] {
      assert a + b == b;
    } else {
      RunAppend(step, step(s, a[0]), a[1..], b);
      assert (a + b)[1..] == a[1..] + b;
    }
  }

  lemma RunNothing<S, A>(step: (S, A) -> S, s: S)
    ensures Run(step, s, []) == s
  {
  }

  lemma RunOne<S, A>(step: (S, A) -> S, s: S, a: A)
    ensures Run(step, s, [a]) == step(s, a)
  {
    assert Run(step, step(s, a), []) == step(s, a);
  }

  lemma RunTwo<S, A>(step: (S, A) -> S, s: S, a: A, b: A)
    ensures Run(step, s, [a, b]) == step(step(s, a), b)
  {
    assert [a, b][1..] == [b];
    RunOne(step, step(s, a), b);
  }

  lemma RunThree<S, A>(step: (S, A) -> S, s: S, a: A, b: A, c: A)
    ensures Run(step, s, [a, b, c]) == step(step(step(s, a), b), c)
  {
    assert [a, b, c][1..] == [b, c];
    RunTwo(step, step(s, a), b, c);
  }

  lemma RunFirst<S, A>(step: (S, A) -> S, s: S, a: A, rest: seq<A>)
    ensures Run(step, s, [a] + rest) == Run(step, step(s, a), rest)
  {
    assert ([a] + rest)[1..] == rest;
  }

  /** What every step keeps, every run keeps. */
  lemma {:induction false} RunKeeps<S(!new), A(!new)>(step: (S, A) -> S, inv: S -> bool, s: S, actions: seq<A>)
    requires inv(s) && forall t, a :: inv(t) ==> inv(step(t, a))
    ensures inv(Run(step, s, actions))
    decreases |actions|
  {
    if actions != [] {
      RunKeeps(step, inv, step(s, actions[0]), actions[1..]);
    }
  }
}
