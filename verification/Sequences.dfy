/** Small notions on sequences and integers that several components share. */
module Sequences {

  predicate Distinct<T(==)>(s: seq<T>) {
    forall i, j :: 0 <= i < j < |s| ==> s[i] != s[j]
  }

  /** The position of the last `x`; in a sequence without repetitions, of the only one. */
  function LastIndex<T(==)>(s: seq<T>, x: T): (i: nat)
    requires x in s
    ensures i < |s| && s[i] == x
  {
    if s[|s| - 1] == x then |s| - 1
    else
      assert s == s[..|s| - 1] + [s[|s| - 1]];
      LastIndex(s[..|s| - 1], x)
  }

  lemma {:induction false} LastIndexIsLast<T>(s: seq<T>, x: T, i: nat)
    requires i < |s| && s[i] == x
    ensures i <= LastIndex(s, x)
  {
    if s[|s| - 1] != x {
      LastIndexIsLast(s[..|s| - 1], x, i);
    }
  }

  function Min(a: int, b: int): int {
    if a <= b then a else b
  }

  function Max(a: int, b: int): int {
    if a >= b then a else b
  }

  function CountIf<T>(s: seq<T>, p: T -> bool): nat {
    if s == [] then 0 else CountIf(s[..|s| - 1], p) + if p(s[|s| - 1]) then 1 else 0
  }

  lemma {:induction false} CountUpdate<T>(s: seq<T>, i: nat, x: T, p: T -> bool)
    requires i < |s|
    ensures CountIf(s[i := x], p) == CountIf(s, p) - (if p(s[i]) then 1 else 0) + if p(x) then 1 else 0
  {
    var init := s[..|s| - 1];
    if i < |s| - 1 {
      CountUpdate(init, i, x, p);
      assert s[i := x][..|s| - 1] == init[i := x];
    } else {
      assert s[i := x][..|s| - 1] == init;
    }
  }

  lemma CountSnoc<T>(s: seq<T>, x: T, p: T -> bool)
    ensures CountIf(s + [x], p) == CountIf(s, p) + if p(x) then 1 else 0
  {
    assert (s + [x])[..|s|] == s;
  }

  lemma CountNothing<T>(p: T -> bool)
    ensures CountIf([], p) == 0
  {
  }

  lemma {:induction false} CountNone<T>(s: seq<T>, p: T -> bool)
    requires forall i :: 0 <= i < |s| ==> !p(s[i])
    ensures CountIf(s, p) == 0
  {
    if s != [] {
      CountNone(s[..|s| - 1], p);
    }
  }

  lemma {:induction false} CountAtMost<T>(s: seq<T>, p: T -> bool)
    ensures CountIf(s, p) <= |s|
    ensures CountIf(s, p) == |s| ==> forall i :: 0 <= i < |s| ==> p(s[i])
  {
    if s != [] {
      CountAtMost(s[..|s| - 1], p);
    }
  }

  lemma {:induction false} CountAppend<T>(a: seq<T>, b: seq<T>, p: T -> bool)
    ensures CountIf(a + b, p) == CountIf(a, p) + CountIf(b, p)
  {
    if b == [] {
      assert a + b == a;
    } else {
      var init, x := b[..|b| - 1], b[|b| - 1];
      CountAppend(a, init, p);
      CountSnoc(a + init, x, p);
      assert a + b == (a + init) + [x];
    }
  }

  lemma {:induction false} CountRepeat<T>(n: nat, x: T, p: T -> bool)
    ensures CountIf(seq(n, _ => x), p) == if p(x) then n else 0
  {
    if n > 0 {
      CountRepeat(n - 1, x, p);
      assert seq(n, _ => x)[..n - 1] == seq(n - 1, _ => x);
    }
  }
}
