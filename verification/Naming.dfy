/** Choosing a name for a recipe file that could not be parsed. */
module Naming {

  /** `str(n)` */
  function Digits(n: nat): string
  {
    if n < 10 then ["0123456789"[n]] else Digits(n / 10) + ["0123456789"[n % 10]]
  }

  function DigitValue(c: char): int {
    c as int - '0' as int
  }

  function NumberOf(s: string): int
  {
    if s == [] then 0 else NumberOf(s[..|s| - 1]) * 10 + DigitValue(s[|s| - 1])
  }

  lemma {:induction false} NumberOfDigits(n: nat)
    ensures NumberOf(Digits(n)) == n
  {
    var c := "0123456789"[n % 10];
    assert DigitValue(c) == n % 10;
    if n >= 10 {
      NumberOfDigits(n / 10);
      assert (Digits(n / 10) + [c])[..|Digits(n / 10)|] == Digits(n / 10);
    } else {
      assert Digits(n)[..0] == [];
    }
  }

  /** `base`, `base_1`, `base_2`, ... */
  function Candidate(base: string, k: nat): string {
    if k == 0 then base else base + "_" + Digits(k)
  }

  lemma CandidatesLook(base: string)
    ensures Candidate(base, 0) == base && Candidate(base, 1) == base + "_1" && Candidate(base, 12) == base + "_12"
  {
    assert Digits(12) == Digits(1) + ["0123456789"[2]];
  }

  lemma CandidatesDiffer(base: string, j: nat, k: nat)
    requires j != k
    ensures Candidate(base, j) != Candidate(base, k)
  {
    if Candidate(base, j) == Candidate(base, k) && j != 0 && k != 0 {
      assert Digits(j) == Candidate(base, j)[|base| + 1..] == Digits(k);
      NumberOfDigits(j);
      NumberOfDigits(k);
    }
  }

  function Tried(base: string, k: nat): set<string> {
    set j | 0 <= j < k :: Candidate(base, j)
  }

  lemma TryingShrinks(base: string, taken: set<string>, k: nat)
    requires Candidate(base, k) in taken
    ensures |taken - Tried(base, k + 1)| < |taken - Tried(base, k)|
  {
    var c := Candidate(base, k);
    forall j | 0 <= j < k
      ensures Candidate(base, j) != c
    {
      CandidatesDiffer(base, j, k);
    }
    assert c in taken - Tried(base, k);
    assert taken - Tried(base, k + 1) == taken - Tried(base, k) - {c};
  }

  /** The first candidate from number `k` on that is not taken; the search ends because only
      finitely many names are taken and no candidate repeats. */
  function FirstFree(base: string, taken: set<string>, k: nat): (name: string)
    ensures name !in taken
    decreases |taken - Tried(base, k)|
  {
    if Candidate(base, k) !in taken then Candidate(base, k)
    else
      TryingShrinks(base, taken, k);
      FirstFree(base, taken, k + 1)
  }

  /** The name returned carries the smallest number that yields an untaken name. */
  lemma {:induction false} FirstFreeIsLeast(base: string, taken: set<string>, k: nat) returns (n: nat)
    ensures k <= n && FirstFree(base, taken, k) == Candidate(base, n)
    ensures forall j :: k <= j < n ==> Candidate(base, j) in taken
    decreases |taken - Tried(base, k)|
  {
    hide Candidate;
    if Candidate(base, k) !in taken {
      n := k;
    } else {
      TryingShrinks(base, taken, k);
      n := FirstFreeIsLeast(base, taken, k + 1);
    }
  }

  /** The loop ends, and returns an untaken name: the first one in the candidate order. */
  method DedupStubName(base: string, taken: set<string>) returns (candidate: string)
    ensures candidate == FirstFree(base, taken, 0)
  {
    candidate := base;
    var suffix := 0;
    while candidate in taken
      invariant suffix >= 0 && candidate == Candidate(base, suffix)
      invariant FirstFree(base, taken, 0) == FirstFree(base, taken, suffix)
      decreases |taken - Tried(base, suffix)|
    {
      TryingShrinks(base, taken, suffix);
      suffix := suffix + 1;
      candidate := base + "_" + Digits(suffix);
    }
  }
}
