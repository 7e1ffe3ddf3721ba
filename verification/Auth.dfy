/** API-key verification and the bounded memory of hosts that were let through anonymously. */
module Auth {
  import opened Wrappers
  import opened Sequences

  // ------------------------------------------------------------------ least recently used

  const CAP := 1024

  function Without<T(==)>(s: seq<T>, x: T): (r: seq<T>)
    ensures x !in s ==> r == s
    ensures x in s ==> |r| == |s| - 1
  {
    if s == [] then [] else if s[0] == x then s[1..] else [s[0]] + Without(s[1..], x)
  }

  /** All hosts of a history, in the order of their last access. */
  function ByRecency<T(==)>(history: seq<T>): seq<T> {
    if history == [] then [] else
    var host := history[|history| - 1];
    Without(ByRecency(history[..|history| - 1]), host) + [host]
  }

  lemma {:induction false} WithoutAt<T>(s: seq<T>, x: T, k: nat)
    requires k < |s| && s[k] == x && x !in s[..k]
    ensures Without(s, x) == s[..k] + s[k + 1..]
  {
    if k > 0 {
      assert s[1..][..k - 1] == s[..k][1..];
      assert s[0] in s[..k];
      WithoutAt(s[1..], x, k - 1);
    }
  }

  lemma WithoutDrops<T>(s: seq<T>, x: T)
    requires Distinct(s)
    ensures x !in Without(s, x) && Distinct(Without(s, x))
    ensures forall y :: y in Without(s, x) <==> y in s && y != x
  {
    if x in s {
      var k :| 0 <= k < |s| && s[k] == x;
      WithoutAt(s, x, k);
      forall y | y in s && y != x
        ensures y in s[..k] + s[k + 1..]
      {
        var i :| 0 <= i < |s| && s[i] == y;
        assert (s[..k] + s[k + 1..])[if i < k then i else i - 1] == y;
      }
    }
  }

  ghost predicate InOrder<T>(history: seq<T>, r: seq<T>) {
    && (forall h :: h in r ==> h in history)
    && forall i, j :: 0 <= i < j < |r| ==> LastIndex(history, r[i]) < LastIndex(history, r[j])
  }

  lemma SameLastAccess<T>(history: seq<T>, host: T, h: T)
    requires h in history && h != host
    ensures h in history + [host] && LastIndex(history + [host], h) == LastIndex(history, h)
  {
    assert (history + [host])[..|history|] == history;
  }

  lemma RemovalKeepsOrder<T>(history: seq<T>, r: seq<T>, host: T)
    requires InOrder(history, r)
    ensures InOrder(history, Without(r, host))
  {
    hide LastIndex, Without;
    if host in r {
      FirstIn(r, host);
      var k :| 0 <= k < |r| && r[k] == host && host !in r[..k];
      WithoutAt(r, host, k);
      var w := r[..k] + r[k + 1..];
      forall i | 0 <= i < |w|
        ensures w[i] == r[if i < k then i else i + 1]
      {
      }
      assert forall h :: h in w ==> h in r;
    }
  }

  lemma {:induction false} FirstIn<T>(r: seq<T>, x: T)
    requires x in r
    ensures exists k :: 0 <= k < |r| && r[k] == x && x !in r[..k]
  {
    if r[0] == x {
      assert x !in r[..0];
    } else {
      FirstIn(r[1..], x);
      var k :| 0 <= k < |r[1..]| && r[1..][k] == x && x !in r[1..][..k];
      assert r[..k + 1] == [r[0]] + r[1..][..k];
      assert r[k + 1] == x;
    }
  }

  lemma AccessKeepsOrder<T>(history: seq<T>, r: seq<T>, host: T)
    requires InOrder(history, r) && Distinct(r)
    ensures InOrder(history + [host], Without(r, host) + [host])
  {
    hide LastIndex;
    var w := Without(r, host);
    RemovalKeepsOrder(history, r, host);
    WithoutDrops(r, host);
    forall h | h in w
      ensures h in history + [host] && LastIndex(history + [host], h) == LastIndex(history, h) < |history|
    {
      SameLastAccess(history, host, h);
    }
    LastIndexIsLast(history + [host], host, |history|);
  }

  /** What makes the list the right one: it holds every host once, in the order of last access. */
  lemma {:induction false} ByRecencyIsOrdered<T>(history: seq<T>)
    ensures var r := ByRecency(history); Distinct(r) && InOrder(history, r) && forall h :: h in r <==> h in history
  {
    if history != [] {
      hide InOrder;
      var init, host := history[..|history| - 1], history[|history| - 1];
      assert history == init + [host];
      ByRecencyIsOrdered(init);
      WithoutDrops(ByRecency(init), host);
      AccessKeepsOrder(init, ByRecency(init), host);
    } else {
      assert InOrder<T>([], []);
    }
  }

  function Suffix<T(==)>(r: seq<T>, cap: nat): seq<T> {
    r[|r| - Min(cap, |r|)..]
  }

  /** The `cap` hosts of the history that were accessed last. */
  function MostRecent<T(==)>(history: seq<T>, cap: nat): seq<T> {
    Suffix(ByRecency(history), cap)
  }

  /** What the bounded dictionary becomes: a known host moves to the tail, a new one evicts the
      head if the dictionary is full. */
  function Touched<T(==)>(order: seq<T>, cap: nat, host: T): seq<T> {
    if host in order then Without(order, host) + [host]
    else (if |order| >= cap && order != [] then order[1..] else order) + [host]
  }

  lemma {:induction false} WithoutBehind<T>(a: seq<T>, b: seq<T>, x: T)
    requires x !in a
    ensures Without(a + b, x) == a + Without(b, x)
  {
    if a == [] {
      assert a + b == b;
    } else {
      var head, tail := a[0], a[1..];
      assert a == [head] + tail;
      assert (a + b)[1..] == tail + b && (a + b)[0] == head;
      assert head in a && head != x;
      WithoutBehind(tail, b, x);
      assert Without(a + b, x) == [head] + (tail + Without(b, x));
    }
  }

  lemma {:induction false} WithoutInFront<T>(a: seq<T>, b: seq<T>, x: T)
    requires x in a
    ensures Without(a + b, x) == Without(a, x) + b
  {
    var head, tail := a[0], a[1..];
    assert a == [head] + tail;
    assert (a + b)[1..] == tail + b && (a + b)[0] == head;
    if head != x {
      WithoutInFront(tail, b, x);
      assert Without(a + b, x) == [head] + (Without(tail, x) + b);
    }
  }

  lemma SuffixIs<T>(a: seq<T>, b: seq<T>, cap: nat)
    requires |b| == Min(cap, |a| + |b|)
    ensures Suffix(a + b, cap) == b
  {
  }

  lemma NotInBoth<T>(p: seq<T>, s: seq<T>, x: T)
    requires Distinct(p + s) && x in s
    ensures x !in p
  {
    var j :| 0 <= j < |s| && s[j] == x;
    forall i | 0 <= i < |p|
      ensures p[i] != x
    {
      assert (p + s)[i] != (p + s)[|p| + j];
    }
  }

  lemma TouchKnown<T>(p: seq<T>, s: seq<T>, cap: nat, host: T)
    requires Distinct(p + s) && host in s && |s| == Min(cap, |p| + |s|)
    ensures Suffix(Without(p + s, host) + [host], cap) == Without(s, host) + [host]
  {
    hide Suffix, Distinct;
    NotInBoth(p, s, host);
    WithoutBehind(p, s, host);
    assert p + Without(s, host) + [host] == p + (Without(s, host) + [host]);
    SuffixIs(p, Without(s, host) + [host], cap);
  }

  lemma TouchForgotten<T>(p: seq<T>, s: seq<T>, cap: nat, host: T)
    requires host in p && host !in s && cap > 0 && |s| == cap
    ensures Suffix(Without(p + s, host) + [host], cap) == s[1..] + [host]
  {
    hide Suffix;
    WithoutInFront(p, s, host);
    var w := Without(p, host);
    assert w + s + [host] == (w + [s[0]]) + (s[1..] + [host]);
    SuffixIs(w + [s[0]], s[1..] + [host], cap);
  }

  lemma TouchNew<T>(p: seq<T>, s: seq<T>, cap: nat, host: T)
    requires host !in p && host !in s && cap > 0 && |s| == Min(cap, |p| + |s|)
    ensures Suffix(Without(p + s, host) + [host], cap) == (if |s| == cap then s[1..] else s) + [host]
  {
    hide Suffix;
    assert host !in p + s;
    if |s| == cap {
      assert p + s + [host] == (p + [s[0]]) + (s[1..] + [host]);
      SuffixIs(p + [s[0]], s[1..] + [host], cap);
    } else {
      assert p + s + [host] == p + (s + [host]);
      SuffixIs(p, s + [host], cap);
    }
  }

  lemma TouchSuffix<T>(p: seq<T>, s: seq<T>, cap: nat, host: T)
    requires Distinct(p + s) && cap > 0 && |s| == Min(cap, |p| + |s|)
    ensures Suffix(Without(p + s, host) + [host], cap) == Touched(s, cap, host)
  {
    hide Suffix, Distinct;
    if host in s {
      TouchKnown(p, s, cap, host);
    } else if host in p {
      TouchForgotten(p, s, cap, host);
    } else {
      TouchNew(p, s, cap, host);
    }
  }

  /** One access keeps the bounded dictionary equal to the most recent part of the history. */
  lemma TouchKeepsMostRecent<T>(history: seq<T>, cap: nat, host: T)
    requires cap > 0
    ensures MostRecent(history + [host], cap) == Touched(MostRecent(history, cap), cap, host)
  {
    hide Touched;
    var r := ByRecency(history);
    var cut := |r| - Min(cap, |r|);
    assert r == r[..cut] + r[cut..];
    assert (history + [host])[..|history|] == history;
    ByRecencyIsOrdered(history);
    TouchSuffix(r[..cut], r[cut..], cap, host);
  }

  /** The hosts accessed since the last access of `host`, each counted once. */
  function Since<T(==)>(history: seq<T>, host: T): set<T>
    requires host in history
  {
    set i | LastIndex(history, host) < i < |history| :: history[i]
  }

  function Elements<T(==)>(s: seq<T>): set<T> {
    set i | 0 <= i < |s| :: s[i]
  }

  lemma {:induction false} DistinctSize<T>(s: seq<T>)
    requires Distinct(s)
    ensures |Elements(s)| == |s|
  {
    if s != [] {
      var init := s[..|s| - 1];
      DistinctSize(init);
      assert s[|s| - 1] !in Elements(init);
      assert Elements(s) == Elements(init) + {s[|s| - 1]};
    }
  }

  /** In terms of the history alone: a host has been forgotten exactly if it was never seen or at
      least `cap` other hosts have been seen since. */
  lemma ForgottenIff<T>(history: seq<T>, cap: nat, host: T)
    ensures host !in MostRecent(history, cap) <==> host !in history || |Since(history, host)| >= cap
  {
    ByRecencyIsOrdered(history);
    var r := ByRecency(history);
    if host in history {
      var k :| 0 <= k < |r| && r[k] == host;
      var later := r[k + 1..];
      DistinctSize(later);
      assert Elements(later) == Since(history, host) by {
        SinceIsLater(history, r, k);
      }
      assert host in MostRecent(history, cap) <==> k >= |r| - Min(cap, |r|);
    }
  }

  lemma SinceIsLater<T>(history: seq<T>, r: seq<T>, k: nat)
    requires k < |r| && Distinct(r) && InOrder(history, r) && forall h :: h in r <==> h in history
    ensures r[k] in history && Elements(r[k + 1..]) == Since(history, r[k])
  {
    assert r[k] in history;
    forall h | h in Elements(r[k + 1..])
      ensures h in Since(history, r[k])
    {
      var i :| 0 <= i < |r[k + 1..]| && r[k + 1..][i] == h;
      assert r[k + 1 + i] == h;
      assert history[LastIndex(history, h)] == h;
    }
    forall h | h in Since(history, r[k])
      ensures h in Elements(r[k + 1..])
    {
      var i :| LastIndex(history, r[k]) < i < |history| && history[i] == h;
      LastIndexIsLast(history, h, i);
      assert h in r;
      var j :| 0 <= j < |r| && r[j] == h;
      assert j > k;
      assert r[k + 1..][j - k - 1] == h;
    }
  }

  class AnonymousAudit {
    var seen: seq<string>
    ghost var history: seq<string>

    ghost predicate Valid()
      reads this
    {
      seen == MostRecent(history, CAP)
    }

    constructor ()
      ensures Valid() && history == []
    {
      seen, history := [], [];
    }

    /** One anonymous request; `first` tells whether the first-seen event is logged. */
    method Record(host: string) returns (first: bool)
      requires Valid()
      modifies this
      ensures Valid() && history == old(history) + [host] && |seen| <= 1024
      ensures first <==> host !in old(history) || |Since(old(history), host)| >= 1024
    {
      hide MostRecent, Since;
      ForgottenIff(history, CAP, host);
      TouchKeepsMostRecent(history, CAP, host);
      MostRecentFits(history, CAP);
      MostRecentFits(history + [host], CAP);
      first := host !in seen;
      if first {
        if |seen| >= CAP {
          seen := seen[1..];
        }
        seen := seen + [host];
      } else {
        seen := Without(seen, host) + [host];
      }
      history := history + [host];
    }
  }

  lemma MostRecentFits<T>(history: seq<T>, cap: nat)
    ensures |MostRecent(history, cap)| <= cap
  {
  }

  // ------------------------------------------------------------------ API keys

  const MIN_LEN := 32
  const MAX_LEN := 256

  datatype ApiKey = ApiKey(kid: string, digest: string)

  datatype AuthError = MissingKey | InvalidKey

  /** The scrypt digest is computed once whatever the request, on the header or on a dummy of
      canonical length. A key is accepted exactly when its length is in range and some entry has
      its digest, and is attributed to the first such entry. */
  method VerifyApiKey(header: Option<string>, keys: seq<ApiKey>, digest: string -> string)
    returns (r: Result<string, AuthError>, hashed: string)
    requires keys != []
    ensures r.Success? <==>
      header.Some? && 32 <= |header.value| <= 256
      && exists i :: 0 <= i < |keys| && keys[i].digest == digest(header.value)
    ensures r.Success? ==>
      exists i :: 0 <= i < |keys| && keys[i] == ApiKey(r.value, digest(header.value))
                  && forall j :: 0 <= j < i ==> keys[j].digest != digest(header.value)
    ensures r.Failure? ==> r.error == if header.None? then MissingKey else InvalidKey
    ensures if header.Some? && 32 <= |header.value| <= 256 then hashed == header.value
            else |hashed| == 256
  {
    var dummy := seq(MAX_LEN, _ => '\0');
    if header.None? {
      return Failure(MissingKey), dummy;
    }
    if |header.value| > MAX_LEN || |header.value| < MIN_LEN {
      return Failure(InvalidKey), dummy;
    }
    hashed := header.value;
    var candidate := digest(hashed);
    var matchedKid: Option<string> := None;
    var matched := false;
    for i := 0 to |keys|
      invariant matched == matchedKid.Some?
      invariant matched ==>
        exists k :: 0 <= k < i && keys[k] == ApiKey(matchedKid.value, candidate)
                    && forall j :: 0 <= j < k ==> keys[j].digest != candidate
      invariant !matched ==> forall j :: 0 <= j < i ==> keys[j].digest != candidate
    {
      if keys[i].digest == candidate {
        if matchedKid.None? {
          matchedKid := Some(keys[i].kid);
        }
        matched := true;
      }
    }
    if matched {
      return Success(matchedKid.value), hashed;
    }
    return Failure(InvalidKey), hashed;
  }
}
