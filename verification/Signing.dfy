/** Key rings and the HMAC over an artifact. SHA-256 and HMAC-SHA256 are parameters:
    nothing here depends on what they compute. */
module Signing {
  import opened Wrappers
  import opened ByteStrings
  import opened Utf8

  datatype Crypto = Crypto(sha256: bytes -> Digest, hmac: (bytes, bytes) -> Digest)

  /** One `<kid>:<hex64>` item after splitting at the colon; `key` is what `bytes.fromhex`
      returned, or `None` when it raised. */
  datatype RawEntry = NoColon | RawEntry(kid: Text, key: Option<bytes>)

  datatype RingError =
    | NoEntries | Malformed | EmptyKid | BadHex | BadKeyLength | DuplicateKid | KidLooksLikeKey

  datatype KeyRing = KeyRing(order: seq<Text>, keys: map<Text, bytes>) {

    /** What construction guarantees: the keys are listed once each, and there is one. */
    ghost predicate Valid() {
      && order != []
      && (forall kid :: kid in keys <==> kid in order)
      && (forall i, j :: 0 <= i < j < |order| ==> order[i] != order[j])
    }

    function ActiveKid(): Text
      requires order != []
    {
      order[0]
    }

    function Get(kid: Text): Option<bytes> {
      if kid in keys then Some(keys[kid]) else None
    }
  }

  predicate HexScalar(c: Scalar) {
    48 <= c <= 57 || 97 <= c <= 102 || 65 <= c <= 70
  }

  /** Why an entry is refused, given the key ids accepted before it. */
  function EntryError(seen: set<Text>, e: RawEntry): Option<RingError>
  {
    if e.NoColon? then Some(Malformed)
    else if e.kid == [] then Some(EmptyKid)
    else if e.key.None? then Some(BadHex)
    else if |e.key.value| != 32 then Some(BadKeyLength)
    else if e.kid in seen then Some(DuplicateKid)
    else if |e.kid| >= 32 && forall i :: 0 <= i < |e.kid| ==> HexScalar(e.kid[i]) then Some(KidLooksLikeKey)
    else None
  }

  /** Which entries are refused, and why: the first of these complaints that applies. */
  lemma RefusedBecause(seen: set<Text>, e: RawEntry)
    ensures e.NoColon? <==> EntryError(seen, e) == Some(Malformed)
    ensures e.RawEntry? ==>
      && (e.kid == [] <==> EntryError(seen, e) == Some(EmptyKid))
      && (e.kid != [] && e.key.None? <==> EntryError(seen, e) == Some(BadHex))
      && (e.kid != [] && e.key.Some? && |e.key.value| != 32 <==> EntryError(seen, e) == Some(BadKeyLength))
      && (e.kid != [] && e.key.Some? && |e.key.value| == 32 && e.kid in seen <==> EntryError(seen, e) == Some(DuplicateKid))
      && (EntryError(seen, e).None? <==>
            e.kid != [] && e.key.Some? && |e.key.value| == 32 && e.kid !in seen
            && !(|e.kid| >= 32 && forall i :: 0 <= i < |e.kid| ==> HexScalar(e.kid[i])))
  {
  }

  lemma AcceptedEntry(seen: set<Text>, e: RawEntry)
    requires EntryError(seen, e).None?
    ensures e.RawEntry? && e.key.Some? && e.kid !in seen
  {
  }

  function Kids(entries: seq<RawEntry>): set<Text>
  {
    set i | 0 <= i < |entries| && entries[i].RawEntry? :: entries[i].kid
  }

  /** The first `n` entries are all acceptable. */
  ghost predicate Acceptable(entries: seq<RawEntry>, n: nat)
    requires n <= |entries|
  {
    forall i :: 0 <= i < n ==> EntryError(Kids(entries[..i]), entries[i]).None?
  }

  /** `ring` holds exactly the keys of the first `n` entries, in their order. */
  ghost predicate Holds(ring: KeyRing, entries: seq<RawEntry>, n: nat)
    requires n <= |entries|
  {
    && |ring.order| == n
    && (forall kid :: kid in ring.keys <==> kid in ring.order)
    && (forall i, j :: 0 <= i < j < n ==> ring.order[i] != ring.order[j])
    && forall i :: 0 <= i < n ==>
      entries[i].RawEntry? && ring.order[i] == entries[i].kid && ring.Get(entries[i].kid) == entries[i].key
  }

  function Add(ring: KeyRing, kid: Text, key: bytes): KeyRing {
    KeyRing(ring.order + [kid], ring.keys[kid := key])
  }

  lemma HeldKids(ring: KeyRing, entries: seq<RawEntry>, n: nat)
    requires n <= |entries| && Holds(ring, entries, n)
    ensures ring.keys.Keys == Kids(entries[..n])
  {
    forall i | 0 <= i < n
      ensures entries[i].kid in ring.keys
    {
      assert ring.order[i] in ring.order;
    }
  }

  lemma HoldsAfterAdd(ring: KeyRing, entries: seq<RawEntry>, n: nat)
    requires n < |entries| && Holds(ring, entries, n)
    requires EntryError(Kids(entries[..n]), entries[n]).None?
    ensures Holds(Add(ring, entries[n].kid, entries[n].key.value), entries, n + 1)
  {
    var e := entries[n];
    HeldKids(ring, entries, n);
    var ring' := Add(ring, e.kid, e.key.value);
    forall i | 0 <= i < n
      ensures ring'.order[i] == ring.order[i] && ring.order[i] in ring.keys && ring.order[i] != e.kid
    {
      assert ring.order[i] in ring.order;
    }
    forall kid
      ensures kid in ring'.keys <==> kid in ring'.order
    {
      if kid == e.kid {
        assert ring'.order[n] == kid;
      }
    }
  }

  /** Construction succeeds exactly on a non-empty list of acceptable entries, reports the first
      entry that is not, and on success holds each listed key under its id, in order. */
  method BuildKeyRing(entries: seq<RawEntry>) returns (r: Result<KeyRing, RingError>)
    ensures r.Success? <==> entries != [] && Acceptable(entries, |entries|)
    ensures r.Success? ==> r.value.Valid() && Holds(r.value, entries, |entries|)
    ensures r.Failure? ==>
      if entries == [] then r.error == NoEntries
      else exists i :: 0 <= i < |entries| && Acceptable(entries, i)
                       && EntryError(Kids(entries[..i]), entries[i]) == Some(r.error)
  {
    hide EntryError;
    if entries == [] {
      return Failure(NoEntries);
    }
    var ring := KeyRing([], map[]);
    for n := 0 to |entries|
      invariant Acceptable(entries, n) && Holds(ring, entries, n)
    {
      HeldKids(ring, entries, n);
      var refusal := EntryError(ring.keys.Keys, entries[n]);
      if refusal.Some? {
        return Failure(refusal.value);
      }
      AcceptedEntry(ring.keys.Keys, entries[n]);
      HoldsAfterAdd(ring, entries, n);
      ring := Add(ring, entries[n].kid, entries[n].key.value);
    }
    return Success(ring);
  }

  /** The MAC input is the plain concatenation of its three parts. */
  function ComputeHmac(c: Crypto, key: bytes, kidBytes: bytes, headerJson: bytes, payload: bytes): Digest
  {
    c.hmac(key, kidBytes + headerJson + payload)
  }

  datatype HmacError = UnknownKid | HmacMismatch

  function VerifyHmac(c: Crypto, ring: KeyRing, kid: Text, kidBytes: bytes, headerJson: bytes, payload: bytes,
                      storedDigest: bytes): Option<HmacError>
  {
    if ring.Get(kid).None? then Some(UnknownKid)
    else if storedDigest != ComputeHmac(c, ring.Get(kid).value, kidBytes, headerJson, payload) then Some(HmacMismatch)
    else None
  }
}
