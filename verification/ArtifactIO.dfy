/** Writing and reading artifacts over an abstract file map: the two versioning modes,
    pointer files, and the read-once reader. */
module ArtifactIO {
  import opened Wrappers
  import opened ByteStrings
  import opened Utf8
  import opened Container
  import opened Signing

  /** A path split into its directory and its last component. */
  datatype Path = Path(dir: bytes, base: bytes)

  type Files = map<Path, bytes>

  const SUFFIX: bytes := [46, 114, 101, 99, 111, 116, 101, 109]  // ".recotem"
  const MAX_POINTER := 512

  /** `[A-Za-z0-9_.-]` */
  predicate NameByte(b: byte) {
    65 <= b <= 90 || 97 <= b <= 122 || 48 <= b <= 57 || b == 95 || b == 46 || b == 45
  }

  /** The ASCII bytes that `\s` matches and `str.strip` removes. */
  predicate Space(b: byte) {
    9 <= b <= 13 || 28 <= b <= 32
  }

  function StripRight(b: bytes): bytes {
    if b != [] && Space(b[|b| - 1]) then StripRight(b[..|b| - 1]) else b
  }

  predicate EndsWithSuffix(b: bytes) {
    |b| >= 8 && b[|b| - 8..] == SUFFIX
  }

  /** The target a pointer file names, when the bytes are a pointer at all. */
  function PointerTarget(raw: bytes): Option<bytes>
  {
    var name := StripRight(raw);
    if |raw| <= MAX_POINTER && |name| > 8 && EndsWithSuffix(name) && (forall i :: 0 <= i < |name| ==> NameByte(name[i]))
    then Some(name) else None
  }

  function Stem(base: bytes): bytes {
    if EndsWithSuffix(base) then base[..|base| - 8] else base
  }

  /** `<stem>.<sha8>.recotem` */
  function ShaName(base: bytes, digest: Digest): (n: bytes)
    ensures |n| == |Stem(base)| + 17
  {
    Stem(base) + [46] + Hex(digest)[..8] + SUFFIX
  }

  function PointerBytes(base: bytes, digest: Digest): bytes {
    ShaName(base, digest) + [10]
  }

  /** The name of a published artifact: the output name without a trailing ".recotem", a dot, the
      first four bytes of the digest in hex, ".recotem". */
  lemma ShaNameShape(base: bytes, digest: Digest)
    ensures
      var name, stem := ShaName(base, digest), Stem(base);
      && (base == stem || base == stem + [46, 114, 101, 99, 111, 116, 101, 109])
      && name[..|stem|] == stem && name[|stem|] == 46 && name[|stem| + 9..] == [46, 114, 101, 99, 111, 116, 101, 109]
      && forall i :: 0 <= i < 4 ==>
           16 * HexValue(name[|stem| + 1 + 2 * i]) + HexValue(name[|stem| + 2 + 2 * i]) == digest[i]
  {
    var name, stem := ShaName(base, digest), Stem(base);
    if EndsWithSuffix(base) {
      assert base == base[..|base| - 8] + base[|base| - 8..];
    }
    forall i | 0 <= i < 4
      ensures 16 * HexValue(name[|stem| + 1 + 2 * i]) + HexValue(name[|stem| + 2 + 2 * i]) == digest[i]
    {
      HexReadsBack(digest, i);
      assert name[|stem| + 1 + 2 * i] == Hex(digest)[2 * i] && name[|stem| + 2 + 2 * i] == Hex(digest)[2 * i + 1];
    }
  }

  lemma ShaNameDiffers(base: bytes, digest: Digest)
    ensures ShaName(base, digest) != base
  {
  }

  lemma StripRightStops(b: bytes)
    requires b != [] && !Space(b[|b| - 1])
    ensures StripRight(b + [10]) == b
  {
    assert (b + [10])[..|b|] == b;
  }

  /** A published pointer names its artifact exactly when the output name keeps to the pointer
      alphabet and the pointer line fits in 512 bytes. */
  lemma PointerResolvesIff(base: bytes, digest: Digest)
    ensures PointerTarget(PointerBytes(base, digest)) == Some(ShaName(base, digest)) <==>
            |Stem(base)| + 18 <= 512 && forall i :: 0 <= i < |Stem(base)| ==> NameByte(Stem(base)[i])
  {
    var name, stem := ShaName(base, digest), Stem(base);
    assert name[|name| - 1] == 109;
    StripRightStops(name);
    assert name[|name| - 8..] == SUFFIX;
    forall i | |stem| <= i < |name|
      ensures NameByte(name[i])
    {
      if |stem| < i < |stem| + 9 {
        assert name[i] == Hex(digest)[i - |stem| - 1];
      } else if i >= |stem| + 9 {
        assert name[i] == SUFFIX[i - |stem| - 9];
      }
    }
    assert forall i :: 0 <= i < |stem| ==> name[i] == stem[i];
  }

  lemma {:induction false} StripRightIsPrefix(b: bytes)
    ensures StripRight(b) <= b
  {
    if b != [] && StripRight(b) != b {
      StripRightIsPrefix(b[..|b| - 1]);
    }
  }

  /** The NUL in the magic keeps every artifact, whole or cut, from reading as a pointer. */
  lemma MagicIsNoPointer(raw: bytes)
    requires |raw| >= 8 && raw[7] == 0
    ensures PointerTarget(raw).None?
  {
    StripRightIsPrefix(raw);
  }

  lemma AcceptedIsNoPointer(data: bytes, maxPayload: nat)
    requires Parse(data, maxPayload).Success?
    ensures PointerTarget(data).None?
  {
    assert data[..8][7] == MAGIC[7];
    MagicIsNoPointer(data);
  }

  // ------------------------------------------------------------------ writing

  datatype Versioning = AlwaysOverwrite | AppendSha
  datatype WriteError = BadParts(e: FormatError) | WriteFailed

  function Signed(c: Crypto, ring: KeyRing, header: Text, payload: bytes): Result<bytes, FormatError>
    requires ring.Valid()
  {
    var kid := ring.ActiveKid();
    Build(kid, ComputeHmac(c, ring.keys[kid], Encode(kid), Encode(header), payload), Encode(header), payload)
  }

  /** What one atomic write leaves: nothing changes when it fails. */
  function Put(files: Files, dest: Path, data: bytes, fails: bool): Files {
    if fails then files else files[dest := data]
  }

  function ShaPath(c: Crypto, path: Path, artifact: bytes): Path {
    Path(path.dir, ShaName(path.base, c.sha256(artifact)))
  }

  /** The files after a publication. `fails[0]` and `fails[1]` say whether the first and the
      second atomic write raise. */
  function Published(files: Files, c: Crypto, artifact: bytes, path: Path, mode: Versioning, fails: (bool, bool)): Files
  {
    match mode
    case AlwaysOverwrite => Put(files, path, artifact, fails.0)
    case AppendSha =>
      var first := Put(files, ShaPath(c, path, artifact), artifact, fails.0);
      if fails.0 then first
      else Put(first, path, PointerBytes(path.base, c.sha256(artifact)), fails.1)
  }

  class FileStore {
    var files: Files

    constructor ()
      ensures files == map[]
    {
      files := map[];
    }

    /** Temp file, fsync, rename: the destination changes only if nothing raised. */
    method WriteAtomic(dest: Path, data: bytes, fails: bool) returns (ok: bool)
      modifies this
      ensures ok == !fails && files == Put(old(files), dest, data, fails)
    {
      if fails {
        return false;
      }
      files := files[dest := data];
      return true;
    }

    /** Serialize, sign, assemble, publish. */
    method WriteArtifact(c: Crypto, ring: KeyRing, header: Text, payload: bytes, path: Path, mode: Versioning,
                         fails: (bool, bool)) returns (r: Result<Path, WriteError>)
      requires ring.Valid()
      modifies this
      ensures match Signed(c, ring, header, payload)
              case Failure(e) => r == Failure(BadParts(e)) && files == old(files)
              case Success(a) =>
                && files == Published(old(files), c, a, path, mode, fails)
                && (r.Success? <==> !fails.0 && (mode.AppendSha? ==> !fails.1))
                && (r.Success? ==> r.value in files && files[r.value] == a)
                && (r.Failure? ==> r.error == WriteFailed)
    {
      var kid := ring.ActiveKid();
      var kidBytes, headerJson := Encode(kid), Encode(header);
      var digest := ComputeHmac(c, ring.keys[kid], kidBytes, headerJson, payload);
      var built := Build(kid, digest, headerJson, payload);
      if built.Failure? {
        return Failure(BadParts(built.error));
      }
      var artifact := built.value;
      if mode == AlwaysOverwrite {
        var ok := WriteAtomic(path, artifact, fails.0);
        return if ok then Success(path) else Failure(WriteFailed);
      }
      var shaPath := ShaPath(c, path, artifact);
      ShaNameDiffers(path.base, c.sha256(artifact));
      var ok := WriteAtomic(shaPath, artifact, fails.0);
      if !ok {
        return Failure(WriteFailed);
      }
      ok := WriteAtomic(path, PointerBytes(path.base, c.sha256(artifact)), fails.1);
      return if ok then Success(shaPath) else Failure(WriteFailed);
    }
  }

  // ------------------------------------------------------------------ reading

  datatype ReadError =
    | NotFound | DanglingPointer | TooLarge | BadFormat(e: FormatError) | BadMac(m: HmacError)

  /** `fh.read(maxBytes + 1)` */
  function ReadUpTo(data: bytes, maxBytes: nat): bytes {
    if |data| <= maxBytes + 1 then data else data[..maxBytes + 1]
  }

  function ResolvePointer(files: Files, raw: bytes, path: Path, maxBytes: nat): Result<bytes, ReadError>
  {
    match PointerTarget(raw)
    case None => Success(raw)
    case Some(name) =>
      var target := Path(path.dir, name);
      if target !in files then Failure(DanglingPointer)
      else if |files[target]| > maxBytes then Failure(TooLarge)
      else Success(files[target])
  }

  /** Parse, then check the MAC under the key that `ring` holds for the parsed key id. */
  function Verified(c: Crypto, ring: KeyRing, data: bytes, maxPayload: nat): Result<(ArtifactHeader, bytes), ReadError>
  {
    match Parse(data, maxPayload)
    case Failure(e) => Failure(BadFormat(e))
    case Success(h) =>
      var payload := data[h.payloadOffset..];
      match VerifyHmac(c, ring, h.kid, Encode(h.kid), h.headerData, payload, h.hmacDigest)
      case Some(m) => Failure(BadMac(m))
      case None => Success((h, payload))
  }

  function ReadArtifact(files: Files, c: Crypto, ring: KeyRing, path: Path, maxBytes: nat)
    : Result<(ArtifactHeader, bytes), ReadError>
  {
    if path !in files then Failure(NotFound) else
    match ResolvePointer(files, ReadUpTo(files[path], maxBytes), path, maxBytes)
    case Failure(e) => Failure(e)
    case Success(data) =>
      if |data| > maxBytes then Failure(TooLarge) else Verified(c, ring, data, maxBytes)
  }

  /** What a read comes to: what stands at the path, or behind the pointer there, whole and within
      the cap, is verified; nothing else is. */
  lemma ReadOutcome(files: Files, c: Crypto, ring: KeyRing, path: Path, maxBytes: nat)
    ensures
      var r := ReadArtifact(files, c, ring, path, maxBytes);
      && (path !in files ==> r == Failure(NotFound))
      && (path in files && |files[path]| <= maxBytes ==>
            match PointerTarget(files[path])
            case None => r == Verified(c, ring, files[path], maxBytes)
            case Some(name) =>
              var target := Path(path.dir, name);
              if target !in files then r == Failure(DanglingPointer)
              else if |files[target]| > maxBytes then r == Failure(TooLarge)
              else r == Verified(c, ring, files[target], maxBytes))
      && (path in files && |files[path]| > maxBytes && PointerTarget(files[path][..maxBytes + 1]).None? ==>
            r == Failure(TooLarge))
  {
    hide Verified, PointerTarget;
    if path in files && |files[path]| == maxBytes + 1 {
      assert files[path][..maxBytes + 1] == files[path];
    }
  }

  // ------------------------------------------------------------------ round trip

  /** What was signed verifies under exactly the rings that hold, for the signing key id, a key
      with the same MAC over this artifact; the parts come back unchanged. */
  lemma VerifiedAfterSigning(c: Crypto, writer: KeyRing, reader: KeyRing, header: Text, payload: bytes, maxPayload: nat)
    requires writer.Valid() && Signed(c, writer, header, payload).Success? && |payload| <= maxPayload
    ensures
      var kid := writer.ActiveKid();
      var r := Verified(c, reader, Signed(c, writer, header, payload).value, maxPayload);
      && (r.Success? ==> r.value.0.kid == kid && r.value.0.headerData == Encode(header) && r.value.1 == payload)
      && (reader.Get(kid).None? ==> r == Failure(BadMac(UnknownKid)))
      && (reader.Get(kid).Some? ==>
            if ComputeHmac(c, reader.keys[kid], Encode(kid), Encode(header), payload)
               == ComputeHmac(c, writer.keys[kid], Encode(kid), Encode(header), payload)
            then r.Success? else r == Failure(BadMac(HmacMismatch)))
  {
    hide Build, Parse, Decode, Encode;
    var kid := writer.ActiveKid();
    var digest := ComputeHmac(c, writer.keys[kid], Encode(kid), Encode(header), payload);
    DecodeEncode(header);
    ParseBuild(kid, digest, Encode(header), payload, maxPayload);
  }

  /** What the MAC covers, on the bytes of the file: everything after the fixed part except the
      digest itself and the length word, under the key that the ring holds for the key id. */
  lemma VerifiedIff(c: Crypto, ring: KeyRing, data: bytes, maxPayload: nat)
    requires Parse(data, maxPayload).Success?
    ensures
      var k, kid := data[12] as int, Parse(data, maxPayload).value.kid;
      && 49 + k <= |data|
      && (Verified(c, ring, data, maxPayload).Success? <==>
          kid in ring.keys && data[13 + k..45 + k] == c.hmac(ring.keys[kid], data[13..13 + k] + data[49 + k..]))
  {
    hide Decode, Encode;
    var h, k := Parse(data, maxPayload).value, data[12] as int;
    EncodeDecode(data[13..13 + k]);
    assert Encode(h.kid) + h.headerData + data[h.payloadOffset..] == data[13..13 + k] + data[49 + k..];
  }

  /** The bytes that a writer signs carry that MAC under its first key. */
  lemma SignedMac(c: Crypto, ring: KeyRing, header: Text, payload: bytes)
    requires ring.Valid() && Signed(c, ring, header, payload).Success?
    ensures
      var data, kid := Signed(c, ring, header, payload).value, ring.order[0];
      var k := |Encode(kid)|;
      && 49 + k <= |data| && data[12] == k && data[13..13 + k] == Encode(kid)
      && data[49 + k..] == Encode(header) + payload
      && data[13 + k..45 + k] == c.hmac(ring.keys[kid], Encode(kid) + Encode(header) + payload)
  {
    hide Encode, Build;
    var kid := ring.order[0];
    var digest := ComputeHmac(c, ring.keys[kid], Encode(kid), Encode(header), payload);
    LayoutOf(kid, digest, Encode(header), payload);
    var data, k, n := Signed(c, ring, header, payload).value, |Encode(kid)|, |Encode(header)|;
    assert data[..13][12] == k;
    assert data[49 + k..] == data[49 + k..49 + k + n] + data[49 + k + n..];
  }

  /** Publish, then read the output path back: in both modes the reader gets exactly the header
      and payload that were written, from any ring that kept the signing key, if the sizes are
      within the caps and (append mode) the pointer is one the reader recognises. */
  lemma RoundTrip(files: Files, c: Crypto, writer: KeyRing, reader: KeyRing, header: Text, payload: bytes,
                  path: Path, mode: Versioning, maxBytes: nat)
    requires writer.Valid() && Signed(c, writer, header, payload).Success?
    requires reader.Get(writer.ActiveKid()) == writer.Get(writer.ActiveKid())
    requires |Signed(c, writer, header, payload).value| <= maxBytes
    requires mode.AppendSha? ==>
      && |Stem(path.base)| + 18 <= MAX_POINTER && |Stem(path.base)| + 18 <= maxBytes + 1
      && forall i :: 0 <= i < |Stem(path.base)| ==> NameByte(Stem(path.base)[i])
    ensures
      var artifact := Signed(c, writer, header, payload).value;
      var after := Published(files, c, artifact, path, mode, (false, false));
      var r := ReadArtifact(after, c, reader, path, maxBytes);
      && r.Success?
      && r.value.0.kid == writer.ActiveKid() && r.value.0.headerData == Encode(header) && r.value.1 == payload
      && (forall p :: p in files && p != path && p != ShaPath(c, path, artifact) ==> p in after && after[p] == files[p])
  {
    hide Build, Parse, Decode, Encode, Verified, PointerTarget;
    var artifact := Signed(c, writer, header, payload).value;
    SignedShape(c, writer, header, payload, maxBytes);
    VerifiedAfterSigning(c, writer, reader, header, payload, maxBytes);
    ShaNameDiffers(path.base, c.sha256(artifact));
    PointerResolvesIff(path.base, c.sha256(artifact));
    AcceptedIsNoPointer(artifact, maxBytes);
  }

  lemma SignedShape(c: Crypto, writer: KeyRing, header: Text, payload: bytes, maxPayload: nat)
    requires writer.Valid() && Signed(c, writer, header, payload).Success?
    ensures
      var artifact := Signed(c, writer, header, payload).value;
      |payload| <= |artifact| && (|payload| <= maxPayload ==> Parse(artifact, maxPayload).Success?)
  {
    hide Parse, Decode, Encode;
    var kid := writer.ActiveKid();
    DecodeEncode(header);
    if |payload| <= maxPayload {
      ParseBuild(kid, ComputeHmac(c, writer.keys[kid], Encode(kid), Encode(header), payload), Encode(header),
                 payload, maxPayload);
    }
  }
}
