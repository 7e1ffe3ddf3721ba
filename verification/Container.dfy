/** The binary layout of a `.recotem` artifact: magic, version, reserved word, key id,
    HMAC, length-prefixed header JSON, payload. */
module Container {
  import opened Wrappers
  import opened ByteStrings
  import opened Utf8

  const MAGIC: bytes := [82, 69, 67, 79, 84, 69, 77, 0]  // "RECOTEM\0"
  const FORMAT_VERSION := 1
  const MIN_KID_LEN := 1
  const MAX_KID_LEN := 32
  const MAX_HEADER_LEN := 65536

  datatype FormatError =
    | MissingMagic | BadMagic | MissingVersion | BadVersion | BadReserved
    | MissingKidLen | BadKidLen | TruncatedKid | KidNotUtf8 | TruncatedHmac
    | MissingHeaderLen | HeaderTooLong | TruncatedHeader | HeaderNotUtf8 | PayloadTooLarge

  datatype ArtifactHeader = ArtifactHeader(
    version: int, kid: Text, hmacDigest: bytes, headerData: bytes, payloadOffset: nat)

  /** Everything that precedes the payload. */
  function Prefix(kidBytes: bytes, digest: bytes, headerJson: bytes): (p: bytes)
    requires |kidBytes| <= MAX_KID_LEN && |headerJson| <= MAX_HEADER_LEN
    ensures |p| == 17 + |kidBytes| + |digest| + |headerJson|
  {
    MAGIC + Pack16(FORMAT_VERSION) + Pack16(0) + [|kidBytes|] + kidBytes + digest
    + Pack32(|headerJson|) + headerJson
  }

  function Build(kid: Text, digest: bytes, headerJson: bytes, payload: bytes): Result<bytes, FormatError>
  {
    var kidBytes := Encode(kid);
    if |kidBytes| < MIN_KID_LEN || |kidBytes| > MAX_KID_LEN then Failure(BadKidLen)
    else if |headerJson| > MAX_HEADER_LEN then Failure(HeaderTooLong)
    else Success(Prefix(kidBytes, digest, headerJson) + payload)
  }

  /** The 13 fixed bytes: magic, version, reserved word; the version and the key-id length. */
  function ParseFixed(data: bytes): Result<(int, int), FormatError>
  {
    if |data| < 8 then Failure(MissingMagic)
    else if data[..8] != MAGIC then Failure(BadMagic)
    else if |data| < 12 then Failure(MissingVersion)
    else
      var version, reserved := Unpack16(data[8..10]), Unpack16(data[10..12]);
      if version == 0 || version > FORMAT_VERSION then Failure(BadVersion)
      else if reserved != 0 then Failure(BadReserved)
      else if |data| < 13 then Failure(MissingKidLen)
      else if !(MIN_KID_LEN <= data[12] as int <= MAX_KID_LEN) then Failure(BadKidLen)
      else Success((version, data[12] as int))
  }

  /** The variable fields, at the offsets that a key id of `k` bytes gives them. */
  function ParseFields(data: bytes, version: int, k: int, maxPayload: nat): (r: Result<ArtifactHeader, FormatError>)
    requires k >= 0
    ensures r.Success? ==> 49 + k <= r.value.payloadOffset <= |data| <= r.value.payloadOffset + maxPayload
  {
    if |data| < 13 + k then Failure(TruncatedKid)
    else if Decode(data[13..13 + k]).None? then Failure(KidNotUtf8)
    else if |data| < 45 + k then Failure(TruncatedHmac)
    else if |data| < 49 + k then Failure(MissingHeaderLen)
    else
      var n := Unpack32(data[45 + k..49 + k]);
      if n > MAX_HEADER_LEN then Failure(HeaderTooLong)
      else if |data| < 49 + k + n then Failure(TruncatedHeader)
      else if Decode(data[49 + k..49 + k + n]).None? then Failure(HeaderNotUtf8)
      else if |data| - (49 + k + n) > maxPayload then Failure(PayloadTooLarge)
      else Success(ArtifactHeader(version, Decode(data[13..13 + k]).value,
                                  data[13 + k..45 + k], data[49 + k..49 + k + n], 49 + k + n))
  }

  /** What the parser returns, field by field at absolute offsets. */
  function Parse(data: bytes, maxPayload: nat): (r: Result<ArtifactHeader, FormatError>)
    ensures r.Success? ==> 49 < r.value.payloadOffset <= |data| <= r.value.payloadOffset + maxPayload
  {
    match ParseFixed(data)
    case Failure(e) => Failure(e)
    case Success((version, k)) => ParseFields(data, version, k, maxPayload)
  }

  /** The parser as written: a cursor moves over the fields, each read behind a length check. */
  method ParseHeaderFromBytes(data: bytes, maxPayload: nat)
    returns (r: Result<ArtifactHeader, FormatError>)
    ensures r == Parse(data, maxPayload)
  {
    hide Decode;
    var offset := 0;
    if |data| < 8 { return Failure(MissingMagic); }
    if data[..8] != MAGIC { return Failure(BadMagic); }
    offset := offset + 8;
    if |data| < offset + 4 { return Failure(MissingVersion); }
    var version, reserved := Unpack16(data[offset..offset + 2]), Unpack16(data[offset + 2..offset + 4]);
    offset := offset + 4;
    if version == 0 || version > FORMAT_VERSION { return Failure(BadVersion); }
    if reserved != 0 { return Failure(BadReserved); }
    if |data| < offset + 1 { return Failure(MissingKidLen); }
    var kidLen := data[offset] as int;
    offset := offset + 1;
    if kidLen < MIN_KID_LEN || kidLen > MAX_KID_LEN { return Failure(BadKidLen); }
    if |data| < offset + kidLen { return Failure(TruncatedKid); }
    var kid := Decode(data[offset..offset + kidLen]);
    if kid.None? { return Failure(KidNotUtf8); }
    offset := offset + kidLen;
    if |data| < offset + 32 { return Failure(TruncatedHmac); }
    var digest := data[offset..offset + 32];
    offset := offset + 32;
    if |data| < offset + 4 { return Failure(MissingHeaderLen); }
    var headerLen := Unpack32(data[offset..offset + 4]);
    offset := offset + 4;
    if headerLen > MAX_HEADER_LEN { return Failure(HeaderTooLong); }
    Pack32Inverse(0, data[offset - 4..offset]);
    if |data| < offset + headerLen { return Failure(TruncatedHeader); }
    var headerData := data[offset..offset + headerLen];
    if Decode(headerData).None? { return Failure(HeaderNotUtf8); }
    offset := offset + headerLen;
    if |data| - offset > maxPayload { return Failure(PayloadTooLarge); }
    return Success(ArtifactHeader(version, kid.value, digest, headerData, offset));
  }

  /** `data` is exactly the artifact assembled from the fields of `h` and the bytes after the
      payload offset, with every size within its cap. */
  ghost predicate Accepts(data: bytes, maxPayload: nat, h: ArtifactHeader)
  {
    && h.version == FORMAT_VERSION
    && |h.hmacDigest| == 32
    && Decode(h.headerData).Some?
    && h.payloadOffset <= |data| <= h.payloadOffset + maxPayload
    && Build(h.kid, h.hmacDigest, h.headerData, data[h.payloadOffset..]) == Success(data)
  }

  lemma PrefixFixed(kidBytes: bytes, digest: Digest, headerJson: bytes, payload: bytes)
    requires MIN_KID_LEN <= |kidBytes| <= MAX_KID_LEN && |headerJson| <= MAX_HEADER_LEN
    ensures ParseFixed(Prefix(kidBytes, digest, headerJson) + payload) == Success((1, |kidBytes|))
  {
    var rest := kidBytes + digest + Pack32(|headerJson|) + headerJson + payload;
    var a := MAGIC + Pack16(1) + Pack16(0) + [|kidBytes|];
    assert Prefix(kidBytes, digest, headerJson) + payload == a + rest;
    assert (a + rest)[8..10] == Pack16(1) && (a + rest)[10..12] == Pack16(0);
  }

  lemma PrefixFields(kidBytes: bytes, digest: Digest, headerJson: bytes, payload: bytes)
    requires |kidBytes| <= MAX_KID_LEN && |headerJson| <= MAX_HEADER_LEN
    ensures
      var data, k, n := Prefix(kidBytes, digest, headerJson) + payload, |kidBytes|, |headerJson|;
      && data[13..13 + k] == kidBytes && data[13 + k..45 + k] == digest
      && data[45 + k..49 + k] == Pack32(n) && data[49 + k..49 + k + n] == headerJson
      && data[49 + k + n..] == payload
  {
    var data, k, n := Prefix(kidBytes, digest, headerJson) + payload, |kidBytes|, |headerJson|;
    var a := MAGIC + Pack16(1) + Pack16(0) + [k];
    var b := a + kidBytes;
    var c := b + digest;
    var d := c + Pack32(n);
    assert data == d + headerJson + payload;
    assert data == a + (kidBytes + digest + Pack32(n) + headerJson + payload);
    assert data == b + (digest + Pack32(n) + headerJson + payload);
    assert data == c + (Pack32(n) + headerJson + payload);
    assert |a| == 13 && |b| == 13 + k && |c| == 45 + k && |d| == 49 + k;
  }

  /** The variable fields are read back wherever they stand in the right order. */
  lemma FieldsReadBack(data: bytes, kid: Text, digest: Digest, headerJson: bytes, maxPayload: nat)
    requires |headerJson| <= MAX_HEADER_LEN && Decode(headerJson).Some?
    requires
      var k, n := |Encode(kid)|, |headerJson|;
      && 49 + k + n <= |data| <= 49 + k + n + maxPayload
      && data[13..13 + k] == Encode(kid) && data[13 + k..45 + k] == digest
      && data[45 + k..49 + k] == Pack32(n) && data[49 + k..49 + k + n] == headerJson
    ensures
      var k, n := |Encode(kid)|, |headerJson|;
      ParseFields(data, 1, k, maxPayload) == Success(ArtifactHeader(1, kid, digest, headerJson, 49 + k + n))
  {
    hide Decode, Encode, Pack32, Unpack32;
    Pack32Inverse(|headerJson|, [0, 0, 0, 0]);
    DecodeEncode(kid);
  }

  /** Parsing an assembled artifact returns its parts. */
  lemma ParseBuild(kid: Text, digest: Digest, headerJson: bytes, payload: bytes, maxPayload: nat)
    requires Build(kid, digest, headerJson, payload).Success?
    requires Decode(headerJson).Some? && |payload| <= maxPayload
    ensures
      var data, offset := Build(kid, digest, headerJson, payload).value, 49 + |Encode(kid)| + |headerJson|;
      && Parse(data, maxPayload) == Success(ArtifactHeader(1, kid, digest, headerJson, offset))
      && data[offset..] == payload
  {
    var kidBytes := Encode(kid);
    PrefixFixed(kidBytes, digest, headerJson, payload);
    PrefixFields(kidBytes, digest, headerJson, payload);
    FieldsReadBack(Prefix(kidBytes, digest, headerJson) + payload, kid, digest, headerJson, maxPayload);
  }

  lemma FixedIsPrefix(data: bytes)
    requires ParseFixed(data).Success?
    ensures ParseFixed(data).value.0 == 1
    ensures data[..13] == MAGIC + Pack16(1) + Pack16(0) + [data[12]]
  {
    assert Unpack16(data[8..10]) == 1;
    assert data[8..10] == Pack16(1) && data[10..12] == Pack16(0);
    assert data[..13] == data[..8] + data[8..10] + data[10..12] + [data[12]];
  }

  lemma FieldsAreSuffix(data: bytes, k: nat, maxPayload: nat)
    requires ParseFields(data, 1, k, maxPayload).Success?
    ensures
      var h := ParseFields(data, 1, k, maxPayload).value;
      && |h.headerData| <= MAX_HEADER_LEN && |Encode(h.kid)| == k && |h.hmacDigest| == 32
      && h.payloadOffset <= |data| <= h.payloadOffset + maxPayload
      && data == data[..13] + Encode(h.kid) + h.hmacDigest + Pack32(|h.headerData|) + h.headerData
                 + data[h.payloadOffset..]
  {
    hide Decode;
    var h := ParseFields(data, 1, k, maxPayload).value;
    var n := |h.headerData|;
    EncodeDecode(data[13..13 + k]);
    Pack32Inverse(0, data[45 + k..49 + k]);
    assert data[..13 + k] == data[..13] + Encode(h.kid);
    assert data[..45 + k] == data[..13 + k] + h.hmacDigest;
    assert data[..49 + k] == data[..45 + k] + Pack32(n);
    assert data[..49 + k + n] == data[..49 + k] + h.headerData;
    assert data == data[..49 + k + n] + data[49 + k + n..];
  }

  /** The format is canonical: whatever parses is the assembly of its parsed parts. */
  lemma BuildParse(data: bytes, maxPayload: nat)
    requires Parse(data, maxPayload).Success?
    ensures Accepts(data, maxPayload, Parse(data, maxPayload).value)
  {
    FixedIsPrefix(data);
    FieldsAreSuffix(data, data[12] as int, maxPayload);
  }

  /** Acceptance has a meaning that does not mention the parser: there is a header whose
      assembly is `data`; and that header is unique, being the one the parser returns. */
  lemma AcceptedIffBuilt(data: bytes, maxPayload: nat)
    ensures Parse(data, maxPayload).Success? <==> exists h :: Accepts(data, maxPayload, h)
    ensures forall h :: Accepts(data, maxPayload, h) ==> Parse(data, maxPayload) == Success(h)
    ensures Parse(data, maxPayload).Success? ==> Accepts(data, maxPayload, Parse(data, maxPayload).value)
  {
    if Parse(data, maxPayload).Success? {
      BuildParse(data, maxPayload);
    }
    forall h | Accepts(data, maxPayload, h)
      ensures Parse(data, maxPayload) == Success(h)
    {
      ParseBuild(h.kid, h.hmacDigest, h.headerData, data[h.payloadOffset..], maxPayload);
      assert |data| == 49 + |Encode(h.kid)| + |h.headerData| + |data[h.payloadOffset..]|;
    }
  }

  lemma FieldsOfCut(data: bytes, k: nat, maxPayload: nat, cut: nat)
    requires ParseFields(data, 1, k, maxPayload).Success? && cut <= |data|
    ensures
      var r, o := ParseFields(data[..cut], 1, k, maxPayload), ParseFields(data, 1, k, maxPayload).value.payloadOffset;
      if o <= cut then r == ParseFields(data, 1, k, maxPayload) else r.Failure?
  {
    hide Decode;
    var d := data[..cut];
    var n := Unpack32(data[45 + k..49 + k]);
    if cut >= 49 + k {
      assert d[13..13 + k] == data[13..13 + k] && d[13 + k..45 + k] == data[13 + k..45 + k];
      assert d[45 + k..49 + k] == data[45 + k..49 + k];
      if cut >= 49 + k + n {
        assert d[49 + k..49 + k + n] == data[49 + k..49 + k + n];
      }
    }
  }

  lemma FixedOfCut(data: bytes, cut: nat)
    requires ParseFixed(data).Success? && cut <= |data|
    ensures if cut < 13 then ParseFixed(data[..cut]).Failure? else ParseFixed(data[..cut]) == ParseFixed(data)
  {
    var d := data[..cut];
    if cut >= 13 {
      assert d[..8] == data[..8] && d[8..10] == data[8..10] && d[10..12] == data[10..12];
    }
  }

  /** Cutting an accepted artifact: it stays accepted, with the same header, exactly as long
      as the cut falls inside the payload. */
  lemma PrefixAcceptedIff(data: bytes, maxPayload: nat, cut: nat)
    requires Parse(data, maxPayload).Success? && cut <= |data|
    ensures Parse(data[..cut], maxPayload).Success? <==> Parse(data, maxPayload).value.payloadOffset <= cut
    ensures Parse(data[..cut], maxPayload).Success? ==> Parse(data[..cut], maxPayload) == Parse(data, maxPayload)
  {
    FixedIsPrefix(data);
    FixedOfCut(data, cut);
    FieldsOfCut(data, data[12] as int, maxPayload, cut);
  }

  /** What can be built: key ids of 1 to 32 bytes and headers of up to 64 KiB. */
  lemma BuildsIff(kid: Text, digest: Digest, headerJson: bytes, payload: bytes)
    ensures Build(kid, digest, headerJson, payload).Success? <==> 1 <= |Encode(kid)| <= 32 && |headerJson| <= 65536
    ensures Build(kid, digest, headerJson, payload).Failure? ==>
      Build(kid, digest, headerJson, payload).error == if 1 <= |Encode(kid)| <= 32 then HeaderTooLong else BadKidLen
  {
    hide Encode;
  }

  /** The layout, byte by byte: "RECOTEM" and a NUL, version 1 and the reserved 0 as little-endian
      words, the length of the key id, key id, digest, the length of the header as a little-endian
      double word, header, payload. */
  lemma LayoutOf(kid: Text, digest: Digest, headerJson: bytes, payload: bytes)
    requires Build(kid, digest, headerJson, payload).Success?
    ensures
      var data, k, n := Build(kid, digest, headerJson, payload).value, |Encode(kid)|, |headerJson|;
      && 1 <= k <= 32 && n <= 65536 && |data| == 49 + k + n + |payload|
      && data[..13] == [82, 69, 67, 79, 84, 69, 77, 0, 1, 0, 0, 0, k]
      && data[13..13 + k] == Encode(kid) && data[13 + k..45 + k] == digest
      && data[45 + k..49 + k] == [n % 256, n / 256 % 256, n / 65536 % 256, n / 16777216]
      && data[49 + k..49 + k + n] == headerJson && data[49 + k + n..] == payload
  {
    hide Encode;
    var kidBytes := Encode(kid);
    var data := Build(kid, digest, headerJson, payload).value;
    PrefixFields(kidBytes, digest, headerJson, payload);
    PrefixFixed(kidBytes, digest, headerJson, payload);
    FixedIsPrefix(data);
    Pack32Bytes(|headerJson|);
  }

  lemma Pack32Bytes(n: int)
    requires 0 <= n < 0x1_0000_0000
    ensures Pack32(n) == [n % 256, n / 256 % 256, n / 65536 % 256, n / 16777216]
  {
    var hi, lo := n / 65536, n % 65536;
    var a, b, c, d := hi / 256, hi % 256, lo / 256, lo % 256;
    assert n == 65536 * hi + lo && hi == 256 * a + b && lo == 256 * c + d;
    assert n == 16777216 * a + 65536 * b + 256 * c + d;
    assert n % 256 == d && n / 16777216 == a;
    assert n / 256 == 256 * hi + c;
    assert n / 256 % 256 == c;
  }

  /** What the parser says to an artifact that was cut short, wherever the cut falls. */
  lemma CutReports(data: bytes, maxPayload: nat, cut: nat)
    requires Parse(data, maxPayload).Success? && cut < Parse(data, maxPayload).value.payloadOffset
    ensures
      var k, offset := data[12] as int, Parse(data, maxPayload).value.payloadOffset;
      Parse(data[..cut], maxPayload) == Failure(
        if cut < 8 then MissingMagic else if cut < 12 then MissingVersion else if cut < 13 then MissingKidLen
        else if cut < 13 + k then TruncatedKid else if cut < 45 + k then TruncatedHmac
        else if cut < 49 + k then MissingHeaderLen else TruncatedHeader)
  {
    hide Decode, Unpack32, Unpack16;
    var k := data[12] as int;
    assert cut >= 8 ==> data[..cut][..8] == data[..8];
    assert cut >= 12 ==> data[..cut][8..10] == data[8..10] && data[..cut][10..12] == data[10..12];
    assert cut >= 13 ==> data[..cut][12] == data[12];
    assert cut >= 13 + k ==> data[..cut][13..13 + k] == data[13..13 + k];
    assert cut >= 49 + k ==> data[..cut][45 + k..49 + k] == data[45 + k..49 + k];
  }
}
