/** Configuration segments of TA packages (permission_service): where their parts lie. */
module ConfigParser {
  import opened Bytes
  import opened Options

  const TA_CONFIG_SEGMENT_MAGIC: nat := 0xABCDABCD
  const HEADER_SIZE: nat := 44 // both header versions
  const CONFIG_HEADER_V1: nat := 1
  const CONFIG_HEADER_V2: nat := 2
  const TYPE_CERT: nat := 1
  const SIGN_TYPE_RSA_SHA256_PKCS1: nat := 1
  const SIGN_TYPE_ECDSA_SHA256: nat := 2
  const SIGN_TYPE_RSA_SHA256_PSS: nat := 3
  const CONFIG_SIGN_ALG_RSA_PSS: nat := 2
  const SIGNATURE_LEN_UNIT: nat := 0x4000_0000 // the low 30 bits are the length
  const ECC_SIGNATURE_LEN: nat := 72

  datatype Status = Success | BadParameters | Generic | NotSupported

  datatype Segment = Segment(at: nat, len: nat)

  function End(s: Segment): nat { s.at + s.len }

  /** What parsing fills in: types and places of all parts. */
  datatype Config = Config(
    taType: nat, taCert: Segment, config: Segment,
    verifyType: nat, signAlg: nat, cert: Segment, signature: Segment)

  ghost predicate IsPackage(p: seq<byte>) { |p| < UINT32_LIMIT }

  // ---- header fields ----

  function Version(p: seq<byte>): nat
    requires HEADER_SIZE <= |p|
  {
    var lo: int, hi: int := p[4], p[5];
    lo + 256 * hi
  }

  function TaCertLen(p: seq<byte>): nat
    requires HEADER_SIZE <= |p|
  {
    WordAt(p, 12)
  }

  function ConfigLen(p: seq<byte>): nat
    requires HEADER_SIZE <= |p|
  {
    WordAt(p, 16)
  }

  /** signature_len with algorithm bits in a V1 header, config_verify_len in a V2 header */
  function VerifyWord(p: seq<byte>): nat
    requires HEADER_SIZE <= |p|
  {
    WordAt(p, 20)
  }

  function ConfigCertLen(p: seq<byte>): nat
    requires HEADER_SIZE <= |p|
  {
    WordAt(p, 24)
  }

  /** get_config_header */
  method GetConfigHeader(p: seq<byte>) returns (ret: Status)
    requires IsPackage(p)
    ensures ret == Success <==>
      && |p| > HEADER_SIZE && WordAt(p, 0) == TA_CONFIG_SEGMENT_MAGIC
      && (Version(p) == CONFIG_HEADER_V1 || Version(p) == CONFIG_HEADER_V2)
    ensures ret == BadParameters <==> |p| <= HEADER_SIZE
  {
    if |p| <= HEADER_SIZE {
      return BadParameters;
    }
    if WordAt(p, 0) != TA_CONFIG_SEGMENT_MAGIC {
      return Generic;
    }
    if Version(p) != CONFIG_HEADER_V1 && Version(p) != CONFIG_HEADER_V2 {
      return NotSupported;
    }
    return Success;
  }

  // ---- where the parts should be ----

  function SignatureAlg(word: nat): nat {
    if word % SIGNATURE_LEN_UNIT == ECC_SIGNATURE_LEN then SIGN_TYPE_ECDSA_SHA256
    else if word / SIGNATURE_LEN_UNIT == CONFIG_SIGN_ALG_RSA_PSS then SIGN_TYPE_RSA_SHA256_PSS
    else SIGN_TYPE_RSA_SHA256_PKCS1
  }

  /** V1: the parts follow the header one after another, as long as the package reaches. */
  function InfoV1(p: seq<byte>): Option<Config>
    requires HEADER_SIZE <= |p|
  {
    var a, b, c, d := TaCertLen(p), ConfigLen(p), VerifyWord(p) % SIGNATURE_LEN_UNIT, ConfigCertLen(p);
    if HEADER_SIZE + a + b + c + d > |p| then None
    else Some(Config(
      TYPE_CERT, Segment(HEADER_SIZE, a), Segment(HEADER_SIZE + a, b),
      TYPE_CERT, SignatureAlg(VerifyWord(p)), Segment(HEADER_SIZE + a + b + c, d), Segment(HEADER_SIZE + a + b, c)))
  }

  /** V2: certificate and signature are nested in segments of their own, behind small headers. */
  function InfoV2(p: seq<byte>): Option<Config>
    requires HEADER_SIZE <= |p|
  {
    var a, b, v := TaCertLen(p), ConfigLen(p), VerifyWord(p);
    var at := HEADER_SIZE + a + b;
    if at + v > |p| || a < 4 || v < 12 then None
    else
      var n := WordAt(p, at + 8);
      if 12 + n > v then None
      else Some(Config(
        WordAt(p, HEADER_SIZE), Segment(HEADER_SIZE + 4, a - 4), Segment(HEADER_SIZE + a, b),
        WordAt(p, at), WordAt(p, at + 4), Segment(at + 12, n), Segment(at + 12 + n, v - 12 - n)))
  }

  function Info(p: seq<byte>): Option<Config>
    requires HEADER_SIZE <= |p|
  {
    if Version(p) == CONFIG_HEADER_V1 then InfoV1(p)
    else if Version(p) == CONFIG_HEADER_V2 then InfoV2(p)
    else None
  }

  // ---- the code ----

  /** check_and_get_off_val: the new offset, unless it wraps or leaves the allowed length */
  function CheckAndGetOffVal(offset: nat, offLen: nat, allowLen: nat): (r: Option<nat>)
    requires offLen < UINT32_LIMIT
    ensures offset + offLen <= allowLen < UINT32_LIMIT ==> r == Some(offset + offLen)
    ensures allowLen < UINT32_LIMIT && offset + offLen > allowLen ==> r == None
  {
    if offset > 0xFFFF_FFFF - offLen then None
    else if Add32(offset, offLen) > allowLen then None
    else Some(Add32(offset, offLen))
  }

  /** The length that get_data_hash_for_sign sums up in 32 bits, without a check of its own. */
  function HashLength(p: seq<byte>): nat
    requires HEADER_SIZE <= |p|
  {
    Add32(Add32(HEADER_SIZE, TaCertLen(p)), ConfigLen(p))
  }

  /** The parts of a V1 package tile it from the header on, in this order. */
  predicate AdjacentV1(p: seq<byte>, c: Config) {
    && c.taCert.at == HEADER_SIZE && End(c.taCert) == c.config.at
    && End(c.config) == c.signature.at && End(c.signature) == c.cert.at && End(c.cert) <= |p|
  }

  /** So do those of a V2 package, with a type word before the certificate and three words before the config's. */
  predicate AdjacentV2(p: seq<byte>, c: Config)
    requires HEADER_SIZE <= |p|
  {
    && c.taCert.at == HEADER_SIZE + 4 && End(c.taCert) == c.config.at
    && End(c.config) + 12 == c.cert.at && End(c.cert) == c.signature.at
    && End(c.signature) == HEADER_SIZE + TaCertLen(p) + ConfigLen(p) + VerifyWord(p) <= |p|
  }

  method GetConfigInfoV1(p: seq<byte>) returns (r: Option<Config>)
    requires IsPackage(p) && HEADER_SIZE < |p|
    ensures r == InfoV1(p)
    ensures r.Some? <==> 44 + WordAt(p, 12) + WordAt(p, 16) + WordAt(p, 20) % 0x4000_0000 + WordAt(p, 24) <= |p|
    ensures r.Some? ==>
      && r.value.taCert.len == WordAt(p, 12) && r.value.config.len == WordAt(p, 16)
      && r.value.signature.len == WordAt(p, 20) % 0x4000_0000 && r.value.cert.len == WordAt(p, 24)
      && r.value.taType == r.value.verifyType == TYPE_CERT
    ensures r.Some? ==> AdjacentV1(p, r.value) && HashLength(p) == r.value.signature.at
  {
    var offset := CheckAndGetOffVal(0, HEADER_SIZE, |p|);
    if offset.None? {
      return None;
    }
    var index := offset.value;
    offset := CheckAndGetOffVal(index, TaCertLen(p), |p|);
    if offset.None? {
      return None;
    }
    var taCert := Segment(index, TaCertLen(p));
    index := offset.value;
    offset := CheckAndGetOffVal(index, ConfigLen(p), |p|);
    if offset.None? {
      return None;
    }
    var config := Segment(index, ConfigLen(p));
    index := offset.value;
    var realSigLen := VerifyWord(p) % SIGNATURE_LEN_UNIT;
    var algorithm := VerifyWord(p) / SIGNATURE_LEN_UNIT;
    offset := CheckAndGetOffVal(index, realSigLen, |p|);
    if offset.None? {
      return None;
    }
    var signature := Segment(index, realSigLen);
    index := offset.value;
    offset := CheckAndGetOffVal(index, ConfigCertLen(p), |p|);
    if offset.None? {
      return None;
    }
    var signAlg := SIGN_TYPE_RSA_SHA256_PKCS1;
    if signature.len == ECC_SIGNATURE_LEN {
      signAlg := SIGN_TYPE_ECDSA_SHA256;
    } else if algorithm == CONFIG_SIGN_ALG_RSA_PSS {
      signAlg := SIGN_TYPE_RSA_SHA256_PSS;
    }
    return Some(Config(TYPE_CERT, taCert, config, TYPE_CERT, signAlg, Segment(index, ConfigCertLen(p)), signature));
  }

  /** get_ta_cert: the type word, then the certificate */
  method GetTaCert(p: seq<byte>, at: nat, len: nat) returns (r: Option<(nat, Segment)>)
    requires IsPackage(p) && at + len <= |p|
    ensures r == if len < 4 then None else Some((WordAt(p, at), Segment(at + 4, len - 4)))
  {
    var offset := CheckAndGetOffVal(0, 4, len);
    if offset.None? {
      return None;
    }
    return Some((WordAt(p, at), Segment(at + offset.value, len - offset.value)));
  }

  /** get_sign_verify_data: type, algorithm and certificate length, the certificate, the signature */
  method GetSignVerifyData(p: seq<byte>, at: nat, len: nat) returns (r: Option<(nat, nat, Segment, Segment)>)
    requires IsPackage(p) && at + len <= |p|
    ensures r.Some? <==> 12 <= len && 12 + WordAt(p, at + 8) <= len
    ensures r.Some? ==> var n := WordAt(p, at + 8);
      r.value == (WordAt(p, at), WordAt(p, at + 4), Segment(at + 12, n), Segment(at + 12 + n, len - 12 - n))
  {
    var offset := CheckAndGetOffVal(0, 4, len);
    if offset.None? {
      return None;
    }
    var verifyType, index := WordAt(p, at), offset.value;
    offset := CheckAndGetOffVal(index, 4, len);
    if offset.None? {
      return None;
    }
    var signAlg := WordAt(p, at + index);
    index := offset.value;
    offset := CheckAndGetOffVal(index, 4, len);
    if offset.None? {
      return None;
    }
    var certLen := WordAt(p, at + index);
    index := offset.value;
    offset := CheckAndGetOffVal(index, certLen, len);
    if offset.None? {
      return None;
    }
    var cert := Segment(at + index, certLen);
    index := offset.value;
    return Some((verifyType, signAlg, cert, Segment(at + index, len - index)));
  }

  method GetConfigInfoV2(p: seq<byte>) returns (r: Option<Config>)
    requires IsPackage(p) && HEADER_SIZE < |p|
    ensures r == InfoV2(p)
    ensures r.Some? <==>
      && 4 <= WordAt(p, 12) && 12 <= WordAt(p, 20) && 44 + WordAt(p, 12) + WordAt(p, 16) + WordAt(p, 20) <= |p|
      && 12 + WordAt(p, 44 + WordAt(p, 12) + WordAt(p, 16) + 8) <= WordAt(p, 20)
    ensures r.Some? ==>
      && r.value.taCert.len == WordAt(p, 12) - 4 && r.value.config.len == WordAt(p, 16)
      && r.value.taType == WordAt(p, 44) && r.value.verifyType == WordAt(p, End(r.value.config))
      && r.value.signAlg == WordAt(p, End(r.value.config) + 4) && r.value.cert.len == WordAt(p, End(r.value.config) + 8)
    ensures r.Some? ==> AdjacentV2(p, r.value) && HashLength(p) == r.value.cert.at - 12
  {
    var offset := CheckAndGetOffVal(0, HEADER_SIZE, |p|);
    if offset.None? {
      return None;
    }
    var index := offset.value;
    offset := CheckAndGetOffVal(index, TaCertLen(p), |p|);
    if offset.None? {
      return None;
    }
    var taCert := GetTaCert(p, index, TaCertLen(p));
    if taCert.None? {
      return None;
    }
    index := offset.value;
    offset := CheckAndGetOffVal(index, ConfigLen(p), |p|);
    if offset.None? {
      return None;
    }
    var config := Segment(index, ConfigLen(p));
    index := offset.value;
    offset := CheckAndGetOffVal(index, VerifyWord(p), |p|);
    if offset.None? {
      return None;
    }
    var verify := GetSignVerifyData(p, index, VerifyWord(p));
    if verify.None? {
      return None;
    }
    var (verifyType, signAlg, cert, signature) := verify.value;
    return Some(Config(taCert.value.0, taCert.value.1, config, verifyType, signAlg, cert, signature));
  }

  method GetConfigInfo(p: seq<byte>) returns (r: Option<Config>)
    requires IsPackage(p) && HEADER_SIZE < |p|
    ensures r == Info(p)
    ensures Version(p) != 1 && Version(p) != 2 ==> r.None?
    ensures r.Some? ==> HashLength(p) == End(r.value.config) <= |p|
  {
    if Version(p) == CONFIG_HEADER_V1 {
      r := GetConfigInfoV1(p);
    } else if Version(p) == CONFIG_HEADER_V2 {
      r := GetConfigInfoV2(p);
    } else {
      return None;
    }
  }

  // ---- packages built from parts ----

  function Half(v: nat): seq<byte>
    requires v < 0x1_0000
  {
    [v % 256, v / 256]
  }

  function HeaderBytes(version: nat, policy: nat, context: nat, a: nat, b: nat, c: nat, d: nat, rest: seq<byte>): (r: seq<byte>)
    requires version < 0x1_0000 && policy < 0x1_0000 && context < UINT32_LIMIT
    requires a < UINT32_LIMIT && b < UINT32_LIMIT && c < UINT32_LIMIT && d < UINT32_LIMIT && |rest| == 16
    ensures |r| == HEADER_SIZE
  {
    ToLe(TA_CONFIG_SEGMENT_MAGIC) + Half(version) + Half(policy) + ToLe(context)
    + ToLe(a) + ToLe(b) + ToLe(c) + ToLe(d) + rest
  }

  function Part(p: seq<byte>, s: Segment): seq<byte>
    requires End(s) <= |p|
  {
    p[s.at..s.at + s.len]
  }

  lemma HeaderReads(version: nat, policy: nat, context: nat, a: nat, b: nat, c: nat, d: nat, rest: seq<byte>, p: seq<byte>)
    requires version < 0x1_0000 && policy < 0x1_0000 && context < UINT32_LIMIT
    requires a < UINT32_LIMIT && b < UINT32_LIMIT && c < UINT32_LIMIT && d < UINT32_LIMIT && |rest| == 16
    requires HeaderBytes(version, policy, context, a, b, c, d, rest) <= p
    ensures WordAt(p, 0) == TA_CONFIG_SEGMENT_MAGIC && Version(p) == version
    ensures TaCertLen(p) == a && ConfigLen(p) == b && VerifyWord(p) == c && ConfigCertLen(p) == d
  {
    hide ToLe, Le;
    var h := HeaderBytes(version, policy, context, a, b, c, d, rest);
    assert h[0..4] == ToLe(TA_CONFIG_SEGMENT_MAGIC) && h[4..6] == Half(version);
    assert h[12..16] == ToLe(a) && h[16..20] == ToLe(b) && h[20..24] == ToLe(c) && h[24..28] == ToLe(d);
    hide HeaderBytes;
    assert p[0..4] == h[0..4] && p[12..16] == h[12..16] && p[16..20] == h[16..20];
    assert p[20..24] == h[20..24] && p[24..28] == h[24..28];
    assert p[4] == h[4..6][0] && p[5] == h[4..6][1];
  }

  /** The parts one after another. */
  function Join(parts: seq<seq<byte>>): seq<byte> {
    if parts == [] then [] else Join(parts[..|parts| - 1]) + parts[|parts| - 1]
  }

  /** Where part i begins. */
  function Offset(parts: seq<seq<byte>>, i: nat): nat
    requires i <= |parts|
  {
    if i == 0 then 0 else Offset(parts, i - 1) + |parts[i - 1]|
  }

  lemma {:induction false} OffsetPrefix(parts: seq<seq<byte>>, n: nat, i: nat)
    requires i <= n <= |parts|
    ensures Offset(parts[..n], i) == Offset(parts, i)
  {
    if i > 0 {
      OffsetPrefix(parts, n, i - 1);
    }
  }

  lemma {:induction false} JoinLength(parts: seq<seq<byte>>)
    ensures |Join(parts)| == Offset(parts, |parts|)
  {
    if parts != [] {
      JoinLength(parts[..|parts| - 1]);
      OffsetPrefix(parts, |parts| - 1, |parts| - 1);
    }
  }

  lemma {:induction false} PartAt(parts: seq<seq<byte>>, i: nat)
    requires i < |parts|
    ensures Offset(parts, i) + |parts[i]| <= |Join(parts)|
    ensures Part(Join(parts), Segment(Offset(parts, i), |parts[i]|)) == parts[i]
  {
    var front := parts[..|parts| - 1];
    JoinLength(front);
    OffsetPrefix(parts, |front|, i);
    if i < |front| {
      PartAt(front, i);
      assert Part(Join(parts), Segment(Offset(parts, i), |parts[i]|)) == Part(Join(front), Segment(Offset(parts, i), |parts[i]|));
    }
  }

  lemma FirstIsPrefix(parts: seq<seq<byte>>)
    requires parts != []
    ensures parts[0] <= Join(parts)
  {
    PartAt(parts, 0);
    assert Offset(parts, 0) == 0;
    assert Join(parts)[0..|parts[0]|] == parts[0];
  }

  /** A V1 package assembled from its parts parses into exactly those parts. */
  lemma RoundTripV1(policy: nat, context: nat, reserved: seq<byte>, alg: nat, taCert: seq<byte>, config: seq<byte>,
                    signature: seq<byte>, cert: seq<byte>, behind: seq<byte>)
    requires policy < 0x1_0000 && context < UINT32_LIMIT && |reserved| == 16 && alg < 4
    requires |taCert| < UINT32_LIMIT && |config| < UINT32_LIMIT && |cert| < UINT32_LIMIT && |signature| < SIGNATURE_LEN_UNIT
    ensures var h := HeaderBytes(CONFIG_HEADER_V1, policy, context, |taCert|, |config|,
                                 |signature| + SIGNATURE_LEN_UNIT * alg, |cert|, reserved);
      var p := Join([h, taCert, config, signature, cert, behind]);
      && HEADER_SIZE <= |p| && Info(p).Some?
      && var c := Info(p).value;
      && End(c.cert) <= |p| && End(c.signature) <= |p| && End(c.config) <= |p| && End(c.taCert) <= |p|
      && Part(p, c.taCert) == taCert && Part(p, c.config) == config
      && Part(p, c.signature) == signature && Part(p, c.cert) == cert
      && c.taType == 1 && c.verifyType == 1
      && c.signAlg == (if |signature| == 72 then SIGN_TYPE_ECDSA_SHA256
                       else if alg == 2 then SIGN_TYPE_RSA_SHA256_PSS else SIGN_TYPE_RSA_SHA256_PKCS1)
  {
    hide HeaderBytes, Join, Part, WordAt;
    var word := |signature| + SIGNATURE_LEN_UNIT * alg;
    var h := HeaderBytes(CONFIG_HEADER_V1, policy, context, |taCert|, |config|, word, |cert|, reserved);
    var parts := [h, taCert, config, signature, cert, behind];
    FirstIsPrefix(parts);
    HeaderReads(CONFIG_HEADER_V1, policy, context, |taCert|, |config|, word, |cert|, reserved, Join(parts));
    assert Offset(parts, 1) == HEADER_SIZE;
    assert Offset(parts, 2) == HEADER_SIZE + |taCert|;
    assert Offset(parts, 3) == HEADER_SIZE + |taCert| + |config|;
    assert Offset(parts, 4) == HEADER_SIZE + |taCert| + |config| + |signature|;
    PartAt(parts, 1);
    PartAt(parts, 2);
    PartAt(parts, 3);
    PartAt(parts, 4);
  }

  /** So does a V2 package, with the words in front of its nested parts. */
  lemma RoundTripV2(policy: nat, context: nat, fifth: nat, reserved: seq<byte>, taType: nat, verifyType: nat, signAlg: nat,
                    taCert: seq<byte>, config: seq<byte>, cert: seq<byte>, signature: seq<byte>, behind: seq<byte>)
    requires policy < 0x1_0000 && context < UINT32_LIMIT && fifth < UINT32_LIMIT && |reserved| == 16
    requires taType < UINT32_LIMIT && verifyType < UINT32_LIMIT && signAlg < UINT32_LIMIT
    requires 4 + |taCert| < UINT32_LIMIT && |config| < UINT32_LIMIT && 12 + |cert| + |signature| < UINT32_LIMIT
    ensures var h := HeaderBytes(CONFIG_HEADER_V2, policy, context, 4 + |taCert|, |config|,
                                 12 + |cert| + |signature|, fifth, reserved);
      var p := Join([h, ToLe(taType), taCert, config, ToLe(verifyType), ToLe(signAlg), ToLe(|cert|), cert, signature, behind]);
      && HEADER_SIZE <= |p| && Info(p).Some?
      && var c := Info(p).value;
      && End(c.cert) <= |p| && End(c.signature) <= |p| && End(c.config) <= |p| && End(c.taCert) <= |p|
      && c.taType == taType && c.verifyType == verifyType && c.signAlg == signAlg
      && Part(p, c.taCert) == taCert && Part(p, c.config) == config
      && Part(p, c.signature) == signature && Part(p, c.cert) == cert
  {
    hide HeaderBytes, Join, Part, WordAt, ToLe, Le;
    var v := 12 + |cert| + |signature|;
    var h := HeaderBytes(CONFIG_HEADER_V2, policy, context, 4 + |taCert|, |config|, v, fifth, reserved);
    var parts := [h, ToLe(taType), taCert, config, ToLe(verifyType), ToLe(signAlg), ToLe(|cert|), cert, signature, behind];
    FirstIsPrefix(parts);
    HeaderReads(CONFIG_HEADER_V2, policy, context, 4 + |taCert|, |config|, v, fifth, reserved, Join(parts));
    var at := HEADER_SIZE + 4 + |taCert| + |config|;
    assert Offset(parts, 1) == HEADER_SIZE;
    assert Offset(parts, 2) == HEADER_SIZE + 4;
    assert Offset(parts, 3) == HEADER_SIZE + 4 + |taCert|;
    assert Offset(parts, 4) == at;
    assert Offset(parts, 5) == at + 4;
    assert Offset(parts, 6) == at + 8;
    assert Offset(parts, 7) == at + 12;
    assert Offset(parts, 8) == at + 12 + |cert|;
    WordPart(parts, 1, taType);
    WordPart(parts, 4, verifyType);
    WordPart(parts, 5, signAlg);
    WordPart(parts, 6, |cert|);
    PartAt(parts, 2);
    PartAt(parts, 3);
    PartAt(parts, 7);
    PartAt(parts, 8);
  }

  lemma WordPart(parts: seq<seq<byte>>, i: nat, v: nat)
    requires i < |parts| && v < UINT32_LIMIT && parts[i] == ToLe(v)
    ensures Offset(parts, i) + 4 <= |Join(parts)| && WordAt(Join(parts), Offset(parts, i)) == v
  {
    hide ToLe, Le, Join, Offset;
    PartAt(parts, i);
  }
}
