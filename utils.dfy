/**
  The library's helper functions: the amount and URL checks, the keyed-hash
  signer, the normalisation `base64_decode` applies before decoding, and the
  format of generated transaction ids.
 */
module Utils {
  import opened Wrappers
  import opened Exceptions
  import opened Codec
  import Decimal

  // ---------------------------------------------------------------------------
  // Validation

  /** The scheme and network location `urlparse` finds in a URL. */
  datatype UrlParts = UrlParts(scheme: string, netloc: string)

  /** `validate_url`: a URL passes exactly when it has both a scheme and a host. */
  function ValidateUrl(url: string, parsed: UrlParts): (r: Outcome<EsewaError>)
    ensures r.Pass? <==> parsed.scheme != "" && parsed.netloc != ""
    ensures r.Fail? ==> r.error == ValidationError("Invalid URL: " + url)
  {
    if parsed.scheme == "" || parsed.netloc == "" then Fail(ValidationError("Invalid URL: " + url)) else Pass
  }

  /** `validate_amount`: zero and positive amounts pass, negative ones are refused. */
  function ValidateAmount(value: int, fieldName: string): (r: Outcome<EsewaError>)
    ensures r.Pass? <==> value >= 0
    ensures r.Fail? ==> r.error == ValidationError(fieldName + " must be non-negative.")
  {
    if value < 0 then Fail(ValidationError(fieldName + " must be non-negative.")) else Pass
  }

  // ---------------------------------------------------------------------------
  // Signing

  /**
    The keyed hash `hmac.new(key, message, hashlib.<algorithm>).digest()` of
    RFC 2104, given as (algorithm name, key, message) -> digest bytes. It is a
    parameter because the hash functions themselves are outside this model.
   */
  type Digester = (string, string, string) -> seq<byte>

  const HASH_INPUTS_REQUIRED: string := "Both data and secret are required to generate a hash."

  /**
    `generate_hmac_sha256_hash`: refuses an empty message or key before hashing;
    otherwise encodes the digest as standard Base64 when `encoding` is exactly
    "base64" and as lowercase hexadecimal for any other value.
   */
  function GenerateHmacHash(digest: Digester, data: string, secret: string, algorithm: string, encoding: string)
    : (r: Result<string, EsewaError>)
    ensures r.Failure? <==> data == "" || secret == ""
    ensures r.Failure? ==> r.error == ValidationError(HASH_INPUTS_REQUIRED)
    ensures r.Success? && encoding == "base64" ==>
      && r.value == EncodeBase64(digest(algorithm, secret, data))
      && DecodeBase64(r.value) == Some(digest(algorithm, secret, data))
    ensures r.Success? && encoding != "base64" ==>
      && r.value == EncodeHex(digest(algorithm, secret, data))
      && DecodeHex(r.value) == Some(digest(algorithm, secret, data))
      && |r.value| == 2 * |digest(algorithm, secret, data)|
      && forall i :: 0 <= i < |r.value| ==> IsLowerHex(r.value[i])
  {
    if data == "" || secret == "" then
      Failure(ValidationError(HASH_INPUTS_REQUIRED))
    else
      var hashBytes := digest(algorithm, secret, data);
      if encoding == "base64" then
        Base64RoundTrip(hashBytes);
        Success(EncodeBase64(hashBytes))
      else
        HexRoundTrip(hashBytes);
        Success(EncodeHex(hashBytes))
  }

  /**
    The signature is a function of (data, secret, algorithm, encoding) and of the
    digest those name, nothing else: two digesters that agree on that digest
    give the same result.
   */
  lemma SignatureDeterministic(d1: Digester, d2: Digester, data: string, secret: string, algorithm: string, encoding: string)
    requires d1(algorithm, secret, data) == d2(algorithm, secret, data)
    ensures GenerateHmacHash(d1, data, secret, algorithm, encoding) == GenerateHmacHash(d2, data, secret, algorithm, encoding)
  {
  }

  /** The Base64 and the hex signature of the same inputs carry the same digest bytes. */
  lemma SignatureEncodingsAgree(digest: Digester, data: string, secret: string, algorithm: string, other: string)
    requires data != "" && secret != "" && other != "base64"
    ensures
      var b64 := GenerateHmacHash(digest, data, secret, algorithm, "base64");
      var hex := GenerateHmacHash(digest, data, secret, algorithm, other);
      b64.Success? && hex.Success? && DecodeBase64(b64.value) == DecodeHex(hex.value)
  {
  }

  // ---------------------------------------------------------------------------
  // Base64url normalisation in `base64_decode`

  /**
    The text `base64_decode` hands to the decoder: the input padded with `=` to
    a multiple of four, then `-` replaced by `+` and `_` by `/`.
   */
  function StandardBase64(encoded: string): (r: string)
    ensures |r| % 4 == 0
    ensures |encoded| <= |r| < |encoded| + 4
    ensures |encoded| % 4 == 0 ==> |r| == |encoded|
    ensures '-' !in r && '_' !in r
    ensures forall i :: 0 <= i < |encoded| && encoded[i] != '-' && encoded[i] != '_' ==> r[i] == encoded[i]
    ensures forall i :: 0 <= i < |encoded| && encoded[i] == '-' ==> r[i] == '+'
    ensures forall i :: 0 <= i < |encoded| && encoded[i] == '_' ==> r[i] == '/'
    ensures forall i :: |encoded| <= i < |r| ==> r[i] == '='
  {
    var padded := PadToQuad(encoded);
    ReplaceChar(ReplaceChar(padded, '-', '+'), '_', '/')
  }

  /**
    Normalising unpadded Base64url text gives back the standard padded
    encoding of the same bytes, which the decoder then turns into those bytes.
   */
  lemma UrlSafeNormalises(b: seq<byte>)
    ensures StandardBase64(EncodeBase64UrlUnpadded(b)) == EncodeBase64(b)
    ensures DecodeBase64(StandardBase64(EncodeBase64UrlUnpadded(b))) == Some(b)
  {
    var u := EncodeUnpadded(b);
    var w := EncodeBase64UrlUnpadded(b);
    var r := StandardBase64(w);
    var e := EncodeBase64(b);
    assert |r| == |e|;
    forall i | 0 <= i < |r|
      ensures r[i] == e[i]
    {
      if i < |u| {
        assert IsBase64Char(u[i]);
      }
    }
    assert r == e;
    Base64RoundTrip(b);
  }

  // ---------------------------------------------------------------------------
  // Transaction ids

  predicate IsIdChar(c: char) {
    'a' <= c <= 'z' || '0' <= c <= '9'
  }

  const RANDOM_PART_LENGTH: nat := 9

  /** The character at index `k` of `string.ascii_lowercase + string.digits`. */
  function IdChar(k: int): (c: char)
    requires 0 <= k < 36
    ensures IsIdChar(c)
    ensures IdIndex(c) == k
  {
    if k < 26 then ('a' as int + k) as char else ('0' as int + (k - 26)) as char
  }

  /** The position of an id character in `string.ascii_lowercase + string.digits`. */
  function IdIndex(c: char): (k: int)
    requires IsIdChar(c)
    ensures 0 <= k < 36
  {
    if 'a' <= c <= 'z' then c as int - 'a' as int else c as int - '0' as int + 26
  }

  /** The characters `random.choices` picks: `picks` are their positions in the population. */
  function RandomPart(picks: seq<int>): (r: string)
    requires forall i :: 0 <= i < |picks| ==> 0 <= picks[i] < 36
    ensures |r| == |picks|
    ensures forall i :: 0 <= i < |r| ==> IsIdChar(r[i]) && IdIndex(r[i]) == picks[i]
  {
    seq(|picks|, i requires 0 <= i < |picks| => IdChar(picks[i]))
  }

  /**
    `generate_unique_id`: "id-", the whole seconds of the clock in decimal,
    "-", then nine characters drawn from `[a-z0-9]`. The clock reading and the
    random picks are parameters.
   */
  function GenerateUniqueId(timestamp: nat, picks: seq<int>): (id: string)
    requires |picks| == RANDOM_PART_LENGTH
    requires forall i :: 0 <= i < |picks| ==> 0 <= picks[i] < 36
    ensures |id| == |Decimal.Render(timestamp)| + 13
    ensures id[..3] == "id-" && id[|id| - 10] == '-'
    ensures id[3..|id| - 10] == Decimal.Render(timestamp)
    ensures forall i :: |id| - 9 <= i < |id| ==> IsIdChar(id[i])
    ensures forall i :: 0 <= i < |id| ==> IsIdChar(id[i]) || id[i] == '-'
  {
    "id-" + Decimal.Render(timestamp) + "-" + RandomPart(picks)
  }

  /** Reads an id back into its clock reading and random picks. */
  function ParseUniqueId(id: string): (r: Option<(nat, seq<int>)>)
  {
    if |id| < 14 || id[..3] != "id-" || id[|id| - 10] != '-' then None
    else
      var tail := id[|id| - 9..];
      if exists i :: 0 <= i < |tail| && !IsIdChar(tail[i]) then None
      else
        match Decimal.ParseDigits(id[3..|id| - 10])
        case None => None
        case Some(t) => Some((t, seq(|tail|, i requires 0 <= i < |tail| => IdIndex(tail[i]))))
  }

  /** An id determines the clock reading and the random picks it was made from. */
  lemma UniqueIdRoundTrip(timestamp: nat, picks: seq<int>)
    requires |picks| == RANDOM_PART_LENGTH
    requires forall i :: 0 <= i < |picks| ==> 0 <= picks[i] < 36
    ensures ParseUniqueId(GenerateUniqueId(timestamp, picks)) == Some((timestamp, picks))
  {
    var id := GenerateUniqueId(timestamp, picks);
    var tail := id[|id| - 9..];
    assert tail == RandomPart(picks);
    assert !exists i :: 0 <= i < |tail| && !IsIdChar(tail[i]);
    assert id[3..|id| - 10] == Decimal.NatDigits(timestamp);
    Decimal.NatDigitsRoundTrip(timestamp);
    assert seq(|tail|, i requires 0 <= i < |tail| => IdIndex(tail[i])) == picks;
  }

  /** Different clock readings or different picks never give the same id. */
  lemma UniqueIdInjective(t1: nat, p1: seq<int>, t2: nat, p2: seq<int>)
    requires |p1| == RANDOM_PART_LENGTH && forall i :: 0 <= i < |p1| ==> 0 <= p1[i] < 36
    requires |p2| == RANDOM_PART_LENGTH && forall i :: 0 <= i < |p2| ==> 0 <= p2[i] < 36
    requires GenerateUniqueId(t1, p1) == GenerateUniqueId(t2, p2)
    ensures t1 == t2 && p1 == p2
  {
    UniqueIdRoundTrip(t1, p1);
    UniqueIdRoundTrip(t2, p2);
  }
}
