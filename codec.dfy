/**
  Text encodings of digest bytes: standard Base64 (section 4 of RFC 4648), its
  URL- and filename-safe alphabet (section 5) and lowercase hexadecimal (Base16,
  section 8, in the lower case Python's `bytes.hex()` uses). Each encoder has a
  decoder as its partner, and the lemmas show that decoding undoes encoding.
 */
module Codec {
  import opened Wrappers

  newtype byte = x: int | 0 <= x < 256

  // ---------------------------------------------------------------------------
  // The Base64 alphabet

  predicate IsBase64Char(c: char) {
    'A' <= c <= 'Z' || 'a' <= c <= 'z' || '0' <= c <= '9' || c == '+' || c == '/'
  }

  /** The character that encodes the 6-bit value `v` (Table 1 of RFC 4648). */
  function Base64Char(v: int): (c: char)
    requires 0 <= v < 64
    ensures IsBase64Char(c)
    ensures Base64Value(c) == Some(v)
  {
    if v < 26 then ('A' as int + v) as char
    else if v < 52 then ('a' as int + (v - 26)) as char
    else if v < 62 then ('0' as int + (v - 52)) as char
    else if v == 62 then '+'
    else '/'
  }

  /** The 6-bit value a character encodes, if it is in the alphabet. */
  function Base64Value(c: char): (r: Option<int>)
    ensures r.Some? <==> IsBase64Char(c)
    ensures r.Some? ==> 0 <= r.value < 64
  {
    if 'A' <= c <= 'Z' then Some(c as int - 'A' as int)
    else if 'a' <= c <= 'z' then Some(c as int - 'a' as int + 26)
    else if '0' <= c <= '9' then Some(c as int - '0' as int + 52)
    else if c == '+' then Some(62)
    else if c == '/' then Some(63)
    else None
  }

  // ---------------------------------------------------------------------------
  // Base64 encoding

  /** Three bytes, 24 bits, as four characters of six bits each. */
  function EncodeGroup(b0: byte, b1: byte, b2: byte): (s: string)
  {
    var x0, x1, x2 := b0 as int, b1 as int, b2 as int;
    [Base64Char(x0 / 4), Base64Char(x0 % 4 * 16 + x1 / 16),
     Base64Char(x1 % 16 * 4 + x2 / 64), Base64Char(x2 % 64)]
  }

  /**
    The encoding without its trailing padding: a final group of one byte gives
    two characters, one of two bytes gives three, the missing bits being zero.
   */
  function EncodeUnpadded(b: seq<byte>): (s: string)
    ensures |s| == (4 * |b| + 2) / 3
    ensures forall i :: 0 <= i < |s| ==> IsBase64Char(s[i])
    decreases |b|
  {
    if |b| == 0 then ""
    else if |b| == 1 then
      [Base64Char(b[0] as int / 4), Base64Char(b[0] as int % 4 * 16)]
    else if |b| == 2 then
      [Base64Char(b[0] as int / 4), Base64Char(b[0] as int % 4 * 16 + b[1] as int / 16),
       Base64Char(b[1] as int % 16 * 4)]
    else
      EncodeGroup(b[0], b[1], b[2]) + EncodeUnpadded(b[3..])
  }

  /** `n` padding characters. */
  function Padding(n: nat): (p: string)
    ensures |p| == n && forall i :: 0 <= i < n ==> p[i] == '='
  {
    seq(n, _ => '=')
  }

  /**
    Appends `=` until the length is a multiple of four. The count is
    `(-|s|) % 4`; Dafny's `%` and Python's agree here because the divisor is
    positive.
   */
  function PadToQuad(s: string): (r: string)
    ensures |r| % 4 == 0
    ensures |s| <= |r| < |s| + 4
    ensures r[..|s|] == s
    ensures forall i :: |s| <= i < |r| ==> r[i] == '='
    ensures |s| % 4 == 0 ==> r == s
  {
    s + Padding((-|s|) % 4)
  }

  /** Standard Base64 with padding, as `base64.b64encode` produces it. */
  function EncodeBase64(b: seq<byte>): (s: string)
    ensures |s| == 4 * ((|b| + 2) / 3)
  {
    PaddedLength(|b|);
    PadToQuad(EncodeUnpadded(b))
  }

  /** Padding brings the unpadded length up to four characters per started group of three bytes. */
  lemma PaddedLength(n: nat)
    ensures var u := (4 * n + 2) / 3; u + (-u) % 4 == 4 * ((n + 2) / 3)
  {
    var q, r := n / 3, n % 3;
    assert n == 3 * q + r;
    assert 4 * n + 2 == 3 * (4 * q + r) + (r + 2);
    if r == 0 {
      assert (4 * n + 2) / 3 == 4 * q;
      assert (n + 2) / 3 == q;
    } else if r == 1 {
      assert (4 * n + 2) / 3 == 4 * q + 2;
      assert (n + 2) / 3 == q + 1;
    } else {
      assert (4 * n + 2) / 3 == 4 * q + 3;
      assert (n + 2) / 3 == q + 1;
    }
  }

  // ---------------------------------------------------------------------------
  // Base64 decoding

  /** The first byte of a quantum from its first two 6-bit values. */
  function Byte0(c0: int, c1: int): byte
    requires 0 <= c0 < 64 && 0 <= c1 < 64
  {
    (c0 * 4 + c1 / 16) as byte
  }

  function Byte1(c1: int, c2: int): byte
    requires 0 <= c1 < 64 && 0 <= c2 < 64
  {
    (c1 % 16 * 16 + c2 / 4) as byte
  }

  function Byte2(c2: int, c3: int): byte
    requires 0 <= c2 < 64 && 0 <= c3 < 64
  {
    (c2 % 4 * 64 + c3) as byte
  }

  /**
    Decodes one four-character quantum. Only the `last` quantum of the text may
    end in `==` (one byte) or `=` (two bytes), and then the bits the padding
    leaves over must be zero (section 3.5 of RFC 4648), so that every byte
    sequence has exactly one encoding this decoder accepts.
   */
  function DecodeQuad(q: string, last: bool): (r: Option<seq<byte>>)
    requires |q| == 4
    ensures r.Some? ==> 1 <= |r.value| <= 3
  {
    var v0, v1, v2, v3 := Base64Value(q[0]), Base64Value(q[1]), Base64Value(q[2]), Base64Value(q[3]);
    if v0.None? || v1.None? then None
    else if last && q[2] == '=' && q[3] == '=' then
      if v1.value % 16 == 0 then Some([Byte0(v0.value, v1.value)]) else None
    else if v2.None? then None
    else if last && q[3] == '=' then
      if v2.value % 4 == 0 then Some([Byte0(v0.value, v1.value), Byte1(v1.value, v2.value)]) else None
    else if v3.None? then None
    else
      Some([Byte0(v0.value, v1.value), Byte1(v1.value, v2.value), Byte2(v2.value, v3.value)])
  }

  /** Decodes padded standard Base64; `None` on a bad length, a bad character or non-zero pad bits. */
  function DecodeBase64(s: string): (r: Option<seq<byte>>)
    decreases |s|
  {
    if s == [] then Some([])
    else if |s| < 4 then None
    else
      match DecodeQuad(s[..4], |s| == 4)
      case None => None
      case Some(head) =>
        match DecodeBase64(s[4..])
        case None => None
        case Some(tail) => Some(head + tail)
  }

  // ---------------------------------------------------------------------------
  // Base64 round trip

  lemma SplitSixteen(a: int, b: int)
    requires 0 <= b < 16
    ensures (a * 16 + b) / 16 == a && (a * 16 + b) % 16 == b
  {
  }

  lemma SplitFour(a: int, b: int)
    requires 0 <= b < 4
    ensures (a * 4 + b) / 4 == a && (a * 4 + b) % 4 == b
  {
  }

  /** The bytes of a full group come back out of its four characters. */
  lemma GroupRoundTrip(b0: byte, b1: byte, b2: byte, last: bool)
    ensures DecodeQuad(EncodeGroup(b0, b1, b2), last) == Some([b0, b1, b2])
  {
    var x0, x1, x2 := b0 as int, b1 as int, b2 as int;
    SplitSixteen(x0 % 4, x1 / 16);
    SplitFour(x1 % 16, x2 / 64);
    assert Byte0(x0 / 4, x0 % 4 * 16 + x1 / 16) == b0;
    assert Byte1(x0 % 4 * 16 + x1 / 16, x1 % 16 * 4 + x2 / 64) == b1;
    assert Byte2(x1 % 16 * 4 + x2 / 64, x2 % 64) == b2;
  }

  /** Four leading characters do not change how much padding the rest needs. */
  lemma PadAfterGroup(g: string, u: string)
    requires |g| == 4
    ensures PadToQuad(g + u) == g + PadToQuad(u)
  {
    var k := (-|u|) % 4;
    assert (-|g + u|) % 4 == k;
    assert PadToQuad(g + u) == (g + u) + Padding(k);
    assert (g + u) + Padding(k) == g + (u + Padding(k));
  }

  /** A full group at the front of the bytes stays a full group at the front of the text. */
  lemma EncodeBase64Cons(b: seq<byte>)
    requires |b| >= 3
    ensures EncodeBase64(b) == EncodeGroup(b[0], b[1], b[2]) + EncodeBase64(b[3..])
  {
    var g, u := EncodeGroup(b[0], b[1], b[2]), EncodeUnpadded(b[3..]);
    assert EncodeUnpadded(b) == g + u;
    PadAfterGroup(g, u);
  }

  /** A single trailing byte: two characters and `==`. */
  lemma OneByteRoundTrip(b: seq<byte>)
    requires |b| == 1
    ensures DecodeBase64(EncodeBase64(b)) == Some(b)
  {
    var x0 := b[0] as int;
    var s := EncodeBase64(b);
    var c0, c1 := Base64Char(x0 / 4), Base64Char(x0 % 4 * 16);
    assert s == [c0, c1, '=', '='];
    assert s[..4] == s && s[4..] == [];
    SplitSixteen(x0 % 4, 0);
    assert DecodeQuad(s, true) == Some([Byte0(x0 / 4, x0 % 4 * 16)]);
    assert Byte0(x0 / 4, x0 % 4 * 16) == b[0];
    assert DecodeBase64(s[4..]) == Some([]);
    assert [b[0]] + [] == b;
  }

  /** Two trailing bytes: three characters and `=`. */
  lemma TwoBytesRoundTrip(b: seq<byte>)
    requires |b| == 2
    ensures DecodeBase64(EncodeBase64(b)) == Some(b)
  {
    var x0, x1 := b[0] as int, b[1] as int;
    var s := EncodeBase64(b);
    var v1, v2 := x0 % 4 * 16 + x1 / 16, x1 % 16 * 4;
    assert s == [Base64Char(x0 / 4), Base64Char(v1), Base64Char(v2), '='];
    assert s[..4] == s && s[4..] == [];
    SplitSixteen(x0 % 4, x1 / 16);
    SplitFour(x1 % 16, 0);
    assert DecodeQuad(s, true) == Some([Byte0(x0 / 4, v1), Byte1(v1, v2)]);
    assert Byte0(x0 / 4, v1) == b[0];
    assert Byte1(v1, v2) == b[1];
    assert DecodeBase64(s[4..]) == Some([]);
    assert [b[0], b[1]] + [] == b;
  }

  /** Decoding a quantum followed by more text decodes each in turn. */
  lemma DecodeCons(q: string, t: string, head: seq<byte>, tail: seq<byte>)
    requires |q| == 4
    requires DecodeQuad(q, t == []) == Some(head)
    requires DecodeBase64(t) == Some(tail)
    ensures DecodeBase64(q + t) == Some(head + tail)
  {
    var s := q + t;
    assert s[..4] == q && s[4..] == t;
  }

  /** A full leading group decodes in front of whatever the rest decodes to. */
  lemma GroupStep(b: seq<byte>)
    requires |b| >= 3
    requires DecodeBase64(EncodeBase64(b[3..])) == Some(b[3..])
    ensures DecodeBase64(EncodeBase64(b)) == Some(b)
  {
    var rest := b[3..];
    var g, t := EncodeGroup(b[0], b[1], b[2]), EncodeBase64(rest);
    EncodeBase64Cons(b);
    GroupRoundTrip(b[0], b[1], b[2], t == []);
    DecodeCons(g, t, [b[0], b[1], b[2]], rest);
    assert b == [b[0], b[1], b[2]] + rest;
  }

  /** Decoding undoes encoding: `b64decode(b64encode(b)) == b`. */
  lemma {:induction false} Base64RoundTrip(b: seq<byte>)
    ensures DecodeBase64(EncodeBase64(b)) == Some(b)
    decreases |b|
  {
    if |b| == 0 {
      assert EncodeBase64(b) == [];
    } else if |b| == 1 {
      OneByteRoundTrip(b);
    } else if |b| == 2 {
      TwoBytesRoundTrip(b);
    } else {
      Base64RoundTrip(b[3..]);
      GroupStep(b);
    }
  }

  /** The alphabet has one character per value: a decoded value maps back to the character. */
  lemma Base64CharOfValue(c: char)
    requires Base64Value(c).Some?
    ensures Base64Char(Base64Value(c).value) == c
  {
  }

  /** A full quantum that decodes to three bytes is the encoding of those bytes. */
  lemma FullQuadCanonical(q: string, last: bool, bytes: seq<byte>)
    requires |q| == 4 && DecodeQuad(q, last) == Some(bytes) && |bytes| == 3
    ensures q == EncodeGroup(bytes[0], bytes[1], bytes[2])
  {
    var v0, v1, v2, v3 := Base64Value(q[0]).value, Base64Value(q[1]).value,
                          Base64Value(q[2]).value, Base64Value(q[3]).value;
    assert bytes == [Byte0(v0, v1), Byte1(v1, v2), Byte2(v2, v3)];
    var x0, x1, x2 := bytes[0] as int, bytes[1] as int, bytes[2] as int;
    SplitFour(v0, v1 / 16);
    SplitSixteen(v1 % 16, v2 / 4);
    SplitFour(v2 / 4, v2 % 4);
    assert x0 / 4 == v0 && x0 % 4 == v1 / 16;
    assert x1 / 16 == v1 % 16 && x1 % 16 == v2 / 4;
    assert x2 / 64 == v2 % 4 && x2 % 64 == v3;
    assert x0 % 4 * 16 + x1 / 16 == v1;
    assert x1 % 16 * 4 + x2 / 64 == v2;
    Base64CharOfValue(q[0]);
    Base64CharOfValue(q[1]);
    Base64CharOfValue(q[2]);
    Base64CharOfValue(q[3]);
  }

  /** A final `xy==` quantum is the encoding of the one byte it decodes to. */
  lemma OneByteQuadCanonical(q: string, bytes: seq<byte>)
    requires |q| == 4 && DecodeQuad(q, true) == Some(bytes) && |bytes| == 1
    ensures q == EncodeBase64(bytes)
  {
    var v0, v1 := Base64Value(q[0]).value, Base64Value(q[1]).value;
    assert q[2] == '=' && q[3] == '=' && v1 % 16 == 0;
    var x0 := bytes[0] as int;
    assert x0 == v0 * 4 + v1 / 16;
    SplitFour(v0, v1 / 16);
    assert x0 % 4 * 16 == v1;
    Base64CharOfValue(q[0]);
    Base64CharOfValue(q[1]);
    assert EncodeBase64(bytes) == [Base64Char(x0 / 4), Base64Char(x0 % 4 * 16), '=', '='];
  }

  /** A final `xyz=` quantum is the encoding of the two bytes it decodes to. */
  lemma TwoBytesQuadCanonical(q: string, bytes: seq<byte>)
    requires |q| == 4 && DecodeQuad(q, true) == Some(bytes) && |bytes| == 2
    ensures q == EncodeBase64(bytes)
  {
    var v0, v1, v2 := Base64Value(q[0]).value, Base64Value(q[1]).value, Base64Value(q[2]).value;
    assert q[3] == '=' && v2 % 4 == 0;
    var x0, x1 := bytes[0] as int, bytes[1] as int;
    assert x0 == v0 * 4 + v1 / 16 && x1 == v1 % 16 * 16 + v2 / 4;
    SplitFour(v0, v1 / 16);
    SplitSixteen(v1 % 16, v2 / 4);
    assert x0 % 4 * 16 + x1 / 16 == v1;
    assert x1 % 16 * 4 == v2;
    Base64CharOfValue(q[0]);
    Base64CharOfValue(q[1]);
    Base64CharOfValue(q[2]);
    assert EncodeBase64(bytes) == [Base64Char(x0 / 4), Base64Char(x0 % 4 * 16 + x1 / 16),
                                   Base64Char(x1 % 16 * 4), '='];
  }

  /** A quantum that is not the last one always decodes to three bytes. */
  lemma InnerQuadIsFull(q: string, bytes: seq<byte>)
    requires |q| == 4 && DecodeQuad(q, false) == Some(bytes)
    ensures |bytes| == 3
  {
  }

  /**
    The decoder accepts only canonical text: whatever it decodes to the bytes
    `b` is exactly `EncodeBase64(b)`. With Base64RoundTrip, `DecodeBase64(s) ==
    Some(b)` holds if and only if `s == EncodeBase64(b)`.
   */
  lemma {:induction false} Base64Canonical(s: string, b: seq<byte>)
    requires DecodeBase64(s) == Some(b)
    ensures s == EncodeBase64(b)
    decreases |s|
  {
    if s != [] {
      var q, rest := s[..4], s[4..];
      var head := DecodeQuad(q, |s| == 4).value;
      var tail := DecodeBase64(rest).value;
      assert b == head + tail;
      assert s == q + rest;
      Base64Canonical(rest, tail);
      if |s| == 4 {
        assert tail == [] && b == head;
        if |head| == 3 {
          FullQuadCanonical(q, true, head);
          EncodeBase64Cons(b);
          assert b[3..] == [];
        } else if |head| == 2 {
          TwoBytesQuadCanonical(q, head);
        } else {
          OneByteQuadCanonical(q, head);
        }
      } else {
        InnerQuadIsFull(q, head);
        FullQuadCanonical(q, false, head);
        EncodeBase64Cons(b);
        assert b[3..] == tail;
      }
    }
  }

  // ---------------------------------------------------------------------------
  // The URL- and filename-safe alphabet (section 5 of RFC 4648)

  /** Replaces every occurrence of `from` by `to`, like Python's `str.replace` on one character. */
  function ReplaceChar(s: string, from: char, to: char): (r: string)
    ensures |r| == |s|
    ensures from != to ==> from !in r
    ensures forall i :: 0 <= i < |s| && s[i] != from ==> r[i] == s[i]
    ensures forall i :: 0 <= i < |s| && s[i] == from ==> r[i] == to
  {
    seq(|s|, i requires 0 <= i < |s| => if s[i] == from then to else s[i])
  }

  /** Unpadded Base64url, the form a URL-safe sender emits: `+` is `-`, `/` is `_`, no `=`. */
  function EncodeBase64UrlUnpadded(b: seq<byte>): (s: string)
    ensures '+' !in s && '/' !in s && '=' !in s
  {
    ReplaceChar(ReplaceChar(EncodeUnpadded(b), '+', '-'), '/', '_')
  }

  // ---------------------------------------------------------------------------
  // Lowercase hexadecimal

  predicate IsLowerHex(c: char) {
    '0' <= c <= '9' || 'a' <= c <= 'f'
  }

  function HexDigit(d: int): (c: char)
    requires 0 <= d < 16
    ensures IsLowerHex(c)
    ensures HexValue(c) == Some(d)
  {
    if d < 10 then ('0' as int + d) as char else ('a' as int + (d - 10)) as char
  }

  function HexValue(c: char): (r: Option<int>)
    ensures r.Some? <==> IsLowerHex(c)
    ensures r.Some? ==> 0 <= r.value < 16
  {
    if '0' <= c <= '9' then Some(c as int - '0' as int)
    else if 'a' <= c <= 'f' then Some(c as int - 'a' as int + 10)
    else None
  }

  /** `bytes.hex()`: two lowercase digits per byte, high nibble first. */
  function EncodeHex(b: seq<byte>): (s: string)
    ensures |s| == 2 * |b|
    ensures forall i :: 0 <= i < |s| ==> IsLowerHex(s[i])
    decreases |b|
  {
    if b == [] then "" else [HexDigit(b[0] as int / 16), HexDigit(b[0] as int % 16)] + EncodeHex(b[1..])
  }

  /** Reads pairs of lowercase hex digits; `None` on an odd length or another character. */
  function DecodeHex(s: string): (r: Option<seq<byte>>)
    decreases |s|
  {
    if s == [] then Some([])
    else if |s| == 1 then None
    else
      match (HexValue(s[0]), HexValue(s[1]))
      case (Some(hi), Some(lo)) =>
        (match DecodeHex(s[2..])
         case None => None
         case Some(tail) => Some([(hi * 16 + lo) as byte] + tail))
      case _ => None
  }

  /** Decoding undoes encoding: `bytes.fromhex(b.hex()) == b`. */
  lemma {:induction false} HexRoundTrip(b: seq<byte>)
    ensures DecodeHex(EncodeHex(b)) == Some(b)
    decreases |b|
  {
    if b != [] {
      var s := EncodeHex(b);
      HexRoundTrip(b[1..]);
      assert s[2..] == EncodeHex(b[1..]);
      SplitSixteen(b[0] as int / 16, b[0] as int % 16);
      assert b == [b[0]] + b[1..];
    }
  }
}
