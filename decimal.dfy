/**
  Decimal rendering of integers as Python's `str(int)` produces it: an optional
  leading minus sign followed by the digits of the magnitude, most significant
  first and without leading zeros. A parser is given as its partner.
 */
module Decimal {
  import opened Wrappers

  predicate IsDigit(c: char) {
    '0' <= c <= '9'
  }

  function DigitChar(d: int): (c: char)
    requires 0 <= d < 10
    ensures IsDigit(c) && c as int - '0' as int == d
  {
    ('0' as int + d) as char
  }

  /** The digits of `n`, most significant first. */
  function NatDigits(n: nat): (s: string)
    ensures 1 <= |s|
    ensures forall i :: 0 <= i < |s| ==> IsDigit(s[i])
    ensures |s| > 1 ==> s[0] != '0'
    decreases n
  {
    if n < 10 then [DigitChar(n)] else NatDigits(n / 10) + [DigitChar(n % 10)]
  }

  /** `str(n)` for a Python int. */
  function Render(n: int): (s: string)
    ensures 1 <= |s|
    ensures forall i :: 0 <= i < |s| ==> IsDigit(s[i]) || (i == 0 && n < 0 && s[i] == '-')
    ensures ',' !in s && '=' !in s
  {
    if n < 0 then "-" + NatDigits(-n) else NatDigits(n)
  }

  /** Reads a non-empty string of digits as a natural number. */
  function ParseDigits(s: string): (r: Option<nat>)
    ensures r.Some? ==> 1 <= |s|
    decreases |s|
  {
    if s == [] || !IsDigit(s[|s| - 1]) then None
    else
      var last := s[|s| - 1] as int - '0' as int;
      if |s| == 1 then Some(last)
      else match ParseDigits(s[..|s| - 1])
        case None => None
        case Some(p) => Some(p * 10 + last)
  }

  /** Reads an optional minus sign followed by digits. */
  function ParseInt(s: string): (r: Option<int>)
  {
    if |s| > 0 && s[0] == '-' then
      match ParseDigits(s[1..])
      case None => None
      case Some(p) => Some(-(p as int))
    else
      match ParseDigits(s)
      case None => None
      case Some(p) => Some(p)
  }

  lemma {:induction false} NatDigitsRoundTrip(n: nat)
    ensures ParseDigits(NatDigits(n)) == Some(n)
    decreases n
  {
    var s := NatDigits(n);
    if n >= 10 {
      NatDigitsRoundTrip(n / 10);
      assert s[..|s| - 1] == NatDigits(n / 10);
    }
  }

  /** Parsing undoes rendering. */
  lemma RenderRoundTrip(n: int)
    ensures ParseInt(Render(n)) == Some(n)
  {
    if n < 0 {
      NatDigitsRoundTrip(-n);
      assert Render(n)[1..] == NatDigits(-n);
    } else {
      NatDigitsRoundTrip(n);
    }
  }

  /** Distinct integers render to distinct strings. */
  lemma RenderInjective(m: int, n: int)
    ensures Render(m) == Render(n) ==> m == n
  {
    RenderRoundTrip(m);
    RenderRoundTrip(n);
  }
}
