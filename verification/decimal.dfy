/** Decimal text of integers, as Python's `str(int)` and the `d` presentation type
    write them, and the parser that reads it back. */
module Decimal {
  import opened Wrappers

  predicate IsDigit(c: char)
  {
    '0' <= c <= '9'
  }

  predicate AllDigits(s: string)
  {
    forall i :: 0 <= i < |s| ==> IsDigit(s[i])
  }

  function DigitChar(d: int): (c: char)
    requires 0 <= d < 10
    ensures IsDigit(c)
  {
    (('0' as int) + d) as char
  }

  function DigitValue(c: char): (d: int)
    requires IsDigit(c)
    ensures 0 <= d < 10
    ensures DigitChar(d) == c
  {
    (c as int) - ('0' as int)
  }

  /** The shortest decimal numeral of `n`: no leading zeros, one digit for values below 10
      and at most two for values below 100. */
  function NatToString(n: nat): (r: string)
    ensures r != [] && AllDigits(r)
    ensures r[0] == '0' ==> |r| == 1
    ensures |r| == 1 <==> n < 10
    ensures |r| <= 2 <==> n < 100
    decreases n
  {
    if n < 10 then [DigitChar(n)] else NatToString(n / 10) + [DigitChar(n % 10)]
  }

  /** Reads a non-empty string of decimal digits, most significant first. */
  function ParseNat(s: string): (r: Option<nat>)
    ensures r.Some? <==> s != [] && AllDigits(s)
    decreases |s|
  {
    if s == [] || !IsDigit(s[|s| - 1]) then None
    else if |s| == 1 then Some(DigitValue(s[0]))
    else match ParseNat(s[..|s| - 1])
      case None => None
      case Some(p) => Some(p * 10 + DigitValue(s[|s| - 1]))
  }

  lemma {:induction false} ParseNatToString(n: nat)
    ensures ParseNat(NatToString(n)) == Some(n)
    decreases n
  {
    var r := NatToString(n);
    if n >= 10 {
      var q := NatToString(n / 10);
      ParseNatToString(n / 10);
      assert r[..|r| - 1] == q;
      assert DigitValue(r[|r| - 1]) == n % 10;
    }
  }

  /** `str(i)`: a `-` sign in front of the numeral of `|i|` for negative `i`. */
  function IntToString(i: int): (r: string)
    ensures r != []
    ensures r[0] == '-' <==> i < 0
    ensures r[0] != ' '
    ensures |r| <= 2 <==> -10 < i < 100
    ensures var digits := if i < 0 then r[1..] else r;
      digits != [] && AllDigits(digits) && (digits[0] == '0' ==> |digits| == 1)
  {
    if i < 0 then "-" + NatToString(-i) else NatToString(i)
  }

  /** Reads an optional `-` sign followed by decimal digits. */
  function ParseInt(s: string): (r: Option<int>)
    ensures r.Some? <==>
      if s != [] && s[0] == '-' then s[1..] != [] && AllDigits(s[1..]) else s != [] && AllDigits(s)
    ensures r.Some? && s != [] && s[0] == '-' ==> r.value <= 0
  {
    if s != [] && s[0] == '-' then
      var m := ParseNat(s[1..]);
      if m.None? then None else Some(0 - m.value as int)
    else
      var m := ParseNat(s);
      if m.None? then None else Some(m.value as int)
  }

  lemma ParseIntToString(i: int)
    ensures ParseInt(IntToString(i)) == Some(i)
  {
    if i < 0 {
      var digits := NatToString(-i);
      ParseNatToString(-i);
      assert ("-" + digits)[1..] == digits;
    } else {
      ParseNatToString(i);
    }
  }
}
