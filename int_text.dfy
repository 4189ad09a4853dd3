/**
 * Decimal text of 64-bit integers: `String(n)` and the failable `Int(text)`.
 *
 * `Int(text)` accepts an optional leading '+' or '-' followed by one or more
 * ASCII digits and nothing else, and fails on values outside the 64-bit range.
 */
module IntText {
  import opened Wrappers

  const IntMax: int := 0x7fff_ffff_ffff_ffff
  const IntMin: int := -0x8000_0000_0000_0000

  predicate IsDigit(c: char) {
    '0' <= c <= '9'
  }

  predicate AllDigits(s: string) {
    forall i :: 0 <= i < |s| ==> IsDigit(s[i])
  }

  function DigitChar(d: int): (c: char)
    requires 0 <= d < 10
    ensures IsDigit(c) && c as int - '0' as int == d
  {
    (d + '0' as int) as char
  }

  /** The value of a string of digits, most significant first. */
  function DigitsValue(s: string): nat
    requires AllDigits(s)
  {
    if s == [] then 0
    else DigitsValue(s[..|s| - 1]) * 10 + (s[|s| - 1] as int - '0' as int)
  }

  /** The decimal digits of `n`, without leading zeros. */
  function Digits(n: nat): (s: string)
    ensures |s| >= 1 && AllDigits(s)
    ensures DigitsValue(s) == n
    ensures s[0] == '0' ==> n == 0
  {
    if n < 10 then [DigitChar(n)]
    else
      var prefix := Digits(n / 10);
      var s := prefix + [DigitChar(n % 10)];
      assert s[..|s| - 1] == prefix;
      s
  }

  /** The decimal text of `n`: a minus sign for negative values, then the digits. */
  function ShowInt(n: int): (s: string)
    ensures |s| >= 1
    ensures n >= 0 ==> AllDigits(s)
    ensures n < 0 ==> s[0] == '-' && |s| >= 2 && AllDigits(s[1..])
  {
    if n < 0 then "-" + Digits(-n) else Digits(n)
  }

  /** The value of a run of one or more digits, if it fits the 64-bit range with the given sign. */
  function ParseDigits(s: string, negative: bool): (r: Option<int>)
    ensures r.Some? ==> IntMin <= r.value <= IntMax
    ensures r.Some? ==> |s| >= 1 && AllDigits(s)
    ensures r.Some? ==> r.value == if negative then -(DigitsValue(s) as int) else DigitsValue(s) as int
  {
    if |s| == 0 || !AllDigits(s) then None
    else
      var v := if negative then -(DigitsValue(s) as int) else DigitsValue(s) as int;
      if IntMin <= v <= IntMax then Some(v) else None
  }

  /** `Int(text)`: nil unless the whole text is a signed decimal numeral in the 64-bit range. */
  function ParseInt(text: string): (r: Option<int>)
    ensures r.Some? ==> IntMin <= r.value <= IntMax
    ensures |text| >= 1 && text[0] == '-' ==>
      r == if |text| >= 2 && AllDigits(text[1..]) && -(DigitsValue(text[1..]) as int) >= IntMin
           then Some(-(DigitsValue(text[1..]) as int)) else None
    ensures |text| >= 1 && text[0] == '+' ==>
      r == if |text| >= 2 && AllDigits(text[1..]) && DigitsValue(text[1..]) <= IntMax
           then Some(DigitsValue(text[1..]) as int) else None
    ensures (|text| == 0 || (text[0] != '-' && text[0] != '+')) ==>
      r == if |text| >= 1 && AllDigits(text) && DigitsValue(text) <= IntMax
           then Some(DigitsValue(text) as int) else None
  {
    if |text| > 0 && text[0] == '-' then ParseDigits(text[1..], true)
    else if |text| > 0 && text[0] == '+' then ParseDigits(text[1..], false)
    else ParseDigits(text, false)
  }

  /** Reading back the decimal text of a 64-bit value gives the value. */
  lemma ParseShowRoundTrip(n: int)
    requires IntMin <= n <= IntMax
    ensures ParseInt(ShowInt(n)) == Some(n)
  {
    if n < 0 {
      assert ShowInt(n)[1..] == Digits(-n);
    } else {
      assert Digits(n)[0] != '-';
    }
  }
}
