/**
 * The part of java.lang.Long that the CSV loader relies on: `Long.valueOf(String)`,
 * i.e. `Long.parseLong(s, 10)`, and its inverse `Long.toString(long)`.
 * A string is accepted when it is an optional '+' or '-' followed by at least one
 * decimal digit and its value lies in the signed 64-bit range.
 */
module JavaLong {
  import opened Wrappers

  const LONG_MIN: int := -0x8000_0000_0000_0000
  const LONG_MAX: int := 0x7fff_ffff_ffff_ffff

  predicate InLongRange(n: int) {
    LONG_MIN <= n <= LONG_MAX
  }

  predicate IsDigit(c: char) {
    '0' <= c <= '9'
  }

  predicate AllDigits(s: string) {
    forall i :: 0 <= i < |s| ==> IsDigit(s[i])
  }

  /** The value of a run of decimal digits, most significant first. */
  function DigitsValue(s: string): nat
    requires AllDigits(s)
  {
    if s == [] then 0
    else DigitsValue(s[..|s| - 1]) * 10 + (s[|s| - 1] as int - '0' as int)
  }

  /** Keeps a value if it fits in a Java `long`; otherwise parseLong throws. */
  function Narrow(n: int): (r: Option<int>)
    ensures r.Some? <==> InLongRange(n)
    ensures r.Some? ==> r.value == n
  {
    if InLongRange(n) then Some(n) else None
  }

  /**
   * `Long.parseLong(s, 10)`: `None` stands for a NumberFormatException.
   * A first character below '0' must be a sign and cannot stand alone.
   */
  function ParseLong(s: string): (r: Option<int>)
    ensures r.Some? ==> InLongRange(r.value)
    ensures r.Some? ==> |s| > 0 && (AllDigits(s) || (|s| > 1 && (s[0] == '-' || s[0] == '+') && AllDigits(s[1..])))
  {
    if |s| == 0 then None
    else if s[0] == '-' || s[0] == '+' then
      if |s| == 1 || !AllDigits(s[1..]) then None
      else if s[0] == '-' then Narrow(-(DigitsValue(s[1..]) as int))
      else Narrow(DigitsValue(s[1..]))
    else if AllDigits(s) then Narrow(DigitsValue(s))
    else None
  }

  function DigitChar(d: nat): (c: char)
    requires d < 10
    ensures IsDigit(c) && c as int - '0' as int == d
  {
    ('0' as int + d) as char
  }

  /** Decimal digits of a natural number, without leading zeros. */
  function NatToDigits(n: nat): (s: string)
    ensures |s| > 0 && AllDigits(s)
  {
    if n < 10 then [DigitChar(n)] else NatToDigits(n / 10) + [DigitChar(n % 10)]
  }

  /** `Long.toString(n)`. */
  function LongToString(n: int): (s: string)
    requires InLongRange(n)
  {
    if n < 0 then "-" + NatToDigits(-n) else NatToDigits(n)
  }

  lemma {:induction false} DigitsValueOfNatToDigits(n: nat)
    ensures DigitsValue(NatToDigits(n)) == n
  {
    var s := NatToDigits(n);
    if n >= 10 {
      DigitsValueOfNatToDigits(n / 10);
      assert s[..|s| - 1] == NatToDigits(n / 10);
    }
  }

  /** Every `long` survives printing and re-parsing. */
  lemma ParseLongToString(n: int)
    requires InLongRange(n)
    ensures ParseLong(LongToString(n)) == Some(n)
  {
    if n < 0 {
      DigitsValueOfNatToDigits(-n);
      assert LongToString(n)[1..] == NatToDigits(-n);
    } else {
      DigitsValueOfNatToDigits(n);
    }
  }
}
