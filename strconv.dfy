/** The parts of Go's strconv and fmt that the core relies on: Atoi (integer
    parsing on a 64-bit platform), ParseBool, and the decimal rendering of a
    non-negative integer used by `%d`. */
module Strconv {
  import opened Wrappers

  const MinInt64: int := -0x8000_0000_0000_0000
  const MaxInt64: int := 0x7FFF_FFFF_FFFF_FFFF

  predicate IsDigit(c: char) { '0' <= c <= '9' }

  predicate AllDigits(s: string)
  {
    forall k :: 0 <= k < |s| ==> IsDigit(s[k])
  }

  function DigitValue(c: char): nat
    requires IsDigit(c)
  {
    c as int - '0' as int
  }

  function DigitChar(d: nat): (c: char)
    requires d < 10
    ensures IsDigit(c) && DigitValue(c) == d
  {
    ('0' as int + d) as char
  }

  /** The value of a string of decimal digits, most significant first. */
  function DecimalValue(s: string): nat
    requires AllDigits(s)
  {
    if |s| == 0 then 0 else DecimalValue(s[..|s| - 1]) * 10 + DigitValue(s[|s| - 1])
  }

  /** strconv.Atoi: an optional sign followed by at least one decimal digit,
      rejected when the value does not fit in a 64-bit int. */
  function Atoi(s: string): (r: Option<int>)
    ensures r.Some? ==> MinInt64 <= r.value <= MaxInt64
    ensures r.Some? ==> |s| > 0 && (IsDigit(s[0]) || s[0] == '+' || s[0] == '-')
  {
    var signed := |s| > 0 && (s[0] == '+' || s[0] == '-');
    var digits := if signed then s[1..] else s;
    if |digits| == 0 || !AllDigits(digits) then None
    else
      var v: int := DecimalValue(digits);
      var n := if signed && s[0] == '-' then -v else v;
      if MinInt64 <= n <= MaxInt64 then Some(n) else None
  }

  /** The decimal rendering of a non-negative integer, as `%d` writes it. */
  function Itoa(n: nat): (s: string)
    ensures |s| >= 1 && AllDigits(s)
    ensures s[0] != '-' && s[0] != '+'
  {
    if n < 10 then [DigitChar(n)] else Itoa(n / 10) + [DigitChar(n % 10)]
  }

  /** The decimal rendering of any integer, with a leading '-' when negative. */
  function FormatInt(i: int): string
  {
    if i < 0 then "-" + Itoa(-i) else Itoa(i)
  }

  lemma {:induction false} DecimalValueOfItoa(n: nat)
    ensures DecimalValue(Itoa(n)) == n
  {
    if n >= 10 {
      DecimalValueOfItoa(n / 10);
      var s := Itoa(n);
      assert s[..|s| - 1] == Itoa(n / 10);
    }
  }

  /** Atoi reads back every 64-bit integer that FormatInt writes. */
  lemma AtoiFormatInt(i: int)
    requires MinInt64 <= i <= MaxInt64
    ensures Atoi(FormatInt(i)) == Some(i)
  {
    if i < 0 {
      DecimalValueOfItoa(-i);
      assert ("-" + Itoa(-i))[1..] == Itoa(-i);
    } else {
      DecimalValueOfItoa(i);
    }
  }

  /** strconv.ParseBool. */
  function ParseBool(s: string): Option<bool>
  {
    if s in {"1", "t", "T", "TRUE", "true", "True"} then Some(true)
    else if s in {"0", "f", "F", "FALSE", "false", "False"} then Some(false)
    else None
  }
}
