/** The parts of Go's `strconv` package that the game relies on: decimal formatting of an
    `int` (`strconv.Itoa`, also what `%d` prints) and decimal parsing (`strconv.Atoi`). */
module Strconv {

  /** The two error kinds `strconv.Atoi` reports. */
  datatype NumError = ErrSyntax | ErrRange

  datatype Result<T> = Ok(value: T) | Err(error: NumError)

  /** Go's `int` is 64 bits wide on the platforms the server targets. */
  const MinInt: int := -0x8000_0000_0000_0000
  const MaxInt: int := 0x7fff_ffff_ffff_ffff

  predicate IsDigit(c: char) {
    '0' <= c <= '9'
  }

  predicate AllDigits(s: string) {
    forall i :: 0 <= i < |s| ==> IsDigit(s[i])
  }

  function DigitRune(d: nat): (c: char)
    requires d < 10
    ensures IsDigit(c) && c as int - '0' as int == d
  {
    ('0' as int + d) as char
  }

  /** Decimal digits of `n`, most significant first, without leading zeros. */
  function FormatNat(n: nat): string
  {
    if n < 10 then [DigitRune(n)] else FormatNat(n / 10) + [DigitRune(n % 10)]
  }

  /** `strconv.Itoa`: a minus sign for negative values, then the digits of the magnitude. */
  function Itoa(n: int): (s: string)
    ensures |s| > 0
    ensures s[0] == '-' <==> n < 0
  {
    FormatNatReadsBack(if n < 0 then -n else n);
    if n < 0 then "-" + FormatNat(-n) else FormatNat(n)
  }

  /** The value of a string of decimal digits. */
  function DigitsValue(s: string): nat
    requires AllDigits(s)
  {
    if s == [] then 0 else DigitsValue(s[..|s| - 1]) * 10 + (s[|s| - 1] as int - '0' as int)
  }

  /** `strconv.Atoi` in base 10: an optional sign, then at least one digit; for a string of
      that form, a value outside the 64-bit range is a range error. */
  function Atoi(s: string): (r: Result<int>)
    ensures r.Ok? ==> MinInt <= r.value <= MaxInt
    ensures r.Ok? ==> |s| > 0 && (r.value < 0 ==> s[0] == '-')
    ensures s == [] ==> r == Err(ErrSyntax)
  {
    if s == [] then Err(ErrSyntax)
    else
      var digits := if s[0] == '+' || s[0] == '-' then s[1..] else s;
      if digits == [] || !AllDigits(digits) then Err(ErrSyntax)
      else
        var v := if s[0] == '-' then 0 - DigitsValue(digits) else DigitsValue(digits) as int;
        if v < MinInt || v > MaxInt then Err(ErrRange) else Ok(v)
  }

  /** `FormatNat` yields a non-empty digit string that reads back as `n`. */
  lemma {:induction false} FormatNatReadsBack(n: nat)
    ensures |FormatNat(n)| > 0 && AllDigits(FormatNat(n))
    ensures DigitsValue(FormatNat(n)) == n
  {
    var s := FormatNat(n);
    if n >= 10 {
      FormatNatReadsBack(n / 10);
      assert s[..|s| - 1] == FormatNat(n / 10);
    }
  }

  /** Parsing what `Itoa` printed gives the number back, for every 64-bit value. */
  lemma AtoiItoa(n: int)
    requires MinInt <= n <= MaxInt
    ensures Atoi(Itoa(n)) == Ok(n)
  {
    var s := Itoa(n);
    if n < 0 {
      FormatNatReadsBack(-n);
      assert s[1..] == FormatNat(-n);
    } else {
      FormatNatReadsBack(n);
    }
  }

  /** Distinct numbers print differently, whatever their size. */
  lemma ItoaInjective(a: int, b: int)
    requires Itoa(a) == Itoa(b)
    ensures a == b
  {
    var s := Itoa(a);
    if a < 0 && b < 0 {
      FormatNatReadsBack(-a);
      FormatNatReadsBack(-b);
      assert s[1..] == FormatNat(-a) == FormatNat(-b);
    } else if a >= 0 && b >= 0 {
      FormatNatReadsBack(a);
      FormatNatReadsBack(b);
    }
  }
}
