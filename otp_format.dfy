/** Rendering of the random draw as a passcode: `String.format("%06d", r)` for
    a draw `r` with `0 <= r < 1000000`, and the decimal value of a numeral as
    its inverse. */
module OtpFormat {

  /** Number of digits in a passcode. */
  const CodeLength: nat := 6

  /** Exclusive bound of the random draw (`nextInt(1000000)`). */
  const CodeSpace: nat := 1000000

  predicate IsDigit(ch: char) {
    '0' <= ch <= '9'
  }

  predicate AllDigits(s: string) {
    forall i :: 0 <= i < |s| ==> IsDigit(s[i])
  }

  /** The shape the service promises for a passcode: exactly six decimal digits. */
  predicate IsCode(s: string) {
    |s| == CodeLength && AllDigits(s)
  }

  function Pow10(k: nat): (p: nat)
    ensures p > 0
  {
    if k == 0 then 1 else 10 * Pow10(k - 1)
  }

  lemma Pow10CodeLength()
    ensures Pow10(CodeLength) == CodeSpace
  {
  }

  function DigitValue(ch: char): (d: nat)
    requires IsDigit(ch)
    ensures d < 10
  {
    ch as int - '0' as int
  }

  function DigitChar(d: nat): (ch: char)
    requires d < 10
    ensures IsDigit(ch) && DigitValue(ch) == d
  {
    ('0' as int + d) as char
  }

  /** The value of a decimal numeral, most significant digit first. A numeral
      of `k` digits, leading zeros included, is below 10^k. */
  function NumeralValue(s: string): (n: nat)
    requires AllDigits(s)
    ensures n < Pow10(|s|)
  {
    if s == [] then 0
    else
      var high := NumeralValue(s[..|s| - 1]);
      assert high <= Pow10(|s| - 1) - 1;
      assert high * 10 <= Pow10(|s|) - 10;
      high * 10 + DigitValue(s[|s| - 1])
  }

  /** `n` written with exactly `width` decimal digits, padded with '0' on the left. */
  function Padded(n: nat, width: nat): (s: string)
    requires n < Pow10(width)
    ensures |s| == width && AllDigits(s)
  {
    if width == 0 then []
    else Padded(n / 10, width - 1) + [DigitChar(n % 10)]
  }

  /** `String.format("%06d", r)`: the passcode for the draw `r`. */
  function Pad6(r: nat): (code: string)
    requires r < CodeSpace
    ensures IsCode(code)
  {
    Pow10CodeLength();
    Padded(r, CodeLength)
  }

  /** Reading a padded numeral back gives the number that was written. */
  lemma {:induction false} PaddedValue(n: nat, width: nat)
    requires n < Pow10(width)
    ensures NumeralValue(Padded(n, width)) == n
  {
    if width > 0 {
      var s := Padded(n, width);
      PaddedValue(n / 10, width - 1);
      assert s[..|s| - 1] == Padded(n / 10, width - 1);
      assert s[|s| - 1] == DigitChar(n % 10);
    }
  }

  /** Writing the value of a numeral back at the numeral's own width gives the numeral. */
  lemma {:induction false} ValuePadded(s: string)
    requires AllDigits(s)
    ensures Padded(NumeralValue(s), |s|) == s
  {
    if s != [] {
      var init, last := s[..|s| - 1], s[|s| - 1];
      var n := NumeralValue(s);
      assert n == NumeralValue(init) * 10 + DigitValue(last);
      assert n / 10 == NumeralValue(init) && n % 10 == DigitValue(last);
      ValuePadded(init);
      assert DigitChar(DigitValue(last)) == last;
      assert s == init + [last];
    }
  }

  /** The passcode of a draw determines the draw. */
  lemma Pad6RoundTrip(r: nat)
    requires r < CodeSpace
    ensures NumeralValue(Pad6(r)) == r
  {
    Pow10CodeLength();
    PaddedValue(r, CodeLength);
  }

  /** Every six-digit string is the passcode of exactly one draw: its own value. */
  lemma Pad6Onto(s: string)
    requires IsCode(s)
    ensures NumeralValue(s) < CodeSpace && Pad6(NumeralValue(s)) == s
  {
    Pow10CodeLength();
    ValuePadded(s);
  }

  /** Two draws give the same passcode exactly when they are equal. */
  lemma Pad6Injective(r1: nat, r2: nat)
    requires r1 < CodeSpace && r2 < CodeSpace
    ensures Pad6(r1) == Pad6(r2) <==> r1 == r2
  {
    Pad6RoundTrip(r1);
    Pad6RoundTrip(r2);
  }
}
