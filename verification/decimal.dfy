/** Decimal numerals: Ruby's `String#to_i` on a digit run, and `Integer#to_s` for the year. */
module Decimal {
  import opened Chars

  predicate IsNumeral(s: string) {
    |s| >= 1 && All(s, IsDigit)
  }

  /** A numeral as `Integer#to_s` writes it: no leading zero unless it is "0". */
  predicate IsCanonical(s: string) {
    IsNumeral(s) && (|s| == 1 || s[0] != '0')
  }

  function DigitValue(c: char): nat
    requires IsDigit(c)
  {
    (c as int) - ('0' as int)
  }

  function DigitChar(d: nat): (c: char)
    requires d < 10
    ensures IsDigit(c) && DigitValue(c) == d
  {
    (('0' as int) + d) as char
  }

  /** The integer a run of decimal digits denotes; leading zeros are allowed, as in `to_i`. */
  function Value(s: string): nat
    requires All(s, IsDigit)
    decreases |s|
  {
    if s == [] then 0 else 10 * Value(s[..|s| - 1]) + DigitValue(s[|s| - 1])
  }

  /** The decimal numeral of `n`. */
  function Show(n: nat): (s: string)
    ensures IsNumeral(s)
    decreases n
  {
    if n < 10 then [DigitChar(n)] else Show(n / 10) + [DigitChar(n % 10)]
  }

  /** Reading back a printed number gives the number. */
  lemma {:induction false} ValueShow(n: nat)
    ensures Value(Show(n)) == n
    decreases n
  {
    if n >= 10 {
      ValueShow(n / 10);
      var s := Show(n);
      assert s[..|s| - 1] == Show(n / 10);
    }
  }

  /** Printed numbers never carry a leading zero. */
  lemma {:induction false} ShowCanonical(n: nat)
    ensures IsCanonical(Show(n))
    decreases n
  {
    if n >= 10 {
      ShowCanonical(n / 10);
      if n / 10 < 10 {
        assert Show(n)[0] == DigitChar(n / 10);
      } else {
        assert Show(n)[0] == Show(n / 10)[0];
      }
    }
  }

  /** A numeral whose first digit is not zero denotes a positive number. */
  lemma {:induction false} ValuePositive(s: string)
    requires IsNumeral(s) && s[0] != '0'
    ensures Value(s) >= 1
    decreases |s|
  {
    if |s| > 1 {
      ValuePositive(s[..|s| - 1]);
    }
  }

  /** Printing the value of a canonical numeral gives the numeral back. */
  lemma {:induction false} ShowValue(s: string)
    requires IsCanonical(s)
    ensures Show(Value(s)) == s
    decreases |s|
  {
    var n := |s|;
    if n > 1 {
      var init := s[..n - 1];
      var c := s[n - 1];
      assert init[0] == s[0];
      ValuePositive(init);
      ShowValue(init);
      var a := Value(init);
      assert Value(s) == 10 * a + DigitValue(c);
      ShowStep(a, c);
      assert s == init + [c];
    } else {
      ShowDigit(s[0]);
      assert s == [s[0]];
    }
  }

  /** A one-digit numeral is printed back as itself. */
  lemma ShowDigit(c: char)
    requires IsDigit(c)
    ensures Value([c]) == DigitValue(c) && Show(DigitValue(c)) == [c]
  {
    assert [c][..0] == [];
    DigitRoundTrip(c);
  }

  /** Appending a digit to a positive number appends its character to the numeral. */
  lemma ShowStep(a: nat, c: char)
    requires a >= 1 && IsDigit(c)
    ensures Show(10 * a + DigitValue(c)) == Show(a) + [c]
  {
    DivTen(a, DigitValue(c));
    DigitRoundTrip(c);
  }

  /** A digit character printed from its value is itself. */
  lemma DigitRoundTrip(c: char)
    requires IsDigit(c)
    ensures DigitChar(DigitValue(c)) == c
  {
  }

  /** Dropping the last digit of `10 * a + d` leaves `a`. */
  lemma DivTen(a: nat, d: nat)
    requires d < 10
    ensures (10 * a + d) / 10 == a && (10 * a + d) % 10 == d
  {
  }
}
