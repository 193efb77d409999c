/** Numbers as decimal text. */
module Text {
  function Digit(n: nat): char
    requires n < 10
  {
    ['0', '1', '2', '3', '4', '5', '6', '7', '8', '9'][n]
  }

  function Decimal(n: nat): (s: string)
    ensures s != []
  {
    if n < 10 then [Digit(n)] else Decimal(n / 10) + [Digit(n % 10)]
  }

  lemma DecimalParts(n: nat)
    ensures var s := Decimal(n);
      && (n >= 10 <==> |s| >= 2)
      && s[|s| - 1] == Digit(n % 10)
      && (n >= 10 ==> s[..|s| - 1] == Decimal(n / 10))
  {
  }

  lemma DigitInjective(a: nat, b: nat)
    requires a < 10 && b < 10 && Digit(a) == Digit(b)
    ensures a == b
  {
  }

  lemma {:induction false} DecimalInjective(a: nat, b: nat)
    requires Decimal(a) == Decimal(b)
    ensures a == b
  {
    DecimalParts(a);
    DecimalParts(b);
    DigitInjective(a % 10, b % 10);
    if a < 10 {
    } else {
      DecimalInjective(a / 10, b / 10);
    }
  }

  /** Reads decimal digits, the last one counting one. */
  function Number(s: string): int {
    if s == "" then 0 else 10 * Number(s[..|s| - 1]) + (s[|s| - 1] as int - '0' as int)
  }

  /** The text is made of digits, has no leading zero, and reads back as the number. */
  lemma {:induction false} DecimalMeaning(n: nat)
    ensures Number(Decimal(n)) == n
    ensures forall i :: 0 <= i < |Decimal(n)| ==> '0' <= Decimal(n)[i] <= '9'
    ensures |Decimal(n)| > 1 ==> Decimal(n)[0] != '0'
  {
    DecimalParts(n);
    DigitMeaning(n % 10);
    if n < 10 {
      assert Decimal(n)[..0] == "";
    } else {
      DecimalMeaning(n / 10);
      FirstDigit(n / 10);
    }
  }

  lemma DigitMeaning(n: nat)
    requires n < 10
    ensures Digit(n) as int == '0' as int + n
  {
  }

  lemma {:induction false} FirstDigit(n: nat)
    requires n > 0
    ensures Decimal(n)[0] != '0'
  {
    if n < 10 {
    } else {
      FirstDigit(n / 10);
    }
  }
}
