/** Decimal numerals: printing, zero padding and reading. */
module Decimal {

  function Digit(d: nat): char
    requires d < 10
  {
    ('0' as int + d) as char
  }

  predicate IsDigit(c: char) {
    '0' <= c <= '9'
  }

  function Value(c: char): nat
    requires IsDigit(c)
  {
    c as int - '0' as int
  }

  predicate AllDigits(s: string) {
    forall c | c in s :: IsDigit(c)
  }

  function Print(n: nat): string {
    if n < 10 then [Digit(n)] else Print(n / 10) + [Digit(n % 10)]
  }

  /** At least `width` digits, filled up with zeros on the left. */
  function Padded(n: nat, width: nat): string {
    Zeros(width - |Print(n)|) + Print(n)
  }

  function Zeros(k: int): string {
    if k <= 0 then "" else "0" + Zeros(k - 1)
  }

  function Read(s: string): nat
    requires AllDigits(s)
  {
    if s == [] then 0
    else
      assert s[|s| - 1] in s;
      10 * Read(s[..|s| - 1]) + Value(s[|s| - 1])
  }

  lemma {:induction false} ReadOfPrint(n: nat)
    ensures AllDigits(Print(n)) && Print(n) != []
    ensures Read(Print(n)) == n
  {
    if n >= 10 {
      ReadOfPrint(n / 10);
      assert Print(n)[..|Print(n)| - 1] == Print(n / 10);
    }
  }

  lemma {:induction false} ReadWithZeros(k: int, s: string)
    requires AllDigits(s)
    ensures AllDigits(Zeros(k) + s) && Read(Zeros(k) + s) == Read(s)
    ensures |Zeros(k)| == if k <= 0 then 0 else k
  {
    if k <= 0 {
      assert Zeros(k) + s == s;
    } else {
      ReadWithZeros(k - 1, s);
      var rest := Zeros(k - 1) + s;
      assert Zeros(k) + s == "0" + rest;
      ReadWithZero(rest);
    }
  }

  lemma {:induction false} ReadWithZero(s: string)
    requires AllDigits(s)
    ensures AllDigits("0" + s) && Read("0" + s) == Read(s)
  {
    if s != [] {
      var init := s[..|s| - 1];
      assert ("0" + s)[..|s|] == "0" + init;
      ReadWithZero(init);
    } else {
      assert "0" + s == "0";
      assert "0"[..0] == [];
    }
  }

  /** A padded numeral reads back as its number and has the asked width at least. */
  lemma ReadOfPadded(n: nat, width: nat)
    ensures AllDigits(Padded(n, width)) && Read(Padded(n, width)) == n
    ensures |Padded(n, width)| >= width && Padded(n, width) != []
    ensures |Print(n)| <= width ==> |Padded(n, width)| == width
  {
    ReadOfPrint(n);
    ReadWithZeros(width - |Print(n)|, Print(n));
  }

  lemma {:induction false} PrintLength(n: nat, digits: nat)
    requires digits > 0 && n < Power(digits)
    ensures |Print(n)| <= digits
  {
    if n >= 10 {
      PrintLength(n / 10, digits - 1);
    }
  }

  function Power(k: nat): nat {
    if k == 0 then 1 else 10 * Power(k - 1)
  }
}
