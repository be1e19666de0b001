/** The built-in `round` on exact numbers. */
module Rounding {
  /** To the nearest integer, halves to the even one. */
  function RoundHalfEven(x: real): int {
    var below := x.Floor;
    var part := x - below as real;
    if part < 0.5 then below else if part > 0.5 then below + 1 else if below % 2 == 0 then below else below + 1
  }

  lemma RoundHalfEvenIsNearest(x: real)
    ensures var r := RoundHalfEven(x) as real; r - 0.5 <= x <= r + 0.5
    ensures var r := RoundHalfEven(x); x == r as real + 0.5 || x == r as real - 0.5 ==> r % 2 == 0
  {
  }

  function RoundQuotient(p: int, q: int): int
    requires q > 0
  {
    RoundHalfEven(p as real / q as real)
  }

  lemma RoundIsNearest(p: int, q: int)
    requires q > 0
    ensures 2 * p - q <= 2 * (RoundQuotient(p, q) * q) <= 2 * p + q
  {
    var r := RoundQuotient(p, q);
    RoundHalfEvenIsNearest(p as real / q as real);
    FromBelow(p as real, q as real, r as real - 0.5);
    FromAbove(p as real, q as real, r as real + 0.5);
    TimesHalf(r, q);
    hide *;
    Doubled(p, q, r * q, (r as real - 0.5) * q as real, (r as real + 0.5) * q as real);
  }

  lemma FromBelow(p: real, q: real, bound: real)
    requires q > 0.0 && bound <= p / q
    ensures bound * q <= p
  {
  }

  lemma FromAbove(p: real, q: real, bound: real)
    requires q > 0.0 && p / q <= bound
    ensures p <= bound * q
  {
  }

  lemma TimesHalf(r: int, q: int)
    ensures (r as real - 0.5) * q as real == (r * q) as real - 0.5 * q as real
    ensures (r as real + 0.5) * q as real == (r * q) as real + 0.5 * q as real
  {
    assert r as real * q as real == (r * q) as real;
  }

  lemma Doubled(p: int, q: int, m: int, low: real, high: real)
    requires low == m as real - 0.5 * q as real && high == m as real + 0.5 * q as real && low <= p as real <= high
    ensures 2 * p - q <= 2 * m <= 2 * p + q
  {
  }
}
