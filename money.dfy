/**
 * C# `decimal` amounts as exact reals, `Math.Round(x, 2)` (round half to even,
 * the default `MidpointRounding.ToEven`) and the "whole number of cents" predicate.
 */
module Money {

  /** Rounds to the nearest integer; an exact half goes to the even neighbour. */
  function RoundHalfEven(y: real): (n: int)
    ensures y - 0.5 <= n as real <= y + 0.5
    ensures (n as real == y - 0.5 || n as real == y + 0.5) ==> n % 2 == 0
  {
    var f := y.Floor;
    var frac := y - f as real;
    if frac < 0.5 then f
    else if frac > 0.5 then f + 1
    else if f % 2 == 0 then f
    else f + 1
  }

  /** The amount is a whole number of cents. */
  predicate IsCents(x: real) {
    (x * 100.0).Floor as real == x * 100.0
  }

  /** `Math.Round(x, 2)`: the nearest whole number of cents, ties to an even cent. */
  function Round2(x: real): (r: real)
    ensures IsCents(r)
    ensures r * 100.0 == RoundHalfEven(x * 100.0) as real
    ensures -0.005 <= r - x <= 0.005
  {
    RoundHalfEven(x * 100.0) as real / 100.0
  }

  /** Rounding never reverses the order of two amounts. */
  lemma RoundHalfEvenMonotone(a: real, b: real)
    requires a <= b
    ensures RoundHalfEven(a) <= RoundHalfEven(b)
  {
    var fa, fb := a.Floor, b.Floor;
    if fa == fb {
      assert a - fa as real <= b - fb as real;
    } else {
      assert fa < fb;
    }
  }

  /** An integer is its own rounding. */
  lemma RoundHalfEvenOfInt(k: int)
    ensures RoundHalfEven(k as real) == k
  {
    assert (k as real).Floor == k;
  }

  /** Rounding leaves a whole number of cents unchanged. */
  lemma Round2OfCents(x: real)
    requires IsCents(x)
    ensures Round2(x) == x
  {
    var c := (x * 100.0).Floor;
    RoundHalfEvenOfInt(c);
    assert x * 100.0 == c as real;
  }

  /** Rounding an amount that lies between two whole-cent amounts stays between them. */
  lemma {:induction false} Round2Between(x: real, lo: real, hi: real)
    requires IsCents(lo) && IsCents(hi) && lo <= x <= hi
    ensures lo <= Round2(x) <= hi
  {
    RoundHalfEvenMonotone(lo * 100.0, x * 100.0);
    RoundHalfEvenMonotone(x * 100.0, hi * 100.0);
    RoundHalfEvenOfInt((lo * 100.0).Floor);
    RoundHalfEvenOfInt((hi * 100.0).Floor);
  }

  /** `amount * (percentage / 100)`: a percentage share of an amount, before rounding. */
  function PercentOf(amount: real, percentage: real): (share: real)
    ensures share * 100.0 == amount * percentage
    ensures 0.0 <= amount && 0.0 <= percentage <= 100.0 ==> 0.0 <= share <= amount
  {
    var share := amount * (percentage / 100.0);
    assert 0.0 <= amount && percentage <= 100.0 ==> share <= amount * 1.0;
    share
  }

  /** Rounding never reverses the order of two amounts. */
  lemma Round2Monotone(a: real, b: real)
    requires a <= b
    ensures Round2(a) <= Round2(b)
  {
    RoundHalfEvenMonotone(a * 100.0, b * 100.0);
  }

  /** An amount whose hundredfold is a whole number is a whole-cent amount. */
  lemma CentsFromScaled(x: real, c: int)
    requires x * 100.0 == c as real
    ensures IsCents(x)
  {
    assert (c as real).Floor == c;
  }

  /** Whole-cent amounts are closed under addition and subtraction. */
  lemma CentsArithmetic(a: real, b: real)
    requires IsCents(a) && IsCents(b)
    ensures IsCents(a + b) && IsCents(a - b)
  {
    var ca, cb := (a * 100.0).Floor, (b * 100.0).Floor;
    assert a * 100.0 == ca as real && b * 100.0 == cb as real;
    CentsFromScaled(a + b, ca + cb);
    CentsFromScaled(a - b, ca - cb);
  }

  /** A whole-cent amount times a whole number is a whole-cent amount. */
  lemma CentsTimesInt(a: real, n: int)
    requires IsCents(a)
    ensures IsCents(a * n as real)
  {
    var ca := (a * 100.0).Floor;
    var x := a * n as real;
    assert x * 100.0 == (a * 100.0) * n as real;
    assert (ca as real) * (n as real) == (ca * n) as real;
    assert x * 100.0 == (ca * n) as real;
    assert (x * 100.0).Floor == ca * n;
  }
}
