/** Rounding to a whole number of minor units, as Python's `Decimal.quantize` does by default:
    to the nearest integer, and a tie to the even neighbour. */
module Rounding {

  /** `n` is the nearest whole number, a tie going to the even one. */
  predicate Nearest(n: int, x: real) {
    && n as real - 0.5 <= x <= n as real + 0.5
    && (x == n as real - 0.5 || x == n as real + 0.5 ==> n % 2 == 0)
  }

  function HalfEven(x: real): (n: int)
    ensures n as real - 0.5 <= x <= n as real + 0.5
    ensures x == n as real - 0.5 || x == n as real + 0.5 ==> n % 2 == 0
  {
    var f := x.Floor;
    var d := x - f as real;
    if d < 0.5 || (d == 0.5 && f % 2 == 0) then f else f + 1
  }

  /** The two clauses of `HalfEven` pin the result down. */
  lemma HalfEvenIsUnique(x: real, n: int)
    requires n as real - 0.5 <= x <= n as real + 0.5
    requires x == n as real - 0.5 || x == n as real + 0.5 ==> n % 2 == 0
    ensures n == HalfEven(x)
  {
    var m := HalfEven(x);
    assert -1.0 <= (n - m) as real <= 1.0;
  }

  /** Where the rounded value stands against a whole number is decided by the exact value alone. */
  lemma HalfEvenAtMost(x: real, n: int)
    ensures HalfEven(x) <= n <==> x < n as real + 0.5 || (x == n as real + 0.5 && n % 2 == 0)
  {
    var m := HalfEven(x);
    if m <= n {
      assert m as real <= n as real;
    } else {
      assert m as real >= n as real + 1.0;
    }
  }

  lemma HalfEvenMonotone(x: real, y: real)
    requires x <= y
    ensures HalfEven(x) <= HalfEven(y)
  {
    HalfEvenAtMost(y, HalfEven(y));
    HalfEvenAtMost(x, HalfEven(y));
  }

  lemma HalfEvenOfWhole(k: int)
    ensures HalfEven(k as real) == k
  {
    HalfEvenIsUnique(k as real, k);
  }

  /** A credit note for an amount rounds to the negative of the invoice for it. */
  lemma HalfEvenOdd(x: real)
    ensures HalfEven(-x) == -HalfEven(x)
  {
    var n := HalfEven(x);
    assert (-n) as real == -(n as real);
    HalfEvenIsUnique(-x, -n);
  }
}
