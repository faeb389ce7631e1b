/** Products, quotients and remainders, one step at a time. */
module Arithmetic {
  lemma DivMod(n: int, s: int)
    requires s > 0
    ensures n == n / s * s + n % s && 0 <= n % s < s
  {
  }

  lemma ProductSign(a: int, s: int)
    requires s > 0
    ensures a >= 0 ==> a * s >= 0
    ensures a >= 1 ==> a * s >= s
    ensures a <= -1 ==> a * s <= -s
  {
    if a >= 1 {
      assert (a - 1) * s >= 0;
    }
    if a <= -1 {
      assert (-1 - a) * s >= 0;
    }
  }

  lemma Distribute(a: int, b: int, s: int)
    ensures (a - b) * s == a * s - b * s
  {
  }

  /** Multiples of one step keep their order and their distance. */
  lemma StepGap(a: int, b: int, step: int)
    requires step > 0
    ensures a < b ==> a * step + step <= b * step
    ensures a <= b ==> a * step <= b * step
  {
    Distribute(b, a, step);
    ProductSign(b - a, step);
  }

  /** Quotient and remainder are determined by their defining equation. */
  lemma DivModUnique(n: int, s: int, q: int, r: int)
    requires s > 0 && n == q * s + r && 0 <= r < s
    ensures n / s == q && n % s == r
  {
    DivMod(n, s);
    Distribute(q, n / s, s);
    ProductSign(q - n / s, s);
  }

  lemma MultipleMod(q: int, s: int)
    requires s > 0
    ensures (q * s) % s == 0
  {
    DivModUnique(q * s, s, q, 0);
  }

  /** Distinct multiples of s are at least s apart. */
  lemma MultiplesApart(a: int, b: int, s: int)
    requires s > 0 && a % s == 0 && b % s == 0 && a < b
    ensures a + s <= b
  {
    DivMod(a, s);
    DivMod(b, s);
    Distribute(b / s, a / s, s);
    ProductSign(b / s - a / s, s);
  }

  lemma MultiplesCombine(a: int, b: int, c: int, s: int)
    requires s > 0 && a % s == 0 && b % s == 0 && c % s == 0
    ensures (a + b - c) % s == 0
  {
    DivMod(a, s);
    DivMod(b, s);
    DivMod(c, s);
    assert a + b - c == (a / s + b / s - c / s) * s;
    MultipleMod(a / s + b / s - c / s, s);
  }

  /** The multiple of the step at or before a non-negative offset, and why no other one will do. */
  lemma StepOf(offset: int, step: int) returns (k: nat)
    requires step > 0 && offset >= 0
    ensures k * step <= offset < k * step + step
    ensures forall j: int :: j * step <= offset < j * step + step ==> j == k
    ensures forall n: int :: offset < n * step ==> k < n
  {
    k := offset / step;
    forall j: int | j * step <= offset < j * step + step ensures j == k {
      StepGap(j, k, step);
      StepGap(k, j, step);
    }
    forall n: int | offset < n * step ensures k < n {
      StepGap(n, k, step);
    }
  }
}
