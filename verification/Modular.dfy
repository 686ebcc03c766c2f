/** Quotients and remainders by a variable divisor. */
module Modular {

  lemma {:induction false} MulAtLeast(d: nat, n: nat)
    requires d >= 1
    ensures d * n >= n
  {
  }

  lemma MulSub(a: int, b: int, n: int)
    ensures (a - b) * n == a * n - b * n
  {
  }

  lemma MulNeg(a: int, n: int)
    ensures (-a) * n == -(a * n)
  {
  }

  /** Only zero is a multiple of `n` strictly between `-n` and `n`. */
  lemma SmallMultiple(d: int, n: int)
    requires n > 0 && -n < d * n < n
    ensures d == 0
  {
    if d >= 1 {
      MulAtLeast(d, n);
    } else if d <= -1 {
      MulAtLeast(-d, n);
      MulNeg(d, n);
    }
  }

  lemma Euclid(a: int, n: int)
    requires n > 0
    ensures a == (a / n) * n + a % n && 0 <= a % n < n
  {
  }

  /** Quotient and remainder are the only ones. */
  lemma QuotientIs(a: int, n: int, q: int, r: int)
    requires n > 0 && a == q * n + r && 0 <= r < n
    ensures a / n == q && a % n == r
  {
    Euclid(a, n);
    MulSub(q, a / n, n);
    SmallMultiple(q - a / n, n);
  }

  /** A multiple of `n` is a whole number of times `n`. */
  lemma Multiple(a: int, n: int) returns (q: int)
    requires n > 0 && a % n == 0
    ensures a == q * n
  {
    Euclid(a, n);
    q := a / n;
  }

  lemma MultipleIs(a: int, n: int, q: int)
    requires n > 0 && a == q * n
    ensures a % n == 0
  {
    QuotientIs(a, n, q, 0);
  }

  /** Congruent numbers have the same remainder. */
  lemma SameRemainder(a: int, b: int, n: int)
    requires n > 0 && (b - a) % n == 0
    ensures a % n == b % n
  {
    var q := Multiple(b - a, n);
    Euclid(a, n);
    MulSub(a / n, -q, n);
    MulNeg(q, n);
    QuotientIs(b, n, a / n + q, a % n);
  }

  /** Sums of multiples are multiples. */
  lemma MultiplesAdd(a: int, b: int, n: int)
    requires n > 0 && a % n == 0 && b % n == 0
    ensures (a + b) % n == 0
  {
    var p := Multiple(a, n);
    var q := Multiple(b, n);
    MulSub(p, -q, n);
    MulNeg(q, n);
    MultipleIs(a + b, n, p + q);
  }

  lemma MultipleOfFour(a: int, n: int)
    requires n > 0 && a % n == 0
    ensures (4 * a) % (4 * n) == 0
  {
    var q := Multiple(a, n);
    MultipleIs(4 * a, 4 * n, q);
  }
}
