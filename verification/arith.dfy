/** Division and remainder with a variable divisor. */
module Arith {
  lemma CancelFactor(a: int, b: int, factor: int)
    requires factor > 0 && a * factor < b * factor
    ensures a < b
  {
  }

  lemma SameQuotient(q: int, m: int, x: int, d: int)
    requires d > 0 && q * d <= x < (q + 1) * d && m * d <= x < (m + 1) * d
    ensures q == m
  {
    CancelFactor(q, m + 1, d);
    CancelFactor(m, q + 1, d);
  }

  /** Rounding down, by what characterises it. */
  lemma Quotient(x: nat, d: nat, m: int)
    requires d > 0 && m * d <= x < (m + 1) * d
    ensures x / d == m && x % d == x - m * d
  {
    SameQuotient(x / d, m, x, d);
  }

  /** Adding one period does not change the remainder. */
  lemma AddPeriod(x: nat, d: nat)
    requires d > 0
    ensures (x + d) % d == x % d
  {
    Quotient(x + d, d, x / d + 1);
  }

  /** The remainder of a successor. */
  lemma SuccessorRemainder(x: nat, d: nat)
    requires d > 0
    ensures (x % d + 1) % d == (x + 1) % d
  {
    SuccessorRemainderAt(x, d, x / d, x % d);
  }

  lemma SuccessorRemainderAt(x: nat, d: nat, q: nat, r: nat)
    requires r < d && x == q * d + r
    ensures (r + 1) % d == (x + 1) % d
  {
    if r + 1 == d {
      Quotient(x + 1, d, q + 1);
      Quotient(d, d, 1);
    } else {
      Quotient(x + 1, d, q);
      Quotient(r + 1, d, 0);
    }
  }

  /** Numbers at most a period apart: the remainders tell how far. */
  lemma RemainderGap(a: nat, b: nat, d: nat)
    requires d > 0 && a <= b < a + d
    ensures b - a == if b % d >= a % d then b % d - a % d else d - a % d + b % d
  {
    RemainderGapAt(a, b, d, a / d, a % d);
  }

  lemma RemainderGapAt(a: nat, b: nat, d: nat, q: nat, r: nat)
    requires r < d && a == q * d + r && r == a % d && a <= b < a + d
    ensures b - a == if b % d >= r then b % d - r else d - r + b % d
  {
    assert (q + 1) * d == q * d + d;
    assert (q + 2) * d == q * d + 2 * d;
    if b < (q + 1) * d {
      Quotient(b, d, q);
    } else {
      Quotient(b, d, q + 1);
    }
  }

  /** Numbers less than a period apart have different remainders. */
  lemma DistinctRemainders(a: nat, b: nat, d: nat)
    requires a < b < a + d
    ensures a % d != b % d
  {
    RemainderGap(a, b, d);
  }
}
