/** Euclidean division with a variable divisor, in the few forms the ring and the calendar need. */
module Arithmetic {

  lemma DivMod(a: int, m: nat)
    requires m > 0
    ensures a == m * (a / m) + a % m && 0 <= a % m < m
  {
  }

  lemma MulMonotone(m: nat, x: int, y: int)
    requires x <= y
    ensures m * x <= m * y
  {
  }

  lemma MulSuccessor(m: nat, x: int)
    ensures m * (x + 1) == m * x + m
  {
  }

  /** Two numbers with the same remainder and different quotients are at least `m` apart. */
  lemma {:induction false} Apart(m: nat, x: int, y: int, a: int, b: int)
    requires b - a == m * y - m * x
    ensures x < y ==> a + m <= b
    ensures x >= y ==> b <= a
  {
    if x < y {
      MulMonotone(m, x + 1, y);
      MulSuccessor(m, x);
    } else {
      MulMonotone(m, y, x);
    }
  }

  lemma {:induction false} SameResidue(a: int, b: int, m: nat)
    requires m > 0 && a % m == b % m && a < b
    ensures a + m <= b
    ensures a / m < b / m
  {
    DivMod(a, m);
    DivMod(b, m);
    Apart(m, a / m, b / m, a, b);
  }

  lemma {:induction false} EuclidUnique(a: int, m: nat, q: int, r: nat)
    requires m > 0 && a == m * q + r && r < m
    ensures a / m == q && a % m == r
  {
    DivMod(a, m);
    Apart(m, q, a / m, m * q, m * (a / m));
    Apart(m, a / m, q, m * (a / m), m * q);
  }

  lemma {:induction false} QuotientMonotone(a: int, b: int, m: nat)
    requires m > 0 && a <= b
    ensures a / m <= b / m
  {
    DivMod(a, m);
    DivMod(b, m);
    if b / m < a / m {
      MulMonotone(m, b / m + 1, a / m);
      MulSuccessor(m, b / m);
    }
  }

  lemma {:induction false} QuotientBelow(a: int, m: nat, k: int)
    requires m > 0
    ensures a / m < k <==> a < m * k
  {
    DivMod(a, m);
    if a / m < k {
      MulMonotone(m, a / m + 1, k);
      MulSuccessor(m, a / m);
    } else {
      MulMonotone(m, k, a / m);
    }
  }

  lemma {:induction false} PreviousLap(a: int, m: nat)
    requires m > 0
    ensures (a - m) % m == a % m && (a - m) / m == a / m - 1
  {
    DivMod(a, m);
    MulSuccessor(m, a / m - 1);
    EuclidUnique(a - m, m, a / m - 1, a % m);
  }

  lemma {:induction false} ModPlus(a: int, k: int, m: nat)
    requires m > 0
    ensures (a + m * k) % m == a % m
  {
    DivMod(a, m);
    Distribute(m, a / m, k);
    EuclidUnique(a + m * k, m, a / m + k, a % m);
  }

  lemma Distribute(m: nat, x: int, y: int)
    ensures m * (x + y) == m * x + m * y
  {
  }
}
