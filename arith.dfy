/** Facts about integer division and remainder that several modules use. */
module Arith {

  lemma MulAtLeast(k: nat, n: nat)
    requires k >= 1
    ensures k * n >= n
  {
  }

  /** Quotient and remainder are determined by the division equation. */
  lemma DivUnique(a: nat, n: nat, q: nat, r: nat)
    requires n > 0 && a == q * n + r && r < n
    ensures a / n == q && a % n == r
  {
    var q' := a / n;
    var r' := a % n;
    assert a == q' * n + r';
    if q' < q {
      MulAtLeast(q - q', n);
    } else if q' > q {
      MulAtLeast(q' - q, n);
    }
  }

  /** Adding the modulus does not change the remainder. */
  lemma ModShift(c: nat, n: nat)
    requires n > 0
    ensures (c + n) % n == c % n
  {
    var q := c / n;
    var r := c % n;
    assert c + n == (q + 1) * n + r;
    DivUnique(c + n, n, q + 1, r);
  }

  /** Counting on by one commutes with reducing modulo n. */
  lemma ModSucc(x: nat, n: nat)
    requires n > 0
    ensures (x % n + 1) % n == (x + 1) % n
  {
    var q := x / n;
    var r := x % n;
    if r + 1 < n {
      DivUnique(x + 1, n, q, r + 1);
      DivUnique(r + 1, n, 0, r + 1);
    } else {
      DivUnique(x + 1, n, q + 1, 0);
      DivUnique(r + 1, n, 1, 0);
    }
  }

  /** Counting back by one from a number that is not a multiple of n. */
  lemma ModPred(x: nat, n: nat)
    requires n > 0 && x > 0
    ensures x % n != 0 ==> (x - 1) % n == x % n - 1
  {
    if x % n != 0 {
      DivUnique(x - 1, n, x / n, x % n - 1);
    }
  }

  /** Counting back by one from a number no larger than n needs no reduction. */
  lemma ModPredSmall(x: nat, n: nat)
    requires n > 0 && x > 0
    ensures x <= n ==> (x - 1) % n == x - 1
  {
    if x <= n {
      DivUnique(x - 1, n, 0, x - 1);
    }
  }
}
