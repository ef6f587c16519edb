/** Division facts used by the round-robin and the address models. */
module Arithmetic {

  lemma MulDiv(q: nat, r: nat, n: nat)
    requires r < n
    ensures (q * n + r) / n == q && (q * n + r) % n == r
  {
    var x := q * n + r;
    var d := x / n;
    assert x == d * n + x % n;
    assert d < q ==> (d + 1) * n <= q * n;
    assert d > q ==> (q + 1) * n <= d * n;
  }

  lemma DivMul(x: nat, n: nat)
    requires n > 0
    ensures x == (x / n) * n + x % n
  {
  }

  lemma ModAtMost(x: nat, n: nat)
    requires n > 0
    ensures x % n <= x
  {
    DivMul(x, n);
    assert (x / n) * n >= 0;
  }

  lemma DivStep(y: nat, n: nat)
    requires n > 0
    ensures (y + 1) / n == y / n + (if (y + 1) % n == 0 then 1 else 0)
  {
    DivMul(y, n);
    DivStepOf(y / n, y % n, n);
  }

  lemma DivStepOf(q: nat, r: nat, n: nat)
    requires r < n
    ensures (q * n + r + 1) / n == q + (if (q * n + r + 1) % n == 0 then 1 else 0)
  {
    if r == n - 1 {
      Distribute(q, 1, n);
      MulDiv(q + 1, 0, n);
    } else {
      MulDiv(q, r + 1, n);
    }
  }

  function Ceil(k: nat, n: nat): nat
    requires n > 0
  {
    (k + n - 1) / n
  }

  lemma CeilDiv(k: nat, n: nat)
    requires n > 0
    ensures Ceil(k, n) == k / n + (if k % n == 0 then 0 else 1)
  {
    var q, r := k / n, k % n;
    if r == 0 {
      assert k + n - 1 == q * n + (n - 1);
      MulDiv(q, n - 1, n);
    } else {
      assert k + n - 1 == (q + 1) * n + (r - 1);
      MulDiv(q + 1, r - 1, n);
    }
  }

  lemma Distribute(a: nat, b: nat, n: nat)
    ensures (a + b) * n == a * n + b * n && (a + 1) * n == a * n + n
  {
  }

  lemma DivSum(a: nat, r: nat, b: nat, s: nat, n: nat)
    requires r < n && s < n
    ensures (a * n + r + (b * n + s)) / n == a + b + (if r + s < n then 0 else 1)
  {
    Distribute(a, b, n);
    if r + s < n {
      MulDiv(a + b, r + s, n);
    } else {
      Distribute(a + b, 0, n);
      MulDiv(a + b + 1, r + s - n, n);
    }
  }

  lemma DivAdd(y: nat, k: nat, n: nat)
    requires n > 0
    ensures (y + k) / n == y / n + k / n + (if y % n + k % n < n then 0 else 1)
  {
    DivMul(y, n);
    DivMul(k, n);
    DivSum(y / n, y % n, k / n, k % n, n);
  }

  lemma DivWindow(y: nat, k: nat, n: nat)
    requires n > 0
    ensures k / n <= (y + k) / n - y / n <= Ceil(k, n)
  {
    DivAdd(y, k, n);
    CeilDiv(k, n);
  }

  // ---------- counting residues ----------

  /** How many of the numbers a, a + 1, ..., a + k - 1 leave remainder i. */
  ghost function Residues(a: nat, k: nat, n: nat, i: nat): nat
    requires n > 0
    decreases k
  {
    if k == 0 then 0 else (if a % n == i then 1 else 0) + Residues(a + 1, k - 1, n, i)
  }

  lemma ShiftedResidue(a: nat, n: nat, i: nat)
    requires i < n
    ensures a % n == i <==> (a + n - i) % n == 0
  {
    var q, r := a / n, a % n;
    DivMul(a, n);
    if r == i {
      assert a + n - i == (q + 1) * n;
      MulDiv(q + 1, 0, n);
    } else if r > i {
      assert a + n - i == (q + 1) * n + (r - i);
      MulDiv(q + 1, r - i, n);
    } else {
      assert a + n - i == q * n + (r + n - i);
      MulDiv(q, r + n - i, n);
    }
  }

  /** The closed form: the multiples of n met when a + n - 1 - i moves up by k. */
  lemma {:induction false} ResiduesClosed(a: nat, k: nat, n: nat, i: nat)
    requires i < n
    ensures Residues(a, k, n, i) == (a + n - 1 - i + k) / n - (a + n - 1 - i) / n
    decreases k
  {
    if k > 0 {
      ResiduesClosed(a + 1, k - 1, n, i);
      ResidueStep(a, n, i);
    }
  }

  lemma ResidueStep(a: nat, n: nat, i: nat)
    requires i < n
    ensures (a + n - i) / n == (a + n - 1 - i) / n + if a % n == i then 1 else 0
  {
    DivStep(a + n - 1 - i, n);
    ShiftedResidue(a, n, i);
  }

  /** A remainder is met between floor(k/n) and ceil(k/n) times. */
  lemma ResiduesWindow(a: nat, k: nat, n: nat, i: nat)
    requires i < n
    ensures k / n <= Residues(a, k, n, i) <= Ceil(k, n)
  {
    ResiduesClosed(a, k, n, i);
    DivWindow(a + n - 1 - i, k, n);
  }

  lemma NextResidueOf(q: nat, r: nat, n: nat)
    requires r < n
    ensures (q * n + r + 1) % n == if r == n - 1 then 0 else r + 1
  {
    if r == n - 1 {
      Distribute(q, 0, n);
      MulDiv(q + 1, 0, n);
    } else {
      MulDiv(q, r + 1, n);
    }
  }

  lemma NextResidue(a: nat, n: nat)
    requires n > 0
    ensures (a + 1) % n == if a % n == n - 1 then 0 else a % n + 1
  {
    DivMul(a, n);
    NextResidueOf(a / n, a % n, n);
  }

  /** Only the remainder of the starting point matters. */
  lemma {:induction false} ResiduesPeriodic(a: nat, b: nat, k: nat, n: nat, i: nat)
    requires n > 0 && a % n == b % n
    ensures Residues(a, k, n, i) == Residues(b, k, n, i)
    decreases k
  {
    if k > 0 {
      NextResidue(a, n);
      NextResidue(b, n);
      ResiduesPeriodic(a + 1, b + 1, k - 1, n, i);
    }
  }
}
