/** Modular powers, and the congruences that the SRP-6a key agreement rests on. */
module ModArith {
  function Pow(b: int, e: nat): int {
    if e == 0 then 1 else b * Pow(b, e - 1)
  }

  /** `modPow`: the representative of the power between 0 and `n`, also for a negative base. */
  function ModPow(b: int, e: nat, n: nat): (r: nat)
    requires n > 0
    ensures r < n
  {
    Pow(b, e) % n
  }

  ghost predicate Cong(x: int, y: int, n: nat)
    requires n > 0
  {
    exists q: int :: x == y + q * n
  }

  lemma CongWitness(x: int, y: int, n: nat, q: int)
    requires n > 0 && x == y + q * n
    ensures Cong(x, y, n)
  {
  }

  lemma CongMod(x: int, n: nat)
    requires n > 0
    ensures Cong(x % n, x, n)
  {
    CongWitness(x % n, x, n, -(x / n));
  }

  lemma CongTrans(x: int, y: int, z: int, n: nat)
    requires n > 0 && Cong(x, y, n) && Cong(y, z, n)
    ensures Cong(x, z, n)
  {
    var q: int :| x == y + q * n;
    var r: int :| y == z + r * n;
    CongWitness(x, z, n, q + r);
  }

  lemma CongSym(x: int, y: int, n: nat)
    requires n > 0 && Cong(x, y, n)
    ensures Cong(y, x, n)
  {
    var q: int :| x == y + q * n;
    CongWitness(y, x, n, -q);
  }

  lemma CongAdd(x: int, x': int, y: int, y': int, n: nat)
    requires n > 0 && Cong(x, x', n) && Cong(y, y', n)
    ensures Cong(x + y, x' + y', n) && Cong(x - y, x' - y', n)
  {
    var q: int :| x == x' + q * n;
    var r: int :| y == y' + r * n;
    CongWitness(x + y, x' + y', n, q + r);
    CongWitness(x - y, x' - y', n, q - r);
  }

  lemma CongMul(x: int, x': int, y: int, y': int, n: nat)
    requires n > 0 && Cong(x, x', n) && Cong(y, y', n)
    ensures Cong(x * y, x' * y', n)
  {
    var q: int :| x == x' + q * n;
    var r: int :| y == y' + r * n;
    MulExpand(x', q, y', r, n);
    CongWitness(x * y, x' * y', n, x' * r + q * y' + q * r * n);
  }

  lemma MulExpand(a: int, q: int, b: int, r: int, n: int)
    ensures (a + q * n) * (b + r * n) == a * b + (a * r + q * b + q * r * n) * n
  {
  }

  lemma {:induction false} CongPow(x: int, x': int, e: nat, n: nat)
    requires n > 0 && Cong(x, x', n)
    ensures Cong(Pow(x, e), Pow(x', e), n)
  {
    if e == 0 {
      CongWitness(1, 1, n, 0);
    } else {
      CongPow(x, x', e - 1, n);
      CongMul(x, x', Pow(x, e - 1), Pow(x', e - 1), n);
    }
  }

  /** Congruent numbers have the same remainder. */
  lemma CongRemainder(x: int, y: int, n: nat)
    requires n > 0 && Cong(x, y, n)
    ensures x % n == y % n
  {
    var q: int :| x == y + q * n;
    var d := x / n - y / n - q;
    assert x == n * (x / n) + x % n && y == n * (y / n) + y % n;
    assert d * n == y % n - x % n by {
      Distribute(x / n, y / n, q, n);
    }
    if d > 0 {
      Multiple(d, n);
    } else if d < 0 {
      Multiple(-d, n);
    }
  }

  lemma Distribute(a: int, b: int, q: int, n: int)
    ensures (a - b - q) * n == n * a - n * b - q * n
  {
  }

  lemma Multiple(d: int, n: nat)
    requires d > 0
    ensures d * n >= n
  {
  }

  lemma {:induction false} PowAdd(b: int, d: nat, e: nat)
    ensures Pow(b, d + e) == Pow(b, d) * Pow(b, e)
  {
    if d > 0 {
      PowAdd(b, d - 1, e);
      assert Pow(b, d + e) == b * (Pow(b, d - 1) * Pow(b, e));
      Assoc(b, Pow(b, d - 1), Pow(b, e));
    }
  }

  lemma Assoc(a: int, b: int, c: int)
    ensures a * (b * c) == (a * b) * c
  {
  }

  lemma {:induction false} PowMul(b: int, d: nat, e: nat)
    ensures Pow(Pow(b, d), e) == Pow(b, d * e)
  {
    if e == 0 {
      assert d * e == 0;
    } else {
      PowMul(b, d, e - 1);
      assert d * e == d + d * (e - 1);
      PowAdd(b, d, d * (e - 1));
    }
  }

  lemma PowSwap(b: int, d: nat, e: nat)
    ensures Pow(Pow(b, d), e) == Pow(Pow(b, e), d)
  {
    PowMul(b, d, e);
    PowMul(b, e, d);
    assert d * e == e * d;
  }
}
