/** Integer powers and congruence modulo a number. */
module Powers {

  function Pow(b: int, e: nat): int {
    if e == 0 then 1 else b * Pow(b, e - 1)
  }

  /** `Pow(2, n)` as a natural number. */
  function Pow2(n: nat): (r: nat)
    ensures r > n && r == Pow(2, n)
  {
    if n == 0 then 1 else 2 * Pow2(n - 1)
  }

  function PowMod(b: int, e: nat, n: nat): int
    requires n > 1
  {
    Pow(b, e) % n
  }

  lemma {:induction false} Pow2Positive(e: nat)
    ensures Pow(2, e) >= 1
  {
    if e > 0 {
      Pow2Positive(e - 1);
    }
  }

  lemma {:induction false} PowAdd(b: int, d: nat, e: nat)
    ensures Pow(b, d + e) == Pow(b, d) * Pow(b, e)
  {
    if d > 0 {
      PowAdd(b, d - 1, e);
      assert Pow(b, d + e) == b * Pow(b, d - 1 + e);
      MulAssociate(b, Pow(b, d - 1), Pow(b, e));
    }
  }

  lemma MulAssociate(a: int, b: int, c: int)
    ensures a * (b * c) == (a * b) * c
  {
  }

  lemma {:induction false} PowMul(a: int, b: int, e: nat)
    ensures Pow(a * b, e) == Pow(a, e) * Pow(b, e)
  {
    if e > 0 {
      PowMul(a, b, e - 1);
      Rearrange(a, b, Pow(a, e - 1), Pow(b, e - 1));
    }
  }

  lemma Rearrange(a: int, b: int, c: int, d: int)
    ensures (a * b) * (c * d) == (a * c) * (b * d)
  {
    calc {
      (a * b) * (c * d);
      a * (b * (c * d));
      a * (c * (b * d));
      (a * c) * (b * d);
    }
  }

  lemma {:induction false} PowPow(b: int, d: nat, e: nat)
    ensures d * e >= 0 && Pow(Pow(b, d), e) == Pow(b, d * e)
  {
    if e > 0 {
      PowPow(b, d, e - 1);
      assert d * e == d + d * (e - 1);
      PowAdd(b, d, d * (e - 1));
    }
  }

  ghost predicate Cong(a: int, b: int, n: nat)
    requires n > 1
  {
    a % n == b % n
  }

  /** Quotient and remainder are unique. */
  lemma ModUnique(x: int, q: int, r: int, n: nat)
    requires n > 1 && x == n * q + r && 0 <= r < n
    ensures x % n == r && x / n == q
  {
    var d := q - x / n;
    assert n * d == x % n - r by {
      DistributeLeft(n, x / n, d);
      assert x == n * (x / n) + x % n;
    }
    MultipleBound(n, d);
  }

  /** Dividing by 256 and then by `b`. */
  lemma DivideTwice(v: nat, b: nat)
    requires b > 0
    ensures v / 256 / b == v / (256 * b)
  {
    var q, r := v / 256 / b, v / 256 % b;
    assert v / 256 == b * q + r;
    MulAssociate(256, b, q);
    ModUnique(v, q, 256 * r + v % 256, 256 * b);
  }

  lemma MultipleBound(n: nat, d: int)
    ensures d >= 1 ==> n * d >= n
    ensures d <= -1 ==> n * d + n <= 0
  {
    if d >= 1 {
      DistributeLeft(n, d - 1, 1);
    } else if d <= -1 {
      DistributeLeft(n, -d - 1, 1);
      assert n * d == -(n * -d);
    }
  }

  lemma ModShift(a: int, k: int, n: nat)
    requires n > 1
    ensures (a + n * k) % n == a % n
  {
    DistributeLeft(n, a / n, k);
    ModUnique(a + n * k, a / n + k, a % n, n);
  }

  lemma CongMod(a: int, n: nat)
    requires n > 1
    ensures Cong(a % n, a, n) && 0 <= a % n < n
  {
  }

  lemma CongMul(a: int, b: int, c: int, d: int, n: nat)
    requires n > 1 && Cong(a, b, n) && Cong(c, d, n)
    ensures Cong(a * c, b * d, n)
  {
    ProductMod(a, c, n);
    ProductMod(b, d, n);
  }

  lemma ProductMod(a: int, c: int, n: nat)
    requires n > 1
    ensures a * c % n == (a % n) * (c % n) % n
  {
    Parts(a, n);
    Parts(c, n);
    ProductOfParts(a, c, n, a / n, a % n, c / n, c % n);
  }

  lemma Parts(a: int, n: nat)
    requires n > 1
    ensures a == n * (a / n) + a % n
  {
  }

  lemma ProductOfParts(a: int, c: int, n: nat, p: int, r: int, q: int, s: int)
    requires n > 1 && a == n * p + r && c == n * q + s
    ensures a * c % n == r * s % n
  {
    var low, k := r * s, p * c + q * r;
    assert a * c == low + n * k by {
      Expand(n, p, r, q, s);
    }
    ModShift(low, k, n);
  }

  lemma Expand(n: int, p: int, r: int, q: int, s: int)
    ensures (n * p + r) * (n * q + s) == r * s + n * (p * (n * q + s) + q * r)
  {
    var c := n * q + s;
    Distribute(n * p, r, c);
    MulAssociate(n, p, c);
    DistributeLeft(r, n * q, s);
    assert r * (n * q) == n * (q * r) by {
      MulAssociate(n, q, r);
    }
    DistributeLeft(n, p * c, q * r);
  }

  lemma Distribute(a: int, b: int, c: int)
    ensures (a + b) * c == a * c + b * c
  {
  }

  lemma DistributeLeft(a: int, b: int, c: int)
    ensures a * (b + c) == a * b + a * c
  {
  }

  lemma {:induction false} CongPow(a: int, b: int, e: nat, n: nat)
    requires n > 1 && Cong(a, b, n)
    ensures Cong(Pow(a, e), Pow(b, e), n)
  {
    if e > 0 {
      CongPow(a, b, e - 1, n);
      CongMul(a, b, Pow(a, e - 1), Pow(b, e - 1), n);
    }
  }

  // ---- Invertible numbers ----

  ghost predicate IsUnit(x: int, n: nat)
    requires n > 1
  {
    exists inverse :: Cong(x * inverse, 1, n)
  }

  lemma UnitCong(x: int, y: int, n: nat)
    requires n > 1 && IsUnit(x, n) && Cong(x, y, n)
    ensures IsUnit(y, n)
  {
    var i :| Cong(x * i, 1, n);
    CongMul(x, y, i, i, n);
    assert Cong(y * i, 1, n);
  }

  lemma UnitMod(x: int, n: nat)
    requires n > 1 && IsUnit(x, n)
    ensures IsUnit(x % n, n)
  {
    CongMod(x, n);
    UnitCong(x, x % n, n);
  }

  lemma UnitMul(x: int, y: int, n: nat)
    requires n > 1 && IsUnit(x, n) && IsUnit(y, n)
    ensures IsUnit(x * y, n)
  {
    var i :| Cong(x * i, 1, n);
    var j :| Cong(y * j, 1, n);
    CongMul(x * i, 1, y * j, 1, n);
    Rearrange(x, y, i, j);
    assert Cong(x * y * (i * j), 1, n);
  }

  lemma {:induction false} UnitPow(x: int, e: nat, n: nat)
    requires n > 1 && IsUnit(x, n)
    ensures IsUnit(Pow(x, e), n)
  {
    if e == 0 {
      assert Cong(1 * 1, 1, n);
    } else {
      UnitPow(x, e - 1, n);
      UnitMul(x, Pow(x, e - 1), n);
    }
  }

  /** Invertible factors cancel. */
  lemma UnitCancel(x: int, e: int, n: nat)
    requires n > 1 && IsUnit(x, n)
    ensures Cong(x * e, x, n) <==> Cong(e, 1, n)
  {
    var i :| Cong(x * i, 1, n);
    if Cong(e, 1, n) {
      CongMul(x, x, e, 1, n);
    }
    if Cong(x * e, x, n) {
      CongMul(x * e, x, i, i, n);
      CongMul(x * i, 1, e, e, n);
      assert x * e * i == x * i * e by {
        MulAssociate(x, e, i);
        MulAssociate(x, i, e);
      }
    }
  }
}
