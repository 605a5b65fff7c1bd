/** Arithmetic modulo a prime, up to Euclid's lemma and Fermat's little theorem.

    Everything here serves the square-root computation of the point codec; nothing is assumed
    about the prime. */
module NumberTheory {

  function Pow(b: int, e: nat): int {
    if e == 0 then 1 else b * Pow(b, e - 1)
  }

  ghost predicate Divides(d: int, n: int)
    requires d > 0
  {
    n % d == 0
  }

  ghost predicate IsPrime(p: int) {
    2 <= p && forall d :: 2 <= d < p ==> !Divides(d, p)
  }

  /** a and b leave the same remainder modulo p. */
  ghost predicate Cong(a: int, b: int, p: int)
    requires p > 0
  {
    Divides(p, a - b)
  }

  // ---- division with remainder ----

  lemma AtLeastFactor(t: int, p: int)
    requires p > 0 && t >= 1
    ensures t * p >= p
  {
    assert t * p == p + (t - 1) * p;
  }

  lemma SmallMultiple(t: int, p: int)
    requires p > 0 && -p < t * p < p
    ensures t == 0
  {
    if t != 0 {
      AtLeastFactor(if t > 0 then t else -t, p);
    }
  }

  lemma DivModUnique(q: int, r: int, p: int)
    requires 0 <= r < p
    ensures (q * p + r) / p == q && (q * p + r) % p == r
  {
    var x := q * p + r;
    var q', r' := x / p, x % p;
    assert x == q' * p + r';
    assert (q - q') * p == r' - r;
    SmallMultiple(q - q', p);
  }

  lemma CongFrom(a: int, b: int, k: int, p: int)
    requires p > 0 && a == b + k * p
    ensures Cong(a, b, p)
  {
    DivModUnique(k, 0, p);
  }

  lemma CongQuotient(a: int, b: int, p: int) returns (k: int)
    requires p > 0 && Cong(a, b, p)
    ensures a == b + k * p
  {
    k := (a - b) / p;
  }

  // ---- Cong is a congruence ----

  lemma CongSym(a: int, b: int, p: int)
    requires p > 0 && Cong(a, b, p)
    ensures Cong(b, a, p)
  {
    var k := CongQuotient(a, b, p);
    CongFrom(b, a, -k, p);
  }

  lemma CongTrans(a: int, b: int, c: int, p: int)
    requires p > 0 && Cong(a, b, p) && Cong(b, c, p)
    ensures Cong(a, c, p)
  {
    var k := CongQuotient(a, b, p);
    var l := CongQuotient(b, c, p);
    assert a == c + (k + l) * p;
    CongFrom(a, c, k + l, p);
  }

  lemma CongMul(a: int, b: int, c: int, d: int, p: int)
    requires p > 0 && Cong(a, b, p) && Cong(c, d, p)
    ensures Cong(a * c, b * d, p)
  {
    var k := CongQuotient(a, b, p);
    var l := CongQuotient(c, d, p);
    calc {
      a * c;
      (b + k * p) * (d + l * p);
      b * d + b * (l * p) + (k * p) * d + (k * p) * (l * p);
      b * d + (b * l + k * d + k * (l * p)) * p;
    }
    CongFrom(a * c, b * d, b * l + k * d + k * (l * p), p);
  }

  lemma CongNeg(a: int, b: int, p: int)
    requires p > 0 && Cong(a, b, p)
    ensures Cong(-a, -b, p)
  {
    var k := CongQuotient(a, b, p);
    CongFrom(-a, -b, -k, p);
  }

  lemma CongMod(a: int, p: int)
    requires p > 0
    ensures Cong(a % p, a, p)
  {
    CongFrom(a % p, a, -(a / p), p);
  }

  /** Congruent remainders are equal. */
  lemma CongSmall(a: int, b: int, p: int)
    requires 0 <= a < p && 0 <= b < p && Cong(a, b, p)
    ensures a == b
  {
    var k := CongQuotient(a, b, p);
    SmallMultiple(k, p);
  }

  /** The remainder of x modulo p is the only small number congruent to x. */
  lemma ModIs(x: int, r: int, p: int)
    requires 0 <= r < p && Cong(x, r, p)
    ensures x % p == r
  {
    CongMod(x, p);
    CongTrans(x % p, x, r, p);
    CongSmall(x % p, r, p);
  }

  lemma {:induction false} CongPow(a: int, b: int, e: nat, p: int)
    requires p > 0 && Cong(a, b, p)
    ensures Cong(Pow(a, e), Pow(b, e), p)
  {
    if e == 0 {
      CongFrom(1, 1, 0, p);
    } else {
      CongPow(a, b, e - 1, p);
      CongMul(a, b, Pow(a, e - 1), Pow(b, e - 1), p);
    }
  }

  // ---- laws of Pow ----

  lemma {:induction false} PowAdd(b: int, e: nat, f: nat)
    ensures Pow(b, e + f) == Pow(b, e) * Pow(b, f)
  {
    if e > 0 {
      PowAdd(b, e - 1, f);
      assert Pow(b, e + f) == b * Pow(b, (e - 1) + f);
      assert b * (Pow(b, e - 1) * Pow(b, f)) == (b * Pow(b, e - 1)) * Pow(b, f);
    }
  }

  lemma SwapFactors(a: int, b: int, x: int, y: int)
    ensures (a * b) * (x * y) == (a * x) * (b * y)
  {
    calc {
      (a * b) * (x * y);
      a * (b * (x * y));
      a * (x * (b * y));
      (a * x) * (b * y);
    }
  }

  lemma {:induction false} PowProduct(a: int, b: int, e: nat)
    ensures Pow(a * b, e) == Pow(a, e) * Pow(b, e)
  {
    if e > 0 {
      PowProduct(a, b, e - 1);
      SwapFactors(a, b, Pow(a, e - 1), Pow(b, e - 1));
    }
  }

  // ---- Euclid's lemma ----

  /** Modulo a prime, every number that is not a multiple of it has an inverse. */
  lemma {:induction false} Inverse(a: int, p: int) returns (x: int)
    requires IsPrime(p) && 0 < a < p
    ensures Cong(a * x, 1, p)
    decreases a
  {
    if a == 1 {
      CongFrom(1, 1, 0, p);
      return 1;
    }
    var q, r := p / a, p % a;
    assert p == q * a + r;
    assert !Divides(a, p);
    var y := Inverse(r, p);
    // r is -q * a modulo p, so its inverse y gives a the inverse -q * y
    x := -q * y;
    assert a * x == r * y + (-y) * p by {
      assert a * (-q * y) == -(q * a) * y;
      assert r * y == (p - q * a) * y;
      assert (p - q * a) * y == p * y - (q * a) * y;
    }
    CongFrom(a * x, r * y, -y, p);
    CongTrans(a * x, r * y, 1, p);
  }

  lemma Cancel(c: int, a: int, b: int, p: int)
    requires IsPrime(p) && !Divides(p, c) && Cong(c * a, c * b, p)
    ensures Cong(a, b, p)
  {
    var r := c % p;
    var x := Inverse(r, p);
    // c * x is 1 modulo p
    CongMod(c, p);
    CongSym(r, c, p);
    CongFrom(x, x, 0, p);
    CongMul(c, r, x, x, p);
    CongTrans(c * x, r * x, 1, p);
    MulByOne(c, x, a, p);
    MulByOne(c, x, b, p);
    // a = x * c * a = x * c * b = b
    CongMul(x, x, c * a, c * b, p);
    CongSym(x * (c * a), a, p);
    CongTrans(a, x * (c * a), x * (c * b), p);
    CongTrans(a, x * (c * b), b, p);
  }

  lemma MulByOne(c: int, x: int, a: int, p: int)
    requires p > 0 && Cong(c * x, 1, p)
    ensures Cong(x * (c * a), a, p)
  {
    CongFrom(a, a, 0, p);
    CongMul(c * x, 1, a, a, p);
    assert (c * x) * a == x * (c * a);
  }

  /** Euclid's lemma. */
  lemma PrimeDividesProduct(a: int, b: int, p: int)
    requires IsPrime(p) && Divides(p, a * b)
    ensures Divides(p, a) || Divides(p, b)
  {
    if !Divides(p, a) {
      assert a * b - a * 0 == a * b;
      Cancel(a, b, 0, p);
    }
  }

  // ---- Fermat's little theorem ----

  /** The product of the numbers k, k - 1, ..., 1 that lie in s. */
  ghost function Product(s: set<int>, k: nat): int {
    if k == 0 then 1 else (if k in s then k else 1) * Product(s, k - 1)
  }

  lemma {:induction false} ProductAdd(s: set<int>, x: int, k: nat)
    requires 0 < x && x !in s
    ensures Product(s + {x}, k) == if x <= k then x * Product(s, k) else Product(s, k)
  {
    if k > 0 {
      ProductAdd(s, x, k - 1);
      var c, m := if k in s then k else 1, Product(s, k - 1);
      if x < k {
        assert Product(s + {x}, k) == c * (x * m);
        SwapFactors(1, c, x, m);
      }
    }
  }

  lemma FactorsIndivisible(a: int, b: int, p: int)
    requires IsPrime(p) && !Divides(p, a) && !Divides(p, b)
    ensures !Divides(p, a * b)
  {
    if Divides(p, a * b) {
      PrimeDividesProduct(a, b, p);
      assert false;
    }
  }

  lemma {:induction false} ProductIndivisible(s: set<int>, k: nat, p: int)
    requires IsPrime(p) && k < p
    ensures !Divides(p, Product(s, k))
  {
    if k > 0 {
      ProductIndivisible(s, k - 1, p);
      if k in s {
        SmallIndivisible(k, p);
        FactorsIndivisible(k, Product(s, k - 1), p);
      }
    } else {
      SmallIndivisible(1, p);
    }
  }

  /** The residues a, 2 * a, ..., k * a modulo p. */
  ghost function Multiples(a: int, k: nat, p: int): set<int>
    requires p > 0
  {
    if k == 0 then {} else Multiples(a, k - 1, p) + {(k * a) % p}
  }

  lemma {:induction false} MultiplesSource(a: int, k: nat, p: int, y: int) returns (j: int)
    requires p > 0 && y in Multiples(a, k, p)
    ensures 1 <= j <= k && y == (j * a) % p
  {
    if y == (k * a) % p {
      j := k;
    } else {
      j := MultiplesSource(a, k - 1, p, y);
    }
  }

  lemma SmallIndivisible(k: int, p: int)
    requires 0 < k < p
    ensures !Divides(p, k)
  {
    DivModUnique(0, k, p);
  }

  lemma NonZeroMultiple(a: int, k: nat, p: int)
    requires IsPrime(p) && !Divides(p, a) && 0 < k < p
    ensures !Divides(p, k * a)
  {
    SmallIndivisible(k, p);
    if Divides(p, k * a) {
      PrimeDividesProduct(k, a, p);
    }
  }

  lemma FreshMultiple(a: int, k: nat, p: int)
    requires IsPrime(p) && !Divides(p, a) && 0 < k < p
    ensures 0 < (k * a) % p < p
    ensures (k * a) % p !in Multiples(a, k - 1, p)
  {
    NonZeroMultiple(a, k, p);
    var r := (k * a) % p;
    if r in Multiples(a, k - 1, p) {
      var j := MultiplesSource(a, k - 1, p, r);
      SameMultiple(a, j, k, p);
    }
  }

  /** Multiplication by a permutes the non-zero residues: the first k multiples are k distinct ones. */
  lemma {:induction false} MultiplesDistinct(a: int, k: nat, p: int)
    requires IsPrime(p) && !Divides(p, a) && k < p
    ensures |Multiples(a, k, p)| == k
    ensures forall y :: y in Multiples(a, k, p) ==> 0 < y < p
  {
    if k > 0 {
      MultiplesDistinct(a, k - 1, p);
      FreshMultiple(a, k, p);
    }
  }

  /** Their product is a power of a times the product of 1 .. k. */
  lemma {:induction false} MultiplesProduct(a: int, k: nat, p: int)
    requires IsPrime(p) && !Divides(p, a) && k < p
    ensures Cong(Product(Multiples(a, k, p), p - 1), Pow(a, k) * Product(Upto(k), k), p)
  {
    if k == 0 {
      ProductEmpty(p - 1);
      CongFrom(1, 1, 0, p);
    } else {
      MultiplesProduct(a, k - 1, p);
      FreshMultiple(a, k, p);
      ProductUpto(k);
      var m, r := Multiples(a, k - 1, p), (k * a) % p;
      var x, f := Pow(a, k - 1), Product(Upto(k - 1), k - 1);
      ProductAdd(m, r, p - 1);
      CongMod(k * a, p);
      CongMul(r, k * a, Product(m, p - 1), x * f, p);
      assert k * a == a * k;
      SwapFactors(a, k, x, f);
    }
  }

  lemma SameMultiple(a: int, j: int, k: int, p: int)
    requires IsPrime(p) && !Divides(p, a) && 0 < j < k < p
    ensures (j * a) % p != (k * a) % p
  {
    if (j * a) % p == (k * a) % p {
      CongMod(j * a, p);
      CongMod(k * a, p);
      CongSym((j * a) % p, j * a, p);
      CongTrans(j * a, (j * a) % p, k * a, p);
      assert j * a == a * j && k * a == a * k;
      Cancel(a, j, k, p);
      CongSmall(j, k, p);
      assert false;
    }
  }

  ghost function Upto(k: nat): set<int> {
    if k == 0 then {} else Upto(k - 1) + {k}
  }

  lemma {:induction false} ProductEmpty(k: nat)
    ensures Product({}, k) == 1
  {
    if k > 0 { ProductEmpty(k - 1); }
  }

  lemma ProductUpto(k: nat)
    requires k > 0
    ensures Product(Upto(k), k) == k * Product(Upto(k - 1), k - 1)
  {
    UptoMembers(k - 1);
    ProductAdd(Upto(k - 1), k, k);
    ProductBeyond(Upto(k - 1), k);
  }

  lemma ProductBeyond(s: set<int>, k: nat)
    requires k > 0 && k !in s
    ensures Product(s, k) == Product(s, k - 1)
  {
  }

  lemma {:induction false} UptoMembers(k: nat)
    ensures forall x :: x in Upto(k) <==> 1 <= x <= k
    ensures |Upto(k)| == k
  {
    if k > 0 { UptoMembers(k - 1); }
  }

  lemma AllResidues(s: set<int>, k: nat)
    requires |s| == k && forall y :: y in s ==> 0 < y <= k
    ensures s == Upto(k)
  {
    UptoMembers(k);
    var t := Upto(k);
    forall y | y in s ensures y in t {}
    assert |t| == |s| + |t - s| by { assert t == s + (t - s); }
  }

  /** Fermat's little theorem. */
  lemma Fermat(a: int, p: int)
    requires IsPrime(p) && !Divides(p, a)
    ensures Cong(Pow(a, p - 1), 1, p)
  {
    var f := Product(Upto(p - 1), p - 1);
    MultiplesDistinct(a, p - 1, p);
    AllResidues(Multiples(a, p - 1, p), p - 1);
    MultiplesProduct(a, p - 1, p);
    ProductIndivisible(Upto(p - 1), p - 1, p);
    CancelFactor(f, Pow(a, p - 1), p);
  }

  lemma CancelFactor(f: int, x: int, p: int)
    requires IsPrime(p) && !Divides(p, f) && Cong(f, x * f, p)
    ensures Cong(x, 1, p)
  {
    CongSym(f, x * f, p);
    assert x * f == f * x && f == f * 1;
    Cancel(f, x, 1, p);
  }
}
