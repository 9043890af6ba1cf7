/** Residues, Euclid's lemma and Fermat's little theorem, as RSA needs them. */
module NumberTheory {
  import opened Prelude
  import opened BigEndian

  // ---------------------------------------------------------------- division with remainder

  lemma MultipleSize(m: int, d: int)
    requires m > 0
    ensures d >= 1 ==> m * d >= m
    ensures d <= -1 ==> m * d <= -m
  {
  }

  lemma DivisionUnique(a: int, m: int, q: int, r: int)
    requires m > 0 && a == m * q + r && 0 <= r < m
    ensures a % m == r && a / m == q
  {
    assert m * (a / m - q) == m * (a / m) - m * q;
    MultipleSize(m, a / m - q);
  }

  lemma AddMultiple(a: int, m: int, k: int)
    requires m > 0
    ensures (a + m * k) % m == a % m
  {
    assert m * (a / m + k) == m * (a / m) + m * k;
    DivisionUnique(a + m * k, m, a / m + k, a % m);
  }

  /** `a` and `b` leave the same remainder. */
  predicate Same(a: int, b: int, m: int)
    requires m > 0
  {
    a % m == b % m
  }

  lemma SameByMultiple(a: int, b: int, m: int, k: int)
    requires m > 0 && a == b + m * k
    ensures Same(a, b, m)
  {
    AddMultiple(b, m, k);
  }

  lemma SameToMultiple(a: int, b: int, m: int) returns (k: int)
    requires m > 0 && Same(a, b, m)
    ensures a == b + m * k
  {
    k := a / m - b / m;
    assert m * k == m * (a / m) - m * (b / m);
  }

  lemma SameMul(a: int, b: int, c: int, d: int, m: int)
    requires m > 0 && Same(a, b, m) && Same(c, d, m)
    ensures Same(a * c, b * d, m)
  {
    var j := SameToMultiple(a, b, m);
    var k := SameToMultiple(c, d, m);
    calc {
      a * c;
      (b + m * j) * (d + m * k);
      b * d + m * (b * k + j * d + m * j * k);
    }
    SameByMultiple(a * c, b * d, m, b * k + j * d + m * j * k);
  }

  lemma SameAdd(a: int, b: int, c: int, d: int, m: int)
    requires m > 0 && Same(a, b, m) && Same(c, d, m)
    ensures Same(a + c, b + d, m)
  {
    var j := SameToMultiple(a, b, m);
    var k := SameToMultiple(c, d, m);
    assert m * (j + k) == m * j + m * k;
    SameByMultiple(a + c, b + d, m, j + k);
  }

  lemma SameRemainder(a: int, m: int)
    requires m > 0
    ensures Same(a % m, a, m)
  {
  }

  lemma {:induction false} SamePow(a: int, b: int, e: nat, m: int)
    requires m > 0 && Same(a, b, m)
    ensures Same(Pow(a, e), Pow(b, e), m)
  {
    if e > 0 {
      SamePow(a, b, e - 1, m);
      SameMul(a, b, Pow(a, e - 1), Pow(b, e - 1), m);
    }
  }

  lemma {:induction false} PowMul(a: int, e: nat, f: nat)
    ensures Pow(Pow(a, e), f) == Pow(a, e * f)
  {
    if f > 0 {
      PowMul(a, e, f - 1);
      assert e * f == e + e * (f - 1);
      PowAdd(a, e, e * (f - 1));
    }
  }

  lemma {:induction false} PowOfOne(e: nat)
    ensures Pow(1, e) == 1
  {
    if e > 0 { PowOfOne(e - 1); }
  }

  // ---------------------------------------------------------------- primes

  ghost predicate Prime(p: int) {
    p >= 2 && forall d :: 2 <= d < p ==> p % d != 0
  }

  lemma {:induction false} EuclidBelow(p: int, a: int, b: int)
    requires Prime(p) && 1 <= a < p && (a * b) % p == 0
    ensures b % p == 0
    decreases a
  {
    if a > 1 {
      var k, r := p / a, p % a;
      assert r != 0;
      var t := SameToMultiple(a * b, 0, p);
      calc {
        r * b;
        { assert p == a * k + r; }
        (p - a * k) * b;
        p * b - k * (a * b);
        p * b - k * (p * t);
        p * (b - k * t);
      }
      SameByMultiple(r * b, 0, p, b - k * t);
      EuclidBelow(p, r, b);
    }
  }

  /** Euclid's lemma: a prime that divides a product divides a factor. */
  lemma Euclid(p: int, a: int, b: int)
    requires Prime(p) && (a * b) % p == 0
    ensures a % p == 0 || b % p == 0
  {
    if a % p != 0 {
      SameRemainder(a, p);
      SameMul(a % p, a, b, b, p);
      EuclidBelow(p, a % p, b);
    }
  }

  lemma Cancel(p: int, c: int, a: int, b: int)
    requires Prime(p) && c % p != 0 && Same(c * a, c * b, p)
    ensures Same(a, b, p)
  {
    var k := SameToMultiple(c * a, c * b, p);
    assert c * (a - b) == p * k;
    SameByMultiple(c * (a - b), 0, p, k);
    Euclid(p, c, a - b);
    var j := SameToMultiple(a - b, 0, p);
    SameByMultiple(a, b, p, j);
  }

  // ---------------------------------------------------------------- Fermat

  // The product of the members of `s` among 1..n.
  ghost function Product(s: set<int>, n: nat): int {
    if n == 0 then 1 else (if n in s then n else 1) * Product(s, n - 1)
  }

  lemma {:induction false} ProductSame(s: set<int>, t: set<int>, n: nat)
    requires forall i :: 1 <= i <= n ==> (i in s <==> i in t)
    ensures Product(s, n) == Product(t, n)
  {
    if n > 0 { ProductSame(s, t, n - 1); }
  }

  lemma {:induction false} ProductAdd(s: set<int>, x: int, n: nat)
    requires x !in s && 1 <= x <= n
    ensures Product(s + {x}, n) == x * Product(s, n)
  {
    if x == n {
      ProductSame(s + {x}, s, n - 1);
    } else {
      ProductAdd(s, x, n - 1);
      var d := if n in s then n else 1;
      assert d * (x * Product(s, n - 1)) == x * (d * Product(s, n - 1));
    }
  }

  function Factorial(k: nat): int {
    if k == 0 then 1 else k * Factorial(k - 1)
  }

  // The residues of a, 2a, ..., ka.
  ghost function Multiples(a: int, p: int, k: nat): set<int>
    requires p > 0
  {
    if k == 0 then {} else Multiples(a, p, k - 1) + {(a * k) % p}
  }

  lemma {:induction false} MultiplesAre(a: int, p: int, k: nat, r: int) returns (i: int)
    requires p > 0 && r in Multiples(a, p, k)
    ensures 1 <= i <= k && r == (a * i) % p
  {
    if r == (a * k) % p { i := k; } else { i := MultiplesAre(a, p, k - 1, r); }
  }

  lemma NextMultiple(a: int, p: int, k: nat)
    requires Prime(p) && a % p != 0 && 0 < k < p
    ensures (a * k) % p != 0 && (a * k) % p !in Multiples(a, p, k - 1)
  {
    var r := (a * k) % p;
    DivisionUnique(k, p, 0, k);
    if r == 0 { Euclid(p, a, k); }
    if r in Multiples(a, p, k - 1) {
      hide Prime, Multiples;
      var i := MultiplesAre(a, p, k - 1, r);
      Cancel(p, a, k, i);
      DivisionUnique(i, p, 0, i);
    }
  }

  lemma {:induction false} MultiplesDistinct(a: int, p: int, k: nat)
    requires Prime(p) && a % p != 0 && k < p
    ensures |Multiples(a, p, k)| == k
    ensures forall r :: r in Multiples(a, p, k) ==> 1 <= r < p
  {
    if k > 0 {
      MultiplesDistinct(a, p, k - 1);
      NextMultiple(a, p, k);
    }
  }

  lemma {:induction false} MultiplesProduct(a: int, p: int, k: nat)
    requires Prime(p) && a % p != 0 && k < p
    ensures Same(Product(Multiples(a, p, k), p - 1), Pow(a, k) * Factorial(k), p)
  {
    if k == 0 {
      EmptyProduct(p - 1);
    } else {
      MultiplesProduct(a, p, k - 1);
      MultiplesDistinct(a, p, k - 1);
      NextMultiple(a, p, k);
      var before, r := Multiples(a, p, k - 1), (a * k) % p;
      ProductAdd(before, r, p - 1);
      SameRemainder(a * k, p);
      MultiplyIn(a, k, p, r, Product(before, p - 1), Pow(a, k - 1), Factorial(k - 1));
    }
  }

  lemma MultiplyIn(a: int, k: int, p: int, r: int, product: int, power: int, factorial: int)
    requires p > 0 && Same(r, a * k, p) && Same(product, power * factorial, p)
    ensures Same(r * product, (a * power) * (k * factorial), p)
  {
    SameMul(r, a * k, product, power * factorial, p);
    assert (a * k) * (power * factorial) == (a * power) * (k * factorial);
  }

  ghost function UpTo(k: nat): set<int> {
    if k == 0 then {} else UpTo(k - 1) + {k}
  }

  lemma {:induction false} UpToIs(k: nat)
    ensures |UpTo(k)| == k
    ensures forall i :: i in UpTo(k) <==> 1 <= i <= k
  {
    if k > 0 { UpToIs(k - 1); }
  }

  lemma {:induction false} UpToProduct(s: set<int>, k: nat)
    requires forall i :: 1 <= i <= k ==> i in s
    ensures Product(s, k) == Factorial(k)
  {
    if k > 0 { UpToProduct(s, k - 1); }
  }

  lemma {:induction false} EmptyProduct(n: nat)
    ensures Product({}, n) == 1
  {
    if n > 0 { EmptyProduct(n - 1); }
  }

  lemma {:induction false} FactorialNotZero(p: int, k: nat)
    requires Prime(p) && k < p
    ensures Factorial(k) % p != 0
  {
    if k > 0 {
      FactorialNotZero(p, k - 1);
      if Factorial(k) % p == 0 {
        Euclid(p, k, Factorial(k - 1));
      }
    }
  }

  lemma AllMultiples(a: int, p: int)
    requires Prime(p) && a % p != 0
    ensures Multiples(a, p, p - 1) == UpTo(p - 1)
  {
    hide Multiples, Prime;
    PrimeIsTwo(p);
    MultiplesDistinct(a, p, p - 1);
    UpToIs(p - 1);
    hide UpTo;
    var multiples, all := Multiples(a, p, p - 1), UpTo(p - 1);
    forall r | r in multiples ensures r in all { assert 1 <= r < p; }
    SubsetOfSameSize(multiples, all);
  }

  /** Fermat's little theorem. */
  lemma Fermat(a: int, p: int)
    requires Prime(p) && a % p != 0
    ensures Same(Pow(a, p - 1), 1, p)
  {
    hide Multiples, Product, Factorial, Pow, Prime;
    PrimeIsTwo(p);
    var f := Factorial(p - 1);
    AllMultiples(a, p);
    MultiplesProduct(a, p, p - 1);
    UpToIs(p - 1);
    UpToProduct(UpTo(p - 1), p - 1);
    FactorialNotZero(p, p - 1);
    assert Pow(a, p - 1) * f == f * Pow(a, p - 1) && f == f * 1;
    Cancel(p, f, Pow(a, p - 1), 1);
  }

  lemma PrimeIsTwo(p: int)
    requires Prime(p)
    ensures p >= 2
  {
  }

  /** Raising to a power that is 1 modulo p - 1 changes no residue modulo p, zero included. */
  lemma FermatPower(x: int, k: nat, p: int)
    requires Prime(p) && k >= 1 && Same(k, 1, p - 1)
    ensures Same(Pow(x, k), x, p)
  {
    var j := SameToMultiple(k, 1, p - 1);
    if p > 2 { MultipleSize(p - 1, j); }
    if x % p == 0 {
      SameMul(x, 0, Pow(x, k - 1), Pow(x, k - 1), p);
    } else {
      Fermat(x, p);
      PowMul(x, p - 1, j);
      SamePow(Pow(x, p - 1), 1, j, p);
      PowOfOne(j);
      SameMul(x, x, Pow(x, (p - 1) * j), 1, p);
      assert Pow(x, k) == x * Pow(x, (p - 1) * j);
    }
  }

  /** Two residues that agree modulo different primes agree modulo the product. */
  lemma SameBoth(a: int, b: int, p: int, q: int)
    requires Prime(p) && Prime(q) && p % q != 0 && Same(a, b, p) && Same(a, b, q)
    ensures p * q > 0 && Same(a, b, p * q)
  {
    var j := SameToMultiple(a, b, p);
    var k := SameToMultiple(a, b, q);
    SameByMultiple(p * j, 0, q, k);
    Euclid(q, p, j);
    var t := SameToMultiple(j, 0, q);
    assert p * (q * t) == (p * q) * t;
    SameByMultiple(a, b, p * q, t);
  }
}
