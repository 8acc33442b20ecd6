/** Primes, powers modulo a number, Euclid's lemma and Fermat's little theorem. */
module NumberTheory {

  function Pow(a: nat, e: nat): (r: nat)
    ensures a > 0 ==> r > 0
  {
    if e == 0 then 1 else a * Pow(a, e - 1)
  }

  predicate IsPrime(p: nat) {
    p >= 2 && forall d :: 2 <= d < p ==> p % d != 0
  }

  // ---- division ---------------------------------------------------------------------

  lemma Monotone(m: nat, x: int, y: int)
    ensures x <= y ==> m * x <= m * y
  {
  }

  /** Quotient and remainder are unique. */
  lemma Quotient(c: nat, m: nat, q: int, r: nat)
    requires c == m * q + r && r < m
    ensures c / m == q && c % m == r
  {
    Monotone(m, c / m + 1, q);
    Monotone(m, q + 1, c / m);
  }

  lemma Multiple(m: nat, q: int)
    requires m > 0
    ensures (m * q) % m == 0
  {
    ModUnique(m * q, m, q, 0);
  }

  lemma Halve(c: nat, m: nat)
    requires m > 0
    ensures c / m == 2 * (c / (2 * m)) + c / m % 2
  {
    var q, r := c / m, c % m;
    var h, e := q / 2, q % 2;
    assert m * q == 2 * m * h + m * e;
    Monotone(m, e, 1);
    Quotient(c, 2 * m, h, m * e + r);
  }

  lemma ModSum(x: int, k: int, m: nat)
    requires m > 0
    ensures (x + m * k) % m == x % m
  {
    var q, r := x / m, x % m;
    assert x + m * k == m * (q + k) + r;
    ModUnique(x + m * k, m, q + k, r);
  }

  lemma ModUnique(c: int, m: nat, q: int, r: nat)
    requires c == m * q + r && r < m
    ensures c % m == r
  {
    var k := c / m;
    assert c == m * k + c % m;
    Monotone(m, k + 1, q);
    Monotone(m, q + 1, k);
  }

  lemma ModMulLeft(a: nat, b: nat, m: nat)
    requires m > 0
    ensures a % m * b % m == a * b % m
  {
    assert a * b == a % m * b + m * (a / m * b);
    ModSum(a % m * b, a / m * b, m);
  }

  lemma ModMul(a: nat, b: nat, m: nat)
    requires m > 0
    ensures (a % m) * (b % m) % m == a * b % m
  {
    ModMulLeft(a, b, m);
    ModMulLeft(b, a % m, m);
    assert b * (a % m) == a % m * b;
    assert b % m * (a % m) == (a % m) * (b % m);
  }

  // ---- powers -----------------------------------------------------------------------

  lemma {:induction false} PowAdd(a: nat, e: nat, f: nat)
    ensures Pow(a, e + f) == Pow(a, e) * Pow(a, f)
  {
    if e == 0 {
    } else {
      PowAdd(a, e - 1, f);
      assert Pow(a, e + f) == a * Pow(a, e - 1 + f);
    }
  }

  lemma {:induction false} PowGrows(e: nat, f: nat)
    requires e <= f
    ensures Pow(2, e) <= Pow(2, f)
    decreases f
  {
    if e < f {
      PowGrows(e, f - 1);
    }
  }

  // ---- primes -----------------------------------------------------------------------

  lemma OddPrime(p: nat)
    requires IsPrime(p) && p >= 3
    ensures p % 2 == 1
  {
  }

  /** Euclid's lemma: a prime that divides a product divides a factor. */
  lemma {:induction false} Euclid(p: nat, a: nat, b: nat)
    requires IsPrime(p) && a * b % p == 0
    ensures a % p == 0 || b % p == 0
    decreases a
  {
    if a >= p {
      ModMulLeft(a, b, p);
      Euclid(p, a % p, b);
      Quotient(a % p, p, 0, a % p);
    } else if a <= 1 {
    } else {
      var q, s := p / a, p % a;
      assert s * b == -q * (a * b) + p * b;
      Multiples(p, a * b, -q, b);
      Euclid(p, s, b);
      Quotient(s, p, 0, s);
    }
  }

  lemma Multiples(p: nat, x: nat, k: int, l: int)
    requires p > 0 && x % p == 0
    ensures (k * x + p * l) % p == 0
  {
    var y := x / p;
    assert k * x + p * l == p * (k * y + l);
    Multiple(p, k * y + l);
  }

  /** Modulo a prime, one has no square roots but one and minus one. */
  lemma RootsOfOne(x: nat, p: nat)
    requires IsPrime(p) && x < p && x * x % p == 1
    ensures x == 1 || x == p - 1
  {
    if x == 0 {
    } else {
      assert x * x == p * (x * x / p) + 1;
      assert (x - 1) * (x + 1) == p * (x * x / p);
      Multiple(p, x * x / p);
      Euclid(p, x - 1, x + 1);
      Quotient(x - 1, p, 0, x - 1);
      if x + 1 < p {
        Quotient(x + 1, p, 0, x + 1);
      }
    }
  }

  // ---- the binomial theorem ---------------------------------------------------------

  function Choose(n: nat, k: nat): nat {
    if k == 0 then 1 else if n == 0 then 0 else Choose(n - 1, k) + Choose(n - 1, k - 1)
  }

  lemma {:induction false} Absorb(n: nat, k: nat)
    requires n > 0 && k > 0
    ensures k * Choose(n, k) == n * Choose(n - 1, k - 1)
  {
    if n == 1 {
      if k == 1 {
      } else {
        assert Choose(0, k) == 0 && Choose(0, k - 1) == 0;
      }
    } else if k == 1 {
      Absorb(n - 1, 1);
    } else {
      Absorb(n - 1, k);
      Absorb(n - 1, k - 1);
      AbsorbStep(n, k, Choose(n - 1, k), Choose(n - 1, k - 1), Choose(n - 2, k - 1), Choose(n - 2, k - 2));
    }
  }

  lemma AbsorbStep(n: int, k: int, a: int, b: int, c: int, d: int)
    requires k * a == (n - 1) * c && (k - 1) * b == (n - 1) * d && b == c + d
    ensures k * (a + b) == n * b
  {
    assert k * (a + b) == k * a + (k - 1) * b + b;
    assert (n - 1) * c + (n - 1) * d == (n - 1) * b;
  }

  /** The first m terms of the expansion of (1 + a) to the n. */
  function Terms(a: nat, n: nat, m: nat): nat {
    if m == 0 then 0 else Terms(a, n, m - 1) + Choose(n, m - 1) * Pow(a, m - 1)
  }

  lemma {:induction false} TermsStep(a: nat, n: nat, m: nat)
    requires m > 0 && n > 0
    ensures Terms(a, n, m) == Terms(a, n - 1, m) + a * Terms(a, n - 1, m - 1)
  {
    if m == 1 {
      assert Terms(a, n, 1) == Terms(a, n, 0) + Choose(n, 0) * Pow(a, 0);
    } else {
      TermsStep(a, n, m - 1);
      Distribute(Terms(a, n - 1, m - 1), Terms(a, n - 1, m - 2), a, Choose(n - 1, m - 1), Choose(n - 1, m - 2), Pow(a, m - 2));
    }
  }

  lemma Distribute(x: nat, y: nat, a: nat, c: nat, d: nat, t: nat)
    ensures x + a * y + (c + d) * (a * t) == x + c * (a * t) + a * (y + d * t)
  {
    assert (c + d) * (a * t) == c * (a * t) + d * (a * t);
    assert d * (a * t) == a * (d * t);
  }

  lemma {:induction false} TooMany(n: nat, k: nat)
    requires k > n
    ensures Choose(n, k) == 0
  {
    if n > 0 {
      TooMany(n - 1, k);
      TooMany(n - 1, k - 1);
    }
  }

  lemma {:induction false} Binomial(a: nat, n: nat)
    ensures Pow(1 + a, n) == Terms(a, n, n + 1)
  {
    hide Pow, Terms, Choose;
    if n == 0 {
      NoTerm(a);
    } else {
      Binomial(a, n - 1);
      TermsStep(a, n, n + 1);
      LastTerm(a, n);
      PowStep(a, n);
    }
  }

  lemma PowStep(a: nat, n: nat)
    requires n > 0
    ensures Pow(1 + a, n) == Pow(1 + a, n - 1) + a * Pow(1 + a, n - 1)
  {
  }

  lemma NoTerm(a: nat)
    ensures Pow(1 + a, 0) == Terms(a, 0, 1)
  {
    assert Terms(a, 0, 1) == Terms(a, 0, 0) + Choose(0, 0) * Pow(a, 0);
  }

  lemma LastTerm(a: nat, n: nat)
    requires n > 0
    ensures Terms(a, n - 1, n + 1) == Terms(a, n - 1, n)
  {
    TooMany(n - 1, n);
    assert Choose(n - 1, n) * Pow(a, n) == 0;
  }

  lemma {:induction false} Diagonal(n: nat)
    ensures Choose(n, n) == 1
  {
    if n > 0 {
      Diagonal(n - 1);
      TooMany(n - 1, n);
    }
  }

  /** A prime divides the inner entries of its row of Pascal's triangle. */
  lemma PrimeRow(p: nat, k: nat)
    requires IsPrime(p) && 0 < k < p
    ensures Choose(p, k) % p == 0
  {
    Absorb(p, k);
    Multiple(p, Choose(p - 1, k - 1));
    Euclid(p, k, Choose(p, k));
    Quotient(k, p, 0, k);
  }

  lemma {:induction false} InnerTerms(a: nat, p: nat, m: nat)
    requires IsPrime(p) && 1 <= m <= p
    ensures Terms(a, p, m) % p == 1
  {
    if m == 1 {
      assert Terms(a, p, 1) == Terms(a, p, 0) + Choose(p, 0) * Pow(a, 0);
      Quotient(1, p, 0, 1);
    } else {
      InnerTerms(a, p, m - 1);
      PrimeRow(p, m - 1);
      var c := Choose(p, m - 1);
      assert c * Pow(a, m - 1) == p * (c / p * Pow(a, m - 1));
      ModSum(Terms(a, p, m - 1), c / p * Pow(a, m - 1), p);
    }
  }

  /** Modulo a prime p, the p-th power of a number is the number. */
  lemma {:induction false} PowersOfPrime(a: nat, p: nat)
    requires IsPrime(p)
    ensures Pow(a, p) % p == a % p
  {
    if a == 0 {
      assert Pow(0, p) == 0 * Pow(0, p - 1);
    } else {
      PowersOfPrime(a - 1, p);
      PrimePowerStep(a, p);
    }
  }

  lemma PrimePowerStep(a: nat, p: nat)
    requires IsPrime(p) && a > 0 && Pow(a - 1, p) % p == (a - 1) % p
    ensures Pow(a, p) % p == a % p
  {
    hide IsPrime, Pow;
    AtLeastTwo(p);
    Binomial(a - 1, p);
    InnerTerms(a - 1, p, p);
    Diagonal(p);
    var inner := Terms(a - 1, p, p);
    assert Pow(a, p) == inner + Pow(a - 1, p);
    var k := SameMod(inner, 1, p);
    var l := SameMod(Pow(a - 1, p), a - 1, p);
    ModAdd(inner, Pow(a - 1, p), 1, a - 1, k, l, p);
  }

  lemma AtLeastTwo(p: nat)
    requires IsPrime(p)
    ensures p >= 2 && 1 % p == 1
  {
    Quotient(1, p, 0, 1);
  }

  lemma ModAdd(x: nat, y: nat, u: nat, v: nat, k: int, l: int, m: nat)
    requires m > 0 && x == u + m * k && y == v + m * l
    ensures (x + y) % m == (u + v) % m
  {
    assert m * (k + l) == m * k + m * l;
    ModSum(u + v, k + l, m);
  }

  lemma SameMod(x: nat, u: nat, m: nat) returns (k: int)
    requires m > 0 && x % m == u % m
    ensures x == u + m * k
  {
    k := x / m - u / m;
  }

  /** Fermat's little theorem. */
  lemma FermatLittle(a: nat, p: nat)
    requires IsPrime(p) && 1 <= a < p
    ensures Pow(a, p - 1) % p == 1
  {
    PowersOfPrime(a, p);
    Quotient(a, p, 0, a);
    var x := Pow(a, p - 1);
    assert Pow(a, p) == a * x;
    assert a * (x - 1) == p * (a * x / p);
    Multiple(p, a * x / p);
    Euclid(p, a, x - 1);
    assert x == p * ((x - 1) / p) + 1;
    Quotient(x, p, (x - 1) / p, 1);
  }
}
