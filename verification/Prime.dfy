/** The search for table sizes: Miller-Rabin tests on unsigned 32-bit numbers. */
module Prime {
  import opened NumberTheory

  type uint32 = x: int | 0 <= x < 0x1_0000_0000

  /** mulmod: the product is formed in 64 bits. */
  function MulMod(a: uint32, b: uint32, c: uint32): (r: uint32)
    requires c > 0
    ensures r == a * b % c
  {
    Product32(a, b);
    a * b % 0x1_0000_0000_0000_0000 % c
  }

  lemma Product32(a: uint32, b: uint32)
    ensures 0 <= a * b < 0x1_0000_0000_0000_0000
  {
    Monotone(a, b, 0xFFFF_FFFF);
  }

  predicate BitIsSet(src: nat, b: nat) { src / Pow(2, b) % 2 == 1 }

  method NumberOfBits(src: uint32) returns (n: nat)
    ensures src == 0 ==> n == 0
    ensures src > 0 ==> 1 <= n <= 32 && Pow(2, n - 1) <= src < Pow(2, n)
  {
    if src == 0 {
      return 0;
    }
    Pow32();
    var b := 31;
    while b > 0
      invariant 0 <= b <= 31 && src < Pow(2, b + 1)
    {
      if BitIsSet(src, b) {
        TopBit(src, b);
        return b + 1;
      }
      TopBit(src, b);
      b := b - 1;
    }
    return 1;
  }

  lemma Pow32()
    ensures Pow(2, 32) == 0x1_0000_0000
  {
    assert Pow(2, 8) == 256;
    PowAdd(2, 8, 8);
    PowAdd(2, 16, 16);
  }

  lemma TopBit(src: nat, b: nat)
    requires src < Pow(2, b + 1)
    ensures BitIsSet(src, b) <==> src >= Pow(2, b)
  {
    var m := Pow(2, b);
    assert Pow(2, b + 1) == 2 * m;
    if src >= m {
      Quotient(src, m, 1, src - m);
    } else {
      Quotient(src, m, 0, src);
    }
  }

  /** x is a square root of one modulo n other than one and minus one. */
  predicate OddRoot(x: nat, n: nat)
    requires n > 0
  {
    x * x % n == 1 && x != 1 && x != n - 1
  }

  /** The leading binary digits of src - 1, all but the last i. */
  function Exponent(src: nat, i: nat): nat
    requires src >= 1
  {
    (src - 1) / Pow(2, i)
  }

  function Power(w: nat, src: nat, i: nat): (r: nat)
    requires src >= 1
    ensures r < src
  {
    Pow(w, Exponent(src, i)) % src
  }

  /** What a w shows: its power with exponent src - 1 is not one, or one of the powers on
      the way there, the leading digits of that exponent taken one by one, is an odd root. */
  ghost predicate Witnesses(w: nat, src: nat)
    requires src >= 1
  {
    Pow(w, src - 1) % src != 1 || exists i: nat :: i > 0 && OddRoot(Power(w, src, i), src)
  }

  method IsWitness(w: uint32, src: uint32) returns (r: bool)
    requires src >= 3 && 1 <= w < src
    ensures r <==> Witnesses(w, src)
  {
    hide Pow, Power, Exponent, MulMod, Witnesses, OddRoot;
    var bits := NumberOfBits(src - 1);
    var bitNum := bits - 1;
    var d: uint32 := 1;
    var i: int := bitNum;
    BeyondTop(w, src, bits);
    while i >= 0
      invariant -1 <= i <= bitNum
      invariant d < src && d == Power(w, src, i + 1)
      invariant forall j: nat :: j > i + 1 ==> !OddRoot(Power(w, src, j), src)
      decreases i + 1
    {
      var x := d;
      d := MulMod(d, d, src);
      if d == 1 && x != 1 && x != src - 1 {
        RootFound(w, src, i + 1);
        return true;
      }
      NoOddRoot(x, src);
      NextPower(w, src, i);
      if BitIsSet(src - 1, i) {
        d := MulMod(d, w, src);
      }
      i := i - 1;
    }
    NoRootFound(w, src);
    return d != 1;
  }

  lemma RootFound(w: nat, src: nat, i: nat)
    requires src >= 1 && i > 0 && var x := Power(w, src, i); x * x % src == 1 && x != 1 && x != src - 1
    ensures Witnesses(w, src)
  {
    assert OddRoot(Power(w, src, i), src);
  }

  lemma NoOddRoot(x: nat, src: nat)
    requires src >= 1 && !(x * x % src == 1 && x != 1 && x != src - 1)
    ensures !OddRoot(x, src)
  {
  }

  lemma NoRootFound(w: nat, src: nat)
    requires src >= 1 && forall j: nat :: j > 0 ==> !OddRoot(Power(w, src, j), src)
    ensures Witnesses(w, src) <==> Power(w, src, 0) != 1
  {
    assert Pow(2, 0) == 1;
    assert Exponent(src, 0) == src - 1;
  }

  /** Beyond the top digit the exponent is zero and its power is one. */
  lemma BeyondTop(w: nat, src: nat, bits: nat)
    requires src >= 3 && src - 1 < Pow(2, bits)
    ensures forall j: nat :: j >= bits ==> Power(w, src, j) == 1 && !OddRoot(Power(w, src, j), src)
  {
    hide Pow;
    forall j: nat | j >= bits ensures Power(w, src, j) == 1 {
      PowGrows(bits, j);
      Quotient(src - 1, Pow(2, j), 0, src - 1);
      assert Exponent(src, j) == 0;
      PowZero(w);
    }
  }

  lemma PowZero(a: nat)
    ensures Pow(a, 0) == 1
  {
  }

  /** One more digit of the exponent: square, and multiply when the digit is one. */
  lemma NextPower(w: nat, src: nat, i: nat)
    requires src >= 3
    ensures var x := Power(w, src, i + 1);
            Power(w, src, i) == if BitIsSet(src - 1, i) then x * x % src * w % src else x * x % src
  {
    var e, h := Exponent(src, i), Exponent(src, i + 1);
    Halve(src - 1, Pow(2, i));
    assert Pow(2, i + 1) == 2 * Pow(2, i);
    assert e == 2 * h + e % 2;
    PowAdd(w, h, h);
    ModMul(Pow(w, h), Pow(w, h), src);
    if e % 2 == 1 {
      assert Pow(w, e) == w * Pow(w, h + h);
      ModMul(Pow(w, h + h), w, src);
      ModMulLeft(Pow(w, h + h), w, src);
    }
  }

  lemma NoOddRoots(x: nat, p: nat)
    requires IsPrime(p) && x < p
    ensures !OddRoot(x, p)
  {
    if x * x % p == 1 {
      RootsOfOne(x, p);
    }
  }

  /** No number below a prime is a witness against it. */
  lemma PrimeHasNoWitness(w: nat, p: nat)
    requires IsPrime(p) && 1 <= w < p && p >= 3
    ensures !Witnesses(w, p)
  {
    hide IsPrime, Pow, Power, Exponent;
    FermatLittle(w, p);
    forall i: nat | i > 0 ensures !OddRoot(Power(w, p, i), p) {
      NoOddRoots(Power(w, p, i), p);
    }
  }

  // ---- the random numbers -----------------------------------------------------------

  /** The values of rand() during a search, named by the number under test and the round: a search
      tests a number at most once. */
  type Draws = (nat, nat) -> nat

  /** Random(src - 1), in round n. */
  function Drawn(draw: Draws, src: nat, n: nat): (w: nat)
    requires src >= 2
    ensures 1 <= w < src
  {
    draw(src, n) % (src - 1) + 1
  }

  const CHECKTIMES := 20

  /** None of the twenty numbers drawn, each from 1 to src - 1, is a witness. */
  ghost predicate Passes(src: nat, draw: Draws)
    requires src >= 2
  {
    forall n: nat {:trigger draw(src, n)} :: n < 20 ==> !Witnesses(draw(src, n) % (src - 1) + 1, src)
  }

  lemma PrimePasses(src: nat, draw: Draws)
    requires IsPrime(src) && src >= 3
    ensures Passes(src, draw)
  {
    hide IsPrime, Witnesses;
    forall n: nat | n < 20 ensures !Witnesses(draw(src, n) % (src - 1) + 1, src) {
      PrimeHasNoWitness(draw(src, n) % (src - 1) + 1, src);
    }
  }

  method IsMillerRabinPrime(src: uint32, draw: Draws) returns (r: bool)
    requires src >= 3
    ensures r <==> Passes(src, draw)
    ensures IsPrime(src) ==> r
  {
    hide IsPrime, Witnesses;
    if IsPrime(src) {
      PrimePasses(src, draw);
    }
    var n := 0;
    while n < CHECKTIMES
      invariant 0 <= n <= CHECKTIMES
      invariant forall k: nat {:trigger draw(src, k)} :: k < n ==> !Witnesses(draw(src, k) % (src - 1) + 1, src)
    {
      var w := Drawn(draw, src, n);
      var found := IsWitness(w, src);
      if found {
        return false;
      }
      n := n + 1;
    }
    return true;
  }

  predicate HasFactor(src: nat, n: nat)
    requires n > 0
  {
    src != n && src % n == 0
  }

  predicate HasEasyFactors(src: nat) {
    HasFactor(src, 3) || HasFactor(src, 5) || HasFactor(src, 7) || HasFactor(src, 11) || HasFactor(src, 13)
  }

  /** None of the five small primes divides r, unless it is r. */
  predicate NoSmallFactor(r: nat) {
    && (r == 3 || r % 3 != 0) && (r == 5 || r % 5 != 0) && (r == 7 || r % 7 != 0) && (r == 11 || r % 11 != 0) && (r == 13 || r % 13 != 0)
  }

  lemma EasyFactorsAreFactors(src: nat)
    requires src >= 3 && !NoSmallFactor(src)
    ensures !IsPrime(src)
  {
    var n :| n in [3, 5, 7, 11, 13] && src != n && src % n == 0;
    if n > src {
      Quotient(src, n, 0, src);
    }
  }

  /** What isPrime answers. */
  ghost predicate Accepted(src: nat, draw: Draws)
    requires src >= 2
  {
    NoSmallFactor(src) && Passes(src, draw)
  }

  /** isPrime: never refuses a prime. */
  method Accepts(src: uint32, draw: Draws) returns (r: bool)
    requires src >= 3
    ensures r <==> Accepted(src, draw)
    ensures IsPrime(src) ==> r
  {
    if HasEasyFactors(src) {
      EasyFactorsAreFactors(src);
      return false;
    }
    r := IsMillerRabinPrime(src, draw);
  }

  /** bdd_prime_gte: the first odd number that is accepted; no odd prime is passed over.  The
      search must meet a prime before the numbers of 32 bits end. */
  method PrimeGte(start: uint32, draw: Draws, ghost p: uint32) returns (src: uint32)
    requires start >= 2 && IsPrime(p) && p >= 3 && p >= start
    ensures start <= src <= p && src % 2 == 1 && Accepted(src, draw)
    ensures forall q: nat :: start <= q < src && q % 2 == 1 ==> !Accepted(q, draw) && !IsPrime(q)
  {
    hide IsPrime, Accepted;
    OddPrime(p);
    src := start;
    if src % 2 == 0 {
      src := src + 1;
    }
    var accepted := Accepts(src, draw);
    while !accepted
      invariant start <= src <= p && src >= 3 && src % 2 == 1
      invariant forall q: nat :: start <= q < src && q % 2 == 1 ==> !Accepted(q, draw) && !IsPrime(q)
      invariant IsPrime(src) ==> accepted
      invariant accepted <==> Accepted(src, draw)
      decreases p - src
    {
      assert src != p;
      src := src + 2;
      accepted := Accepts(src, draw);
    }
  }

  /** A number bdd_prime_gte can return. */
  predicate FoundFrom(start: nat, r: nat) {
    start <= r && r % 2 == 1 && r >= 3 && NoSmallFactor(r) && forall q :: start <= q < r && q % 2 == 1 ==> !IsPrime(q)
  }

  /** bdd_prime_gte for whatever rand() returns. */
  method PrimeFrom(start: uint32, ghost p: uint32) returns (r: nat)
    requires start >= 2 && IsPrime(p) && p >= 3 && p >= start
    ensures FoundFrom(start, r) && 3 <= r <= p
  {
    hide IsPrime, HasEasyFactors, NoSmallFactor, Passes;
    var draw: Draws := *;
    r := PrimeGte(start, draw, p);
  }

  lemma ThreeIsPrime()
    ensures IsPrime(3)
  {
  }

  /** The odd number at start or just below. */
  function OddBelow(start: nat): (r: nat)
    requires start >= 3
    ensures 3 <= r <= start <= r + 1 && r % 2 == 1
  {
    if start % 2 == 0 then start - 1 else start
  }

  /** The result of the search downwards from an odd number; three is never refused. */
  ghost function SearchDown(start: nat, draw: Draws): (r: nat)
    requires start >= 3
    ensures 3 <= r <= start
  {
    if start <= 4 || Accepted(start, draw) then start else SearchDown(start - 2, draw)
  }

  /** bdd_prime_lte: the search ends at three at the latest. */
  method PrimeLte(start: uint32, draw: Draws) returns (src: uint32)
    requires start >= 3
    ensures src == SearchDown(OddBelow(start), draw)
  {
    hide IsPrime, Accepted;
    src := start;
    if src % 2 == 0 {
      src := src - 1;
    }
    ThreeIsPrime();
    var accepted := Accepts(src, draw);
    while !accepted
      invariant 3 <= src <= start && src % 2 == 1
      invariant SearchDown(src, draw) == SearchDown(OddBelow(start), draw)
      invariant IsPrime(src) ==> accepted
      invariant accepted <==> Accepted(src, draw)
      decreases src
    {
      assert src != 3;
      src := src - 2;
      accepted := Accepts(src, draw);
    }
  }

  // ---- what a search can return -----------------------------------------------------

  /** A proper divisor is a witness: its powers are never one modulo the number. */
  lemma DivisorIsWitness(d: nat, n: nat)
    requires 2 <= d < n && n % d == 0
    ensures Witnesses(d, n)
  {
    var p := Pow(d, n - 1);
    assert p == d * Pow(d, n - 2);
    if p % n == 1 {
      var k := n / d;
      assert p == n * (p / n) + 1;
      assert n * (p / n) == d * (k * (p / n));
      ModUnique(p, d, k * (p / n), 1);
      Multiple(d, Pow(d, n - 2));
    }
  }

  lemma {:induction false} PowOne(e: nat)
    ensures Pow(1, e) == 1
  {
    if e > 0 {
      PowOne(e - 1);
    }
  }

  lemma PowerOfOne(n: nat, i: nat)
    requires n >= 3
    ensures Power(1, n, i) == 1
  {
    hide Pow, Exponent;
    PowOne(Exponent(n, i));
    Quotient(1, n, 0, 1);
  }

  lemma OneIsNoWitness(n: nat)
    requires n >= 3
    ensures !Witnesses(1, n)
  {
    hide Pow, Power;
    PowOne(n - 1);
    Quotient(1, n, 0, 1);
    forall i: nat | i > 0 ensures !OddRoot(Power(1, n, i), n) {
      PowerOfOne(n, i);
    }
  }

  /** A value of rand() that shows a composite number to be composite. */
  ghost function Refusal(n: nat): nat {
    if exists d :: 2 <= d < n && n % d == 0 then var d :| 2 <= d < n && n % d == 0; d - 1 else 0
  }

  /** Values of rand() that refuse every composite number but r. */
  ghost function Refusing(r: nat): Draws {
    (n: nat, k: nat) => if n == r then 0 else Refusal(n)
  }

  lemma RefusingRefuses(n: nat, r: nat)
    requires n >= 3
    ensures n != r && !IsPrime(n) ==> !Accepted(n, Refusing(r))
    ensures n == r && NoSmallFactor(n) ==> Accepted(n, Refusing(r))
  {
    hide Witnesses, NoSmallFactor;
    var draw := Refusing(r);
    if n == r {
      OneIsNoWitness(n);
      Quotient(0, n - 1, 0, 0);
      assert forall k: nat :: draw(n, k) == 0;
    } else if !IsPrime(n) {
      var d := Refusal(n) + 1;
      Quotient(d - 1, n - 1, 0, d - 1);
      DivisorIsWitness(d, n);
      assert draw(n, 0) % (n - 1) + 1 == d;
    }
  }

  /** What the search from limit downwards can return: an odd number without easy factors, and no
      odd prime is passed over. */
  predicate CanReturn(limit: nat, r: nat) {
    3 <= r <= limit && r % 2 == 1 && NoSmallFactor(r) && forall q :: r < q <= limit && q % 2 == 1 ==> !IsPrime(q)
  }

  lemma {:induction false} SearchFinds(start: nat, draw: Draws)
    requires start >= 3 && start % 2 == 1
    ensures CanReturn(start, SearchDown(start, draw))
  {
    hide IsPrime, Passes, NoSmallFactor;
    if start == 3 {
      assert NoSmallFactor(3) by { ThreeHasNoFactor(); }
    } else if !Accepted(start, draw) {
      SearchFinds(start - 2, draw);
      if IsPrime(start) {
        if !NoSmallFactor(start) { EasyFactorsAreFactors(start); }
        PrimePasses(start, draw);
      }
    }
  }

  lemma SearchReturns(limit: nat, draw: Draws)
    requires limit >= 3
    ensures CanReturn(limit, SearchDown(OddBelow(limit), draw))
  {
    hide IsPrime, NoSmallFactor;
    SearchFinds(OddBelow(limit), draw);
  }

  lemma ThreeHasNoFactor()
    ensures NoSmallFactor(3)
  {
  }

  lemma {:induction false} SearchReaches(start: nat, r: nat)
    requires start >= 3 && start % 2 == 1 && CanReturn(start, r)
    ensures SearchDown(start, Refusing(r)) == r
  {
    hide IsPrime, Accepted, NoSmallFactor;
    RefusingRefuses(start, r);
    if start > r {
      SearchReaches(start - 2, r);
    }
  }

  /** The numbers that bdd_prime_lte returns for some values of rand(). */
  lemma ReturnIff(limit: nat, r: nat)
    requires limit >= 3
    ensures CanReturn(limit, r) <==> exists draw: Draws :: SearchDown(OddBelow(limit), draw) == r
  {
    hide IsPrime, NoSmallFactor;
    if CanReturn(limit, r) {
      SearchReaches(OddBelow(limit), r);
    }
    forall draw: Draws | SearchDown(OddBelow(limit), draw) == r ensures CanReturn(limit, r) {
      SearchReturns(limit, draw);
    }
  }

  predicate PrimeBetween(a: int, b: int) {
    exists p: nat :: a < p <= b && IsPrime(p)
  }

  /** When every composite number is refused the search ends at a prime. */
  lemma {:induction false} RefusingFindsPrime(start: nat)
    requires start >= 3 && start % 2 == 1
    ensures IsPrime(SearchDown(start, Refusing(0)))
  {
    hide IsPrime, Accepted, NoSmallFactor;
    ThreeIsPrime();
    RefusingRefuses(start, 0);
    if start > 3 {
      RefusingFindsPrime(start - 2);
    }
  }

  /** The search is sure to end above a if and only if there is a prime to end at. */
  lemma SearchAbove(limit: nat, a: nat)
    requires limit >= 3 && a >= 2
    ensures (forall draw: Draws :: SearchDown(OddBelow(limit), draw) > a) <==> PrimeBetween(a, limit)
  {
    hide IsPrime, NoSmallFactor;
    RefusingFindsPrime(OddBelow(limit));
    if PrimeBetween(a, limit) {
      var p :| a < p <= limit && IsPrime(p);
      OddPrime(p);
      forall draw: Draws ensures SearchDown(OddBelow(limit), draw) > a {
        SearchFinds(OddBelow(limit), draw);
      }
    } else {
      var r := SearchDown(OddBelow(limit), Refusing(0));
      assert IsPrime(r);
    }
  }

  /** bdd_prime_lte for whatever rand() returns.  Above 32 bits only its results are described. */
  method PrimeBelow(limit: nat) returns (r: nat)
    requires limit >= 3
    ensures CanReturn(limit, r)
  {
    hide IsPrime, NoSmallFactor, SearchDown;
    if limit < 0x1_0000_0000 {
      var draw: Draws := *;
      r := PrimeLte(limit, draw);
      SearchReturns(limit, draw);
    } else {
      SearchReturns(limit, Refusing(0));
      r :| CanReturn(limit, r);
    }
  }

  // ---- the next size of the node table ----------------------------------------------

  /** Doubled, but by no more than maxincrease and up to no more than maxsize. */
  function Limit(oldsize: nat, maxsize: nat, maxincrease: nat): nat {
    var doubled := oldsize * 2;
    var increased := if doubled > oldsize + maxincrease then oldsize + maxincrease else doubled;
    if increased > maxsize && maxsize > 0 then maxsize else increased
  }

  /** At most twice the old size, at most maxincrease more, and at most maxsize if that is set. */
  predicate InBounds(oldsize: nat, maxsize: nat, maxincrease: nat, q: nat) {
    q <= 2 * oldsize && q <= oldsize + maxincrease && (maxsize > 0 ==> q <= maxsize)
  }

  lemma LimitIs(oldsize: nat, maxsize: nat, maxincrease: nat, q: nat)
    ensures InBounds(oldsize, maxsize, maxincrease, q) <==> q <= Limit(oldsize, maxsize, maxincrease)
  {
  }

  /** The sizes that bdd_noderesize can compute: odd, without small factors, in bounds, and with no odd prime
      between them and the bounds. */
  ghost predicate NewSize(oldsize: nat, maxsize: nat, maxincrease: nat, r: nat) {
    && r >= 3 && r % 2 == 1 && NoSmallFactor(r) && InBounds(oldsize, maxsize, maxincrease, r)
    && forall q: nat :: q > r && q % 2 == 1 && InBounds(oldsize, maxsize, maxincrease, q) ==> !IsPrime(q)
  }

  /** The table may grow and a prime lies between its size and the bounds. */
  ghost predicate CanGrow(size: nat, maxsize: nat, maxincrease: nat) {
    !(maxsize > 0 && size >= maxsize) && exists p: nat :: p > size && IsPrime(p) && InBounds(size, maxsize, maxincrease, p)
  }

  /** The table may grow and no prime lies between its size, included, and the bounds. */
  ghost predicate MayShrink(size: nat, maxsize: nat, maxincrease: nat) {
    !(maxsize > 0 && size >= maxsize) && forall p: nat :: p >= size && InBounds(size, maxsize, maxincrease, p) ==> !IsPrime(p)
  }

  lemma GrowIs(size: nat, maxsize: nat, maxincrease: nat)
    requires size > 0
    ensures CanGrow(size, maxsize, maxincrease) <==> !(maxsize > 0 && size >= maxsize) && PrimeBetween(size, Limit(size, maxsize, maxincrease))
    ensures MayShrink(size, maxsize, maxincrease) <==> !(maxsize > 0 && size >= maxsize) && !PrimeBetween(size - 1, Limit(size, maxsize, maxincrease))
  {
    hide IsPrime, Limit, InBounds;
    forall q: nat ensures InBounds(size, maxsize, maxincrease, q) <==> q <= Limit(size, maxsize, maxincrease) {
      LimitIs(size, maxsize, maxincrease, q);
    }
  }

  lemma NewSizeIs(oldsize: nat, maxsize: nat, maxincrease: nat, r: nat)
    ensures NewSize(oldsize, maxsize, maxincrease, r) <==> CanReturn(Limit(oldsize, maxsize, maxincrease), r)
  {
    hide IsPrime, Limit, InBounds, NoSmallFactor;
    forall q: nat ensures InBounds(oldsize, maxsize, maxincrease, q) <==> q <= Limit(oldsize, maxsize, maxincrease) {
      LimitIs(oldsize, maxsize, maxincrease, q);
    }
  }

  /** The size computed by bdd_noderesize: it is larger whatever rand() returns if and only if a
      prime lies between the old size and the bounds, and it can be smaller if and only if there is
      none from the old size on. */
  method NextSize(oldsize: nat, maxsize: nat, maxincrease: nat) returns (newsize: nat)
    requires oldsize >= 3 && (maxsize > 0 ==> oldsize < maxsize)
    ensures NewSize(oldsize, maxsize, maxincrease, newsize)
    ensures CanGrow(oldsize, maxsize, maxincrease) ==> newsize > oldsize
    ensures newsize < oldsize ==> MayShrink(oldsize, maxsize, maxincrease)
  {
    hide IsPrime, NoSmallFactor, CanGrow, MayShrink, NewSize, Limit;
    BoundsAtLeast(oldsize, maxsize, maxincrease);
    newsize := PrimeBelow(Limit(oldsize, maxsize, maxincrease));
    NewSizeIs(oldsize, maxsize, maxincrease, newsize);
    GrowIs(oldsize, maxsize, maxincrease);
    Returned(oldsize, Limit(oldsize, maxsize, maxincrease), newsize);
  }

  lemma NewSizeOdd(oldsize: nat, maxsize: nat, maxincrease: nat)
    ensures forall r {:trigger NewSize(oldsize, maxsize, maxincrease, r)} :: NewSize(oldsize, maxsize, maxincrease, r) ==> r >= 3 && InBounds(oldsize, maxsize, maxincrease, r)
  {
  }

  lemma NoneAtLimit(size: nat, maxsize: nat, maxincrease: nat)
    ensures maxsize > 0 && size >= maxsize ==> !CanGrow(size, maxsize, maxincrease) && !MayShrink(size, maxsize, maxincrease)
  {
  }

  lemma BoundsAtLeast(oldsize: nat, maxsize: nat, maxincrease: nat)
    requires oldsize >= 3 && (maxsize > 0 ==> oldsize < maxsize)
    ensures Limit(oldsize, maxsize, maxincrease) >= 3
  {
  }

  lemma Returned(oldsize: nat, limit: nat, newsize: nat)
    requires CanReturn(limit, newsize) && oldsize >= 3
    ensures PrimeBetween(oldsize, limit) ==> newsize > oldsize
    ensures PrimeBetween(oldsize - 1, limit) ==> newsize >= oldsize
  {
    forall p | IsPrime(p) && p >= 3 ensures p % 2 == 1 {
      OddPrime(p);
    }
  }

  /** A search that has not ended above the old size leaves no room to grow. */
  lemma NoGrowth(oldsize: nat, newsize: nat, maxsize: nat, maxincrease: nat)
    requires NewSize(oldsize, maxsize, maxincrease, newsize) && newsize <= oldsize
    ensures !CanGrow(newsize, maxsize, maxincrease)
  {
    forall p: nat | p > newsize && InBounds(newsize, maxsize, maxincrease, p) ensures !IsPrime(p) {
      if IsPrime(p) { OddPrime(p); }
    }
  }

  /** Growth and shrinking, over all values of rand(). */
  lemma GrowthIff(oldsize: nat, maxsize: nat, maxincrease: nat)
    requires oldsize >= 3 && (maxsize > 0 ==> oldsize < maxsize)
    ensures var start := OddBelow(Limit(oldsize, maxsize, maxincrease));
            && ((forall draw: Draws :: SearchDown(start, draw) > oldsize) <==> CanGrow(oldsize, maxsize, maxincrease))
            && ((exists draw: Draws :: SearchDown(start, draw) < oldsize) <==> MayShrink(oldsize, maxsize, maxincrease))
  {
    hide IsPrime, NoSmallFactor, SearchDown, PrimeBetween, CanGrow, MayShrink;
    GrowIs(oldsize, maxsize, maxincrease);
    SearchAbove(Limit(oldsize, maxsize, maxincrease), oldsize);
    SearchAbove(Limit(oldsize, maxsize, maxincrease), oldsize - 1);
  }

  /** One step above a prime the table keeps its size, whatever rand() returns. */
  lemma StuckAtPrime(oldsize: nat, draw: Draws)
    requires IsPrime(oldsize) && oldsize >= 3
    ensures Limit(oldsize, oldsize + 1, 50000) == oldsize + 1 == Limit(oldsize, 0, 1)
    ensures SearchDown(OddBelow(oldsize + 1), draw) == oldsize
  {
    hide IsPrime, NoSmallFactor;
    OddPrime(oldsize);
    SearchFinds(oldsize, draw);
  }
}
