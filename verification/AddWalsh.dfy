/** Diagrams of arithmetic functions: Cudd_addResidue for unsigned numbers, and Walsh matrices. */
module AddWalsh {
  import opened AddDiagram
  import opened AddDeciders
  import NumberTheory

  /** The variable of bit k, with the most or the least significant bit on top. */
  function BitIndex(n: nat, msbLsb: bool, top: nat, k: nat): nat
    requires k < n
  {
    if msbLsb then top + n - k - 1 else top + k
  }

  function Pow2(k: nat): nat { NumberTheory.Pow(2, k) }

  /** The number that the first k bits of an assignment spell. */
  function Spelled(n: nat, msbLsb: bool, top: nat, k: nat, env: Env): nat
    requires k <= n
  {
    if k == 0 then 0
    else Spelled(n, msbLsb, top, k - 1, env) + if BitIndex(n, msbLsb, top, k - 1) in env then Pow2(k - 1) else 0
  }

  /** The number whose n bits are the variables from v on, in this order: the first of them is the most or
      the least significant one. */
  ghost function Number(env: Env, v: nat, n: nat, msbFirst: bool): nat
    decreases n
  {
    if n == 0 then 0
    else if msbFirst then (if v in env then NumberTheory.Pow(2, n - 1) else 0) + Number(env, v + 1, n - 1, true)
    else (if v in env then 1 else 0) + 2 * Number(env, v + 1, n - 1, false)
  }

  lemma {:induction false} LastBit(env: Env, v: nat, n: nat)
    ensures Number(env, v, n + 1, false) == Number(env, v, n, false) + if v + n in env then Pow2(n) else 0
    decreases n
  {
    if n > 0 { LastBit(env, v + 1, n - 1); }
  }

  lemma {:induction false} SpelledIsNumber(n: nat, msbLsb: bool, top: nat, k: nat, env: Env)
    requires k <= n
    ensures Spelled(n, msbLsb, top, k, env) == Number(env, if msbLsb then top + n - k else top, k, msbLsb)
  {
    if k > 0 {
      SpelledIsNumber(n, msbLsb, top, k - 1, env);
      LastBit(env, top, k - 1);
    }
  }

  /** The weight of a single variable. */
  lemma {:induction false} Weight(v: nat, n: nat, msbFirst: bool, j: nat)
    requires j < n
    ensures Number({v + j}, v, n, msbFirst) == NumberTheory.Pow(2, if msbFirst then n - 1 - j else j)
    decreases n
  {
    if j > 0 {
      Weight(v + 1, n - 1, msbFirst, j - 1);
      assert v + 1 + (j - 1) == v + j;
    } else {
      NoBits({v}, v + 1, n - 1, msbFirst);
    }
  }

  lemma {:induction false} NoBits(env: Env, v: nat, n: nat, msbFirst: bool)
    requires forall j :: v <= j < v + n ==> j !in env
    ensures Number(env, v, n, msbFirst) == 0
    decreases n
  {
    if n > 0 { NoBits(env, v + 1, n - 1, msbFirst); }
  }

  /** Entry i of the layer over the first k bits. */
  ghost predicate Denotes(perm: seq<nat>, d: Add, n: nat, m: nat, msbLsb: bool, top: nat, k: nat, i: nat)
    requires k <= n && m > 0
  {
    Good(perm, d) && forall env :: Eval(d, env) == Fin(((i + Spelled(n, msbLsb, top, k, env)) % m) as real)
  }

  lemma ConstantLayer(perm: seq<nat>, n: nat, m: nat, msbLsb: bool, top: nat, i: nat)
    requires i < m
    ensures Denotes(perm, Leaf(Fin(i as real)), n, m, msbLsb, top, 0, i)
  {
    NumberTheory.Quotient(i, m, 0, i);
  }

  /** Adding in two steps modulo m. */
  lemma Offset(i: nat, r: nat, p: nat, s: nat, m: nat)
    requires m > 0 && r % m == p % m
    ensures ((i + r) % m + s) % m == (i + (s + p)) % m
  {
    var k := NumberTheory.SameMod(p, r, m);
    var u := (i + r) / m;
    assert i + r == m * u + (i + r) % m;
    OffsetSum((i + r) % m + s, m, u, k, i + (s + p));
  }

  lemma OffsetSum(x: nat, m: nat, u: int, k: int, y: nat)
    requires m > 0 && y == x + m * u + m * k
    ensures x % m == y % m
  {
    assert m * u + m * k == m * (u + k);
    NumberTheory.ModSum(x, u + k, m);
  }

  /** r is congruent to 2^k. */
  predicate Congruent(r: nat, k: nat, m: nat)
    requires m > 0
  {
    r % m == Pow2(k) % m
  }

  lemma NextResidue(k: nat, r: nat, m: nat)
    requires m > 0 && Congruent(r, k, m)
    ensures 0 <= 2 * r % m < m && Congruent(2 * r % m, k + 1, m)
  {
    NumberTheory.ModMulLeft(Pow2(k), 2, m);
    NumberTheory.ModMulLeft(r, 2, m);
    NumberTheory.Quotient(2 * r % m, m, 0, 2 * r % m);
  }

  /** The projection function of variable i. */
  function Variable(i: nat): Add { Node(i, ONE, ZERO) }

  lemma VariableFacts(perm: seq<nat>, i: nat)
    requires PermOk(perm) && i < |perm|
    ensures Good(perm, Variable(i)) && ZeroOne(Variable(i)) && forall env :: On(Variable(i), env) <==> i in env
  {
    forall env ensures On(Variable(i), env) <==> i in env {
      assert Eval(Variable(i), env) == if i in env then ONE.v else ZERO.v;
    }
  }

  lemma SpelledStep(n: nat, msbLsb: bool, top: nat, k: nat, env: Env)
    requires k < n
    ensures Spelled(n, msbLsb, top, k + 1, env) == Spelled(n, msbLsb, top, k, env) + if BitIndex(n, msbLsb, top, k) in env then Pow2(k) else 0
  {
  }

  /** One more bit. */
  lemma NextLayer(perm: seq<nat>, d: Add, d1: Add, d0: Add, n: nat, m: nat, msbLsb: bool, top: nat, k: nat, i: nat, r: nat)
    requires PermOk(perm) && k < n && i < m && Congruent(r, k, m) && BitIndex(n, msbLsb, top, k) < |perm|
    requires Denotes(perm, d1, n, m, msbLsb, top, k, (i + r) % m) && Denotes(perm, d0, n, m, msbLsb, top, k, i)
    requires IsIte(perm, d, Variable(BitIndex(n, msbLsb, top, k)), d1, d0)
    ensures Denotes(perm, d, n, m, msbLsb, top, k + 1, i)
  {
    hide BitIndex, Eval, Good, On, Variable, Pow2, Spelled, PermOk;
    var x := BitIndex(n, msbLsb, top, k);
    VariableFacts(perm, x);
    forall env ensures Eval(d, env) == Fin(((i + Spelled(n, msbLsb, top, k + 1, env)) % m) as real) {
      var s := Spelled(n, msbLsb, top, k, env);
      SpelledStep(n, msbLsb, top, k, env);
      assert Eval(d, env) == IteVal(Variable(x), d1, d0, env);
      var e := if x in env then ((i + r) % m + s) % m else (i + s) % m;
      assert Eval(d, env) == Fin(e as real);
      NextEntry(i, r, Pow2(k), s, m, x in env);
    }
  }

  lemma NextEntry(i: nat, r: nat, p: nat, s: nat, m: nat, one: bool)
    requires m > 0 && r % m == p % m
    ensures (if one then ((i + r) % m + s) % m else (i + s) % m) == (i + (s + if one then p else 0)) % m
  {
    if one { Offset(i, r, p, s, m); }
  }

  datatype Pointer = Null | Dd(node: Add)

  /** Cudd_addResidue: the result evaluates to the number modulo m.  The two working arrays take
      turns; moduli up to 2^30 keep all sums within the 32-bit integers. */
  method AddResidue(dd: Manager, n: nat, m: nat, msbLsb: bool, top: nat) returns (res: Pointer)
    requires dd.Valid() && 1 <= m <= 0x4000_0000 && top + n <= |dd.perm|
    modifies dd`cache
    ensures dd.Valid() && (res == Null <==> n < 1 && m < 2)
    ensures res.Dd? ==> Good(dd.perm, res.node)
    ensures res.Dd? ==> forall env :: Eval(res.node, env) == Fin((Number(env, top, n, msbLsb) % m) as real)
  {
    hide Eval, Good, Spelled, Number, Denotes, Pow2, CacheRight, LeqRight, PermOk, IsIte, Variable, Congruent;
    if n < 1 && m < 2 {
      return Null;
    }
    var a := new Add[2, m];
    var i := 0;
    while i < m
      invariant 0 <= i <= m && dd.Valid()
      invariant Filled(dd.perm, a, 1, i, n, m, msbLsb, top, 0)
    {
      ConstantLayer(dd.perm, n, m, msbLsb, top, i);
      a[1, i] := Leaf(Fin(i as real));
      i := i + 1;
    }
    var residue: nat := 1;
    var k := 0;
    FirstResidue(m);
    while k < n
      invariant 0 <= k <= n && dd.Valid() && Congruent(residue, k, m) && residue <= m
      invariant Filled(dd.perm, a, (k + 1) % 2, m, n, m, msbLsb, top, k)
    {
      Layer(dd, a, n, m, msbLsb, top, k, residue);
      NextResidue(k, residue, m);
      residue := 2 * residue % m;
      k := k + 1;
    }
    LastLayer(dd.perm, a[(n + 1) % 2, 0], n, m, msbLsb, top);
    return Dd(a[(n + 1) % 2, 0]);
  }

  /** The first entries of one of the two arrays denote the layer over k bits. */
  ghost predicate Filled(perm: seq<nat>, a: array2<Add>, row: nat, count: nat, n: nat, m: nat, msbLsb: bool, top: nat, k: nat)
    requires k <= n && m > 0
    reads a
  {
    && a.Length0 == 2 && a.Length1 == m && row < 2 && count <= m
    && forall j :: 0 <= j < count ==> Denotes(perm, a[row, j], n, m, msbLsb, top, k, j)
  }

  lemma FirstResidue(m: nat)
    requires m > 0
    ensures Congruent(1, 0, m)
  {
  }

  lemma LastLayer(perm: seq<nat>, d: Add, n: nat, m: nat, msbLsb: bool, top: nat)
    requires m > 0 && Denotes(perm, d, n, m, msbLsb, top, n, 0)
    ensures Good(perm, d) && forall env :: Eval(d, env) == Fin((Number(env, top, n, msbLsb) % m) as real)
  {
    hide Eval, Good, Spelled, Number;
    forall env ensures Eval(d, env) == Fin((Number(env, top, n, msbLsb) % m) as real) {
      SpelledIsNumber(n, msbLsb, top, n, env);
    }
  }

  /** One round of the main iteration. */
  method Layer(dd: Manager, a: array2<Add>, n: nat, m: nat, msbLsb: bool, top: nat, k: nat, residue: nat)
    requires dd.Valid() && 1 <= m <= 0x4000_0000 && k < n && top + n <= |dd.perm| && Congruent(residue, k, m) && residue <= m
    requires Filled(dd.perm, a, (k + 1) % 2, m, n, m, msbLsb, top, k)
    modifies dd`cache, a
    ensures dd.Valid() && Filled(dd.perm, a, k % 2, m, n, m, msbLsb, top, k + 1)
  {
    hide Eval, Good, Spelled, Denotes, Pow2, CacheRight, LeqRight, PermOk, IsIte, Variable, Congruent;
    var thisOne := k % 2;
    var previous := 1 - thisOne;
    assert previous == (k + 1) % 2;
    var index := BitIndex(n, msbLsb, top, k);
    var v := Variable(index);
    VariableFacts(dd.perm, index);
    var i := 0;
    while i < m
      invariant 0 <= i <= m && dd.Valid()
      invariant Filled(dd.perm, a, previous, m, n, m, msbLsb, top, k)
      invariant Filled(dd.perm, a, thisOne, i, n, m, msbLsb, top, k + 1)
    {
      assert i + residue < 0x8000_0000;
      var t := (i + residue) % m;
      DenotesGood(dd.perm, a[previous, t], n, m, msbLsb, top, k, t);
      DenotesGood(dd.perm, a[previous, i], n, m, msbLsb, top, k, i);
      var tmp := dd.IteRecur(v, a[previous, t], a[previous, i]);
      NextLayer(dd.perm, tmp, a[previous, t], a[previous, i], n, m, msbLsb, top, k, i, residue);
      a[thisOne, i] := tmp;
      i := i + 1;
    }
  }

  lemma DenotesGood(perm: seq<nat>, d: Add, n: nat, m: nat, msbLsb: bool, top: nat, k: nat, i: nat)
    requires k <= n && m > 0 && Denotes(perm, d, n, m, msbLsb, top, k, i)
    ensures Good(perm, d)
  {
  }

  // ---- Walsh matrices ---------------------------------------------------------------

  const MINUSONE: Add := Leaf(Fin(-1.0))

  /** The parity of the positions from i on where both the row and the column have a one. */
  predicate Odd(x: seq<Add>, y: seq<Add>, i: nat, env: Env)
    requires i <= |x| == |y|
    decreases |x| - i
  {
    i < |x| && (On(x[i], env) && On(y[i], env)) != Odd(x, y, i + 1, env)
  }

  /** The matrix over the positions from i on, or its negative. */
  ghost predicate IsWalsh(perm: seq<nat>, d: Add, x: seq<Add>, y: seq<Add>, i: nat, negative: bool)
    requires i <= |x| == |y|
  {
    Good(perm, d) && forall env :: Eval(d, env) == if Odd(x, y, i, env) != negative then Fin(-1.0) else Fin(1.0)
  }

  lemma WalshLayer(perm: seq<nat>, u: Add, v: Add, u1: Add, t1: Add, x: seq<Add>, y: seq<Add>, i: nat, negative: bool)
    requires |x| == |y| && i < |x| && IsIte(perm, v, y[i], t1, u1) && IsIte(perm, u, x[i], v, u1)
    requires IsWalsh(perm, u1, x, y, i + 1, negative) && IsWalsh(perm, t1, x, y, i + 1, !negative)
    ensures IsWalsh(perm, u, x, y, i, negative)
  {
    hide Good, On, Eval;
    forall env ensures Eval(u, env) == if Odd(x, y, i, env) != negative then Fin(-1.0) else Fin(1.0) {
      assert Eval(u, env) == IteVal(x[i], v, u1, env) && Eval(v, env) == IteVal(y[i], t1, u1, env);
    }
  }

  lemma WalshConstants(perm: seq<nat>, x: seq<Add>, y: seq<Add>)
    requires |x| == |y|
    ensures IsWalsh(perm, ONE, x, y, |x|, false) && IsWalsh(perm, MINUSONE, x, y, |x|, true)
  {
  }

  lemma WalshGood(perm: seq<nat>, d: Add, x: seq<Add>, y: seq<Add>, i: nat, negative: bool)
    requires i <= |x| == |y| && IsWalsh(perm, d, x, y, i, negative)
    ensures Good(perm, d)
  {
  }

  /** addWalshInt: the entry at row x and column y is minus one to the number of common ones. */
  method WalshInt(dd: Manager, x: seq<Add>, y: seq<Add>) returns (u: Add)
    requires dd.Valid() && |x| == |y|
    requires forall i :: 0 <= i < |x| ==> Good(dd.perm, x[i]) && Good(dd.perm, y[i]) && ZeroOne(x[i]) && ZeroOne(y[i])
    modifies dd`cache
    ensures dd.Valid() && IsWalsh(dd.perm, u, x, y, 0, false)
  {
    hide IsWalsh, Good, ZeroOne, CacheRight, LeqRight, PermOk, IsIte;
    var n := |x|;
    WalshConstants(dd.perm, x, y);
    if n == 0 {
      return ONE;
    }
    var t := MINUSONE;
    u, t := WalshStep(dd, x, y, n - 1, ONE, MINUSONE, n > 1);
    var i := n - 2;
    while i >= 0
      invariant -1 <= i <= n - 2 && dd.Valid()
      invariant IsWalsh(dd.perm, u, x, y, i + 1, false) && (i >= 0 ==> IsWalsh(dd.perm, t, x, y, i + 1, true))
    {
      u, t := WalshStep(dd, x, y, i, u, t, i > 0);
      i := i - 1;
    }
  }

  /** One round; the negative is only built while another round follows. */
  method WalshStep(dd: Manager, x: seq<Add>, y: seq<Add>, i: nat, u1: Add, t1: Add, more: bool) returns (u: Add, t: Add)
    requires dd.Valid() && |x| == |y| && i < |x|
    requires Good(dd.perm, x[i]) && Good(dd.perm, y[i]) && ZeroOne(x[i]) && ZeroOne(y[i])
    requires IsWalsh(dd.perm, u1, x, y, i + 1, false) && IsWalsh(dd.perm, t1, x, y, i + 1, true)
    modifies dd`cache
    ensures dd.Valid() && IsWalsh(dd.perm, u, x, y, i, false) && (more ==> IsWalsh(dd.perm, t, x, y, i, true))
  {
    hide IsWalsh, Good, ZeroOne, CacheRight, LeqRight, PermOk, IsIte;
    WalshGood(dd.perm, u1, x, y, i + 1, false);
    WalshGood(dd.perm, t1, x, y, i + 1, true);
    var v := dd.IteRecur(y[i], t1, u1);
    IteGood(dd.perm, v, y[i], t1, u1);
    u := dd.IteRecur(x[i], v, u1);
    WalshLayer(dd.perm, u, v, u1, t1, x, y, i, false);
    t := t1;
    if more {
      var w := dd.IteRecur(y[i], u1, t1);
      IteGood(dd.perm, w, y[i], u1, t1);
      t := dd.IteRecur(x[i], w, t1);
      WalshLayer(dd.perm, t, w, t1, u1, x, y, i, true);
    }
  }

  lemma IteGood(perm: seq<nat>, r: Add, f: Add, g: Add, h: Add)
    requires IsIte(perm, r, f, g, h)
    ensures Good(perm, r)
  {
  }
}
