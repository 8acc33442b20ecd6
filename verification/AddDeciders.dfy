/** The if-then-else of ADDs and the deciders that build no nodes: Cudd_addIteConstant,
    Cudd_addEvalConst and Cudd_addLeq, over an operation cache that may forget. */
module AddDeciders {
  import opened AddDiagram

  function IteVal(f: Add, g: Add, h: Add, env: Env): Num { if On(f, env) then Eval(g, env) else Eval(h, env) }

  /** The pointer returned by a decider: DD_NON_CONSTANT or a node. */
  datatype Verdict = NonConstant | Result(node: Add)

  ghost predicate IsIte(perm: seq<nat>, r: Add, f: Add, g: Add, h: Add) {
    Good(perm, r) && forall env :: Eval(r, env) == IteVal(f, g, h, env)
  }

  ghost predicate IteVaries(f: Add, g: Add, h: Add) {
    exists e1, e2 :: IteVal(f, g, h, e1) != IteVal(f, g, h, e2)
  }

  /** A verdict on ITE(f, g, h): its canonical diagram, or that it is not constant. */
  ghost predicate IteExact(perm: seq<nat>, r: Verdict, f: Add, g: Add, h: Add) {
    if r.Result? then IsIte(perm, r.node, f, g, h) else IteVaries(f, g, h)
  }

  ghost predicate VariesOn(f: Add, g: Add) {
    exists e1, e2 :: On(f, e1) && On(f, e2) && Eval(g, e1) != Eval(g, e2)
  }

  ghost predicate AgreesOn(f: Add, g: Add, r: Add) {
    forall env :: On(f, env) ==> Eval(r, env) == Eval(g, env)
  }

  /** A verdict on g where f is one: a diagram that agrees with g there, a constant exactly if g is
      constant there, or that g is not constant there. */
  ghost predicate EvalExact(r: Verdict, f: Add, g: Add) {
    && (r.Result? ==> AgreesOn(f, g, r.node))
    && (r.NonConstant? || r.node.Node? ==> VariesOn(f, g))
  }

  ghost predicate LeqExact(b: bool, f: Add, g: Add) {
    b <==> forall env :: AtMost(Eval(f, env), Eval(g, env))
  }

  // ---- what the verdicts mean -------------------------------------------------------

  /** Cudd_addIteConstant returns the constant c if and only if ITE(f, g, h) is identically c. */
  lemma IteConstantIff(perm: seq<nat>, r: Verdict, f: Add, g: Add, h: Add, c: Num)
    requires PermOk(perm) && IteExact(perm, r, f, g, h)
    ensures r == Result(Leaf(c)) <==> forall env :: IteVal(f, g, h, env) == c
  {
    if r.Result? && r.node.Node? {
      var e1, e2 := Varying(perm, r.node);
      assert IteVal(f, g, h, e1) != IteVal(f, g, h, e2);
    } else if r.Result? {
      assert Eval(r.node, {}) == IteVal(f, g, h, {});
    }
  }

  /** Cudd_addEvalConst returns the constant c if and only if g is c wherever f is one, f not being zero. */
  lemma EvalConstIff(perm: seq<nat>, r: Verdict, f: Add, g: Add, c: Num)
    requires PermOk(perm) && Good(perm, f) && ZeroOne(f) && f != ZERO && EvalExact(r, f, g)
    ensures r == Result(Leaf(c)) <==> forall env :: On(f, env) ==> Eval(g, env) == c
  {
    var e := Satisfiable(perm, f);
    if r.Result? && r.node.Leaf? {
      assert Eval(r.node, e) == Eval(g, e);
    }
  }

  // ---- cofactors of the three questions ---------------------------------------------

  lemma IteCofactor(perm: seq<nat>, f: Add, g: Add, h: Add, i: nat, b: bool, env: Env)
    requires PermOk(perm) && Good(perm, f) && Good(perm, g) && Good(perm, h) && i < |perm|
    requires perm[i] <= Level(perm, f) && perm[i] <= Level(perm, g) && perm[i] <= Level(perm, h)
    ensures IteVal(Cofactor(f, i, b), Cofactor(g, i, b), Cofactor(h, i, b), env) == IteVal(f, g, h, With(env, i, b))
    ensures (i in env) == b ==> IteVal(Cofactor(f, i, b), Cofactor(g, i, b), Cofactor(h, i, b), env) == IteVal(f, g, h, env)
  {
    hide Eval, Good, Cofactor;
    CofactorEval(perm, f, i, b, env);
    CofactorEval(perm, g, i, b, env);
    CofactorEval(perm, h, i, b, env);
  }

  lemma {:induction false} CofactorZeroOne(f: Add, i: nat, b: bool)
    requires ZeroOne(f)
    ensures ZeroOne(Cofactor(f, i, b))
  {
  }

  /** addVarToConst changes no value. */
  lemma VarToConst(f: Add, g: Add, h: Add)
    requires ZeroOne(f)
    ensures forall env :: IteVal(f, if f == g then ONE else g, if f == h then ZERO else h, env) == IteVal(f, g, h, env)
  {
    forall env ensures IteVal(f, if f == g then ONE else g, if f == h then ZERO else h, env) == IteVal(f, g, h, env) {
      ZeroOneEval(f, env);
    }
  }

  /** A cofactor that varies makes the whole vary. */
  lemma CofactorVaries(perm: seq<nat>, f: Add, g: Add, h: Add, i: nat, b: bool)
    requires PermOk(perm) && Good(perm, f) && Good(perm, g) && Good(perm, h) && i < |perm|
    requires perm[i] <= Level(perm, f) && perm[i] <= Level(perm, g) && perm[i] <= Level(perm, h)
    requires IteVaries(Cofactor(f, i, b), Cofactor(g, i, b), Cofactor(h, i, b))
    ensures IteVaries(f, g, h)
  {
    hide Good, Cofactor, IteVal;
    var e1, e2 :| IteVal(Cofactor(f, i, b), Cofactor(g, i, b), Cofactor(h, i, b), e1) != IteVal(Cofactor(f, i, b), Cofactor(g, i, b), Cofactor(h, i, b), e2);
    IteCofactor(perm, f, g, h, i, b, e1);
    IteCofactor(perm, f, g, h, i, b, e2);
    assert IteVal(f, g, h, With(e1, i, b)) != IteVal(f, g, h, With(e2, i, b));
  }

  /** A diagram that is no constant node varies. */
  lemma NodeVaries(perm: seq<nat>, r: Add, f: Add, g: Add, h: Add)
    requires PermOk(perm) && r.Node? && IsIte(perm, r, f, g, h)
    ensures IteVaries(f, g, h)
  {
    var e1, e2 := Varying(perm, r);
    assert IteVal(f, g, h, e1) != IteVal(f, g, h, e2);
  }

  /** Different constant cofactors make the whole vary; equal ones are its value. */
  lemma ConstantCofactors(perm: seq<nat>, f: Add, g: Add, h: Add, i: nat, t: Add, e: Add)
    requires PermOk(perm) && Good(perm, f) && Good(perm, g) && Good(perm, h) && i < |perm| && t.Leaf? && e.Leaf?
    requires perm[i] <= Level(perm, f) && perm[i] <= Level(perm, g) && perm[i] <= Level(perm, h)
    requires IsIte(perm, t, Cofactor(f, i, true), Cofactor(g, i, true), Cofactor(h, i, true))
    requires IsIte(perm, e, Cofactor(f, i, false), Cofactor(g, i, false), Cofactor(h, i, false))
    ensures if t == e then IsIte(perm, t, f, g, h) else IteVaries(f, g, h)
  {
    hide Cofactor, IteVal;
    if t == e {
      forall env ensures Eval(t, env) == IteVal(f, g, h, env) {
        IteCofactor(perm, f, g, h, i, i in env, env);
      }
    } else {
      var none: Env := {};
      IteCofactor(perm, f, g, h, i, true, none);
      IteCofactor(perm, f, g, h, i, false, none);
      assert Eval(t, none) != Eval(e, none);
      assert IteVal(f, g, h, With(none, i, true)) != IteVal(f, g, h, With(none, i, false));
    }
  }

  lemma JoinIte(perm: seq<nat>, f: Add, g: Add, h: Add, i: nat, t: Add, e: Add)
    requires PermOk(perm) && Good(perm, f) && Good(perm, g) && Good(perm, h) && i < |perm|
    requires perm[i] <= Level(perm, f) && perm[i] <= Level(perm, g) && perm[i] <= Level(perm, h)
    requires perm[i] < Level(perm, t) && perm[i] < Level(perm, e)
    requires IsIte(perm, t, Cofactor(f, i, true), Cofactor(g, i, true), Cofactor(h, i, true))
    requires IsIte(perm, e, Cofactor(f, i, false), Cofactor(g, i, false), Cofactor(h, i, false))
    ensures IsIte(perm, Join(i, t, e), f, g, h) && Level(perm, Join(i, t, e)) >= perm[i]
  {
    hide Cofactor, IteVal, Join;
    JoinFacts(perm, i, t, e);
    forall env ensures Eval(Join(i, t, e), env) == IteVal(f, g, h, env) {
      IteCofactor(perm, f, g, h, i, i in env, env);
    }
  }

  // ---- cofactors of addEvalConst and addLeq -----------------------------------------

  lemma OnCofactor(perm: seq<nat>, f: Add, g: Add, i: nat, b: bool, env: Env)
    requires PermOk(perm) && Good(perm, f) && Good(perm, g) && i < |perm| && perm[i] <= Level(perm, f) && perm[i] <= Level(perm, g)
    ensures On(Cofactor(f, i, b), env) == On(f, With(env, i, b)) && Eval(Cofactor(g, i, b), env) == Eval(g, With(env, i, b))
    ensures (i in env) == b ==> On(Cofactor(f, i, b), env) == On(f, env) && Eval(Cofactor(g, i, b), env) == Eval(g, env)
  {
    hide Eval, Good, Cofactor;
    CofactorEval(perm, f, i, b, env);
    CofactorEval(perm, g, i, b, env);
  }

  /** If g varies where one cofactor of f is one, it varies where f is one. */
  lemma OneSideVaries(perm: seq<nat>, f: Add, g: Add, i: nat, b: bool)
    requires PermOk(perm) && Good(perm, f) && Good(perm, g) && i < |perm| && perm[i] <= Level(perm, f) && perm[i] <= Level(perm, g)
    requires VariesOn(Cofactor(f, i, b), Cofactor(g, i, b))
    ensures VariesOn(f, g)
  {
    hide Eval, Good, Cofactor, On;
    var e1, e2 :| On(Cofactor(f, i, b), e1) && On(Cofactor(f, i, b), e2) && Eval(Cofactor(g, i, b), e1) != Eval(Cofactor(g, i, b), e2);
    OnCofactor(perm, f, g, i, b, e1);
    OnCofactor(perm, f, g, i, b, e2);
    assert On(f, With(e1, i, b)) && On(f, With(e2, i, b));
  }

  /** With one cofactor of f zero the verdict is that of the other side. */
  lemma OneSide(perm: seq<nat>, f: Add, g: Add, i: nat, b: bool, r: Verdict)
    requires PermOk(perm) && Good(perm, f) && Good(perm, g) && i < |perm| && perm[i] <= Level(perm, f) && perm[i] <= Level(perm, g)
    requires Cofactor(f, i, !b) == ZERO && EvalExact(r, Cofactor(f, i, b), Cofactor(g, i, b))
    ensures EvalExact(r, f, g)
  {
    hide Good, Cofactor, On, VariesOn;
    if r.Result? {
      forall env | On(f, env) ensures Eval(r.node, env) == Eval(g, env) {
        OnCofactor(perm, f, g, i, i in env, env);
        ZeroIsOff(env);
      }
    }
    if r.NonConstant? || r.node.Node? {
      OneSideVaries(perm, f, g, i, b);
    }
  }

  lemma ZeroIsOff(env: Env)
    ensures !On(ZERO, env)
  {
  }

  /** Constant verdicts on both sides. */
  lemma BothSides(perm: seq<nat>, f: Add, g: Add, i: nat, t: Add, e: Add)
    requires PermOk(perm) && Good(perm, f) && Good(perm, g) && i < |perm| && perm[i] <= Level(perm, f) && perm[i] <= Level(perm, g)
    requires ZeroOne(f) && Cofactor(f, i, true) != ZERO && Cofactor(f, i, false) != ZERO && t.Leaf? && e.Leaf?
    requires AgreesOn(Cofactor(f, i, true), Cofactor(g, i, true), t) && AgreesOn(Cofactor(f, i, false), Cofactor(g, i, false), e)
    ensures if t == e then AgreesOn(f, g, t) else VariesOn(f, g)
  {
    hide Good, Cofactor, On;
    if t == e {
      forall env | On(f, env) ensures Eval(t, env) == Eval(g, env) {
        OnCofactor(perm, f, g, i, i in env, env);
      }
    } else {
      SideOn(perm, f, g, i, true, t);
      SideOn(perm, f, g, i, false, e);
    }
  }

  /** Each side of f that is not zero shows the constant found there. */
  lemma SideOn(perm: seq<nat>, f: Add, g: Add, i: nat, b: bool, t: Add)
    requires PermOk(perm) && Good(perm, f) && Good(perm, g) && i < |perm| && perm[i] <= Level(perm, f) && perm[i] <= Level(perm, g)
    requires ZeroOne(f) && Cofactor(f, i, b) != ZERO && t.Leaf? && AgreesOn(Cofactor(f, i, b), Cofactor(g, i, b), t)
    ensures exists e1 :: On(f, e1) && Eval(g, e1) == t.v
  {
    CofactorFacts(perm, f, i, b);
    CofactorZeroOne(f, i, b);
    var x := Satisfiable(perm, Cofactor(f, i, b));
    OnCofactor(perm, f, g, i, b, x);
    assert On(f, With(x, i, b));
  }

  lemma LeqCofactors(perm: seq<nat>, f: Add, g: Add, i: nat, x: bool, y: bool)
    requires PermOk(perm) && Good(perm, f) && Good(perm, g) && i < |perm| && perm[i] <= Level(perm, f) && perm[i] <= Level(perm, g)
    requires LeqExact(x, Cofactor(f, i, false), Cofactor(g, i, false))
    requires x ==> LeqExact(y, Cofactor(f, i, true), Cofactor(g, i, true))
    ensures LeqExact(x && y, f, g)
  {
    hide Good, Cofactor, Eval, AtMost;
    if x && y {
      forall env ensures AtMost(Eval(f, env), Eval(g, env)) {
        CofactorEval(perm, f, i, i in env, env);
        CofactorEval(perm, g, i, i in env, env);
      }
    } else {
      var b := x;
      var e :| !AtMost(Eval(Cofactor(f, i, b), e), Eval(Cofactor(g, i, b), e));
      CofactorEval(perm, f, i, b, e);
      CofactorEval(perm, g, i, b, e);
      assert !AtMost(Eval(f, With(e, i, b)), Eval(g, With(e, i, b)));
    }
  }

  /** The terminal cases of addLeq. */
  lemma LeqTerminal(perm: seq<nat>, f: Add, g: Add)
    requires PermOk(perm) && Good(perm, f) && Good(perm, g) && f != g
    ensures f.Leaf? && g.Leaf? ==> LeqExact(Le(f.v, g.v), f, g)
    ensures f == Leaf(MinusInf) || g == Leaf(PlusInf) ==> LeqExact(true, f, g)
    ensures f == Leaf(PlusInf) || g == Leaf(MinusInf) ==> LeqExact(false, f, g)
  {
    if f.Leaf? && g.Leaf? {
      assert Eval(f, {}) == f.v && Eval(g, {}) == g.v;
    }
    if f == Leaf(PlusInf) || g == Leaf(MinusInf) {
      var env := Distinguish(perm, f, g);
      assert !AtMost(Eval(f, env), Eval(g, env));
    }
  }

  lemma LeqSame(f: Add)
    ensures LeqExact(true, f, f)
  {
  }

  // ---- the operations ---------------------------------------------------------------

  datatype Key = IteKey(f: Add, g: Add, h: Add) | IteConstantKey(f: Add, g: Add, h: Add)
               | EvalConstTag(f: Add, g: Add, again: Add) | EvalConstKey(f: Add, g: Add)

  ghost predicate IsIteBelow(perm: seq<nat>, r: Verdict, f: Add, g: Add, h: Add) {
    && r.Result? && IsIte(perm, r.node, f, g, h)
    && Level(perm, r.node) >= Min(Level(perm, f), Min(Level(perm, g), Level(perm, h)))
  }

  function Min(a: nat, b: nat): nat { if a <= b then a else b }

  ghost predicate Right(perm: seq<nat>, k: Key, r: Verdict) {
    match k
    case IteKey(f, g, h) => IsIteBelow(perm, r, f, g, h)
    case IteConstantKey(f, g, h) => IteExact(perm, r, f, g, h)
    case EvalConstTag(f, g, _) => EvalExact(r, f, g)
    case EvalConstKey(f, g) => EvalExact(r, f, g)
  }

  ghost predicate CacheRight(perm: seq<nat>, cache: map<Key, Verdict>) {
    forall k :: k in cache ==> Right(perm, k, cache[k])
  }

  ghost predicate LeqRight(cache: map<(Add, Add), bool>) {
    forall k :: k in cache ==> LeqExact(cache[k], k.0, k.1)
  }

  /** The topmost variable of three diagrams. */
  lemma Top(perm: seq<nat>, f: Add, g: Add, h: Add) returns (i: nat)
    requires PermOk(perm) && Good(perm, f) && Good(perm, g) && Good(perm, h) && (f.Node? || g.Node? || h.Node?)
    ensures i < |perm| && perm[i] == Min(Level(perm, f), Min(Level(perm, g), Level(perm, h)))
    ensures (Level(perm, f) == perm[i] <==> f.Node? && f.index == i) && (Level(perm, g) == perm[i] <==> g.Node? && g.index == i)
    ensures Level(perm, h) == perm[i] <==> h.Node? && h.index == i
  {
    var d := if Level(perm, f) <= Level(perm, g) && Level(perm, f) <= Level(perm, h) then f else if Level(perm, g) <= Level(perm, h) then g else h;
    i := d.index;
  }

  class Manager {
    const perm: seq<nat>
    const background: Add
    var cache: map<Key, Verdict>
    var leqCache: map<(Add, Add), bool>

    constructor (perm: seq<nat>, background: Add)
      requires PermOk(perm) && background.Leaf?
      ensures this.perm == perm && this.background == background && Valid()
    {
      this.perm, this.background, cache, leqCache := perm, background, map[], map[];
    }

    ghost predicate Valid()
      reads this
    {
      PermOk(perm) && background.Leaf? && CacheRight(perm, cache) && LeqRight(leqCache)
    }

    /** cuddCacheLookup and cuddConstantLookup, which may miss. */
    method Lookup(k: Key) returns (hit: bool, r: Verdict)
      requires Valid()
      ensures hit ==> Right(perm, k, r)
    {
      var ask: bool := *;
      hit, r := false, NonConstant;
      if ask && k in cache {
        hit, r := true, cache[k];
      }
    }

    /** cuddCacheInsert, which may drop other entries. */
    method Insert(k: Key, r: Verdict)
      requires Valid() && Right(perm, k, r)
      modifies this`cache
      ensures Valid()
    {
      hide Right, PermOk, LeqRight;
      var kept: set<Key> := *;
      cache := map x | x in cache && x in kept :: cache[x];
      cache := cache[k := r];
    }

    /** addVarToConst */
    method AddVarToConst(f: Add, g0: Add, h0: Add) returns (g: Add, h: Add)
      ensures g == (if f == g0 then ONE else g0) && h == if f == h0 then ZERO else h0
    {
      g, h := g0, h0;
      if f == g {
        g := ONE;
      }
      if f == h0 {
        h := ZERO;
      }
    }

    /** The cofactors of the three operands by the topmost variable v. */
    method Cofactors(f: Add, g: Add, h: Add) returns (index: nat, Fv: Add, Fnv: Add, Gv: Add, Gnv: Add, Hv: Add, Hnv: Add)
      requires PermOk(perm) && Good(perm, f) && Good(perm, g) && Good(perm, h) && f.Node?
      ensures index < |perm| && perm[index] == Min(Level(perm, f), Min(Level(perm, g), Level(perm, h)))
      ensures Fv == Cofactor(f, index, true) && Fnv == Cofactor(f, index, false) && Gv == Cofactor(g, index, true)
      ensures Gnv == Cofactor(g, index, false) && Hv == Cofactor(h, index, true) && Hnv == Cofactor(h, index, false)
    {
      hide Good, PermOk;
      ghost var i := Top(perm, f, g, h);
      var topf, topg, toph := Level(perm, f), Level(perm, g), Level(perm, h);
      var v := Min(topg, toph);
      Fv, Fnv, Gv, Gnv, Hv, Hnv := f, f, g, g, h, h;
      index := f.index;
      if topf <= v {
        v := Min(topf, v);
        Fv, Fnv := f.T, f.E;
      }
      if topg == v {
        index := g.index;
        Gv, Gnv := g.T, g.E;
      }
      if toph == v {
        index := h.index;
        Hv, Hnv := h.T, h.E;
      }
    }

    /** cuddAddIteRecur */
    method IteRecur(f: Add, g0: Add, h0: Add) returns (r: Add)
      requires Valid() && Good(perm, f) && Good(perm, g0) && Good(perm, h0) && ZeroOne(f)
      modifies this`cache
      ensures Valid() && IsIteBelow(perm, Result(r), f, g0, h0)
      decreases Size(f) + Size(g0) + Size(h0), 1
    {
      hide PermOk, CacheRight, LeqRight, IsIte, Good, ZeroOne, IteVal;
      IteConstants(perm, f, g0, h0);
      if f == ONE {
        return g0;
      }
      if f == ZERO {
        return h0;
      }
      var g, h := AddVarToConst(f, g0, h0);
      GoodConstants(perm);
      NotConstant(f);
      if g == h {
        SameIte(perm, f, g);
        r := g;
      } else if g == ONE && h == ZERO {
        SelfIte(perm, f);
        r := f;
      } else if Level(perm, f) < Min(Level(perm, g), Level(perm, h)) && f.T == ONE && f.E == ZERO {
        VariableIte(perm, f, g, h);
        r := Node(f.index, g, h);
      } else if Level(perm, f) < Min(Level(perm, g), Level(perm, h)) && f.T == ZERO && f.E == ONE {
        VariableIte(perm, f, g, h);
        r := Node(f.index, h, g);
      } else {
        r := IteStep(f, g, h);
      }
      FromConstants(perm, Result(r), f, g0, h0);
    }

    /** The cache and the recursion of cuddAddIteRecur. */
    method IteStep(f: Add, g: Add, h: Add) returns (r: Add)
      requires Valid() && Good(perm, f) && Good(perm, g) && Good(perm, h) && ZeroOne(f) && f.Node?
      modifies this`cache
      ensures Valid() && IsIteBelow(perm, Result(r), f, g, h)
      decreases Size(f) + Size(g) + Size(h), 0
    {
      hide IsIte, Good, ZeroOne, IteVal, CacheRight, Cofactor, LeqRight, PermOk;
      var hit, c := Lookup(IteKey(f, g, h));
      if hit {
        return c.node;
      }
      var index, Fv, Fnv, Gv, Gnv, Hv, Hnv := Cofactors(f, g, h);
      ThreeCofactors(perm, f, g, h, index, true);
      ThreeCofactors(perm, f, g, h, index, false);
      var t := IteRecur(Fv, Gv, Hv);
      var e := IteRecur(Fnv, Gnv, Hnv);
      r := if t == e then t else Node(index, t, e);
      JoinIte(perm, f, g, h, index, t, e);
      Insert(IteKey(f, g, h), Result(r));
    }

    /** Cudd_addIteConstant */
    method IteConstant(f: Add, g0: Add, h0: Add) returns (r: Verdict)
      requires Valid() && Good(perm, f) && Good(perm, g0) && Good(perm, h0) && ZeroOne(f)
      modifies this`cache
      ensures Valid() && IteExact(perm, r, f, g0, h0)
      decreases Size(f) + Size(g0) + Size(h0), 1
    {
      hide PermOk, CacheRight, LeqRight, IsIte, Good, ZeroOne, IteVal, IteVaries;
      IteConstants(perm, f, g0, h0);
      if f == ONE {
        return Result(g0);
      }
      if f == ZERO {
        return Result(h0);
      }
      var g, h := AddVarToConst(f, g0, h0);
      GoodConstants(perm);
      NotConstant(f);
      if g == h {
        SameIte(perm, f, g);
        r := Result(g);
      } else if g.Leaf? && h.Leaf? {
        TwoConstantsVary(perm, f, g, h);
        r := NonConstant;
      } else if Level(perm, f) < Min(Level(perm, g), Level(perm, h)) && f.T.Leaf? && f.E.Leaf? {
        VariableVaries(perm, f, g, h);
        r := NonConstant;
      } else {
        r := IteConstantStep(f, g, h);
      }
      VerdictFromConstants(perm, r, f, g0, h0);
    }

    method IteConstantStep(f: Add, g: Add, h: Add) returns (r: Verdict)
      requires Valid() && Good(perm, f) && Good(perm, g) && Good(perm, h) && ZeroOne(f) && f.Node?
      modifies this`cache
      ensures Valid() && IteExact(perm, r, f, g, h)
      decreases Size(f) + Size(g) + Size(h), 0
    {
      hide IsIte, Good, ZeroOne, IteVal, IteVaries, CacheRight, Cofactor, LeqRight, PermOk;
      var hit, c := Lookup(IteConstantKey(f, g, h));
      if hit {
        return c;
      }
      var index, Fv, Fnv, Gv, Gnv, Hv, Hnv := Cofactors(f, g, h);
      ThreeCofactors(perm, f, g, h, index, true);
      ThreeCofactors(perm, f, g, h, index, false);
      var t := IteConstant(Fv, Gv, Hv);
      if t == NonConstant || !t.node.Leaf? {
        VerdictVaries(perm, f, g, h, index, true, t);
        Insert(IteConstantKey(f, g, h), NonConstant);
        return NonConstant;
      }
      var e := IteConstant(Fnv, Gnv, Hnv);
      if e == NonConstant || !e.node.Leaf? {
        VerdictVaries(perm, f, g, h, index, false, e);
        Insert(IteConstantKey(f, g, h), NonConstant);
        return NonConstant;
      }
      ConstantCofactors(perm, f, g, h, index, t.node, e.node);
      r := if t != e then NonConstant else t;
      Insert(IteConstantKey(f, g, h), r);
    }

    /** Cudd_addEvalConst: the lookup asks under another key than the insertions use. */
    method EvalConst(f: Add, g: Add) returns (r: Verdict)
      requires Valid() && Good(perm, f) && Good(perm, g) && ZeroOne(f)
      modifies this`cache
      ensures Valid() && (f != ZERO ==> EvalExact(r, f, g)) && (f == ZERO ==> r == Result(if g.Leaf? then g else background))
      decreases Size(f) + Size(g)
    {
      hide Good, ZeroOne, CacheRight, Cofactor, LeqRight, PermOk, EvalExact;
      if f == ONE || g.Leaf? {
        EvalTerminal(perm, f, g);
        return Result(g);
      }
      if f == ZERO {
        return Result(background);
      }
      NotConstant(f);
      var hit, c := Lookup(EvalConstTag(f, g, g));
      if hit {
        return c;
      }
      var index, Fv, Fnv, Gv, Gnv, Hv, Hnv := Cofactors(f, g, g);
      ThreeCofactors(perm, f, g, g, index, true);
      ThreeCofactors(perm, f, g, g, index, false);
      SidesNotZero(perm, f, g, index);
      if Fv != ZERO {
        var t := EvalConst(Fv, Gv);
        if t == NonConstant || !t.node.Leaf? {
          EvalVaries(perm, f, g, index, true, t);
          Insert(EvalConstKey(f, g), NonConstant);
          return NonConstant;
        }
        if Fnv != ZERO {
          var e := EvalConst(Fnv, Gnv);
          if e == NonConstant || !e.node.Leaf? {
            EvalVaries(perm, f, g, index, false, e);
            Insert(EvalConstKey(f, g), NonConstant);
            return NonConstant;
          }
          EvalBoth(perm, f, g, index, t, e);
          if t != e {
            Insert(EvalConstKey(f, g), NonConstant);
            return NonConstant;
          }
        } else {
          OneSide(perm, f, g, index, true, t);
        }
        Insert(EvalConstKey(f, g), t);
        return t;
      } else {
        var e := EvalConst(Fnv, Gnv);
        OneSide(perm, f, g, index, false, e);
        Insert(EvalConstKey(f, g), e);
        return e;
      }
    }

    /** Cudd_addLeq: one if and only if f is at most g at every assignment. */
    method Leq(f: Add, g: Add) returns (r: bool)
      requires Valid() && Good(perm, f) && Good(perm, g)
      modifies this`leqCache
      ensures Valid() && LeqExact(r, f, g)
      decreases Size(f) + Size(g)
    {
      hide Good, CacheRight, PermOk, LeqExact, Eval, Cofactor;
      if f == g {
        LeqSame(f);
        return true;
      }
      LeqTerminal(perm, f, g);
      if f.Leaf? {
        if g.Leaf? {
          return Le(f.v, g.v);
        }
        if f == Leaf(MinusInf) {
          return true;
        }
        if f == Leaf(PlusInf) {
          return false;
        }
      }
      if g == Leaf(PlusInf) {
        return true;
      }
      if g == Leaf(MinusInf) {
        return false;
      }
      var ask: bool := *;
      if ask && (f, g) in leqCache {
        return leqCache[(f, g)];
      }
      var topf, topg := Level(perm, f), Level(perm, g);
      ghost var i := Top(perm, f, g, g);
      var fv, fvn, gv, gvn := f, f, g, g;
      if topf <= topg {
        fv, fvn := f.T, f.E;
      }
      if topg <= topf {
        gv, gvn := g.T, g.E;
      }
      TwoCofactors(perm, f, g, i);
      r := Leq(fvn, gvn);
      ghost var x := r;
      if r {
        r := Leq(fv, gv);
      }
      LeqCofactors(perm, f, g, i, x, r);
      RememberLeq(f, g, r);
    }

    method RememberLeq(f: Add, g: Add, r: bool)
      requires Valid() && LeqExact(r, f, g)
      modifies this`leqCache
      ensures Valid()
    {
      hide CacheRight, PermOk, LeqExact;
      var kept: set<(Add, Add)> := *;
      leqCache := map x | x in leqCache && x in kept :: leqCache[x];
      leqCache := leqCache[(f, g) := r];
    }
  }

  // ---- the cases --------------------------------------------------------------------

  lemma IteConstants(perm: seq<nat>, f: Add, g: Add, h: Add)
    requires Good(perm, g) && Good(perm, h)
    ensures f == ONE ==> IsIte(perm, g, f, g, h)
    ensures f == ZERO ==> IsIte(perm, h, f, g, h)
  {
  }

  lemma GoodConstants(perm: seq<nat>)
    ensures Good(perm, ONE) && Good(perm, ZERO) && Level(perm, ONE) == Level(perm, ZERO) == |perm|
  {
  }

  lemma NotConstant(f: Add)
    requires ZeroOne(f) && f != ONE && f != ZERO
    ensures f.Node?
  {
  }

  lemma SameIte(perm: seq<nat>, f: Add, g: Add)
    requires Good(perm, g)
    ensures IsIte(perm, g, f, g, g)
  {
  }

  lemma SelfIte(perm: seq<nat>, f: Add)
    requires Good(perm, f) && ZeroOne(f)
    ensures IsIte(perm, f, f, ONE, ZERO)
  {
    forall env ensures Eval(f, env) == IteVal(f, ONE, ZERO, env) {
      ZeroOneEval(f, env);
    }
  }

  /** f is a variable above g and h, or its complement. */
  lemma VariableIte(perm: seq<nat>, f: Add, g: Add, h: Add)
    requires PermOk(perm) && Good(perm, f) && Good(perm, g) && Good(perm, h) && f.Node? && g != h
    requires Level(perm, f) < Min(Level(perm, g), Level(perm, h))
    ensures f.T == ONE && f.E == ZERO ==> IsIteBelow(perm, Result(Node(f.index, g, h)), f, g, h)
    ensures f.T == ZERO && f.E == ONE ==> IsIteBelow(perm, Result(Node(f.index, h, g)), f, g, h)
  {
    hide PermOk, IteVal;
    assert f.index < |perm| && Level(perm, f) == perm[f.index];
    forall env ensures f.T == ONE && f.E == ZERO ==> Eval(Node(f.index, g, h), env) == IteVal(f, g, h, env) {
      VariableVal(f, g, h, env);
    }
    forall env ensures f.T == ZERO && f.E == ONE ==> Eval(Node(f.index, h, g), env) == IteVal(f, g, h, env) {
      VariableVal(f, g, h, env);
    }
  }

  lemma VariableVal(f: Add, g: Add, h: Add, env: Env)
    requires f.Node?
    ensures f.T == ONE && f.E == ZERO ==> Eval(Node(f.index, g, h), env) == IteVal(f, g, h, env)
    ensures f.T == ZERO && f.E == ONE ==> Eval(Node(f.index, h, g), env) == IteVal(f, g, h, env)
  {
    assert f.T.Leaf? && f.E.Leaf? ==> Eval(f, env) == if f.index in env then f.T.v else f.E.v;
  }

  /** What addVarToConst replaced. */
  lemma FromConstants(perm: seq<nat>, r: Verdict, f: Add, g: Add, h: Add)
    requires PermOk(perm) && ZeroOne(f) && IsIteBelow(perm, r, f, if f == g then ONE else g, if f == h then ZERO else h)
    ensures IsIteBelow(perm, r, f, g, h)
  {
    hide IteVal;
    VarToConst(f, g, h);
    BelowConstants(perm, f, g, h);
  }

  lemma BelowConstants(perm: seq<nat>, f: Add, g: Add, h: Add)
    requires PermOk(perm)
    ensures Min(Level(perm, f), Min(Level(perm, if f == g then ONE else g), Level(perm, if f == h then ZERO else h)))
         >= Min(Level(perm, f), Min(Level(perm, g), Level(perm, h)))
  {
  }

  lemma VerdictFromConstants(perm: seq<nat>, r: Verdict, f: Add, g: Add, h: Add)
    requires ZeroOne(f) && IteExact(perm, r, f, if f == g then ONE else g, if f == h then ZERO else h)
    ensures IteExact(perm, r, f, g, h)
  {
    hide IteVal;
    VarToConst(f, g, h);
    if r.NonConstant? {
      var G, H := if f == g then ONE else g, if f == h then ZERO else h;
      var e1, e2 :| IteVal(f, G, H, e1) != IteVal(f, G, H, e2);
      assert IteVal(f, g, h, e1) != IteVal(f, g, h, e2);
    }
  }

  lemma ThreeCofactors(perm: seq<nat>, f: Add, g: Add, h: Add, i: nat, b: bool)
    requires PermOk(perm) && Good(perm, f) && Good(perm, g) && Good(perm, h) && ZeroOne(f) && i < |perm|
    requires perm[i] == Min(Level(perm, f), Min(Level(perm, g), Level(perm, h)))
    ensures var F, G, H := Cofactor(f, i, b), Cofactor(g, i, b), Cofactor(h, i, b);
            && Good(perm, F) && Good(perm, G) && Good(perm, H) && ZeroOne(F)
            && Size(F) + Size(G) + Size(H) < Size(f) + Size(g) + Size(h)
            && (g == h ==> Size(F) + Size(G) < Size(f) + Size(g))
            && Min(Level(perm, F), Min(Level(perm, G), Level(perm, H))) > perm[i]
  {
    hide Good, PermOk, Cofactor, ZeroOne, Size, Level;
    CofactorFacts(perm, f, i, b);
    CofactorFacts(perm, g, i, b);
    CofactorFacts(perm, h, i, b);
    CofactorZeroOne(f, i, b);
  }

  lemma TwoCofactors(perm: seq<nat>, f: Add, g: Add, i: nat)
    requires PermOk(perm) && Good(perm, f) && Good(perm, g) && i < |perm| && perm[i] == Min(Level(perm, f), Level(perm, g))
    requires (Level(perm, f) == perm[i] <==> f.Node? && f.index == i) && (Level(perm, g) == perm[i] <==> g.Node? && g.index == i)
    ensures forall b :: Good(perm, Cofactor(f, i, b)) && Good(perm, Cofactor(g, i, b)) && Size(Cofactor(f, i, b)) + Size(Cofactor(g, i, b)) < Size(f) + Size(g)
    ensures Level(perm, f) <= Level(perm, g) ==> f.Node? && Cofactor(f, i, true) == f.T && Cofactor(f, i, false) == f.E
    ensures Level(perm, f) > Level(perm, g) ==> Cofactor(f, i, true) == Cofactor(f, i, false) == f
    ensures Level(perm, g) <= Level(perm, f) ==> g.Node? && Cofactor(g, i, true) == g.T && Cofactor(g, i, false) == g.E
    ensures Level(perm, g) > Level(perm, f) ==> Cofactor(g, i, true) == Cofactor(g, i, false) == g
  {
    forall b ensures Good(perm, Cofactor(f, i, b)) && Good(perm, Cofactor(g, i, b)) && Size(Cofactor(f, i, b)) + Size(Cofactor(g, i, b)) < Size(f) + Size(g) {
      CofactorFacts(perm, f, i, b);
      CofactorFacts(perm, g, i, b);
    }
  }

  /** Two different constants, both taken. */
  lemma TwoConstantsVary(perm: seq<nat>, f: Add, g: Add, h: Add)
    requires PermOk(perm) && Good(perm, f) && ZeroOne(f) && f.Node? && g.Leaf? && h.Leaf? && g != h
    ensures IteVaries(f, g, h)
  {
    var e1, e2 := Varying(perm, f);
    ZeroOneEval(f, e1);
    ZeroOneEval(f, e2);
    assert IteVal(f, g, h, e1) != IteVal(f, g, h, e2);
  }

  /** A variable, or its complement, above two different functions. */
  lemma VariableVaries(perm: seq<nat>, f: Add, g: Add, h: Add)
    requires PermOk(perm) && Good(perm, f) && Good(perm, g) && Good(perm, h) && ZeroOne(f) && f.Node? && g != h
    requires Level(perm, f) < Min(Level(perm, g), Level(perm, h)) && f.T.Leaf? && f.E.Leaf?
    ensures IteVaries(f, g, h)
  {
    VariableIte(perm, f, g, h);
    NodeVaries(perm, if f.T == ONE then Node(f.index, g, h) else Node(f.index, h, g), f, g, h);
  }

  lemma VerdictVaries(perm: seq<nat>, f: Add, g: Add, h: Add, i: nat, b: bool, t: Verdict)
    requires PermOk(perm) && Good(perm, f) && Good(perm, g) && Good(perm, h) && i < |perm|
    requires perm[i] <= Level(perm, f) && perm[i] <= Level(perm, g) && perm[i] <= Level(perm, h)
    requires IteExact(perm, t, Cofactor(f, i, b), Cofactor(g, i, b), Cofactor(h, i, b)) && (t == NonConstant || t.node.Node?)
    ensures IteVaries(f, g, h)
  {
    hide Good, Cofactor, IteVal, IteVaries, IsIte;
    if t.Result? {
      NodeVaries(perm, t.node, Cofactor(f, i, b), Cofactor(g, i, b), Cofactor(h, i, b));
    }
    CofactorVaries(perm, f, g, h, i, b);
  }

  lemma EvalTerminal(perm: seq<nat>, f: Add, g: Add)
    requires PermOk(perm) && Good(perm, g) && (f == ONE || g.Leaf?)
    ensures EvalExact(Result(g), f, g)
  {
    if g.Node? {
      var e1, e2 := Varying(perm, g);
    }
  }

  /** The two cofactors of f are not both zero. */
  lemma SidesNotZero(perm: seq<nat>, f: Add, g: Add, i: nat)
    requires Good(perm, f) && f.Node?
    ensures Cofactor(f, i, true) != ZERO || Cofactor(f, i, false) != ZERO
  {
  }

  lemma EvalVaries(perm: seq<nat>, f: Add, g: Add, i: nat, b: bool, t: Verdict)
    requires PermOk(perm) && Good(perm, f) && Good(perm, g) && i < |perm| && perm[i] <= Level(perm, f) && perm[i] <= Level(perm, g)
    requires EvalExact(t, Cofactor(f, i, b), Cofactor(g, i, b)) && (t == NonConstant || t.node.Node?)
    ensures EvalExact(NonConstant, f, g)
  {
    hide Good, Cofactor, VariesOn, AgreesOn;
    OneSideVaries(perm, f, g, i, b);
  }

  lemma EvalBoth(perm: seq<nat>, f: Add, g: Add, i: nat, t: Verdict, e: Verdict)
    requires PermOk(perm) && Good(perm, f) && Good(perm, g) && i < |perm| && perm[i] <= Level(perm, f) && perm[i] <= Level(perm, g)
    requires ZeroOne(f) && Cofactor(f, i, true) != ZERO && Cofactor(f, i, false) != ZERO
    requires t.Result? && e.Result? && t.node.Leaf? && e.node.Leaf?
    requires EvalExact(t, Cofactor(f, i, true), Cofactor(g, i, true)) && EvalExact(e, Cofactor(f, i, false), Cofactor(g, i, false))
    ensures EvalExact(if t == e then t else NonConstant, f, g)
  {
    hide Good, Cofactor, VariesOn, AgreesOn, ZeroOne;
    BothSides(perm, f, g, i, t.node, e.node);
  }
}
