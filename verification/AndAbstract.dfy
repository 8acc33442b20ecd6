/** CUDD's one-pass quantification: cuddBddExistAbstractRecur and cuddBddAndAbstractRecur with
    their shortcuts, over an operation cache that may forget.  Reference counts only decide
    whether the cache is used; here that choice is arbitrary. */
module AndAbstract {
  import opened CuddDiagram
  import opened Quantify

  datatype Key = ExistKey(f: Edge, cube: Edge) | AndKey(f: Edge, g: Edge, cube: Edge)

  /** r is the canonical diagram of F, and does not lie above f and g. */
  ghost predicate IsDiagram(perm: seq<nat>, r: Edge, F: Fn, f: Edge, g: Edge) {
    && Good(perm, r.node) && Den(r) == F
    && (Level(perm, r.node) >= Level(perm, f.node) || Level(perm, r.node) >= Level(perm, g.node))
  }

  ghost predicate IsExist(perm: seq<nat>, r: Edge, f: Edge, cube: Edge) {
    IsDiagram(perm, r, Ex(Indices(cube.node), Den(f)), f, f)
  }

  ghost predicate IsAndExist(perm: seq<nat>, r: Edge, f: Edge, g: Edge, cube: Edge) {
    IsDiagram(perm, r, Ex(Indices(cube.node), Den(f) * Den(g)), f, g)
  }

  ghost predicate Right(perm: seq<nat>, k: Key, r: Edge) {
    match k
    case ExistKey(f, cube) => IsExist(perm, r, f, cube)
    case AndKey(f, g, cube) => IsAndExist(perm, r, f, g, cube)
  }

  ghost predicate CacheRight(perm: seq<nat>, cache: map<Key, Edge>) {
    forall k :: k in cache ==> Right(perm, k, cache[k])
  }

  // ---- the algebra behind the cases -------------------------------------------------

  lemma SameExist(perm: seq<nat>, f: Edge)
    requires Good(perm, f.node)
    ensures IsExist(perm, f, f, ONE)
  {
    ExNone(Den(f));
  }

  lemma ConstantExist(perm: seq<nat>, f: Edge, cube: Edge)
    requires f.node.One?
    ensures IsExist(perm, f, f, cube)
  {
    if f.neg {
      assert Den(f) == iset{};
      assert Ex(Indices(cube.node), iset{}) == iset{};
    } else {
      ExContains(Indices(cube.node), Den(f));
      assert forall env: Env :: env in Den(f);
    }
  }

  /** Above both operands the two recursive results are joined at the top variable. */
  lemma JoinExist(perm: seq<nat>, i: nat, s: set<nat>, D: Fn, t: Edge, e: Edge, r: Edge)
    requires PermOk(perm) && i < |perm| && Good(perm, t.node) && Good(perm, e.node) && i !in s
    requires perm[i] < Level(perm, t.node) && perm[i] < Level(perm, e.node)
    requires Den(t) == Ex(s, Cof(D, i, true)) && Den(e) == Ex(s, Cof(D, i, false)) && r == Join(i, t, e)
    ensures Good(perm, r.node) && Level(perm, r.node) >= perm[i] && Den(r) == Ex(s, D)
  {
    JoinFacts(perm, i, t, e);
    ExCofactor(s, i, true, D);
    ExCofactor(s, i, false, D);
    forall env ensures env in Den(r) <==> env in Ex(s, D) {
      Shannon(Ex(s, D), i, env);
    }
  }

  /** Not And(Not t, Not e) */
  lemma OrFacts(perm: seq<nat>, t: Edge, e: Edge, r: Edge)
    requires PermOk(perm) && Good(perm, t.node) && Good(perm, e.node) && r == Not(And(perm, Not(t), Not(e)))
    ensures Good(perm, r.node) && Den(r) == Den(t) + Den(e)
    ensures Level(perm, r.node) >= Level(perm, t.node) || Level(perm, r.node) >= Level(perm, e.node)
  {
    hide And, Good;
    AndFacts(perm, Not(t), Not(e));
    forall env ensures env in Den(r) <==> env in Den(t) + Den(e) {
      assert Eval(Not(t), env) == !Eval(t, env) && Eval(Not(e), env) == !Eval(e, env);
    }
  }

  /** t equals the else-cofactor of an operand: it is independent of the rest of the cube, so
      the else branch adds nothing. */
  lemma Absorbed(s: set<nat>, T: Fn, A: Fn, B: Fn)
    requires Independent(T, s) && T == A
    ensures T + Ex(s, A * B) == T
  {
    ExFactor(s, A, B);
    assert T + A * Ex(s, B) == T;
  }

  /** t is the complement of the else-cofactor of an operand: only the other one matters. */
  lemma Complemented(s: set<nat>, T: Fn, A: Fn, B: Fn)
    requires Independent(A, s) && forall env: Env :: env in T <==> env !in A
    ensures T + Ex(s, A * B) == T + Ex(s, B)
  {
    ExFactor(s, A, B);
  }

  lemma NotDen(e: Edge)
    ensures forall env: Env :: env in Den(Not(e)) <==> env !in Den(e)
  {
  }

  lemma IndependentNot(T: Fn, A: Fn, s: set<nat>)
    requires Independent(T, s) && forall env: Env :: env in T <==> env !in A
    ensures Independent(A, s)
  {
    forall e1: Env, e2: Env | e1 - s == e2 - s && e1 in A ensures e2 in A {
      Moved(T, s, e1, e2);
    }
  }

  /** The top variable of f and the operands of the recursive calls. */
  lemma TopFacts(perm: seq<nat>, f: Edge, i: nat, b: bool)
    requires PermOk(perm) && Good(perm, f.node) && i < |perm| && perm[i] <= Level(perm, f.node)
    ensures Good(perm, Cofactor(f, i, b).node) && perm[i] < Level(perm, Cofactor(f, i, b).node)
    ensures Den(Cofactor(f, i, b)) == Cof(Den(f), i, b)
    ensures Size(Cofactor(f, i, b).node) <= Size(f.node) && (f.node.Node? && f.node.index == i ==> Size(Cofactor(f, i, b).node) < Size(f.node))
  {
    hide Den, Cof;
    CofactorFacts(perm, f, i, b);
    CofactorDen(perm, f, i, b);
  }

  lemma CubeAway(perm: seq<nat>, cube: Edge, i: nat)
    requires PermOk(perm) && Cube(perm, cube) && i < |perm| && Level(perm, cube.node) >= perm[i]
    requires cube.node.Node? ==> cube.node.index != i
    ensures i !in Indices(cube.node)
  {
    if i in Indices(cube.node) { CubeBelow(perm, cube.node, i); }
  }

  /** One variable of the cube is quantified: the union of the two branches. */
  lemma QuantifyTop(perm: seq<nat>, cube: Edge, D: Fn)
    requires PermOk(perm) && Cube(perm, cube) && cube.node.Node?
    ensures Ex(Indices(cube.node), D) ==
            Ex(Indices(cube.node.T), Cof(D, cube.node.index, true)) + Ex(Indices(cube.node.T), Cof(D, cube.node.index, false))
  {
    hide Ex, Cof, Good;
    CubeStep(perm, cube);
    ExMore(Indices(cube.node.T), cube.node.index, D);
  }

  /** Both branches together already hold everywhere. */
  lemma EverythingExists(s: set<nat>, t: Edge, e: Edge)
    requires t == ONE || e == ONE || t == Not(e)
    ensures Ex(s, Den(t)) + Ex(s, Den(e)) == Den(ONE)
  {
    ExContains(s, Den(t));
    ExContains(s, Den(e));
    forall env: Env ensures env in Ex(s, Den(t)) + Ex(s, Den(e)) {
      assert env in Den(t) || env in Den(e);
    }
  }

  lemma OneAbsorbs(F: Fn)
    ensures Den(ONE) + F == Den(ONE)
  {
  }

  // ---- the operations ---------------------------------------------------------------

  class Manager {
    const perm: seq<nat>
    var cache: map<Key, Edge>

    constructor (perm: seq<nat>)
      requires PermOk(perm)
      ensures this.perm == perm && cache == map[] && Valid()
    {
      this.perm, cache := perm, map[];
    }

    ghost predicate Valid()
      reads this
    {
      PermOk(perm) && CacheRight(perm, cache)
    }

    /** cuddCacheLookup, which may miss, and the test whether the cache is asked at all. */
    method Lookup(k: Key) returns (hit: bool, r: Edge)
      requires Valid()
      ensures hit ==> Right(perm, k, r)
    {
      var ask: bool := *;
      hit, r := false, ONE;
      if ask && k in cache {
        hit, r := true, cache[k];
      }
    }

    /** cuddCacheInsert, which may drop other entries, or be left out. */
    method Insert(k: Key, r: Edge)
      requires Valid() && Right(perm, k, r)
      modifies this`cache
      ensures Valid()
    {
      hide Right, PermOk;
      var kept: set<Key> := *;
      var insert: bool := *;
      cache := map x | x in cache && x in kept :: cache[x];
      if insert {
        cache := cache[k := r];
      }
    }

    /** The loop that drops the variables of the cube above level top. */
    method Skip(cube0: Edge, top: nat, ghost D: Fn) returns (cube: Edge)
      requires PermOk(perm) && Cube(perm, cube0)
      requires forall i, b: bool :: 0 <= i < |perm| && perm[i] < top ==> Cof(D, i, b) == D
      ensures Cube(perm, cube) && Size(cube.node) <= Size(cube0.node) && (cube == ONE || Level(perm, cube.node) >= top)
      ensures Ex(Indices(cube.node), D) == Ex(Indices(cube0.node), D)
    {
      hide Ex, Cof, Good, PermOk;
      cube := cube0;
      while cube != ONE && Level(perm, cube.node) < top
        invariant Cube(perm, cube) && Size(cube.node) <= Size(cube0.node)
        invariant Ex(Indices(cube.node), D) == Ex(Indices(cube0.node), D)
        decreases Size(cube.node)
      {
        CubeStep(perm, cube);
        ExSkip(Indices(cube.node.T), cube.node.index, D);
        cube := Edge(false, cube.node.T);
      }
    }

    /** cuddBddExistAbstractRecur */
    method Exist(f: Edge, cube0: Edge) returns (r: Edge)
      requires Valid() && Good(perm, f.node) && Cube(perm, cube0)
      modifies this`cache
      ensures Valid() && IsExist(perm, r, f, cube0)
      decreases Size(f.node) + Size(cube0.node), 0
    {
      hide Ex, Cof, Den, Good, PermOk, And, Join, IsDiagram;
      if cube0 == ONE || f.node.One? {
        SameExist(perm, f);
        if f.node.One? { ConstantExist(perm, f, cube0); }
        return f;
      }
      BelowTop(perm, f);
      var cube := Skip(cube0, Level(perm, f.node), Den(f));
      SameCube(perm, f, cube0, cube);
      if cube == ONE {
        SameExist(perm, f);
        return f;
      }
      var hit;
      hit, r := Lookup(ExistKey(f, cube));
      if hit { return; }
      var i := f.node.index;
      TopLevel(perm, f);
      TopFacts(perm, f, i, true);
      TopFacts(perm, f, i, false);
      var T, E := Cofactor(f, i, true), Cofactor(f, i, false);
      if i == cube.node.index {
        var rest := Edge(false, cube.node.T);
        CubeStep(perm, cube);
        QuantifyTop(perm, cube, Den(f));
        if T == ONE || E == ONE || T == Not(E) {
          EverythingExists(Indices(rest.node), T, E);
          OneIs(perm, f, f, Ex(Indices(cube.node), Den(f)));
          return ONE;
        }
        var res1 := Exist(T, rest);
        if res1 == ONE {
          ExistParts(perm, res1, T, rest);
          OneAbsorbs(Ex(Indices(rest.node), Den(E)));
          OneIs(perm, f, f, Ex(Indices(cube.node), Den(f)));
          Insert(ExistKey(f, cube), ONE);
          return ONE;
        }
        var res2 := Exist(E, rest);
        r := Not(And(perm, Not(res1), Not(res2)));
        ExistParts(perm, res1, T, rest);
        ExistParts(perm, res2, E, rest);
        OrFacts(perm, res1, res2, r);
        MakesDiagram(perm, r, Ex(Indices(cube.node), Den(f)), f, f);
        Insert(ExistKey(f, cube), r);
      } else {
        CubeAway(perm, cube, i);
        var res1 := Exist(T, cube);
        var res2 := Exist(E, cube);
        r := Join(i, res1, res2);
        ExistParts(perm, res1, T, cube);
        ExistParts(perm, res2, E, cube);
        JoinExist(perm, i, Indices(cube.node), Den(f), res1, res2, r);
        MakesDiagram(perm, r, Ex(Indices(cube.node), Den(f)), f, f);
        Insert(ExistKey(f, cube), r);
      }
    }

    /** cuddBddAndAbstractRecur: the canonical diagram of the conjunction with the variables of
        the cube quantified. */
    method AndExist(f0: Edge, g0: Edge, cube0: Edge) returns (r: Edge)
      requires Valid() && Good(perm, f0.node) && Good(perm, g0.node) && Cube(perm, cube0)
      modifies this`cache
      ensures Valid() && IsAndExist(perm, r, f0, g0, cube0)
      decreases Size(f0.node) + Size(g0.node) + Size(cube0.node), 2
    {
      hide Ex, Den, Good, PermOk, And, IsDiagram;
      if f0 == ZERO || g0 == ZERO || f0 == Not(g0) {
        Disjoint(perm, f0, g0, cube0);
        return ZERO;
      }
      if f0 == ONE && g0 == ONE {
        Unit(f0, g0);
        ConstantExist(perm, ONE, cube0);
        return ONE;
      }
      if cube0 == ONE {
        PlainAnd(perm, f0, g0);
        return And(perm, f0, g0);
      }
      if f0 == ONE || f0 == g0 {
        r := Exist(g0, cube0);
        Unit(f0, g0);
        Idempotent(g0);
        OneOperand(perm, r, f0, g0, g0, cube0);
        return;
      }
      if g0 == ONE {
        r := Exist(f0, cube0);
        Unit(f0, g0);
        OneOperand(perm, r, f0, g0, f0, cube0);
        return;
      }
      var f, g := f0, g0;
      var byAddress: bool := *;
      if byAddress {
        f, g := g, f;
      }
      r := Proper(f, g, cube0);
      Symmetric(perm, r, f, g, cube0);
    }

    /** The part of cuddBddAndAbstractRecur for operands that are not constant. */
    method Proper(f: Edge, g: Edge, cube0: Edge) returns (r: Edge)
      requires Valid() && Good(perm, f.node) && Good(perm, g.node) && Cube(perm, cube0) && f.node.Node? && g.node.Node? && cube0 != ONE
      modifies this`cache
      ensures Valid() && IsAndExist(perm, r, f, g, cube0)
      decreases Size(f.node) + Size(g.node) + Size(cube0.node), 1
    {
      hide Ex, Den, Good, PermOk, And, Join, IsDiagram, Cof;
      TopLevel(perm, f);
      TopLevel(perm, g);
      var topf, topg := Level(perm, f.node), Level(perm, g.node);
      var top := if topf <= topg then topf else topg;
      var i := if topf == top then f.node.index else g.node.index;
      BelowTops(perm, f, g, top);
      var cube := Skip(cube0, top, Den(f) * Den(g));
      SameCubes(perm, f, g, cube0, cube);
      if cube == ONE {
        PlainAnd(perm, f, g);
        return And(perm, f, g);
      }
      var hit;
      hit, r := Lookup(AndKey(f, g, cube));
      if hit { return; }
      if Level(perm, cube.node) == top {
        CubeIndex(perm, cube, i);
        r := Quantified(f, g, cube);
      } else {
        Operands(perm, f, g, i, true);
        Operands(perm, f, g, i, false);
        CubeAway(perm, cube, i);
        var t := AndExist(Cofactor(f, i, true), Cofactor(g, i, true), cube);
        var e := AndExist(Cofactor(f, i, false), Cofactor(g, i, false), cube);
        r := Join(i, t, e);
        AndParts(perm, t, Cofactor(f, i, true), Cofactor(g, i, true), cube);
        AndParts(perm, e, Cofactor(f, i, false), Cofactor(g, i, false), cube);
        JoinExist(perm, i, Indices(cube.node), Den(f) * Den(g), t, e, r);
        MakesDiagram(perm, r, Ex(Indices(cube.node), Den(f) * Den(g)), f, g);
      }
      Insert(AndKey(f, g, cube), r);
    }

    /** The case in which the top variable is quantified, with its shortcuts. */
    method Quantified(f: Edge, g: Edge, cube: Edge) returns (r: Edge)
      requires Valid() && Good(perm, f.node) && Good(perm, g.node) && Cube(perm, cube) && f.node.Node? && g.node.Node? && cube.node.Node?
      requires Level(perm, cube.node) <= Level(perm, f.node) && Level(perm, cube.node) <= Level(perm, g.node)
      requires f.node.index == cube.node.index || g.node.index == cube.node.index
      modifies this`cache
      ensures Valid() && IsAndExist(perm, r, f, g, cube)
      decreases Size(f.node) + Size(g.node) + Size(cube.node), 0
    {
      hide Ex, Den, Good, PermOk, And, IsDiagram, Cof, Independent;
      var i, rest := cube.node.index, Edge(false, cube.node.T);
      CubeStep(perm, cube);
      TopLevel(perm, cube);
      Operands(perm, f, g, i, true);
      Operands(perm, f, g, i, false);
      QuantifyTop(perm, cube, Den(f) * Den(g));
      ghost var s := Indices(rest.node);
      var ft, fe, gt, ge := Cofactor(f, i, true), Cofactor(f, i, false), Cofactor(g, i, true), Cofactor(g, i, false);
      var t := AndExist(ft, gt, rest);
      AndParts(perm, t, ft, gt, rest);
      ExIndependent(s, Den(ft) * Den(gt));
      if t == ONE || t == fe || t == ge {
        NothingMore(s, t, fe, ge);
        r := t;
        MakesTop(perm, r, f, g, cube);
        return;
      }
      var e;
      if t == Not(fe) {
        e := Exist(ge, rest);
        ExistParts(perm, e, ge, rest);
        OnlyOther(s, t, fe, ge);
      } else if t == Not(ge) {
        e := Exist(fe, rest);
        ExistParts(perm, e, fe, rest);
        Commute(fe, ge);
        OnlyOther(s, t, ge, fe);
      } else {
        e := AndExist(fe, ge, rest);
        AndParts(perm, e, fe, ge, rest);
      }
      if t == e {
        r := t;
        assert Den(t) + Den(t) == Den(t);
      } else {
        r := Not(And(perm, Not(t), Not(e)));
        OrFacts(perm, t, e, r);
      }
      MakesTop(perm, r, f, g, cube);
    }
  }

  lemma Disjoint(perm: seq<nat>, f: Edge, g: Edge, cube: Edge)
    requires PermOk(perm) && Good(perm, f.node) && (f == ZERO || g == ZERO || f == Not(g))
    ensures IsAndExist(perm, ZERO, f, g, cube)
  {
    assert Den(f) * Den(g) == iset{};
    assert Ex(Indices(cube.node), iset{}) == iset{} == Den(ZERO);
  }

  lemma Unit(f: Edge, g: Edge)
    ensures f == ONE ==> Den(f) * Den(g) == Den(g)
    ensures g == ONE ==> Den(f) * Den(g) == Den(f)
  {
  }

  lemma Idempotent(g: Edge)
    ensures Den(g) * Den(g) == Den(g)
  {
  }

  lemma Commute(f: Edge, g: Edge)
    ensures Den(f) * Den(g) == Den(g) * Den(f)
  {
  }

  lemma PlainAnd(perm: seq<nat>, f: Edge, g: Edge)
    requires PermOk(perm) && Good(perm, f.node) && Good(perm, g.node)
    ensures IsAndExist(perm, And(perm, f, g), f, g, ONE)
  {
    hide And, Good;
    AndFacts(perm, f, g);
    assert Den(And(perm, f, g)) == Den(f) * Den(g);
    ExNone(Den(f) * Den(g));
  }

  lemma OneOperand(perm: seq<nat>, r: Edge, f: Edge, g: Edge, h: Edge, cube: Edge)
    requires IsExist(perm, r, h, cube) && (h == f || h == g) && Den(f) * Den(g) == Den(h)
    ensures IsAndExist(perm, r, f, g, cube)
  {
  }

  lemma Symmetric(perm: seq<nat>, r: Edge, f: Edge, g: Edge, cube: Edge)
    requires IsAndExist(perm, r, f, g, cube)
    ensures IsAndExist(perm, r, g, f, cube)
  {
    Commute(f, g);
  }

  lemma SameCubes(perm: seq<nat>, f: Edge, g: Edge, cube0: Edge, cube: Edge)
    requires Ex(Indices(cube.node), Den(f) * Den(g)) == Ex(Indices(cube0.node), Den(f) * Den(g))
    ensures forall r :: IsAndExist(perm, r, f, g, cube) <==> IsAndExist(perm, r, f, g, cube0)
  {
  }

  lemma BelowTops(perm: seq<nat>, f: Edge, g: Edge, top: nat)
    requires PermOk(perm) && Good(perm, f.node) && Good(perm, g.node) && top <= Level(perm, f.node) && top <= Level(perm, g.node)
    ensures forall i, b: bool :: 0 <= i < |perm| && perm[i] < top ==> Cof(Den(f) * Den(g), i, b) == Den(f) * Den(g)
  {
    hide Den, Cof, Good;
    forall i, b: bool | 0 <= i < |perm| && perm[i] < top ensures Cof(Den(f) * Den(g), i, b) == Den(f) * Den(g) {
      CofactorBelow(perm, f, i, b);
      CofactorBelow(perm, g, i, b);
      CofProduct(Den(f), Den(g), i, b);
    }
  }

  lemma CubeIndex(perm: seq<nat>, cube: Edge, i: nat)
    requires PermOk(perm) && Good(perm, cube.node) && i < |perm| && Level(perm, cube.node) == perm[i]
    ensures cube.node.Node? && cube.node.index == i
  {
  }

  /** The operands of a recursive call and the function they stand for. */
  lemma Operands(perm: seq<nat>, f: Edge, g: Edge, i: nat, b: bool)
    requires PermOk(perm) && Good(perm, f.node) && Good(perm, g.node) && i < |perm|
    requires perm[i] <= Level(perm, f.node) && perm[i] <= Level(perm, g.node)
    requires f.node.Node? && g.node.Node? && (f.node.index == i || g.node.index == i)
    ensures Good(perm, Cofactor(f, i, b).node) && Good(perm, Cofactor(g, i, b).node)
    ensures perm[i] < Level(perm, Cofactor(f, i, b).node) && perm[i] < Level(perm, Cofactor(g, i, b).node)
    ensures Den(Cofactor(f, i, b)) * Den(Cofactor(g, i, b)) == Cof(Den(f) * Den(g), i, b)
    ensures Size(Cofactor(f, i, b).node) + Size(Cofactor(g, i, b).node) < Size(f.node) + Size(g.node)
  {
    hide Den, Cof, Good, PermOk;
    TopFacts(perm, f, i, b);
    TopFacts(perm, g, i, b);
    CofProduct(Den(f), Den(g), i, b);
  }

  lemma AndParts(perm: seq<nat>, r: Edge, f: Edge, g: Edge, cube: Edge)
    requires IsAndExist(perm, r, f, g, cube)
    ensures Good(perm, r.node) && Den(r) == Ex(Indices(cube.node), Den(f) * Den(g))
    ensures Level(perm, r.node) >= Level(perm, f.node) || Level(perm, r.node) >= Level(perm, g.node)
  {
  }

  lemma MakesTop(perm: seq<nat>, r: Edge, f: Edge, g: Edge, cube: Edge)
    requires PermOk(perm) && Good(perm, f.node) && Good(perm, g.node) && f.node.Node? && g.node.Node? && cube.node.Node?
    requires f.node.index == cube.node.index || g.node.index == cube.node.index
    requires Good(perm, r.node) && Den(r) == Ex(Indices(cube.node), Den(f) * Den(g)) && Level(perm, r.node) >= Level(perm, cube.node)
    ensures IsAndExist(perm, r, f, g, cube)
  {
  }

  /** t is 1, or one of the else-cofactors. */
  lemma NothingMore(s: set<nat>, t: Edge, fe: Edge, ge: Edge)
    requires Independent(Den(t), s) && (t == ONE || t == fe || t == ge)
    ensures Den(t) == Den(t) + Ex(s, Den(fe) * Den(ge))
  {
    hide Den, Ex, Independent;
    if t == ONE {
      OneAbsorbs(Ex(s, Den(fe) * Den(ge)));
    } else if t == fe {
      Absorbed(s, Den(t), Den(fe), Den(ge));
    } else {
      Commute(fe, ge);
      Absorbed(s, Den(t), Den(ge), Den(fe));
    }
  }

  /** t is the complement of the else-cofactor fe. */
  lemma OnlyOther(s: set<nat>, t: Edge, fe: Edge, ge: Edge)
    requires Independent(Den(t), s) && t == Not(fe)
    ensures Den(t) + Ex(s, Den(ge)) == Den(t) + Ex(s, Den(fe) * Den(ge))
  {
    hide Den, Ex, Independent;
    NotDen(fe);
    IndependentNot(Den(t), Den(fe), s);
    Complemented(s, Den(t), Den(fe), Den(ge));
  }

  lemma BelowTop(perm: seq<nat>, f: Edge)
    requires PermOk(perm) && Good(perm, f.node)
    ensures forall i, b: bool :: 0 <= i < |perm| && perm[i] < Level(perm, f.node) ==> Cof(Den(f), i, b) == Den(f)
  {
    forall i, b: bool | 0 <= i < |perm| && perm[i] < Level(perm, f.node) ensures Cof(Den(f), i, b) == Den(f) {
      CofactorBelow(perm, f, i, b);
    }
  }

  /** Skipping variables of the cube that f does not depend on. */
  lemma SameCube(perm: seq<nat>, f: Edge, cube0: Edge, cube: Edge)
    requires Ex(Indices(cube.node), Den(f)) == Ex(Indices(cube0.node), Den(f))
    ensures forall r :: IsExist(perm, r, f, cube) <==> IsExist(perm, r, f, cube0)
  {
  }

  lemma TopLevel(perm: seq<nat>, f: Edge)
    requires PermOk(perm) && Good(perm, f.node) && f.node.Node?
    ensures f.node.index < |perm| && Level(perm, f.node) == perm[f.node.index]
  {
  }

  lemma OneIs(perm: seq<nat>, f: Edge, g: Edge, F: Fn)
    requires PermOk(perm) && F == Den(ONE) && Good(perm, f.node)
    ensures IsDiagram(perm, ONE, F, f, g)
  {
  }

  lemma ExistParts(perm: seq<nat>, r: Edge, f: Edge, cube: Edge)
    requires IsExist(perm, r, f, cube)
    ensures Good(perm, r.node) && Den(r) == Ex(Indices(cube.node), Den(f)) && Level(perm, r.node) >= Level(perm, f.node)
  {
  }

  lemma MakesDiagram(perm: seq<nat>, r: Edge, F: Fn, f: Edge, g: Edge)
    requires Good(perm, r.node) && Den(r) == F
    requires Level(perm, r.node) >= Level(perm, f.node) || Level(perm, r.node) >= Level(perm, g.node)
    ensures IsDiagram(perm, r, F, f, g)
  {
  }
}
