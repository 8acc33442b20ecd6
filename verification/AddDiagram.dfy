/** CUDD's algebraic decision diagrams: constants at the leaves, no complement edges.  As nodes are
    found or added by index and children, equal diagrams are the same node. */
module AddDiagram {

  /** The value of a constant node. */
  datatype Num = MinusInf | Fin(value: real) | PlusInf

  predicate Le(a: Num, b: Num) { a.MinusInf? || b.PlusInf? || (a.Fin? && b.Fin? && a.value <= b.value) }

  /** At most, in the order of the extended reals. */
  ghost predicate AtMost(a: Num, b: Num) {
    match (a, b)
    case (MinusInf, _) => true
    case (_, PlusInf) => true
    case (Fin(x), Fin(y)) => x <= y
    case _ => false
  }

  datatype Add = Leaf(v: Num) | Node(index: nat, T: Add, E: Add)

  type Env = set<nat>

  const ONE: Add := Leaf(Fin(1.0))
  const ZERO: Add := Leaf(Fin(0.0))

  /** The position of each index in the order. */
  ghost predicate PermOk(perm: seq<nat>) {
    && (forall i :: 0 <= i < |perm| ==> perm[i] < |perm|)
    && (forall i, j :: 0 <= i < j < |perm| ==> perm[i] != perm[j])
  }

  /** cuddI: constants lie below all variables. */
  function Level(perm: seq<nat>, d: Add): (l: nat) {
    if d.Leaf? || d.index >= |perm| then |perm| else perm[d.index]
  }

  /** Ordered and reduced. */
  ghost predicate Good(perm: seq<nat>, d: Add) {
    d.Node? ==>
      && d.index < |perm| && Good(perm, d.T) && Good(perm, d.E) && d.T != d.E
      && Level(perm, d) < Level(perm, d.T) && Level(perm, d) < Level(perm, d.E)
  }

  function Eval(d: Add, env: Env): Num {
    if d.Leaf? then d.v else if d.index in env then Eval(d.T, env) else Eval(d.E, env)
  }

  function Size(d: Add): nat { if d.Leaf? then 0 else 1 + Size(d.T) + Size(d.E) }

  lemma {:induction false} IgnoresUpper(perm: seq<nat>, d: Add, i: nat, env: Env)
    requires PermOk(perm) && Good(perm, d) && i < |perm| && perm[i] < Level(perm, d)
    ensures Eval(d, env + {i}) == Eval(d, env) == Eval(d, env - {i})
  {
    if d.Node? {
      IgnoresUpper(perm, d.T, i, env);
      IgnoresUpper(perm, d.E, i, env);
    }
  }

  /** Different nodes denote different functions. */
  lemma {:induction false} Distinguish(perm: seq<nat>, a: Add, b: Add) returns (env: Env)
    requires PermOk(perm) && Good(perm, a) && Good(perm, b) && a != b
    ensures Eval(a, env) != Eval(b, env)
    decreases Size(a) + Size(b), Level(perm, a) > Level(perm, b)
  {
    if Level(perm, a) > Level(perm, b) {
      env := Distinguish(perm, b, a);
    } else if a.Leaf? {
      env := {};
    } else {
      var i := a.index;
      var same := b.Node? && b.index == i;
      var then_ := if same then a.T != b.T else a.T != b;
      var x := if then_ then a.T else a.E;
      var y := if !same then b else if then_ then b.T else b.E;
      var e := Distinguish(perm, x, y);
      env := if then_ then e + {i} else e - {i};
      IgnoresUpper(perm, x, i, e);
      IgnoresUpper(perm, y, i, e);
    }
  }

  /** Only constants denote constant functions. */
  lemma Varying(perm: seq<nat>, d: Add) returns (e1: Env, e2: Env)
    requires PermOk(perm) && Good(perm, d) && d.Node?
    ensures Eval(d, e1) != Eval(d, e2)
  {
    var e := Distinguish(perm, d.T, d.E);
    e1, e2 := e + {d.index}, e - {d.index};
    IgnoresUpper(perm, d.T, d.index, e);
    IgnoresUpper(perm, d.E, d.index, e);
  }

  // ---- cofactors and node construction ----------------------------------------------

  function Cofactor(f: Add, i: nat, b: bool): Add {
    if f.Node? && f.index == i then (if b then f.T else f.E) else f
  }

  function With(env: Env, i: nat, b: bool): Env { if b then env + {i} else env - {i} }

  lemma CofactorFacts(perm: seq<nat>, f: Add, i: nat, b: bool)
    requires PermOk(perm) && Good(perm, f) && i < |perm| && perm[i] <= Level(perm, f)
    ensures Good(perm, Cofactor(f, i, b)) && perm[i] < Level(perm, Cofactor(f, i, b)) && Level(perm, Cofactor(f, i, b)) >= Level(perm, f)
    ensures Size(Cofactor(f, i, b)) <= Size(f) && (perm[i] == Level(perm, f) ==> Size(Cofactor(f, i, b)) < Size(f))
  {
  }

  lemma CofactorEval(perm: seq<nat>, f: Add, i: nat, b: bool, env: Env)
    requires PermOk(perm) && Good(perm, f) && i < |perm| && perm[i] <= Level(perm, f)
    ensures Eval(Cofactor(f, i, b), env) == Eval(f, With(env, i, b))
    ensures (i in env) == b ==> Eval(Cofactor(f, i, b), env) == Eval(f, env)
  {
    CofactorFacts(perm, f, i, b);
    IgnoresUpper(perm, Cofactor(f, i, b), i, env);
  }

  /** cuddUniqueInter after the test for equal children. */
  function Join(i: nat, t: Add, e: Add): Add { if t == e then t else Node(i, t, e) }

  lemma JoinFacts(perm: seq<nat>, i: nat, t: Add, e: Add)
    requires PermOk(perm) && i < |perm| && Good(perm, t) && Good(perm, e)
    requires perm[i] < Level(perm, t) && perm[i] < Level(perm, e)
    ensures Good(perm, Join(i, t, e)) && Level(perm, Join(i, t, e)) >= perm[i]
    ensures forall env :: Eval(Join(i, t, e), env) == if i in env then Eval(t, env) else Eval(e, env)
  {
  }

  // ---- 0-1 diagrams -----------------------------------------------------------------

  predicate ZeroOne(f: Add) {
    if f.Leaf? then f == ONE || f == ZERO else ZeroOne(f.T) && ZeroOne(f.E)
  }

  predicate On(f: Add, env: Env) { Eval(f, env) == Fin(1.0) }

  lemma {:induction false} ZeroOneEval(f: Add, env: Env)
    requires ZeroOne(f)
    ensures Eval(f, env) == Fin(1.0) || Eval(f, env) == Fin(0.0)
  {
    if f.Node? {
      ZeroOneEval(f.T, env);
      ZeroOneEval(f.E, env);
    }
  }

  /** A 0-1 diagram other than zero is one somewhere. */
  lemma {:induction false} Satisfiable(perm: seq<nat>, f: Add) returns (env: Env)
    requires PermOk(perm) && Good(perm, f) && ZeroOne(f) && f != ZERO
    ensures On(f, env)
  {
    if f.Leaf? {
      env := {};
    } else {
      var b := f.T != ZERO;
      var e := Satisfiable(perm, if b then f.T else f.E);
      env := With(e, f.index, b);
      IgnoresUpper(perm, if b then f.T else f.E, f.index, e);
    }
  }
}
