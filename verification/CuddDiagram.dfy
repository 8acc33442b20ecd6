/** CUDD's shared diagrams with complement edges.  A node is found or added by its index and
    children, so equal diagrams are the same node: nodes are modelled as values. */
module CuddDiagram {

  /** A node: the constant one, or a variable index with a regular then-edge and an else-edge
      that may be complemented. */
  datatype Dd = One | Node(index: nat, T: Dd, E: Edge)

  datatype Edge = Edge(neg: bool, node: Dd)

  type Env = set<nat>

  const ONE: Edge := Edge(false, One)
  const ZERO: Edge := Edge(true, One)

  /** Cudd_Not */
  function Not(e: Edge): (r: Edge)
    ensures r.neg != e.neg && r.node == e.node
  {
    Edge(!e.neg, e.node)
  }

  /** The position of each index in the order. */
  ghost predicate PermOk(perm: seq<nat>) {
    && (forall i :: 0 <= i < |perm| ==> perm[i] < |perm|)
    && (forall i, j :: 0 <= i < j < |perm| ==> perm[i] != perm[j])
  }

  /** Constants lie below all variables. */
  function Level(perm: seq<nat>, d: Dd): (l: nat) {
    if d.One? || d.index >= |perm| then |perm| else perm[d.index]
  }

  /** Ordered and reduced. */
  ghost predicate Good(perm: seq<nat>, d: Dd) {
    d.Node? ==>
      && d.index < |perm| && Good(perm, d.T) && Good(perm, d.E.node)
      && Level(perm, d) < Level(perm, d.T) && Level(perm, d) < Level(perm, d.E.node)
      && d.E != Edge(false, d.T)
  }

  ghost predicate Holds(d: Dd, env: Env) {
    d.Node? ==> if d.index in env then Holds(d.T, env) else Holds(d.E.node, env) != d.E.neg
  }

  ghost predicate Eval(e: Edge, env: Env) { Holds(e.node, env) != e.neg }

  function Size(d: Dd): nat { if d.One? then 0 else 1 + Size(d.T) + Size(d.E.node) }

  lemma {:induction false} IgnoresUpper(perm: seq<nat>, d: Dd, i: nat, env: Env)
    requires PermOk(perm) && Good(perm, d) && i < |perm| && perm[i] < Level(perm, d)
    ensures Holds(d, env + {i}) == Holds(d, env) == Holds(d, env - {i})
  {
    if d.Node? {
      IgnoresUpper(perm, d.T, i, env);
      IgnoresUpper(perm, d.E.node, i, env);
    }
  }

  // ---- canonicity -------------------------------------------------------------------

  ghost function Indices(d: Dd): set<nat> {
    if d.One? then {} else {d.index} + Indices(d.T) + Indices(d.E.node)
  }

  /** A regular node holds when all variables do. */
  lemma {:induction false} AllOnes(d: Dd, env: Env)
    requires Indices(d) <= env
    ensures Holds(d, env)
  {
    if d.Node? { AllOnes(d.T, env); }
  }

  /** Different edges denote different functions. */
  lemma {:induction false} Distinguish(perm: seq<nat>, a: Edge, b: Edge) returns (env: Env)
    requires PermOk(perm) && Good(perm, a.node) && Good(perm, b.node) && a != b
    ensures Eval(a, env) != Eval(b, env)
    decreases Size(a.node) + Size(b.node), Level(perm, a.node) > Level(perm, b.node)
  {
    if a.neg != b.neg {
      env := Indices(a.node) + Indices(b.node);
      AllOnes(a.node, env);
      AllOnes(b.node, env);
    } else if Level(perm, a.node) > Level(perm, b.node) {
      env := Distinguish(perm, b, a);
    } else {
      assert a.node.Node?;
      var i := a.node.index;
      if b.node.Node? && Level(perm, a.node) == Level(perm, b.node) {
        assert b.node.index == i;
        var then_ := a.node.T != b.node.T;
        var x := if then_ then Edge(false, a.node.T) else a.node.E;
        var y := if then_ then Edge(false, b.node.T) else b.node.E;
        var e := Distinguish(perm, x, y);
        env := if then_ then e + {i} else e - {i};
        IgnoresUpper(perm, x.node, i, e);
        IgnoresUpper(perm, y.node, i, e);
      } else {
        var then_ := Edge(false, a.node.T) != Edge(false, b.node);
        var x := if then_ then Edge(false, a.node.T) else a.node.E;
        var e := Distinguish(perm, x, Edge(false, b.node));
        env := if then_ then e + {i} else e - {i};
        IgnoresUpper(perm, x.node, i, e);
        IgnoresUpper(perm, b.node, i, e);
      }
    }
  }

  // ---- cofactors and node construction ----------------------------------------------

  /** The cofactor by the variable i, which does not lie below the top of f. */
  function Cofactor(f: Edge, i: nat, b: bool): Edge {
    if f.node.Node? && f.node.index == i then
      (if b then Edge(f.neg, f.node.T) else Edge(f.neg != f.node.E.neg, f.node.E.node))
    else f
  }

  lemma CofactorFacts(perm: seq<nat>, f: Edge, i: nat, b: bool)
    requires PermOk(perm) && Good(perm, f.node) && i < |perm| && perm[i] <= Level(perm, f.node)
    ensures Good(perm, Cofactor(f, i, b).node) && perm[i] < Level(perm, Cofactor(f, i, b).node)
    ensures Level(perm, Cofactor(f, i, b).node) >= Level(perm, f.node)
    ensures Size(Cofactor(f, i, b).node) <= Size(f.node) && (perm[i] == Level(perm, f.node) ==> Size(Cofactor(f, i, b).node) < Size(f.node))
    ensures forall env :: (i in env <==> b) ==> Eval(f, env) == Eval(Cofactor(f, i, b), env)
  {
  }

  /** cuddUniqueInter after the complement has been moved off the then-edge; equal children
      need no node. */
  function Join(i: nat, t: Edge, e: Edge): (r: Edge) {
    if t == e then t
    else if t.neg then Edge(true, Node(i, t.node, Not(e)))
    else Edge(false, Node(i, t.node, e))
  }

  lemma JoinFacts(perm: seq<nat>, i: nat, t: Edge, e: Edge)
    requires PermOk(perm) && i < |perm| && Good(perm, t.node) && Good(perm, e.node)
    requires perm[i] < Level(perm, t.node) && perm[i] < Level(perm, e.node)
    ensures Good(perm, Join(i, t, e).node) && Level(perm, Join(i, t, e).node) >= perm[i]
    ensures forall env :: Eval(Join(i, t, e), env) == if i in env then Eval(t, env) else Eval(e, env)
  {
  }

  /** The conjunction of two diagrams. */
  function And(perm: seq<nat>, f: Edge, g: Edge): Edge
    decreases Size(f.node) + Size(g.node)
  {
    if f == ZERO || g == ZERO then ZERO
    else if f == ONE then g
    else if g == ONE then f
    else
      var i := if Level(perm, f.node) <= Level(perm, g.node) then f.node.index else g.node.index;
      Join(i, And(perm, Cofactor(f, i, true), Cofactor(g, i, true)), And(perm, Cofactor(f, i, false), Cofactor(g, i, false)))
  }

  lemma {:induction false} AndFacts(perm: seq<nat>, f: Edge, g: Edge)
    requires PermOk(perm) && Good(perm, f.node) && Good(perm, g.node)
    ensures Good(perm, And(perm, f, g).node)
    ensures Level(perm, And(perm, f, g).node) >= Level(perm, f.node) || Level(perm, And(perm, f, g).node) >= Level(perm, g.node)
    ensures forall env :: Eval(And(perm, f, g), env) == (Eval(f, env) && Eval(g, env))
    decreases Size(f.node) + Size(g.node), 1
  {
    hide And, Eval, Join, Good, PermOk;
    if f.node.One? || g.node.One? {
      AndTerminal(perm, f, g);
    } else {
      var i := AndUnfolds(perm, f, g);
      AndStep(perm, f, g, i, true);
      AndStep(perm, f, g, i, false);
      JoinFacts(perm, i, And(perm, Cofactor(f, i, true), Cofactor(g, i, true)), And(perm, Cofactor(f, i, false), Cofactor(g, i, false)));
      TopIs(perm, f, i);
      TopIs(perm, g, i);
    }
  }

  lemma AndUnfolds(perm: seq<nat>, f: Edge, g: Edge) returns (i: nat)
    requires f.node.Node? && g.node.Node?
    ensures i == if Level(perm, f.node) <= Level(perm, g.node) then f.node.index else g.node.index
    ensures And(perm, f, g) ==
            Join(i, And(perm, Cofactor(f, i, true), Cofactor(g, i, true)), And(perm, Cofactor(f, i, false), Cofactor(g, i, false)))
  {
    i := if Level(perm, f.node) <= Level(perm, g.node) then f.node.index else g.node.index;
  }

  lemma TopIs(perm: seq<nat>, f: Edge, i: nat)
    requires f.node.Node? && Good(perm, f.node)
    ensures f.node.index < |perm| && Level(perm, f.node) == perm[f.node.index]
  {
  }

  lemma AndTerminal(perm: seq<nat>, f: Edge, g: Edge)
    requires f.node.One? || g.node.One?
    ensures And(perm, f, g) in {f, g, ZERO}
    ensures forall env :: Eval(And(perm, f, g), env) == (Eval(f, env) && Eval(g, env))
    ensures Level(perm, And(perm, f, g).node) >= Level(perm, f.node) || Level(perm, And(perm, f, g).node) >= Level(perm, g.node)
  {
  }

  lemma {:induction false} AndStep(perm: seq<nat>, f: Edge, g: Edge, i: nat, b: bool)
    requires PermOk(perm) && Good(perm, f.node) && Good(perm, g.node) && f.node.Node? && g.node.Node?
    requires i == if Level(perm, f.node) <= Level(perm, g.node) then f.node.index else g.node.index
    ensures i < |perm|
    ensures var r := And(perm, Cofactor(f, i, b), Cofactor(g, i, b));
            && Good(perm, r.node) && Level(perm, r.node) > perm[i]
            && forall env :: (i in env <==> b) ==> Eval(r, env) == (Eval(f, env) && Eval(g, env))
    decreases Size(f.node) + Size(g.node), 0
  {
    hide And, Eval;
    CofactorFacts(perm, f, i, b);
    CofactorFacts(perm, g, i, b);
    AndFacts(perm, Cofactor(f, i, b), Cofactor(g, i, b));
  }
}
