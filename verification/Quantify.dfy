/** Existential quantification of Boolean functions, given as sets of satisfying assignments. */
module Quantify {
  import opened CuddDiagram

  type Fn = iset<Env>

  ghost function Den(e: Edge): Fn { iset env: Env | Eval(e, env) }

  /** Some choice of values for the variables of s makes F true. */
  ghost function Ex(s: set<nat>, F: Fn): Fn {
    iset env: Env | exists c: Env :: c <= s && (env - s) + c in F
  }

  ghost function Cof(F: Fn, i: nat, b: bool): Fn {
    iset env: Env | (if b then env + {i} else env - {i}) in F
  }

  ghost predicate Independent(F: Fn, s: set<nat>) {
    forall e1: Env, e2: Env :: e1 - s == e2 - s && e1 in F ==> e2 in F
  }

  lemma ExNone(F: Fn)
    ensures Ex({}, F) == F
  {
    forall env ensures env in Ex({}, F) <==> env in F {
      assert (env - {}) + {} == env;
      if env in Ex({}, F) {
        var c: Env :| c <= {} && (env - {}) + c in F;
        assert c == {};
      }
    }
  }

  lemma ExContains(s: set<nat>, F: Fn)
    ensures F <= Ex(s, F)
  {
    forall env | env in F ensures env in Ex(s, F) {
      var c := env * s;
      assert (env - s) + c == env;
    }
  }

  /** The result does not depend on what has been quantified. */
  lemma ExIndependent(s: set<nat>, F: Fn)
    ensures Independent(Ex(s, F), s)
  {
    forall e1: Env, e2: Env | e1 - s == e2 - s && e1 in Ex(s, F) ensures e2 in Ex(s, F) {
      var c: Env :| c <= s && (e1 - s) + c in F;
      assert (e2 - s) + c in F;
    }
  }

  lemma Moved(F: Fn, s: set<nat>, e1: Env, e2: Env)
    requires Independent(F, s) && e1 - s == e2 - s
    ensures e1 in F <==> e2 in F
  {
  }

  /** An independent factor can be taken out. */
  lemma ExFactor(s: set<nat>, F: Fn, G: Fn)
    requires Independent(F, s)
    ensures Ex(s, F * G) == F * Ex(s, G)
  {
    hide Independent;
    forall env ensures env in Ex(s, F * G) <==> env in F * Ex(s, G) {
      if env in Ex(s, F * G) {
        var c: Env :| c <= s && (env - s) + c in F * G;
        assert ((env - s) + c) - s == env - s;
        Moved(F, s, (env - s) + c, env);
      }
      if env in F * Ex(s, G) {
        var c: Env :| c <= s && (env - s) + c in G;
        assert ((env - s) + c) - s == env - s;
        Moved(F, s, (env - s) + c, env);
        assert (env - s) + c in F * G;
      }
    }
  }

  /** Quantifying one more variable: the two cofactors. */
  lemma ExMore(s: set<nat>, i: nat, F: Fn)
    requires i !in s
    ensures Ex({i} + s, F) == Ex(s, Cof(F, i, true)) + Ex(s, Cof(F, i, false))
  {
    forall env ensures env in Ex({i} + s, F) <==> env in Ex(s, Cof(F, i, true)) + Ex(s, Cof(F, i, false)) {
      if env in Ex({i} + s, F) {
        var c: Env :| c <= {i} + s && (env - ({i} + s)) + c in F;
        var c' := c - {i};
        if i in c {
          assert ((env - s) + c') + {i} == (env - ({i} + s)) + c;
        } else {
          assert ((env - s) + c') - {i} == (env - ({i} + s)) + c;
        }
      }
      if env in Ex(s, Cof(F, i, true)) {
        var c: Env :| c <= s && (env - s) + c in Cof(F, i, true);
        assert ((env - s) + c) + {i} == (env - ({i} + s)) + (c + {i});
      }
      if env in Ex(s, Cof(F, i, false)) {
        var c: Env :| c <= s && (env - s) + c in Cof(F, i, false);
        assert ((env - s) + c) - {i} == (env - ({i} + s)) + c;
      }
    }
  }

  lemma ExSkip(s: set<nat>, i: nat, F: Fn)
    requires i !in s && Cof(F, i, true) == F && Cof(F, i, false) == F
    ensures Ex({i} + s, F) == Ex(s, F)
  {
    hide Ex, Cof;
    ExMore(s, i, F);
    assert Ex(s, F) + Ex(s, F) == Ex(s, F);
  }

  /** Cofactors by a variable that is not quantified. */
  lemma ExCofactor(s: set<nat>, i: nat, b: bool, F: Fn)
    requires i !in s
    ensures Cof(Ex(s, F), i, b) == Ex(s, Cof(F, i, b))
  {
    forall env ensures env in Cof(Ex(s, F), i, b) <==> env in Ex(s, Cof(F, i, b)) {
      var env' := if b then env + {i} else env - {i};
      if env in Cof(Ex(s, F), i, b) {
        var c: Env :| c <= s && (env' - s) + c in F;
        assert (if b then ((env - s) + c) + {i} else ((env - s) + c) - {i}) == (env' - s) + c;
      }
      if env in Ex(s, Cof(F, i, b)) {
        var c: Env :| c <= s && (env - s) + c in Cof(F, i, b);
        assert (if b then ((env - s) + c) + {i} else ((env - s) + c) - {i}) == (env' - s) + c;
      }
    }
  }

  /** A function is put together from its cofactors. */
  lemma Shannon(F: Fn, i: nat, env: Env)
    ensures env in F <==> env in Cof(F, i, i in env)
  {
    assert (if i in env then env + {i} else env - {i}) == env;
  }

  lemma CofProduct(F: Fn, G: Fn, i: nat, b: bool)
    ensures Cof(F * G, i, b) == Cof(F, i, b) * Cof(G, i, b)
  {
  }

  // ---- diagrams ---------------------------------------------------------------------

  /** The function of a cofactor is the cofactor of the function. */
  lemma CofactorDen(perm: seq<nat>, f: Edge, i: nat, b: bool)
    requires PermOk(perm) && Good(perm, f.node) && i < |perm| && perm[i] <= Level(perm, f.node)
    ensures Den(Cofactor(f, i, b)) == Cof(Den(f), i, b)
  {
    CofactorFacts(perm, f, i, b);
    forall env ensures env in Den(Cofactor(f, i, b)) <==> env in Cof(Den(f), i, b) {
      IgnoresUpper(perm, Cofactor(f, i, b).node, i, env);
    }
  }

  lemma CofactorBelow(perm: seq<nat>, f: Edge, i: nat, b: bool)
    requires PermOk(perm) && Good(perm, f.node) && i < |perm| && perm[i] < Level(perm, f.node)
    ensures Cof(Den(f), i, b) == Den(f)
  {
    CofactorDen(perm, f, i, b);
  }

  /** Edges with the same function are the same. */
  lemma Canonical(perm: seq<nat>, a: Edge, b: Edge)
    requires PermOk(perm) && Good(perm, a.node) && Good(perm, b.node)
    ensures Den(a) == Den(b) <==> a == b
  {
    if a != b {
      var env := Distinguish(perm, a, b);
      assert env in Den(a) <==> Eval(a, env);
      assert env in Den(b) <==> Eval(b, env);
    }
  }

  /** A product of positive literals, as a diagram. */
  ghost predicate Cube(perm: seq<nat>, c: Edge) { Good(perm, c.node) && !c.neg && Literals(c.node) }

  ghost predicate Literals(d: Dd) { d.Node? ==> d.E == ZERO && Literals(d.T) }

  lemma {:induction false} CubeBelow(perm: seq<nat>, d: Dd, i: nat)
    requires PermOk(perm) && Good(perm, d) && i in Indices(d)
    ensures i < |perm| && Level(perm, d) <= perm[i]
  {
    if d.Node? && i != d.index {
      CubeBelow(perm, if i in Indices(d.T) then d.T else d.E.node, i);
    }
  }

  lemma CubeStep(perm: seq<nat>, c: Edge)
    requires PermOk(perm) && Cube(perm, c) && c.node.Node?
    ensures c.node.index < |perm| && Cube(perm, Edge(false, c.node.T)) && Level(perm, c.node.T) > perm[c.node.index]
    ensures Indices(c.node) == {c.node.index} + Indices(c.node.T) && c.node.index !in Indices(c.node.T)
  {
    if c.node.index in Indices(c.node.T) { CubeBelow(perm, c.node.T, c.node.index); }
    assert Indices(c.node.E.node) == {};
  }
}
