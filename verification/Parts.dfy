/** Which nodes have parents in a table where everything hangs on nodes referenced from outside: a node
    has one if and only if it is a proper cofactor, by values for the variables that come first. */
module Parts {
  import opened NodeTable
  import opened Diagram
  import opened RefCount
  import opened KernelTheory
  import opened ReorderTheory

  /** env with the values of a for the variables of P. */
  function Override(env: Env, P: set<nat>, a: Env): (e: Env)
    ensures forall v :: v in e <==> if v in P then v in a else v in env
  {
    (env - P) + (a * P)
  }

  /** The variables on the first k levels. */
  ghost function Prefix(lev: seq<nat>, k: nat): (P: set<nat>)
    ensures forall v: nat :: v in P <==> v < |lev| && v != |lev| - 1 && lev[v] < k
  {
    set v: nat | v < |lev| && v != |lev| - 1 && lev[v] < k
  }

  /** i is what r becomes when the variables of P get the values of a. */
  ghost predicate CofactorOf(nodes: seq<BddNode>, lev: seq<nat>, r: int, P: set<nat>, a: Env, i: int)
    requires Ordered(nodes, lev) && Ref(nodes, r) && Ref(nodes, i)
  {
    forall env: Env :: Eval(nodes, lev, i, env) == Eval(nodes, lev, r, Override(env, P, a))
  }

  /** A diagram reads no variable above its top. */
  lemma {:induction false} EvalReadsBelow(nodes: seq<BddNode>, lev: seq<nat>, i: int, e1: Env, e2: Env)
    requires Ordered(nodes, lev) && Ref(nodes, i)
    requires forall v: nat :: v < |lev| && v != |lev| - 1 && lev[v] >= Pos(nodes, lev, i) ==> (v in e1 <==> v in e2)
    ensures Eval(nodes, lev, i, e1) == Eval(nodes, lev, i, e2)
    decreases |lev| - Pos(nodes, lev, i)
  {
    if i >= 2 {
      assert NodeOk(nodes, lev, i);
      EvalReadsBelow(nodes, lev, nodes[i].low, e1, e2);
      EvalReadsBelow(nodes, lev, nodes[i].high, e1, e2);
    }
  }

  /** A path from r to i gives the values. */
  lemma {:induction false} PathGives(nodes: seq<BddNode>, lev: seq<nat>, r: int, i: int) returns (a: Env)
    requires Ordered(nodes, lev) && Ref(nodes, r) && i in Reach(nodes, lev, r)
    ensures Ref(nodes, i) && CofactorOf(nodes, lev, r, Prefix(lev, Pos(nodes, lev, i)), a, i)
    decreases |lev| - Pos(nodes, lev, r)
  {
    ReachBelow(nodes, lev, r, i);
    var P := Prefix(lev, Pos(nodes, lev, i));
    if i == r {
      a := {};
      forall env: Env ensures Eval(nodes, lev, i, env) == Eval(nodes, lev, r, Override(env, P, a)) {
        EvalReadsBelow(nodes, lev, i, env, Override(env, P, a));
      }
    } else {
      assert NodeOk(nodes, lev, r);
      var b := i in Reach(nodes, lev, nodes[r].high);
      var c, v := if b then nodes[r].high else nodes[r].low, nodes[r].level;
      var a1 := PathGives(nodes, lev, c, i);
      a := With(a1, v, b);
      forall env: Env ensures Eval(nodes, lev, i, env) == Eval(nodes, lev, r, Override(env, P, a)) {
        EvalReadsBelow(nodes, lev, c, Override(env, P, a1), Override(env, P, a));
      }
    }
  }

  /** The node reached from r when the variables on the first k levels get the values of a; it is r or a
      child of a node. */
  lemma {:induction false} WalkReaches(nodes: seq<BddNode>, lev: seq<nat>, r: int, k: nat, a: Env) returns (x: int)
    requires Ordered(nodes, lev) && Ref(nodes, r)
    ensures Ref(nodes, x) && CofactorOf(nodes, lev, r, Prefix(lev, k), a, x)
    ensures x == r || exists p {:trigger Live(nodes, p)} :: Live(nodes, p) && (nodes[p].low == x || nodes[p].high == x)
    ensures x >= 2 ==> Pos(nodes, lev, x) >= k
    decreases |lev| - Pos(nodes, lev, r)
  {
    var P := Prefix(lev, k);
    if r < 2 || Pos(nodes, lev, r) >= k {
      x := r;
      forall env: Env ensures Eval(nodes, lev, x, env) == Eval(nodes, lev, r, Override(env, P, a)) {
        if r >= 2 {
          EvalReadsBelow(nodes, lev, r, env, Override(env, P, a));
        }
      }
    } else {
      assert NodeOk(nodes, lev, r);
      x := WalkReaches(nodes, lev, if nodes[r].level in a then nodes[r].high else nodes[r].low, k, a);
    }
  }

  lemma SomeParent(nodes: seq<BddNode>, m: int) returns (p: int)
    requires InDegree(nodes, m) > 0
    ensures 0 <= p < |nodes| && Edges(nodes[p], m) > 0
  {
    if forall i :: 0 <= i < |nodes| ==> Edges(nodes[i], m) == 0 {
      NoParents(nodes, m);
    }
    p :| 0 <= p < |nodes| && Edges(nodes[p], m) != 0;
  }

  lemma LiveParent(nodes: seq<BddNode>, lev: seq<nat>, x: int) returns (p: int)
    requires Ordered(nodes, lev) && Live(nodes, x) && InDegree(nodes, x) > 0
    ensures Live(nodes, p) && Pos(nodes, lev, p) < Pos(nodes, lev, x) && x in Reach(nodes, lev, p)
  {
    p := SomeParent(nodes, x);
    assert Live(nodes, p) ==> NodeOk(nodes, lev, p);
  }

  /** Counted nodes without references from outside hang on other nodes, and so on up to one with such
      references; only stuck nodes need not. */
  lemma {:induction false} HangsOn(nodes: seq<BddNode>, lev: seq<nat>, ext: seq<nat>, x: int) returns (r: int)
    requires Ordered(nodes, lev) && Conserved(nodes, ext) && Live(nodes, x)
    requires forall i {:trigger Live(nodes, i)} :: Live(nodes, i) ==> nodes[i].refcount > 0 && (nodes[i].refcount == MAXREF ==> ext[i] > 0)
    ensures Live(nodes, r) && ext[r] > 0 && x in Reach(nodes, lev, r)
    decreases Pos(nodes, lev, x)
  {
    if ext[x] > 0 {
      r := x;
    } else {
      var d := InDegree(nodes, x);
      assert CountOk(nodes, ext, x);
      var p := LiveParent(nodes, lev, x);
      r := HangsOn(nodes, lev, ext, p);
      ReachBelow(nodes, lev, r, p);
    }
  }

  /** i is a cofactor of another node referenced from outside, by values for the first k levels. */
  ghost predicate IsPart(nodes: seq<BddNode>, lev: seq<nat>, ext: seq<nat>, i: int, r: int, k: nat, a: Env)
    requires Ordered(nodes, lev) && Ref(nodes, i)
  {
    r != i && Live(nodes, r) && r < |ext| && ext[r] > 0 && CofactorOf(nodes, lev, r, Prefix(lev, k), a, i)
  }

  /** A cofactor of another node has a parent. */
  lemma PartHasParent(nodes: seq<BddNode>, lev: seq<nat>, ext: seq<nat>, i: int, r: int, k: nat, a: Env)
    requires Ordered(nodes, lev) && Reduced(nodes) && Unique(nodes) && Live(nodes, i) && IsPart(nodes, lev, ext, i, r, k, a)
    ensures InDegree(nodes, i) > 0
  {
    var x := WalkReaches(nodes, lev, r, k, a);
    if x != i {
      var env := Distinguish(nodes, lev, x, i);
    }
    var p :| Live(nodes, p) && (nodes[p].low == i || nodes[p].high == i);
    EdgeCounts(nodes, p, i);
  }

  /** A node with a parent is a cofactor of another node referenced from outside. */
  lemma ParentMakesPart(nodes: seq<BddNode>, lev: seq<nat>, ext: seq<nat>, i: int) returns (r: int, k: nat, a: Env)
    requires Ordered(nodes, lev) && Conserved(nodes, ext) && Live(nodes, i) && InDegree(nodes, i) > 0
    requires forall j {:trigger Live(nodes, j)} :: Live(nodes, j) ==> nodes[j].refcount > 0 && (nodes[j].refcount == MAXREF ==> ext[j] > 0)
    ensures IsPart(nodes, lev, ext, i, r, k, a)
  {
    var p := LiveParent(nodes, lev, i);
    r := HangsOn(nodes, lev, ext, p);
    ReachBelow(nodes, lev, r, p);
    k := Pos(nodes, lev, i);
    a := PathGives(nodes, lev, r, i);
  }
}
