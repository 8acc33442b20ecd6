/** Decision diagrams stored in a node table: the Boolean function an identifier
    denotes, its structural support, and canonicity of a reduced table without
    duplicates.  `lev` gives the position in the variable order of the number stored
    in a node's `level` field; the last entry belongs to the two terminals. */
module Diagram {
  import opened NodeTable

  /** An assignment: the set of the true variables, named as in `level` fields. */
  type Env = set<nat>
  /** A Boolean function: the set of its satisfying assignments. */
  type Fn = iset<Env>

  /** A terminal or an allocated node. */
  predicate Ref(nodes: seq<BddNode>, i: int) {
    |nodes| >= 2 && (i == 0 || i == 1 || Live(nodes, i))
  }

  /** An injective assignment of positions 0.. to variables, the terminals last. */
  ghost predicate IsOrder(lev: seq<nat>) {
    && |lev| >= 1
    && lev[|lev|-1] == |lev| - 1
    && (forall v :: 0 <= v < |lev| - 1 ==> lev[v] < |lev| - 1)
    && (forall v, w :: 0 <= v < w < |lev| ==> lev[v] != lev[w])
  }

  ghost predicate EdgeOk(nodes: seq<BddNode>, lev: seq<nat>, i: int, c: int)
    requires 0 <= i < |nodes|
  {
    && Ref(nodes, c)
    && nodes[i].level < |lev| && nodes[c].level < |lev|
    && lev[nodes[i].level] < lev[nodes[c].level]
  }

  ghost predicate NodeOk(nodes: seq<BddNode>, lev: seq<nat>, i: int)
    requires Live(nodes, i)
  {
    && nodes[i].level < |lev| - 1
    && EdgeOk(nodes, lev, i, nodes[i].low)
    && EdgeOk(nodes, lev, i, nodes[i].high)
  }

  ghost predicate Ordered(nodes: seq<BddNode>, lev: seq<nat>) {
    && IsOrder(lev)
    && |nodes| >= 2
    && nodes[0].level == nodes[1].level == |lev| - 1
    && nodes[0].low == nodes[0].high == 0 && nodes[1].low == nodes[1].high == 1
    && (forall i {:trigger NodeOk(nodes, lev, i)} :: Live(nodes, i) ==> NodeOk(nodes, lev, i))
  }

  /** The position of an identifier in the variable order. */
  ghost function Pos(nodes: seq<BddNode>, lev: seq<nat>, i: int): (p: nat)
    requires Ordered(nodes, lev) && Ref(nodes, i)
    ensures nodes[i].level < |lev| && p == lev[nodes[i].level]
    ensures p == |lev| - 1 <==> i < 2
  {
    assert i >= 2 ==> NodeOk(nodes, lev, i);
    lev[nodes[i].level]
  }

  ghost predicate Reduced(nodes: seq<BddNode>) {
    forall i {:trigger Live(nodes, i)} :: Live(nodes, i) ==> nodes[i].low != nodes[i].high
  }

  predicate SameTriple(x: BddNode, y: BddNode) {
    x.level == y.level && x.low == y.low && x.high == y.high
  }

  ghost predicate Unique(nodes: seq<BddNode>) {
    forall i, j {:trigger Live(nodes, i), Live(nodes, j)} ::
      Live(nodes, i) && Live(nodes, j) && SameTriple(nodes[i], nodes[j]) ==> i == j
  }

  /** The Boolean function denoted by an identifier. */
  ghost function Eval(nodes: seq<BddNode>, lev: seq<nat>, i: int, env: Env): bool
    requires Ordered(nodes, lev) && Ref(nodes, i)
    decreases |lev| - Pos(nodes, lev, i)
  {
    if i == 0 then false
    else if i == 1 then true
    else
      assert NodeOk(nodes, lev, i);
      var lo, hi := nodes[i].low, nodes[i].high;
      if nodes[i].level in env then Eval(nodes, lev, hi, env) else Eval(nodes, lev, lo, env)
  }

  /** The variables of the nodes below an identifier. */
  ghost function Support(nodes: seq<BddNode>, lev: seq<nat>, i: int): set<nat>
    requires Ordered(nodes, lev) && Ref(nodes, i)
    decreases |lev| - Pos(nodes, lev, i)
  {
    if i < 2 then {}
    else
      assert NodeOk(nodes, lev, i);
      var lo, hi := nodes[i].low, nodes[i].high;
      {nodes[i].level} + Support(nodes, lev, lo) + Support(nodes, lev, hi)
  }

  function With(env: Env, v: nat, b: bool): Env {
    if b then env + {v} else env - {v}
  }

  /** A node's function does not read variables placed above the node. */
  lemma {:induction false} EvalIgnoresUpper(nodes: seq<BddNode>, lev: seq<nat>, i: int, env: Env, v: nat, b: bool)
    requires Ordered(nodes, lev) && Ref(nodes, i)
    requires v < |lev| && lev[v] < Pos(nodes, lev, i)
    ensures Eval(nodes, lev, i, With(env, v, b)) == Eval(nodes, lev, i, env)
    decreases |lev| - Pos(nodes, lev, i)
  {
    if i >= 2 {
      assert NodeOk(nodes, lev, i);
      EvalIgnoresUpper(nodes, lev, nodes[i].low, env, v, b);
      EvalIgnoresUpper(nodes, lev, nodes[i].high, env, v, b);
    }
  }

  /** Canonicity: in an ordered, reduced table without duplicates, different
      identifiers denote different functions. */
  lemma {:induction false} Distinguish(nodes: seq<BddNode>, lev: seq<nat>, i: int, j: int) returns (env: Env)
    requires Ordered(nodes, lev) && Reduced(nodes) && Unique(nodes)
    requires Ref(nodes, i) && Ref(nodes, j) && i != j
    ensures Eval(nodes, lev, i, env) != Eval(nodes, lev, j, env)
    decreases 2 * |lev| - Pos(nodes, lev, i) - Pos(nodes, lev, j), Pos(nodes, lev, i) > Pos(nodes, lev, j)
  {
    if i < 2 && j < 2 {
      env := {};
    } else if Pos(nodes, lev, i) > Pos(nodes, lev, j) {
      env := Distinguish(nodes, lev, j, i);
    } else {
      assert NodeOk(nodes, lev, i);
      var v := nodes[i].level;
      if lev[v] < Pos(nodes, lev, j) {
        var b := nodes[i].low == j;
        var c := if b then nodes[i].high else nodes[i].low;
        var e := Distinguish(nodes, lev, c, j);
        env := With(e, v, b);
        EvalIgnoresUpper(nodes, lev, c, e, v, b);
        EvalIgnoresUpper(nodes, lev, j, e, v, b);
      } else {
        assert NodeOk(nodes, lev, j) && nodes[j].level == v;
        var b := nodes[i].low == nodes[j].low;
        var c := if b then nodes[i].high else nodes[i].low;
        var d := if b then nodes[j].high else nodes[j].low;
        var e := Distinguish(nodes, lev, c, d);
        env := With(e, v, b);
        EvalIgnoresUpper(nodes, lev, c, e, v, b);
        EvalIgnoresUpper(nodes, lev, d, e, v, b);
      }
    }
  }

  // ---- denotations that are consistent node by node -------------------------------

  /** den assigns a function to every entry and agrees with the node i. */
  ghost predicate DenAt(nodes: seq<BddNode>, den: seq<Fn>, i: int)
    requires Live(nodes, i) && |den| == |nodes|
  {
    && 0 <= nodes[i].low < |nodes| && 0 <= nodes[i].high < |nodes|
    && forall env :: env in den[i] <==>
         if nodes[i].level in env then env in den[nodes[i].high] else env in den[nodes[i].low]
  }

  ghost predicate Denotes(nodes: seq<BddNode>, den: seq<Fn>) {
    && 2 <= |nodes| == |den|
    && (forall env :: env !in den[0]) && (forall env :: env in den[1])
    && (forall i {:trigger DenAt(nodes, den, i)} :: Live(nodes, i) ==> DenAt(nodes, den, i))
  }

  ghost function EvalDen(nodes: seq<BddNode>, lev: seq<nat>): seq<Fn>
    requires Ordered(nodes, lev)
  {
    seq(|nodes|, i requires 0 <= i < |nodes| => iset env: Env | Ref(nodes, i) && Eval(nodes, lev, i, env))
  }

  lemma EvalDenotes(nodes: seq<BddNode>, lev: seq<nat>)
    requires Ordered(nodes, lev)
    ensures Denotes(nodes, EvalDen(nodes, lev))
  {
    var den := EvalDen(nodes, lev);
    forall i, env: Env | Ref(nodes, i) ensures env in den[i] <==> Eval(nodes, lev, i, env) {
      assert den[i] == iset e: Env | Ref(nodes, i) && Eval(nodes, lev, i, e);
    }
    forall i | Live(nodes, i) ensures DenAt(nodes, den, i) {
      assert NodeOk(nodes, lev, i);
    }
  }

  /** A consistent denotation is the function the diagram evaluates to. */
  lemma {:induction false} DenIsEval(nodes: seq<BddNode>, lev: seq<nat>, den: seq<Fn>, i: int, env: Env)
    requires Ordered(nodes, lev) && Denotes(nodes, den) && Ref(nodes, i)
    ensures env in den[i] <==> Eval(nodes, lev, i, env)
    decreases |lev| - Pos(nodes, lev, i)
  {
    if i >= 2 {
      assert NodeOk(nodes, lev, i);
      assert DenAt(nodes, den, i);
      DenIsEval(nodes, lev, den, nodes[i].low, env);
      DenIsEval(nodes, lev, den, nodes[i].high, env);
    }
  }

  // ---- supports that are consistent node by node ----------------------------------

  ghost predicate SupAt(nodes: seq<BddNode>, sup: seq<set<nat>>, i: int)
    requires Live(nodes, i) && |sup| == |nodes|
  {
    && 0 <= nodes[i].low < |nodes| && 0 <= nodes[i].high < |nodes|
    && sup[i] == {nodes[i].level} + sup[nodes[i].low] + sup[nodes[i].high]
  }

  ghost predicate Supports(nodes: seq<BddNode>, sup: seq<set<nat>>) {
    && 2 <= |nodes| == |sup|
    && sup[0] == sup[1] == {}
    && (forall i {:trigger SupAt(nodes, sup, i)} :: Live(nodes, i) ==> SupAt(nodes, sup, i))
  }

  ghost function SupportSeq(nodes: seq<BddNode>, lev: seq<nat>): seq<set<nat>>
    requires Ordered(nodes, lev)
  {
    seq(|nodes|, i requires 0 <= i < |nodes| => if Ref(nodes, i) then Support(nodes, lev, i) else {})
  }

  lemma SupportSupports(nodes: seq<BddNode>, lev: seq<nat>)
    requires Ordered(nodes, lev)
    ensures Supports(nodes, SupportSeq(nodes, lev))
  {
    var sup := SupportSeq(nodes, lev);
    forall i | Live(nodes, i) ensures SupAt(nodes, sup, i) {
      assert NodeOk(nodes, lev, i);
    }
  }

  lemma {:induction false} SupIsSupport(nodes: seq<BddNode>, lev: seq<nat>, sup: seq<set<nat>>, i: int)
    requires Ordered(nodes, lev) && Supports(nodes, sup) && Ref(nodes, i)
    ensures sup[i] == Support(nodes, lev, i)
    decreases |lev| - Pos(nodes, lev, i)
  {
    if i >= 2 {
      assert NodeOk(nodes, lev, i);
      assert SupAt(nodes, sup, i);
      SupIsSupport(nodes, lev, sup, nodes[i].low);
      SupIsSupport(nodes, lev, sup, nodes[i].high);
    }
  }
}
