/** Simultaneous renaming of variables: what bdd_correctify and bdd_replace build, in terms of
    functions and supports. */
module Renaming {
  import opened NodeTable
  import opened Diagram
  import opened KernelTheory
  import opened Collection

  /** A diagram reads no variable outside its support. */
  lemma {:induction false} EvalReadsSupport(nodes: seq<BddNode>, lev: seq<nat>, i: int, e1: Env, e2: Env)
    requires Ordered(nodes, lev) && Ref(nodes, i)
    requires forall v :: v in Support(nodes, lev, i) ==> (v in e1 <==> v in e2)
    ensures Eval(nodes, lev, i, e1) == Eval(nodes, lev, i, e2)
    decreases |lev| - Pos(nodes, lev, i)
  {
    if i >= 2 {
      assert NodeOk(nodes, lev, i);
      EvalReadsSupport(nodes, lev, nodes[i].low, e1, e2);
      EvalReadsSupport(nodes, lev, nodes[i].high, e1, e2);
    }
  }

  lemma {:induction false} SupportBelow(nodes: seq<BddNode>, n: nat, i: int, v: nat)
    requires Ordered(nodes, Levels(n)) && Ref(nodes, i) && v in Support(nodes, Levels(n), i)
    ensures nodes[i].level <= v < n
    decreases n + 1 - Pos(nodes, Levels(n), i)
  {
    assert i >= 2 ==> NodeOk(nodes, Levels(n), i);
    if v != nodes[i].level {
      SupportBelow(nodes, n, if v in Support(nodes, Levels(n), nodes[i].low) then nodes[i].low else nodes[i].high, v);
    }
  }

  // ---- bdd_correctify ---------------------------------------------------------------

  /** res, a diagram of n1, is "if level then r else l" for diagrams of n0. */
  ghost predicate IteOf(n0: seq<BddNode>, n1: seq<BddNode>, lev: seq<nat>, level: nat, l: int, r: int, res: int) {
    && Ordered(n0, lev) && Ordered(n1, lev) && Ref(n0, l) && Ref(n0, r) && Ref(n1, res)
    && (n1[res].level >= level || n1[res].level >= n0[l].level || n1[res].level >= n0[r].level)
    && Support(n1, lev, res) <= {level} + Support(n0, lev, l) + Support(n0, lev, r)
    && forall env :: Eval(n1, lev, res, env) == if level in env then Eval(n0, lev, r, env) else Eval(n0, lev, l, env)
  }

  lemma RetainsDiagram(n0: seq<BddNode>, n1: seq<BddNode>, lev: seq<nat>, S: set<int>, i: int)
    requires Ordered(n0, lev) && Ordered(n1, lev) && Retains(n0, n1, S) && (i in S || i == 0 || i == 1)
    ensures Ref(n0, i) && Ref(n1, i) && n1[i].level == n0[i].level && Support(n1, lev, i) == Support(n0, lev, i)
    ensures forall env :: Eval(n1, lev, i, env) == Eval(n0, lev, i, env)
  {
    RetainsSupport(n0, n1, lev, S, i);
    assert i >= 2 ==> SameNode(n0, n1, i);
    forall env ensures Eval(n1, lev, i, env) == Eval(n0, lev, i, env) { RetainsEval(n0, n1, lev, S, i, env); }
  }

  lemma LaterIte(n0: seq<BddNode>, n1: seq<BddNode>, n2: seq<BddNode>, lev: seq<nat>, S: set<int>, level: nat, l: int, r: int, res: int)
    requires IteOf(n1, n2, lev, level, l, r, res) && Ordered(n0, lev) && Retains(n0, n1, S)
    requires (l in S || l == 0 || l == 1) && (r in S || r == 0 || r == 1)
    ensures IteOf(n0, n2, lev, level, l, r, res)
  {
    RetainsDiagram(n0, n1, lev, S, l);
    RetainsDiagram(n0, n1, lev, S, r);
  }

  lemma KeptIte(n0: seq<BddNode>, n1: seq<BddNode>, n2: seq<BddNode>, lev: seq<nat>, S: set<int>, level: nat, l: int, r: int, res: int)
    requires IteOf(n0, n1, lev, level, l, r, res) && Ordered(n2, lev) && Retains(n1, n2, S) && (res in S || res == 0 || res == 1)
    ensures IteOf(n0, n2, lev, level, l, r, res)
  {
    RetainsDiagram(n1, n2, lev, S, res);
  }

  /** Branching on v, which does not lie below the top of f. */
  lemma ChildFacts(nodes: seq<BddNode>, n: nat, f: int, v: nat, b: bool)
    requires Ordered(nodes, Levels(n)) && Ref(nodes, f) && v < n && v <= nodes[f].level
    ensures Ref(nodes, Child(nodes, f, v, b)) && v < nodes[Child(nodes, f, v, b)].level <= n
    ensures Support(nodes, Levels(n), Child(nodes, f, v, b)) <= Support(nodes, Levels(n), f) - {v}
    ensures forall env :: (v in env <==> b) ==> Eval(nodes, Levels(n), f, env) == Eval(nodes, Levels(n), Child(nodes, f, v, b), env)
  {
    if f >= 2 {
      assert NodeOk(nodes, Levels(n), f);
      if nodes[f].low >= 2 { assert NodeOk(nodes, Levels(n), nodes[f].low); }
      if nodes[f].high >= 2 { assert NodeOk(nodes, Levels(n), nodes[f].high); }
    }
    var c := Child(nodes, f, v, b);
    forall u | u in Support(nodes, Levels(n), c) ensures u != v { SupportBelow(nodes, n, c, u); }
  }

  lemma ChildrenCover(nodes: seq<BddNode>, n: nat, f: int, v: nat)
    requires Ordered(nodes, Levels(n)) && Ref(nodes, f) && v < n
    requires Ref(nodes, Child(nodes, f, v, false)) && Ref(nodes, Child(nodes, f, v, true))
    ensures Support(nodes, Levels(n), f) <=
            {v} + Support(nodes, Levels(n), Child(nodes, f, v, false)) + Support(nodes, Levels(n), Child(nodes, f, v, true))
  {
    assert f >= 2 ==> NodeOk(nodes, Levels(n), f);
  }

  /** The node made over two results of bdd_correctify. */
  lemma IteBranch(n0: seq<BddNode>, n1: seq<BddNode>, n: nat, level: nat, v: nat, l: int, r: int, x: int, y: int, res: int)
    requires Ordered(n0, Levels(n)) && Ref(n0, l) && Ref(n0, r) && v < n && v < level
    requires v <= n0[l].level && v <= n0[r].level && (v == n0[l].level || v == n0[r].level)
    requires IteOf(n0, n1, Levels(n), level, Child(n0, l, v, false), Child(n0, r, v, false), x)
    requires IteOf(n0, n1, Levels(n), level, Child(n0, l, v, true), Child(n0, r, v, true), y)
    requires IsNode(n1, res, v, x, y) && Ref(n1, res)
    ensures IteOf(n0, n1, Levels(n), level, l, r, res)
  {
    hide Ordered, Support, Child, IsNode, Ref, Levels;
    ChildFacts(n0, n, l, v, false);
    ChildFacts(n0, n, l, v, true);
    ChildFacts(n0, n, r, v, false);
    ChildFacts(n0, n, r, v, true);
    VertexEval(n1, n, v, x, y, res);
    TopInSupport(n0, n, l, v);
    TopInSupport(n0, n, r, v);
  }

  lemma TopInSupport(nodes: seq<BddNode>, n: nat, i: int, v: nat)
    requires Ordered(nodes, Levels(n)) && Ref(nodes, i) && v < n
    ensures v == nodes[i].level ==> v in Support(nodes, Levels(n), i)
  {
    assert i >= 2 ==> NodeOk(nodes, Levels(n), i);
  }

  lemma VertexEval(nodes: seq<BddNode>, n: nat, v: nat, x: int, y: int, res: int)
    requires Ordered(nodes, Levels(n)) && Ref(nodes, x) && Ref(nodes, y) && Ref(nodes, res) && IsNode(nodes, res, v, x, y)
    requires v < n && v < nodes[x].level && v < nodes[y].level
    ensures nodes[res].level >= v
    ensures Support(nodes, Levels(n), res) <= {v} + Support(nodes, Levels(n), x) + Support(nodes, Levels(n), y)
    ensures forall env :: Eval(nodes, Levels(n), res, env) == if v in env then Eval(nodes, Levels(n), y, env) else Eval(nodes, Levels(n), x, env)
  {
    if x != y { assert NodeOk(nodes, Levels(n), res); }
  }

  /** Above both operands the node is made directly. */
  lemma IteDirect(n0: seq<BddNode>, n1: seq<BddNode>, n: nat, S: set<int>, level: nat, l: int, r: int, res: int)
    requires Ordered(n0, Levels(n)) && Ordered(n1, Levels(n)) && Retains(n0, n1, S)
    requires (l in S || l == 0 || l == 1) && (r in S || r == 0 || r == 1)
    requires IsNode(n1, res, level, l, r) && Ref(n1, res) && level < n
    requires Ref(n0, l) && Ref(n0, r) && level < n0[l].level && level < n0[r].level
    ensures IteOf(n0, n1, Levels(n), level, l, r, res)
  {
    RetainsDiagram(n0, n1, Levels(n), S, l);
    RetainsDiagram(n0, n1, Levels(n), S, r);
    VertexEval(n1, n, level, l, r, res);
  }

  // ---- bdd_replace ------------------------------------------------------------------

  /** The assignment in which variable l has the value of its replacement. */
  ghost function Renamed(T: seq<nat>, env: Env): (e: Env)
    ensures forall l: nat :: l in e <==> l < |T| && T[l] in env
  {
    set l: nat | l < |T| && T[l] in env
  }

  ghost function Image(T: seq<nat>, s: set<nat>): (t: set<nat>)
  {
    set l | l in s && l < |T| :: T[l]
  }

  lemma {:induction false} ImageSize(T: seq<nat>, s: set<nat>)
    ensures |Image(T, s)| <= |s|
    decreases s
  {
    if s == {} {
      assert Image(T, s) == {};
    } else {
      var x :| x in s;
      ImageSize(T, s - {x});
      if x < |T| { assert Image(T, s) == Image(T, s - {x}) + {T[x]}; } else { assert Image(T, s) == Image(T, s - {x}); }
    }
  }

  /** res, a diagram of n1, is the diagram r of n0 with its variables renamed by T. */
  ghost predicate ReplacedBy(n0: seq<BddNode>, n1: seq<BddNode>, lev: seq<nat>, T: seq<nat>, r: int, res: int) {
    && Ordered(n0, lev) && Ordered(n1, lev) && Ref(n0, r) && Ref(n1, res)
    && Support(n1, lev, res) <= Image(T, Support(n0, lev, r))
    && forall env :: Eval(n1, lev, res, env) == Eval(n0, lev, r, Renamed(T, env))
  }

  lemma LaterReplaced(n0: seq<BddNode>, n1: seq<BddNode>, n2: seq<BddNode>, lev: seq<nat>, S: set<int>, T: seq<nat>, r: int, res: int)
    requires ReplacedBy(n1, n2, lev, T, r, res) && Ordered(n0, lev) && Retains(n0, n1, S) && (r in S || r == 0 || r == 1)
    ensures ReplacedBy(n0, n2, lev, T, r, res)
  {
    RetainsDiagram(n0, n1, lev, S, r);
  }

  lemma NowReplaced(n0: seq<BddNode>, n1: seq<BddNode>, lev: seq<nat>, S: set<int>, T: seq<nat>, r: int, res: int)
    requires ReplacedBy(n0, n1, lev, T, r, res) && Retains(n0, n1, S) && (r in S || r == 0 || r == 1)
    ensures ReplacedBy(n1, n1, lev, T, r, res)
  {
    RetainsDiagram(n0, n1, lev, S, r);
  }

  lemma KeptReplaced(n0: seq<BddNode>, n1: seq<BddNode>, n2: seq<BddNode>, lev: seq<nat>, S: set<int>, T: seq<nat>, r: int, res: int)
    requires ReplacedBy(n0, n1, lev, T, r, res) && Ordered(n2, lev) && Retains(n1, n2, S) && (res in S || res == 0 || res == 1)
    ensures ReplacedBy(n0, n2, lev, T, r, res)
  {
    RetainsDiagram(n1, n2, lev, S, res);
  }

  /** Below the last renamed level nothing has to be done. */
  lemma NothingToReplace(nodes: seq<BddNode>, n: nat, T: seq<nat>, last: int, r: int)
    requires Ordered(nodes, Levels(n)) && Ref(nodes, r) && (r < 2 || nodes[r].level > last) && |T| == n
    requires forall l :: 0 <= l < n && l > last ==> T[l] == l
    ensures ReplacedBy(nodes, nodes, Levels(n), T, r, r)
  {
    var lev := Levels(n);
    forall v | v in Support(nodes, lev, r) ensures v < n && T[v] == v { SupportBelow(nodes, n, r, v); }
    forall v | v in Support(nodes, lev, r) ensures v in Image(T, Support(nodes, lev, r)) { assert T[v] == v; }
    forall env ensures Eval(nodes, lev, r, env) == Eval(nodes, lev, r, Renamed(T, env)) {
      EvalReadsSupport(nodes, lev, r, env, Renamed(T, env));
    }
  }

  /** The two renamed children joined at the new variable. */
  lemma ReplaceNode(n0: seq<BddNode>, n1: seq<BddNode>, n2: seq<BddNode>, n: nat, T: seq<nat>, r: int, x: int, y: int, res: int)
    requires Ordered(n0, Levels(n)) && Live(n0, r) && |T| == n && Ref(n0, n0[r].low) && Ref(n0, n0[r].high) && n0[r].level < n
    requires ReplacedBy(n0, n1, Levels(n), T, n0[r].low, x) && ReplacedBy(n0, n1, Levels(n), T, n0[r].high, y)
    requires IteOf(n1, n2, Levels(n), T[n0[r].level], x, y, res)
    ensures ReplacedBy(n0, n2, Levels(n), T, r, res)
  {
    hide Ordered, Support, Eval, Levels;
    SupportAt(n0, n, r);
    var v := n0[r].level;
    ImageOf(T, v, Support(n0, Levels(n), n0[r].low), Support(n0, Levels(n), n0[r].high), Support(n0, Levels(n), r));
    forall env ensures Eval(n2, Levels(n), res, env) == Eval(n0, Levels(n), r, Renamed(T, env)) {
      EvalAt(n0, n, r, Renamed(T, env));
    }
  }

  lemma EvalAt(nodes: seq<BddNode>, n: nat, r: int, env: Env)
    requires Ordered(nodes, Levels(n)) && Live(nodes, r) && Ref(nodes, nodes[r].low) && Ref(nodes, nodes[r].high)
    ensures Eval(nodes, Levels(n), r, env) == Eval(nodes, Levels(n), if nodes[r].level in env then nodes[r].high else nodes[r].low, env)
  {
  }

  lemma ImageOf(T: seq<nat>, v: nat, a: set<nat>, b: set<nat>, s: set<nat>)
    requires v < |T| && s == {v} + (a + b)
    ensures Image(T, s) == {T[v]} + Image(T, a) + Image(T, b)
  {
  }

  /** The renamed children have at most as many variables as lie below r. */
  lemma ReplacedRoom(n0: seq<BddNode>, n1: seq<BddNode>, n: nat, T: seq<nat>, r: int, x: int, y: int)
    requires Ordered(n0, Levels(n)) && Live(n0, r) && Ref(n0, n0[r].low) && Ref(n0, n0[r].high) && n0[r].level < n
    requires ReplacedBy(n0, n1, Levels(n), T, n0[r].low, x) && ReplacedBy(n0, n1, Levels(n), T, n0[r].high, y)
    ensures |Support(n1, Levels(n), x) + Support(n1, Levels(n), y)| < |Support(n0, Levels(n), r)|
  {
    var lev := Levels(n);
    hide Ordered, Support, ReplacedBy;
    ReplacedSupport(n0, n1, lev, T, n0[r].low, x);
    ReplacedSupport(n0, n1, lev, T, n0[r].high, y);
    BelowSize(n0, n, r);
    var below := Support(n0, lev, n0[r].low) + Support(n0, lev, n0[r].high);
    ImageSize(T, below);
    SubsetSize(Support(n1, lev, x) + Support(n1, lev, y), Image(T, below));
  }

  lemma ReplacedSupport(n0: seq<BddNode>, n1: seq<BddNode>, lev: seq<nat>, T: seq<nat>, r: int, res: int)
    requires ReplacedBy(n0, n1, lev, T, r, res)
    ensures Ordered(n0, lev) && Ordered(n1, lev) && Ref(n0, r) && Ref(n1, res)
    ensures Support(n1, lev, res) <= Image(T, Support(n0, lev, r))
  {
  }

  lemma BelowSize(nodes: seq<BddNode>, n: nat, r: int)
    requires Ordered(nodes, Levels(n)) && Live(nodes, r) && Ref(nodes, nodes[r].low) && Ref(nodes, nodes[r].high)
    ensures |Support(nodes, Levels(n), r)| == 1 + |Support(nodes, Levels(n), nodes[r].low) + Support(nodes, Levels(n), nodes[r].high)|
  {
    hide Ordered, Support, Levels;
    SupportAt(nodes, n, r);
    ChildFacts(nodes, n, r, nodes[r].level, false);
    ChildFacts(nodes, n, r, nodes[r].level, true);
    var below := Support(nodes, Levels(n), nodes[r].low) + Support(nodes, Levels(n), nodes[r].high);
    assert nodes[r].level !in below;
    assert |{nodes[r].level} + below| == 1 + |below|;
  }

  lemma SupportAt(nodes: seq<BddNode>, n: nat, r: int)
    requires Ordered(nodes, Levels(n)) && Live(nodes, r) && Ref(nodes, nodes[r].low) && Ref(nodes, nodes[r].high)
    ensures nodes[r].level < n
    ensures Support(nodes, Levels(n), r) == {nodes[r].level} + (Support(nodes, Levels(n), nodes[r].low) + Support(nodes, Levels(n), nodes[r].high))
  {
    assert NodeOk(nodes, Levels(n), r);
  }

  lemma {:induction false} SubsetSize<A>(a: set<A>, b: set<A>)
    requires a <= b
    ensures |a| <= |b|
    decreases a
  {
    if a != {} {
      var x :| x in a;
      SubsetSize(a - {x}, b - {x});
    }
  }

  /** T does not map two variables of s to the same one. */
  ghost predicate InjectiveOn(T: seq<nat>, s: set<nat>) {
    forall u, v :: u in s && v in s && u < |T| && v < |T| && T[u] == T[v] ==> u == v
  }

  // ---- when bdd_replace fails -------------------------------------------------------

  /** In a canonical table every variable of a diagram matters. */
  lemma {:induction false} SupportMatters(nodes: seq<BddNode>, lev: seq<nat>, i: int, v: nat) returns (env: Env)
    requires Ordered(nodes, lev) && Reduced(nodes) && Unique(nodes) && Ref(nodes, i) && v in Support(nodes, lev, i)
    ensures Eval(nodes, lev, i, With(env, v, true)) != Eval(nodes, lev, i, With(env, v, false))
    decreases |lev| - Pos(nodes, lev, i)
  {
    assert NodeOk(nodes, lev, i);
    var u, lo, hi := nodes[i].level, nodes[i].low, nodes[i].high;
    if u == v {
      env := Distinguish(nodes, lev, lo, hi);
      EvalIgnoresUpper(nodes, lev, lo, env, v, false);
      EvalIgnoresUpper(nodes, lev, hi, env, v, true);
    } else {
      var b := v in Support(nodes, lev, hi);
      var c := if b then hi else lo;
      var e := SupportMatters(nodes, lev, c, v);
      env := With(e, u, b);
      forall t: bool ensures Eval(nodes, lev, i, With(env, v, t)) == Eval(nodes, lev, c, With(e, v, t)) {
        EvalIgnoresUpper(nodes, lev, c, With(e, v, t), u, b);
        assert With(env, v, t) == With(With(e, v, t), u, b);
      }
    }
  }

  /** The diagram c, renamed, depends on the variable v. */
  ghost predicate Matters(nodes: seq<BddNode>, lev: seq<nat>, T: seq<nat>, c: int, v: nat)
    requires Ordered(nodes, lev) && Ref(nodes, c)
  {
    exists env: Env :: Eval(nodes, lev, c, Renamed(T, With(env, v, true))) != Eval(nodes, lev, c, Renamed(T, With(env, v, false)))
  }

  /** The variable that replaces the one of r is also one of a renamed child of r. */
  ghost predicate ClashAt(nodes: seq<BddNode>, lev: seq<nat>, T: seq<nat>, r: int)
    requires Ordered(nodes, lev) && Live(nodes, r) && Ref(nodes, nodes[r].low) && Ref(nodes, nodes[r].high)
  {
    nodes[r].level < |T| && (Matters(nodes, lev, T, nodes[r].low, T[nodes[r].level]) || Matters(nodes, lev, T, nodes[r].high, T[nodes[r].level]))
  }

  /** There is such a node in the diagram r. */
  ghost predicate Clashes(nodes: seq<BddNode>, lev: seq<nat>, T: seq<nat>, r: int)
    requires Ordered(nodes, lev) && Ref(nodes, r)
    decreases |lev| - Pos(nodes, lev, r)
  {
    r >= 2 &&
    (assert NodeOk(nodes, lev, r);
     ClashAt(nodes, lev, T, r) || Clashes(nodes, lev, T, nodes[r].low) || Clashes(nodes, lev, T, nodes[r].high))
  }

  /** The variables of the renamed diagram are the ones it depends on. */
  lemma ReplacedSupportIs(n0: seq<BddNode>, n1: seq<BddNode>, lev: seq<nat>, T: seq<nat>, r: int, res: int, v: nat)
    requires ReplacedBy(n0, n1, lev, T, r, res) && Reduced(n1) && Unique(n1)
    ensures Ordered(n0, lev) && Ref(n0, r) && Ordered(n1, lev) && Ref(n1, res)
    ensures v in Support(n1, lev, res) <==> Matters(n0, lev, T, r, v)
  {
    if v in Support(n1, lev, res) {
      var env := SupportMatters(n1, lev, res, v);
    } else {
      forall env: Env ensures Eval(n0, lev, r, Renamed(T, With(env, v, true))) == Eval(n0, lev, r, Renamed(T, With(env, v, false))) {
        EvalReadsSupport(n1, lev, res, With(env, v, true), With(env, v, false));
      }
    }
  }

  /** bdd_correctify meets the new variable in an operand exactly at a clash. */
  lemma ClashIsMet(n0: seq<BddNode>, n1: seq<BddNode>, lev: seq<nat>, T: seq<nat>, r: int, x: int, y: int)
    requires Ordered(n0, lev) && Live(n0, r) && n0[r].level < |T| && Ref(n0, n0[r].low) && Ref(n0, n0[r].high)
    requires ReplacedBy(n0, n1, lev, T, n0[r].low, x) && ReplacedBy(n0, n1, lev, T, n0[r].high, y) && Reduced(n1) && Unique(n1)
    ensures Ordered(n1, lev) && Ref(n1, x) && Ref(n1, y)
    ensures T[n0[r].level] in Support(n1, lev, x) + Support(n1, lev, y) <==> ClashAt(n0, lev, T, r)
  {
    hide Ordered, ReplacedBy, Support, Matters, Reduced, Unique;
    ReplacedSupportIs(n0, n1, lev, T, n0[r].low, x, T[n0[r].level]);
    ReplacedSupportIs(n0, n1, lev, T, n0[r].high, y, T[n0[r].level]);
  }

  lemma RetainsMatters(n0: seq<BddNode>, n1: seq<BddNode>, lev: seq<nat>, S: set<int>, T: seq<nat>, c: int, v: nat)
    requires Ordered(n0, lev) && Ordered(n1, lev) && Retains(n0, n1, S) && (c in S || c == 0 || c == 1)
    ensures Ref(n0, c) && Ref(n1, c) && (Matters(n1, lev, T, c, v) <==> Matters(n0, lev, T, c, v))
  {
    forall env ensures Ref(n0, c) && Ref(n1, c) && Eval(n1, lev, c, env) == Eval(n0, lev, c, env) {
      RetainsEval(n0, n1, lev, S, c, env);
    }
  }

  lemma {:induction false} RetainsClashes(n0: seq<BddNode>, n1: seq<BddNode>, lev: seq<nat>, S: set<int>, T: seq<nat>, r: int)
    requires Ordered(n0, lev) && Ordered(n1, lev) && Retains(n0, n1, S) && (r in S || r == 0 || r == 1)
    ensures Ref(n0, r) && Ref(n1, r) && (Clashes(n1, lev, T, r) <==> Clashes(n0, lev, T, r))
    decreases if Ref(n0, r) then |lev| - Pos(n0, lev, r) else 0
  {
    hide Matters;
    if r >= 2 {
      assert NodeOk(n0, lev, r) && NodeOk(n1, lev, r);
      RetainsClashes(n0, n1, lev, S, T, n0[r].low);
      RetainsClashes(n0, n1, lev, S, T, n0[r].high);
      if n0[r].level < |T| {
        RetainsMatters(n0, n1, lev, S, T, n0[r].low, T[n0[r].level]);
        RetainsMatters(n0, n1, lev, S, T, n0[r].high, T[n0[r].level]);
      }
    }
  }

  /** An injective renaming has no clash. */
  lemma {:induction false} InjectiveNoClash(nodes: seq<BddNode>, n: nat, T: seq<nat>, r: int)
    requires Ordered(nodes, Levels(n)) && Ref(nodes, r) && InjectiveOn(T, Support(nodes, Levels(n), r))
    ensures !Clashes(nodes, Levels(n), T, r)
    decreases n + 1 - Pos(nodes, Levels(n), r)
  {
    var lev := Levels(n);
    if r >= 2 {
      assert NodeOk(nodes, lev, r);
      InjectiveNoClash(nodes, n, T, nodes[r].low);
      InjectiveNoClash(nodes, n, T, nodes[r].high);
      if nodes[r].level < |T| {
        InjectiveNotMet(nodes, n, T, r, nodes[r].low);
        InjectiveNotMet(nodes, n, T, r, nodes[r].high);
      }
    }
  }

  lemma InjectiveNotMet(nodes: seq<BddNode>, n: nat, T: seq<nat>, r: int, c: int)
    requires Ordered(nodes, Levels(n)) && Live(nodes, r) && InjectiveOn(T, Support(nodes, Levels(n), r)) && nodes[r].level < |T|
    requires Ref(nodes, c) && (c == nodes[r].low || c == nodes[r].high) && nodes[r].level < nodes[c].level
    ensures !Matters(nodes, Levels(n), T, c, T[nodes[r].level])
  {
    var lev, v := Levels(n), nodes[r].level;
    assert NodeOk(nodes, lev, r);
    forall env: Env ensures Eval(nodes, lev, c, Renamed(T, With(env, T[v], true))) == Eval(nodes, lev, c, Renamed(T, With(env, T[v], false))) {
      forall u | u in Support(nodes, lev, c) ensures u in Renamed(T, With(env, T[v], true)) <==> u in Renamed(T, With(env, T[v], false)) {
        SupportBelow(nodes, n, c, u);
      }
      EvalReadsSupport(nodes, lev, c, Renamed(T, With(env, T[v], true)), Renamed(T, With(env, T[v], false)));
    }
  }

  /** Below the last renamed level there is no clash. */
  lemma NoClashBelow(nodes: seq<BddNode>, n: nat, T: seq<nat>, last: int, r: int)
    requires Ordered(nodes, Levels(n)) && Ref(nodes, r) && (r < 2 || nodes[r].level > last) && |T| == n
    requires forall l :: 0 <= l < n && l > last ==> T[l] == l
    ensures !Clashes(nodes, Levels(n), T, r)
  {
    forall u | u in Support(nodes, Levels(n), r) ensures last < u < n {
      SupportBelow(nodes, n, r, u);
    }
    InjectiveNoClash(nodes, n, T, r);
  }
}
