/** What it means that an operation gives up for want of entries: the table has no diagram for its result,
    or for a part of it.  An operation whose results are all in the table never fails. */
module Answers {
  import opened NodeTable
  import opened Diagram
  import opened KernelTheory
  import opened Collection
  import opened Parts
  import opened Cofactor
  import opened Renaming

  /** x, a diagram of n1, is the generalized cofactor of the diagrams f and c of n0. */
  ghost predicate Shows(n0: seq<BddNode>, n1: seq<BddNode>, lev: seq<nat>, f: int, c: int, x: int) {
    && Ordered(n0, lev) && Ordered(n1, lev) && Ref(n0, f) && Ref(n0, c) && Ref(n1, x)
    && forall env: Env :: Eval(n1, lev, x, env) == At(n0, lev, f, c, env)
  }

  /** x is "if level then f1 at c1 else f0 at c0". */
  ghost predicate ShowsBranch(n0: seq<BddNode>, n1: seq<BddNode>, lev: seq<nat>, level: nat, f0: int, c0: int, f1: int, c1: int, x: int) {
    && Ordered(n0, lev) && Ordered(n1, lev) && Ref(n0, f0) && Ref(n0, c0) && Ref(n0, f1) && Ref(n0, c1) && Ref(n1, x)
    && forall env: Env :: Eval(n1, lev, x, env) == if level in env then At(n0, lev, f1, c1, env) else At(n0, lev, f0, c0, env)
  }

  /** x is "if level then r else l". */
  ghost predicate ShowsIte(n0: seq<BddNode>, n1: seq<BddNode>, lev: seq<nat>, level: nat, l: int, r: int, x: int) {
    && Ordered(n0, lev) && Ordered(n1, lev) && Ref(n0, l) && Ref(n0, r) && Ref(n1, x)
    && forall env: Env :: Eval(n1, lev, x, env) == if level in env then Eval(n0, lev, r, env) else Eval(n0, lev, l, env)
  }

  /** x is r with its variables replaced by T. */
  ghost predicate ShowsReplaced(n0: seq<BddNode>, n1: seq<BddNode>, lev: seq<nat>, T: seq<nat>, r: int, x: int) {
    && Ordered(n0, lev) && Ordered(n1, lev) && Ref(n0, r) && Ref(n1, x)
    && forall env: Env :: Eval(n1, lev, x, env) == Eval(n0, lev, r, Renaming.Renamed(T, env))
  }

  // ---- what a diagram has below it --------------------------------------------------

  ghost predicate AgreeFrom(n: nat, k: nat, e1: Env, e2: Env) {
    forall v: nat :: k <= v < n ==> (v in e1 <==> v in e2)
  }

  lemma OverrideAgrees(n: nat, k: nat, env: Env, a: Env)
    ensures AgreeFrom(n, k, Override(env, Prefix(Levels(n), k), a), env)
    ensures forall v: nat :: v < k && v < n ==> (v in Override(env, Prefix(Levels(n), k), a) <==> v in a)
  {
  }

  lemma EvalAgrees(nodes: seq<BddNode>, n: nat, i: int, k: nat, e1: Env, e2: Env)
    requires Ordered(nodes, Levels(n)) && Ref(nodes, i) && k <= nodes[i].level && AgreeFrom(n, k, e1, e2)
    ensures Eval(nodes, Levels(n), i, e1) == Eval(nodes, Levels(n), i, e2)
  {
    EvalReadsBelow(nodes, Levels(n), i, e1, e2);
  }

  /** The projection of what agrees from a level on does so too. */
  lemma {:induction false} ProjectAgrees(nodes: seq<BddNode>, n: nat, c: int, k: nat, e1: Env, e2: Env)
    requires Ordered(nodes, Levels(n)) && Ref(nodes, c) && k <= nodes[c].level && AgreeFrom(n, k, e1, e2)
    ensures AgreeFrom(n, k, Project(nodes, Levels(n), c, e1), Project(nodes, Levels(n), c, e2))
    decreases n - Pos(nodes, Levels(n), c)
  {
    if c >= 2 {
      assert NodeOk(nodes, Levels(n), c);
      ProjectAgrees(nodes, n, nodes[c].low, k, e1, e2);
      ProjectAgrees(nodes, n, nodes[c].high, k, e1, e2);
    }
  }

  lemma AtAgrees(nodes: seq<BddNode>, n: nat, f: int, c: int, k: nat, e1: Env, e2: Env)
    requires Ordered(nodes, Levels(n)) && Ref(nodes, f) && Ref(nodes, c) && k <= nodes[f].level && k <= nodes[c].level && AgreeFrom(n, k, e1, e2)
    ensures At(nodes, Levels(n), f, c, e1) == At(nodes, Levels(n), f, c, e2)
  {
    ProjectAgrees(nodes, n, c, k, e1, e2);
    EvalAgrees(nodes, n, f, k, Project(nodes, Levels(n), c, e1), Project(nodes, Levels(n), c, e2));
  }

  /** The table with a diagram for the branch has one for either half. */
  lemma BranchHalf(n0: seq<BddNode>, n1: seq<BddNode>, n: nat, level: nat, f0: int, c0: int, f1: int, c1: int, x: int, b: bool) returns (y: int)
    requires ShowsBranch(n0, n1, Levels(n), level, f0, c0, f1, c1, x) && level < n
    requires level < n0[f0].level && level < n0[c0].level && level < n0[f1].level && level < n0[c1].level
    ensures Shows(n0, n1, Levels(n), if b then f1 else f0, if b then c1 else c0, y)
  {
    hide Eval, At, Override, Ordered;
    var a: Env := if b then {level} else {};
    var f, c, k := if b then f1 else f0, if b then c1 else c0, level + 1;
    y := WalkReaches(n1, Levels(n), x, k, a);
    forall env: Env ensures Eval(n1, Levels(n), y, env) == At(n0, Levels(n), f, c, env) {
      var e := Override(env, Prefix(Levels(n), k), a);
      OverrideAgrees(n, k, env, a);
      AtAgrees(n0, n, f, c, k, e, env);
    }
  }

  /** The table with a diagram for an if-then-else has one for its cofactors by a variable above level. */
  lemma IteHalf(n0: seq<BddNode>, n1: seq<BddNode>, n: nat, level: nat, v: nat, l: int, r: int, x: int, b: bool) returns (y: int)
    requires ShowsIte(n0, n1, Levels(n), level, l, r, x) && v < level < n && v <= n0[l].level && v <= n0[r].level
    ensures ShowsIte(n0, n1, Levels(n), level, Child(n0, l, v, b), Child(n0, r, v, b), y)
  {
    hide Eval, Override, Child;
    var a: Env := if b then {v} else {};
    var k := v + 1;
    var l', r' := Child(n0, l, v, b), Child(n0, r, v, b);
    ChildBelow(n0, n, l, v, b);
    ChildBelow(n0, n, r, v, b);
    y := WalkReaches(n1, Levels(n), x, k, a);
    forall env: Env ensures Eval(n1, Levels(n), y, env) == if level in env then Eval(n0, Levels(n), r', env) else Eval(n0, Levels(n), l', env) {
      var e := Override(env, Prefix(Levels(n), k), a);
      OverrideAgrees(n, k, env, a);
      EvalAgrees(n0, n, l', k, e, env);
      EvalAgrees(n0, n, r', k, e, env);
      ChildEval(n0, n, l, v, b, e);
      ChildEval(n0, n, r, v, b, e);
    }
  }

  lemma ChildBelow(nodes: seq<BddNode>, n: nat, f: int, v: nat, b: bool)
    requires Ordered(nodes, Levels(n)) && Ref(nodes, f) && v < n && v <= nodes[f].level
    ensures Ref(nodes, Child(nodes, f, v, b)) && v + 1 <= nodes[Child(nodes, f, v, b)].level
  {
    assert f >= 2 ==> NodeOk(nodes, Levels(n), f);
  }

  lemma ChildEval(nodes: seq<BddNode>, n: nat, f: int, v: nat, b: bool, e: Env)
    requires Ordered(nodes, Levels(n)) && Ref(nodes, f) && v < n && v <= nodes[f].level && (v in e <==> b)
    ensures Ref(nodes, Child(nodes, f, v, b)) && Eval(nodes, Levels(n), f, e) == Eval(nodes, Levels(n), Child(nodes, f, v, b), e)
  {
    assert f >= 2 ==> NodeOk(nodes, Levels(n), f);
  }

  // ---- the only node ----------------------------------------------------------------

  /** In a canonical table the only diagram for "if level then high else low" is the node with these
      children. */
  lemma OnlyNode(nodes: seq<BddNode>, n: nat, level: nat, low: int, high: int, x: int)
    requires Graph(nodes, n) && low != high && IsBranch(nodes, n, level, low, high, x)
    ensures IsNode(nodes, x, level, low, high)
  {
    hide Reduced, Unique, Clean, Ranged, Eval;
    var lev := Levels(n);
    NotAboveLevel(nodes, n, level, low, high, x);
    BothChildren(nodes, n, level, low, high, x);
    NodeIsOk(nodes, n, x);
    var lo, hi := nodes[x].low, nodes[x].high;
    if lo != low {
      var e := Distinguish(nodes, lev, lo, low);
      HalfIs(nodes, n, level, low, high, x, e, false);
    }
    if hi != high {
      var e := Distinguish(nodes, lev, hi, high);
      HalfIs(nodes, n, level, low, high, x, e, true);
    }
  }

  lemma NodeIsOk(nodes: seq<BddNode>, n: nat, x: int)
    requires Ordered(nodes, Levels(n)) && Live(nodes, x)
    ensures Ref(nodes, nodes[x].low) && Ref(nodes, nodes[x].high) && nodes[x].level < nodes[nodes[x].low].level && nodes[x].level < nodes[nodes[x].high].level
  {
    assert NodeOk(nodes, Levels(n), x);
  }

  ghost predicate IsBranch(nodes: seq<BddNode>, n: nat, level: nat, low: int, high: int, x: int) {
    && Ordered(nodes, Levels(n)) && Fitting(nodes, n, level, low, high) && Ref(nodes, x)
    && forall env: Env :: Eval(nodes, Levels(n), x, env) == if level in env then Eval(nodes, Levels(n), high, env) else Eval(nodes, Levels(n), low, env)
  }

  /** x does not stand above level: otherwise it would read its variable. */
  lemma NotAboveLevel(nodes: seq<BddNode>, n: nat, level: nat, low: int, high: int, x: int)
    requires IsBranch(nodes, n, level, low, high, x) && Reduced(nodes) && Unique(nodes)
    ensures nodes[x].level >= level
  {
    hide Reduced, Unique, Eval;
    var lev := Levels(n);
    var x' := WalkReaches(nodes, lev, x, level, {});
    if x != x' {
      var e := Distinguish(nodes, lev, x, x');
      var e' := Override(e, Prefix(lev, level), {});
      OverrideAgrees(n, level, e, {});
      EvalAgrees(nodes, n, low, level, e', e);
      EvalAgrees(nodes, n, high, level, e', e);
    }
    TerminalLevel(nodes, n, x);
  }

  lemma TerminalLevel(nodes: seq<BddNode>, n: nat, x: int)
    requires Ordered(nodes, Levels(n)) && Ref(nodes, x)
    ensures x < 2 ==> nodes[x].level == n
  {
  }

  /** x is a node of that level: otherwise it would not read the variable. */
  lemma BothChildren(nodes: seq<BddNode>, n: nat, level: nat, low: int, high: int, x: int)
    requires IsBranch(nodes, n, level, low, high, x) && Reduced(nodes) && Unique(nodes) && low != high && nodes[x].level >= level
    ensures Live(nodes, x) && nodes[x].level == level
  {
    hide Reduced, Unique, Eval;
    var lev := Levels(n);
    var e := Distinguish(nodes, lev, low, high);
    var e0, e1 := With(e, level, false), With(e, level, true);
    EvalAgrees(nodes, n, low, level + 1, e0, e);
    EvalAgrees(nodes, n, high, level + 1, e1, e);
    TerminalLevel(nodes, n, x);
    if nodes[x].level > level {
      EvalAgrees(nodes, n, x, level + 1, e0, e1);
    }
  }

  lemma HalfIs(nodes: seq<BddNode>, n: nat, level: nat, low: int, high: int, x: int, e: Env, b: bool)
    requires IsBranch(nodes, n, level, low, high, x) && Live(nodes, x) && nodes[x].level == level
    ensures var c := if b then nodes[x].high else nodes[x].low;
            Ref(nodes, c) && Eval(nodes, Levels(n), c, e) == Eval(nodes, Levels(n), if b then high else low, e)
  {
    var lev := Levels(n);
    NodeIsOk(nodes, n, x);
    var c, d, e' := if b then nodes[x].high else nodes[x].low, if b then high else low, With(e, level, b);
    EvalAgrees(nodes, n, c, level + 1, e', e);
    EvalAgrees(nodes, n, d, level + 1, e', e);
    assert NodeOk(nodes, lev, x);
    assert Eval(nodes, lev, x, e') == Eval(nodes, lev, c, e');
  }

  /** When the node is absent there is no such diagram. */
  lemma NoBranch(nodes: seq<BddNode>, n: nat, level: nat, low: int, high: int, x: int)
    requires Graph(nodes, n) && Fitting(nodes, n, level, low, high) && low != high && Absent(nodes, level, low, high)
    ensures !IsBranch(nodes, n, level, low, high, x)
  {
    hide Graph;
    if IsBranch(nodes, n, level, low, high, x) {
      OnlyNode(nodes, n, level, low, high, x);
    }
  }

  // ---- no answer --------------------------------------------------------------------

  /** The table has no diagram for the generalized cofactor. */
  ghost predicate NoCofactor(n0: seq<BddNode>, n1: seq<BddNode>, lev: seq<nat>, f: int, c: int) {
    forall x :: !Shows(n0, n1, lev, f, c, x)
  }

  /** The table has none for the branch over two generalized cofactors. */
  ghost predicate NoBranchOf(n0: seq<BddNode>, n1: seq<BddNode>, lev: seq<nat>, level: nat, f0: int, c0: int, f1: int, c1: int) {
    forall x :: !ShowsBranch(n0, n1, lev, level, f0, c0, f1, c1, x)
  }

  lemma HalfMissing(n0: seq<BddNode>, n1: seq<BddNode>, n: nat, level: nat, f0: int, c0: int, f1: int, c1: int, b: bool)
    requires NoCofactor(n0, n1, Levels(n), if b then f1 else f0, if b then c1 else c0) && level < n
    requires Ref(n0, f0) && Ref(n0, c0) && Ref(n0, f1) && Ref(n0, c1)
    requires level < n0[f0].level && level < n0[c0].level && level < n0[f1].level && level < n0[c1].level
    ensures NoBranchOf(n0, n1, Levels(n), level, f0, c0, f1, c1)
  {
    hide Shows, ShowsBranch;
    forall x ensures !ShowsBranch(n0, n1, Levels(n), level, f0, c0, f1, c1, x) {
      if ShowsBranch(n0, n1, Levels(n), level, f0, c0, f1, c1, x) {
        var y := BranchHalf(n0, n1, n, level, f0, c0, f1, c1, x, b);
      }
    }
  }

  /** Both halves are there, but not the node over them. */
  lemma NodeMissing(n0: seq<BddNode>, n3: seq<BddNode>, n: nat, level: nat, f0: int, c0: int, f1: int, c1: int, r0: int, r1: int)
    requires Cofactor.CofactorOf(n0, n3, Levels(n), f0, c0, r0) && Cofactor.CofactorOf(n0, n3, Levels(n), f1, c1, r1)
    requires Graph(n3, n) && Fitting(n3, n, level, r0, r1) && r0 != r1 && Absent(n3, level, r0, r1)
    ensures NoBranchOf(n0, n3, Levels(n), level, f0, c0, f1, c1)
  {
    hide Graph, Eval, At, Absent;
    forall x ensures !ShowsBranch(n0, n3, Levels(n), level, f0, c0, f1, c1, x) {
      NoBranch(n3, n, level, r0, r1, x);
    }
  }

  /** The operands have come from an earlier table. */
  lemma MissingLater(n0: seq<BddNode>, n1: seq<BddNode>, n2: seq<BddNode>, lev: seq<nat>, S: set<int>, f: int, c: int)
    requires NoCofactor(n1, n2, lev, f, c) && Ordered(n0, lev) && Ordered(n1, lev) && Retains(n0, n1, S)
    requires (f in S || f == 0 || f == 1) && (c in S || c == 0 || c == 1)
    ensures NoCofactor(n0, n2, lev, f, c)
  {
    hide Eval, At, Retains;
    RetainsAt(n0, n1, lev, S, f, c, {});
    forall x ensures !Shows(n0, n2, lev, f, c, x) {
      assert !Shows(n1, n2, lev, f, c, x);
      forall env: Env ensures At(n1, lev, f, c, env) == At(n0, lev, f, c, env) {
        RetainsAt(n0, n1, lev, S, f, c, env);
      }
    }
  }

  /** A branching case of constrain_rec. */
  lemma BranchMissing(n0: seq<BddNode>, n1: seq<BddNode>, n: nat, f: int, c: int, level: nat, f0: int, c0: int, f1: int, c1: int)
    requires NoBranchOf(n0, n1, Levels(n), level, f0, c0, f1, c1) && Ordered(n0, Levels(n)) && Ref(n0, f) && Ref(n0, c)
    requires level < n && level <= n0[f].level && level <= n0[c].level && (level == n0[f].level || level == n0[c].level)
    requires c >= 2 && n0[c].level == level ==> n0[c].low != 0 && n0[c].high != 0
    requires f0 == Child(n0, f, level, false) && f1 == Child(n0, f, level, true)
    requires c0 == Child(n0, c, level, false) && c1 == Child(n0, c, level, true)
    ensures NoCofactor(n0, n1, Levels(n), f, c)
  {
    hide Shows, ShowsBranch;
    forall x ensures !Shows(n0, n1, Levels(n), f, c, x) {
      BranchShown(n0, n1, n, f, c, level, f0, c0, f1, c1, x);
    }
  }

  lemma BranchShown(n0: seq<BddNode>, n1: seq<BddNode>, n: nat, f: int, c: int, level: nat, f0: int, c0: int, f1: int, c1: int, x: int)
    requires Ordered(n0, Levels(n)) && Ref(n0, f) && Ref(n0, c)
    requires level < n && level <= n0[f].level && level <= n0[c].level && (level == n0[f].level || level == n0[c].level)
    requires c >= 2 && n0[c].level == level ==> n0[c].low != 0 && n0[c].high != 0
    requires f0 == Child(n0, f, level, false) && f1 == Child(n0, f, level, true)
    requires c0 == Child(n0, c, level, false) && c1 == Child(n0, c, level, true)
    ensures Shows(n0, n1, Levels(n), f, c, x) ==> ShowsBranch(n0, n1, Levels(n), level, f0, c0, f1, c1, x)
  {
    hide Eval, At, Child;
    forall b ensures Ref(n0, Child(n0, f, level, b)) && Ref(n0, Child(n0, c, level, b)) {
      ChildBelow(n0, n, f, level, b);
      ChildBelow(n0, n, c, level, b);
    }
    forall env: Env ensures At(n0, Levels(n), f, c, env) == if level in env then At(n0, Levels(n), f1, c1, env) else At(n0, Levels(n), f0, c0, env) {
      BranchAt(n0, Levels(n), f, c, level, env);
    }
  }

  /** A case with a child that is 0. */
  lemma SkipMissing(n0: seq<BddNode>, n1: seq<BddNode>, n: nat, f: int, c: int, f': int, c': int)
    requires Ordered(n0, Levels(n)) && Reduced(n0) && Ref(n0, f) && Live(n0, c) && NoCofactor(n0, n1, Levels(n), f', c')
    requires n0[c].level <= n0[f].level && (n0[c].low == 0 || n0[c].high == 0)
    requires c' == (if n0[c].low == 0 then n0[c].high else n0[c].low)
    requires f' == Child(n0, f, n0[c].level, n0[c].low == 0)
    ensures NoCofactor(n0, n1, Levels(n), f, c)
  {
    hide Eval, At;
    assert NodeOk(n0, Levels(n), c);
    assert f >= 2 ==> NodeOk(n0, Levels(n), f);
    forall env: Env ensures At(n0, Levels(n), f, c, env) == At(n0, Levels(n), f', c', env) {
      SkipC(n0, Levels(n), f, c, env);
    }
    forall x ensures !Shows(n0, n1, Levels(n), f, c, x) {
      assert !Shows(n0, n1, Levels(n), f', c', x);
    }
  }

  /** A protected answer would still be there. */
  lemma AnswerKept(n0: seq<BddNode>, n1: seq<BddNode>, lev: seq<nat>, S: set<int>, f: int, c: int, x: int)
    requires Shows(n0, n0, lev, f, c, x) && Retains(n0, n1, S) && Ordered(n1, lev) && (x in S || x == 0 || x == 1)
    ensures !NoCofactor(n0, n1, lev, f, c)
  {
    hide At, Retains;
    RetainsEval(n0, n1, lev, S, x, {});
    forall env: Env ensures Eval(n1, lev, x, env) == At(n0, lev, f, c, env) {
      RetainsEval(n0, n1, lev, S, x, env);
    }
    assert Shows(n0, n1, lev, f, c, x);
  }

  // ---- bdd_correctify and bdd_replace -----------------------------------------------

  ghost predicate NoIte(n0: seq<BddNode>, n1: seq<BddNode>, lev: seq<nat>, level: nat, l: int, r: int) {
    forall x :: !ShowsIte(n0, n1, lev, level, l, r, x)
  }

  ghost predicate NoReplaced(n0: seq<BddNode>, n1: seq<BddNode>, lev: seq<nat>, T: seq<nat>, r: int) {
    forall x :: !ShowsReplaced(n0, n1, lev, T, r, x)
  }

  /** Of some node of the diagram r there is no renaming in the table. */
  ghost predicate PartMissing(n0: seq<BddNode>, n1: seq<BddNode>, lev: seq<nat>, T: seq<nat>, r: int)
    requires Ordered(n0, lev) && Ref(n0, r)
  {
    exists i :: i in Reach(n0, lev, r) && NoReplaced(n0, n1, lev, T, i)
  }

  lemma DirectMissing(n0: seq<BddNode>, n1: seq<BddNode>, n: nat, S: set<int>, level: nat, l: int, r: int)
    requires Ordered(n0, Levels(n)) && Graph(n1, n) && Retains(n0, n1, S) && Fitting(n0, n, level, l, r) && l != r && Absent(n1, level, l, r)
    requires (l in S || l == 0 || l == 1) && (r in S || r == 0 || r == 1)
    ensures NoIte(n0, n1, Levels(n), level, l, r)
  {
    hide Graph, Eval, Absent, Retains, Ordered;
    GraphOrdered(n1, n);
    RetainsDiagram(n0, n1, Levels(n), S, l);
    RetainsDiagram(n0, n1, Levels(n), S, r);
    assert Fitting(n1, n, level, l, r);
    forall x ensures !ShowsIte(n0, n1, Levels(n), level, l, r, x) {
      NoBranch(n1, n, level, l, r, x);
    }
  }

  lemma GraphOrdered(nodes: seq<BddNode>, n: nat)
    requires Graph(nodes, n)
    ensures Ordered(nodes, Levels(n))
  {
  }

  lemma IteHalfMissing(n0: seq<BddNode>, n1: seq<BddNode>, n: nat, level: nat, v: nat, l: int, r: int, b: bool)
    requires v < level < n && Ref(n0, l) && Ref(n0, r) && v <= n0[l].level && v <= n0[r].level
    requires NoIte(n0, n1, Levels(n), level, Child(n0, l, v, b), Child(n0, r, v, b))
    ensures NoIte(n0, n1, Levels(n), level, l, r)
  {
    hide ShowsIte, Child;
    forall x ensures !ShowsIte(n0, n1, Levels(n), level, l, r, x) {
      if ShowsIte(n0, n1, Levels(n), level, l, r, x) {
        var y := IteHalf(n0, n1, n, level, v, l, r, x, b);
      }
    }
  }

  lemma IteMissingLater(n0: seq<BddNode>, n1: seq<BddNode>, n2: seq<BddNode>, lev: seq<nat>, S: set<int>, level: nat, l: int, r: int)
    requires NoIte(n1, n2, lev, level, l, r) && Ordered(n0, lev) && Ordered(n1, lev) && Retains(n0, n1, S)
    requires (l in S || l == 0 || l == 1) && (r in S || r == 0 || r == 1)
    ensures NoIte(n0, n2, lev, level, l, r)
  {
    hide Eval, Retains, Ordered;
    RetainsDiagram(n0, n1, lev, S, l);
    RetainsDiagram(n0, n1, lev, S, r);
    forall x ensures !ShowsIte(n0, n2, lev, level, l, r, x) {
      assert !ShowsIte(n1, n2, lev, level, l, r, x);
    }
  }

  /** Both halves are there, but not the node over them. */
  lemma IteNodeMissing(n0: seq<BddNode>, n3: seq<BddNode>, n: nat, level: nat, v: nat, l: int, r: int, x: int, y: int)
    requires v < level < n && Ref(n0, l) && Ref(n0, r) && v <= n0[l].level && v <= n0[r].level
    requires IteOf(n0, n3, Levels(n), level, Child(n0, l, v, false), Child(n0, r, v, false), x)
    requires IteOf(n0, n3, Levels(n), level, Child(n0, l, v, true), Child(n0, r, v, true), y)
    requires Graph(n3, n) && Fitting(n3, n, v, x, y) && x != y && Absent(n3, v, x, y)
    ensures NoIte(n0, n3, Levels(n), level, l, r)
  {
    hide Graph, Absent, ShowsIte, IteOf, Child, IsBranch;
    forall z ensures !ShowsIte(n0, n3, Levels(n), level, l, r, z) {
      NoBranch(n3, n, v, x, y, z);
      IteIsBranch(n0, n3, n, level, v, l, r, x, y, z);
    }
  }

  lemma IteIsBranch(n0: seq<BddNode>, n3: seq<BddNode>, n: nat, level: nat, v: nat, l: int, r: int, x: int, y: int, z: int)
    requires v < level < n && Ref(n0, l) && Ref(n0, r) && v <= n0[l].level && v <= n0[r].level && Fitting(n3, n, v, x, y)
    requires IteOf(n0, n3, Levels(n), level, Child(n0, l, v, false), Child(n0, r, v, false), x)
    requires IteOf(n0, n3, Levels(n), level, Child(n0, l, v, true), Child(n0, r, v, true), y)
    ensures ShowsIte(n0, n3, Levels(n), level, l, r, z) ==> IsBranch(n3, n, v, x, y, z)
  {
    hide Eval, Child, Ordered;
    forall env: Env ensures
      (if level in env then Eval(n0, Levels(n), r, env) else Eval(n0, Levels(n), l, env)) == if v in env then Eval(n3, Levels(n), y, env) else Eval(n3, Levels(n), x, env) {
      ChildEval(n0, n, l, v, v in env, env);
      ChildEval(n0, n, r, v, v in env, env);
    }
  }

  /** The renamed children are there, but not the if-then-else over them. */
  lemma ReplacedMissing(n0: seq<BddNode>, n2: seq<BddNode>, n3: seq<BddNode>, n: nat, T: seq<nat>, r: int, x: int, y: int)
    requires Ordered(n0, Levels(n)) && Live(n0, r) && Ref(n0, n0[r].low) && Ref(n0, n0[r].high) && n0[r].level < |T|
    requires ReplacedBy(n0, n2, Levels(n), T, n0[r].low, x) && ReplacedBy(n0, n2, Levels(n), T, n0[r].high, y)
    requires NoIte(n2, n3, Levels(n), T[n0[r].level], x, y)
    ensures NoReplaced(n0, n3, Levels(n), T, r)
  {
    assert NodeOk(n0, Levels(n), r);
    forall env: Env ensures Eval(n0, Levels(n), r, Renaming.Renamed(T, env)) == if T[n0[r].level] in env then Eval(n2, Levels(n), y, env) else Eval(n2, Levels(n), x, env) {
      assert n0[r].level in Renaming.Renamed(T, env) <==> T[n0[r].level] in env;
    }
    hide Eval;
    forall z ensures !ShowsReplaced(n0, n3, Levels(n), T, r, z) {
      assert !ShowsIte(n2, n3, Levels(n), T[n0[r].level], x, y, z);
    }
  }

  /** A missing part of a child is one of the node, also when the child's table came later. */
  lemma PartOfChild(n0: seq<BddNode>, n1: seq<BddNode>, n2: seq<BddNode>, lev: seq<nat>, S: set<int>, T: seq<nat>, r: int, c: int)
    requires Ordered(n0, lev) && Ordered(n1, lev) && Retains(n0, n1, S) && Live(n0, r) && r in S && (c == n0[r].low || c == n0[r].high)
    requires Ref(n1, c) && PartMissing(n1, n2, lev, T, c)
    ensures PartMissing(n0, n2, lev, T, r)
  {
    hide Eval, ShowsReplaced;
    assert NodeOk(n0, lev, r) && ClosedAt(n0, S, r);
    RetainsReach(n0, n1, lev, S, c);
    var i :| i in Reach(n1, lev, c) && NoReplaced(n1, n2, lev, T, i);
    ReachBelow(n0, lev, c, i);
    ClosedReach(n0, lev, S, c);
    ReplacedMissingLater(n0, n1, n2, lev, S, T, i);
    assert i in Reach(n0, lev, r);
  }

  lemma ReplacedMissingLater(n0: seq<BddNode>, n1: seq<BddNode>, n2: seq<BddNode>, lev: seq<nat>, S: set<int>, T: seq<nat>, r: int)
    requires NoReplaced(n1, n2, lev, T, r) && Ordered(n0, lev) && Ordered(n1, lev) && Retains(n0, n1, S) && (r in S || r == 0 || r == 1)
    ensures NoReplaced(n0, n2, lev, T, r)
  {
    hide Eval, Retains, Ordered;
    RetainsDiagram(n0, n1, lev, S, r);
    forall x ensures !ShowsReplaced(n0, n2, lev, T, r, x) {
      assert !ShowsReplaced(n1, n2, lev, T, r, x);
    }
  }

  /** Protected renamings would still be there. */
  lemma ReplacedKept(n0: seq<BddNode>, n1: seq<BddNode>, lev: seq<nat>, S: set<int>, T: seq<nat>, r: int, x: int)
    requires ShowsReplaced(n0, n0, lev, T, r, x) && Retains(n0, n1, S) && Ordered(n1, lev) && (x in S || x == 0 || x == 1)
    ensures !NoReplaced(n0, n1, lev, T, r)
  {
    hide Retains;
    RetainsDiagram(n0, n1, lev, S, x);
    assert ShowsReplaced(n0, n1, lev, T, r, x);
  }

  /** Of every node of r a renaming is in S, or a terminal. */
  ghost predicate RenamingsIn(nodes: seq<BddNode>, lev: seq<nat>, S: set<int>, T: seq<nat>, r: int)
    requires Ordered(nodes, lev) && Ref(nodes, r)
  {
    forall i :: i in Reach(nodes, lev, r) ==> exists x :: (x in S || x == 0 || x == 1) && ShowsReplaced(nodes, nodes, lev, T, i, x)
  }

  lemma RenamingsStay(n0: seq<BddNode>, n1: seq<BddNode>, lev: seq<nat>, S: set<int>, T: seq<nat>, r: int)
    requires Ordered(n0, lev) && Ordered(n1, lev) && Ref(n0, r) && Retains(n0, n1, S) && PartMissing(n0, n1, lev, T, r)
    ensures !RenamingsIn(n0, lev, S, T, r)
  {
    hide NoReplaced, ShowsReplaced, Retains, Ordered, Reach;
    var i :| i in Reach(n0, lev, r) && NoReplaced(n0, n1, lev, T, i);
    forall x | x in S || x == 0 || x == 1 ensures !ShowsReplaced(n0, n0, lev, T, i, x) {
      if ShowsReplaced(n0, n0, lev, T, i, x) { ReplacedKept(n0, n1, lev, S, T, i, x); }
    }
  }
}
