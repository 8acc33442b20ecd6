/** A session that goes wrong: the matrix lacks a pair, and an exchange is skipped that was needed. */
module Skipped {
  import opened NodeTable
  import opened Diagram
  import opened KernelTheory
  import opened ReorderTheory
  import opened ReorderSweep
  import opened ReorderSession
  import opened Dependencies
  import opened ReorderStart
  import opened Reordering
  import opened RefCount
  import opened Saturation
  import opened Parts
  import BddKernel

  /** The function of i is the conjunction of the variables 0, 1 and 2. */
  ghost predicate AllThree(nodes: seq<BddNode>, lev: seq<nat>, i: int)
    requires Ordered(nodes, lev) && Ref(nodes, i)
  {
    forall env: Env :: Eval(nodes, lev, i, env) == (0 in env && 1 in env && 2 in env)
  }

  lemma LatePartRoot(l2v: seq<nat>)
    requires Ordered(LatePart(), Levels(3)) && l2v == [0, 1, 2, 3]
    ensures Live(LatePart(), 8) && LatePart()[8].refcount > 0
    ensures forall env: Env :: Eval(LatePart(), Levels(3), 8, ByLevel(l2v, env)) == (0 in env && 1 in env && 2 in env)
  {
    var g, lev := LatePart(), Levels(3);
    assert NodeOk(g, lev, 8) && NodeOk(g, lev, 9) && NodeOk(g, lev, 6);
    forall env: Env ensures Eval(g, lev, 8, ByLevel(l2v, env)) == (0 in env && 1 in env && 2 in env) {
      var e := ByLevel(l2v, env);
      assert forall l :: l in {0, 1, 2} ==> (l in e <==> l in env);
      assert Eval(g, lev, 6, e) == (2 in e);
      assert Eval(g, lev, 9, e) == (1 in e && 2 in e);
    }
  }

  /** When the order is 1, 0, 2, the conjunction has a node of variable 0 with a child of variable 2. */
  lemma EdgeBelow(nodes: seq<BddNode>, lev: seq<nat>)
    requires Ordered(nodes, lev) && lev == [1, 0, 2, 3] && Live(nodes, 8) && AllThree(nodes, lev, 8)
    ensures Interacting(nodes, 0, 2) != {}
  {
    var x := WalkReaches(nodes, lev, 8, 1, {1});
    forall env: Env ensures Eval(nodes, lev, x, env) == (0 in env && 2 in env) {
      assert Prefix(lev, 1) == {1};
      assert Eval(nodes, lev, x, env) == Eval(nodes, lev, 8, Override(env, {1}, {1}));
    }
    UpperOfTwo(nodes, lev, x);
  }

  lemma UpperOfTwo(nodes: seq<BddNode>, lev: seq<nat>, x: int)
    requires Ordered(nodes, lev) && lev == [1, 0, 2, 3] && Ref(nodes, x) && (x >= 2 ==> Pos(nodes, lev, x) >= 1)
    requires forall env: Env :: Eval(nodes, lev, x, env) == (0 in env && 2 in env)
    ensures x in Interacting(nodes, 0, 2)
  {
    assert Eval(nodes, lev, x, {}) != Eval(nodes, lev, x, {0, 2});
    assert x >= 2;
    if Pos(nodes, lev, x) >= 2 {
      EvalReadsBelow(nodes, lev, x, {2}, {0, 2});
    }
    assert NodeOk(nodes, lev, x) && nodes[x].level == 0;
    var h := nodes[x].high;
    assert Eval(nodes, lev, h, {0}) != Eval(nodes, lev, h, {0, 2});
    assert h >= 2;
    assert NodeOk(nodes, lev, h) && nodes[h].level == 2;
  }

  /** What the start of the session knows about the root 8. */
  lemma RootBegins(nodes: seq<BddNode>, lev: seq<nat>, l2v: seq<nat>)
    requires Begins(LatePart(), 3, l2v, nodes, lev) && l2v == [0, 1, 2, 3]
    ensures Ordered(nodes, lev) && Live(nodes, 8) && AllThree(nodes, lev, 8)
  {
    hide Eval;
    LatePartRoot(l2v);
    assert IsRoot(LatePart(), [], 8);
    RootProtects(LatePart(), Levels(3), [], 8);
    assert BeginsAt(LatePart(), 3, l2v, nodes, lev, 8);
  }

  /** What the exchange of 0 and 1 keeps of it. */
  lemma RootExchanged(c: Ctx, e0: seq<nat>, n1: seq<BddNode>, ext: seq<nat>, n2: seq<BddNode>, lev1: seq<nat>)
    requires GcGraph(c, n1, ext) && Ordered(c.n0, c.lev) && Live(c.n0, 8) && AllThree(c.n0, c.lev, 8)
    requires 8 < |e0| <= |n1| && ext == e0 + seq(|n1| - |e0|, j => 0) && e0[8] > 0
    requires c.v0 < |c.lev| && c.v1 < |c.lev| && lev1 == Swapped(c.lev, c.v0, c.v1) && Ordered(n2, lev1) && SameCore(n1, n2)
    ensures Live(n2, 8) && AllThree(n2, lev1, 8)
  {
    hide Eval, Mid, CtxOk, AllHeld, Swapped;
    forall env: Env ensures Live(n1, 8) && Live(n2, 8) && Eval(n2, lev1, 8, env) == Eval(c.n0, c.lev, 8, env) {
      AfterSameEval(c, n1, 8, env);
      CoreEval(n1, n2, lev1, 8, env);
    }
  }

  /** What mark_roots finds out about the roots of LatePart. */
  lemma MatrixOfLatePart(iact: seq<seq<bool>>)
    requires Ordered(LatePart(), Levels(3)) && CountedAreLive(LatePart()) && MatrixIs(iact, 3, Found(LatePart(), Levels(3)))
    ensures |iact| == 3 && |iact[0]| == 3 && iact[0][1] && !iact[0][2]
  {
    hide LatePart, RootsBelow, Ordered, CountedAreLive;
    LatePartFound(10);
    assert (0, 1) in LateRelated(10) && (0, 2) !in LateRelated(10);
    assert |LatePart()| == 10;
  }

  /** bdd_setvarorder with the order 1, 2, 0 on LatePart: 0 and 1 are exchanged, and then the exchange of
      0 and 2 is skipped although the root 8 has an edge between them.  The table is not ordered
      for the new order.  False stands for a table that cannot grow. */
  method SkipNeeded(m: Reorderer) returns (ok: bool)
    requires m.nodes == LatePart() && m.var2level == m.level2var == [0, 1, 2, 3] && m.pairs == []
    modifies m
    ensures ok ==> m.level2var == [1, 2, 0, 3] && m.var2level == [2, 0, 1, 3] && !Ordered(m.nodes, m.var2level)
    ensures !ok ==> m.Exhausted()
  {
    hide Graph, Ordered, Ready, MatrixIs, Found, CountedAreLive, Begins, Table, GcGraph, AllThree, StartCounts, KeptAs, ListedTo, Session, Complete, Within, Interacting, Covers, Conserved, SameCore, Protected, LatePart, Swapped, SwapAt, OrderOf, Inverse, Translated, PairsKept;
    SwapsThree();
    LatePartGraph();
    BddKernel.GraphParts(LatePart(), 3);
    LatePartSame();
    var extroots := m.Init(3);
    RootBegins(m.nodes, m.var2level, m.level2var);
    MatrixOfLatePart(m.iactmtx);
    ReadyTable(m.nodes, m.var2level, m.level2var, m.L, m.levels, m.freepos, m.freenum, m.ext);
    m.resizedInMakenode := false;
    ghost var c := Ctx(m.nodes, m.var2level, 0, 1, Interacting(m.nodes, 0, 1));
    ghost var e0 := m.ext;
    assert m.iactmtx[0][1];
    ok := m.Restructure(c, 0, 1);
    if !ok { return; }
    ghost var n1, lev1 := m.nodes, Swapped(c.lev, 0, 1);
    TableOrdered(m.nodes, lev1, m.L, m.levels, m.freepos, m.freenum, m.ext);
    m.SwapTables(0, 0, 1);
    m.RehashIfResized(lev1);
    TableOrdered(m.nodes, lev1, m.L, m.levels, m.freepos, m.freenum, m.ext);
    RootExchanged(c, e0, n1, m.ext, m.nodes, lev1);
    EdgeBelow(m.nodes, lev1);
    SkipIff(m.nodes, lev1, 0, 2);
    assert !m.iactmtx[0][2];
    m.SwapTables(1, 0, 2);
  }

  lemma SwapsThree()
    ensures Swapped([0, 1, 2, 3], 0, 1) == [1, 0, 2, 3] && Swapped([1, 0, 2, 3], 0, 2) == [2, 0, 1, 3]
    ensures SwapAt([0, 1, 2, 3], 0) == [1, 0, 2, 3] && SwapAt([1, 0, 2, 3], 1) == [1, 2, 0, 3]
  {
  }

  lemma LatePartSame()
    ensures Translated(LatePart(), [0, 1, 2, 3]) == LatePart() && Levels(3) == [0, 1, 2, 3] && OrderOf([0, 1, 2, 3], [0, 1, 2, 3], 3)
    ensures LatePart()[8].refcount > 0
  {
  }

  lemma TableOrdered(nodes: seq<BddNode>, lev: seq<nat>, L: Links, levels: seq<LevelData>, freepos: nat, freenum: int, ext: seq<nat>)
    requires Table(nodes, lev, L, levels, freepos, freenum, ext)
    ensures Ordered(nodes, lev) && |levels| == |lev| - 1
  {
  }

  lemma ReadyTable(nodes: seq<BddNode>, lev: seq<nat>, level2var: seq<nat>, L: Links, levels: seq<LevelData>, freepos: nat, freenum: int, ext: seq<nat>)
    requires Ready(nodes, lev, level2var, L, levels, freepos, freenum, ext)
    ensures Table(nodes, lev, L, levels, freepos, freenum, ext) && 0 < |levels| <= |nodes| && Inverse(lev, level2var)
  {
  }
}
