/** What the recursive operations on the kernel have in common: operands that survive a
    garbage collection because the caller or the reference stack holds them. */
module Operators {
  import opened NodeTable
  import opened Diagram
  import opened KernelTheory
  import opened Collection
  import opened BddKernel

  /** An operand an operation may rely on: a terminal or a protected node. */
  ghost predicate Held(k: Kernel, x: int)
    reads k
    requires k.Valid()
  {
    x == 0 || x == 1 || x in k.Roots()
  }

  /** The state in which an operation gives up: what was protected is retained. */
  ghost predicate GaveUp(k: Kernel, n0: seq<BddNode>, M: set<int>)
    reads k
  {
    k.Valid() && k.Crowded() && Retains(n0, k.nodes, M) && Ordered(k.nodes, Levels(k.varnum))
  }

  lemma GaveUpLater(k: Kernel, n0: seq<BddNode>, M0: set<int>, n1: seq<BddNode>, M1: set<int>)
    requires GaveUp(k, n1, M1) && Retains(n0, n1, M0) && M0 <= M1
    ensures GaveUp(k, n0, M0)
  {
    RetainsTransitive(n0, n1, k.nodes, M0, M1);
  }

  lemma HeldFacts(k: Kernel, x: int)
    requires k.Valid() && Held(k, x)
    ensures Ref(k.nodes, x) && k.nodes[x].level <= k.varnum && (x < 2 <==> k.nodes[x].level == k.varnum)
    ensures x >= 2 ==> x in k.Roots() && NodeOk(k.nodes, Levels(k.varnum), x)
    ensures x >= 2 ==> Held(k, k.nodes[x].low) && Held(k, k.nodes[x].high)
    ensures x >= 2 ==> Ref(k.nodes, k.nodes[x].low) && Ref(k.nodes, k.nodes[x].high)
    ensures x >= 2 ==> k.nodes[x].level < k.nodes[k.nodes[x].low].level <= k.varnum && k.nodes[x].level < k.nodes[k.nodes[x].high].level <= k.varnum
  {
    k.RootsClosed();
    if x >= 2 {
      assert ClosedAt(k.nodes, k.Roots(), x);
      assert NodeOk(k.nodes, Levels(k.varnum), x);
      if k.nodes[x].low >= 2 { assert NodeOk(k.nodes, Levels(k.varnum), k.nodes[x].low); }
      if k.nodes[x].high >= 2 { assert NodeOk(k.nodes, Levels(k.varnum), k.nodes[x].high); }
    }
  }

  /** What was held before a recursive call is held after its result has been pushed. */
  lemma AfterPush(n0: seq<BddNode>, n1: seq<BddNode>, lev: seq<nat>, s: seq<int>, r: int)
    requires Ordered(n0, lev) && Ordered(n1, lev) && Retains(n0, n1, Protected(n0, lev, s)) && Ref(n1, r)
    ensures Protected(n0, lev, s) <= Protected(n1, lev, s + [r])
    ensures r == 0 || r == 1 || r in Protected(n1, lev, s + [r])
  {
    RetainsProtected(n0, n1, lev, s, s + [r]);
    assert IsRoot(n1, s + [r], r);
    RootProtects(n1, lev, s + [r], r);
  }

  lemma LaterFacts(n0: seq<BddNode>, n1: seq<BddNode>, M: set<int>, x: int)
    requires Retains(n0, n1, M) && (x == 0 || x == 1 || x in M)
    ensures Ref(n1, x) && Ref(n0, x) && n1[x].level == n0[x].level
  {
    if x >= 2 { assert SameNode(n0, n1, x) && ClosedAt(n0, M, x); }
  }

  lemma NodeFits(nodes: seq<BddNode>, n: nat, level: nat, low: int, high: int)
    requires level < n && Ref(nodes, low) && Ref(nodes, high) && level < nodes[low].level && level < nodes[high].level
    ensures Fitting(nodes, n, level, low, high)
  {
  }

  /** Doing nothing retains everything protected. */
  lemma RetainsNow(k: Kernel)
    requires k.Valid()
    ensures Retains(k.nodes, k.nodes, k.Roots()) && Ordered(k.nodes, Levels(k.varnum)) && Reduced(k.nodes)
  {
    k.RootsClosed();
    forall i | i in k.Roots() ensures SameNode(k.nodes, k.nodes, i) { assert ClosedAt(k.nodes, k.Roots(), i); }
  }
}
