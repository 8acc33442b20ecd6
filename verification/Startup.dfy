/** The table at the start, and what more variables change. */
module Startup {
  import opened NodeTable
  import opened Diagram
  import opened KernelTheory

  /** An entry as bdd_init leaves it. */
  function Blank(i: nat, size: nat): BddNode {
    var next := if i == size - 1 then 0 else i + 1;
    if i < 2 then BddNode(MAXREF, 0, i, i, 0, next) else BddNode(0, 0, -1, -1, 0, next)
  }

  /** The loops of bdd_init. */
  method InitialTable(size: nat) returns (nodes: seq<BddNode>)
    requires size >= 3
    ensures |nodes| == size && forall i :: 0 <= i < size ==> nodes[i] == Blank(i, size)
  {
    nodes := [];
    var i := 0;
    while i != 2
      invariant 0 <= i <= 2 && |nodes| == i
      invariant forall j :: 0 <= j < i ==> nodes[j] == Blank(j, size)
    {
      nodes := nodes + [BddNode(MAXREF, 0, i, i, 0, i + 1)];
      i := i + 1;
    }
    while i != size
      invariant 2 <= i <= size && |nodes| == i
      invariant forall j :: 0 <= j < i ==> nodes[j] == Blank(j, size + 1)
    {
      nodes := nodes + [BddNode(0, 0, -1, -1, 0, i + 1)];
      i := i + 1;
    }
    nodes := nodes[size - 1 := nodes[size - 1].(next := 0)];
  }

  ghost function InitialLinks(size: nat): Links {
    Links(seq(size, i => if i < 2 then Loose else Free), seq(size, i requires 0 <= i < size => size - 1 - i))
  }

  lemma InitialLists(nodes: seq<BddNode>)
    requires |nodes| >= 3 && forall i :: 0 <= i < |nodes| ==> nodes[i] == Blank(i, |nodes|)
    ensures Lists(nodes, InitialLinks(|nodes|), 2, |nodes| - 2)
  {
    var L := InitialLinks(|nodes|);
    forall i | 2 <= i < |nodes| ensures LinkAt(nodes, L, i) {
    }
    forall b | 0 <= b < |nodes| ensures HeadOk(L, Bucket(b), nodes[b].hash) {
    }
  }

  lemma InitialGraph(nodes: seq<BddNode>)
    requires |nodes| >= 3 && forall i :: 0 <= i < |nodes| ==> nodes[i] == Blank(i, |nodes|)
    ensures Graph(nodes, 0) && AllLive(nodes) == {}
  {
    assert forall i :: !Live(nodes, i);
  }

  // ---- one more variable ------------------------------------------------------------

  /** The terminals below one more level. */
  function Raised(nodes: seq<BddNode>, m: nat): (r: seq<BddNode>)
    requires |nodes| >= 2
    ensures |r| == |nodes| && forall i :: 2 <= i < |nodes| ==> r[i] == nodes[i]
    ensures r[0] == nodes[0].(level := m) && r[1] == nodes[1].(level := m)
  {
    nodes[0 := nodes[0].(level := m)][1 := nodes[1].(level := m)]
  }

  lemma RaisedOrdered(nodes: seq<BddNode>, n: nat)
    requires Ordered(nodes, Levels(n))
    ensures Ordered(Raised(nodes, n + 1), Levels(n + 1))
  {
    var r := Raised(nodes, n + 1);
    forall i | Live(r, i) ensures NodeOk(r, Levels(n + 1), i) {
      assert NodeOk(nodes, Levels(n), i);
      if nodes[i].low >= 2 { assert NodeOk(nodes, Levels(n), nodes[i].low); }
      if nodes[i].high >= 2 { assert NodeOk(nodes, Levels(n), nodes[i].high); }
    }
  }

  lemma RaisedGraph(nodes: seq<BddNode>, n: nat)
    requires Graph(nodes, n) && n < MAXVAR
    ensures Graph(Raised(nodes, n + 1), n + 1)
  {
    RaisedOrdered(nodes, n);
    var r := Raised(nodes, n + 1);
    forall i, j | Live(r, i) && Live(r, j) && SameTriple(r[i], r[j]) ensures i == j {
      assert Live(nodes, i) && Live(nodes, j) && SameTriple(nodes[i], nodes[j]);
    }
    forall i | Live(r, i) ensures r[i].low != r[i].high {
      assert Live(nodes, i);
    }
  }

  lemma RaisedLists(nodes: seq<BddNode>, L: Links, freepos: nat, freenum: int, m: nat)
    requires Lists(nodes, L, freepos, freenum)
    ensures Lists(Raised(nodes, m), L, freepos, freenum)
  {
    SameLinks(nodes, Raised(nodes, m), L);
  }

  /** No diagram changes its meaning. */
  lemma {:induction false} RaisedEval(nodes: seq<BddNode>, n: nat, i: int, env: Env)
    requires Ordered(nodes, Levels(n)) && Ordered(Raised(nodes, n + 1), Levels(n + 1)) && Ref(nodes, i)
    ensures Ref(Raised(nodes, n + 1), i) && Eval(Raised(nodes, n + 1), Levels(n + 1), i, env) == Eval(nodes, Levels(n), i, env)
    decreases n + 1 - Pos(nodes, Levels(n), i)
  {
    if i >= 2 {
      assert NodeOk(nodes, Levels(n), i) && NodeOk(Raised(nodes, n + 1), Levels(n + 1), i);
      RaisedEval(nodes, n, nodes[i].low, env);
      RaisedEval(nodes, n, nodes[i].high, env);
    }
  }

  lemma {:induction false} RaisedReach(nodes: seq<BddNode>, n: nat, i: int)
    requires Ordered(nodes, Levels(n)) && Ordered(Raised(nodes, n + 1), Levels(n + 1)) && Ref(nodes, i)
    ensures Ref(Raised(nodes, n + 1), i) && Reach(Raised(nodes, n + 1), Levels(n + 1), i) == Reach(nodes, Levels(n), i)
    decreases n + 1 - Pos(nodes, Levels(n), i)
  {
    if i >= 2 {
      assert NodeOk(nodes, Levels(n), i) && NodeOk(Raised(nodes, n + 1), Levels(n + 1), i);
      RaisedReach(nodes, n, nodes[i].low);
      RaisedReach(nodes, n, nodes[i].high);
    }
  }

  lemma RaisedProtected(nodes: seq<BddNode>, n: nat, stack: seq<int>)
    requires Ordered(nodes, Levels(n)) && Ordered(Raised(nodes, n + 1), Levels(n + 1))
    ensures Protected(Raised(nodes, n + 1), Levels(n + 1), stack) == Protected(nodes, Levels(n), stack)
  {
    var r := Raised(nodes, n + 1);
    forall i ensures IsProtected(r, Levels(n + 1), stack, i) <==> IsProtected(nodes, Levels(n), stack, i) {
      if IsProtected(r, Levels(n + 1), stack, i) {
        var x :| IsRoot(r, stack, x) && i in Reach(r, Levels(n + 1), x);
        RaisedReach(nodes, n, x);
        assert IsRoot(nodes, stack, x);
      }
      if IsProtected(nodes, Levels(n), stack, i) {
        var x :| IsRoot(nodes, stack, x) && i in Reach(nodes, Levels(n), x);
        RaisedReach(nodes, n, x);
        assert IsRoot(r, stack, x);
      }
    }
  }

  /** The counted nodes are still there with their meaning. */
  ghost predicate Carries(n0: seq<BddNode>, n: nat, n1: seq<BddNode>, m: nat) {
    && Ordered(n0, Levels(n)) && Ordered(n1, Levels(m))
    && Protected(n0, Levels(n), []) <= Protected(n1, Levels(m), [])
    && forall i :: i in Protected(n0, Levels(n), []) ==> CarriesAt(n0, n, n1, m, i)
  }

  ghost predicate CarriesAt(n0: seq<BddNode>, n: nat, n1: seq<BddNode>, m: nat, i: int)
    requires Ordered(n0, Levels(n)) && Ordered(n1, Levels(m))
  {
    && Live(n0, i) && Live(n1, i) && SameTriple(n1[i], n0[i]) && n1[i].refcount == n0[i].refcount
    && forall env :: Eval(n1, Levels(m), i, env) == Eval(n0, Levels(n), i, env)
  }

  lemma CarriesTransitive(n0: seq<BddNode>, a: nat, n1: seq<BddNode>, b: nat, n2: seq<BddNode>, c: nat)
    requires Carries(n0, a, n1, b) && Carries(n1, b, n2, c)
    ensures Carries(n0, a, n2, c)
  {
    hide Ordered, Protected, Live;
    forall i | i in Protected(n0, Levels(a), []) ensures CarriesAt(n0, a, n2, c, i) {
      assert CarriesAt(n0, a, n1, b, i) && CarriesAt(n1, b, n2, c, i);
    }
  }

  lemma CarriesSelf(nodes: seq<BddNode>, n: nat)
    requires Ordered(nodes, Levels(n))
    ensures Carries(nodes, n, nodes, n)
  {
    ProtectedClosed(nodes, Levels(n), []);
    forall i | i in Protected(nodes, Levels(n), []) ensures CarriesAt(nodes, n, nodes, n, i) {
      assert ClosedAt(nodes, Protected(nodes, Levels(n), []), i);
    }
  }

  lemma RaisedCarries(nodes: seq<BddNode>, n: nat)
    requires Ordered(nodes, Levels(n))
    ensures Ordered(Raised(nodes, n + 1), Levels(n + 1)) && Carries(nodes, n, Raised(nodes, n + 1), n + 1)
  {
    RaisedOrdered(nodes, n);
    RaisedProtected(nodes, n, []);
    ProtectedClosed(nodes, Levels(n), []);
    forall i | i in Protected(nodes, Levels(n), []) ensures CarriesAt(nodes, n, Raised(nodes, n + 1), n + 1, i) {
      assert ClosedAt(nodes, Protected(nodes, Levels(n), []), i);
      forall env ensures Eval(Raised(nodes, n + 1), Levels(n + 1), i, env) == Eval(nodes, Levels(n), i, env) {
        RaisedEval(nodes, n, i, env);
      }
    }
  }

  lemma RetainsCarries(n0: seq<BddNode>, n1: seq<BddNode>, n: nat, stack: seq<int>)
    requires Ordered(n0, Levels(n)) && Ordered(n1, Levels(n)) && Retains(n0, n1, Protected(n0, Levels(n), stack))
    ensures Carries(n0, n, n1, n)
  {
    var S, P := Protected(n0, Levels(n), []), Protected(n0, Levels(n), stack);
    forall i | i in S ensures i in P {
      var r :| IsRoot(n0, [], r) && i in Reach(n0, Levels(n), r);
      assert IsRoot(n0, stack, r);
    }
    ProtectedClosed(n0, Levels(n), []);
    forall i | i in S ensures SameNode(n0, n1, i) { assert i in P; }
    assert Retains(n0, n1, S);
    RetainsProtected(n0, n1, Levels(n), [], []);
    forall i | i in S ensures CarriesAt(n0, n, n1, n, i) {
      RetainsLive(n0, n1, S, i);
      forall env ensures Eval(n1, Levels(n), i, env) == Eval(n0, Levels(n), i, env) {
        RetainsEval(n0, n1, Levels(n), S, i, env);
      }
    }
  }

  // ---- the nodes of the variables ---------------------------------------------------

  /** The two nodes of variable v are in the table for good. */
  ghost predicate HasVariable(nodes: seq<BddNode>, varset: seq<int>, v: nat) {
    && 2 * v + 1 < |varset|
    && Lasting(nodes, varset[2 * v], v, 0, 1) && Lasting(nodes, varset[2 * v + 1], v, 1, 0)
  }

  ghost predicate Lasting(nodes: seq<BddNode>, x: int, v: nat, low: int, high: int) {
    Live(nodes, x) && nodes[x].level == v && nodes[x].low == low && nodes[x].high == high && nodes[x].refcount == MAXREF
  }

  ghost predicate HasVariables(nodes: seq<BddNode>, varset: seq<int>, n: nat) {
    forall v :: 0 <= v < n ==> HasVariable(nodes, varset, v)
  }

  lemma RetainsVariables(n0: seq<BddNode>, n1: seq<BddNode>, S: set<int>, varset: seq<int>, n: nat)
    requires HasVariables(n0, varset, n) && Retains(n0, n1, S) && forall i :: 2 <= i < |n0| && n0[i].refcount > 0 ==> i in S
    ensures HasVariables(n1, varset, n)
  {
    forall v | 0 <= v < n ensures HasVariable(n1, varset, v) {
      assert HasVariable(n0, varset, v);
      assert varset[2 * v] in S && varset[2 * v + 1] in S;
    }
  }

  lemma RaisedVariables(nodes: seq<BddNode>, m: nat, varset: seq<int>, n: nat)
    requires HasVariables(nodes, varset, n) && |nodes| >= 2
    ensures HasVariables(Raised(nodes, m), varset, n)
  {
    forall v | 0 <= v < n ensures HasVariable(Raised(nodes, m), varset, v) {
      assert HasVariable(nodes, varset, v);
    }
  }

  /** x gets a count that never changes. */
  ghost predicate Saturated(n0: seq<BddNode>, n1: seq<BddNode>, x: int) {
    2 <= x < |n0| && n1 == n0[x := n0[x].(refcount := MAXREF)]
  }

  lemma {:induction false} SaturatedEval(n0: seq<BddNode>, n1: seq<BddNode>, lev: seq<nat>, x: int, i: int, env: Env)
    requires Saturated(n0, n1, x) && Ordered(n0, lev) && Ordered(n1, lev) && Ref(n0, i)
    ensures Ref(n1, i) && Eval(n1, lev, i, env) == Eval(n0, lev, i, env) && Reach(n1, lev, i) == Reach(n0, lev, i)
    decreases |lev| - Pos(n0, lev, i)
  {
    if i >= 2 {
      assert NodeOk(n0, lev, i) && NodeOk(n1, lev, i);
      SaturatedEval(n0, n1, lev, x, n0[i].low, env);
      SaturatedEval(n0, n1, lev, x, n0[i].high, env);
    }
  }

  /** Saturating a node that was not there before. */
  lemma SaturatedCarries(n0: seq<BddNode>, a: nat, n1: seq<BddNode>, n2: seq<BddNode>, b: nat, x: int)
    requires Carries(n0, a, n1, b) && Saturated(n1, n2, x) && Ordered(n2, Levels(b)) && x !in Protected(n0, Levels(a), [])
    ensures Carries(n0, a, n2, b)
  {
    hide Saturated;
    var P := Protected(n1, Levels(b), []);
    SaturatedFields(n1, n2, x);
    forall i | i in P ensures i in Protected(n2, Levels(b), []) {
      var r :| IsRoot(n1, [], r) && i in Reach(n1, Levels(b), r);
      SaturatedEval(n1, n2, Levels(b), x, r, {});
      assert IsRoot(n2, [], r);
    }
    forall i | i in Protected(n0, Levels(a), []) ensures CarriesAt(n0, a, n2, b, i) {
      assert CarriesAt(n0, a, n1, b, i);
      forall env ensures Eval(n2, Levels(b), i, env) == Eval(n0, Levels(a), i, env) {
        SaturatedEval(n1, n2, Levels(b), x, i, env);
      }
    }
  }

  lemma SaturatedFields(n0: seq<BddNode>, n1: seq<BddNode>, x: int)
    requires Saturated(n0, n1, x)
    ensures |n1| == |n0| && forall i :: 0 <= i < |n0| ==> SameTriple(n1[i], n0[i]) && (i != x ==> n1[i] == n0[i]) && (n0[i].refcount > 0 ==> n1[i].refcount > 0)
  {
  }

  lemma SaturatedVariables(n0: seq<BddNode>, n1: seq<BddNode>, x: int, varset: seq<int>, n: nat)
    requires HasVariables(n0, varset, n) && Saturated(n0, n1, x)
    ensures HasVariables(n1, varset, n)
  {
    forall v | 0 <= v < n ensures HasVariable(n1, varset, v) {
      assert HasVariable(n0, varset, v);
    }
  }

  lemma OneMoreVariable(nodes: seq<BddNode>, varset: seq<int>, n: nat, x: int, y: int)
    requires HasVariables(nodes, varset, n) && |varset| == 2 * n && Lasting(nodes, x, n, 0, 1) && Lasting(nodes, y, n, 1, 0)
    ensures HasVariables(nodes, varset + [x, y], n + 1)
  {
    forall v | 0 <= v < n + 1 ensures HasVariable(nodes, varset + [x, y], v) {
      if v < n { assert HasVariable(nodes, varset, v); }
    }
  }

  /** A node at the new level was not there before. */
  lemma NewLevel(n0: seq<BddNode>, n: nat, n1: seq<BddNode>, x: int)
    requires Carries(n0, n, n1, n + 1) && Live(n1, x) && n1[x].level == n && n1[x].low < 2 && n1[x].high < 2 && n1[x].low != n1[x].high
    ensures x !in Protected(n0, Levels(n), [])
  {
    forall i | i in Protected(n0, Levels(n), []) ensures i < |n1| && n1[i].level < n {
      assert CarriesAt(n0, n, n1, n + 1, i) && NodeOk(n0, Levels(n), i);
    }
  }
}
