/** Which reference counts a reordering session changes, in terms of what a caller knows before it: the
    functions of the counted nodes and the order to come. */
module SessionParts {
  import opened NodeTable
  import opened Diagram
  import opened RefCount
  import opened KernelTheory
  import opened ReorderStart
  import opened Renaming
  import opened Parts
  import opened Saturation

  /** The first k variables of the order. */
  function First(order: seq<nat>, k: nat): (P: set<nat>)
    requires k <= |order|
  {
    set l | 0 <= l < k :: order[l]
  }

  /** A node somebody outside the table holds on to. */
  predicate Referenced(nodes: seq<BddNode>, i: int) {
    Live(nodes, i) && nodes[i].refcount > 0
  }

  /** The function of i is that of another counted node r when the first k variables of the order get the
      values of a. */
  ghost predicate PartBy(n0: seq<BddNode>, n: nat, l2v0: seq<nat>, order: seq<nat>, i: int, r: int, k: nat, a: Env)
    requires Ordered(n0, Levels(n)) && Ref(n0, i)
  {
    && r != i && Referenced(n0, r) && k <= n && n <= |order|
    && forall env: Env :: Eval(n0, Levels(n), i, ByLevel(l2v0, env)) == Eval(n0, Levels(n), r, ByLevel(l2v0, Override(env, First(order, k), a)))
  }

  /** i is a part of another counted diagram under the given order. */
  ghost predicate IsPartOf(n0: seq<BddNode>, n: nat, l2v0: seq<nat>, order: seq<nat>, i: int)
    requires Ordered(n0, Levels(n)) && Ref(n0, i)
  {
    exists r, k, a :: PartBy(n0, n, l2v0, order, i, r, k, a)
  }

  /** The session's table has the counted nodes of n0, with their functions, and no others are referenced
      from outside. */
  ghost predicate SameRoots(n0: seq<BddNode>, n: nat, l2v0: seq<nat>, nodes: seq<BddNode>, lev: seq<nat>, ext: seq<nat>) {
    && Ordered(n0, Levels(n)) && Ordered(nodes, lev) && |ext| == |nodes|
    && (forall i {:trigger Referenced(n0, i)} :: Referenced(n0, i) ==> SameRootAt(n0, n, l2v0, nodes, lev, ext, i))
    && forall i {:trigger Live(nodes, i)} :: Live(nodes, i) && ext[i] > 0 ==> Referenced(n0, i)
  }

  ghost predicate SameRootAt(n0: seq<BddNode>, n: nat, l2v0: seq<nat>, nodes: seq<BddNode>, lev: seq<nat>, ext: seq<nat>, i: int)
    requires Ordered(n0, Levels(n)) && Ordered(nodes, lev) && Live(n0, i) && |ext| == |nodes|
  {
    && Live(nodes, i) && ext[i] > 0
    && forall env :: Eval(nodes, lev, i, env) == Eval(n0, Levels(n), i, ByLevel(l2v0, env))
  }

  lemma PrefixIsFirst(lev: seq<nat>, l2v: seq<nat>, n: nat, k: nat)
    requires OrderOf(lev, l2v, n)
    ensures n <= |l2v| && Prefix(lev, k) == First(l2v, if k < n then k else n)
  {
    OrderIsOrder(lev, l2v, n);
    var j := if k < n then k else n;
    forall v: nat ensures v in Prefix(lev, k) <==> v in First(l2v, j) {
      if v in Prefix(lev, k) {
        assert l2v[lev[v]] == v && 0 <= lev[v] < j;
      }
      if v in First(l2v, j) {
        var l :| 0 <= l < j && l2v[l] == v;
        assert lev[l2v[l]] == l;
      }
    }
  }

  /** Both ways of saying that i is a part of r. */
  lemma PartCarried(n0: seq<BddNode>, n: nat, l2v0: seq<nat>, nodes: seq<BddNode>, lev: seq<nat>, l2v: seq<nat>, ext: seq<nat>, i: int, r: int, k: nat, a: Env)
    requires SameRoots(n0, n, l2v0, nodes, lev, ext) && OrderOf(lev, l2v, n) && Referenced(n0, i) && Live(nodes, i)
    ensures IsPart(nodes, lev, ext, i, r, k, a) <==> PartBy(n0, n, l2v0, l2v, i, r, if k < n then k else n, a)
  {
    hide Eval, Override;
    PrefixIsFirst(lev, l2v, n, k);
    assert SameRootAt(n0, n, l2v0, nodes, lev, ext, i);
    if Referenced(n0, r) {
      assert SameRootAt(n0, n, l2v0, nodes, lev, ext, r);
      forall env: Env ensures Eval(nodes, lev, i, env) == Eval(n0, Levels(n), i, ByLevel(l2v0, env)) {
      }
      var P := Prefix(lev, k);
      forall env: Env ensures Eval(nodes, lev, r, Override(env, P, a)) == Eval(n0, Levels(n), r, ByLevel(l2v0, Override(env, P, a))) {
      }
    }
  }

  /** Stuck nodes are referenced from outside. */
  ghost predicate StuckAreRoots(nodes: seq<BddNode>, ext: seq<nat>) {
    |ext| == |nodes| && forall j {:trigger Live(nodes, j)} :: Live(nodes, j) ==> nodes[j].refcount > 0 && (nodes[j].refcount == MAXREF ==> ext[j] > 0)
  }

  lemma PartHasParents(n0: seq<BddNode>, n: nat, l2v0: seq<nat>, nodes: seq<BddNode>, lev: seq<nat>, l2v: seq<nat>, ext: seq<nat>, i: int)
    requires SameRoots(n0, n, l2v0, nodes, lev, ext) && OrderOf(lev, l2v, n) && Referenced(n0, i)
    requires Reduced(nodes) && Unique(nodes) && IsPartOf(n0, n, l2v0, l2v, i)
    ensures InDegree(nodes, i) > 0
  {
    hide PartBy, IsPart, Eval, Reduced, Unique;
    var r, k, a :| PartBy(n0, n, l2v0, l2v, i, r, k, a);
    assert SameRootAt(n0, n, l2v0, nodes, lev, ext, i);
    PartBounded(n0, n, l2v0, l2v, i, r, k, a);
    PartCarried(n0, n, l2v0, nodes, lev, l2v, ext, i, r, k, a);
    PartHasParent(nodes, lev, ext, i, r, k, a);
  }

  lemma PartBounded(n0: seq<BddNode>, n: nat, l2v0: seq<nat>, l2v: seq<nat>, i: int, r: int, k: nat, a: Env)
    requires Ordered(n0, Levels(n)) && Ref(n0, i) && PartBy(n0, n, l2v0, l2v, i, r, k, a)
    ensures k <= n
  {
  }

  lemma ParentsArePart(n0: seq<BddNode>, n: nat, l2v0: seq<nat>, nodes: seq<BddNode>, lev: seq<nat>, l2v: seq<nat>, ext: seq<nat>, i: int)
    requires SameRoots(n0, n, l2v0, nodes, lev, ext) && OrderOf(lev, l2v, n) && Referenced(n0, i)
    requires Conserved(nodes, ext) && StuckAreRoots(nodes, ext) && InDegree(nodes, i) > 0
    ensures IsPartOf(n0, n, l2v0, l2v, i)
  {
    hide PartBy, IsPart, Eval, Conserved;
    assert SameRootAt(n0, n, l2v0, nodes, lev, ext, i);
    var r, k, a := ParentMakesPart(nodes, lev, ext, i);
    PartCarried(n0, n, l2v0, nodes, lev, l2v, ext, i, r, k, a);
  }

  // ---- the top of the order ---------------------------------------------------------

  /** Every assignment by level is one by variable, as far as a diagram reads it. */
  lemma ByVariable(n0: seq<BddNode>, n: nat, lev0: seq<nat>, l2v0: seq<nat>, e: Env) returns (env: Env)
    requires Ordered(n0, Levels(n)) && OrderOf(lev0, l2v0, n)
    ensures forall v: nat :: v in env <==> v < |lev0| && lev0[v] in e
    ensures forall i {:trigger Ref(n0, i)} :: Ref(n0, i) ==> Eval(n0, Levels(n), i, ByLevel(l2v0, env)) == Eval(n0, Levels(n), i, e)
  {
    env := set v: nat | v < |lev0| && lev0[v] in e;
    forall l: nat | l <= n ensures l in ByLevel(l2v0, env) <==> l in e {
      assert lev0[l2v0[l]] == l;
    }
    forall i | Ref(n0, i) ensures Eval(n0, Levels(n), i, ByLevel(l2v0, env)) == Eval(n0, Levels(n), i, e) {
      EvalReadsBelow(n0, Levels(n), i, ByLevel(l2v0, env), e);
    }
  }

  /** A diagram that reads the first variable of the order is no part of another. */
  lemma TopIsNoPart(n0: seq<BddNode>, n: nat, lev0: seq<nat>, l2v0: seq<nat>, order: seq<nat>, i: int)
    requires Graph(n0, n) && OrderOf(lev0, l2v0, n) && Referenced(n0, i)
    requires 0 < |order| && order[0] < n && lev0[order[0]] in Support(n0, Levels(n), i)
    ensures !IsPartOf(n0, n, l2v0, order, i)
  {
    hide Eval, Support, Reduced, Unique, First, Override;
    forall r: int, k: nat, a: Env ensures !PartBy(n0, n, l2v0, order, i, r, k, a) {
      if r != i && Referenced(n0, r) && k <= |order| {
        var env := NoTopPart(n0, n, lev0, l2v0, order, i, r, k, a);
      }
    }
  }

  lemma NoTopPart(n0: seq<BddNode>, n: nat, lev0: seq<nat>, l2v0: seq<nat>, order: seq<nat>, i: int, r: int, k: nat, a: Env) returns (env: Env)
    requires Graph(n0, n) && OrderOf(lev0, l2v0, n) && Live(n0, i) && Live(n0, r) && r != i && k <= |order|
    requires 0 < |order| && order[0] < n && lev0[order[0]] in Support(n0, Levels(n), i)
    ensures Eval(n0, Levels(n), i, ByLevel(l2v0, env)) != Eval(n0, Levels(n), r, ByLevel(l2v0, Override(env, First(order, k), a)))
  {
    hide Eval, Support, Override, Reduced, Unique;
    if k == 0 {
      var e := Distinguish(n0, Levels(n), i, r);
      env := ByVariable(n0, n, lev0, l2v0, e);
      assert First(order, 0) == {};
      assert Override(env, First(order, 0), a) == env && Ref(n0, i) && Ref(n0, r);
    } else {
      var l := lev0[order[0]];
      var e := SupportMatters(n0, Levels(n), i, l);
      var e0 := ByVariable(n0, n, lev0, l2v0, With(e, l, false));
      var e1 := ByVariable(n0, n, lev0, l2v0, With(e, l, true));
      SameOverride(lev0, l2v0, n, order, k, a, e0, e1);
      assert Ref(n0, i);
      assert Eval(n0, Levels(n), i, ByLevel(l2v0, e0)) != Eval(n0, Levels(n), i, ByLevel(l2v0, e1));
      env := if Eval(n0, Levels(n), i, ByLevel(l2v0, e0)) != Eval(n0, Levels(n), r, ByLevel(l2v0, Override(e0, First(order, k), a))) then e0 else e1;
    }
  }

  lemma SameOverride(lev0: seq<nat>, l2v0: seq<nat>, n: nat, order: seq<nat>, k: nat, a: Env, e0: Env, e1: Env)
    requires OrderOf(lev0, l2v0, n) && 0 < k <= |order| && order[0] < n
    requires forall u: nat :: u < |lev0| && lev0[u] != lev0[order[0]] ==> (u in e0 <==> u in e1)
    requires forall u: nat :: u in e0 || u in e1 ==> u < |lev0|
    ensures Override(e0, First(order, k), a) == Override(e1, First(order, k), a)
  {
    assert order[0] in First(order, k);
    forall u: nat | u < |lev0| && u != order[0] ensures u in e0 <==> u in e1 {
      assert l2v0[lev0[u]] == u && l2v0[lev0[order[0]]] == order[0];
    }
  }

  // ---- counts -----------------------------------------------------------------------

  /** The nodes whose counts have got stuck. */
  ghost function NewlyStuck(n0: seq<BddNode>, n1: seq<BddNode>): (s: set<int>)
    ensures forall m :: m in s <==> GotStuck(n0, n1, m)
  {
    set m | 2 <= m < |n1| && GotStuck(n0, n1, m)
  }

  /** Every count may take in two edges from each entry of the largest table without getting stuck. */
  predicate Roomy(nodes: seq<BddNode>, maxsize: nat) {
    var size := if |nodes| < maxsize then maxsize else |nodes|;
    && maxsize > 0 && 2 * size < MAXREF
    && forall i :: 2 <= i < |nodes| && nodes[i].refcount != MAXREF ==> nodes[i].refcount + 2 * size < MAXREF
  }

  lemma RoomyNotStuck(n0: seq<BddNode>, n1: seq<BddNode>, maxsize: nat)
    requires Within(n0, n1, Outside(n0), 0, maxsize) && Roomy(n0, maxsize)
    ensures NewlyStuck(n0, n1) == {}
  {
    forall m ensures !GotStuck(n0, n1, m) {
    }
  }

  /** The first counting may make counts stuck. */
  lemma StartWithin(n0: seq<BddNode>, nodes: seq<BddNode>, ext: seq<nat>, maxsize: nat)
    requires StartCounts(n0, nodes) && Conserved(nodes, ext) && (forall i :: Live(nodes, i) ==> nodes[i].refcount > 0)
    requires |nodes| >= 2 && nodes[0].low == nodes[0].high == 0 && nodes[1].low == nodes[1].high == 1
    ensures Within(n0, nodes, Outside(n0), 0, maxsize)
  {
    forall m | GotStuck(n0, nodes, m) ensures Own(Outside(n0), m) + 2 * |nodes| >= MAXREF {
      assert Live(nodes, m);
      DegreeBound(nodes, m);
    }
  }

  /** What a root was counted before, and its parents in the last table, unless it was or got stuck. */
  ghost predicate CountAfter(n0: seq<BddNode>, last: seq<BddNode>, n1: seq<BddNode>, stuck: set<int>, i: int)
    requires 0 <= i < |n0| <= |n1|
  {
    if n0[i].refcount == MAXREF || i in stuck then n1[i].refcount == MAXREF
    else n1[i].refcount == n0[i].refcount + InDegree(last, i) < MAXREF
  }

  ghost predicate CountsAfter(n0: seq<BddNode>, last: seq<BddNode>, n1: seq<BddNode>, stuck: set<int>) {
    |n0| <= |n1| && forall i {:trigger Referenced(n0, i)} :: Referenced(n0, i) ==> CountAfter(n0, last, n1, stuck, i)
  }

  /** The count of a part changes, unless it was stuck; when no count gets stuck, no other count does. */
  ghost predicate CountMoves(n0: seq<BddNode>, n: nat, l2v0: seq<nat>, order: seq<nat>, n1: seq<BddNode>, stuck: set<int>, i: int)
    requires Ordered(n0, Levels(n)) && Live(n0, i) && i < |n1|
  {
    && (n0[i].refcount < MAXREF && IsPartOf(n0, n, l2v0, order, i) ==> n1[i].refcount > n0[i].refcount)
    && (stuck == {} ==> (n1[i].refcount == n0[i].refcount <==> n0[i].refcount == MAXREF || !IsPartOf(n0, n, l2v0, order, i)))
  }

  ghost predicate CountsMove(n0: seq<BddNode>, n: nat, l2v0: seq<nat>, order: seq<nat>, n1: seq<BddNode>, stuck: set<int>) {
    && Ordered(n0, Levels(n)) && |n0| <= |n1|
    && forall i {:trigger Referenced(n0, i)} :: Referenced(n0, i) ==> CountMoves(n0, n, l2v0, order, n1, stuck, i)
  }

  /** The counts in the last table of the session. */
  lemma RootCounts(n0: seq<BddNode>, nodes: seq<BddNode>, ext: seq<nat>)
    requires Conserved(nodes, ext) && |n0| <= |nodes| && (forall i :: 0 <= i < |n0| ==> ext[i] == n0[i].refcount)
    requires forall i {:trigger Referenced(n0, i)} :: Referenced(n0, i) ==> Live(nodes, i)
    ensures CountsAfter(n0, nodes, nodes, NewlyStuck(n0, nodes))
  {
    forall i | Referenced(n0, i) ensures CountAfter(n0, nodes, nodes, NewlyStuck(n0, nodes), i) {
      var d := InDegree(nodes, i);
      assert Live(nodes, i) && CountOk(nodes, ext, i);
    }
  }

  lemma StuckRoots(n0: seq<BddNode>, nodes: seq<BddNode>, ext: seq<nat>)
    requires |n0| <= |nodes| == |ext| && (forall i :: 0 <= i < |n0| ==> ext[i] == n0[i].refcount)
    requires (forall i :: Live(nodes, i) ==> nodes[i].refcount > 0) && NewlyStuck(n0, nodes) == {}
    ensures StuckAreRoots(nodes, ext)
  {
    forall j | Live(nodes, j) && nodes[j].refcount == MAXREF ensures ext[j] > 0 {
      assert j !in NewlyStuck(n0, nodes);
    }
  }

  /** Which counts change. */
  lemma PartsMove(n0: seq<BddNode>, n: nat, l2v0: seq<nat>, nodes: seq<BddNode>, lev: seq<nat>, l2v: seq<nat>, ext: seq<nat>, n1: seq<BddNode>, last: seq<BddNode>)
    requires SameRoots(n0, n, l2v0, nodes, lev, ext) && OrderOf(lev, l2v, n) && Reduced(nodes) && Unique(nodes) && Conserved(nodes, ext)
    requires (forall i :: Live(nodes, i) ==> nodes[i].refcount > 0) && |n0| <= |nodes| && (forall i :: 0 <= i < |n0| ==> ext[i] == n0[i].refcount)
    requires CountsAfter(n0, last, n1, NewlyStuck(n0, nodes)) && forall i {:trigger Referenced(n0, i)} :: Referenced(n0, i) ==> InDegree(last, i) == InDegree(nodes, i)
    ensures CountsMove(n0, n, l2v0, l2v, n1, NewlyStuck(n0, nodes))
  {
    hide Conserved, Reduced, Unique, OrderOf, IsPartOf, StuckAreRoots, NewlyStuck;
    var stuck := NewlyStuck(n0, nodes);
    if stuck == {} { StuckRoots(n0, nodes, ext); }
    forall i | Referenced(n0, i) ensures CountMoves(n0, n, l2v0, l2v, n1, stuck, i) {
      assert CountAfter(n0, last, n1, stuck, i);
      if IsPartOf(n0, n, l2v0, l2v, i) {
        PartHasParents(n0, n, l2v0, nodes, lev, l2v, ext, i);
      } else if stuck == {} && InDegree(nodes, i) > 0 {
        ParentsArePart(n0, n, l2v0, nodes, lev, l2v, ext, i);
      }
    }
  }
}
