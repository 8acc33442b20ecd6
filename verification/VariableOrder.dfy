/** bdd_setvarorder from one state of the kernel to the next: a whole reordering session.  The
    two classes are two views of the same variables, so the fields are copied over. */
module VariableOrder {
  import opened NodeTable
  import opened Diagram
  import opened RefCount
  import opened KernelTheory
  import opened Collection
  import opened BddKernel
  import opened BlockOrder
  import opened ReorderTheory
  import opened ReorderSession
  import opened ReorderStart
  import opened Dependencies
  import opened Reordering
  import Prime
  import opened Saturation
  import opened Supply
  import opened SessionParts

  /** Every diagram with a counted root says the same by variable under both orders. */
  ghost predicate SameByVariable(n0: seq<BddNode>, l2v0: seq<nat>, n1: seq<BddNode>, l2v1: seq<nat>, n: nat) {
    && Ordered(n0, Levels(n)) && Ordered(n1, Levels(n))
    && forall i :: Live(n0, i) && n0[i].refcount > 0 ==> SameByVariableAt(n0, l2v0, n1, l2v1, n, i)
  }

  ghost predicate SameByVariableAt(n0: seq<BddNode>, l2v0: seq<nat>, n1: seq<BddNode>, l2v1: seq<nat>, n: nat, i: int)
    requires Ordered(n0, Levels(n)) && Ordered(n1, Levels(n)) && Live(n0, i)
  {
    && Live(n1, i) && n1[i].refcount > 0
    && forall env :: Eval(n1, Levels(n), i, ByLevel(l2v1, env)) == Eval(n0, Levels(n), i, ByLevel(l2v0, env))
  }

  /** Start, exchanges and end put together. */
  lemma Chain(n0: seq<BddNode>, l2v0: seq<nat>, s0: Snapshot, s1: Snapshot, l2v1: seq<nat>, n1: seq<BddNode>, R: set<int>, n: nat)
    requires Graph(n0, n) && |l2v0| == n + 1 && Ranged(n0, n) && Begins(n0, n, l2v0, s0.nodes, s0.lev) && s0.ext == Outside(Translated(n0, l2v0))
    requires Carried(s0, s1) && (forall i :: Live(s1.nodes, i) ==> s1.nodes[i].refcount > 0)
    requires Ends(s1.nodes, s1.lev, l2v1, n1, n, R) && forall i :: Live(n0, i) && n0[i].refcount > 0 ==> i in R
    ensures SameByVariable(n0, l2v0, n1, l2v1, n)
  {
    hide Carried, Eval;
    forall i | Live(n0, i) && n0[i].refcount > 0 ensures SameByVariableAt(n0, l2v0, n1, l2v1, n, i) {
      assert IsRoot(n0, [], i);
      RootProtects(n0, Levels(n), [], i);
      assert BeginsAt(n0, n, l2v0, s0.nodes, s0.lev, i);
      CarriedRoot(s0, s1, i);
      assert EndsAt(s1.nodes, s1.lev, l2v1, n1, n, i);
    }
  }

  lemma CarriedRoot(s0: Snapshot, s1: Snapshot, i: int)
    requires Carried(s0, s1) && Live(s0.nodes, i) && i < |s0.ext| && s0.ext[i] > 0
    ensures Ordered(s0.nodes, s0.lev) && Ordered(s1.nodes, s1.lev) && Live(s1.nodes, i)
    ensures forall env :: Eval(s1.nodes, s1.lev, i, env) == Eval(s0.nodes, s0.lev, i, env)
  {
    hide Eval;
    assert SameFunction(s0.nodes, s0.lev, s1.nodes, s1.lev, i);
  }

  /** The final collection keeps counted nodes. */
  lemma CollectedSame(n0: seq<BddNode>, l2v0: seq<nat>, n1: seq<BddNode>, n2: seq<BddNode>, l2v1: seq<nat>, n: nat)
    requires SameByVariable(n0, l2v0, n1, l2v1, n) && Ordered(n2, Levels(n)) && Retains(n1, n2, Protected(n1, Levels(n), []))
    ensures SameByVariable(n0, l2v0, n2, l2v1, n)
  {
    hide Eval;
    forall i | Live(n0, i) && n0[i].refcount > 0 ensures SameByVariableAt(n0, l2v0, n2, l2v1, n, i) {
      assert SameByVariableAt(n0, l2v0, n1, l2v1, n, i);
      assert IsRoot(n1, [], i);
      RootProtects(n1, Levels(n), [], i);
      assert i in Reach(n1, Levels(n), i);
      forall env ensures Eval(n2, Levels(n), i, ByLevel(l2v1, env)) == Eval(n0, Levels(n), i, ByLevel(l2v0, env)) {
        RetainsEval(n1, n2, Levels(n), Protected(n1, Levels(n), []), i, ByLevel(l2v1, env));
      }
      RetainsLive(n1, n2, Protected(n1, Levels(n), []), i);
      assert SameNode(n1, n2, i);
    }
  }

  lemma RootsListed(n0: seq<BddNode>, n: nat, level2var: seq<nat>, extroots: seq<nat>)
    requires |level2var| == n + 1 && Ranged(n0, n) && ListedTo(Translated(n0, level2var), extroots, |n0|)
    ensures forall i :: Live(n0, i) && n0[i].refcount > 0 ==> i in Listed(extroots)
    ensures forall r :: r in extroots ==> 2 <= r < |n0|
  {
    forall i | Live(n0, i) && n0[i].refcount > 0 ensures i in Listed(extroots) {
      var r: nat := i;
      assert r in extroots;
    }
  }

  lemma GraphSizes(nodes: seq<BddNode>, n: nat, var2level: seq<nat>, level2var: seq<nat>)
    requires Graph(nodes, n) && OrderOf(var2level, level2var, n)
    ensures |level2var| == n + 1 && Ranged(nodes, n) && n <= MAXVAR && Ordered(nodes, Levels(n))
  {
  }

  lemma SessionCounted(nodes: seq<BddNode>, lev: seq<nat>, level2var: seq<nat>, L: Links, levels: seq<LevelData>,
                       freepos: nat, freenum: int, ext: seq<nat>, iact: seq<seq<bool>>, pairs: seq<RenameTable>)
    requires Session(nodes, lev, level2var, L, levels, freepos, freenum, ext, iact, pairs)
    ensures Ready(nodes, lev, level2var, L, levels, freepos, freenum, ext)
    ensures Conserved(nodes, ext) && Ordered(nodes, lev) && Reduced(nodes) && Unique(nodes) && forall i :: Live(nodes, i) ==> nodes[i].refcount > 0
  {
  }

  lemma CarriedSizes(s0: Snapshot, s1: Snapshot)
    requires Carried(s0, s1)
    ensures |s0.nodes| <= |s1.nodes|
  {
  }

  // ---- reference counts -------------------------------------------------------------

  /** The table before the session and the one at its end have the same roots with the same functions. */
  lemma RootsCarried(n0: seq<BddNode>, n: nat, l2v0: seq<nat>, s0: Snapshot, s1: Snapshot)
    requires Graph(n0, n) && |l2v0| == n + 1 && Begins(n0, n, l2v0, s0.nodes, s0.lev) && s0.ext == Outside(Translated(n0, l2v0))
    requires Carried(s0, s1) && |s0.nodes| == |n0|
    ensures SameRoots(n0, n, l2v0, s1.nodes, s1.lev, s1.ext) && |n0| <= |s1.nodes|
    ensures forall i :: 0 <= i < |n0| ==> s1.ext[i] == n0[i].refcount
  {
    hide Eval, PairsKept, Within, Reduced, Unique;
    forall i | Referenced(n0, i) ensures SameRootAt(n0, n, l2v0, s1.nodes, s1.lev, s1.ext, i) {
      assert IsRoot(n0, [], i);
      RootProtects(n0, Levels(n), [], i);
      assert BeginsAt(n0, n, l2v0, s0.nodes, s0.lev, i);
      CarriedRoot(s0, s1, i);
    }
  }

  /** From the kernel's table to the last one of the session. */
  lemma SessionWithin(n0: seq<BddNode>, l2v0: seq<nat>, n: nat, s0: Snapshot, s1: Snapshot)
    requires Graph(n0, n) && |l2v0| == n + 1 && s0.ext == Outside(Translated(n0, l2v0)) && Carried(s0, s1) && StartCounts(n0, s0.nodes)
    requires Conserved(s0.nodes, s0.ext) && Ordered(s0.nodes, s0.lev) && (forall i :: Live(s0.nodes, i) ==> s0.nodes[i].refcount > 0)
    ensures Within(n0, s1.nodes, Outside(n0), 0, s0.maxsize)
  {
    hide Within, Own, Conserved, Preserved, PairsKept;
    StartWithin(n0, s0.nodes, s0.ext, s0.maxsize);
    assert s0.ext == Outside(n0);
    WithinThen(n0, s0.nodes, s1.nodes, Outside(n0), s0.ext, 0, 0, 0, s0.maxsize);
  }

  /** What the session does to the counts. */
  lemma EndedCounts(n0: seq<BddNode>, n: nat, l2v0: seq<nat>, s1: Snapshot, l2v1: seq<nat>, last: seq<BddNode>, R: set<int>)
    requires SameRoots(n0, n, l2v0, s1.nodes, s1.lev, s1.ext) && |n0| <= |s1.nodes| && (forall i :: 0 <= i < |n0| ==> s1.ext[i] == n0[i].refcount)
    requires Conserved(s1.nodes, s1.ext) && Reduced(s1.nodes) && Unique(s1.nodes) && (forall i :: Live(s1.nodes, i) ==> s1.nodes[i].refcount > 0)
    requires OrderOf(s1.lev, l2v1, n) && EndedTo(s1.nodes, last, R, s1.lev, |s1.nodes|) && forall i :: Live(n0, i) && n0[i].refcount > 0 ==> i in R
    ensures CountsAfter(n0, last, last, NewlyStuck(n0, s1.nodes))
    ensures CountsMove(n0, n, l2v0, l2v1, last, NewlyStuck(n0, s1.nodes))
  {
    hide Eval, Conserved, Reduced, Unique, OrderOf, NewlyStuck, EndedTo;
    EndedSize(s1.nodes, last, R, s1.lev);
    forall i | Referenced(n0, i) ensures Live(s1.nodes, i) {
      assert SameRootAt(n0, n, l2v0, s1.nodes, s1.lev, s1.ext, i);
    }
    RootCounts(n0, s1.nodes, s1.ext);
    forall i | Referenced(n0, i) ensures CountAfter(n0, last, last, NewlyStuck(n0, s1.nodes), i) && InDegree(last, i) == InDegree(s1.nodes, i) {
      assert CountAfter(n0, s1.nodes, s1.nodes, NewlyStuck(n0, s1.nodes), i);
      EndedEdges(s1.nodes, last, R, s1.lev, i);
    }
    PartsMove(n0, n, l2v0, s1.nodes, s1.lev, l2v1, s1.ext, last, last);
  }

  lemma EndedSize(n0: seq<BddNode>, nodes: seq<BddNode>, R: set<int>, var2level: seq<nat>)
    requires EndedTo(n0, nodes, R, var2level, |n0|)
    ensures |nodes| == |n0|
  {
  }

  lemma RootsStay(n0: seq<BddNode>, l2v0: seq<nat>, n1: seq<BddNode>, l2v1: seq<nat>, n: nat)
    requires SameByVariable(n0, l2v0, n1, l2v1, n)
    ensures forall i :: Live(n0, i) && n0[i].refcount > 0 ==> Live(n1, i) && n1[i].refcount > 0
  {
    forall i | Live(n0, i) && n0[i].refcount > 0 ensures Live(n1, i) && n1[i].refcount > 0 {
      assert SameByVariableAt(n0, l2v0, n1, l2v1, n, i);
    }
  }

  lemma EndedEdges(n0: seq<BddNode>, nodes: seq<BddNode>, R: set<int>, var2level: seq<nat>, i: int)
    requires EndedTo(n0, nodes, R, var2level, |n0|) && i in R && 0 <= i < |n0|
    ensures InDegree(nodes, i) == InDegree(n0, i) && nodes[i].refcount == n0[i].refcount
  {
    forall j | 0 <= j < |n0| ensures nodes[j].low == n0[j].low && nodes[j].high == n0[j].high {
      assert EndedAt(n0, nodes, R, var2level, |n0|, j);
    }
    assert EndedAt(n0, nodes, R, var2level, |n0|, i);
    InDegreeSame(n0, nodes, i);
  }

  /** The final collection keeps the counts. */
  lemma CollectedCounts(n0: seq<BddNode>, last: seq<BddNode>, n1: seq<BddNode>, n: nat, l2v0: seq<nat>, l2v1: seq<nat>, stuck: set<int>)
    requires CountsAfter(n0, last, last, stuck) && CountsMove(n0, n, l2v0, l2v1, last, stuck)
    requires Ordered(last, Levels(n)) && Retains(last, n1, Protected(last, Levels(n), [])) && |last| <= |n1|
    requires forall i :: Live(n0, i) && n0[i].refcount > 0 ==> Live(last, i) && last[i].refcount > 0
    ensures CountsAfter(n0, last, n1, stuck) && CountsMove(n0, n, l2v0, l2v1, n1, stuck)
  {
    hide IsPartOf;
    forall i | Referenced(n0, i) ensures CountAfter(n0, last, n1, stuck, i) && CountMoves(n0, n, l2v0, l2v1, n1, stuck, i) {
      assert CountAfter(n0, last, last, stuck, i) && CountMoves(n0, n, l2v0, l2v1, last, stuck, i);
      assert IsRoot(last, [], i);
      RootProtects(last, Levels(n), [], i);
      assert i in Reach(last, Levels(n), i);
      assert SameNode(last, n1, i);
    }
  }

  /** The parents of i that a session starts with: those reachable from a counted node. */
  ghost function KeptParentsOf(n0: seq<BddNode>, n: nat, i: int): nat
    requires Ordered(n0, Levels(n))
  {
    Parents(n0, Protected(n0, Levels(n), []), i)
  }

  ghost predicate IdleCount(n0: seq<BddNode>, n: nat, n1: seq<BddNode>, i: int)
    requires Ordered(n0, Levels(n)) && Live(n0, i) && i < |n1|
  {
    && n1[i].refcount == Saturated(n0[i].refcount + KeptParentsOf(n0, n, i))
    && (n1[i].refcount == n0[i].refcount <==> n0[i].refcount == MAXREF || KeptParentsOf(n0, n, i) == 0)
  }

  ghost predicate IdleCounts(n0: seq<BddNode>, n: nat, n1: seq<BddNode>) {
    && Ordered(n0, Levels(n)) && |n1| == |n0|
    && forall i {:trigger Referenced(n0, i)} :: Referenced(n0, i) ==> IdleCount(n0, n, n1, i)
  }

  lemma StartedCounts(n0: seq<BddNode>, n: nat, l2v: seq<nat>, n1: seq<BddNode>, lev: seq<nat>, last: seq<BddNode>, R: set<int>)
    requires Graph(n0, n) && |l2v| == n + 1 && Begins(n0, n, l2v, n1, lev) && StartCounts(n0, n1)
    requires KeptAs(Translated(n0, l2v), n1, Protected(n0, Levels(n), []))
    requires EndedTo(n1, last, R, lev, |n1|) && forall i :: Live(n0, i) && n0[i].refcount > 0 ==> i in R
    ensures IdleCounts(n0, n, last)
  {
    hide Protected, EndedTo, Eval, KeptAs, Parents, Reduced, Unique, Translated, Reach;
    EndedSize(n1, last, R, lev);
    forall i | Referenced(n0, i) ensures IdleCount(n0, n, last, i) {
      assert IsRoot(n0, [], i);
      RootProtects(n0, Levels(n), [], i);
      assert BeginsAt(n0, n, l2v, n1, lev, i);
      EndedEdges(n1, last, R, lev, i);
      ParentsStarted(n0, n, l2v, n1, Protected(n0, Levels(n), []), i);
    }
  }

  lemma ParentsStarted(n0: seq<BddNode>, n: nat, l2v: seq<nat>, n1: seq<BddNode>, P: set<int>, i: int)
    requires Ordered(n0, Levels(n)) && Ranged(n0, n) && |l2v| == n + 1 && KeptAs(Translated(n0, l2v), n1, P)
    ensures Parents(n0, P, i) == InDegree(n1, i)
  {
    KeptParents(Translated(n0, l2v), n1, P, i);
    InDegreeSame(Only(Translated(n0, l2v), P), Only(n0, P), i);
  }

  /** A session that exchanges nothing, up to its final collection: the count of a root becomes the
      old one plus its parents among the reachable nodes.  It is unchanged if and only if it was stuck
      or there are no such parents. */
  method Idle(m: Reorderer, n: nat)
    requires Graph(m.nodes, n) && OrderOf(m.var2level, m.level2var, n) && PairsSized(m.pairs, n) && 0 < n <= |m.nodes|
    modifies m
    ensures m.level2var == old(m.level2var) && IdleCounts(old(m.nodes), n, m.nodes)
  {
    hide Graph, Complete, OrderOf, Session, Ready, MatrixIs, Found, CountedAreLive, Begins, KeptAs, StartCounts, Protected, Ordered, EndedTo, Ends, Translated, IdleCounts, ListedTo;
    ghost var n0, l2v := m.nodes, m.level2var;
    GraphSizes(n0, n, m.var2level, l2v);
    var extroots := m.Init(n);
    ghost var n1 := m.nodes;
    RootsListed(n0, n, l2v, extroots);
    m.Done(n, extroots);
    StartedCounts(n0, n, l2v, n1, m.var2level, m.nodes, Listed(extroots));
  }

  /** Idle on the two roots of TwoRoots: the count of the one that is a child of the other goes from
      one to two, although nobody has taken another reference. */
  method CountGrows(m: Reorderer)
    requires m.nodes == TwoRoots() && m.var2level == m.level2var == [0, 1, 2] && m.pairs == []
    modifies m
    ensures |m.nodes| == 4 && m.nodes[2].refcount == 2 && old(m.nodes)[2].refcount == 1 && m.nodes[3].refcount == 1
  {
    hide Graph, OrderOf, Ordered, IdleCounts;
    TwoRootsGraph();
    GraphParts(TwoRoots(), 2);
    Idle(m, 2);
    TwoRootsCount(m.nodes);
  }

  lemma TwoRootsCount(n1: seq<BddNode>)
    requires IdleCounts(TwoRoots(), 2, n1)
    ensures |n1| == 4 && n1[2].refcount == 2 && n1[3].refcount == 1
  {
    hide IdleCount;
    assert Referenced(TwoRoots(), 2) && Referenced(TwoRoots(), 3);
    TwoRootsIdle(n1, 2);
    TwoRootsIdle(n1, 3);
  }

  lemma TwoRootsIdle(n1: seq<BddNode>, i: int)
    requires Ordered(TwoRoots(), Levels(2)) && 2 <= i < 4 == |n1| && IdleCount(TwoRoots(), 2, n1, i)
    ensures n1[i].refcount == if i == 2 then 2 else 1
  {
    TwoRootsProtected();
    FourEntries(Only(TwoRoots(), {2, 3}), i);
  }

  /** The session's table after the start. */
  ghost predicate StartsAs(n0: seq<BddNode>, n: nat, lev0: seq<nat>, l2v0: seq<nat>, maxsize: nat, s: Snapshot) {
    && Ranged(n0, n) && |l2v0| == n + 1 && Begins(n0, n, l2v0, s.nodes, s.lev) && StartCounts(n0, s.nodes)
    && KeptAs(Translated(n0, l2v0), s.nodes, Protected(n0, Levels(n), []))
    && s.lev == lev0 && s.ext == Outside(Translated(n0, l2v0)) && s.maxsize == maxsize
  }

  /** The session can come to a table whose free entries do not do for the next exchange. */
  ghost predicate CannotFinish(n0: seq<BddNode>, n: nat, lev0: seq<nat>, l2v0: seq<nat>, maxsize: nat) {
    exists s :: StartsAs(n0, n, lev0, l2v0, maxsize, s) && Fails(s)
  }

  lemma Started(n0: seq<BddNode>, n: nat, lev0: seq<nat>, l2v0: seq<nat>, s: Snapshot)
    requires Graph(n0, n) && |l2v0| == n + 1 && Begins(n0, n, l2v0, s.nodes, s.lev) && StartCounts(n0, s.nodes)
    requires KeptAs(Translated(n0, l2v0), s.nodes, Protected(n0, Levels(n), [])) && s.lev == lev0 && s.ext == Outside(Translated(n0, l2v0))
    ensures StartsAs(n0, n, lev0, l2v0, s.maxsize, s)
  {
  }

  lemma NotFinished(n0: seq<BddNode>, n: nat, lev0: seq<nat>, l2v0: seq<nat>, s: Snapshot)
    requires StartsAs(n0, n, lev0, l2v0, s.maxsize, s) && Fails(s)
    ensures CannotFinish(n0, n, lev0, l2v0, s.maxsize)
  {
    hide StartsAs, Fails;
  }

  /** bdd_setvarorder: the kernel invariant is kept, the order is the requested one exactly for a
      permutation, and every referenced diagram keeps its identifier and its function of the
      variables.  The count of a root grows by its parents in the last table; while no count gets
      stuck, it is unchanged if and only if the root is no part of another one under the new order. */
  method SetVarOrder(k: Kernel, m: Reorderer, neworder: seq<nat>) returns (ok: bool, ghost stuck: set<int>)
    requires k.Valid() && k.refstack == [] && 0 < k.varnum <= |k.nodes|
    requires m.maxnodesize == k.maxnodesize && m.maxnodeincrease == k.maxnodeincrease
    requires OrderOf(m.var2level, m.level2var, k.varnum) && PairsSized(m.pairs, k.varnum)
    requires Complete(k.nodes, k.varnum, m.var2level, m.level2var)
    requires |neworder| == k.varnum && forall l :: 0 <= l < |neworder| ==> neworder[l] < k.varnum
    modifies k, m
    ensures |old(m.level2var)| == k.varnum + 1 && (old(m.level2var)[..k.varnum] == neworder ==> ok)
    ensures !ok ==> m.Exhausted() && CannotFinish(old(k.nodes), k.varnum, old(m.var2level), old(m.level2var), m.maxnodesize)
    ensures ok ==> k.Valid() && k.CachesEmpty() && k.varnum == old(k.varnum) && k.refstack == []
    ensures ok ==> OrderOf(m.var2level, m.level2var, k.varnum) && m.level2var == Arranged(old(m.level2var), neworder, 0)
    ensures ok ==> |m.level2var| == k.varnum + 1 && (m.level2var[..k.varnum] == neworder <==> Permutation(neworder))
    ensures ok ==> SameByVariable(old(k.nodes), old(m.level2var), k.nodes, m.level2var, k.varnum)
    ensures ok ==> CountsAfter(old(k.nodes), m.nodes, k.nodes, stuck)
    ensures ok ==> CountsMove(old(k.nodes), k.varnum, old(m.level2var), Arranged(old(m.level2var), neworder, 0), k.nodes, stuck)
    ensures ok ==> forall i :: i in stuck ==> Own(Outside(old(k.nodes)), i) + 2 * |k.nodes| >= MAXREF
    ensures ok && old(Roomy(k.nodes, k.maxnodesize)) ==> stuck == {}
  {
    hide Fails, CannotFinish, StartsAs, Prime.CanGrow, Graph, Ordered, Lists, Session, Carried, Begins, Ends, SameByVariable, OrderOf, Complete, ListedTo, Protected, Collected, EndedTo, StartCounts, KeptAs, CountsAfter, Conserved, CountsMove, SameRoots, Reduced, Unique, Arranged, Roomy, NewlyStuck, Within, Own, Ready, MatrixIs, Found, Translated, CountedAreLive;
    ghost var n0, l2v0 := k.nodes, m.level2var;
    var n := k.varnum;
    stuck := {};
    GraphSizes(n0, n, m.var2level, l2v0);
    m.nodes := k.nodes;
    var extroots := m.Init(n);
    ghost var s0 := m.Snap();
    SessionCounted(m.nodes, m.var2level, m.level2var, m.L, m.levels, m.freepos, m.freenum, m.ext, m.iactmtx, m.pairs);
    Started(n0, n, m.var2level, l2v0, s0);
    ok := m.SetVarOrder(neworder);
    if !ok {
      NotFinished(n0, n, old(m.var2level), l2v0, s0);
      return;
    }
    ghost var s1 := m.Snap();
    stuck := NewlyStuck(n0, s1.nodes);
    RootsListed(n0, n, l2v0, extroots);
    CarriedSizes(s0, s1);
    SessionCounted(m.nodes, m.var2level, m.level2var, m.L, m.levels, m.freepos, m.freenum, m.ext, m.iactmtx, m.pairs);
    m.Done(n, extroots);
    Chain(n0, l2v0, s0, s1, m.level2var, m.nodes, Listed(extroots), n);
    RootsCarried(n0, n, l2v0, s0, s1);
    SessionWithin(n0, l2v0, n, s0, s1);
    StuckFull(n0, s1.nodes, m.maxnodesize);
    EndedCounts(n0, n, l2v0, s1, m.level2var, m.nodes, Listed(extroots));
    EndedSize(s1.nodes, m.nodes, Listed(extroots), s1.lev);
    k.nodes := m.nodes;
    ghost var n1 := k.nodes;
    GraphParts(n1, n);
    k.Gbc();
    CollectedLive(n1, k.nodes, Protected(n1, Levels(n), []));
    GraphParts(k.nodes, n);
    RootsStay(n0, l2v0, n1, m.level2var, n);
    CollectedCounts(n0, n1, k.nodes, n, l2v0, m.level2var, stuck);
    CollectedSame(n0, l2v0, n1, k.nodes, m.level2var, n);
  }

  lemma StuckFull(n0: seq<BddNode>, n1: seq<BddNode>, maxsize: nat)
    requires Within(n0, n1, Outside(n0), 0, maxsize)
    ensures forall i :: i in NewlyStuck(n0, n1) ==> Own(Outside(n0), i) + 2 * |n1| >= MAXREF
    ensures Roomy(n0, maxsize) ==> NewlyStuck(n0, n1) == {}
  {
    if Roomy(n0, maxsize) { RoomyNotStuck(n0, n1, maxsize); }
  }
}
