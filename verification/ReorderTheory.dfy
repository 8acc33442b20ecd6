/** Why the in-place exchange of two adjacent variables is sound: invariants of the node
    table while the exchange is under way, and what they give when it is complete. */
module ReorderTheory {
  import opened NodeTable
  import opened Diagram
  import opened RefCount

  /** The part of the table that holds the hash buckets of one variable. */
  datatype LevelData = LevelData(start: nat, size: nat, maxsize: nat, nodenum: int)

  function NodeHash(levels: seq<LevelData>, v: nat, l: int, h: int): nat
    requires v < |levels| && levels[v].size > 0
  {
    PairHash(l, h) % levels[v].size + levels[v].start
  }

  /** The bucket of two small children among those of the variable. */
  lemma NodeHashIs(levels: seq<LevelData>, v: nat, l: nat, h: nat, p: nat)
    requires v < |levels| && levels[v].size > 0 && 2 * p == (l + h) * (l + h + 1) + 2 * l && (l + h) * (l + h + 1) < 0x1_0000_0000
    ensures NodeHash(levels, v, l, h) == levels[v].start + p % levels[v].size
  {
    SmallPair(l, h);
  }

  ghost predicate Geometry(levels: seq<LevelData>, n: nat) {
    && (forall v :: 0 <= v < |levels| ==> levels[v].size > 0 && levels[v].start + levels[v].size <= n)
    && (forall v, w :: 0 <= v < w < |levels| ==>
          levels[v].start + levels[v].size <= levels[w].start || levels[w].start + levels[w].size <= levels[v].start)
  }

  function Home(nodes: seq<BddNode>, levels: seq<LevelData>, i: int): Owner
    requires 0 <= i < |nodes| && nodes[i].level < |levels| && levels[nodes[i].level].size > 0
  {
    Bucket(NodeHash(levels, nodes[i].level, nodes[i].low, nodes[i].high))
  }

  /** Free entries are in the free list, the entries of `work` in the working list and
      all others in the bucket they hash to. */
  ghost predicate Placed(nodes: seq<BddNode>, L: Links, levels: seq<LevelData>, work: set<int>) {
    && |L.owner| == |nodes|
    && forall i :: 2 <= i < |nodes| ==>
         if nodes[i].low == -1 then L.owner[i] == Free && nodes[i].level <= |levels|
         else if i in work then L.owner[i] == Work
         else nodes[i].level < |levels| && levels[nodes[i].level].size > 0 && L.owner[i] == Home(nodes, levels, i)
  }

  ghost function InTable(nodes: seq<BddNode>, L: Links, v: nat): set<int>
    requires |L.owner| == |nodes|
  {
    set i | 2 <= i < |nodes| && L.owner[i].Bucket? && nodes[i].level == v
  }

  /** levels[v].nodenum is the number of nodes of v in the hash table. */
  ghost predicate Counted(nodes: seq<BddNode>, L: Links, levels: seq<LevelData>)
    requires |L.owner| == |nodes|
  {
    forall v :: 0 <= v < |levels| ==> levels[v].nodenum == |InTable(nodes, L, v)|
  }

  // ---- the exchange of v0 with the next variable v1 ---------------------------------

  /** The table before the exchange and the nodes that have to be restructured. */
  datatype Ctx = Ctx(n0: seq<BddNode>, lev: seq<nat>, v0: nat, v1: nat, U: set<int>)

  predicate DependsOn(n: seq<BddNode>, i: int, v: nat)
    requires 0 <= i < |n|
  {
    && 0 <= n[i].low < |n| && 0 <= n[i].high < |n|
    && (n[n[i].low].level == v || n[n[i].high].level == v)
  }

  ghost predicate CtxOk(c: Ctx) {
    && Ordered(c.n0, c.lev) && Reduced(c.n0) && Unique(c.n0)
    && c.v0 < |c.lev| - 1 && c.v1 < |c.lev| - 1
    && c.lev[c.v1] == c.lev[c.v0] + 1
    && forall i {:trigger i in c.U} :: i in c.U <==>
         Live(c.n0, i) && c.n0[i].level == c.v0 && DependsOn(c.n0, i, c.v1)
  }

  /** Identifiers below both variables. */
  ghost predicate Under(c: Ctx, i: int) {
    Ref(c.n0, i) && c.n0[i].level < |c.lev| && c.v1 < |c.lev| && c.lev[c.n0[i].level] > c.lev[c.v1]
  }

  ghost predicate OldLower(c: Ctx, i: int) { Live(c.n0, i) && c.n0[i].level == c.v1 }

  /** The cofactors of an identifier with respect to v1. */
  ghost function Cof(c: Ctx, f: int, b: bool): int
    requires 0 <= f < |c.n0|
  {
    if c.n0[f].level == c.v1 then (if b then c.n0[f].high else c.n0[f].low) else f
  }

  /** a and b are the cofactors of the two children of a node that has to be restructured. */
  ghost predicate Fits(c: Ctx, a: int, b: int) {
    exists p, d: bool {:trigger p in c.U, Cof(c, c.n0[p].low, d)} ::
      && p in c.U && Live(c.n0, p) && 0 <= c.n0[p].low < |c.n0| && 0 <= c.n0[p].high < |c.n0|
      && a == Cof(c, c.n0[p].low, d) && b == Cof(c, c.n0[p].high, d)
  }

  /** g stands for the node "if v0 then b else a". */
  ghost predicate Mk(c: Ctx, nodes: seq<BddNode>, g: int, a: int, b: int) {
    if a == b then g == a
    else Live(nodes, g) && g !in c.U && nodes[g].level == c.v0 && nodes[g].low == a && nodes[g].high == b
  }

  ghost predicate Restructured(c: Ctx, nodes: seq<BddNode>, i: int)
    requires Live(c.n0, i)
  {
    var f0, f1 := c.n0[i].low, c.n0[i].high;
    && Live(nodes, i) && nodes[i].level == c.v1
    && 0 <= f0 < |c.n0| && 0 <= f1 < |c.n0|
    && Mk(c, nodes, nodes[i].low, Cof(c, f0, false), Cof(c, f1, false))
    && Mk(c, nodes, nodes[i].high, Cof(c, f0, true), Cof(c, f1, true))
  }

  /** The shape of the table during the exchange, with the nodes of `done` restructured. */
  ghost predicate Mid(c: Ctx, nodes: seq<BddNode>, done: set<int>) {
    && 2 <= |c.n0| <= |nodes|
    && SameTriple(nodes[0], c.n0[0]) && SameTriple(nodes[1], c.n0[1])
    && done <= c.U
    && (forall i {:trigger Live(c.n0, i)} :: Live(c.n0, i) && i !in done ==>
          if Live(nodes, i) then SameTriple(nodes[i], c.n0[i]) else c.n0[i].level == c.v1)
    && (forall i {:trigger i in done} :: i in done ==> Live(c.n0, i) && Restructured(c, nodes, i))
    && (forall i {:trigger Live(nodes, i)} :: Live(nodes, i) && !Live(c.n0, i) ==>
          nodes[i].level == c.v0 && nodes[i].low != nodes[i].high && Under(c, nodes[i].low) && Under(c, nodes[i].high)
          && Fits(c, nodes[i].low, nodes[i].high))
    && (forall i, j {:trigger Live(nodes, i), Live(nodes, j)} ::
          Live(nodes, i) && Live(nodes, j) && i !in c.U && j !in c.U && nodes[i].level == c.v0 && SameTriple(nodes[i], nodes[j])
          ==> i == j)
  }

  ghost predicate NoneFreed(c: Ctx, nodes: seq<BddNode>) {
    forall i {:trigger Live(nodes, i)} :: Live(c.n0, i) ==> Live(nodes, i)
  }

  /** No allocated node points to a free entry. */
  ghost predicate Closed(nodes: seq<BddNode>) {
    forall i {:trigger Live(nodes, i)} :: Live(nodes, i) ==> Ref(nodes, nodes[i].low) && Ref(nodes, nodes[i].high)
  }

  /** x is held by an external reference or by a node that is itself referenced, or its
      count is stuck. */
  ghost predicate Held(nodes: seq<BddNode>, ext: seq<nat>, x: int)
    requires 0 <= x < |ext| == |nodes|
  {
    nodes[x].refcount == MAXREF || ext[x] > 0 || exists s {:trigger Live(nodes, s)} :: Live(nodes, s) && nodes[s].refcount > 0 && Edges(nodes[s], x) > 0
  }

  ghost predicate AllHeld(c: Ctx, nodes: seq<BddNode>, ext: seq<nat>)
    requires |ext| == |nodes|
  {
    forall x {:trigger Held(nodes, ext, x)} :: Live(nodes, x) && !OldLower(c, x) ==> Held(nodes, ext, x)
  }

  lemma HeldIsCounted(nodes: seq<BddNode>, ext: seq<nat>, x: int)
    requires Conserved(nodes, ext) && Live(nodes, x) && Held(nodes, ext, x)
    ensures nodes[x].refcount > 0
  {
    assert CountOk(nodes, ext, x) by { var d := InDegree(nodes, x); }
    if ext[x] == 0 && nodes[x].refcount != MAXREF {
      var s :| Live(nodes, s) && nodes[s].refcount > 0 && Edges(nodes[s], x) > 0;
      EdgeCounts(nodes, s, x);
    }
  }

  lemma {:induction false} NoParents(nodes: seq<BddNode>, m: int)
    requires forall i :: 0 <= i < |nodes| ==> Edges(nodes[i], m) == 0
    ensures InDegree(nodes, m) == 0
  {
    if nodes != [] { NoParents(nodes[..|nodes|-1], m); }
  }

  lemma MidClosed(c: Ctx, nodes: seq<BddNode>, done: set<int>)
    requires CtxOk(c) && Mid(c, nodes, done) && NoneFreed(c, nodes)
    ensures Closed(nodes)
  {
    forall i | Live(nodes, i) ensures Ref(nodes, nodes[i].low) && Ref(nodes, nodes[i].high) {
      if Live(c.n0, i) {
        assert NodeOk(c.n0, c.lev, i);
        var f0, f1 := c.n0[i].low, c.n0[i].high;
        assert f0 >= 2 ==> NodeOk(c.n0, c.lev, f0);
        assert f1 >= 2 ==> NodeOk(c.n0, c.lev, f1);
        assert i in done ==> Restructured(c, nodes, i);
      }
    }
  }

  /** The children of a node of U are v1 nodes or lie under both variables, and so do
      their cofactors. */
  lemma CofactorsUnder(c: Ctx, i: int, b: bool)
    requires CtxOk(c) && Live(c.n0, i) && c.n0[i].level == c.v0
    ensures Ref(c.n0, c.n0[i].low) && Ref(c.n0, c.n0[i].high)
    ensures Under(c, Cof(c, c.n0[i].low, b)) && Under(c, Cof(c, c.n0[i].high, b))
    ensures c.n0[i].low < 2 || c.n0[c.n0[i].low].level != c.v0
    ensures c.n0[i].high < 2 || c.n0[c.n0[i].high].level != c.v0
  {
    assert NodeOk(c.n0, c.lev, i);
    var f0, f1 := c.n0[i].low, c.n0[i].high;
    assert f0 >= 2 ==> NodeOk(c.n0, c.lev, f0);
    assert f1 >= 2 ==> NodeOk(c.n0, c.lev, f1);
  }

  lemma RestructureKeepsMid(c: Ctx, nodes: seq<BddNode>, nodes': seq<BddNode>, done: set<int>, p: int)
    requires CtxOk(c) && Mid(c, nodes, done) && NoneFreed(c, nodes)
    requires p in c.U && p !in done
    requires |nodes'| == |nodes| && forall i :: 0 <= i < |nodes| && i != p ==> SameTriple(nodes'[i], nodes[i])
    requires Live(c.n0, p) && Restructured(c, nodes', p)
    ensures Mid(c, nodes', done + {p}) && NoneFreed(c, nodes')
  {
    forall i | Live(c.n0, i) ensures Live(nodes', i) {
      assert Live(nodes, i);
    }
    forall i | i in done + {p} ensures Live(c.n0, i) && Restructured(c, nodes', i) {
      if i != p {
        assert Restructured(c, nodes, i);
      }
    }
    forall i | Live(nodes', i) && !Live(c.n0, i)
      ensures nodes'[i].level == c.v0 && nodes'[i].low != nodes'[i].high && Under(c, nodes'[i].low) && Under(c, nodes'[i].high)
      ensures Fits(c, nodes'[i].low, nodes'[i].high)
    {
      assert Live(nodes, i);
    }
    forall i, j | Live(nodes', i) && Live(nodes', j) && i !in c.U && j !in c.U && nodes'[i].level == c.v0 && SameTriple(nodes'[i], nodes'[j])
      ensures i == j
    {
      assert Live(nodes, i) && Live(nodes, j);
    }
  }

  /** No v0 node in the table has these children. */
  ghost predicate AbsentV0(c: Ctx, nodes: seq<BddNode>, low: int, high: int) {
    forall i :: Live(nodes, i) && i !in c.U && nodes[i].level == c.v0 ==> nodes[i].low != low || nodes[i].high != high
  }

  /** A fresh v0 node over identifiers under both variables. */
  lemma AllocKeepsMid(c: Ctx, nodes: seq<BddNode>, nodes': seq<BddNode>, done: set<int>, r: int)
    requires CtxOk(c) && Mid(c, nodes, done) && NoneFreed(c, nodes)
    requires |nodes'| == |nodes| && forall i :: 0 <= i < |nodes| && i != r ==> SameTriple(nodes'[i], nodes[i])
    requires 2 <= r < |nodes| && nodes[r].low == -1
    requires nodes'[r].level == c.v0 && nodes'[r].low != nodes'[r].high && Under(c, nodes'[r].low) && Under(c, nodes'[r].high)
    requires AbsentV0(c, nodes, nodes'[r].low, nodes'[r].high) && Fits(c, nodes'[r].low, nodes'[r].high)
    ensures Mid(c, nodes', done) && NoneFreed(c, nodes')
  {
    assert !Live(c.n0, r) by { assert !Live(nodes, r); }
    forall i | Live(c.n0, i) ensures Live(nodes', i) {
      assert Live(nodes, i);
    }
    forall i | i in done ensures Live(c.n0, i) && Restructured(c, nodes', i) {
      assert Restructured(c, nodes, i);
    }
    forall i | Live(nodes', i) && !Live(c.n0, i)
      ensures nodes'[i].level == c.v0 && nodes'[i].low != nodes'[i].high && Under(c, nodes'[i].low) && Under(c, nodes'[i].high)
      ensures Fits(c, nodes'[i].low, nodes'[i].high)
    {
      assert i != r ==> Live(nodes, i);
    }
    forall i, j | Live(nodes', i) && Live(nodes', j) && i !in c.U && j !in c.U && nodes'[i].level == c.v0 && SameTriple(nodes'[i], nodes'[j])
      ensures i == j
    {
      assert i != r ==> Live(nodes, i);
      assert j != r ==> Live(nodes, j);
    }
  }

  /** Growing the table, or changing counts and links, leaves its shape alone. */
  lemma SameTriplesKeepMid(c: Ctx, nodes: seq<BddNode>, nodes': seq<BddNode>, done: set<int>)
    requires Mid(c, nodes, done) && |nodes'| >= |nodes|
    requires forall i :: 0 <= i < |nodes| ==> SameTriple(nodes'[i], nodes[i])
    requires forall i :: |nodes| <= i < |nodes'| ==> nodes'[i].low == -1
    ensures Mid(c, nodes', done)
    ensures NoneFreed(c, nodes) ==> NoneFreed(c, nodes')
  {
    assert forall i :: Live(nodes', i) <==> Live(nodes, i);
    forall i | i in done ensures Live(c.n0, i) && Restructured(c, nodes', i) {
      assert Restructured(c, nodes, i);
    }
  }

  // ---- reference counts during the exchange -----------------------------------------

  /** One more reference held by the running operation; terminals are not counted. */
  ghost function Bump(ext: seq<nat>, g: int): seq<nat>
    requires 0 <= g < |ext|
  {
    if g < 2 then ext else ext[g := ext[g] + 1]
  }

  lemma IncRefConserved(nodes: seq<BddNode>, ext: seq<nat>, g: int)
    requires Conserved(nodes, ext) && Ref(nodes, g)
    ensures Conserved(IncRef(nodes, g), Bump(ext, g))
  {
    var nodes', ext' := IncRef(nodes, g), Bump(ext, g);
    forall m | Live(nodes', m) ensures CountOk(nodes', ext', m) {
      InDegreeSame(nodes, nodes', m);
      assert CountOk(nodes, ext, m);
    }
  }

  lemma IncRefHeld(c: Ctx, nodes: seq<BddNode>, ext: seq<nat>, g: int)
    requires Conserved(nodes, ext) && Ref(nodes, g) && AllHeld(c, nodes, ext)
    ensures AllHeld(c, IncRef(nodes, g), Bump(ext, g))
  {
    var nodes', ext' := IncRef(nodes, g), Bump(ext, g);
    forall x | Live(nodes', x) && !OldLower(c, x) ensures Held(nodes', ext', x) {
      assert Held(nodes, ext, x);
      if ext'[x] == 0 && nodes[x].refcount != MAXREF {
        var s :| Live(nodes, s) && nodes[s].refcount > 0 && Edges(nodes[s], x) > 0;
        assert Live(nodes', s) && nodes'[s].refcount > 0;
      }
    }
  }

  /** The in-place update of p: its old children lose a reference, and the references
      held on g0 and g1 become the references of p. */
  ghost predicate Relinked(nodes: seq<BddNode>, nodes': seq<BddNode>, p: int, v1: nat, g0: int, g1: int)
    requires 0 <= p < |nodes|
  {
    && |nodes'| == |nodes|
    && (nodes'[p].level == v1 && nodes'[p].low == g0 && nodes'[p].high == g1)
    && (forall i :: 0 <= i < |nodes| && i != p ==> SameTriple(nodes'[i], nodes[i]))
    && (forall i :: 0 <= i < |nodes| ==>
          nodes'[i].refcount ==
          if i == nodes[p].low || i == nodes[p].high then Decreased(nodes[i].refcount) else nodes[i].refcount)
  }

  lemma RelinkedCount(nodes: seq<BddNode>, nodes': seq<BddNode>, ext: seq<nat>, p: int, v1: nat, g0: int, g1: int, m: int)
    requires 2 <= |nodes| == |ext| && Live(nodes, p) && nodes[p].low != nodes[p].high
    requires 0 <= g0 < |nodes| && 0 <= g1 < |nodes|
    requires Relinked(nodes, nodes', p, v1, g0, g1)
    requires 2 <= m < |nodes| && CountOk(nodes, Bump(Bump(ext, g0), g1), m)
    ensures CountOk(nodes', ext, m)
  {
    var plain := nodes[p := nodes'[p]];
    InDegreeUpdate(nodes, p, nodes'[p], m);
    InDegreeSame(plain, nodes', m);
    EdgeCounts(nodes, p, m);
  }

  lemma RelinkedConserved(nodes: seq<BddNode>, nodes': seq<BddNode>, ext: seq<nat>, p: int, v1: nat, g0: int, g1: int)
    requires 2 <= |nodes| == |ext| && Live(nodes, p) && nodes[p].low != nodes[p].high
    requires Ref(nodes, g0) && Ref(nodes, g1)
    requires Relinked(nodes, nodes', p, v1, g0, g1)
    requires Conserved(nodes, Bump(Bump(ext, g0), g1))
    ensures Conserved(nodes', ext)
  {
    forall m | Live(nodes', m) ensures CountOk(nodes', ext, m) {
      var d := InDegree(nodes, m);
      RelinkedCount(nodes, nodes', ext, p, v1, g0, g1, m);
    }
  }

  lemma ParentCounts(nodes: seq<BddNode>, ext: seq<nat>, s: int, x: int)
    requires Conserved(nodes, ext) && Live(nodes, x) && Live(nodes, s) && Edges(nodes[s], x) > 0
    ensures nodes[x].refcount > 0
  {
    EdgeCounts(nodes, s, x);
    assert CountOk(nodes, ext, x) by { var d := InDegree(nodes, x); }
  }

  /** The situation right after the update of p. */
  ghost predicate Step(c: Ctx, nodes: seq<BddNode>, nodes': seq<BddNode>, ext: seq<nat>, p: int, g0: int, g1: int) {
    && CtxOk(c) && p in c.U && Live(c.n0, p) && Live(nodes, p) && SameTriple(nodes[p], c.n0[p])
    && |nodes| == |ext| && Ref(nodes, g0) && Ref(nodes, g1)
    && Relinked(nodes, nodes', p, c.v1, g0, g1)
    && Conserved(nodes', ext) && Restructured(c, nodes', p)
    && AllHeld(c, nodes, Bump(Bump(ext, g0), g1))
  }

  /** p itself stays referenced. */
  lemma StepKeepsSelf(c: Ctx, nodes: seq<BddNode>, nodes': seq<BddNode>, ext: seq<nat>, p: int, g0: int, g1: int)
    requires Step(c, nodes, nodes', ext, p, g0, g1)
    ensures nodes'[p].refcount > 0
  {
    CofactorsUnder(c, p, false);
    CofactorsUnder(c, p, true);
    var ext2 := Bump(Bump(ext, g0), g1);
    assert Held(nodes, ext2, p) by { assert Live(nodes, p) && !OldLower(c, p); }
    assert p != g0 && p != g1;
    if ext[p] > 0 || nodes[p].refcount == MAXREF {
      assert CountOk(nodes', ext, p) by { var d := InDegree(nodes', p); }
    } else {
      var s :| Live(nodes, s) && nodes[s].refcount > 0 && Edges(nodes[s], p) > 0;
      assert Live(nodes', s);
      ParentCounts(nodes', ext, s, p);
    }
  }

  /** The grandchildren of p hang on its new children or on p itself. */
  lemma StepHoldsCofactors(c: Ctx, nodes: seq<BddNode>, nodes': seq<BddNode>, ext: seq<nat>, p: int, g0: int, g1: int, x: int)
    requires Step(c, nodes, nodes', ext, p, g0, g1) && Live(nodes', x)
    requires 0 <= c.n0[p].low < |c.n0| && 0 <= c.n0[p].high < |c.n0|
    requires exists b :: x == Cof(c, c.n0[p].low, b) || x == Cof(c, c.n0[p].high, b)
    ensures Held(nodes', ext, x)
  {
    StepKeepsSelf(c, nodes, nodes', ext, p, g0, g1);
    var b :| x == Cof(c, c.n0[p].low, b) || x == Cof(c, c.n0[p].high, b);
    var g := if b then g1 else g0;
    assert Live(nodes', p);
    if g == x {
      assert Edges(nodes'[p], x) > 0;
    } else {
      assert Live(nodes', g) && Edges(nodes'[g], x) > 0;
      ParentCounts(nodes', ext, p, g);
    }
  }

  lemma StepHolds(c: Ctx, nodes: seq<BddNode>, nodes': seq<BddNode>, ext: seq<nat>, done: set<int>, p: int, g0: int, g1: int)
    requires Step(c, nodes, nodes', ext, p, g0, g1)
    requires Mid(c, nodes, done) && p !in done
    ensures AllHeld(c, nodes', ext)
  {
    forall x | Live(nodes', x) && !OldLower(c, x) ensures Held(nodes', ext, x) {
      if x == g0 || x == g1 {
        StepKeepsSelf(c, nodes, nodes', ext, p, g0, g1);
        assert Live(nodes', p) && Edges(nodes'[p], x) > 0;
      } else if exists b :: x == Cof(c, c.n0[p].low, b) || x == Cof(c, c.n0[p].high, b) {
        StepHoldsCofactors(c, nodes, nodes', ext, p, g0, g1, x);
      } else {
        StepHoldsOther(c, nodes, nodes', ext, done, p, g0, g1, x);
      }
    }
  }

  /** Any other node keeps its holder, unless that was an old child of p that has become
      unreferenced; such a child is not a node of v1, for x would be one of its cofactors. */
  lemma StepHoldsOther(c: Ctx, nodes: seq<BddNode>, nodes': seq<BddNode>, ext: seq<nat>, done: set<int>, p: int, g0: int, g1: int, x: int)
    requires Step(c, nodes, nodes', ext, p, g0, g1)
    requires Mid(c, nodes, done) && p !in done
    requires Live(nodes', x) && !OldLower(c, x) && x != g0 && x != g1
    requires !exists b :: x == Cof(c, c.n0[p].low, b) || x == Cof(c, c.n0[p].high, b)
    ensures Held(nodes', ext, x)
  {
    hide Unique, Reduced, Ordered, Fits, Mk, Conserved, CountOk;
    CofactorsUnder(c, p, false);
    CofactorsUnder(c, p, true);
    var f0, f1 := nodes[p].low, nodes[p].high;
    assert x != Cof(c, f0, false) && x != Cof(c, f1, false) && x != Cof(c, f0, true) && x != Cof(c, f1, true);
    assert Held(nodes, Bump(Bump(ext, g0), g1), x) by { assert Live(nodes, x); }
    if ext[x] == 0 && nodes[x].refcount != MAXREF {
      var s :| Live(nodes, s) && nodes[s].refcount > 0 && Edges(nodes[s], x) > 0;
      assert s != p && Live(nodes', s) && Edges(nodes'[s], x) > 0;
      if nodes'[s].refcount == 0 {
        assert s == f0 || s == f1;
        assert Live(c.n0, s) && s !in c.U;
        assert SameTriple(nodes[s], c.n0[s]);
        assert c.n0[s].level != c.v1;
        assert s == Cof(c, s, false);
        StepHoldsCofactors(c, nodes, nodes', ext, p, g0, g1, s);
        HeldIsCounted(nodes', ext, s);
      }
    }
  }

  // ---- the table after the exchange -------------------------------------------------

  function Swapped(lev: seq<nat>, v0: nat, v1: nat): seq<nat>
    requires v0 < |lev| && v1 < |lev|
  {
    lev[v0 := lev[v1]][v1 := lev[v0]]
  }

  /** Where an old identifier stands in the new order. */
  lemma NewPosition(c: Ctx, nodes: seq<BddNode>, x: int)
    requires CtxOk(c) && Mid(c, nodes, c.U) && Ref(c.n0, x) && Ref(nodes, x)
    ensures nodes[x].level < |c.lev| && c.n0[x].level < |c.lev|
    ensures Swapped(c.lev, c.v0, c.v1)[nodes[x].level] ==
            if x in c.U || c.n0[x].level == c.v1 then c.lev[c.v0]
            else if c.n0[x].level == c.v0 then c.lev[c.v1]
            else c.lev[c.n0[x].level]
  {
    if x in c.U {
      assert Restructured(c, nodes, x);
    } else if Live(c.n0, x) {
      assert NodeOk(c.n0, c.lev, x);
    }
  }

  lemma AfterEdge(c: Ctx, nodes: seq<BddNode>, i: int, f: int)
    requires CtxOk(c) && Mid(c, nodes, c.U) && Live(c.n0, i) && i !in c.U && Live(nodes, i)
    requires f == c.n0[i].low || f == c.n0[i].high
    requires Ref(nodes, f)
    ensures EdgeOk(nodes, Swapped(c.lev, c.v0, c.v1), i, f)
  {
    assert NodeOk(c.n0, c.lev, i);
    NewPosition(c, nodes, i);
    NewPosition(c, nodes, f);
    assert c.n0[i].level == c.v0 ==> !DependsOn(c.n0, i, c.v1);
    assert f >= 2 ==> NodeOk(c.n0, c.lev, f);
  }

  /** A made child lies below v1 in the new order. */
  lemma AfterMk(c: Ctx, nodes: seq<BddNode>, g: int, a: int, b: int)
    requires CtxOk(c) && Mid(c, nodes, c.U) && Mk(c, nodes, g, a, b) && Under(c, a) && Ref(nodes, g)
    ensures nodes[g].level < |c.lev| && Swapped(c.lev, c.v0, c.v1)[nodes[g].level] > c.lev[c.v0]
  {
    if a == b { NewPosition(c, nodes, g); }
  }

  lemma AfterOrderedAt(c: Ctx, nodes: seq<BddNode>, i: int)
    requires CtxOk(c) && Mid(c, nodes, c.U) && Closed(nodes) && Live(nodes, i)
    ensures NodeOk(nodes, Swapped(c.lev, c.v0, c.v1), i)
    ensures nodes[i].low != nodes[i].high
  {
    if i in c.U {
      assert Restructured(c, nodes, i);
      CofactorsUnder(c, i, false);
      CofactorsUnder(c, i, true);
      var f0, f1 := c.n0[i].low, c.n0[i].high;
      AfterMk(c, nodes, nodes[i].low, Cof(c, f0, false), Cof(c, f1, false));
      AfterMk(c, nodes, nodes[i].high, Cof(c, f0, true), Cof(c, f1, true));
      if nodes[i].low == nodes[i].high {
        MkDetermines(c, nodes, nodes[i].low, Cof(c, f0, false), Cof(c, f1, false), Cof(c, f0, true), Cof(c, f1, true));
        assert false;
      }
    } else if Live(c.n0, i) {
      assert NodeOk(c.n0, c.lev, i);
      AfterEdge(c, nodes, i, c.n0[i].low);
      AfterEdge(c, nodes, i, c.n0[i].high);
    } else {
      NewPosition(c, nodes, nodes[i].low);
      NewPosition(c, nodes, nodes[i].high);
    }
  }

  lemma AfterOrdered(c: Ctx, nodes: seq<BddNode>)
    requires CtxOk(c) && Mid(c, nodes, c.U) && Closed(nodes)
    ensures Ordered(nodes, Swapped(c.lev, c.v0, c.v1)) && Reduced(nodes)
  {
    forall i | Live(nodes, i) ensures NodeOk(nodes, Swapped(c.lev, c.v0, c.v1), i) && nodes[i].low != nodes[i].high {
      AfterOrderedAt(c, nodes, i);
    }
  }

  /** The cofactors determine a child of a node of U. */
  lemma CofactorsDetermine(c: Ctx, f: int, g: int)
    requires CtxOk(c) && Ref(c.n0, f) && Ref(c.n0, g)
    requires Cof(c, f, false) == Cof(c, g, false) && Cof(c, f, true) == Cof(c, g, true)
    ensures f == g
  {
    assert f >= 2 ==> Live(c.n0, f);
    assert g >= 2 ==> Live(c.n0, g);
    if c.n0[f].level == c.v1 { assert NodeOk(c.n0, c.lev, f); }
    if c.n0[g].level == c.v1 { assert NodeOk(c.n0, c.lev, g); }
  }

  /** One made child determines the two cofactors it was made from. */
  lemma MkDetermines(c: Ctx, nodes: seq<BddNode>, g: int, a: int, b: int, a': int, b': int)
    requires CtxOk(c) && Mid(c, nodes, c.U)
    requires Mk(c, nodes, g, a, b) && Mk(c, nodes, g, a', b')
    requires Under(c, a) && Under(c, a')
    ensures a == a' && b == b'
  {
    assert Live(c.n0, a) ==> SameTriple(nodes[a], c.n0[a]);
    assert Live(c.n0, a') ==> SameTriple(nodes[a'], c.n0[a']);
  }

  lemma AfterUnique(c: Ctx, nodes: seq<BddNode>)
    requires CtxOk(c) && Mid(c, nodes, c.U) && Closed(nodes)
    ensures Unique(nodes)
  {
    forall i, j | Live(nodes, i) && Live(nodes, j) && SameTriple(nodes[i], nodes[j]) ensures i == j {
      if i in c.U && j in c.U {
        assert Restructured(c, nodes, i) && Restructured(c, nodes, j);
        CofactorsUnder(c, i, false); CofactorsUnder(c, j, false);
        CofactorsUnder(c, i, true); CofactorsUnder(c, j, true);
        var f0, f1, h0, h1 := c.n0[i].low, c.n0[i].high, c.n0[j].low, c.n0[j].high;
        MkDetermines(c, nodes, nodes[i].low, Cof(c, f0, false), Cof(c, f1, false), Cof(c, h0, false), Cof(c, h1, false));
        MkDetermines(c, nodes, nodes[i].high, Cof(c, f0, true), Cof(c, f1, true), Cof(c, h0, true), Cof(c, h1, true));
        CofactorsDetermine(c, f0, h0);
        CofactorsDetermine(c, f1, h1);
      } else if i in c.U {
        RestructuredDiffers(c, nodes, i, j);
      } else if j in c.U {
        RestructuredDiffers(c, nodes, j, i);
      }
    }
  }

  lemma RestructuredDiffers(c: Ctx, nodes: seq<BddNode>, i: int, j: int)
    requires CtxOk(c) && Mid(c, nodes, c.U) && Closed(nodes)
    requires Live(nodes, i) && Live(nodes, j) && i in c.U && j !in c.U
    ensures !SameTriple(nodes[i], nodes[j])
  {
    assert Restructured(c, nodes, i);
    if SameTriple(nodes[i], nodes[j]) {
      assert Live(c.n0, j) && c.n0[j].level == c.v1;
      assert NodeOk(c.n0, c.lev, j);
      CofactorsUnder(c, i, false); CofactorsUnder(c, i, true);
      var f0, f1 := c.n0[i].low, c.n0[i].high;
      assert Live(c.n0, i);
      // both made children lie under v0, so both pairs of cofactors coincide
      assert Under(c, nodes[j].low) && Under(c, nodes[j].high);
      assert Ref(c.n0, nodes[j].low) && Ref(c.n0, nodes[j].high);
      assert Live(c.n0, nodes[j].low) ==> nodes[j].low !in c.U;
      assert Live(c.n0, nodes[j].high) ==> nodes[j].high !in c.U;
      assert Cof(c, f0, false) == Cof(c, f1, false);
      assert Cof(c, f0, true) == Cof(c, f1, true);
      CofactorsDetermine(c, f0, f1);
    }
  }

  // ---- meaning and support are kept -------------------------------------------------

  ghost function KeptDen(c: Ctx, nodes: seq<BddNode>, den0: seq<Fn>): seq<Fn>
    requires |den0| == |c.n0| >= 2
  {
    seq(|nodes|, i requires 0 <= i < |nodes| =>
      if Ref(c.n0, i) then den0[i]
      else if Live(nodes, i) && 0 <= nodes[i].low < |c.n0| && 0 <= nodes[i].high < |c.n0| then
        iset env: Env | if c.v0 in env then env in den0[nodes[i].high] else env in den0[nodes[i].low]
      else iset{})
  }

  lemma KeptDenotesAt(c: Ctx, nodes: seq<BddNode>, den0: seq<Fn>, i: int)
    requires CtxOk(c) && Mid(c, nodes, c.U) && Closed(nodes) && Denotes(c.n0, den0)
    requires i in c.U
    ensures Live(nodes, i) && DenAt(nodes, KeptDen(c, nodes, den0), i)
  {
    assert Restructured(c, nodes, i);
    CofactorsUnder(c, i, false); CofactorsUnder(c, i, true);
    assert DenAt(c.n0, den0, i);
    var f0, f1 := c.n0[i].low, c.n0[i].high;
    assert f0 >= 2 ==> DenAt(c.n0, den0, f0);
    assert f1 >= 2 ==> DenAt(c.n0, den0, f1);
    KeptDenMk(c, nodes, den0, nodes[i].low, Cof(c, f0, false), Cof(c, f1, false));
    KeptDenMk(c, nodes, den0, nodes[i].high, Cof(c, f0, true), Cof(c, f1, true));
  }

  lemma KeptDenotes(c: Ctx, nodes: seq<BddNode>, den0: seq<Fn>)
    requires CtxOk(c) && Mid(c, nodes, c.U) && Closed(nodes) && Denotes(c.n0, den0)
    ensures Denotes(nodes, KeptDen(c, nodes, den0))
  {
    var den := KeptDen(c, nodes, den0);
    forall i | Live(nodes, i) ensures DenAt(nodes, den, i) {
      if i in c.U {
        KeptDenotesAt(c, nodes, den0, i);
      } else if Live(c.n0, i) {
        assert DenAt(c.n0, den0, i);
        assert NodeOk(c.n0, c.lev, i);
      }
    }
  }

  lemma KeptDenMk(c: Ctx, nodes: seq<BddNode>, den0: seq<Fn>, g: int, a: int, b: int)
    requires CtxOk(c) && Mid(c, nodes, c.U) && Closed(nodes) && Denotes(c.n0, den0)
    requires Mk(c, nodes, g, a, b) && Under(c, a) && Under(c, b)
    ensures 0 <= g < |nodes|
    ensures forall env :: env in KeptDen(c, nodes, den0)[g] <==> if c.v0 in env then env in den0[b] else env in den0[a]
  {
    if a != b && Live(c.n0, g) {
      assert SameTriple(nodes[g], c.n0[g]);
      assert DenAt(c.n0, den0, g);
    }
  }

  /** The exchange keeps the function of every node that survives it. */
  lemma AfterSameEval(c: Ctx, nodes: seq<BddNode>, i: int, env: Env)
    requires CtxOk(c) && Mid(c, nodes, c.U) && Closed(nodes)
    requires Ref(c.n0, i) && Ref(nodes, i)
    ensures Ordered(nodes, Swapped(c.lev, c.v0, c.v1))
    ensures Eval(nodes, Swapped(c.lev, c.v0, c.v1), i, env) == Eval(c.n0, c.lev, i, env)
  {
    AfterOrdered(c, nodes);
    var den0 := EvalDen(c.n0, c.lev);
    EvalDenotes(c.n0, c.lev);
    KeptDenotes(c, nodes, den0);
    DenIsEval(c.n0, c.lev, den0, i, env);
    DenIsEval(nodes, Swapped(c.lev, c.v0, c.v1), KeptDen(c, nodes, den0), i, env);
  }

  ghost function KeptSup(c: Ctx, nodes: seq<BddNode>, sup0: seq<set<nat>>): seq<set<nat>>
    requires |sup0| == |c.n0| >= 2
  {
    seq(|nodes|, i requires 0 <= i < |nodes| =>
      if Ref(c.n0, i) then sup0[i]
      else if Live(nodes, i) && 0 <= nodes[i].low < |c.n0| && 0 <= nodes[i].high < |c.n0| then
        {c.v0} + sup0[nodes[i].high] + sup0[nodes[i].low]
      else {})
  }

  lemma KeptSupMk(c: Ctx, nodes: seq<BddNode>, sup0: seq<set<nat>>, g: int, a: int, b: int)
    requires CtxOk(c) && Mid(c, nodes, c.U) && Closed(nodes) && Supports(c.n0, sup0)
    requires Mk(c, nodes, g, a, b) && Under(c, a) && Under(c, b)
    ensures 0 <= g < |nodes|
    ensures KeptSup(c, nodes, sup0)[g] == (if a != b then {c.v0} else {}) + sup0[b] + sup0[a]
  {
    if a != b && Live(c.n0, g) {
      assert SameTriple(nodes[g], c.n0[g]);
      assert SupAt(c.n0, sup0, g);
    }
  }

  lemma KeptSupportsAt(c: Ctx, nodes: seq<BddNode>, sup0: seq<set<nat>>, i: int)
    requires CtxOk(c) && Mid(c, nodes, c.U) && Closed(nodes) && Supports(c.n0, sup0)
    requires i in c.U
    ensures Live(nodes, i) && SupAt(nodes, KeptSup(c, nodes, sup0), i)
  {
    var sup := KeptSup(c, nodes, sup0);
    assert Restructured(c, nodes, i);
    CofactorsUnder(c, i, false); CofactorsUnder(c, i, true);
    assert SupAt(c.n0, sup0, i);
    var f0, f1 := c.n0[i].low, c.n0[i].high;
    CofSup(c, sup0, f0);
    CofSup(c, sup0, f1);
    KeptSupMk(c, nodes, sup0, nodes[i].low, Cof(c, f0, false), Cof(c, f1, false));
    KeptSupMk(c, nodes, sup0, nodes[i].high, Cof(c, f0, true), Cof(c, f1, true));
    if Cof(c, f0, false) == Cof(c, f1, false) && Cof(c, f0, true) == Cof(c, f1, true) {
      CofactorsDetermine(c, f0, f1);
      assert false;
    }
    Regroup(c.v0, c.v1, c.n0[f0].level == c.v1, c.n0[f1].level == c.v1,
            Cof(c, f0, false) != Cof(c, f1, false), Cof(c, f0, true) != Cof(c, f1, true),
            sup0[Cof(c, f0, false)], sup0[Cof(c, f0, true)], sup0[Cof(c, f1, false)], sup0[Cof(c, f1, true)]);
  }

  lemma Regroup(v0: nat, v1: nat, e0: bool, e1: bool, d0: bool, d1: bool, a0: set<nat>, a1: set<nat>, b0: set<nat>, b1: set<nat>)
    requires (e0 || e1) && (d0 || d1)
    ensures {v0} + ((if e0 then {v1} else {}) + a0 + a1) + ((if e1 then {v1} else {}) + b0 + b1) ==
            {v1} + ((if d0 then {v0} else {}) + b0 + a0) + ((if d1 then {v0} else {}) + b1 + a1)
  {
  }

  lemma CofSup(c: Ctx, sup0: seq<set<nat>>, f: int)
    requires Supports(c.n0, sup0) && Ref(c.n0, f) && 0 <= Cof(c, f, false) < |c.n0| && 0 <= Cof(c, f, true) < |c.n0|
    requires c.n0[0].level != c.v1 && c.n0[1].level != c.v1
    ensures sup0[f] == (if c.n0[f].level == c.v1 then {c.v1} else {}) + sup0[Cof(c, f, false)] + sup0[Cof(c, f, true)]
  {
    if f >= 2 { assert SupAt(c.n0, sup0, f); }
  }

  lemma KeptSupports(c: Ctx, nodes: seq<BddNode>, sup0: seq<set<nat>>)
    requires CtxOk(c) && Mid(c, nodes, c.U) && Closed(nodes) && Supports(c.n0, sup0)
    ensures Supports(nodes, KeptSup(c, nodes, sup0))
  {
    var sup := KeptSup(c, nodes, sup0);
    forall i | Live(nodes, i) ensures SupAt(nodes, sup, i) {
      if i in c.U {
        KeptSupportsAt(c, nodes, sup0, i);
      } else if Live(c.n0, i) {
        assert SupAt(c.n0, sup0, i);
        assert NodeOk(c.n0, c.lev, i);
      }
    }
  }

  // ---- the interaction matrix -------------------------------------------------------

  ghost predicate CoversSet(s: set<nat>, iact: seq<seq<bool>>) {
    forall v, w :: v in s && w in s ==> v < |iact| && w < |iact[v]| && iact[v][w]
  }

  /** Any two variables below a common node are marked as interacting. */
  ghost predicate Covers(nodes: seq<BddNode>, lev: seq<nat>, iact: seq<seq<bool>>)
    requires Ordered(nodes, lev)
  {
    forall i {:trigger Support(nodes, lev, i)} :: Live(nodes, i) ==> CoversSet(Support(nodes, lev, i), iact)
  }

  lemma TerminalLevels(c: Ctx)
    requires CtxOk(c)
    ensures |c.n0| >= 2 && c.n0[0].level != c.v1 && c.n0[1].level != c.v1
  {
  }

  lemma NewSup(c: Ctx, nodes: seq<BddNode>, sup0: seq<set<nat>>, i: int) returns (p: int)
    requires CtxOk(c) && Mid(c, nodes, c.U) && Closed(nodes) && Supports(c.n0, sup0)
    requires Live(nodes, i) && !Live(c.n0, i)
    ensures Live(c.n0, p) && KeptSup(c, nodes, sup0)[i] <= sup0[p]
  {
    hide Ordered, Reduced, Unique, Closed, EdgeOk, NodeOk, Restructured, Mk;
    TerminalLevels(c);
    var a, b := nodes[i].low, nodes[i].high;
    assert Fits(c, a, b);
    var d: bool;
    p, d :| p in c.U && Live(c.n0, p) && 0 <= c.n0[p].low < |c.n0| && 0 <= c.n0[p].high < |c.n0|
            && a == Cof(c, c.n0[p].low, d) && b == Cof(c, c.n0[p].high, d);
    CofactorsUnder(c, p, false);
    CofactorsUnder(c, p, true);
    assert SupAt(c.n0, sup0, p);
    CofSup(c, sup0, c.n0[p].low);
    CofSup(c, sup0, c.n0[p].high);
  }

  /** Coverage is kept, for the nodes built during the exchange too. */
  lemma CoverKept(c: Ctx, nodes: seq<BddNode>, iact: seq<seq<bool>>)
    requires CtxOk(c) && Mid(c, nodes, c.U) && Closed(nodes) && Covers(c.n0, c.lev, iact)
    ensures Ordered(nodes, Swapped(c.lev, c.v0, c.v1)) && Covers(nodes, Swapped(c.lev, c.v0, c.v1), iact)
  {
    hide Mid, Closed, NodeOk, EdgeOk, Unique, Reduced, DependsOn, Supports, SupAt, SupportSeq, Swapped, IsOrder;
    AfterOrdered(c, nodes);
    var lev' := Swapped(c.lev, c.v0, c.v1);
    var sup0 := SupportSeq(c.n0, c.lev);
    SupportSupports(c.n0, c.lev);
    KeptSupports(c, nodes, sup0);
    var sup := KeptSup(c, nodes, sup0);
    forall i | Live(nodes, i) ensures CoversSet(Support(nodes, lev', i), iact) {
      SupIsSupport(nodes, lev', sup, i);
      var p := i;
      if !Live(c.n0, i) { p := NewSup(c, nodes, sup0, i); }
      SupIsSupport(c.n0, c.lev, sup0, p);
      assert CoversSet(Support(c.n0, c.lev, p), iact);
    }
  }

  lemma EdgeInSupport(nodes: seq<BddNode>, lev: seq<nat>, v1: nat, i: int)
    requires Ordered(nodes, lev) && v1 < |lev| - 1 && Live(nodes, i) && DependsOn(nodes, i, v1)
    ensures nodes[i].level in Support(nodes, lev, i) && v1 in Support(nodes, lev, i)
  {
    assert NodeOk(nodes, lev, i);
    var f := if nodes[nodes[i].low].level == v1 then nodes[i].low else nodes[i].high;
    assert Live(nodes, f);
    assert v1 in Support(nodes, lev, f);
  }

  /** Variables that are not marked as interacting have no edge between them. */
  lemma NotMarkedNoEdge(nodes: seq<BddNode>, lev: seq<nat>, iact: seq<seq<bool>>, v0: nat, v1: nat, i: int)
    requires Ordered(nodes, lev) && Covers(nodes, lev, iact) && v0 < |lev| - 1 && v1 < |lev| - 1
    requires !(v0 < |iact| && v1 < |iact[v0]| && iact[v0][v1])
    requires Live(nodes, i) && nodes[i].level == v0
    ensures !DependsOn(nodes, i, v1)
  {
    if DependsOn(nodes, i, v1) {
      EdgeInSupport(nodes, lev, v1, i);
      assert false;
    }
  }

  // ---- freeing a dead node of v1 ----------------------------------------------------

  /** d gives up its references to its children and becomes a free entry. */
  ghost predicate Freed(nodes: seq<BddNode>, nodes': seq<BddNode>, d: int)
    requires 0 <= d < |nodes|
  {
    && |nodes'| == |nodes|
    && nodes'[d].low == -1 && nodes'[d].level == nodes[d].level
    && (forall i :: 0 <= i < |nodes| && i != d ==> SameTriple(nodes'[i], nodes[i]))
    && (forall i :: 0 <= i < |nodes| ==>
          nodes'[i].refcount ==
          if i == nodes[d].low || i == nodes[d].high then Decreased(nodes[i].refcount) else nodes[i].refcount)
  }

  lemma FreedCount(nodes: seq<BddNode>, nodes': seq<BddNode>, ext: seq<nat>, d: int, m: int)
    requires 2 <= |nodes| == |ext| && Live(nodes, d) && nodes[d].low != nodes[d].high
    requires Freed(nodes, nodes', d)
    requires 2 <= m < |nodes| && CountOk(nodes, ext, m)
    ensures CountOk(nodes', ext, m)
  {
    InDegreeUpdate(nodes, d, nodes'[d], m);
    InDegreeSame(nodes[d := nodes'[d]], nodes', m);
    EdgeCounts(nodes, d, m);
  }

  lemma NoEdgeToDead(nodes: seq<BddNode>, ext: seq<nat>, d: int, s: int)
    requires Conserved(nodes, ext) && Live(nodes, d) && nodes[d].refcount == 0 && Live(nodes, s)
    ensures Edges(nodes[s], d) == 0 && ext[d] == 0
  {
    EdgeCounts(nodes, s, d);
    assert CountOk(nodes, ext, d) by { var k := InDegree(nodes, d); }
  }

  /** An unreferenced node of v1 is an old one, and its children lie under both variables. */
  lemma DeadIsOld(c: Ctx, nodes: seq<BddNode>, ext: seq<nat>, d: int)
    requires CtxOk(c) && Mid(c, nodes, c.U) && Conserved(nodes, ext) && AllHeld(c, nodes, ext)
    requires Live(nodes, d) && nodes[d].level == c.v1 && nodes[d].refcount == 0
    ensures OldLower(c, d) && Under(c, nodes[d].low) && Under(c, nodes[d].high) && nodes[d].low != nodes[d].high
    ensures !OldLower(c, nodes[d].low) && !OldLower(c, nodes[d].high)
    ensures nodes[nodes[d].low].level != c.v1 && nodes[nodes[d].high].level != c.v1
  {
    if !OldLower(c, d) {
      assert Held(nodes, ext, d);
      HeldIsCounted(nodes, ext, d);
      assert false;
    }
    assert SameTriple(nodes[d], c.n0[d]);
    assert NodeOk(c.n0, c.lev, d);
    var lo, hi := nodes[d].low, nodes[d].high;
    assert Live(c.n0, lo) ==> SameTriple(nodes[lo], c.n0[lo]);
    assert Live(c.n0, hi) ==> SameTriple(nodes[hi], c.n0[hi]);
  }

  lemma FreedConserved(nodes: seq<BddNode>, nodes': seq<BddNode>, ext: seq<nat>, d: int)
    requires Conserved(nodes, ext) && Closed(nodes) && Live(nodes, d) && nodes[d].refcount == 0
    requires nodes[d].low != nodes[d].high && nodes[d].low != d && nodes[d].high != d
    requires Freed(nodes, nodes', d)
    ensures Conserved(nodes', ext) && Closed(nodes')
  {
    forall i | Live(nodes', i) ensures Ref(nodes', nodes'[i].low) && Ref(nodes', nodes'[i].high) {
      assert Live(nodes, i);
      NoEdgeToDead(nodes, ext, d, i);
    }
    NoEdgeToDead(nodes, ext, d, d);
    forall m | Live(nodes', m) ensures CountOk(nodes', ext, m) {
      var k := InDegree(nodes, m);
      FreedCount(nodes, nodes', ext, d, m);
    }
    assert Ref(nodes, nodes[d].low) && Ref(nodes, nodes[d].high);
  }

  lemma FreedKeeps(c: Ctx, nodes: seq<BddNode>, nodes': seq<BddNode>, ext: seq<nat>, d: int)
    requires CtxOk(c) && Mid(c, nodes, c.U) && Closed(nodes) && Conserved(nodes, ext) && AllHeld(c, nodes, ext)
    requires Live(nodes, d) && nodes[d].level == c.v1 && nodes[d].refcount == 0
    requires Freed(nodes, nodes', d)
    ensures Mid(c, nodes', c.U) && Closed(nodes') && Conserved(nodes', ext) && AllHeld(c, nodes', ext)
  {
    DeadIsOld(c, nodes, ext, d);
    FreedMid(c, nodes, nodes', d);
    FreedConserved(nodes, nodes', ext, d);
    forall x | Live(nodes', x) && !OldLower(c, x) ensures Held(nodes', ext, x) {
      FreedHolds(c, nodes, nodes', ext, d, x);
    }
  }

  lemma FreedMid(c: Ctx, nodes: seq<BddNode>, nodes': seq<BddNode>, d: int)
    requires CtxOk(c) && Mid(c, nodes, c.U) && OldLower(c, d) && Live(nodes, d) && Freed(nodes, nodes', d)
    ensures Mid(c, nodes', c.U)
  {
    assert forall i :: Live(nodes', i) ==> Live(nodes, i);
    forall i | i in c.U ensures Live(c.n0, i) && Restructured(c, nodes', i) {
      assert Restructured(c, nodes, i);
      CofactorsUnder(c, i, false);
      CofactorsUnder(c, i, true);
    }
  }

  lemma FreedHolds(c: Ctx, nodes: seq<BddNode>, nodes': seq<BddNode>, ext: seq<nat>, d: int, x: int)
    requires |nodes| == |ext| && AllHeld(c, nodes, ext) && Conserved(nodes', ext)
    requires Live(nodes, d) && nodes[d].refcount == 0 && Freed(nodes, nodes', d)
    requires !OldLower(c, nodes[d].low) && !OldLower(c, nodes[d].high)
    requires Live(nodes', x) && !OldLower(c, x)
    ensures Held(nodes', ext, x)
  {
    assert Held(nodes, ext, x) by { assert Live(nodes, x); }
    if ext[x] == 0 && nodes[x].refcount != MAXREF {
      var s :| Live(nodes, s) && nodes[s].refcount > 0 && Edges(nodes[s], x) > 0;
      assert Live(nodes', s) && Edges(nodes'[s], x) > 0;
      if nodes'[s].refcount == 0 {
        assert Held(nodes, ext, s);
        if ext[s] == 0 && nodes[s].refcount != MAXREF {
          var t :| Live(nodes, t) && nodes[t].refcount > 0 && Edges(nodes[t], s) > 0;
          assert Live(nodes', t) && Edges(nodes'[t], s) > 0;
          ParentCounts(nodes', ext, t, s);
        } else {
          assert CountOk(nodes', ext, s) by { var k := InDegree(nodes', s); }
        }
      }
    }
  }
}
