/** The nodes an exchange of two variables has to find or make, and whether the free entries are
    enough for those it has to make. */
module Supply {
  import opened NodeTable
  import opened Diagram
  import opened RefCount
  import opened ReorderTheory
  import opened ReorderStep
  import opened ReorderSweep
  import opened ReorderSession
  import opened Saturation

  ghost predicate Splits(c: Ctx, p: int) {
    p in c.U && 0 <= p < |c.n0| && 0 <= c.n0[p].low < |c.n0| && 0 <= c.n0[p].high < |c.n0|
  }

  /** The children of the node that p gets for the value b of the lower variable. */
  ghost function Halves(c: Ctx, p: int, b: bool): (int, int)
    requires Splits(c, p)
  {
    (Cof(c, c.n0[p].low, b), Cof(c, c.n0[p].high, b))
  }

  /** The children of all nodes of the upper variable that the exchange needs. */
  ghost function Wanted(c: Ctx): set<(int, int)> {
    set p, b: bool | p in c.U && Splits(c, p) && Halves(c, p, b).0 != Halves(c, p, b).1 :: Halves(c, p, b)
  }

  /** There is a node of the upper variable with these children that stays one. */
  ghost predicate Exists(c: Ctx, nodes: seq<BddNode>, w: (int, int)) {
    exists g :: Mk(c, nodes, g, w.0, w.1)
  }

  ghost function Present(c: Ctx, nodes: seq<BddNode>): set<(int, int)> {
    set w | w in Wanted(c) && Exists(c, nodes, w)
  }

  /** The free entries are as many as the nodes still to be made. */
  ghost predicate Enough(c: Ctx, nodes: seq<BddNode>, free: int) {
    free + |Present(c, nodes)| >= |Wanted(c)|
  }

  /** Every entry taken has made one wanted node; entries are added only when the table grows. */
  ghost predicate Supplied(c: Ctx, n0: seq<BddNode>, f0: int, n1: seq<BddNode>, f1: int) {
    && |n0| <= |n1| && f0 + |Present(c, n0)| <= f1 + |Present(c, n1)|
    && (|n1| == |n0| ==> f0 + |Present(c, n0)| == f1 + |Present(c, n1)|)
  }

  lemma SuppliedThen(c: Ctx, n0: seq<BddNode>, f0: int, n1: seq<BddNode>, f1: int, n2: seq<BddNode>, f2: int)
    requires Supplied(c, n0, f0, n1, f1) && Supplied(c, n1, f1, n2, f2)
    ensures Supplied(c, n0, f0, n2, f2)
  {
  }

  lemma SuppliedEnough(c: Ctx, n0: seq<BddNode>, f0: int, n1: seq<BddNode>, f1: int)
    requires Supplied(c, n0, f0, n1, f1)
    ensures Enough(c, n0, f0) ==> Enough(c, n1, f1)
    ensures |n1| == |n0| && Enough(c, n1, f1) ==> Enough(c, n0, f0)
  {
  }

  /** The nodes outside the context are the same. */
  ghost predicate SameOutside(c: Ctx, n0: seq<BddNode>, n1: seq<BddNode>) {
    && |n0| <= |n1|
    && forall i {:trigger Live(n1, i)} {:trigger Live(n0, i)} :: i !in c.U ==> (Live(n1, i) <==> Live(n0, i)) && (Live(n0, i) ==> SameTriple(n1[i], n0[i]))
  }

  lemma SameSupply(c: Ctx, n0: seq<BddNode>, n1: seq<BddNode>, f0: int, f1: int)
    requires SameOutside(c, n0, n1) && f0 <= f1 && (|n1| == |n0| ==> f1 == f0)
    ensures Present(c, n1) == Present(c, n0) && Supplied(c, n0, f0, n1, f1)
  {
    hide Wanted;
    forall w | w in Wanted(c) ensures Exists(c, n1, w) <==> Exists(c, n0, w) {
      forall g ensures Mk(c, n1, g, w.0, w.1) <==> Mk(c, n0, g, w.0, w.1) {
        assert w.0 != w.1 ==> (Live(n1, g) <==> Live(n0, g)) || g in c.U;
      }
    }
  }

  lemma SuppliedSelf(c: Ctx, nodes: seq<BddNode>, f: int)
    ensures Supplied(c, nodes, f, nodes, f)
  {
  }

  lemma GrownOutside(c: Ctx, n0: seq<BddNode>, n1: seq<BddNode>)
    requires |n0| <= |n1| && n1[..|n0|] == n0 && forall i :: |n0| <= i < |n1| ==> n1[i].low == -1
    ensures SameOutside(c, n0, n1)
  {
    forall i | 0 <= i < |n0| ensures n1[i] == n0[i] {
      assert n1[..|n0|][i] == n0[i];
    }
  }

  lemma RelinkedOutside(c: Ctx, n0: seq<BddNode>, n1: seq<BddNode>, p: int, v1: nat, g0: int, g1: int)
    requires 0 <= p < |n0| && p in c.U && Relinked(n0, n1, p, v1, g0, g1)
    ensures SameOutside(c, n0, n1)
  {
  }

  lemma CoreOutside(c: Ctx, n0: seq<BddNode>, n1: seq<BddNode>)
    requires SameCore(n0, n1)
    ensures SameOutside(c, n0, n1)
  {
  }

  lemma EmptyFreeList(L: Links, freepos: nat, freenum: int)
    requires |L.owner| == |L.pos| && FreeOk(L, freepos, freenum)
    ensures freepos == 0 ==> freenum == 0
  {
  }

  lemma FitsWanted(c: Ctx, a: int, b: int)
    requires Fits(c, a, b) && a != b
    ensures (a, b) in Wanted(c)
  {
    var p, d: bool :| p in c.U && Live(c.n0, p) && 0 <= c.n0[p].low < |c.n0| && 0 <= c.n0[p].high < |c.n0|
      && a == Cof(c, c.n0[p].low, d) && b == Cof(c, c.n0[p].high, d);
    assert Splits(c, p) && Halves(c, p, d) == (a, b);
  }

  /** When a wanted node is missing and there is no free entry, they are not enough. */
  lemma NotEnough(c: Ctx, nodes: seq<BddNode>, a: int, b: int)
    requires Fits(c, a, b) && a != b && AbsentV0(c, nodes, a, b)
    ensures !Exists(c, nodes, (a, b)) && !Enough(c, nodes, 0)
  {
    hide Fits, Wanted;
    FitsWanted(c, a, b);
    assert (a, b) !in Present(c, nodes);
    SmallerSet(Present(c, nodes), Wanted(c), (a, b));
  }

  lemma SmallerSet(A: set<(int, int)>, B: set<(int, int)>, w: (int, int))
    requires A <= B && w in B && w !in A
    ensures |A| < |B|
  {
    SetSizes(A, B - {w});
  }

  lemma {:induction false} SetSizes(A: set<(int, int)>, B: set<(int, int)>)
    requires A <= B
    ensures |A| <= |B|
  {
    if A != {} {
      var w :| w in A;
      SetSizes(A - {w}, B - {w});
    }
  }

  /** The table with one wanted node more. */
  lemma BuiltSupply(c: Ctx, n0: seq<BddNode>, n1: seq<BddNode>, r: int, a: int, b: int, f: int)
    requires Fits(c, a, b) && a != b && AbsentV0(c, n0, a, b) && Mk(c, n1, r, a, b) && |n1| == |n0|
    requires !Live(n0, r) && 2 <= r < |n0| && forall i :: 0 <= i < |n0| && i != r ==> SameTriple(n1[i], n0[i])
    ensures Present(c, n1) == Present(c, n0) + {(a, b)} && Supplied(c, n0, f, n1, f - 1)
  {
    hide Fits, Wanted;
    FitsWanted(c, a, b);
    forall w | w in Wanted(c) ensures Exists(c, n1, w) <==> Exists(c, n0, w) || w == (a, b) {
      forall g ensures Mk(c, n0, g, w.0, w.1) ==> Mk(c, n1, g, w.0, w.1) {
      }
      forall g ensures Mk(c, n1, g, w.0, w.1) ==> Mk(c, n0, g, w.0, w.1) || w == (a, b) {
        WantedDiffer(c, w);
      }
    }
    assert !Exists(c, n0, (a, b));
    assert Present(c, n1) == Present(c, n0) + {(a, b)};
  }

  lemma FreshSupply(c: Ctx, n0: seq<BddNode>, n1: seq<BddNode>, r: int, v: nat, a: int, b: int, f: int)
    requires 2 <= r < |n0| && FreshNode(n0, n1, r, v, a, b) && !Live(n0, r)
    requires Fits(c, a, b) && a != b && AbsentV0(c, n0, a, b) && Mk(c, n1, r, a, b)
    ensures Supplied(c, n0, f, n1, f - 1)
  {
    hide Fits, AbsentV0, Mk, Supplied, Present;
    BuiltSupply(c, n0, n1, r, a, b, f);
  }

  /** Everything about a node that has been built. */
  lemma BuildDone(c: Ctx, done: set<int>, n0: seq<BddNode>, n1: seq<BddNode>, L0: Links, L1: Links, levels: seq<LevelData>, levels': seq<LevelData>,
                  fp0: nat, fn0: int, fp1: nat, fn1: int, e: seq<nat>, r: int, v: nat, a: int, b: int, maxsize: nat)
    requires MidTable(c, done, n0, L0, levels, fp0, fn0, e) && Linked(n1, L1) && FreeOk(L1, fp1, fn1) && fn1 == fn0 - 1
    requires 2 <= r < |n0| && |L0.owner| == |L0.pos| == |n0| == |L1.owner| == |L1.pos| && L0.owner[r] == Free && n0[r].low == -1
    requires v == c.v0 < |levels| && levels[v].size > 0 && Ref(n0, a) && Ref(n0, b)
    requires a != b && Under(c, a) && Under(c, b) && Fits(c, a, b) && AbsentV0(c, n0, a, b)
    requires FreshNode(n0, n1, r, v, a, b) && OneMore(levels, levels', v)
    requires L1.owner == L0.owner[r := Bucket(NodeHash(levels, v, a, b))]
    requires forall i :: 0 <= i < |n0| && i != r ==> L1.pos[i] == L0.pos[i]
    ensures r < |e| && MidTable(c, done, n1, L1, levels', fp1, fn1, Bump(e, r)) && Mk(c, n1, r, a, b) && Live(n1, r)
    ensures |n1| == |n0| && KeepsNodes(n0, n1) && Within(n0, n1, e, 3, maxsize) && KeepsWork(n0, n1, L0, L1)
    ensures Supplied(c, n0, fn0, n1, fn1) && SameSlices(levels, levels')
  {
    MidSizes(c, done, n0, L0, levels, fp0, fn0, e);
    FreshSize(n0, n1, r, v, a, b);
    hide Under, Fits, Mk, KeepsNodes, KeepsWork, Within, Supplied, FreshNode, AbsentV0, SameSlices, MidTable, Linked, FreeOk;
    MidTerminals(c, done, n0, L0, levels, fp0, fn0, e);
    BuildWithin(n0, n1, e, r, v, a, b, maxsize);
    BuildKeeps(c, done, n0, n1, L0, L1, levels, levels', fp0, fn0, fp1, fn1, e, r, a, b);
    FreshSupply(c, n0, n1, r, v, a, b, fn0);
    SlicesMore(levels, levels', v);
  }

  lemma FreshSize(n0: seq<BddNode>, n1: seq<BddNode>, r: int, v: nat, a: int, b: int)
    requires 2 <= r < |n0| && FreshNode(n0, n1, r, v, a, b)
    ensures |n1| == |n0|
  {
  }

  lemma WantedDiffer(c: Ctx, w: (int, int))
    requires w in Wanted(c)
    ensures w.0 != w.1
  {
  }

  /** When all nodes are restructured everything wanted is there. */
  lemma AllPresent(c: Ctx, nodes: seq<BddNode>, free: int)
    requires CtxOk(c) && Mid(c, nodes, c.U)
    ensures Present(c, nodes) == Wanted(c) && (free >= 0 ==> Enough(c, nodes, free))
  {
    forall w | w in Wanted(c) ensures Exists(c, nodes, w) {
      var p, b: bool :| p in c.U && Splits(c, p) && Halves(c, p, b).0 != Halves(c, p, b).1 && w == Halves(c, p, b);
      assert Restructured(c, nodes, p);
      assert Mk(c, nodes, if b then nodes[p].high else nodes[p].low, w.0, w.1);
    }
  }

  lemma EndEnough(c: Ctx, nodes: seq<BddNode>, L: Links, levels: seq<LevelData>, freepos: nat, freenum: int, ext: seq<nat>)
    requires MidTable(c, c.U, nodes, L, levels, freepos, freenum, ext)
    ensures Enough(c, nodes, freenum)
  {
    hide CtxOk, Mid, NoneFreed, LinkAt, NodeHash, DistinctPos, Geometry, Placed, ReorderTheory.Counted, Conserved, AllHeld, Enough;
    AllPresent(c, nodes, freenum);
  }

  lemma SameEnough(c: Ctx, n0: seq<BddNode>, n1: seq<BddNode>, free: int)
    requires SameCore(n0, n1)
    ensures Enough(c, n1, free) <==> Enough(c, n0, free)
  {
    CoreOutside(c, n0, n1);
    SameSupply(c, n0, n1, free, free);
  }

  /** Unrelated variables need no nodes. */
  lemma NothingWanted(c: Ctx, iact: seq<seq<bool>>, free: int)
    requires Ordered(c.n0, c.lev) && Covers(c.n0, c.lev, iact) && c.U == Interacting(c.n0, c.v0, c.v1)
    requires c.v0 < |c.lev| - 1 && c.v1 < |c.lev| - 1
    requires !(c.v0 < |iact| && c.v1 < |iact[c.v0]| && iact[c.v0][c.v1])
    ensures free >= 0 ==> Enough(c, c.n0, free)
  {
    forall i | i in c.U ensures false {
      NotMarkedNoEdge(c.n0, c.lev, iact, c.v0, c.v1, i);
    }
    assert c.U == {};
    WantedBound(c);
  }

  lemma FreeNonnegative(nodes: seq<BddNode>, lev: seq<nat>, L: Links, levels: seq<LevelData>, freepos: nat, freenum: int, ext: seq<nat>)
    requires Table(nodes, lev, L, levels, freepos, freenum, ext)
    ensures freenum >= 0
  {
  }

  /** Two nodes at most for each node that has to be restructured. */
  lemma {:induction false} WantedBound(c: Ctx)
    ensures |Wanted(c)| <= 2 * |c.U|
  {
    WantedWithin(c, c.U);
    assert Wanted(c) == WantedOf(c, c.U);
  }

  ghost function WantedOf(c: Ctx, U: set<int>): set<(int, int)> {
    set p, b: bool | p in U && Splits(c, p) && Halves(c, p, b).0 != Halves(c, p, b).1 :: Halves(c, p, b)
  }

  lemma {:induction false} WantedWithin(c: Ctx, U: set<int>)
    ensures |WantedOf(c, U)| <= 2 * |U|
  {
    if p :| p in U {
      WantedWithin(c, U - {p});
      var two := if Splits(c, p) then {Halves(c, p, false), Halves(c, p, true)} else {};
      forall w | w in WantedOf(c, U) ensures w in WantedOf(c, U - {p}) + two {
        var q, b: bool :| q in U && Splits(c, q) && Halves(c, q, b).0 != Halves(c, q, b).1 && w == Halves(c, q, b);
        assert q != p ==> q in U - {p};
      }
      SetSizes(WantedOf(c, U), WantedOf(c, U - {p}) + two);
    } else {
      assert WantedOf(c, U) == {};
    }
  }

  // ---- what finding or making a node leaves -----------------------------------------

  /** The node with the children a and b has been found or made, with one more reference. */
  ghost predicate NodeMade(c: Ctx, n0: seq<BddNode>, L0: Links, e0: seq<nat>, n1: seq<BddNode>, L1: Links, e1: seq<nat>, g: int, a: int, b: int, maxsize: nat) {
    && |e0| <= |n0| <= |n1| && 0 <= g < |n1| && e1 == Bump(Padded(e0, |n1|), g)
    && Mk(c, n1, g, a, b) && Ref(n1, g)
    && KeepsNodes(n0, n1) && KeepsWork(n0, n1, L0, L1) && Within(n0, n1, e0, 3, maxsize)
  }

  lemma MadeSize(c: Ctx, n0: seq<BddNode>, L0: Links, e0: seq<nat>, n1: seq<BddNode>, L1: Links, e1: seq<nat>, g: int, a: int, b: int, maxsize: nat)
    requires NodeMade(c, n0, L0, e0, n1, L1, e1, g, a, b, maxsize)
    ensures |n0| <= |n1|
  {
  }

  /** When reorder_makenode succeeds without having to grow the table. */
  ghost predicate MakeSucceeds(c: Ctx, n0: seq<BddNode>, freepos: nat, f0: int, low: int, high: int, ok: bool, f1: int, size: nat) {
    && (low == high ==> ok)
    && (Exists(c, n0, (low, high)) ==> ok && f1 == f0 && size == |n0|)
    && (freepos != 0 ==> ok && size == |n0|)
    && (Enough(c, n0, f0) ==> ok)
  }

  lemma RefIn(nodes: seq<BddNode>, i: int)
    requires Ref(nodes, i)
    ensures 0 <= i < |nodes|
  {
  }

  /** Both new children of p have. */
  ghost predicate BothMade(c: Ctx, n0: seq<BddNode>, e0: seq<nat>, n1: seq<BddNode>, L1: Links, e1: seq<nat>, p: int, g0: int, g1: int, maxsize: nat) {
    && |e0| <= |n0| <= |n1| == |L1.pos| == |L1.owner| && 0 <= g0 < |n1| && 0 <= g1 < |n1| && e1 == Bump(Bump(Padded(e0, |n1|), g0), g1)
    && Ref(n1, g0) && Ref(n1, g1) && Within(n0, n1, e0, 0, maxsize)
    && 0 <= p < |n0| && HeadOk(L1, Work, p) && n1[p].next == n0[p].next
  }

  lemma MadeTwice(c: Ctx, n0: seq<BddNode>, L0: Links, e0: seq<nat>, n1: seq<BddNode>, L1: Links, e1: seq<nat>, n2: seq<BddNode>, L2: Links, e2: seq<nat>,
                  p: int, g0: int, a0: int, b0: int, g1: int, a1: int, b1: int, maxsize: nat)
    requires NodeMade(c, n0, L0, e0, n1, L1, e1, g0, a0, b0, maxsize) && NodeMade(c, n1, L1, e1, n2, L2, e2, g1, a1, b1, maxsize)
    requires |L0.owner| == |L0.pos| == |n0| && |L2.owner| == |L2.pos| == |n2| && HeadOk(L0, Work, p) && p != 0
    ensures BothMade(c, n0, e0, n2, L2, e2, p, g0, g1, maxsize) && Mk(c, n2, g0, a0, b0) && Mk(c, n2, g1, a1, b1)
  {
    hide Mk, Within, KeepsNodes, KeepsWork, HeadOk, Bump, Padded;
    HeadRange(L0, Work, p);
    HeldBoth(e0, e1, e2, |n1|, |n2|, g0, g1);
    MkKept(c, n1, n2, g0, a0, b0);
    HeadKept(n0, n1, n2, L0, L1, L2, p);
    HeldWithin(n0, n1, n2, e0, e1, g0, maxsize);
  }

  // ---- one exchange, for its callers ------------------------------------------------

  /** The exchange of the variables v and w in a table. */
  ghost function Exchange(nodes: seq<BddNode>, lev: seq<nat>, v: nat, w: nat): Ctx {
    Ctx(nodes, lev, v, w, Interacting(nodes, v, w))
  }

  /** The children of the nodes that the exchange has to make. */
  ghost function Missing(nodes: seq<BddNode>, lev: seq<nat>, v: nat, w: nat): set<(int, int)> {
    var c := Exchange(nodes, lev, v, w);
    set p | p in Wanted(c) && !Exists(c, nodes, p)
  }

  lemma MissingEnough(nodes: seq<BddNode>, lev: seq<nat>, v: nat, w: nat, free: int)
    ensures Enough(Exchange(nodes, lev, v, w), nodes, free) <==> |Missing(nodes, lev, v, w)| <= free
    ensures |Missing(nodes, lev, v, w)| <= 2 * |Interacting(nodes, v, w)|
  {
    var c := Exchange(nodes, lev, v, w);
    WantedBound(c);
    assert Wanted(c) == Present(c, nodes) + Missing(nodes, lev, v, w);
  }

  /** When the exchange of v with its successor succeeds: always if v is the last variable, if the two are
      unrelated, or if there are enough free entries; when the table is at its limit only then. */
  ghost predicate Decided(nodes: seq<BddNode>, lev: seq<nat>, l2v: seq<nat>, iact: seq<seq<bool>>, free: int, limit: bool, v: int, ok: bool) {
    && (ok ==> 0 <= v < |lev| - 1)
    && (0 <= v < |lev| - 1 && lev[v] + 1 == |lev| - 1 ==> ok)
    && (0 <= v < |lev| - 1 && lev[v] + 1 < |lev| - 1 && lev[v] + 1 < |l2v| ==> DecidedFor(nodes, lev, iact, free, limit, v, l2v[lev[v] + 1], ok))
  }

  ghost predicate DecidedFor(nodes: seq<BddNode>, lev: seq<nat>, iact: seq<seq<bool>>, free: int, limit: bool, v: nat, w: nat, ok: bool) {
    && (|Missing(nodes, lev, v, w)| <= free ==> ok) && (2 * |Interacting(nodes, v, w)| <= free ==> ok)
    && (v < |iact| && w < |iact[v]| && !iact[v][w] ==> ok)
    && (limit ==> (ok <==> |Missing(nodes, lev, v, w)| <= free))
  }

  lemma Decide(nodes: seq<BddNode>, lev: seq<nat>, l2v: seq<nat>, iact: seq<seq<bool>>, free: int, limit: bool, v: nat, w: nat, ok: bool)
    requires v < |lev| - 1 && lev[v] + 1 < |lev| - 1 == |iact| && |l2v| == |lev| && w == l2v[lev[v] + 1] && w < |iact[v]|
    requires (!iact[v][w] ==> ok) && (Enough(Exchange(nodes, lev, v, w), nodes, free) ==> ok)
    requires limit ==> (ok <==> Enough(Exchange(nodes, lev, v, w), nodes, free))
    ensures Decided(nodes, lev, l2v, iact, free, limit, v, ok)
  {
    hide Missing, Enough;
    MissingEnough(nodes, lev, v, w, free);
  }

  ghost function FreeEntries(nodes: seq<BddNode>): (s: set<int>)
    ensures forall i :: i in s <==> 2 <= i < |nodes| && nodes[i].low == -1
  {
    set i | 2 <= i < |nodes| && nodes[i].low == -1
  }

  /** bddfreenum is the number of free entries. */
  lemma FreeNumber(nodes: seq<BddNode>, lev: seq<nat>, L: Links, levels: seq<LevelData>, freepos: nat, freenum: int, ext: seq<nat>)
    requires Table(nodes, lev, L, levels, freepos, freenum, ext)
    ensures freenum == |FreeEntries(nodes)|
  {
    hide LinkAt, Geometry, NodeHash, Conserved, Ordered, Reduced, Unique, ReorderTheory.Counted;
    ListSize(nodes, L, Free, freepos);
    FreeOwned(nodes, L, levels);
    assert (set x | 2 <= x < |nodes| && L.owner[x] == Free) == FreeEntries(nodes);
  }

  lemma FreeOwned(nodes: seq<BddNode>, L: Links, levels: seq<LevelData>)
    requires Placed(nodes, L, levels, {})
    ensures |L.owner| == |nodes| && forall x :: 2 <= x < |nodes| ==> (L.owner[x] == Free <==> nodes[x].low == -1)
  {
    hide NodeHash;
  }

  lemma ShortNow(s: Snapshot, level2var: seq<nat>, L: Links, levels: seq<LevelData>, freepos: nat, free: int, iact: seq<seq<bool>>, v: nat, w: nat)
    requires Session(s.nodes, s.lev, level2var, L, levels, freepos, free, s.ext, iact, s.pairs)
    requires v < |s.lev| - 1 && w < |s.lev| - 1 && s.lev[w] == s.lev[v] + 1 && !Enough(Exchange(s.nodes, s.lev, v, w), s.nodes, free)
    ensures Fails(s)
  {
    hide Missing, Enough, Session, Ordered, Conserved, Linked, Geometry, Placed, ReorderTheory.Counted, FreeOk, Reduced, Unique, Preserved, PairsKept, Within;
    MissingEnough(s.nodes, s.lev, v, w, free);
    SessionFacts(s.nodes, s.lev, level2var, L, levels, freepos, free, s.ext, iact, s.pairs);
    FreeNumber(s.nodes, s.lev, L, levels, freepos, free, s.ext);
    assert ShortFor(s, v, w);
    assert Short(s);
    PreservedSelf(s.nodes, s.lev, s.ext);
    PairsKeptSelf(s.pairs, s.lev, level2var);
    WithinSelf(s.nodes, s.ext, 0, s.maxsize);
    assert Carried(s, s);
  }

  lemma MatrixFacts(s: Snapshot, level2var: seq<nat>, L: Links, levels: seq<LevelData>, freepos: nat, free: int, iact: seq<seq<bool>>)
    requires Session(s.nodes, s.lev, level2var, L, levels, freepos, free, s.ext, iact, s.pairs)
    ensures |iact| == |levels|
  {
  }

  lemma MatrixRow(iact: seq<seq<bool>>, n: nat, v: nat)
    requires MatrixOk(iact, n) && v < n
    ensures |iact| == n && |iact[v]| == n
  {
  }

  /** What an exchange says of its success, for a session. */
  lemma Outcome(s: Snapshot, level2var: seq<nat>, L: Links, levels: seq<LevelData>, freepos: nat, free: int, iact: seq<seq<bool>>, limit: bool, v: nat, w: nat, ok: bool)
    requires Session(s.nodes, s.lev, level2var, L, levels, freepos, free, s.ext, iact, s.pairs)
    requires v < |levels| && v < |s.lev| && s.lev[v] + 1 < |levels| && s.lev[v] + 1 < |level2var| && w == level2var[s.lev[v] + 1] && v < |iact| && w < |iact[v]|
    requires (!iact[v][w] ==> ok) && (Enough(Exchange(s.nodes, s.lev, v, w), s.nodes, free) ==> ok)
    requires limit ==> (ok <==> Enough(Exchange(s.nodes, s.lev, v, w), s.nodes, free))
    ensures Decided(s.nodes, s.lev, level2var, iact, free, limit, v, ok) && (!ok ==> Fails(s))
  {
    hide Session, Enough, Exchange, Fails, Decided, Table, Ordered, Covers, Inverse, MatrixOk, PairsSized;
    MatrixFacts(s, level2var, L, levels, freepos, free, iact);
    SessionFacts(s.nodes, s.lev, level2var, L, levels, freepos, free, s.ext, iact, s.pairs);
    NextVariable(s.lev, level2var, v);
    Decide(s.nodes, s.lev, level2var, iact, free, limit, v, w, ok);
    if !ok { ShortNow(s, level2var, L, levels, freepos, free, iact, v, w); }
  }

  /** There are neighbours for whose exchange the free entries of this table do not do. */
  ghost predicate Short(t: Snapshot) {
    && Ordered(t.nodes, t.lev) && Reduced(t.nodes) && Unique(t.nodes) && Conserved(t.nodes, t.ext)
    && (forall i {:trigger Live(t.nodes, i)} :: Live(t.nodes, i) ==> t.nodes[i].refcount > 0)
    && exists v, w :: ShortFor(t, v, w)
  }

  ghost predicate ShortFor(t: Snapshot, v: nat, w: nat) {
    v < |t.lev| - 1 && w < |t.lev| - 1 && t.lev[w] == t.lev[v] + 1 && |Missing(t.nodes, t.lev, v, w)| > |FreeEntries(t.nodes)|
  }

  /** The session can come to such a table. */
  ghost predicate Fails(s: Snapshot) {
    exists t :: Carried(s, t) && Short(t)
  }

  lemma FailsLater(a: Snapshot, b: Snapshot)
    requires Carried(a, b) && Fails(b)
    ensures Fails(a)
  {
    hide Carried, Short;
    var t :| Carried(b, t) && Short(t);
    CarriedTransitive(a, b, t);
  }
}
