/** What holds between two exchanges of a reordering session, and what one exchange does. */
module ReorderSession {
  import opened NodeTable
  import opened Diagram
  import opened RefCount
  import opened ReorderTheory
  import opened ReorderStep
  import opened ReorderSweep
  import opened Saturation
  import Prime

  /** A substitution table of bdd_replace: one diagram per level, and the last level
      that is not the identity. */
  datatype RenameTable = RenameTable(result: seq<int>, last: int)

  // ---- one exchange of adjacent variables -------------------------------------------

  ghost predicate Inverse(var2level: seq<nat>, level2var: seq<nat>) {
    && |var2level| == |level2var|
    && (forall v :: 0 <= v < |var2level| ==> var2level[v] < |level2var| && level2var[var2level[v]] == v)
    && (forall l :: 0 <= l < |level2var| ==> level2var[l] < |var2level| && var2level[level2var[l]] == l)
  }

  ghost predicate MatrixOk(iact: seq<seq<bool>>, n: nat) {
    |iact| == n && forall v :: 0 <= v < n ==> |iact[v]| == n
  }

  /** The table and the order, apart from the interaction matrix and the substitution tables. */
  ghost predicate Ready(nodes: seq<BddNode>, lev: seq<nat>, level2var: seq<nat>, L: Links, levels: seq<LevelData>,
                        freepos: nat, freenum: int, ext: seq<nat>)
  {
    Table(nodes, lev, L, levels, freepos, freenum, ext) && Inverse(lev, level2var) && 0 < |levels| <= |nodes|
  }

  /** The v-th slice of m entries. */
  predicate SliceOf(l: LevelData, v: nat, m: nat) {
    l.maxsize == m && l.start == v * m && if m >= 4 then Prime.CanReturn(m, l.size) else l.size == m
  }

  /** The table of n entries is divided evenly among the variables. */
  ghost predicate Sliced(levels: seq<LevelData>, n: nat) {
    |levels| > 0 && forall v :: 0 <= v < |levels| ==> SliceOf(levels[v], v, n / |levels|)
  }

  /** Only numbers of nodes differ. */
  ghost predicate SameSlices(l0: seq<LevelData>, l1: seq<LevelData>) {
    |l1| == |l0| && forall v :: 0 <= v < |l0| ==> l1[v].start == l0[v].start && l1[v].size == l0[v].size && l1[v].maxsize == l0[v].maxsize
  }

  lemma SlicesSelf(l: seq<LevelData>)
    ensures SameSlices(l, l)
  {
  }

  lemma SlicesNumber(l0: seq<LevelData>, l1: seq<LevelData>, v: nat, number: int)
    requires v < |l1| && SameSlices(l0, l1)
    ensures SameSlices(l0, l1[v := l1[v].(nodenum := number)])
  {
  }

  lemma SlicesMore(l0: seq<LevelData>, l1: seq<LevelData>, v: nat)
    requires OneMore(l0, l1, v)
    ensures SameSlices(l0, l1)
  {
  }

  lemma SlicesThen(l0: seq<LevelData>, l1: seq<LevelData>, l2: seq<LevelData>)
    requires SameSlices(l0, l1) && SameSlices(l1, l2)
    ensures SameSlices(l0, l2)
  {
  }

  lemma StillSliced(l0: seq<LevelData>, l1: seq<LevelData>, n: nat)
    requires Sliced(l0, n) && SameSlices(l0, l1)
    ensures Sliced(l1, n)
  {
    hide Prime.CanReturn;
  }

  /** Everything that holds between two exchanges of a reordering session. */
  ghost predicate Session(nodes: seq<BddNode>, lev: seq<nat>, level2var: seq<nat>, L: Links, levels: seq<LevelData>,
                          freepos: nat, freenum: int, ext: seq<nat>, iact: seq<seq<bool>>, pairs: seq<RenameTable>)
  {
    && Ready(nodes, lev, level2var, L, levels, freepos, freenum, ext)
    && Covers(nodes, lev, iact) && MatrixOk(iact, |levels|)
    && PairsSized(pairs, |levels|) && Sliced(levels, |nodes|)
  }

  ghost predicate PairsSized(pairs: seq<RenameTable>, n: nat) {
    forall k :: 0 <= k < |pairs| ==> |pairs[k].result| == n
  }

  /** Every substitution table has followed the exchange at `level`. */
  ghost predicate PairsMoved(pairs: seq<RenameTable>, pairs': seq<RenameTable>, level: nat) {
    && |pairs'| == |pairs|
    && forall k :: 0 <= k < |pairs| ==> level + 1 < |pairs[k].result| && pairs'[k] == PairDown(pairs[k], level)
  }

  /** What an exchange of v0 with v1 does to the diagrams: the nodes that survive keep their
      function, only nodes of v1 disappear, and external references are untouched. */
  ghost predicate Exchanged(n0: seq<BddNode>, lev0: seq<nat>, e0: seq<nat>, n1: seq<BddNode>, lev1: seq<nat>, e1: seq<nat>, v1: nat) {
    && Ordered(n0, lev0) && Ordered(n1, lev1)
    && |e0| == |n0| <= |n1| && e1 == Padded(e0, |n1|)
    && (forall i, env :: Ref(n0, i) && Ref(n1, i) ==> Eval(n1, lev1, i, env) == Eval(n0, lev0, i, env))
    && (forall i {:trigger Ref(n1, i)} :: Live(n0, i) && !Ref(n1, i) ==> n0[i].level == v1)
  }

  lemma RestructuredExchange(c: Ctx, nodes: seq<BddNode>, e0: seq<nat>, ext: seq<nat>, iact: seq<seq<bool>>)
    requires GcGraph(c, nodes, ext) && Covers(c.n0, c.lev, iact) && |e0| == |c.n0| && ext == Padded(e0, |nodes|)
    ensures c.v0 < |c.lev| && c.v1 < |c.lev|
    ensures Exchanged(c.n0, c.lev, e0, nodes, Swapped(c.lev, c.v0, c.v1), ext, c.v1)
    ensures Covers(nodes, Swapped(c.lev, c.v0, c.v1), iact)
  {
    CoverKept(c, nodes, iact);
    forall i, env | Ref(c.n0, i) && Ref(nodes, i)
      ensures Eval(nodes, Swapped(c.lev, c.v0, c.v1), i, env) == Eval(c.n0, c.lev, i, env)
    {
      AfterSameEval(c, nodes, i, env);
    }
    forall i | Live(c.n0, i) && !Ref(nodes, i) ensures c.n0[i].level == c.v1 {
      assert i in c.U ==> Restructured(c, nodes, i);
    }
  }

  /** When no node of v0 has a child of v1, changing the order is all there is to do. */
  lemma IndependentExchange(c: Ctx, L: Links, levels: seq<LevelData>, freepos: nat, freenum: int, ext: seq<nat>, iact: seq<seq<bool>>)
    requires Table(c.n0, c.lev, L, levels, freepos, freenum, ext) && Covers(c.n0, c.lev, iact)
    requires c.v0 < |c.lev| - 1 && c.v1 < |c.lev| - 1 && c.lev[c.v1] == c.lev[c.v0] + 1 && c.U == Interacting(c.n0, c.v0, c.v1)
    requires !(c.v0 < |iact| && c.v1 < |iact[c.v0]| && iact[c.v0][c.v1])
    ensures GcGraph(c, c.n0, ext) && Table(c.n0, Swapped(c.lev, c.v0, c.v1), L, levels, freepos, freenum, ext)
  {
    forall i | i in c.U ensures false {
      NotMarkedNoEdge(c.n0, c.lev, iact, c.v0, c.v1, i);
    }
    assert c.U == {};
    CtxStart(c);
    CoreSelf(c.n0);
    StartMid(c, c.n0);
    hide Interacting, LinkAt, HeadOk, NodeHash, Placed, Counted, Geometry, Linked, FreeOk;
    MidClosed(c, c.n0, {});
    TableHeld(c, c.n0, ext);
    AfterOrdered(c, c.n0);
    AfterUnique(c, c.n0);
  }

  /** Leaving the table as it is gives an ordered table for the exchanged order if and only if no node of
      the upper variable has a child of the lower one. */
  lemma SkipIff(nodes: seq<BddNode>, lev: seq<nat>, v: nat, w: nat)
    requires Ordered(nodes, lev) && v < |lev| - 1 && w < |lev| - 1 && lev[w] == lev[v] + 1
    ensures Ordered(nodes, Swapped(lev, v, w)) <==> Interacting(nodes, v, w) == {}
  {
    var lev' := Swapped(lev, v, w);
    if Interacting(nodes, v, w) == {} {
      forall i | Live(nodes, i) ensures NodeOk(nodes, lev', i) {
        assert NodeOk(nodes, lev, i) && i !in Interacting(nodes, v, w);
      }
    } else {
      var i :| i in Interacting(nodes, v, w);
      assert !NodeOk(nodes, lev', i);
    }
  }

  lemma SwapInverse(var2level: seq<nat>, level2var: seq<nat>, level: nat, v: nat, w: nat)
    requires Inverse(var2level, level2var) && level + 1 < |level2var| && v == level2var[level] && w == level2var[level + 1]
    ensures v < |var2level| && w < |var2level| && var2level[v] == level && var2level[w] == level + 1
    ensures Inverse(Swapped(var2level, v, w), level2var[level := w][level + 1 := v])
  {
  }

  // ---- the substitution tables ------------------------------------------------------

  /** bdd_pairs_vardown for one table. */
  function PairDown(p: RenameTable, level: nat): (q: RenameTable)
    requires level + 1 < |p.result|
  {
    RenameTable(p.result[level := p.result[level + 1]][level + 1 := p.result[level]],
                if p.last == level then p.last + 1 else p.last)
  }

  /** By variable the table says the same after the exchange, and `last` still bounds the
      levels where it is not the identity. */
  lemma PairDownKeeps(p: RenameTable, level: nat, lev: seq<nat>, level2var: seq<nat>, identity: seq<int>)
    requires Inverse(lev, level2var) && |p.result| == |lev| - 1 == |identity| && IsOrder(lev) && level + 1 < |p.result|
    requires forall l :: 0 <= l < |p.result| && l > p.last && level2var[l] < |identity| ==> p.result[l] == identity[level2var[l]]
    ensures var q := PairDown(p, level);
            var v, w := level2var[level], level2var[level + 1];
            var lev', l2v' := Swapped(lev, v, w), level2var[level := w][level + 1 := v];
            && (forall u :: 0 <= u < |lev| - 1 ==> lev'[u] < |q.result| && lev[u] < |p.result| && q.result[lev'[u]] == p.result[lev[u]])
            && (forall l :: 0 <= l < |q.result| && l > q.last && l2v'[l] < |identity| ==> q.result[l] == identity[l2v'[l]])
  {
    var q := PairDown(p, level);
    var v, w := level2var[level], level2var[level + 1];
    var lev' := Swapped(lev, v, w);
    assert lev[v] == level && lev[w] == level + 1;
    forall u | 0 <= u < |lev| - 1 ensures lev'[u] < |q.result| && lev[u] < |p.result| && q.result[lev'[u]] == p.result[lev[u]] {
    }
  }

  lemma SessionFacts(nodes: seq<BddNode>, lev: seq<nat>, level2var: seq<nat>, L: Links, levels: seq<LevelData>,
                     freepos: nat, freenum: int, ext: seq<nat>, iact: seq<seq<bool>>, pairs: seq<RenameTable>)
    requires Session(nodes, lev, level2var, L, levels, freepos, freenum, ext, iact, pairs)
    ensures Table(nodes, lev, L, levels, freepos, freenum, ext)
    ensures Ordered(nodes, lev) && Covers(nodes, lev, iact)
    ensures Inverse(lev, level2var) && MatrixOk(iact, |levels|)
    ensures |lev| == |level2var| == |levels| + 1 && 0 < |levels| <= |nodes| == |ext|
    ensures lev[|lev| - 1] == |lev| - 1
    ensures PairsSized(pairs, |levels|) && Sliced(levels, |nodes|)
  {
  }

  lemma OrderFacts(nodes: seq<BddNode>, lev: seq<nat>, level2var: seq<nat>, L: Links, levels: seq<LevelData>,
                   freepos: nat, freenum: int, ext: seq<nat>, iact: seq<seq<bool>>, pairs: seq<RenameTable>)
    requires Session(nodes, lev, level2var, L, levels, freepos, freenum, ext, iact, pairs)
    ensures Ordered(nodes, lev) && Inverse(lev, level2var) && PairsSized(pairs, |levels|)
    ensures |lev| == |level2var| == |levels| + 1 && 0 < |levels| <= |nodes| == |ext|
    ensures lev[|lev| - 1] == |lev| - 1
  {
  }

  lemma SessionMade(nodes: seq<BddNode>, lev: seq<nat>, level2var: seq<nat>, L: Links, levels: seq<LevelData>,
                    freepos: nat, freenum: int, ext: seq<nat>, iact: seq<seq<bool>>, pairs: seq<RenameTable>)
    requires Table(nodes, lev, L, levels, freepos, freenum, ext)
    requires Covers(nodes, lev, iact) && Inverse(lev, level2var) && MatrixOk(iact, |levels|) && 0 < |levels| <= |nodes|
    requires PairsSized(pairs, |levels|) && Sliced(levels, |nodes|)
    ensures Session(nodes, lev, level2var, L, levels, freepos, freenum, ext, iact, pairs)
  {
  }

  lemma NextVariable(lev: seq<nat>, level2var: seq<nat>, v: nat)
    requires Inverse(lev, level2var) && v + 1 < |lev| && lev[|lev| - 1] == |lev| - 1
    ensures level2var[lev[v]] == v
    ensures lev[v] + 2 < |lev| ==> level2var[lev[v] + 1] < |lev| - 1 && lev[level2var[lev[v] + 1]] == lev[v] + 1
  {
    var l := lev[v] + 1;
    if l + 1 < |lev| { assert lev[level2var[l]] == l; }
  }

  lemma PreviousVariable(lev: seq<nat>, level2var: seq<nat>, v: nat)
    requires Inverse(lev, level2var) && v + 1 < |lev| && lev[|lev| - 1] == |lev| - 1
    ensures lev[v] < |level2var| - 1 && level2var[lev[v]] == v
    ensures lev[v] > 0 ==> level2var[lev[v] - 1] < |lev| - 1 && lev[level2var[lev[v] - 1]] == lev[v] - 1
  {
    assert level2var[|lev| - 1] == |lev| - 1;
    if lev[v] > 0 { assert lev[level2var[lev[v] - 1]] == lev[v] - 1; }
  }

  lemma ExchangedSizes(n0: seq<BddNode>, lev0: seq<nat>, e0: seq<nat>, n1: seq<BddNode>, lev1: seq<nat>, e1: seq<nat>, v1: nat)
    requires Exchanged(n0, lev0, e0, n1, lev1, e1, v1)
    ensures |n0| <= |n1|
  {
  }

  /** Rehashing after the exchange changes nothing but links. */
  lemma CoreCovers(n1: seq<BddNode>, n2: seq<BddNode>, lev: seq<nat>, iact: seq<seq<bool>>)
    requires Ordered(n1, lev) && Ordered(n2, lev) && SameCore(n1, n2) && Covers(n1, lev, iact)
    ensures Covers(n2, lev, iact)
  {
    forall i | Live(n2, i) ensures CoversSet(Support(n2, lev, i), iact) {
      assert Live(n1, i);
      CoreEval(n1, n2, lev, i, {});
    }
  }

  lemma CoreExchanged(n0: seq<BddNode>, lev0: seq<nat>, e0: seq<nat>, n1: seq<BddNode>, n2: seq<BddNode>, lev: seq<nat>, ext: seq<nat>, v1: nat)
    requires Exchanged(n0, lev0, e0, n1, lev, ext, v1) && SameCore(n1, n2) && Ordered(n2, lev)
    ensures Exchanged(n0, lev0, e0, n2, lev, ext, v1)
  {
    forall i, env | Ref(n0, i) && Ref(n2, i) ensures Eval(n2, lev, i, env) == Eval(n0, lev0, i, env) {
      assert Ref(n1, i);
      CoreEval(n1, n2, lev, i, env);
    }
    assert forall i :: Ref(n2, i) <==> Ref(n1, i);
  }

  lemma FinishExchange(n0: seq<BddNode>, lev0: seq<nat>, e0: seq<nat>, n1: seq<BddNode>, n2: seq<BddNode>, lev: seq<nat>, ext: seq<nat>, v1: nat,
                       L: Links, levels: seq<LevelData>, freepos: nat, freenum: int)
    requires Exchanged(n0, lev0, e0, n1, lev, ext, v1) && SameCore(n1, n2)
    requires Table(n2, lev, L, levels, freepos, freenum, ext)
    ensures Exchanged(n0, lev0, e0, n2, lev, ext, v1) && |n2| == |n1|
    ensures Preserved(n0, lev0, e0, n2, lev, ext)
  {
    CoreExchanged(n0, lev0, e0, n1, n2, lev, ext, v1);
    ExchangePreserves(n0, lev0, e0, n2, lev, ext, v1);
  }

  // ---- what any number of exchanges keeps -------------------------------------------

  ghost predicate SameFunction(n0: seq<BddNode>, lev0: seq<nat>, n1: seq<BddNode>, lev1: seq<nat>, i: int)
    requires Ordered(n0, lev0) && Ordered(n1, lev1)
  {
    Ref(n0, i) && Ref(n1, i) && forall env :: Eval(n1, lev1, i, env) == Eval(n0, lev0, i, env)
  }

  /** Every diagram somebody outside the table holds on to keeps its identifier and its
      function, and the external references are the same. */
  ghost predicate Preserved(n0: seq<BddNode>, lev0: seq<nat>, e0: seq<nat>, n1: seq<BddNode>, lev1: seq<nat>, e1: seq<nat>) {
    && Ordered(n0, lev0) && Ordered(n1, lev1)
    && |e0| == |n0| <= |n1| && e1 == Padded(e0, |n1|)
    && forall i {:trigger SameFunction(n0, lev0, n1, lev1, i)} ::
         Ref(n0, i) && (i < 2 || e0[i] > 0) ==> SameFunction(n0, lev0, n1, lev1, i)
  }

  lemma PreservedSelf(n: seq<BddNode>, lev: seq<nat>, e: seq<nat>)
    requires Ordered(n, lev) && |e| == |n|
    ensures Preserved(n, lev, e, n, lev, e)
  {
    NoPadding(e);
  }

  lemma PreservedTransitive(n0: seq<BddNode>, lev0: seq<nat>, e0: seq<nat>, n1: seq<BddNode>, lev1: seq<nat>, e1: seq<nat>,
                            n2: seq<BddNode>, lev2: seq<nat>, e2: seq<nat>)
    requires Preserved(n0, lev0, e0, n1, lev1, e1) && Preserved(n1, lev1, e1, n2, lev2, e2)
    ensures Preserved(n0, lev0, e0, n2, lev2, e2)
  {
    PaddedTwice(e0, |n1|, |n2|);
    forall i | Ref(n0, i) && (i < 2 || e0[i] > 0) ensures SameFunction(n0, lev0, n2, lev2, i) {
      assert SameFunction(n0, lev0, n1, lev1, i);
      assert SameFunction(n1, lev1, n2, lev2, i);
    }
  }

  lemma ExchangePreserves(n0: seq<BddNode>, lev0: seq<nat>, e0: seq<nat>, n1: seq<BddNode>, lev1: seq<nat>, e1: seq<nat>, v1: nat)
    requires Exchanged(n0, lev0, e0, n1, lev1, e1, v1) && Conserved(n1, e1)
    ensures Preserved(n0, lev0, e0, n1, lev1, e1)
  {
    forall i | Ref(n0, i) && (i < 2 || e0[i] > 0) ensures SameFunction(n0, lev0, n1, lev1, i) {
      if i >= 2 { assert e1[i] == e0[i]; }
      assert Ref(n1, i);
    }
  }

  /** Every substitution table maps every variable to the diagram it mapped it to before. */
  ghost predicate PairsKept(p0: seq<RenameTable>, lev0: seq<nat>, p1: seq<RenameTable>, lev1: seq<nat>) {
    && |p0| == |p1| && |lev0| == |lev1|
    && forall k, u :: 0 <= k < |p0| && 0 <= u < |lev0| - 1 ==>
         && lev0[u] < |p0[k].result| && lev1[u] < |p1[k].result|
         && p1[k].result[lev1[u]] == p0[k].result[lev0[u]]
  }

  lemma PairsMovedKept(p0: seq<RenameTable>, p1: seq<RenameTable>, lev: seq<nat>, level2var: seq<nat>, level: nat)
    requires level + 2 < |lev| && PairsMoved(p0, p1, level) && PairsSized(p0, |lev| - 1) && Inverse(lev, level2var)
    requires lev[|lev| - 1] == |lev| - 1
    ensures level2var[level] < |lev| && level2var[level + 1] < |lev|
    ensures PairsKept(p0, lev, p1, Swapped(lev, level2var[level], level2var[level + 1]))
  {
  }

  lemma PairsKeptSelf(p: seq<RenameTable>, lev: seq<nat>, level2var: seq<nat>)
    requires |lev| > 0 && PairsSized(p, |lev| - 1) && Inverse(lev, level2var) && lev[|lev| - 1] == |lev| - 1
    ensures PairsKept(p, lev, p, lev)
  {
  }

  lemma PairsKeptTransitive(p0: seq<RenameTable>, lev0: seq<nat>, p1: seq<RenameTable>, lev1: seq<nat>, p2: seq<RenameTable>, lev2: seq<nat>)
    requires PairsKept(p0, lev0, p1, lev1) && PairsKept(p1, lev1, p2, lev2)
    ensures PairsKept(p0, lev0, p2, lev2)
  {
    forall k, u | 0 <= k < |p0| && 0 <= u < |lev0| - 1
      ensures lev0[u] < |p0[k].result| && lev2[u] < |p2[k].result| && p2[k].result[lev2[u]] == p0[k].result[lev0[u]]
    {
      assert p1[k].result[lev1[u]] == p0[k].result[lev0[u]];
    }
  }

  /** The parts of a session that a whole run of exchanges has to carry over; maxsize bounds the table. */
  datatype Snapshot = Snapshot(nodes: seq<BddNode>, lev: seq<nat>, ext: seq<nat>, pairs: seq<RenameTable>, maxsize: nat)

  ghost predicate Carried(a: Snapshot, b: Snapshot) {
    && Preserved(a.nodes, a.lev, a.ext, b.nodes, b.lev, b.ext) && PairsKept(a.pairs, a.lev, b.pairs, b.lev)
    && b.maxsize == a.maxsize && Within(a.nodes, b.nodes, a.ext, 0, a.maxsize)
  }

  lemma PreservedOwn(n0: seq<BddNode>, lev0: seq<nat>, e0: seq<nat>, n1: seq<BddNode>, lev1: seq<nat>, e1: seq<nat>)
    requires Preserved(n0, lev0, e0, n1, lev1, e1)
    ensures forall m {:trigger Own(e1, m)} :: Own(e1, m) == Own(e0, m)
  {
    PaddedOwn(e0, |n1|);
  }

  lemma CarriedTransitive(a: Snapshot, b: Snapshot, c: Snapshot)
    requires Carried(a, b) && Carried(b, c)
    ensures Carried(a, c)
  {
    hide Preserved, PairsKept, Within, Own;
    PreservedOwn(a.nodes, a.lev, a.ext, b.nodes, b.lev, b.ext);
    WithinThen(a.nodes, b.nodes, c.nodes, a.ext, b.ext, 0, 0, 0, a.maxsize);
    PreservedTransitive(a.nodes, a.lev, a.ext, b.nodes, b.lev, b.ext, c.nodes, c.lev, c.ext);
    PairsKeptTransitive(a.pairs, a.lev, b.pairs, b.lev, c.pairs, c.lev);
  }

  /** The order with the variables at l and l + 1 exchanged. */
  function SwapAt(s: seq<nat>, l: nat): seq<nat>
    requires l + 1 < |s|
  {
    s[l := s[l + 1]][l + 1 := s[l]]
  }

  /** In a session identifiers are canonical: the same identifier means the same function
      and different identifiers different functions. */
  lemma SessionCanonical(nodes: seq<BddNode>, lev: seq<nat>, level2var: seq<nat>, L: Links, levels: seq<LevelData>,
                         freepos: nat, freenum: int, ext: seq<nat>, iact: seq<seq<bool>>, pairs: seq<RenameTable>, i: int, j: int)
    requires Session(nodes, lev, level2var, L, levels, freepos, freenum, ext, iact, pairs) && Ref(nodes, i) && Ref(nodes, j)
    ensures Ordered(nodes, lev)
    ensures i == j <==> forall env :: Eval(nodes, lev, i, env) == Eval(nodes, lev, j, env)
  {
    if i != j {
      var env := Distinguish(nodes, lev, i, j);
    }
  }
}
