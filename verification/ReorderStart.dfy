/** The start and the end of a reordering session: levels become variables and back, the nodes
    that are referenced from outside are counted recursively, and the others are dropped. */
module ReorderStart {
  import opened NodeTable
  import opened Diagram
  import opened RefCount
  import opened KernelTheory
  import opened Collection
  import opened ReorderTheory
  import opened ReorderSweep
  import opened ReorderSession
  import opened Dependencies

  // ---- from levels to variables -----------------------------------------------------

  /** The table with the `level` fields of its nodes translated. */
  function Translated(nodes: seq<BddNode>, t: seq<nat>): (r: seq<BddNode>)
    requires forall i :: 2 <= i < |nodes| ==> nodes[i].level < |t|
    ensures |r| == |nodes|
    ensures forall i :: 0 <= i < |nodes| ==> r[i] == if i < 2 then nodes[i] else nodes[i].(level := t[nodes[i].level])
  {
    seq(|nodes|, i requires 0 <= i < |nodes| => if i < 2 then nodes[i] else nodes[i].(level := t[nodes[i].level]))
  }

  /** An assignment to the variables, by level. */
  ghost function ByLevel(level2var: seq<nat>, env: Env): (e: Env)
  {
    set l | 0 <= l < |level2var| && level2var[l] in env
  }

  /** Both arrays say the same order of n variables. */
  ghost predicate OrderOf(var2level: seq<nat>, level2var: seq<nat>, n: nat) {
    Inverse(var2level, level2var) && |var2level| == n + 1 && var2level[n] == n
  }

  lemma OrderIsOrder(var2level: seq<nat>, level2var: seq<nat>, n: nat)
    requires OrderOf(var2level, level2var, n)
    ensures IsOrder(var2level) && level2var[n] == n && |level2var| == n + 1
    ensures forall l :: 0 <= l < n ==> level2var[l] < n
  {
    forall v | 0 <= v < n ensures var2level[v] < n {
      assert level2var[var2level[v]] == v && level2var[var2level[n]] == n;
    }
  }

  lemma TranslatedOrdered(nodes: seq<BddNode>, n: nat, var2level: seq<nat>, level2var: seq<nat>)
    requires Graph(nodes, n) && OrderOf(var2level, level2var, n) && Ranged(nodes, n)
    ensures |level2var| == n + 1
    ensures var g := Translated(nodes, level2var); Ordered(g, var2level) && Reduced(g) && Unique(g)
  {
    OrderIsOrder(var2level, level2var, n);
    var g := Translated(nodes, level2var);
    forall i | Live(g, i) ensures NodeOk(g, var2level, i) && g[i].low != g[i].high {
      assert Live(nodes, i) && NodeOk(nodes, Levels(n), i);
      TranslatedEdge(nodes, n, var2level, level2var, i, nodes[i].low);
      TranslatedEdge(nodes, n, var2level, level2var, i, nodes[i].high);
    }
    forall i, j | Live(g, i) && Live(g, j) && SameTriple(g[i], g[j]) ensures i == j {
      assert Live(nodes, i) && Live(nodes, j);
      assert nodes[i].level == var2level[g[i].level] && nodes[j].level == var2level[g[j].level];
      assert SameTriple(nodes[i], nodes[j]);
    }
  }

  lemma TranslatedEdge(nodes: seq<BddNode>, n: nat, var2level: seq<nat>, level2var: seq<nat>, i: int, c: int)
    requires Ordered(nodes, Levels(n)) && OrderOf(var2level, level2var, n) && Ranged(nodes, n) && |level2var| == n + 1 && level2var[n] == n
    requires 2 <= i < |nodes| && EdgeOk(nodes, Levels(n), i, c) && nodes[i].level < n
    ensures EdgeOk(Translated(nodes, level2var), var2level, i, c)
  {
    assert Live(nodes, c) ==> NodeOk(nodes, Levels(n), c);
    var g := Translated(nodes, level2var);
    assert Ref(g, c);
    assert var2level[g[i].level] == nodes[i].level && var2level[g[c].level] == nodes[c].level;
  }

  /** By variable every diagram says what it said by level. */
  lemma {:induction false} TranslatedEval(nodes: seq<BddNode>, n: nat, var2level: seq<nat>, level2var: seq<nat>, i: int, env: Env)
    requires Ordered(nodes, Levels(n)) && |level2var| == n + 1 && Ranged(nodes, n)
    requires Ordered(Translated(nodes, level2var), var2level) && Ref(nodes, i)
    ensures Ref(Translated(nodes, level2var), i)
    ensures Eval(Translated(nodes, level2var), var2level, i, env) == Eval(nodes, Levels(n), i, ByLevel(level2var, env))
    decreases n + 1 - Pos(nodes, Levels(n), i)
  {
    var g := Translated(nodes, level2var);
    if i >= 2 {
      assert NodeOk(nodes, Levels(n), i) && NodeOk(g, var2level, i);
      TranslatedEval(nodes, n, var2level, level2var, nodes[i].low, env);
      TranslatedEval(nodes, n, var2level, level2var, nodes[i].high, env);
      assert g[i].level == level2var[nodes[i].level];
    }
  }

  lemma {:induction false} TranslatedReach(nodes: seq<BddNode>, n: nat, var2level: seq<nat>, level2var: seq<nat>, i: int)
    requires Ordered(nodes, Levels(n)) && |level2var| == n + 1 && Ranged(nodes, n)
    requires Ordered(Translated(nodes, level2var), var2level) && Ref(nodes, i)
    ensures Ref(Translated(nodes, level2var), i)
    ensures Reach(Translated(nodes, level2var), var2level, i) == Reach(nodes, Levels(n), i)
    decreases n + 1 - Pos(nodes, Levels(n), i)
  {
    var g := Translated(nodes, level2var);
    if i >= 2 {
      assert NodeOk(nodes, Levels(n), i) && NodeOk(g, var2level, i);
      TranslatedReach(nodes, n, var2level, level2var, nodes[i].low);
      TranslatedReach(nodes, n, var2level, level2var, nodes[i].high);
    }
  }

  // ---- counting ---------------------------------------------------------------------

  /** The table g with the nodes of M marked; counts and links are not described. */
  ghost predicate Shape(g: seq<BddNode>, nodes: seq<BddNode>, M: set<int>) {
    |nodes| == |g| && forall i :: 0 <= i < |g| ==> ShapeAt(g, nodes, M, i)
  }

  ghost predicate ShapeAt(g: seq<BddNode>, nodes: seq<BddNode>, M: set<int>, i: int)
    requires 0 <= i < |g| == |nodes|
  {
    nodes[i].low == g[i].low && nodes[i].high == g[i].high && nodes[i].level == g[i].level + if i in M then MARKON else 0
  }

  /** Only the nodes of X, with their edges. */
  ghost function Only(g: seq<BddNode>, X: set<int>): (r: seq<BddNode>)
    ensures |r| == |g| && forall i :: 0 <= i < |g| ==> r[i] == if i in X || i < 2 then g[i] else g[i].(low := -1)
  {
    seq(|g|, i requires 0 <= i < |g| => if i in X || i < 2 then g[i] else g[i].(low := -1))
  }

  /** The edges into m from the nodes of X. */
  ghost function Parents(g: seq<BddNode>, X: set<int>, m: int): nat { InDegree(Only(g, X), m) }

  /** A sum of references as a count. */
  function Saturated(n: nat): (c: nat) { if n < MAXREF then n else MAXREF }

  /** The count of m is its references in e and its parents in X. */
  ghost predicate CountFor(g: seq<BddNode>, nodes: seq<BddNode>, e: seq<nat>, X: set<int>, m: int)
    requires 0 <= m < |nodes| == |e|
  {
    nodes[m].refcount == Saturated(e[m] + Parents(g, X, m))
  }

  /** The nodes of X have been expanded: their edges are counted. */
  ghost predicate Counting(g: seq<BddNode>, nodes: seq<BddNode>, e: seq<nat>, X: set<int>) {
    && 2 <= |g| == |nodes| == |e| && nodes[0].refcount == nodes[1].refcount == MAXREF
    && (forall i :: 2 <= i < |g| && g[i].low == -1 ==> nodes[i].refcount == 0 && e[i] == 0)
    && (forall i :: i in X ==> Live(g, i) && nodes[i].refcount > 0)
    && (forall i :: Live(g, i) && nodes[i].refcount > 0 && g[i].refcount == 0 ==> i in X)
    && (forall i :: Live(g, i) && g[i].refcount > 0 ==> nodes[i].refcount > 0)
    && Counts(g, nodes, e, X)
  }

  ghost predicate Counts(g: seq<BddNode>, nodes: seq<BddNode>, e: seq<nat>, X: set<int>) {
    |g| == |nodes| == |e| && forall m :: Live(g, m) ==> CountFor(g, nodes, e, X, m)
  }

  /** One more node expanded: its two edges are parents now. */
  lemma ParentsMore(g: seq<BddNode>, X: set<int>, r: int, m: int)
    requires Live(g, r) && r !in X && m >= 2
    ensures Parents(g, X + {r}, m) == Parents(g, X, m) + (if g[r].low == m then 1 else 0) + (if g[r].high == m then 1 else 0)
  {
    assert Only(g, X + {r}) == Only(g, X)[r := g[r]];
    InDegreeUpdate(Only(g, X), r, g[r], m);
  }

  /** INCREF of r, one more reference held by the running operation. */
  lemma CountingInc(g: seq<BddNode>, nodes: seq<BddNode>, e: seq<nat>, X: set<int>, r: int)
    requires Counting(g, nodes, e, X) && Ref(g, r) && (r >= 2 ==> r in X || g[r].refcount > 0)
    ensures Counting(g, IncRef(nodes, r), Bump(e, r), X)
  {
    hide Counts;
    if r >= 2 {
      CountsInc(g, nodes, e, X, r);
    } else {
      CountsTerminal(g, nodes, e, X, r);
    }
  }

  lemma CountsTerminal(g: seq<BddNode>, nodes: seq<BddNode>, e: seq<nat>, X: set<int>, r: int)
    requires Counts(g, nodes, e, X) && 0 <= r < 2 <= |g|
    ensures Counts(g, IncRef(nodes, r), e, X)
  {
    hide Parents;
    forall m | Live(g, m) ensures CountFor(g, IncRef(nodes, r), e, X, m) {
      assert CountFor(g, nodes, e, X, m);
    }
  }

  /** r has been expanded: the two references of the running operation are its edges. */
  lemma CountingExpand(g: seq<BddNode>, nodes: seq<BddNode>, e: seq<nat>, X: set<int>, r: int)
    requires Live(g, r) && r !in X && 0 <= g[r].low < |e| && 0 <= g[r].high < |e|
    requires Counts(g, nodes, Bump(Bump(e, g[r].low), g[r].high), X)
    ensures Counts(g, nodes, e, X + {r})
  {
    hide Parents;
    forall m | Live(g, m) ensures CountFor(g, nodes, e, X + {r}, m) {
      ParentsMore(g, X, r, m);
      assert CountFor(g, nodes, Bump(Bump(e, g[r].low), g[r].high), X, m);
    }
  }

  /** The end of the first visit to r. */
  lemma CountingVisit(g: seq<BddNode>, nodes: seq<BddNode>, e: seq<nat>, X: set<int>, r: int)
    requires Live(g, r) && r !in X && 0 <= g[r].low < |e| && 0 <= g[r].high < |e| && |e| == |g|
    requires Counting(g, nodes, Bump(Bump(e, g[r].low), g[r].high), X) && nodes[r].refcount == 0
    ensures Counting(g, IncRef(nodes, r), Bump(e, r), X + {r})
  {
    hide Counts;
    CountingExpand(g, nodes, e, X, r);
    CountsInc(g, nodes, e, X + {r}, r);
  }

  lemma CountsInc(g: seq<BddNode>, nodes: seq<BddNode>, e: seq<nat>, X: set<int>, r: int)
    requires Counts(g, nodes, e, X) && 2 <= r < |g|
    ensures Counts(g, IncRef(nodes, r), Bump(e, r), X)
  {
    hide Parents;
    forall m | Live(g, m) ensures CountFor(g, IncRef(nodes, r), Bump(e, r), X, m) {
      assert CountFor(g, nodes, e, X, m);
    }
  }

  /** The end of the loop round for a root r. */
  lemma CountingRoot(g: seq<BddNode>, nodes: seq<BddNode>, e: seq<nat>, X: set<int>, r: int)
    requires Live(g, r) && r !in X && 0 <= g[r].low < |e| && 0 <= g[r].high < |e| && |e| == |g|
    requires Counting(g, nodes, Bump(Bump(e, g[r].low), g[r].high), X) && nodes[r].refcount > 0
    ensures Counting(g, nodes, e, X + {r})
  {
    hide Counts;
    CountingExpand(g, nodes, e, X, r);
  }

  ghost function OfVar(g: seq<BddNode>, D: set<int>, v: nat): set<int> {
    set i | i in D && 2 <= i < |g| && g[i].level == v
  }

  /** The numbers per variable have grown by the nodes of D. */
  ghost predicate NumGrown(levels: seq<LevelData>, levels': seq<LevelData>, g: seq<BddNode>, D: set<int>) {
    |levels'| == |levels| && forall v :: 0 <= v < |levels| ==> levels'[v] == levels[v].(nodenum := levels[v].nodenum + |OfVar(g, D, v)|)
  }

  lemma NumSame(levels: seq<LevelData>, g: seq<BddNode>)
    ensures NumGrown(levels, levels, g, {})
  {
    forall v: nat ensures OfVar(g, {}, v) == {} {
    }
  }

  lemma NumAdd(l0: seq<LevelData>, l1: seq<LevelData>, l2: seq<LevelData>, g: seq<BddNode>, A: set<int>, B: set<int>)
    requires NumGrown(l0, l1, g, A) && NumGrown(l1, l2, g, B) && A !! B
    ensures NumGrown(l0, l2, g, A + B)
  {
    forall v | 0 <= v < |l0| ensures |OfVar(g, A + B, v)| == |OfVar(g, A, v)| + |OfVar(g, B, v)| {
      assert OfVar(g, A + B, v) == OfVar(g, A, v) + OfVar(g, B, v);
    }
  }

  lemma NumOne(levels: seq<LevelData>, g: seq<BddNode>, r: int)
    requires 2 <= r < |g| && g[r].level < |levels|
    ensures NumGrown(levels, levels[g[r].level := levels[g[r].level].(nodenum := levels[g[r].level].nodenum + 1)], g, {r})
  {
    forall v: nat ensures OfVar(g, {r}, v) == if v == g[r].level then {r} else {} {
    }
  }

  /** The first visit to r and the visits below it. */
  lemma NumVisit(l0: seq<LevelData>, l1: seq<LevelData>, l2: seq<LevelData>, l3: seq<LevelData>, g: seq<BddNode>, r: int,
                 X: set<int>, X1: set<int>, X2: set<int>)
    requires NumGrown(l0, l1, g, {r}) && NumGrown(l1, l2, g, X1 - X) && NumGrown(l2, l3, g, X2 - X1)
    requires X <= X1 <= X2 && r !in X2
    ensures NumGrown(l0, l3, g, X2 + {r} - X)
  {
    NumAdd(l0, l1, l2, g, {r}, X1 - X);
    NumAdd(l0, l2, l3, g, {r} + (X1 - X), X2 - X1);
    assert {r} + (X1 - X) + (X2 - X1) == X2 + {r} - X;
  }

  /** The diagrams below r do not contain r. */
  lemma NotBelowItself(g: seq<BddNode>, lev: seq<nat>, r: int)
    requires Ordered(g, lev) && Live(g, r)
    ensures Ref(g, g[r].low) && Ref(g, g[r].high) && Pos(g, lev, g[r].low) > Pos(g, lev, r) && Pos(g, lev, g[r].high) > Pos(g, lev, r)
    ensures r !in Reach(g, lev, g[r].low) && r !in Reach(g, lev, g[r].high)
    ensures Reach(g, lev, r) == {r} + Reach(g, lev, g[r].low) + Reach(g, lev, g[r].high)
    ensures g[r].level < |lev| - 1
  {
    assert NodeOk(g, lev, r);
    if r in Reach(g, lev, g[r].low) { ReachBelow(g, lev, g[r].low, r); }
    if r in Reach(g, lev, g[r].high) { ReachBelow(g, lev, g[r].high, r); }
  }

  lemma ShapeFields(g: seq<BddNode>, nodes: seq<BddNode>, M: set<int>, r: int)
    requires Shape(g, nodes, M) && 0 <= r < |g| && g[r].level < MARKON
    ensures |nodes| == |g| && nodes[r].low == g[r].low && nodes[r].high == g[r].high && UnMark(nodes[r].level) == g[r].level
  {
    assert ShapeAt(g, nodes, M, r);
  }

  lemma ShapeInc(g: seq<BddNode>, nodes: seq<BddNode>, M: set<int>, r: int)
    requires Shape(g, nodes, M) && 0 <= r < |g|
    ensures |nodes| == |g| && Shape(g, IncRef(nodes, r), M)
  {
    forall i | 0 <= i < |g| ensures ShapeAt(g, IncRef(nodes, r), M, i) {
      assert ShapeAt(g, nodes, M, i);
    }
  }

  /** A node that is not counted yet has not been expanded and is no root. */
  lemma Uncounted(g: seq<BddNode>, nodes: seq<BddNode>, e: seq<nat>, X: set<int>, r: int)
    requires Counting(g, nodes, e, X) && Live(g, r)
    ensures |nodes| == |g| == |e|
    ensures nodes[r].refcount == 0 ==> g[r].refcount == 0 && r !in X
    ensures nodes[r].refcount > 0 ==> r in X || g[r].refcount > 0
    ensures r in X ==> nodes[r].refcount > 0
  {
    hide Counts;
  }

  lemma CountingSizes(g: seq<BddNode>, nodes: seq<BddNode>, e: seq<nat>, X: set<int>)
    requires Counting(g, nodes, e, X)
    ensures 2 <= |g| == |nodes| == |e|
  {
  }

  lemma TerminalBump(g: seq<BddNode>, nodes: seq<BddNode>, e: seq<nat>, X: set<int>, r: int)
    requires Counting(g, nodes, e, X) && 0 <= r < 2
    ensures r < |e| && Counting(g, nodes, Bump(e, r), X)
  {
  }

  /** A node visited before. */
  lemma CountingAgain(g: seq<BddNode>, nodes: seq<BddNode>, e: seq<nat>, X: set<int>, r: int)
    requires Counting(g, nodes, e, X) && Live(g, r) && nodes[r].refcount > 0
    ensures Counting(g, IncRef(nodes, r), Bump(e, r), X)
  {
    hide Counting;
    Uncounted(g, nodes, e, X, r);
    CountingInc(g, nodes, e, X, r);
  }

  /** What the visits below r leave: r is still uncounted. */
  lemma StillUncounted(g: seq<BddNode>, lev: seq<nat>, nodes: seq<BddNode>, e: seq<nat>, X: set<int>, X1: set<int>, X2: set<int>, r: int)
    requires Ordered(g, lev) && Live(g, r) && Ref(g, g[r].low) && Ref(g, g[r].high) && g[r].refcount == 0 && r !in X && X <= X1 <= X2
    requires X1 - X <= Reach(g, lev, g[r].low) && X2 - X1 <= Reach(g, lev, g[r].high) && Counting(g, nodes, e, X2)
    ensures r !in X2 && r < |nodes| && nodes[r].refcount == 0 && X2 + {r} - X <= Reach(g, lev, r)
  {
    hide Counts, Reach;
    NotBelowItself(g, lev, r);
  }

  lemma RangeOf(g: seq<BddNode>, n: nat, r: int)
    requires Ranged(g, n) && 0 <= r < |g| && n <= MAXVAR
    ensures g[r].level < MARKON
  {
  }

  lemma SameLength(levels: seq<LevelData>, levels': seq<LevelData>, g: seq<BddNode>, D: set<int>)
    requires NumGrown(levels, levels', g, D)
    ensures |levels'| == |levels|
  {
  }

  lemma PosRange(g: seq<BddNode>, lev: seq<nat>, r: int)
    requires Ordered(g, lev) && Ref(g, r)
    ensures Pos(g, lev, r) < |lev|
  {
  }

  // ---- the roots --------------------------------------------------------------------

  /** The nodes with a positive count, from n on. */
  ghost function Roots(g: seq<BddNode>, n: nat): set<int> {
    set i | 2 <= i < |g| && n <= i && g[i].refcount > 0
  }

  /** The references from outside at the start of the session. */
  function Outside(g: seq<BddNode>): (e: seq<nat>)
    ensures |e| == |g| && forall i :: 0 <= i < |g| ==> e[i] == g[i].refcount
  {
    seq(|g|, i requires 0 <= i < |g| => g[i].refcount)
  }

  /** The first n entries have been translated and marked. */
  ghost predicate TranslatedTo(n0: seq<BddNode>, g: seq<BddNode>, nodes: seq<BddNode>, n: nat) {
    && |nodes| == |g| == |n0|
    && (forall i :: 0 <= i < |g| ==> g[i].refcount == n0[i].refcount)
    && forall i :: 0 <= i < |g| ==>
         if i < n then nodes[i].refcount == g[i].refcount && ShapeAt(g, nodes, Roots(g, 0), i) else nodes[i] == n0[i]
  }

  lemma TranslateStart(nodes: seq<BddNode>, level2var: seq<nat>)
    requires forall i :: 2 <= i < |nodes| ==> nodes[i].level < |level2var|
    ensures |nodes| >= 2 ==> TranslatedTo(nodes, Translated(nodes, level2var), nodes, 2)
  {
  }

  lemma TranslateStep(n0: seq<BddNode>, level2var: seq<nat>, nodes: seq<BddNode>, nodes': seq<BddNode>, n: nat)
    requires forall i :: 2 <= i < |n0| ==> n0[i].level < |level2var|
    requires TranslatedTo(n0, Translated(n0, level2var), nodes, n) && 2 <= n < |n0| && level2var[n0[n].level] < MARKON
    requires var v := level2var[n0[n].level]; nodes' == nodes[n := nodes[n].(level := if n0[n].refcount > 0 then SetMark(v) else v)]
    ensures TranslatedTo(n0, Translated(n0, level2var), nodes', n + 1)
  {
  }

  lemma TranslateEnd(n0: seq<BddNode>, g: seq<BddNode>, nodes: seq<BddNode>)
    requires TranslatedTo(n0, g, nodes, |g|)
    ensures Shape(g, nodes, Roots(g, 0)) && |nodes| == |g| && forall i :: 0 <= i < |g| ==> nodes[i].refcount == g[i].refcount
  {
  }

  lemma CountingStart(g: seq<BddNode>, nodes: seq<BddNode>)
    requires 2 <= |g| == |nodes| && g[0].refcount == g[1].refcount == MAXREF
    requires g[0].low == g[0].high == 0 && g[1].low == g[1].high == 1
    requires forall i :: 2 <= i < |g| && g[i].low == -1 ==> g[i].refcount == 0
    requires forall i :: 0 <= i < |g| ==> nodes[i].refcount == g[i].refcount && g[i].refcount <= MAXREF
    ensures Counting(g, nodes, Outside(g), {})
  {
    forall m | Live(g, m) ensures CountFor(g, nodes, Outside(g), {}, m) {
      NoEdges(Only(g, {}), m);
    }
  }

  lemma {:induction false} NoEdges(nodes: seq<BddNode>, m: int)
    requires m >= 2 && forall i :: 2 <= i < |nodes| ==> nodes[i].low == -1
    requires (|nodes| > 0 ==> nodes[0].low == nodes[0].high == 0) && (|nodes| > 1 ==> nodes[1].low == nodes[1].high == 1)
    ensures InDegree(nodes, m) == 0
  {
    if nodes != [] {
      var f := nodes[..|nodes| - 1];
      NoEdges(f, m);
    }
  }

  /** The roots below n have been expanded, with everything reachable from them. */
  ghost predicate RootsTo(g: seq<BddNode>, lev: seq<nat>, nodes: seq<BddNode>, X: set<int>, n: nat)
    requires Ordered(g, lev)
  {
    && Counting(g, nodes, Outside(g), X) && X <= Protected(g, lev, [])
    && Shape(g, nodes, Roots(g, n))
    && (forall i :: i in X && g[i].refcount > 0 ==> i < n)
    && forall i :: 2 <= i < n && i < |g| && g[i].refcount > 0 ==> i in X
  }

  lemma CountedLive(g: seq<BddNode>, lev: seq<nat>, i: int)
    requires Ordered(g, lev) && 2 <= i < |g| && g[i].refcount > 0 && (g[i].low == -1 ==> g[i].refcount == 0)
    ensures Live(g, i) && Reach(g, lev, i) <= Protected(g, lev, [])
  {
    assert IsRoot(g, [], i);
    RootProtects(g, lev, [], i);
  }

  lemma RootsStart(g: seq<BddNode>, lev: seq<nat>, nodes: seq<BddNode>)
    requires Ordered(g, lev) && Counting(g, nodes, Outside(g), {}) && Shape(g, nodes, Roots(g, 0))
    ensures RootsTo(g, lev, nodes, {}, 2)
  {
    assert Roots(g, 0) == Roots(g, 2);
  }

  lemma IsMarkedRoot(g: seq<BddNode>, nodes: seq<BddNode>, n: nat)
    requires Shape(g, nodes, Roots(g, n)) && 2 <= n < |g| && g[n].level < MARKON
    ensures |nodes| == |g| && (Marked(nodes[n].level) <==> g[n].refcount > 0)
    ensures Shape(g, nodes[n := nodes[n].(level := UnMark(nodes[n].level))], Roots(g, n + 1))
    ensures UnMark(nodes[n].level) == g[n].level
  {
    assert ShapeAt(g, nodes, Roots(g, n), n);
    var nodes' := nodes[n := nodes[n].(level := UnMark(nodes[n].level))];
    var K := Roots(g, n + 1);
    forall i | 0 <= i < |g| ensures ShapeAt(g, nodes', K, i) {
      assert ShapeAt(g, nodes, Roots(g, n), i);
    }
  }

  lemma NoRootHere(g: seq<BddNode>, lev: seq<nat>, nodes: seq<BddNode>, X: set<int>, n: nat)
    requires Ordered(g, lev) && RootsTo(g, lev, nodes, X, n) && 2 <= n < |g| && g[n].refcount == 0
    ensures RootsTo(g, lev, nodes, X, n + 1)
  {
    hide Counting, Protected;
    assert Roots(g, n) == Roots(g, n + 1);
  }

  /** Only marks and hash fields differ: counting goes on as before. */
  lemma CountingKept(g: seq<BddNode>, nodes: seq<BddNode>, nodes': seq<BddNode>, e: seq<nat>, X: set<int>)
    requires Counting(g, nodes, e, X) && |nodes'| == |nodes| && forall i :: 0 <= i < |nodes| ==> nodes'[i].refcount == nodes[i].refcount
    ensures Counting(g, nodes', e, X)
  {
    forall m | Live(g, m) ensures CountFor(g, nodes', e, X, m) {
      assert CountFor(g, nodes, e, X, m);
    }
  }

  lemma RootDone(g: seq<BddNode>, lev: seq<nat>, nodes: seq<BddNode>, X: set<int>, X1: set<int>, X2: set<int>, n: nat, nodes0: seq<BddNode>)
    requires Ordered(g, lev) && RootsTo(g, lev, nodes0, X, n) && Live(g, n) && g[n].refcount > 0 && X <= X1 <= X2
    requires Ref(g, g[n].low) && Ref(g, g[n].high)
    requires X1 - X <= Reach(g, lev, g[n].low) && X2 - X1 <= Reach(g, lev, g[n].high)
    requires forall i :: i in X1 - X ==> 0 <= i < |g| && g[i].refcount == 0
    requires forall i :: i in X2 - X1 ==> 0 <= i < |g| && g[i].refcount == 0
    requires Counting(g, nodes, Bump(Bump(Outside(g), g[n].low), g[n].high), X2) && Shape(g, nodes, Roots(g, n + 1))
    ensures RootsTo(g, lev, nodes, X2 + {n}, n + 1) && n !in X2
  {
    hide Counts, Protected, Reach, Shape;
    NotBelowItself(g, lev, n);
    CountedLive(g, lev, n);
    assert n !in X2 by {
      assert n !in X;
    }
    RootExpanded(g, nodes, X2, n);
  }

  lemma RootExpanded(g: seq<BddNode>, nodes: seq<BddNode>, X: set<int>, n: nat)
    requires Live(g, n) && n !in X && 0 <= g[n].low < |g| && 0 <= g[n].high < |g| && g[n].refcount > 0
    requires Counting(g, nodes, Bump(Bump(Outside(g), g[n].low), g[n].high), X)
    ensures Counting(g, nodes, Outside(g), X + {n})
  {
    CountingRoot(g, nodes, Outside(g), X, n);
  }

  // ---- the interaction matrix -------------------------------------------------------

  /** The matrix and the counts are what the roots below n have made of them. */
  ghost predicate Depended(g: seq<BddNode>, lev: seq<nat>, n: nat, nodes: seq<BddNode>, iact: seq<seq<bool>>)
    requires Ordered(g, lev) && CountedAreLive(g) && 2 <= n <= |g|
  {
    CountedNodes(nodes) == RootsBelow(g, lev, n).counted && MatrixIs(iact, |lev| - 1, RootsBelow(g, lev, n).related)
  }

  lemma LevelIn(g: seq<BddNode>, lev: seq<nat>, r: int)
    requires Ordered(g, lev) && Live(g, r)
    ensures g[r].level < |lev| - 1
  {
    assert NodeOk(g, lev, r);
  }

  lemma CountedMore(nodes: seq<BddNode>, r: int)
    requires 2 <= r < |nodes|
    ensures CountedNodes(IncRef(nodes, r)) == CountedNodes(nodes) + {r}
    ensures r in CountedNodes(nodes) <==> nodes[r].refcount > 0
  {
  }

  lemma CountedSame(nodes: seq<BddNode>, nodes': seq<BddNode>)
    requires |nodes'| == |nodes| && forall i :: 0 <= i < |nodes| ==> nodes'[i].refcount == nodes[i].refcount
    ensures CountedNodes(nodes') == CountedNodes(nodes)
  {
  }

  lemma MarkedDep(dep: seq<bool>, v: nat)
    requires v < |dep|
    ensures DepSet(dep[v := true]) == DepSet(dep) + {v}
  {
  }

  lemma ExpandLeaf(g: seq<BddNode>, lev: seq<nat>, R: Relation, s: Progress, r: int)
    requires Ordered(g, lev) && Ref(g, r)
    ensures r < 2 ==> Expand(g, lev, R, s, r) == s
    ensures r >= 2 && r in s.counted ==> Expand(g, lev, R, s, r) == s.(dep := s.dep + Row(R, g[r].level))
  {
  }

  lemma ExpandStep(g: seq<BddNode>, lev: seq<nat>, R: Relation, h0: seq<BddNode>, h1: seq<BddNode>, h2: seq<BddNode>,
                   d: set<nat>, d1: set<nat>, d2: set<nat>, d3: set<nat>, r: int)
    requires Ordered(g, lev) && Live(g, r) && Ref(g, g[r].low) && Ref(g, g[r].high) && r < |h2| && r !in CountedNodes(h0)
    requires d1 == d + {g[r].level}
    requires Expand(g, lev, R, Progress(CountedNodes(h0), d1), g[r].low) == Progress(CountedNodes(h1), d2)
    requires Expand(g, lev, R, Progress(CountedNodes(h1), d2), g[r].high) == Progress(CountedNodes(h2), d3)
    ensures Expand(g, lev, R, Progress(CountedNodes(h0), d), r) == Progress(CountedNodes(IncRef(h2, r)), d3)
  {
    CountedMore(h2, r);
  }

  lemma NotDepended(g: seq<BddNode>, lev: seq<nat>, n: nat, nodes: seq<BddNode>, iact: seq<seq<bool>>)
    requires Ordered(g, lev) && CountedAreLive(g) && 2 <= n < |g| && Depended(g, lev, n, nodes, iact) && g[n].refcount == 0
    ensures Depended(g, lev, n + 1, nodes, iact)
  {
    hide MatrixIs;
  }

  lemma DependedMatrix(g: seq<BddNode>, lev: seq<nat>, n: nat, nodes: seq<BddNode>, iact: seq<seq<bool>>, nodes': seq<BddNode>)
    requires Ordered(g, lev) && CountedAreLive(g) && 2 <= n <= |g| && Depended(g, lev, n, nodes, iact)
    requires |nodes'| == |nodes| && forall i :: 0 <= i < |nodes| ==> nodes'[i].refcount == nodes[i].refcount
    ensures MatrixIs(iact, |lev| - 1, RootsBelow(g, lev, n).related) && CountedNodes(nodes') == RootsBelow(g, lev, n).counted
  {
    CountedSame(nodes, nodes');
  }

  lemma DependedKept(g: seq<BddNode>, lev: seq<nat>, n: nat, nodes: seq<BddNode>, nodes': seq<BddNode>, iact: seq<seq<bool>>)
    requires Ordered(g, lev) && CountedAreLive(g) && 2 <= n <= |g| && Depended(g, lev, n, nodes, iact)
    requires |nodes'| == |nodes| && forall i :: 0 <= i < |nodes| ==> nodes'[i].refcount == nodes[i].refcount
    ensures Depended(g, lev, n, nodes', iact)
  {
    CountedSame(nodes, nodes');
  }

  lemma DependedRoot(g: seq<BddNode>, lev: seq<nat>, n: nat, h1: seq<BddNode>, h2: seq<BddNode>, h3: seq<BddNode>,
                     d1: set<nat>, d2: set<nat>, d3: set<nat>, iact: seq<seq<bool>>)
    requires Ordered(g, lev) && CountedAreLive(g) && 2 <= n < |g| && g[n].refcount > 0 && Live(g, n) && Ref(g, g[n].low) && Ref(g, g[n].high)
    requires var k := RootsBelow(g, lev, n);
             && CountedNodes(h1) == k.counted && d1 == {g[n].level}
             && Expand(g, lev, k.related, Progress(CountedNodes(h1), d1), g[n].low) == Progress(CountedNodes(h2), d2)
             && Expand(g, lev, k.related, Progress(CountedNodes(h2), d2), g[n].high) == Progress(CountedNodes(h3), d3)
             && MatrixIs(iact, |lev| - 1, k.related + AllPairs(d3))
    ensures Depended(g, lev, n + 1, h3, iact)
  {
    hide MatrixIs, Expand;
  }

  lemma NothingDepended(n0: seq<BddNode>, g: seq<BddNode>, lev: seq<nat>, nodes: seq<BddNode>, iact: seq<seq<bool>>)
    requires Ordered(g, lev) && CountedAreLive(g) && TranslatedTo(n0, g, nodes, |g|)
    requires |iact| == |lev| - 1 && forall v :: 0 <= v < |iact| ==> |iact[v]| == |lev| - 1 && forall u :: 0 <= u < |iact[v]| ==> !iact[v][u]
    ensures Depended(g, lev, 2, nodes, iact)
  {
    CountedSame(g, nodes);
  }

  lemma DependedFound(g: seq<BddNode>, lev: seq<nat>, nodes: seq<BddNode>, iact: seq<seq<bool>>)
    requires Ordered(g, lev) && CountedAreLive(g) && Depended(g, lev, |g|, nodes, iact)
    ensures MatrixIs(iact, |lev| - 1, Found(g, lev))
  {
  }

  /** Expanded are exactly the nodes reachable from a root. */
  lemma RootsEnd(g: seq<BddNode>, lev: seq<nat>, nodes: seq<BddNode>, X: set<int>)
    requires Ordered(g, lev) && RootsTo(g, lev, nodes, X, |g|) && forall i :: 2 <= i < |g| && g[i].low == -1 ==> g[i].refcount == 0
    ensures X == Protected(g, lev, []) && ClosedSet(g, X)
  {
    forall i | i in X ensures ClosedAt(g, X, i) {
      assert NodeOk(g, lev, i);
      if g[i].low >= 2 { ChildCounted(g, nodes, X, i, g[i].low); }
      if g[i].high >= 2 { ChildCounted(g, nodes, X, i, g[i].high); }
    }
    forall i | i in Protected(g, lev, []) ensures i in X {
      var r :| IsRoot(g, [], r) && i in Reach(g, lev, r);
      ClosedReach(g, lev, X, r);
    }
  }

  /** A child of an expanded node is counted, hence expanded. */
  lemma ChildCounted(g: seq<BddNode>, nodes: seq<BddNode>, X: set<int>, i: int, c: int)
    requires Counting(g, nodes, Outside(g), X) && i in X && Live(g, c) && (g[i].low == c || g[i].high == c)
    ensures |nodes| == |g| && nodes[c].refcount > 0 && (g[c].refcount > 0 || c in X)
  {
    EdgeCounts(Only(g, X), i, c);
    assert CountFor(g, nodes, Outside(g), X, c);
  }

  lemma RootTable(nodes: seq<BddNode>, n: nat, var2level: seq<nat>, level2var: seq<nat>)
    requires Graph(nodes, n) && OrderOf(var2level, level2var, n) && Ranged(nodes, n)
    ensures |level2var| == |var2level| == n + 1 && n <= MAXVAR < MARKON && 3 <= |nodes|
    ensures forall i :: 0 <= i < |nodes| ==> nodes[i].level < |level2var| && level2var[nodes[i].level] <= n
    ensures var g := Translated(nodes, level2var);
            && Ordered(g, var2level) && Reduced(g) && Unique(g) && Ranged(g, n)
            && CountedAreLive(g) && forall i :: 2 <= i < |g| && g[i].low == -1 ==> g[i].refcount == 0
  {
    hide Ordered, Reduced, Unique;
    OrderIsOrder(var2level, level2var, n);
    TranslatedOrdered(nodes, n, var2level, level2var);
  }

  /** After the first loop. */
  lemma CountingBegins(nodes0: seq<BddNode>, n: nat, var2level: seq<nat>, level2var: seq<nat>, nodes: seq<BddNode>)
    requires Graph(nodes0, n) && OrderOf(var2level, level2var, n) && Ranged(nodes0, n) && |level2var| == n + 1
    requires var g := Translated(nodes0, level2var); Ordered(g, var2level) && TranslatedTo(nodes0, g, nodes, |g|)
    ensures RootsTo(Translated(nodes0, level2var), var2level, nodes, {}, 2)
  {
    var g := Translated(nodes0, level2var);
    TranslateEnd(nodes0, g, nodes);
    CountingStart(g, nodes);
    RootsStart(g, var2level, nodes);
  }

  lemma TranslatedNext(n0: seq<BddNode>, g: seq<BddNode>, nodes: seq<BddNode>, k: nat)
    requires TranslatedTo(n0, g, nodes, k) && k < |g|
    ensures |nodes| == |n0| == |g| && nodes[k] == n0[k]
  {
  }

  lemma HashesKept(nodes: seq<BddNode>, r: int)
    requires 0 <= r < |nodes|
    ensures SameHashes(nodes, nodes) && SameHashes(nodes, IncRef(nodes, r)) && forall v :: SameHashes(nodes, nodes[r := nodes[r].(level := v)])
  {
  }

  lemma HashesChain(a: seq<BddNode>, b: seq<BddNode>, c: seq<BddNode>)
    requires SameHashes(a, b) && SameHashes(b, c)
    ensures SameHashes(a, c)
  {
  }

  ghost predicate ClearedTo(nodes: seq<BddNode>, n: nat) {
    forall i :: 2 <= i < n && i < |nodes| ==> nodes[i].hash == 0
  }

  lemma ClearedNext(nodes: seq<BddNode>, nodes': seq<BddNode>, n: nat)
    requires ClearedTo(nodes, n) && SameHashes(nodes, nodes') && 2 <= n < |nodes|
    ensures |nodes'| == |nodes| && ClearedTo(nodes'[n := nodes'[n].(hash := 0)], n + 1)
  {
  }

  /** Clearing hash fields does not touch shape and counts. */
  lemma RootsKept(g: seq<BddNode>, lev: seq<nat>, nodes: seq<BddNode>, nodes': seq<BddNode>, X: set<int>, n: nat)
    requires Ordered(g, lev) && RootsTo(g, lev, nodes, X, n) && |nodes'| == |nodes|
    requires forall i :: 0 <= i < |nodes| ==> SameTriple(nodes'[i], nodes[i]) && nodes'[i].refcount == nodes[i].refcount
    ensures RootsTo(g, lev, nodes', X, n)
  {
    CountingKept(g, nodes, nodes', Outside(g), X);
    var K := Roots(g, n);
    forall i | 0 <= i < |g| ensures ShapeAt(g, nodes', K, i) {
      assert ShapeAt(g, nodes, K, i);
    }
  }

  ghost predicate ListedTo(g: seq<BddNode>, extroots: seq<nat>, n: nat) {
    forall i: nat :: i in extroots <==> 2 <= i < n && i < |g| && g[i].refcount > 0
  }

  lemma ListedNext(g: seq<BddNode>, extroots: seq<nat>, n: nat)
    requires ListedTo(g, extroots, n) && 2 <= n < |g|
    ensures ListedTo(g, if g[n].refcount > 0 then extroots + [n] else extroots, n + 1)
  {
  }

  lemma NothingListed(g: seq<BddNode>)
    ensures ListedTo(g, [], 2)
  {
  }

  lemma NumLater(l0: seq<LevelData>, l1: seq<LevelData>, l2: seq<LevelData>, g: seq<BddNode>, X: set<int>, X': set<int>)
    requires NumGrown(l0, l1, g, X) && NumGrown(l1, l2, g, X' - X) && X <= X'
    ensures NumGrown(l0, l2, g, X') && |l2| == |l1| == |l0|
  {
    NumAdd(l0, l1, l2, g, X, X' - X);
    assert X + (X' - X) == X';
  }

  // ---- the initial collection -------------------------------------------------------

  /** The entries from n on have been swept: the uncounted ones are free. */
  ghost predicate SweptFrom(c: seq<BddNode>, nodes: seq<BddNode>, n: nat) {
    |nodes| == |c| && forall i :: 0 <= i < |c| ==>
      && nodes[i].refcount == c[i].refcount && nodes[i].high == c[i].high && nodes[i].level == c[i].level
      && nodes[i].low == if i >= n && c[i].refcount == 0 then -1 else c[i].low
  }

  ghost function Dead(c: seq<BddNode>, n: nat): set<int> {
    set i | 2 <= i < |c| && n <= i && c[i].refcount == 0
  }

  lemma SweptStart(c: seq<BddNode>)
    ensures SweptFrom(c, c, |c|) && Dead(c, |c|) == {}
  {
  }

  lemma SweptNext(c: seq<BddNode>, nodes: seq<BddNode>, nodes': seq<BddNode>, n: nat)
    requires SweptFrom(c, nodes, n + 1) && 2 <= n < |c|
    requires SameCore(if c[n].refcount == 0 then nodes[n := nodes[n].(low := -1)] else nodes, nodes')
    ensures SweptFrom(c, nodes', n) && |Dead(c, n)| == |Dead(c, n + 1)| + if c[n].refcount == 0 then 1 else 0
  {
    var was := if c[n].refcount == 0 then nodes[n := nodes[n].(low := -1)] else nodes;
    forall i | 0 <= i < |c| ensures SameTriple(nodes'[i], was[i]) && nodes'[i].refcount == was[i].refcount {
    }
    assert Dead(c, n) == if c[n].refcount == 0 then Dead(c, n + 1) + {n} else Dead(c, n + 1);
  }

  /** Making an entry free that is in no list yet. */
  lemma FreedEntry(c: seq<BddNode>, nodes: seq<BddNode>, L: Links, levels: seq<LevelData>, n: nat)
    requires Linked(nodes, L) && Rehashed(nodes, L, levels, n + 1) && 2 <= n < |nodes|
    ensures Linked(nodes[n := nodes[n].(low := -1)], L) && Rehashed(nodes[n := nodes[n].(low := -1)], L, levels, n + 1)
  {
    hide NodeHash;
    SameLinks(nodes, nodes[n := nodes[n].(low := -1)], L);
  }

  lemma SweptEntry(c: seq<BddNode>, nodes: seq<BddNode>, n: nat)
    requires SweptFrom(c, nodes, n + 1) && 2 <= n < |c|
    ensures |nodes| == |c| && nodes[n].low == c[n].low && nodes[n].level == c[n].level && nodes[n].refcount == c[n].refcount
  {
  }

  lemma FreeNumberIs(c: seq<BddNode>, nodes: seq<BddNode>, L: Links, levels: seq<LevelData>, freepos: nat, freenum: int)
    requires SweptFrom(c, nodes, 2) && Linked(nodes, L) && HeadOk(L, Free, freepos) && Rehashed(nodes, L, levels, 2)
    requires freenum == |Dead(c, 2)| && forall i :: 2 <= i < |c| && c[i].refcount > 0 ==> c[i].low != -1
    ensures FreeOk(L, freepos, freenum)
  {
    hide NodeHash, LinkAt;
    ListSize(nodes, L, Free, freepos);
    assert (set x | 2 <= x < |nodes| && L.owner[x] == Free) == Dead(c, 2);
  }

  // ---- the session begins -----------------------------------------------------------

  /** The nodes of X are as in g, the others are free. */
  ghost predicate KeptAs(g: seq<BddNode>, nodes: seq<BddNode>, X: set<int>) {
    && |nodes| == |g| >= 2
    && (forall i :: 0 <= i < |g| && (i < 2 || i in X) ==> SameTriple(nodes[i], g[i]))
    && forall i :: 2 <= i < |g| && i !in X ==> nodes[i].low == -1
  }

  lemma SweptKeeps(g: seq<BddNode>, lev: seq<nat>, c: seq<BddNode>, nodes: seq<BddNode>, X: set<int>)
    requires Ordered(g, lev) && RootsTo(g, lev, c, X, |g|) && SweptFrom(c, nodes, 2)
    requires forall i :: 2 <= i < |g| && g[i].low == -1 ==> g[i].refcount == 0
    ensures KeptAs(g, nodes, X) && (forall i :: 2 <= i < |g| ==> (nodes[i].refcount > 0 <==> i in X))
    ensures Counting(g, nodes, Outside(g), X)
  {
    CountingKept(g, c, nodes, Outside(g), X);
    var K := Roots(g, |g|);
    forall i | 0 <= i < |g| ensures c[i].low == g[i].low && c[i].high == g[i].high && c[i].level == g[i].level {
      assert ShapeAt(g, c, K, i);
    }
  }

  lemma KeptOrdered(g: seq<BddNode>, lev: seq<nat>, nodes: seq<BddNode>, X: set<int>)
    requires Ordered(g, lev) && Reduced(g) && Unique(g) && ClosedSet(g, X) && KeptAs(g, nodes, X)
    ensures Ordered(nodes, lev) && Reduced(nodes) && Unique(nodes)
  {
    forall i | Live(nodes, i) ensures NodeOk(nodes, lev, i) && nodes[i].low != nodes[i].high {
      assert ClosedAt(g, X, i) && NodeOk(g, lev, i);
      KeptEdge(g, lev, nodes, X, i, g[i].low);
      KeptEdge(g, lev, nodes, X, i, g[i].high);
    }
    forall i, j | Live(nodes, i) && Live(nodes, j) && SameTriple(nodes[i], nodes[j]) ensures i == j {
      assert ClosedAt(g, X, i) && ClosedAt(g, X, j);
    }
  }

  lemma KeptEdge(g: seq<BddNode>, lev: seq<nat>, nodes: seq<BddNode>, X: set<int>, i: int, c: int)
    requires ClosedSet(g, X) && KeptAs(g, nodes, X) && i in X && EdgeOk(g, lev, i, c) && (c < 2 || c in X) && Live(g, i)
    ensures EdgeOk(nodes, lev, i, c)
  {
    if c >= 2 { assert ClosedAt(g, X, c); }
  }

  lemma {:induction false} KeptEval(g: seq<BddNode>, lev: seq<nat>, nodes: seq<BddNode>, X: set<int>, i: int, env: Env)
    requires Ordered(g, lev) && Ordered(nodes, lev) && ClosedSet(g, X) && KeptAs(g, nodes, X) && (i == 0 || i == 1 || i in X)
    ensures Ref(g, i) && Ref(nodes, i) && Eval(nodes, lev, i, env) == Eval(g, lev, i, env) && Support(nodes, lev, i) == Support(g, lev, i)
    decreases if Ref(g, i) then |lev| - Pos(g, lev, i) else 0
  {
    if i >= 2 {
      assert ClosedAt(g, X, i) && Live(nodes, i);
      assert NodeOk(g, lev, i) && NodeOk(nodes, lev, i);
      KeptEval(g, lev, nodes, X, g[i].low, env);
      KeptEval(g, lev, nodes, X, g[i].high, env);
    }
  }

  lemma KeptConserved(g: seq<BddNode>, nodes: seq<BddNode>, X: set<int>)
    requires KeptAs(g, nodes, X) && Counting(g, nodes, Outside(g), X) && forall i :: 2 <= i < |g| ==> (nodes[i].refcount > 0 <==> i in X)
    requires g[0].low == g[0].high == 0 && g[1].low == g[1].high == 1
    ensures Conserved(nodes, Outside(g))
  {
    forall m | Live(nodes, m) ensures CountOk(nodes, Outside(g), m) {
      assert m in X && Live(g, m);
      assert CountFor(g, nodes, Outside(g), X, m);
      KeptParents(g, nodes, X, m);
    }
  }

  lemma {:induction false} SameDegree(a: seq<BddNode>, b: seq<BddNode>, m: int)
    requires |a| == |b| && forall i :: 0 <= i < |a| ==> a[i].low == b[i].low && (a[i].low != -1 ==> a[i].high == b[i].high)
    ensures InDegree(a, m) == InDegree(b, m)
  {
    if a != [] {
      SameDegree(a[..|a| - 1], b[..|b| - 1], m);
    }
  }

  /** What reorder_init makes of the counts: a root keeps its references from outside, and every node
      that is left gets one more for each parent that is left. */
  ghost predicate StartCounts(n0: seq<BddNode>, nodes: seq<BddNode>) {
    |nodes| == |n0| && forall i {:trigger Live(nodes, i)} :: Live(nodes, i) ==> nodes[i].refcount == Saturated(n0[i].refcount + InDegree(nodes, i))
  }

  lemma KeptStartCounts(n0: seq<BddNode>, g: seq<BddNode>, nodes: seq<BddNode>, X: set<int>)
    requires KeptAs(g, nodes, X) && Counting(g, nodes, Outside(g), X) && (forall i :: i in X ==> Live(g, i))
    requires |n0| == |g| && forall i :: 0 <= i < |g| ==> g[i].refcount == n0[i].refcount
    requires g[0].low == g[0].high == 0 && g[1].low == g[1].high == 1
    ensures StartCounts(n0, nodes)
  {
    hide Parents, Saturated, Only;
    forall i | Live(nodes, i) ensures nodes[i].refcount == Saturated(n0[i].refcount + InDegree(nodes, i)) {
      assert i in X && Live(g, i);
      assert CountFor(g, nodes, Outside(g), X, i);
      KeptParents(g, nodes, X, i);
    }
  }

  lemma KeptParents(g: seq<BddNode>, nodes: seq<BddNode>, X: set<int>, m: int)
    requires KeptAs(g, nodes, X) && g[0].low == g[0].high == 0 && g[1].low == g[1].high == 1
    ensures Parents(g, X, m) == InDegree(nodes, m)
  {
    SameDegree(Only(g, X), nodes, m);
  }

  lemma KeptPlaced(g: seq<BddNode>, nodes: seq<BddNode>, X: set<int>, L: Links, l0: seq<LevelData>, l1: seq<LevelData>, levels: seq<LevelData>)
    requires KeptAs(g, nodes, X) && Rehashed(nodes, L, levels, 2) && (forall i :: i in X ==> Live(g, i))
    requires NumGrown(l0, l1, g, X) && (forall v :: 0 <= v < |l0| ==> l0[v].nodenum == 0) && |levels| == |l1| && SameNumbers(l1, levels)
    ensures Placed(nodes, L, levels, {}) && Counted(nodes, L, levels)
  {
    hide NodeHash;
    forall v | 0 <= v < |levels| ensures InTable(nodes, L, v) == OfVar(g, X, v) {
    }
  }

  lemma {:induction false} SupportBelow(g: seq<BddNode>, lev: seq<nat>, r: int, i: int)
    requires Ordered(g, lev) && Ref(g, r) && i in Reach(g, lev, r)
    ensures Live(g, i) && Support(g, lev, i) <= Support(g, lev, r)
    decreases |lev| - Pos(g, lev, r)
  {
    ReachBelow(g, lev, r, i);
    if i != r {
      assert NodeOk(g, lev, r);
      SupportBelow(g, lev, if i in Reach(g, lev, g[r].low) then g[r].low else g[r].high, i);
    }
  }

  lemma MatrixCovers(iact: seq<seq<bool>>, n: nat, R: Relation, s: set<nat>)
    requires MatrixIs(iact, n, R)
    ensures CoversSet(s, iact) <==> AllPairs(s) <= R
  {
    if AllPairs(s) <= R {
      forall v, w | v in s && w in s ensures v < |iact| && w < |iact[v]| && iact[v][w] {
        assert (v, w) in AllPairs(s);
      }
    }
  }

  /** The matrix covers what is left if and only if it relates the variables of every root. */
  lemma KeptCovers(g: seq<BddNode>, lev: seq<nat>, nodes: seq<BddNode>, X: set<int>, iact: seq<seq<bool>>, n: nat, R: Relation)
    requires Ordered(g, lev) && Ordered(nodes, lev) && ClosedSet(g, X) && KeptAs(g, nodes, X) && X == Protected(g, lev, [])
    requires MatrixIs(iact, n, R)
    ensures Covers(nodes, lev, iact) <==> RootsRelated(g, lev, R)
  {
    hide MatrixIs, CoversSet, KeptAs;
    if RootsRelated(g, lev, R) {
      forall i | Live(nodes, i) ensures CoversSet(Support(nodes, lev, i), iact) {
        KeptLive(g, nodes, X, i);
        KeptEval(g, lev, nodes, X, i, {});
        ProtectedCovers(g, lev, i, R);
        MatrixCovers(iact, n, R, Support(nodes, lev, i));
      }
    }
    if Covers(nodes, lev, iact) {
      forall r | Live(g, r) && g[r].refcount > 0 ensures AllPairs(Support(g, lev, r)) <= R {
        assert IsRoot(g, [], r);
        RootProtects(g, lev, [], r);
        assert r in Reach(g, lev, r);
        KeptEval(g, lev, nodes, X, r, {});
        MatrixCovers(iact, n, R, Support(nodes, lev, r));
      }
    }
  }

  lemma KeptLive(g: seq<BddNode>, nodes: seq<BddNode>, X: set<int>, i: int)
    requires KeptAs(g, nodes, X) && Live(nodes, i)
    ensures i in X
  {
  }

  lemma ProtectedCovers(g: seq<BddNode>, lev: seq<nat>, i: int, R: Relation)
    requires Ordered(g, lev) && i in Protected(g, lev, []) && Ref(g, i) && RootsRelated(g, lev, R)
    ensures AllPairs(Support(g, lev, i)) <= R
  {
    hide Ordered, Support, Reach;
    var r :| IsRoot(g, [], r) && i in Reach(g, lev, r);
    SupportBelow(g, lev, r, i);
    assert AllPairs(Support(g, lev, r)) <= R;
  }

  /** The matrix that mark_roots builds relates the variables of every diagram of a counted node. */
  ghost predicate Complete(nodes: seq<BddNode>, n: nat, var2level: seq<nat>, level2var: seq<nat>) {
    && Ranged(nodes, n) && |level2var| == n + 1
    && var g := Translated(nodes, level2var);
       Ordered(g, var2level) && CountedAreLive(g) && RootsRelated(g, var2level, Found(g, var2level))
  }

  /** It does when roots that are part of other roots come first. */
  lemma PartsFirstComplete(nodes: seq<BddNode>, n: nat, var2level: seq<nat>, level2var: seq<nat>)
    requires Graph(nodes, n) && OrderOf(var2level, level2var, n) && PartsFirst(nodes, Levels(n))
    ensures Complete(nodes, n, var2level, level2var)
  {
    RootTable(nodes, n, var2level, level2var);
    var g := Translated(nodes, level2var);
    forall r, i | Live(g, r) && g[r].refcount > 0 && i in Reach(g, var2level, r) && i != r && Live(g, i) && g[i].refcount > 0 ensures i < r {
      TranslatedReach(nodes, n, var2level, level2var, r);
      assert Live(nodes, r) && Live(nodes, i);
    }
    FoundRelates(g, var2level);
  }

  /** What is reachable from a counted node is there, and says by variable what it said by level. */
  ghost predicate Begins(n0: seq<BddNode>, n: nat, level2var: seq<nat>, nodes: seq<BddNode>, var2level: seq<nat>) {
    && Ordered(n0, Levels(n)) && Ordered(nodes, var2level)
    && forall i :: i in Protected(n0, Levels(n), []) ==> BeginsAt(n0, n, level2var, nodes, var2level, i)
  }

  ghost predicate BeginsAt(n0: seq<BddNode>, n: nat, level2var: seq<nat>, nodes: seq<BddNode>, var2level: seq<nat>, i: int)
    requires Ordered(n0, Levels(n)) && Ordered(nodes, var2level)
  {
    && Live(n0, i) && Live(nodes, i)
    && forall env :: Eval(nodes, var2level, i, env) == Eval(n0, Levels(n), i, ByLevel(level2var, env))
  }

  lemma TranslatedProtected(nodes: seq<BddNode>, n: nat, var2level: seq<nat>, level2var: seq<nat>)
    requires Ordered(nodes, Levels(n)) && |level2var| == n + 1 && Ranged(nodes, n)
    requires Ordered(Translated(nodes, level2var), var2level)
    ensures Protected(Translated(nodes, level2var), var2level, []) == Protected(nodes, Levels(n), [])
  {
    var g := Translated(nodes, level2var);
    forall i ensures IsProtected(g, var2level, [], i) <==> IsProtected(nodes, Levels(n), [], i) {
      if IsProtected(g, var2level, [], i) {
        var x :| IsRoot(g, [], x) && i in Reach(g, var2level, x);
        TranslatedReach(nodes, n, var2level, level2var, x);
        assert IsRoot(nodes, [], x);
      }
      if IsProtected(nodes, Levels(n), [], i) {
        var x :| IsRoot(nodes, [], x) && i in Reach(nodes, Levels(n), x);
        TranslatedReach(nodes, n, var2level, level2var, x);
        assert IsRoot(g, [], x);
      }
    }
  }

  lemma KeptBegins(n0: seq<BddNode>, n: nat, var2level: seq<nat>, level2var: seq<nat>, nodes: seq<BddNode>, X: set<int>)
    requires Ordered(n0, Levels(n)) && |level2var| == n + 1 && Ranged(n0, n)
    requires var g := Translated(n0, level2var);
             Ordered(g, var2level) && ClosedSet(g, X) && KeptAs(g, nodes, X) && X == Protected(g, var2level, [])
    requires Ordered(nodes, var2level)
    ensures Begins(n0, n, level2var, nodes, var2level)
  {
    var g := Translated(n0, level2var);
    TranslatedProtected(n0, n, var2level, level2var);
    forall i | i in X ensures BeginsAt(n0, n, level2var, nodes, var2level, i) {
      assert ClosedAt(g, X, i) && Live(n0, i) && Live(nodes, i);
      forall env ensures Eval(nodes, var2level, i, env) == Eval(n0, Levels(n), i, ByLevel(level2var, env)) {
        KeptEval(g, var2level, nodes, X, i, env);
        TranslatedEval(n0, n, var2level, level2var, i, env);
      }
    }
  }

  lemma SessionBegins(n0: seq<BddNode>, n: nat, var2level: seq<nat>, level2var: seq<nat>, c: seq<BddNode>, nodes: seq<BddNode>, X: set<int>,
                      L: Links, l0: seq<LevelData>, l1: seq<LevelData>, levels: seq<LevelData>, freepos: nat, freenum: int,
                      iact: seq<seq<bool>>, R: Relation, pairs: seq<RenameTable>)
    requires Graph(n0, n) && OrderOf(var2level, level2var, n) && |level2var| == n + 1 && MatrixIs(iact, n, R) && PairsSized(pairs, n)
    requires Ordered(Translated(n0, level2var), var2level)
    requires RootsTo(Translated(n0, level2var), var2level, c, X, |n0|) && SweptFrom(c, nodes, 2)
    requires Linked(nodes, L) && FreeOk(L, freepos, freenum) && Rehashed(nodes, L, levels, 2) && Geometry(levels, |nodes|)
    requires NumGrown(l0, l1, Translated(n0, level2var), X) && (forall v :: 0 <= v < |l0| ==> l0[v].nodenum == 0)
    requires |levels| == |l1| == n && SameNumbers(l1, levels) && 0 < n <= |nodes| && Sliced(levels, |nodes|)
    ensures Ready(nodes, var2level, level2var, L, levels, freepos, freenum, Outside(Translated(n0, level2var)))
    ensures Session(nodes, var2level, level2var, L, levels, freepos, freenum, Outside(Translated(n0, level2var)), iact, pairs) <==>
              RootsRelated(Translated(n0, level2var), var2level, R)
    ensures Begins(n0, n, level2var, nodes, var2level)
    ensures StartCounts(n0, nodes) && KeptAs(Translated(n0, level2var), nodes, Protected(n0, Levels(n), []))
  {
    hide Linked, FreeOk, Rehashed, Geometry, NumGrown, SweptFrom, Counting, Shape, Reduced, Unique, Protected, KeptAs, Covers, RootsRelated, NodeHash, Table, Session, MatrixIs;
    TranslatedProtected(n0, n, var2level, level2var);
    var g := Translated(n0, level2var);
    RootTable(n0, n, var2level, level2var);
    RootsEnd(g, var2level, c, X);
    SweptKeeps(g, var2level, c, nodes, X);
    KeptOrdered(g, var2level, nodes, X);
    TableBegins(g, n, var2level, nodes, X, L, l0, l1, levels, freepos, freenum);
    KeptCovers(g, var2level, nodes, X, iact, n, R);
    SessionIff(nodes, var2level, level2var, L, levels, freepos, freenum, Outside(g), iact, pairs, n, R);
    KeptBegins(n0, n, var2level, level2var, nodes, X);
    KeptStartCounts(n0, g, nodes, X);
  }

  lemma TableBegins(g: seq<BddNode>, n: nat, lev: seq<nat>, nodes: seq<BddNode>, X: set<int>,
                    L: Links, l0: seq<LevelData>, l1: seq<LevelData>, levels: seq<LevelData>, freepos: nat, freenum: int)
    requires KeptAs(g, nodes, X) && Counting(g, nodes, Outside(g), X) && (forall i :: i in X ==> Live(g, i))
    requires (forall i :: 2 <= i < |g| ==> (nodes[i].refcount > 0 <==> i in X)) && |g| >= 2
    requires g[0].low == g[0].high == 0 && g[1].low == g[1].high == 1
    requires Ordered(nodes, lev) && Reduced(nodes) && Unique(nodes) && |lev| == n + 1
    requires Linked(nodes, L) && FreeOk(L, freepos, freenum) && Rehashed(nodes, L, levels, 2) && Geometry(levels, |nodes|)
    requires NumGrown(l0, l1, g, X) && (forall v :: 0 <= v < |l0| ==> l0[v].nodenum == 0)
    requires |levels| == |l1| == n && SameNumbers(l1, levels)
    ensures Table(nodes, lev, L, levels, freepos, freenum, Outside(g))
  {
    hide Linked, FreeOk, Rehashed, Geometry, NumGrown, Counting, Ordered, Reduced, Unique, KeptAs, NodeHash, Conserved, Placed, Counted;
    KeptConserved(g, nodes, X);
    KeptPlaced(g, nodes, X, L, l0, l1, levels);
    KeptCounts(g, nodes, X);
  }

  lemma SessionIff(nodes: seq<BddNode>, lev: seq<nat>, level2var: seq<nat>, L: Links, levels: seq<LevelData>, freepos: nat, freenum: int,
                   ext: seq<nat>, iact: seq<seq<bool>>, pairs: seq<RenameTable>, n: nat, R: Relation)
    requires Table(nodes, lev, L, levels, freepos, freenum, ext) && OrderOf(lev, level2var, n) && MatrixIs(iact, n, R)
    requires |levels| == n && 0 < n <= |nodes| && PairsSized(pairs, n) && Ordered(nodes, lev) && Sliced(levels, |nodes|)
    ensures Ready(nodes, lev, level2var, L, levels, freepos, freenum, ext)
    ensures Session(nodes, lev, level2var, L, levels, freepos, freenum, ext, iact, pairs) <==> Covers(nodes, lev, iact)
  {
    hide Table, Covers, Ordered, Inverse;
  }

  lemma KeptCounts(g: seq<BddNode>, nodes: seq<BddNode>, X: set<int>)
    requires KeptAs(g, nodes, X) && forall i :: 2 <= i < |g| ==> (nodes[i].refcount > 0 <==> i in X)
    ensures forall i {:trigger Live(nodes, i)} :: Live(nodes, i) ==> nodes[i].refcount > 0
  {
  }

  lemma CountedFit(g: seq<BddNode>, lev: seq<nat>, c: seq<BddNode>, X: set<int>)
    requires Ordered(g, lev) && RootsTo(g, lev, c, X, |g|)
    requires forall i :: 2 <= i < |g| && g[i].low == -1 ==> g[i].refcount == 0
    requires Ranged(g, |lev| - 1)
    ensures |c| == |g| && forall i :: 2 <= i < |c| && c[i].refcount > 0 ==> c[i].low != -1 && c[i].level < |lev| - 1
    ensures forall i :: 2 <= i < |c| ==> c[i].level <= |lev| - 1
  {
    var K := Roots(g, |g|);
    forall i | 2 <= i < |c| ensures c[i].level <= |lev| - 1 {
      assert ShapeAt(g, c, K, i);
    }
    forall i | 2 <= i < |c| && c[i].refcount > 0 ensures c[i].low != -1 && c[i].level < |lev| - 1 {
      assert ShapeAt(g, c, K, i);
      assert NodeOk(g, lev, i);
    }
  }

  lemma NumSizes(levels: seq<LevelData>, levels': seq<LevelData>, g: seq<BddNode>, X: set<int>)
    requires NumGrown(levels, levels', g, X)
    ensures |levels'| == |levels|
  {
  }

  lemma SweptSize(c: seq<BddNode>, nodes: seq<BddNode>)
    requires SweptFrom(c, nodes, 2)
    ensures |nodes| == |c|
  {
  }

  // ---- the session ends -------------------------------------------------------------

  /** The roots keep their counts, the others lose theirs, and variables become levels. */
  ghost predicate EndedTo(n0: seq<BddNode>, nodes: seq<BddNode>, R: set<int>, var2level: seq<nat>, n: nat) {
    && |nodes| == |n0|
    && forall i :: 0 <= i < |n0| ==> EndedAt(n0, nodes, R, var2level, n, i)
  }

  ghost predicate EndedAt(n0: seq<BddNode>, nodes: seq<BddNode>, R: set<int>, var2level: seq<nat>, n: nat, i: int)
    requires 0 <= i < |n0| == |nodes|
  {
    && nodes[i].low == n0[i].low && nodes[i].high == n0[i].high
    && nodes[i].refcount == (if 2 <= i < n && i !in R then 0 else n0[i].refcount)
    && if 2 <= i < n then n0[i].level < |var2level| && nodes[i].level == var2level[n0[i].level]
       else nodes[i].level == n0[i].level + if i in R then MARKON else 0
  }

  lemma EndStart(nodes: seq<BddNode>, var2level: seq<nat>)
    ensures EndedTo(nodes, nodes, {}, var2level, 2)
  {
  }

  lemma EndMark(n0: seq<BddNode>, nodes: seq<BddNode>, R: set<int>, var2level: seq<nat>, r: nat)
    requires EndedTo(n0, nodes, R, var2level, 2) && 2 <= r < |n0| && n0[r].level < MARKON && r !in R
    ensures |nodes| == |n0| && EndedTo(n0, nodes[r := nodes[r].(level := SetMark(nodes[r].level))], R + {r}, var2level, 2)
  {
    var nodes' := nodes[r := nodes[r].(level := SetMark(nodes[r].level))];
    forall i | 0 <= i < |n0| ensures EndedAt(n0, nodes', R + {r}, var2level, 2, i) {
      assert EndedAt(n0, nodes, R, var2level, 2, i);
    }
  }

  lemma EndStep(n0: seq<BddNode>, nodes: seq<BddNode>, nodes': seq<BddNode>, R: set<int>, var2level: seq<nat>, n: nat)
    requires EndedTo(n0, nodes, R, var2level, n) && 2 <= n < |n0| && n0[n].level < |var2level| && n0[n].level < MARKON
    requires |nodes| == |n0| ==> nodes' == nodes[n := nodes[n].(level := var2level[n0[n].level], refcount := if n in R then nodes[n].refcount else 0)]
    ensures |nodes| == |n0| && (Marked(nodes[n].level) <==> n in R) && UnMark(nodes[n].level) == n0[n].level
    ensures EndedTo(n0, nodes', R, var2level, n + 1)
  {
    assert EndedAt(n0, nodes, R, var2level, n, n);
    var k := n + 1;
    forall i | 0 <= i < |n0| ensures EndedAt(n0, nodes', R, var2level, k, i) {
      assert EndedAt(n0, nodes, R, var2level, n, i);
    }
  }

  lemma EndedOrdered(n0: seq<BddNode>, nodes: seq<BddNode>, R: set<int>, var2level: seq<nat>, level2var: seq<nat>, n: nat)
    requires Ordered(n0, var2level) && Reduced(n0) && Unique(n0) && OrderOf(var2level, level2var, n) && EndedTo(n0, nodes, R, var2level, |n0|)
    requires 0 !in R && 1 !in R
    ensures Ordered(nodes, Levels(n)) && Reduced(nodes) && Unique(nodes)
  {
    OrderIsOrder(var2level, level2var, n);
    assert EndedAt(n0, nodes, R, var2level, |n0|, 0) && EndedAt(n0, nodes, R, var2level, |n0|, 1);
    forall i | Live(nodes, i) ensures NodeOk(nodes, Levels(n), i) && nodes[i].low != nodes[i].high {
      assert EndedAt(n0, nodes, R, var2level, |n0|, i);
      assert Live(n0, i) && NodeOk(n0, var2level, i);
      EndedEdge(n0, nodes, R, var2level, n, i, n0[i].low);
      EndedEdge(n0, nodes, R, var2level, n, i, n0[i].high);
    }
    forall i, j | Live(nodes, i) && Live(nodes, j) && SameTriple(nodes[i], nodes[j]) ensures i == j {
      assert EndedAt(n0, nodes, R, var2level, |n0|, i) && EndedAt(n0, nodes, R, var2level, |n0|, j);
      assert Live(n0, i) && Live(n0, j);
      assert SameTriple(n0[i], n0[j]);
    }
  }

  lemma EndedEdge(n0: seq<BddNode>, nodes: seq<BddNode>, R: set<int>, var2level: seq<nat>, n: nat, i: int, c: int)
    requires Ordered(n0, var2level) && |var2level| == n + 1 && EndedTo(n0, nodes, R, var2level, |n0|) && 0 !in R && 1 !in R && var2level[n] == n
    requires 2 <= i < |n0| && n0[i].low != -1 && EdgeOk(n0, var2level, i, c) && forall v :: 0 <= v <= n ==> var2level[v] <= n
    ensures EdgeOk(nodes, Levels(n), i, c) && nodes[i].level < n
  {
    assert EndedAt(n0, nodes, R, var2level, |n0|, i) && EndedAt(n0, nodes, R, var2level, |n0|, c);
  }

  /** By level every diagram says what it said by variable. */
  lemma {:induction false} EndedEval(n0: seq<BddNode>, nodes: seq<BddNode>, R: set<int>, var2level: seq<nat>, level2var: seq<nat>, n: nat, i: int, env: Env)
    requires Ordered(n0, var2level) && OrderOf(var2level, level2var, n) && EndedTo(n0, nodes, R, var2level, |n0|)
    requires Ordered(nodes, Levels(n)) && Ref(n0, i)
    ensures Ref(nodes, i) && Eval(nodes, Levels(n), i, ByLevel(level2var, env)) == Eval(n0, var2level, i, env)
    decreases |var2level| - Pos(n0, var2level, i)
  {
    if i >= 2 {
      assert EndedAt(n0, nodes, R, var2level, |n0|, i);
      assert NodeOk(n0, var2level, i) && NodeOk(nodes, Levels(n), i);
      EndedEval(n0, nodes, R, var2level, level2var, n, n0[i].low, env);
      EndedEval(n0, nodes, R, var2level, level2var, n, n0[i].high, env);
      assert level2var[var2level[n0[i].level]] == n0[i].level;
    }
  }

  lemma EndedClean(n0: seq<BddNode>, nodes: seq<BddNode>, R: set<int>, var2level: seq<nat>, level2var: seq<nat>, n: nat, ext: seq<nat>)
    requires Ordered(n0, var2level) && Conserved(n0, ext) && OrderOf(var2level, level2var, n) && EndedTo(n0, nodes, R, var2level, |n0|)
    requires 0 !in R && 1 !in R && n <= MAXVAR && Ranged(n0, n) && |n0| >= 3
    ensures Clean(nodes) && Ranged(nodes, n)
  {
    OrderIsOrder(var2level, level2var, n);
    forall i | 0 <= i < |nodes| ensures nodes[i].level <= n && nodes[i].refcount <= MAXREF && (i >= 2 && nodes[i].low == -1 ==> nodes[i].refcount == 0) && (i < 2 ==> nodes[i].refcount == MAXREF) {
      assert EndedAt(n0, nodes, R, var2level, |n0|, i);
    }
  }

  /** The nodes of R are there, and say by level what they said by variable. */
  ghost predicate Ends(n0: seq<BddNode>, var2level: seq<nat>, level2var: seq<nat>, nodes: seq<BddNode>, n: nat, R: set<int>) {
    && Ordered(n0, var2level) && Ordered(nodes, Levels(n))
    && forall i :: i in R && Live(n0, i) ==> EndsAt(n0, var2level, level2var, nodes, n, i)
  }

  ghost predicate EndsAt(n0: seq<BddNode>, var2level: seq<nat>, level2var: seq<nat>, nodes: seq<BddNode>, n: nat, i: int)
    requires Ordered(n0, var2level) && Ordered(nodes, Levels(n))
  {
    && Live(n0, i) && Live(nodes, i) && nodes[i].refcount == n0[i].refcount
    && forall env :: Eval(nodes, Levels(n), i, ByLevel(level2var, env)) == Eval(n0, var2level, i, env)
  }

  lemma SessionEnds(n0: seq<BddNode>, nodes: seq<BddNode>, R: set<int>, var2level: seq<nat>, level2var: seq<nat>, n: nat, ext: seq<nat>)
    requires Ordered(n0, var2level) && Reduced(n0) && Unique(n0) && Conserved(n0, ext) && OrderOf(var2level, level2var, n) && n <= MAXVAR && Ranged(n0, n)
    requires EndedTo(n0, nodes, R, var2level, |n0|) && 0 !in R && 1 !in R && |n0| >= 3
    ensures Graph(nodes, n) && Ends(n0, var2level, level2var, nodes, n, R)
  {
    hide Conserved, Clean;
    EndedOrdered(n0, nodes, R, var2level, level2var, n);
    EndedClean(n0, nodes, R, var2level, level2var, n, ext);
    forall i | i in R && Live(n0, i) ensures EndsAt(n0, var2level, level2var, nodes, n, i) {
      assert EndedAt(n0, nodes, R, var2level, |n0|, i);
      forall env ensures Eval(nodes, Levels(n), i, ByLevel(level2var, env)) == Eval(n0, var2level, i, env) {
        EndedEval(n0, nodes, R, var2level, level2var, n, i, env);
      }
    }
  }

  /** Two roots, one the parent of the other, each with a count of one. */
  ghost function TwoRoots(): (r: seq<BddNode>)
    ensures |r| == 4
  {
    [BddNode(MAXREF, 2, 0, 0, 0, 0), BddNode(MAXREF, 2, 1, 1, 0, 0), BddNode(1, 1, 0, 1, 0, 0), BddNode(1, 0, 0, 2, 0, 0)]
  }

  lemma TwoRootsGraph()
    ensures Graph(TwoRoots(), 2) && OrderOf([0, 1, 2], [0, 1, 2], 2)
    ensures Translated(TwoRoots(), [0, 1, 2]) == TwoRoots()
  {
  }

  lemma TwoRootsProtected()
    requires Ordered(TwoRoots(), Levels(2))
    ensures Protected(TwoRoots(), Levels(2), []) == {2, 3}
  {
    RootProtects(TwoRoots(), Levels(2), [], 2);
    RootProtects(TwoRoots(), Levels(2), [], 3);
  }

  lemma FourEntries(n: seq<BddNode>, m: int)
    requires |n| == 4
    ensures InDegree(n, m) == Edges(n[0], m) + Edges(n[1], m) + Edges(n[2], m) + Edges(n[3], m)
  {
    assert n[..3][..2] == n[..2] && n[..2][..1] == n[..1];
    assert InDegree(n, m) == InDegree(n[..3], m) + Edges(n[3], m);
    assert InDegree(n[..3], m) == InDegree(n[..2], m) + Edges(n[2], m);
    assert InDegree(n[..2], m) == InDegree(n[..1], m) + Edges(n[1], m);
    assert InDegree(n[..1], m) == Edges(n[0], m);
  }

  /** Between exchanges the fields of all entries are in range, those of free ones too. */
  lemma SessionRanged(nodes: seq<BddNode>, lev: seq<nat>, L: Links, levels: seq<LevelData>, freepos: nat, freenum: int, ext: seq<nat>)
    requires Table(nodes, lev, L, levels, freepos, freenum, ext)
    ensures Ranged(nodes, |levels|)
  {
    forall i | 0 <= i < |nodes| ensures nodes[i].level <= |levels| && nodes[i].refcount <= MAXREF {
      if i >= 2 && nodes[i].low != -1 {
        assert Live(nodes, i) && NodeOk(nodes, lev, i);
        var d := InDegree(nodes, i);
        assert CountOk(nodes, ext, i);
      }
    }
  }

  ghost function Listed(extroots: seq<nat>): set<int> { set r: nat | r in extroots }

  lemma EndMarked(n0: seq<BddNode>, nodes: seq<BddNode>, extroots: seq<nat>, k: nat, var2level: seq<nat>)
    requires k < |extroots| && EndedTo(n0, nodes, Listed(extroots[..k]), var2level, 2) && 2 <= extroots[k] < |n0| && n0[extroots[k]].level < MARKON
    ensures |nodes| == |n0|
    ensures var r := extroots[k]; EndedTo(n0, nodes[r := nodes[r].(level := SetMark(nodes[r].level))], Listed(extroots[..k + 1]), var2level, 2)
  {
    var r, R := extroots[k], Listed(extroots[..k]);
    assert extroots[..k + 1] == extroots[..k] + [r];
    assert Listed(extroots[..k + 1]) == R + {r};
    if r in R {
      assert EndedAt(n0, nodes, R, var2level, 2, r);
      assert nodes[r := nodes[r].(level := SetMark(nodes[r].level))] == nodes;
      assert R + {r} == R;
    } else {
      EndMark(n0, nodes, R, var2level, r);
    }
  }

  lemma SessionEndFacts(nodes: seq<BddNode>, lev: seq<nat>, level2var: seq<nat>, L: Links, levels: seq<LevelData>,
                        freepos: nat, freenum: int, ext: seq<nat>)
    requires Ready(nodes, lev, level2var, L, levels, freepos, freenum, ext)
    ensures Ordered(nodes, lev) && Reduced(nodes) && Unique(nodes) && Conserved(nodes, ext) && Ranged(nodes, |levels|)
    ensures OrderOf(lev, level2var, |levels|) && |lev| == |levels| + 1 && 3 <= |nodes|
  {
    LinkedSizes(nodes, L);
    hide Conserved, Linked, Placed, Counted, Covers, Inverse, Reduced, Unique, Geometry, FreeOk;
    SessionRanged(nodes, lev, L, levels, freepos, freenum, ext);
  }

  lemma NoneListed(extroots: seq<nat>)
    ensures Listed(extroots[..0]) == {}
  {
  }

  lemma ListedFrom2(extroots: seq<nat>)
    requires forall r :: r in extroots ==> 2 <= r
    ensures 0 !in Listed(extroots) && 1 !in Listed(extroots)
  {
  }

  lemma RangeIn(g: seq<BddNode>, n: nat, r: int)
    requires Ranged(g, n) && 0 <= r < |g|
    ensures g[r].level <= n
  {
  }
}
