/** The interaction matrix: which variables the roots relate to each other, as mark_roots finds out
    while it counts references, root by root. */
module Dependencies {
  import opened NodeTable
  import opened Diagram
  import opened KernelTheory

  type Relation = set<(nat, nat)>

  ghost function Row(R: Relation, v: nat): (s: set<nat>)
    ensures forall u :: u in s <==> (v, u) in R
  {
    set p | p in R && p.0 == v :: p.1
  }

  ghost function AllPairs(dep: set<nat>): (R: Relation)
    ensures forall v: nat, u: nat :: (v, u) in R <==> v in dep && u in dep
  {
    set v, u | v in dep && u in dep :: (v, u)
  }

  /** The matrix says what R says, for n variables. */
  ghost predicate MatrixIs(iact: seq<seq<bool>>, n: nat, R: Relation) {
    && |iact| == n && (forall v :: 0 <= v < n ==> |iact[v]| == n)
    && (forall v: nat, u: nat :: (v, u) in R ==> v < n && u < n)
    && forall v: nat, u: nat :: v < n && u < n ==> (iact[v][u] <==> (v, u) in R)
  }

  /** imatrixSet for (a, b) and (b, a). */
  function Both(iact: seq<seq<bool>>, a: nat, b: nat): (r: seq<seq<bool>>)
    requires a < |iact| && b < |iact| && forall v :: 0 <= v < |iact| ==> |iact[v]| == |iact|
    ensures |r| == |iact| && forall v :: 0 <= v < |iact| ==> |r[v]| == |iact|
    ensures forall v, u :: 0 <= v < |iact| && 0 <= u < |iact| ==> (r[v][u] <==> iact[v][u] || (v == a && u == b) || (v == b && u == a))
  {
    var r1 := iact[a := iact[a][b := true]];
    r1[b := r1[b][a := true]]
  }

  /** The pair (v, u) has been reached when the pairs of n with one from n to m - 1 have. */
  predicate Passed(n: nat, m: nat, v: nat, u: nat) {
    v < n || u < n || (v == n && u < m) || (u == n && v < m)
  }

  /** The pairs of dep that have been reached have been added to m0. */
  ghost predicate RelatedTo(m0: seq<seq<bool>>, iact: seq<seq<bool>>, dep: seq<bool>, n: nat, m: nat) {
    && |iact| == |m0| == |dep| && (forall v :: 0 <= v < |dep| ==> |iact[v]| == |m0[v]| == |dep|)
    && forall v: nat, u: nat {:trigger iact[v][u]} {:trigger m0[v][u]} :: v < |dep| && u < |dep| ==> (iact[v][u] <==> m0[v][u] || (dep[v] && dep[u] && Passed(n, m, v, u)))
  }

  lemma RelateStart(m0: seq<seq<bool>>, dep: seq<bool>)
    requires |m0| == |dep| && forall v :: 0 <= v < |dep| ==> |m0[v]| == |dep|
    ensures RelatedTo(m0, m0, dep, 0, 0)
  {
  }

  lemma RelateStep(m0: seq<seq<bool>>, iact: seq<seq<bool>>, dep: seq<bool>, n: nat, m: nat)
    requires RelatedTo(m0, iact, dep, n, m) && n <= m < |dep|
    ensures |iact| == |dep| && forall v :: 0 <= v < |iact| ==> |iact[v]| == |iact|
    ensures RelatedTo(m0, if dep[n] && dep[m] then Both(iact, n, m) else iact, dep, n, m + 1)
  {
  }

  lemma RelateRow(m0: seq<seq<bool>>, iact: seq<seq<bool>>, dep: seq<bool>, n: nat)
    requires RelatedTo(m0, iact, dep, n, |dep|) && n < |dep|
    ensures RelatedTo(m0, iact, dep, n + 1, n + 1)
  {
    var k, size := n + 1, |dep|;
    forall v: nat, u: nat | v < size && u < size ensures Passed(n, size, v, u) == Passed(k, k, v, u) {
    }
  }

  lemma RelateEnd(m0: seq<seq<bool>>, iact: seq<seq<bool>>, dep: seq<bool>, R: Relation)
    requires RelatedTo(m0, iact, dep, |dep|, |dep|) && MatrixIs(m0, |dep|, R)
    ensures MatrixIs(iact, |dep|, R + AllPairs(DepSet(dep)))
  {
    var R' := R + AllPairs(DepSet(dep));
    forall v: nat, u: nat | v < |dep| && u < |dep| ensures iact[v][u] <==> (v, u) in R' {
      assert Passed(|dep|, |dep|, v, u);
    }
  }

  ghost function DepSet(dep: seq<bool>): (s: set<nat>)
    ensures forall v: nat :: v in s <==> v < |dep| && dep[v]
  {
    set v: nat | v < |dep| && dep[v]
  }

  ghost function CountedNodes(nodes: seq<BddNode>): (s: set<int>)
    ensures forall i :: i in s <==> 2 <= i < |nodes| && nodes[i].refcount > 0
  {
    set i | 2 <= i < |nodes| && nodes[i].refcount > 0
  }

  /** The nodes counted so far and the variables found for the current root. */
  datatype Progress = Progress(counted: set<int>, dep: set<nat>)

  /** addref_rec: a node that is counted already stands for all variables that its own variable is
      related to so far. */
  ghost function Expand(g: seq<BddNode>, lev: seq<nat>, R: Relation, s: Progress, r: int): (t: Progress)
    requires Ordered(g, lev) && Ref(g, r)
    ensures s.counted <= t.counted && s.dep <= t.dep
    decreases |lev| - Pos(g, lev, r)
  {
    if r < 2 then s
    else if r in s.counted then s.(dep := s.dep + Row(R, g[r].level))
    else
      assert NodeOk(g, lev, r);
      var s1 := Expand(g, lev, R, s.(dep := s.dep + {g[r].level}), g[r].low);
      var s2 := Expand(g, lev, R, s1, g[r].high);
      s2.(counted := s2.counted + {r})
  }

  /** One root. */
  ghost function ExpandRoot(g: seq<BddNode>, lev: seq<nat>, R: Relation, counted: set<int>, r: int): (t: Progress)
    requires Ordered(g, lev) && Live(g, r)
    ensures counted <= t.counted
  {
    assert NodeOk(g, lev, r);
    Expand(g, lev, R, Expand(g, lev, R, Progress(counted, {g[r].level}), g[r].low), g[r].high)
  }

  /** The nodes counted and the variables related after the roots below n. */
  datatype Knowledge = Knowledge(counted: set<int>, related: Relation)

  ghost predicate CountedAreLive(g: seq<BddNode>) {
    forall i :: 2 <= i < |g| && g[i].refcount > 0 ==> g[i].low != -1
  }

  ghost function RootsBelow(g: seq<BddNode>, lev: seq<nat>, n: nat): (k: Knowledge)
    requires Ordered(g, lev) && CountedAreLive(g) && 2 <= n <= |g|
    ensures CountedNodes(g) <= k.counted
    decreases n
  {
    if n == 2 then Knowledge(CountedNodes(g), {})
    else
      var k := RootsBelow(g, lev, n - 1);
      if g[n - 1].refcount > 0 then
        var t := ExpandRoot(g, lev, k.related, k.counted, n - 1);
        Knowledge(t.counted, k.related + AllPairs(t.dep))
      else k
  }

  /** The matrix that mark_roots builds. */
  ghost function Found(g: seq<BddNode>, lev: seq<nat>): Relation
    requires Ordered(g, lev) && CountedAreLive(g)
  {
    RootsBelow(g, lev, |g|).related
  }

  /** The variables of every root are related to one another. */
  ghost predicate RootsRelated(g: seq<BddNode>, lev: seq<nat>, R: Relation)
    requires Ordered(g, lev)
  {
    forall r {:trigger Support(g, lev, r)} :: Live(g, r) && g[r].refcount > 0 ==> AllPairs(Support(g, lev, r)) <= R
  }

  /** A root that is part of another root's diagram stands before it in the table. */
  ghost predicate PartsFirst(g: seq<BddNode>, lev: seq<nat>)
    requires Ordered(g, lev)
  {
    forall r, i {:trigger i in Reach(g, lev, r)} :: Live(g, r) && g[r].refcount > 0 && i in Reach(g, lev, r) && i != r && Live(g, i) && g[i].refcount > 0 ==> i < r
  }

  // ---- when the matrix is complete --------------------------------------------------

  /** A counted node below r stands for its variables. */
  ghost predicate Known(g: seq<BddNode>, lev: seq<nat>, R: Relation, s: Progress, r: int)
    requires Ordered(g, lev) && Ref(g, r)
  {
    forall h :: h in s.counted && h in Reach(g, lev, r) ==> KnownAt(g, lev, R, s.dep, h)
  }

  ghost predicate KnownAt(g: seq<BddNode>, lev: seq<nat>, R: Relation, dep: set<nat>, h: int)
    requires Ordered(g, lev)
  {
    Live(g, h) && Support(g, lev, h) <= Row(R, g[h].level) + dep
  }

  /** New nodes have all their variables in dep. */
  ghost predicate Taken(g: seq<BddNode>, lev: seq<nat>, s: Progress, t: Progress)
    requires Ordered(g, lev)
  {
    forall h :: h in t.counted && h !in s.counted ==> Live(g, h) && Support(g, lev, h) <= t.dep
  }

  lemma {:induction false} ExpandTakes(g: seq<BddNode>, lev: seq<nat>, R: Relation, s: Progress, r: int)
    requires Ordered(g, lev) && Ref(g, r) && Known(g, lev, R, s, r)
    ensures var t := Expand(g, lev, R, s, r); Support(g, lev, r) <= t.dep && Taken(g, lev, s, t)
    decreases |lev| - Pos(g, lev, r)
  {
    if r >= 2 && r in s.counted {
      assert KnownAt(g, lev, R, s.dep, r);
    } else if r >= 2 {
      assert NodeOk(g, lev, r);
      var lo, hi := g[r].low, g[r].high;
      var s0 := s.(dep := s.dep + {g[r].level});
      KnownBelow(g, lev, R, s, s0, s0, r, lo);
      ExpandTakes(g, lev, R, s0, lo);
      var s1 := Expand(g, lev, R, s0, lo);
      KnownBelow(g, lev, R, s, s0, s1, r, hi);
      ExpandTakes(g, lev, R, s1, hi);
    }
  }

  lemma KnownBelow(g: seq<BddNode>, lev: seq<nat>, R: Relation, s: Progress, s0: Progress, s1: Progress, r: int, c: int)
    requires Ordered(g, lev) && Ref(g, r) && Known(g, lev, R, s, r) && Ref(g, c) && Reach(g, lev, c) <= Reach(g, lev, r)
    requires s0.counted == s.counted && s.dep <= s0.dep <= s1.dep && Taken(g, lev, s0, s1)
    ensures Known(g, lev, R, s1, c)
  {
    hide Reach;
    forall h | h in s1.counted && h in Reach(g, lev, c) ensures KnownAt(g, lev, R, s1.dep, h) {
      if h in s.counted {
        assert KnownAt(g, lev, R, s.dep, h);
      }
    }
  }

  /** Everything counted but the roots from n on stands for its variables in R. */
  ghost predicate Settled(g: seq<BddNode>, lev: seq<nat>, k: Knowledge, n: nat)
    requires Ordered(g, lev)
  {
    forall h :: h in k.counted && !(h >= n && h < |g| && g[h].refcount > 0) ==> SettledAt(g, lev, k.related, h)
  }

  ghost predicate SettledAt(g: seq<BddNode>, lev: seq<nat>, R: Relation, h: int)
    requires Ordered(g, lev)
  {
    Live(g, h) && AllPairs(Support(g, lev, h)) <= R
  }

  lemma {:induction false} SettledBelow(g: seq<BddNode>, lev: seq<nat>, n: nat)
    requires Ordered(g, lev) && CountedAreLive(g) && PartsFirst(g, lev) && 2 <= n <= |g|
    ensures Settled(g, lev, RootsBelow(g, lev, n), n)
    decreases n
  {
    hide Reach, Support;
    if n == 2 {
    } else {
      SettledBelow(g, lev, n - 1);
      var k := RootsBelow(g, lev, n - 1);
      if g[n - 1].refcount > 0 {
        RootTakes(g, lev, k, n - 1);
        SettledRoot(g, lev, k, n - 1);
      }
    }
  }

  lemma RootTakes(g: seq<BddNode>, lev: seq<nat>, k: Knowledge, r: nat)
    requires Ordered(g, lev) && CountedAreLive(g) && PartsFirst(g, lev) && Live(g, r) && g[r].refcount > 0 && Settled(g, lev, k, r)
    ensures var t := ExpandRoot(g, lev, k.related, k.counted, r);
            Support(g, lev, r) <= t.dep && Taken(g, lev, Progress(k.counted, {g[r].level}), t)
  {
    assert NodeOk(g, lev, r);
    var lo, hi, s := g[r].low, g[r].high, Progress(k.counted, {g[r].level});
    assert Taken(g, lev, s, s);
    RootKnown(g, lev, k, s, s, r, lo);
    ExpandTakes(g, lev, k.related, s, lo);
    var s1 := Expand(g, lev, k.related, s, lo);
    RootKnown(g, lev, k, s, s1, r, hi);
    ExpandTakes(g, lev, k.related, s1, hi);
  }

  lemma RootKnown(g: seq<BddNode>, lev: seq<nat>, k: Knowledge, s: Progress, s1: Progress, r: nat, c: int)
    requires Ordered(g, lev) && PartsFirst(g, lev) && Live(g, r) && g[r].refcount > 0 && Settled(g, lev, k, r)
    requires s.counted == k.counted && s.dep <= s1.dep && Taken(g, lev, s, s1)
    requires Ref(g, c) && (c == g[r].low || c == g[r].high)
    ensures Known(g, lev, k.related, s1, c)
  {
    assert NodeOk(g, lev, r);
    forall h | h in s1.counted && h in Reach(g, lev, c) ensures KnownAt(g, lev, k.related, s1.dep, h) {
      ReachBelow(g, lev, c, h);
      if h in s.counted {
        assert h in Reach(g, lev, r) && h != r;
        assert SettledAt(g, lev, k.related, h);
        RowHolds(g, lev, k.related, h);
      }
    }
  }

  lemma RowHolds(g: seq<BddNode>, lev: seq<nat>, R: Relation, h: int)
    requires Ordered(g, lev) && SettledAt(g, lev, R, h)
    ensures Support(g, lev, h) <= Row(R, g[h].level)
  {
    assert NodeOk(g, lev, h);
    var v := g[h].level;
    assert v in Support(g, lev, h);
    forall u | u in Support(g, lev, h) ensures u in Row(R, v) {
      assert (v, u) in AllPairs(Support(g, lev, h));
    }
  }

  lemma SettledRoot(g: seq<BddNode>, lev: seq<nat>, k: Knowledge, r: nat)
    requires Ordered(g, lev) && Live(g, r) && Settled(g, lev, k, r)
    requires var t := ExpandRoot(g, lev, k.related, k.counted, r);
             Support(g, lev, r) <= t.dep && Taken(g, lev, Progress(k.counted, {g[r].level}), t)
    ensures var t := ExpandRoot(g, lev, k.related, k.counted, r); Settled(g, lev, Knowledge(t.counted, k.related + AllPairs(t.dep)), r + 1)
  {
    hide Support, Ordered;
    var t := ExpandRoot(g, lev, k.related, k.counted, r);
    var k1 := Knowledge(t.counted, k.related + AllPairs(t.dep));
    forall h | h in k1.counted && !(h >= r + 1 && h < |g| && g[h].refcount > 0) ensures SettledAt(g, lev, k1.related, h) {
      if h == r || h !in k.counted {
        assert Support(g, lev, h) <= t.dep;
      } else {
        assert SettledAt(g, lev, k.related, h);
      }
    }
  }

  /** When every part of a root that is a root itself comes first, the matrix relates the variables of
      every root. */
  lemma FoundRelates(g: seq<BddNode>, lev: seq<nat>)
    requires Ordered(g, lev) && CountedAreLive(g) && PartsFirst(g, lev)
    ensures RootsRelated(g, lev, Found(g, lev))
  {
    hide Support;
    SettledBelow(g, lev, |g|);
    forall r | Live(g, r) && g[r].refcount > 0 ensures AllPairs(Support(g, lev, r)) <= Found(g, lev) {
      assert r in CountedNodes(g);
      assert SettledAt(g, lev, Found(g, lev), r);
    }
  }

  // ---- when it is not ---------------------------------------------------------------

  /** Three variables with their nodes 2 to 7, and the roots 9, "1 and 2", and 8, "0 and 9", which
      stands before its part. */
  ghost function LatePart(): (g: seq<BddNode>)
    ensures |g| == 10
  {
    [BddNode(MAXREF, 3, 0, 0, 0, 0), BddNode(MAXREF, 3, 1, 1, 0, 0),
     BddNode(MAXREF, 0, 0, 1, 0, 0), BddNode(MAXREF, 0, 1, 0, 0, 0), BddNode(MAXREF, 1, 0, 1, 0, 0),
     BddNode(MAXREF, 1, 1, 0, 0, 0), BddNode(MAXREF, 2, 0, 1, 0, 0), BddNode(MAXREF, 2, 1, 0, 0, 0),
     BddNode(1, 0, 0, 9, 0, 0), BddNode(1, 1, 0, 6, 0, 0)]
  }

  lemma LatePartGraph()
    ensures Graph(LatePart(), 3)
  {
    var g := LatePart();
    forall i | Live(g, i) ensures NodeOk(g, Levels(3), i) && g[i].low != g[i].high {
    }
    LatePartUnique();
  }

  lemma LatePartUnique()
    ensures Unique(LatePart())
  {
    var g := LatePart();
    forall i, j | Live(g, i) && Live(g, j) && SameTriple(g[i], g[j]) ensures i == j {
      assert i in {2, 3, 4, 5, 6, 7, 8, 9} && j in {2, 3, 4, 5, 6, 7, 8, 9};
    }
  }

  /** What a counted child stands for. */
  ghost function Stands(g: seq<BddNode>, R: Relation, c: int): set<nat> {
    if 2 <= c < |g| then Row(R, g[c].level) else {}
  }

  /** A root whose two children are terminals or counted. */
  lemma SimpleRoot(g: seq<BddNode>, lev: seq<nat>, n: nat)
    requires Ordered(g, lev) && CountedAreLive(g) && 2 <= n < |g| && g[n].refcount > 0
    requires RootsBelow(g, lev, n).counted == CountedNodes(g)
    requires (g[n].low < 2 || g[n].low in CountedNodes(g)) && (g[n].high < 2 || g[n].high in CountedNodes(g))
    ensures var R := RootsBelow(g, lev, n).related;
            var dep := {g[n].level} + Stands(g, R, g[n].low) + Stands(g, R, g[n].high);
            RootsBelow(g, lev, n + 1) == Knowledge(CountedNodes(g), R + AllPairs(dep))
  {
    assert NodeOk(g, lev, n);
  }

  /** What the roots of LatePart relate, one after the other. */
  ghost function LateRelated(n: nat): Relation {
    if n <= 8 then (set v: nat | v < 3 && 2 * v + 2 < n :: (v, v))
    else if n == 9 then {(0, 0), (1, 1), (2, 2), (0, 1), (1, 0)}
    else {(0, 0), (1, 1), (2, 2), (0, 1), (1, 0), (1, 2), (2, 1)}
  }

  lemma LatePartFound(n: nat)
    requires Ordered(LatePart(), Levels(3)) && CountedAreLive(LatePart()) && 2 <= n <= 10
    ensures RootsBelow(LatePart(), Levels(3), n) == Knowledge(CountedNodes(LatePart()), LateRelated(n))
    decreases n
  {
    hide RootsBelow, Expand;
    if n == 2 {
      NoRootsYet(LatePart(), Levels(3));
      assert LateRelated(2) == {};
    } else {
      LatePartFound(n - 1);
      SimpleRoot(LatePart(), Levels(3), n - 1);
      LatePartRound(n - 1);
    }
  }

  lemma NoRootsYet(g: seq<BddNode>, lev: seq<nat>)
    requires Ordered(g, lev) && CountedAreLive(g) && |g| >= 2
    ensures RootsBelow(g, lev, 2) == Knowledge(CountedNodes(g), {})
  {
  }

  lemma LatePartRound(n: nat)
    requires 2 <= n < 10
    ensures var g, R := LatePart(), LateRelated(n);
            var dep := {g[n].level} + Stands(g, R, g[n].low) + Stands(g, R, g[n].high);
            R + AllPairs(dep) == LateRelated(n + 1)
  {
    var g, R := LatePart(), LateRelated(n);
    if n == 8 {
      assert Row(R, 1) == {1};
    } else if n == 9 {
      assert Row(R, 2) == {2};
    }
  }

  lemma LatePartSupport()
    requires Ordered(LatePart(), Levels(3))
    ensures {0, 2} <= Support(LatePart(), Levels(3), 8) && 9 in Reach(LatePart(), Levels(3), 8)
  {
    var g, lev := LatePart(), Levels(3);
    assert NodeOk(g, lev, 8) && NodeOk(g, lev, 9);
    assert 2 in Support(g, lev, 6);
    assert Support(g, lev, 6) <= Support(g, lev, 9) <= Support(g, lev, 8);
  }

  /** The part comes after the root, and the matrix does not relate the variables 0 and 2 of the root. */
  lemma LatePartMissed()
    ensures Graph(LatePart(), 3) && CountedAreLive(LatePart()) && !PartsFirst(LatePart(), Levels(3))
    ensures {0, 2} <= Support(LatePart(), Levels(3), 8) && (0, 2) !in Found(LatePart(), Levels(3))
    ensures !RootsRelated(LatePart(), Levels(3), Found(LatePart(), Levels(3)))
  {
    hide Expand, Support, Reach, RootsBelow, Unique, Reduced;
    LatePartGraph();
    LatePartSupport();
    LatePartFound(10);
    var g := LatePart();
    assert Live(g, 8) && Live(g, 9);
    assert (0, 2) in AllPairs(Support(g, Levels(3), 8));
  }
}
