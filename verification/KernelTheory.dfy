/** The node table of the kernel between operations: the canonical graph, what can be reached
    from a root, and what an operation that may collect garbage leaves alone.  The `level`
    field holds the position in the variable order. */
module KernelTheory {
  import opened NodeTable
  import opened Diagram

  const MAXVAR: nat := 0x1FFFFF

  /** NODEHASH */
  function Hash(level: nat, low: int, high: int, size: nat): (h: nat)
    requires size > 0
    ensures h < size
  {
    PairHash(high, PairHash(level, low)) % size
  }

  /** The bucket of a triple with small fields. */
  lemma HashIs(level: nat, low: nat, high: nat, size: nat, p: nat, q: nat)
    requires size > 0 && 2 * p == (level + low) * (level + low + 1) + 2 * level && 2 * q == (high + p) * (high + p + 1) + 2 * high
    requires (level + low) * (level + low + 1) < 0x1_0000_0000 && (high + p) * (high + p + 1) < 0x1_0000_0000
    ensures Hash(level, low, high, size) == q % size
  {
    SmallPair(level, low);
    SmallPair(high, p);
  }

  function Levels(n: nat): (lev: seq<nat>)
    ensures |lev| == n + 1 && forall i :: 0 <= i <= n ==> lev[i] == i
  {
    seq(n + 1, i requires 0 <= i => i)
  }

  /** Free entries are in the free list and all others in the bucket they hash to. */
  ghost predicate Hashed(nodes: seq<BddNode>, L: Links) {
    && |L.owner| == |nodes|
    && forall i :: 2 <= i < |nodes| ==>
         L.owner[i] == if nodes[i].low == -1 then Free else Bucket(Hash(nodes[i].level, nodes[i].low, nodes[i].high, |nodes|))
  }

  ghost predicate Lists(nodes: seq<BddNode>, L: Links, freepos: nat, freenum: int) {
    Linked(nodes, L) && Hashed(nodes, L) && FreeOk(L, freepos, freenum)
  }

  /** Free entries are not referenced, the terminals always are, and no entry is marked; a table
      has at least one entry besides the terminals. */
  ghost predicate Clean(nodes: seq<BddNode>) {
    && 3 <= |nodes| && nodes[0].refcount == nodes[1].refcount == MAXREF
    && (forall i :: 2 <= i < |nodes| && nodes[i].low == -1 ==> nodes[i].refcount == 0)
    && (forall i :: 0 <= i < |nodes| ==> nodes[i].level <= MAXVAR)
  }

  /** The fields of all entries, free ones too, are in range. */
  ghost predicate Ranged(nodes: seq<BddNode>, n: nat) {
    forall i :: 0 <= i < |nodes| ==> nodes[i].level <= n && nodes[i].refcount <= MAXREF
  }

  ghost predicate Graph(nodes: seq<BddNode>, n: nat) {
    n <= MAXVAR && Ordered(nodes, Levels(n)) && Reduced(nodes) && Unique(nodes) && Clean(nodes) && Ranged(nodes, n)
  }

  // ---- reachability -----------------------------------------------------------------

  /** The allocated nodes of the diagram with root i. */
  ghost function Reach(nodes: seq<BddNode>, lev: seq<nat>, i: int): (s: set<int>)
    requires Ordered(nodes, lev) && Ref(nodes, i)
    ensures i >= 2 ==> i in s
    ensures i < 2 ==> s == {}
    decreases |lev| - Pos(nodes, lev, i)
  {
    if i < 2 then {}
    else
      assert NodeOk(nodes, lev, i);
      {i} + Reach(nodes, lev, nodes[i].low) + Reach(nodes, lev, nodes[i].high)
  }

  lemma {:induction false} ReachBelow(nodes: seq<BddNode>, lev: seq<nat>, i: int, j: int)
    requires Ordered(nodes, lev) && Ref(nodes, i) && j in Reach(nodes, lev, i)
    ensures Live(nodes, j) && Pos(nodes, lev, j) >= Pos(nodes, lev, i) && (j != i ==> Pos(nodes, lev, j) > Pos(nodes, lev, i))
    ensures Reach(nodes, lev, j) <= Reach(nodes, lev, i)
    decreases |lev| - Pos(nodes, lev, i)
  {
    assert NodeOk(nodes, lev, i);
    if j != i {
      var c := if j in Reach(nodes, lev, nodes[i].low) then nodes[i].low else nodes[i].high;
      ReachBelow(nodes, lev, c, j);
    }
  }

  /** A set of allocated nodes that contains the children of its members. */
  ghost predicate ClosedSet(nodes: seq<BddNode>, S: set<int>) {
    forall i :: i in S ==> ClosedAt(nodes, S, i)
  }

  ghost predicate ClosedAt(nodes: seq<BddNode>, S: set<int>, i: int) {
    Live(nodes, i) && (nodes[i].low < 2 || nodes[i].low in S) && (nodes[i].high < 2 || nodes[i].high in S)
  }

  lemma {:induction false} ClosedReach(nodes: seq<BddNode>, lev: seq<nat>, S: set<int>, i: int)
    requires Ordered(nodes, lev) && ClosedSet(nodes, S) && i in S && Ref(nodes, i)
    ensures Reach(nodes, lev, i) <= S
    decreases |lev| - Pos(nodes, lev, i)
  {
    assert i >= 2 ==> NodeOk(nodes, lev, i);
    if i >= 2 {
      if nodes[i].low >= 2 { ClosedReach(nodes, lev, S, nodes[i].low); }
      if nodes[i].high >= 2 { ClosedReach(nodes, lev, S, nodes[i].high); }
    }
  }

  ghost predicate IsRoot(nodes: seq<BddNode>, stack: seq<int>, r: int) {
    Ref(nodes, r) && (r in stack || nodes[r].refcount > 0)
  }

  ghost predicate IsProtected(nodes: seq<BddNode>, lev: seq<nat>, stack: seq<int>, i: int)
    requires Ordered(nodes, lev)
  {
    exists r :: IsRoot(nodes, stack, r) && i in Reach(nodes, lev, r)
  }

  /** The nodes reachable from the reference stack or from a node with a positive count. */
  ghost function Protected(nodes: seq<BddNode>, lev: seq<nat>, stack: seq<int>): set<int>
    requires Ordered(nodes, lev)
  {
    set i | 2 <= i < |nodes| && IsProtected(nodes, lev, stack, i)
  }

  lemma RootProtects(nodes: seq<BddNode>, lev: seq<nat>, stack: seq<int>, r: int)
    requires Ordered(nodes, lev) && IsRoot(nodes, stack, r)
    ensures Reach(nodes, lev, r) <= Protected(nodes, lev, stack)
  {
    forall j | j in Reach(nodes, lev, r) ensures j in Protected(nodes, lev, stack) {
      ReachBelow(nodes, lev, r, j);
    }
  }

  lemma ProtectedClosed(nodes: seq<BddNode>, lev: seq<nat>, stack: seq<int>)
    requires Ordered(nodes, lev)
    ensures ClosedSet(nodes, Protected(nodes, lev, stack))
  {
    var P := Protected(nodes, lev, stack);
    forall i | i in P ensures ClosedAt(nodes, P, i) {
      var r :| IsRoot(nodes, stack, r) && i in Reach(nodes, lev, r);
      ReachBelow(nodes, lev, r, i);
      RootProtects(nodes, lev, stack, r);
      assert NodeOk(nodes, lev, i);
      assert nodes[i].low >= 2 ==> nodes[i].low in Reach(nodes, lev, i);
      assert nodes[i].high >= 2 ==> nodes[i].high in Reach(nodes, lev, i);
    }
  }

  /** The cofactor of f by the variable at level v, which does not lie below the top of f. */
  ghost function Child(nodes: seq<BddNode>, f: int, v: nat, b: bool): int
    requires 0 <= f < |nodes|
  {
    if f >= 2 && nodes[f].level == v then (if b then nodes[f].high else nodes[f].low) else f
  }

  // ---- what is left alone -----------------------------------------------------------

  /** The nodes of the closed set S and the terminals are still there, unchanged and with
      the same count. */
  ghost predicate Retains(n0: seq<BddNode>, n1: seq<BddNode>, S: set<int>) {
    && ClosedSet(n0, S) && 2 <= |n0| <= |n1|
    && SameNode(n0, n1, 0) && SameNode(n0, n1, 1)
    && forall i {:trigger i in S} :: i in S ==> SameNode(n0, n1, i)
  }

  ghost predicate SameNode(n0: seq<BddNode>, n1: seq<BddNode>, i: int) {
    0 <= i < |n0| && i < |n1| && SameTriple(n1[i], n0[i]) && n1[i].refcount == n0[i].refcount
  }

  ghost function AllLive(nodes: seq<BddNode>): set<int> { set i | 2 <= i < |nodes| && Live(nodes, i) }

  /** Nothing was collected. */
  ghost predicate Extends(n0: seq<BddNode>, n1: seq<BddNode>) {
    Retains(n0, n1, AllLive(n0))
  }

  lemma RetainsLive(n0: seq<BddNode>, n1: seq<BddNode>, S: set<int>, i: int)
    requires Retains(n0, n1, S) && i in S
    ensures Live(n0, i) && Live(n1, i)
  {
  }

  lemma {:induction false} RetainsEval(n0: seq<BddNode>, n1: seq<BddNode>, lev: seq<nat>, S: set<int>, i: int, env: Env)
    requires Ordered(n0, lev) && Ordered(n1, lev) && Retains(n0, n1, S) && (i in S || i == 0 || i == 1)
    ensures Ref(n0, i) && Ref(n1, i) && Eval(n1, lev, i, env) == Eval(n0, lev, i, env)
    decreases if Ref(n0, i) then |lev| - Pos(n0, lev, i) else 0
  {
    if i >= 2 {
      assert i in S;
      assert NodeOk(n0, lev, i) && NodeOk(n1, lev, i);
      RetainsEval(n0, n1, lev, S, n0[i].low, env);
      RetainsEval(n0, n1, lev, S, n0[i].high, env);
    }
  }

  lemma {:induction false} RetainsReach(n0: seq<BddNode>, n1: seq<BddNode>, lev: seq<nat>, S: set<int>, i: int)
    requires Ordered(n0, lev) && Ordered(n1, lev) && Retains(n0, n1, S) && (i in S || i == 0 || i == 1)
    ensures Ref(n0, i) && Ref(n1, i) && Reach(n1, lev, i) == Reach(n0, lev, i)
    decreases if Ref(n0, i) then |lev| - Pos(n0, lev, i) else 0
  {
    if i >= 2 {
      assert i in S;
      assert NodeOk(n0, lev, i) && NodeOk(n1, lev, i);
      RetainsReach(n0, n1, lev, S, n0[i].low);
      RetainsReach(n0, n1, lev, S, n0[i].high);
    }
  }

  lemma {:induction false} RetainsSupport(n0: seq<BddNode>, n1: seq<BddNode>, lev: seq<nat>, S: set<int>, i: int)
    requires Ordered(n0, lev) && Ordered(n1, lev) && Retains(n0, n1, S) && (i in S || i == 0 || i == 1)
    ensures Ref(n0, i) && Ref(n1, i) && Support(n1, lev, i) == Support(n0, lev, i)
    decreases if Ref(n0, i) then |lev| - Pos(n0, lev, i) else 0
  {
    if i >= 2 {
      assert i in S;
      assert NodeOk(n0, lev, i) && NodeOk(n1, lev, i);
      RetainsSupport(n0, n1, lev, S, n0[i].low);
      RetainsSupport(n0, n1, lev, S, n0[i].high);
    }
  }

  /** What was protected stays protected, even when the stack has grown. */
  lemma RetainsProtected(n0: seq<BddNode>, n1: seq<BddNode>, lev: seq<nat>, s0: seq<int>, s1: seq<int>)
    requires Ordered(n0, lev) && Ordered(n1, lev) && Retains(n0, n1, Protected(n0, lev, s0))
    requires forall r :: r in s0 ==> r in s1
    ensures Protected(n0, lev, s0) <= Protected(n1, lev, s1)
  {
    var P := Protected(n0, lev, s0);
    forall i | i in P ensures i in Protected(n1, lev, s1) {
      var r :| IsRoot(n0, s0, r) && i in Reach(n0, lev, r);
      if r >= 2 {
        RootProtects(n0, lev, s0, r);
        RetainsReach(n0, n1, lev, P, r);
        assert IsRoot(n1, s1, r);
      }
    }
  }

  lemma RetainsTransitive(n0: seq<BddNode>, n1: seq<BddNode>, n2: seq<BddNode>, S0: set<int>, S1: set<int>)
    requires Retains(n0, n1, S0) && Retains(n1, n2, S1) && S0 <= S1
    ensures Retains(n0, n2, S0)
  {
    forall i | i in S0 ensures SameNode(n0, n2, i) {
      assert SameNode(n0, n1, i);
      assert i in S1;
    }
  }

  lemma ExtendsRetains(n0: seq<BddNode>, n1: seq<BddNode>, S: set<int>)
    requires Extends(n0, n1) && ClosedSet(n0, S)
    ensures Retains(n0, n1, S)
  {
    forall i | i in S ensures SameNode(n0, n1, i) {
      assert i in AllLive(n0);
    }
  }

  lemma ExtendsSelf(nodes: seq<BddNode>, lev: seq<nat>)
    requires Ordered(nodes, lev)
    ensures Extends(nodes, nodes)
  {
    forall i | i in AllLive(nodes)
      ensures ClosedAt(nodes, AllLive(nodes), i)
    {
      assert NodeOk(nodes, lev, i);
    }
  }
}
