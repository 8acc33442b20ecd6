/** Garbage collection: recursive marking by a bit in the `level` field, and the sweep that
    rebuilds hash chains and free list. */
module Collection {
  import opened NodeTable
  import opened Diagram
  import opened KernelTheory

  const MARKON: nat := 0x200000

  function Marked(level: nat): bool { level / MARKON % 2 == 1 }

  /** SETMARK */
  function SetMark(level: nat): (r: nat)
    ensures level < MARKON ==> r == level + MARKON
  {
    if Marked(level) then level else level + MARKON
  }

  /** UNMARK */
  function UnMark(level: nat): (r: nat)
    ensures MARKON <= level < 2 * MARKON ==> r == level - MARKON
  {
    level % MARKON
  }

  /** The mark is the bit above the greatest level. */
  lemma MarkIs(level: nat)
    requires level <= 0x1F_FFFF
    ensures !Marked(level) && SetMark(level) == level + 0x20_0000 == SetMark(SetMark(level)) && Marked(SetMark(level))
    ensures UnMark(SetMark(level)) == level == UnMark(level)
  {
  }

  /** The table n0 with the nodes of M marked; hash chains and free list are not described. */
  ghost predicate MarkedAs(n0: seq<BddNode>, nodes: seq<BddNode>, M: set<int>) {
    |nodes| == |n0| && forall i :: 0 <= i < |n0| ==> EntryMarked(n0, nodes, M, i)
  }

  ghost predicate EntryMarked(n0: seq<BddNode>, nodes: seq<BddNode>, M: set<int>, i: int)
    requires 0 <= i < |n0| == |nodes|
  {
    && nodes[i].low == n0[i].low && nodes[i].high == n0[i].high && nodes[i].refcount == n0[i].refcount
    && nodes[i].level == n0[i].level + if i in M then MARKON else 0
  }

  ghost predicate SameHashes(nodes: seq<BddNode>, nodes': seq<BddNode>) {
    |nodes'| == |nodes| && forall i :: 0 <= i < |nodes| ==> nodes'[i].hash == nodes[i].hash
  }

  /** Marked nodes at the position of i or below are completely marked: only the nodes on the
      way to i can still be in progress. */
  ghost predicate FinishedFrom(n0: seq<BddNode>, lev: seq<nat>, M: set<int>, i: int)
    requires Ordered(n0, lev) && Ref(n0, i)
  {
    forall j :: j in M ==> FinishedAt(n0, lev, M, i, j)
  }

  ghost predicate FinishedAt(n0: seq<BddNode>, lev: seq<nat>, M: set<int>, i: int, j: int)
    requires Ordered(n0, lev) && Ref(n0, i)
  {
    Live(n0, j) && (Pos(n0, lev, j) >= Pos(n0, lev, i) ==> Reach(n0, lev, j) <= M)
  }

  lemma IsMarked(n0: seq<BddNode>, nodes: seq<BddNode>, M: set<int>, i: int)
    requires MarkedAs(n0, nodes, M) && Clean(n0) && 0 <= i < |n0|
    ensures Marked(nodes[i].level) <==> i in M
    ensures i !in M ==> nodes[i].level == n0[i].level < MARKON
    ensures nodes[i].low == n0[i].low && nodes[i].high == n0[i].high
  {
    assert EntryMarked(n0, nodes, M, i);
  }

  lemma MarkOne(n0: seq<BddNode>, nodes: seq<BddNode>, M: set<int>, i: int)
    requires MarkedAs(n0, nodes, M) && Clean(n0) && 0 <= i < |n0| && i !in M
    ensures MarkedAs(n0, nodes[i := nodes[i].(level := SetMark(nodes[i].level))], M + {i})
    ensures SameHashes(nodes, nodes[i := nodes[i].(level := SetMark(nodes[i].level))])
  {
    var nodes' := nodes[i := nodes[i].(level := SetMark(nodes[i].level))];
    IsMarked(n0, nodes, M, i);
    forall k | 0 <= k < |n0| ensures EntryMarked(n0, nodes', M + {i}, k) {
      assert EntryMarked(n0, nodes, M, k);
    }
  }

  /** i has been marked; the recursion may enter its low child. */
  lemma EnterLow(n0: seq<BddNode>, lev: seq<nat>, M: set<int>, i: int)
    requires Ordered(n0, lev) && Live(n0, i) && FinishedFrom(n0, lev, M, i) && i !in M
    ensures NodeOk(n0, lev, i) && FinishedFrom(n0, lev, M + {i}, n0[i].low)
    ensures Ref(n0, n0[i].low) && Pos(n0, lev, n0[i].low) > Pos(n0, lev, i)
  {
    assert NodeOk(n0, lev, i);
    forall j | j in M + {i} ensures FinishedAt(n0, lev, M + {i}, n0[i].low, j) {
      if j in M { assert FinishedAt(n0, lev, M, i, j); }
    }
  }

  /** After the low child the recursion may enter the high one. */
  lemma EnterHigh(n0: seq<BddNode>, lev: seq<nat>, M: set<int>, i: int)
    requires Ordered(n0, lev) && Live(n0, i) && FinishedFrom(n0, lev, M, i) && i !in M
    ensures NodeOk(n0, lev, i) && FinishedFrom(n0, lev, M + {i} + Reach(n0, lev, n0[i].low), n0[i].high)
    ensures Ref(n0, n0[i].high) && Pos(n0, lev, n0[i].high) > Pos(n0, lev, i)
  {
    assert NodeOk(n0, lev, i);
    var M2 := M + {i} + Reach(n0, lev, n0[i].low);
    forall j | j in M2 ensures FinishedAt(n0, lev, M2, n0[i].high, j) {
      if j in M { assert FinishedAt(n0, lev, M, i, j); }
      if j in Reach(n0, lev, n0[i].low) { ReachBelow(n0, lev, n0[i].low, j); }
    }
  }

  lemma AllFinished(n0: seq<BddNode>, lev: seq<nat>, M: set<int>, i: int)
    requires Ordered(n0, lev) && Ref(n0, i) && ClosedSet(n0, M)
    ensures FinishedFrom(n0, lev, M, i) && ClosedSet(n0, M + Reach(n0, lev, i))
  {
    forall j | j in M ensures FinishedAt(n0, lev, M, i, j) { ClosedReach(n0, lev, M, j); }
    var R := Reach(n0, lev, i);
    forall j | j in R
      ensures Live(n0, j) && (n0[j].low < 2 || n0[j].low in R) && (n0[j].high < 2 || n0[j].high in R)
    {
      ReachBelow(n0, lev, i, j);
      assert NodeOk(n0, lev, j);
      assert n0[j].low >= 2 ==> n0[j].low in Reach(n0, lev, j);
      assert n0[j].high >= 2 ==> n0[j].high in Reach(n0, lev, j);
    }
  }

  // ---- the roots --------------------------------------------------------------------

  /** What the first k entries of the stack and the first m entries of the table protect. */
  ghost predicate RootUpTo(n0: seq<BddNode>, stack: seq<int>, k: nat, m: nat, r: int) {
    Ref(n0, r) && (r in stack[..if k < |stack| then k else |stack|] || (r < m && n0[r].refcount > 0))
  }

  ghost predicate FoundBy(n0: seq<BddNode>, lev: seq<nat>, stack: seq<int>, k: nat, m: nat, i: int)
    requires Ordered(n0, lev)
  {
    exists r {:trigger RootUpTo(n0, stack, k, m, r)} :: RootUpTo(n0, stack, k, m, r) && i in Reach(n0, lev, r)
  }

  ghost predicate IsFound(n0: seq<BddNode>, lev: seq<nat>, stack: seq<int>, k: nat, m: nat, M: set<int>)
    requires Ordered(n0, lev)
  {
    forall i :: i in M <==> FoundBy(n0, lev, stack, k, m, i)
  }

  lemma FoundNone(n0: seq<BddNode>, lev: seq<nat>, stack: seq<int>)
    requires Ordered(n0, lev)
    ensures IsFound(n0, lev, stack, 0, 0, {})
  {
  }

  lemma FoundMore(n0: seq<BddNode>, lev: seq<nat>, stack: seq<int>, k: nat, m: nat, k': nat, m': nat, x: int, M: set<int>)
    requires Ordered(n0, lev) && IsFound(n0, lev, stack, k, m, M) && Ref(n0, x)
    requires forall r {:trigger RootUpTo(n0, stack, k', m', r)} :: (RootUpTo(n0, stack, k', m', r) ==> RootUpTo(n0, stack, k, m, r) || r == x)
    requires x < 2 || RootUpTo(n0, stack, k', m', x)
    requires forall r {:trigger RootUpTo(n0, stack, k, m, r)} :: RootUpTo(n0, stack, k, m, r) ==> RootUpTo(n0, stack, k', m', r)
    ensures IsFound(n0, lev, stack, k', m', M + Reach(n0, lev, x))
  {
    hide Ordered, Live;
    forall i ensures i in M + Reach(n0, lev, x) <==> FoundBy(n0, lev, stack, k', m', i) {
      if i in M {
        var r :| RootUpTo(n0, stack, k, m, r) && i in Reach(n0, lev, r);
        assert RootUpTo(n0, stack, k', m', r);
      }
      if i in Reach(n0, lev, x) {
        assert RootUpTo(n0, stack, k', m', x);
      }
      if FoundBy(n0, lev, stack, k', m', i) {
        var r :| RootUpTo(n0, stack, k', m', r) && i in Reach(n0, lev, r);
        if r != x { assert RootUpTo(n0, stack, k, m, r); assert FoundBy(n0, lev, stack, k, m, i); }
      }
    }
  }

  lemma FoundStack(n0: seq<BddNode>, lev: seq<nat>, stack: seq<int>, k: nat, M: set<int>)
    requires Ordered(n0, lev) && IsFound(n0, lev, stack, k, 0, M) && k < |stack| && Ref(n0, stack[k])
    ensures IsFound(n0, lev, stack, k + 1, 0, M + Reach(n0, lev, stack[k]))
  {
    hide Ordered, IsFound;
    assert stack[..k + 1] == stack[..k] + [stack[k]];
    FoundMore(n0, lev, stack, k, 0, k + 1, 0, stack[k], M);
  }

  lemma FoundCount(n0: seq<BddNode>, lev: seq<nat>, stack: seq<int>, m: nat, M: set<int>)
    requires Ordered(n0, lev) && IsFound(n0, lev, stack, |stack|, m, M) && m < |n0|
    requires n0[m].refcount > 0 ==> Ref(n0, m)
    ensures IsFound(n0, lev, stack, |stack|, m + 1, if n0[m].refcount > 0 then M + Reach(n0, lev, m) else M)
  {
    hide NodeOk, IsOrder;
    if n0[m].refcount > 0 {
      FoundMore(n0, lev, stack, |stack|, m, |stack|, m + 1, m, M);
    } else {
      FoundMore(n0, lev, stack, |stack|, m, |stack|, m + 1, 0, M);
      assert M + Reach(n0, lev, 0) == M;
    }
  }

  lemma FoundIsProtected(n0: seq<BddNode>, lev: seq<nat>, stack: seq<int>, M: set<int>)
    requires Ordered(n0, lev) && IsFound(n0, lev, stack, |stack|, |n0|, M)
    ensures M == Protected(n0, lev, stack)
  {
    assert stack[..|stack|] == stack;
    forall i ensures i in M <==> i in Protected(n0, lev, stack) {
      if i in M {
        var r :| RootUpTo(n0, stack, |stack|, |n0|, r) && i in Reach(n0, lev, r);
        assert IsRoot(n0, stack, r);
        RootProtects(n0, lev, stack, r);
      }
      if i in Protected(n0, lev, stack) {
        var r :| IsRoot(n0, stack, r) && i in Reach(n0, lev, r);
        assert RootUpTo(n0, stack, |stack|, |n0|, r);
      }
    }
  }

  // ---- the sweep --------------------------------------------------------------------

  /** An entry after the sweep. */
  ghost predicate EntrySwept(n0: seq<BddNode>, nodes: seq<BddNode>, M: set<int>, L: Links, i: int)
    requires 0 <= i < |n0| == |nodes| == |L.owner|
  {
    && nodes[i].refcount == n0[i].refcount && nodes[i].level == n0[i].level
    && if i in M then SameTriple(nodes[i], n0[i]) && L.owner[i] == Bucket(Hash(n0[i].level, n0[i].low, n0[i].high, |n0|))
       else nodes[i].low == -1 && L.owner[i] == Free
  }

  /** The entries from n on have been swept, the others are in no list and still carry the
      marks K. */
  ghost predicate SweptTo(n0: seq<BddNode>, nodes: seq<BddNode>, K: set<int>, M: set<int>, L: Links, n: nat) {
    && 2 <= |n0| == |nodes| == |L.owner| == |L.pos|
    && (forall i :: 0 <= i < |n0| && (i < 2 || i < n) ==> EntryMarked(n0, nodes, K, i))
    && (forall i :: 2 <= i < |n0| && i < n ==> L.owner[i] == Loose)
    && (forall i :: 2 <= i < |n0| && i >= n ==> EntrySwept(n0, nodes, M, L, i))
  }

  lemma SweepStart(n0: seq<BddNode>, nodes: seq<BddNode>, K: set<int>, M: set<int>, L: Links)
    requires MarkedAs(n0, nodes, K) && AllInNone(nodes, L) && |L.pos| == |nodes| >= 2
    ensures SweptTo(n0, nodes, K, M, L, |nodes|)
  {
  }

  /** A marked entry goes back to its bucket, unmarked. */
  function Kept(nodes: seq<BddNode>, i: nat, hash: nat): (r: seq<BddNode>)
    requires 2 <= i < |nodes| && hash < |nodes|
  {
    PushBucket(nodes[i := nodes[i].(level := UnMark(nodes[i].level))], i, hash)
  }

  /** An unmarked entry becomes free. */
  function Dropped(nodes: seq<BddNode>, i: nat, freepos: nat): (r: seq<BddNode>)
    requires 2 <= i < |nodes|
  {
    nodes[i := nodes[i].(low := -1, next := freepos)]
  }

  lemma SweepKeep(n0: seq<BddNode>, nodes: seq<BddNode>, K: set<int>, M: set<int>, L: Links, n: nat, freepos: nat, freenum: int)
    requires Clean(n0) && SweptTo(n0, nodes, K, M, L, n + 1) && 2 <= n < |n0| && n in M
    requires Linked(nodes, L) && FreeOk(L, freepos, freenum)
    ensures UnMark(nodes[n].level) == n0[n].level && nodes[n].low == n0[n].low && nodes[n].high == n0[n].high
    ensures var h := Hash(n0[n].level, n0[n].low, n0[n].high, |n0|);
            && 0 <= nodes[h].hash < |nodes|
            && var nodes', L' := Kept(nodes, n, h), Pushed(L, n, Bucket(h), nodes[h].hash);
               SweptTo(n0, nodes', K, M, L', n) && Linked(nodes', L') && FreeOk(L', freepos, freenum)
  {
    hide Linked, DistinctPos, LinkAt, HeadOk, PairHash, Hash, Clean;
    assert EntryMarked(n0, nodes, K, n);
    CleanLevel(n0, n);
    var h := Hash(n0[n].level, n0[n].low, n0[n].high, |n0|);
    BucketHead(nodes, L, h);
    var n1 := nodes[n := nodes[n].(level := UnMark(nodes[n].level))];
    SameLinks(nodes, n1, L);
    HeadRange(L, Free, freepos);
    PushBucketLinked(n1, L, n, h);
    var nodes', L' := Kept(nodes, n, h), Pushed(L, n, Bucket(h), nodes[h].hash);
    FreeAside(L, L', n, freepos, freenum);
    forall i | 2 <= i < |n0| && i >= n ensures EntrySwept(n0, nodes', M, L', i) {
      assert i > n ==> EntrySwept(n0, nodes, M, L, i);
    }
    forall i | 0 <= i < |n0| && (i < 2 || i < n) ensures EntryMarked(n0, nodes', K, i) {
      assert EntryMarked(n0, nodes, K, i);
    }
  }

  lemma CleanLevel(n0: seq<BddNode>, n: nat)
    requires Clean(n0) && n < |n0|
    ensures n0[n].level < MARKON
  {
  }

  /** A list that n does not enter is described as before. */
  lemma FreeAside(L: Links, L': Links, n: int, freepos: nat, freenum: int)
    requires |L.owner| == |L.pos| == |L'.owner| == |L'.pos| && FreeOk(L, freepos, freenum) && 2 <= n < |L.owner| && L.owner[n] == Loose
    requires HeadOk(L', Free, freepos)
    requires forall i :: 2 <= i < |L.owner| && i != n ==> L'.pos[i] == L.pos[i]
    ensures FreeOk(L', freepos, freenum)
  {
  }

  lemma SweepDrop(n0: seq<BddNode>, nodes: seq<BddNode>, K: set<int>, M: set<int>, L: Links, n: nat, freepos: nat, freenum: int)
    requires Clean(n0) && SweptTo(n0, nodes, K, M, L, n + 1) && 2 <= n < |n0| && n !in M && n !in K
    requires Linked(nodes, L) && FreeOk(L, freepos, freenum)
    ensures 0 <= freepos < |nodes|
    ensures var nodes', L' := Dropped(nodes, n, freepos), Pushed(L, n, Free, freepos);
            SweptTo(n0, nodes', K, M, L', n) && Linked(nodes', L') && FreeOk(L', n, freenum + 1)
  {
    hide Linked, DistinctPos, LinkAt, HeadOk, PairHash, Hash, Clean;
    assert EntryMarked(n0, nodes, K, n);
    HeadRange(L, Free, freepos);
    var n1 := nodes[n := nodes[n].(low := -1)];
    SameLinks(nodes, n1, L);
    PushLinked(n1, L, n, Free, freepos);
    var nodes', L' := Dropped(nodes, n, freepos), Pushed(L, n, Free, freepos);
    assert nodes' == n1[n := n1[n].(next := freepos)];
    forall i | 2 <= i < |n0| && i >= n ensures EntrySwept(n0, nodes', M, L', i) {
      assert i > n ==> EntrySwept(n0, nodes, M, L, i);
    }
    forall i | 0 <= i < |n0| && (i < 2 || i < n) ensures EntryMarked(n0, nodes', K, i) {
      assert EntryMarked(n0, nodes, K, i);
    }
  }

  lemma SweepLevel(n0: seq<BddNode>, nodes: seq<BddNode>, K: set<int>, M: set<int>, L: Links, n: nat)
    requires Clean(n0) && SweptTo(n0, nodes, K, M, L, n + 1) && 2 <= n < |n0|
    ensures Marked(nodes[n].level) <==> n in K
    ensures nodes[n].low == n0[n].low && nodes[n].high == n0[n].high && L.owner[n] == Loose
    ensures n !in K ==> nodes[n].level == n0[n].level
    ensures Hash(n0[n].level, n0[n].low, n0[n].high, |n0|) < |nodes|
  {
    assert EntryMarked(n0, nodes, K, n);
    CleanLevel(n0, n);
  }

  /** Exactly the nodes of M are left, and they are what they were. */
  ghost predicate Collected(n0: seq<BddNode>, nodes: seq<BddNode>, M: set<int>) {
    && |nodes| == |n0| && Retains(n0, nodes, M)
    && forall i {:trigger i in M} :: 2 <= i < |nodes| ==> (Live(nodes, i) <==> i in M)
  }

  lemma SweepEnd(n0: seq<BddNode>, nodes: seq<BddNode>, K: set<int>, M: set<int>, L: Links)
    requires SweptTo(n0, nodes, K, M, L, 2) && ClosedSet(n0, M) && 0 !in K && 1 !in K
    ensures Collected(n0, nodes, M) && Hashed(nodes, L)
    ensures forall i :: 0 <= i < |n0| ==> nodes[i].level == n0[i].level && nodes[i].refcount == n0[i].refcount
  {
    hide Hash;
    forall i | i in M ensures Live(n0, i) && SameNode(n0, nodes, i) && Live(nodes, i) {
      assert EntrySwept(n0, nodes, M, L, i);
    }
    assert EntryMarked(n0, nodes, K, 0) && EntryMarked(n0, nodes, K, 1);
    forall i | 2 <= i < |n0|
      ensures Live(nodes, i) <==> i in M
      ensures L.owner[i] == if nodes[i].low == -1 then Free else Bucket(Hash(nodes[i].level, nodes[i].low, nodes[i].high, |nodes|))
    {
      assert EntrySwept(n0, nodes, M, L, i);
    }
    forall i | 0 <= i < |n0| ensures nodes[i].level == n0[i].level && nodes[i].refcount == n0[i].refcount {
      if i >= 2 { assert EntrySwept(n0, nodes, M, L, i); }
    }
  }

  lemma CollectedGraph(n0: seq<BddNode>, nodes: seq<BddNode>, M: set<int>, n: nat)
    requires Graph(n0, n) && Collected(n0, nodes, M)
    requires forall i :: 0 <= i < |n0| ==> nodes[i].level == n0[i].level && nodes[i].refcount == n0[i].refcount
    requires forall i :: 2 <= i < |n0| && n0[i].refcount > 0 ==> i in M
    ensures Graph(nodes, n)
  {
    forall i | Live(nodes, i) ensures i in M && SameNode(n0, nodes, i) && NodeOk(nodes, Levels(n), i) {
      assert i in M;
      assert NodeOk(n0, Levels(n), i);
      assert SameNode(n0, nodes, i);
      assert n0[i].low >= 2 ==> SameNode(n0, nodes, n0[i].low);
      assert n0[i].high >= 2 ==> SameNode(n0, nodes, n0[i].high);
    }
  }

  // ---- clearing the buckets ---------------------------------------------------------

  ghost predicate ZeroedTo(nodes: seq<BddNode>, n: nat) {
    n <= |nodes| && forall i :: 0 <= i < n ==> nodes[i].hash == 0
  }

  lemma ZeroOne(n0: seq<BddNode>, nodes: seq<BddNode>, M: set<int>, n: nat)
    requires MarkedAs(n0, nodes, M) && ZeroedTo(nodes, n) && n < |nodes|
    ensures MarkedAs(n0, nodes[n := nodes[n].(hash := 0)], M) && ZeroedTo(nodes[n := nodes[n].(hash := 0)], n + 1)
  {
    var nodes' := nodes[n := nodes[n].(hash := 0)];
    forall i | 0 <= i < |n0| ensures EntryMarked(n0, nodes', M, i) { assert EntryMarked(n0, nodes, M, i); }
  }

  lemma HashesZeroed(nodes: seq<BddNode>, nodes': seq<BddNode>, n: nat)
    requires SameHashes(nodes, nodes') && ZeroedTo(nodes, n)
    ensures ZeroedTo(nodes', n)
  {
  }

  lemma NothingMarked(nodes: seq<BddNode>)
    ensures MarkedAs(nodes, nodes, {}) && ClosedSet(nodes, {})
  {
  }

  lemma CountedIsLive(n0: seq<BddNode>, n: nat, i: nat)
    requires Graph(n0, n) && i < |n0| && n0[i].refcount > 0
    ensures Ref(n0, i)
  {
  }

  lemma AllLiveClosed(nodes: seq<BddNode>, n: nat)
    requires Graph(nodes, n)
    ensures ClosedSet(nodes, AllLive(nodes)) && Extends(nodes, nodes)
  {
    ExtendsSelf(nodes, Levels(n));
  }

  // ---- growing and building ---------------------------------------------------------

  lemma GrownGraph(n0: seq<BddNode>, n1: seq<BddNode>, n: nat)
    requires Graph(n0, n) && |n1| >= |n0|
    requires forall i :: 0 <= i < |n0| ==> SameTriple(n1[i], n0[i]) && n1[i].refcount == n0[i].refcount
    requires forall i :: |n0| <= i < |n1| ==> n1[i].low == -1 && n1[i].refcount == 0 && n1[i].level == 0
    ensures Graph(n1, n) && Extends(n0, n1)
  {
    AllLiveClosed(n0, n);
    forall i | i in AllLive(n0) ensures SameNode(n0, n1, i) { }
    forall i | Live(n1, i) ensures Live(n0, i) && NodeOk(n1, Levels(n), i) { assert NodeOk(n0, Levels(n), i); }
  }

  /** Same nodes in the same places, whatever the lists are. */
  lemma SameGraph(n0: seq<BddNode>, n1: seq<BddNode>, n: nat)
    requires Graph(n0, n) && |n1| == |n0|
    requires forall i :: 0 <= i < |n0| ==> SameTriple(n1[i], n0[i]) && n1[i].refcount == n0[i].refcount
    ensures Graph(n1, n) && Extends(n0, n1)
  {
    GrownGraph(n0, n1, n);
  }

  lemma ExtendsTransitive(n0: seq<BddNode>, n1: seq<BddNode>, n2: seq<BddNode>)
    requires Extends(n0, n1) && Extends(n1, n2)
    ensures Extends(n0, n2)
  {
    forall i | i in AllLive(n0) ensures i in AllLive(n1) { assert SameNode(n0, n1, i); }
    RetainsTransitive(n0, n1, n2, AllLive(n0), AllLive(n1));
  }

  /** No allocated node has this triple. */
  ghost predicate Absent(nodes: seq<BddNode>, level: nat, low: int, high: int) {
    forall i {:trigger Live(nodes, i)} :: Live(nodes, i) ==> !(nodes[i].level == level && nodes[i].low == low && nodes[i].high == high)
  }

  /** The node asked for. */
  ghost predicate IsNode(nodes: seq<BddNode>, res: int, level: nat, low: int, high: int) {
    if low == high then res == low
    else Live(nodes, res) && nodes[res].level == level && nodes[res].low == low && nodes[res].high == high
  }

  /** A node "if level then high else low" would be ordered. */
  ghost predicate Fitting(nodes: seq<BddNode>, n: nat, level: nat, low: int, high: int) {
    && level < n && Ref(nodes, low) && Ref(nodes, high)
    && level < nodes[low].level && level < nodes[high].level
  }

  function Made(nodes: seq<BddNode>, r: int, level: nat, low: int, high: int): seq<BddNode>
    requires 2 <= r < |nodes|
  {
    nodes[r := nodes[r].(level := level, low := low, high := high)]
  }

  lemma BuildNodeOk(nodes: seq<BddNode>, nodes': seq<BddNode>, n: nat, r: int, level: nat, low: int, high: int, i: int)
    requires Graph(nodes, n) && Fitting(nodes, n, level, low, high)
    requires Built(nodes, nodes', r, level, low, high) && Live(nodes', i)
    ensures NodeOk(nodes', Levels(n), i)
  {
    hide Unique, Reduced, Clean, IsOrder;
    if i != r {
      assert NodeOk(nodes, Levels(n), i);
      assert nodes[i].low != r && nodes[i].high != r;
    } else {
      assert low != r && high != r;
      assert low >= 2 ==> NodeOk(nodes, Levels(n), low);
      assert high >= 2 ==> NodeOk(nodes, Levels(n), high);
    }
  }

  /** The table with a new node in the free entry r; only hash chains may differ otherwise. */
  ghost predicate Built(nodes: seq<BddNode>, nodes': seq<BddNode>, r: int, level: nat, low: int, high: int) {
    && 2 <= r < |nodes| && nodes[r].low == -1 && |nodes'| == |nodes|
    && nodes'[r].level == level && nodes'[r].low == low && nodes'[r].high == high && nodes'[r].refcount == nodes[r].refcount
    && forall i :: 0 <= i < |nodes| && i != r ==> SameTriple(nodes'[i], nodes[i]) && nodes'[i].refcount == nodes[i].refcount
  }

  lemma BuildUnique(nodes: seq<BddNode>, nodes': seq<BddNode>, r: int, level: nat, low: int, high: int)
    requires Unique(nodes) && Built(nodes, nodes', r, level, low, high) && Absent(nodes, level, low, high)
    ensures Unique(nodes')
  {
    forall i, j | Live(nodes', i) && Live(nodes', j) && SameTriple(nodes'[i], nodes'[j]) ensures i == j {
      if i != r { assert Live(nodes, i); }
      if j != r { assert Live(nodes, j); }
    }
  }

  lemma BuildOrdered(nodes: seq<BddNode>, nodes': seq<BddNode>, n: nat, r: int, level: nat, low: int, high: int)
    requires Graph(nodes, n) && Fitting(nodes, n, level, low, high) && low != high && Built(nodes, nodes', r, level, low, high)
    ensures Ordered(nodes', Levels(n)) && Reduced(nodes')
  {
    hide Unique, Fitting;
    forall i | Live(nodes', i) ensures NodeOk(nodes', Levels(n), i) && nodes'[i].low != nodes'[i].high {
      BuildNodeOk(nodes, nodes', n, r, level, low, high, i);
      assert i != r ==> Live(nodes, i);
    }
  }

  lemma BuildExtends(nodes: seq<BddNode>, nodes': seq<BddNode>, n: nat, r: int, level: nat, low: int, high: int)
    requires Graph(nodes, n) && Built(nodes, nodes', r, level, low, high)
    ensures Extends(nodes, nodes')
  {
    AllLiveClosed(nodes, n);
    forall i | i in AllLive(nodes) ensures SameNode(nodes, nodes', i) { }
  }

  lemma BuildGraph(nodes: seq<BddNode>, nodes': seq<BddNode>, n: nat, r: int, level: nat, low: int, high: int)
    requires Graph(nodes, n) && Fitting(nodes, n, level, low, high) && low != high && Absent(nodes, level, low, high)
    requires Built(nodes, nodes', r, level, low, high)
    ensures Graph(nodes', n) && Extends(nodes, nodes') && IsNode(nodes', r, level, low, high)
  {
    hide Ordered, Reduced, Unique, Absent, Extends;
    BuildUnique(nodes, nodes', r, level, low, high);
    BuildOrdered(nodes, nodes', n, r, level, low, high);
    BuildExtends(nodes, nodes', n, r, level, low, high);
    FittingSigns(nodes, n, level, low, high);
  }

  lemma FittingSigns(nodes: seq<BddNode>, n: nat, level: nat, low: int, high: int)
    requires Fitting(nodes, n, level, low, high)
    ensures level < n && low >= 0 && high >= 0
  {
  }

  lemma BuildLists(nodes: seq<BddNode>, L: Links, freepos: nat, freenum: int, level: nat, low: int, high: int, hash: nat)
    requires Lists(nodes, L, freepos, freenum) && freepos != 0 && low != -1 && hash == Hash(level, low, high, |nodes|)
    ensures 2 <= freepos < |nodes| && nodes[freepos].low == -1 && 0 <= nodes[hash].hash < |nodes|
    ensures Lists(PushBucket(Made(nodes, freepos, level, low, high), freepos, hash),
                  Pushed(L, freepos, Bucket(hash), nodes[hash].hash), nodes[freepos].next, freenum - 1)
  {
    hide LinkAt, DistinctPos, HeadOk, PairHash, Hash, Linked;
    LinkedSizes(nodes, L);
    HeadRange(L, Free, freepos);
    FreeIsFreed(nodes, L, freepos);
    PopLinked(nodes, L, Free, freepos);
    var L1 := L.(owner := L.owner[freepos := Loose]);
    var n1 := Made(nodes, freepos, level, low, high);
    SameLinks(nodes, n1, L1);
    BucketHead(n1, L1, hash);
    PushBucketLinked(n1, L1, freepos, hash);
    var L' := Pushed(L, freepos, Bucket(hash), nodes[hash].hash);
    PopAgain(L, L1, freepos, Bucket(hash), nodes[hash].hash);
    var nodes' := PushBucket(n1, freepos, hash);
    HeadRange(L', Free, nodes[freepos].next);
    PopCount(nodes, L, L', freepos, freenum);
    BuildHashed(nodes, nodes', L, L', freepos, level, low, high, hash);
  }

  lemma FreeIsFreed(nodes: seq<BddNode>, L: Links, r: int)
    requires Hashed(nodes, L) && |L.pos| == |L.owner| && HeadOk(L, Free, r) && r != 0
    ensures 2 <= r < |nodes| && nodes[r].low == -1
  {
    hide Hash;
  }

  lemma PopAgain(L: Links, L1: Links, r: int, o: Owner, h: int)
    requires |L.owner| == |L.pos| && 2 <= r < |L.owner| && 0 <= h < |L.owner| && L1 == L.(owner := L.owner[r := Loose])
    ensures Pushed(L1, r, o, h) == Pushed(L, r, o, h)
  {
    assert L.owner[r := Loose][r := o] == L.owner[r := o];
  }

  lemma PopCount(nodes: seq<BddNode>, L: Links, L': Links, freepos: nat, freenum: int)
    requires |nodes| == |L.owner| == |L.pos| == |L'.owner| == |L'.pos| && FreeOk(L, freepos, freenum) && 2 <= freepos < |nodes|
    requires HeadOk(L', Free, nodes[freepos].next) && forall i :: 2 <= i < |L.pos| && i != freepos ==> L'.pos[i] == L.pos[i]
    requires nodes[freepos].next == 0 <==> L.pos[freepos] == 0
    requires nodes[freepos].next != 0 ==>
               2 <= nodes[freepos].next < |nodes| && nodes[freepos].next != freepos && L.pos[nodes[freepos].next] == L.pos[freepos] - 1
    ensures FreeOk(L', nodes[freepos].next, freenum - 1)
  {
    hide HeadOk;
  }

  lemma BuildHashed(nodes: seq<BddNode>, nodes': seq<BddNode>, L: Links, L': Links, r: int, level: nat, low: int, high: int, hash: nat)
    requires Hashed(nodes, L) && 2 <= r < |nodes| && hash < |nodes| && hash == Hash(level, low, high, |nodes|) && low != -1
    requires nodes' == PushBucket(Made(nodes, r, level, low, high), r, hash) && L'.owner == L.owner[r := Bucket(hash)]
    ensures Hashed(nodes', L')
  {
    hide Hash;
  }

  lemma RehashNext(n0: seq<BddNode>, nodes: seq<BddNode>, i: nat, hash: nat)
    requires 2 <= i < |nodes| == |n0| && hash < |nodes| && nodes[i].level < MARKON
    ensures Kept(nodes, i, hash) == PushBucket(nodes, i, hash)
  {
    assert nodes[i := nodes[i].(level := UnMark(nodes[i].level))] == nodes;
  }

  lemma NoneFree(nodes: seq<BddNode>, L: Links, freepos: nat, freenum: int)
    requires Lists(nodes, L, freepos, freenum)
    ensures freepos == 0 <==> forall i :: 2 <= i < |nodes| ==> nodes[i].low != -1
  {
    hide Hash, LinkAt;
  }
}
