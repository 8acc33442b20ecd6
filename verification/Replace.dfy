/** bdd_replace and bdd_correctify, run on the kernel. */
module Replace {
  import opened NodeTable
  import opened Diagram
  import opened KernelTheory
  import opened Collection
  import opened BddKernel
  import opened Operators
  import opened Renaming
  import opened Answers

  const CACHEID_REPLACE: int := 0

  /** The outcome of an operation: a result, BDD_REPLACE or BDD_NODENUM. */
  datatype Status = Done | BadReplace | NoRoom

  /** A substitution table: a diagram per level, the last level that is not the identity, and
      the number under which results are cached. */
  datatype Pair = Pair(result: seq<int>, last: int, id: nat)

  /** What a substitution table means: the level that replaces each level, the identity beyond last. */
  datatype Meaning = Meaning(to: seq<nat>, last: int)

  /** The levels that T gives to the variables of the table. */
  ghost predicate Targets(nodes: seq<BddNode>, n: nat, p: Pair, T: seq<nat>) {
    && |p.result| == |T| == n && p.last < n
    && (forall l :: 0 <= l < n && l <= p.last ==> TargetAt(nodes, n, p, T, l))
    && (forall l :: 0 <= l < n && l > p.last ==> T[l] == l)
  }

  ghost predicate TargetAt(nodes: seq<BddNode>, n: nat, p: Pair, T: seq<nat>, l: nat)
    requires l < |p.result| == |T|
  {
    Live(nodes, p.result[l]) && nodes[p.result[l]].level == T[l] < n
  }

  /** Every cached result is the renaming by the table it was cached for, where that table is used,
      and no clash was met. */
  ghost predicate CacheTrue(nodes: seq<BddNode>, lev: seq<nat>, cache: seq<CacheEntry>, tables: map<int, Meaning>) {
    |cache| > 0 && Ordered(nodes, lev) && forall k :: 0 <= k < |cache| ==> EntryTrue(nodes, lev, cache[k], tables)
  }

  ghost predicate EntryTrue(nodes: seq<BddNode>, lev: seq<nat>, e: CacheEntry, tables: map<int, Meaning>)
    requires Ordered(nodes, lev)
  {
    IsCached(e) ==>
      && e.c in tables && Ref(nodes, e.a)
      && (nodes[e.a].level <= tables[e.c].last ==> Told(nodes, lev, tables[e.c].to, e.a, e.res))
  }

  /** A result of bdd_replace: the numbers of the other operations on this cache have other last digits. */
  predicate IsCached(e: CacheEntry) { e.a != -1 && e.c % 4 == 0 }

  ghost predicate Told(nodes: seq<BddNode>, lev: seq<nat>, T: seq<nat>, a: int, res: int)
    requires Ordered(nodes, lev) && Ref(nodes, a)
  {
    ReplacedBy(nodes, nodes, lev, T, a, res) && !Clashes(nodes, lev, T, a)
  }

  ghost predicate Ready(k: Kernel, tables: map<int, Meaning>)
    reads k
  {
    k.Valid() && CacheTrue(k.nodes, Levels(k.varnum), k.replacecache, tables)
  }

  ghost predicate Stepped(k: Kernel, tables: map<int, Meaning>, n0: seq<BddNode>, M: set<int>, s: seq<int>)
    reads k
  {
    Ready(k, tables) && k.refstack == s && Retains(n0, k.nodes, M)
  }

  /** The variables of two operands. */
  ghost function Vars(k: Kernel, l: int, r: int): set<nat>
    reads k
    requires k.Valid() && Ref(k.nodes, l) && Ref(k.nodes, r)
  {
    Support(k.nodes, Levels(k.varnum), l) + Support(k.nodes, Levels(k.varnum), r)
  }

  lemma TrueAfter(n0: seq<BddNode>, n1: seq<BddNode>, lev: seq<nat>, cache: seq<CacheEntry>, cache': seq<CacheEntry>, tables: map<int, Meaning>)
    requires CacheTrue(n0, lev, cache, tables) && Ordered(n1, lev) && |cache'| == |cache|
    requires (Extends(n0, n1) && cache' == cache) || EmptyCache(cache')
    ensures CacheTrue(n1, lev, cache', tables)
  {
    hide Ordered, Told, Extends;
    if !EmptyCache(cache') {
      forall k | 0 <= k < |cache'| ensures EntryTrue(n1, lev, cache'[k], tables) {
        var e := cache[k];
        assert EntryTrue(n0, lev, e, tables);
        if IsCached(e) {
          ExtendsRef(n0, n1, e.a);
          if n0[e.a].level <= tables[e.c].last {
            ToldAfter(n0, n1, lev, tables[e.c].to, e.a, e.res);
          }
        }
      }
    }
  }

  lemma ExtendsRef(n0: seq<BddNode>, n1: seq<BddNode>, a: int)
    requires Extends(n0, n1) && Ref(n0, a)
    ensures Ref(n1, a) && n1[a].level == n0[a].level
  {
    assert a >= 2 ==> a in AllLive(n0) && SameNode(n0, n1, a);
  }

  lemma ToldAfter(n0: seq<BddNode>, n1: seq<BddNode>, lev: seq<nat>, T: seq<nat>, a: int, res: int)
    requires Ordered(n0, lev) && Ordered(n1, lev) && Ref(n0, a) && Ref(n1, a) && Extends(n0, n1) && Told(n0, lev, T, a, res)
    ensures Told(n1, lev, T, a, res)
  {
    KeptReplaced(n0, n0, n1, lev, AllLive(n0), T, a, res);
    NowReplaced(n0, n1, lev, AllLive(n0), T, a, res);
    RetainsClashes(n0, n1, lev, AllLive(n0), T, a);
  }

  lemma TrueStored(nodes: seq<BddNode>, lev: seq<nat>, cache: seq<CacheEntry>, tables: map<int, Meaning>, h: nat, e: CacheEntry)
    requires CacheTrue(nodes, lev, cache, tables) && h < |cache| && e.c in tables && Ref(nodes, e.a) && Told(nodes, lev, tables[e.c].to, e.a, e.res)
    ensures CacheTrue(nodes, lev, cache[h := e], tables)
  {
    var cache' := cache[h := e];
    forall k | 0 <= k < |cache| ensures EntryTrue(nodes, lev, cache'[k], tables) { assert EntryTrue(nodes, lev, cache[k], tables); }
  }

  lemma TrueTells(nodes: seq<BddNode>, lev: seq<nat>, cache: seq<CacheEntry>, tables: map<int, Meaning>, h: nat)
    requires CacheTrue(nodes, lev, cache, tables) && h < |cache| && IsCached(cache[h])
    ensures cache[h].c in tables && Ref(nodes, cache[h].a)
    ensures nodes[cache[h].a].level <= tables[cache[h].c].last ==>
              Told(nodes, lev, tables[cache[h].c].to, cache[h].a, cache[h].res) && Ref(nodes, cache[h].res)
  {
    assert EntryTrue(nodes, lev, cache[h], tables);
  }

  lemma CacheSize(nodes: seq<BddNode>, lev: seq<nat>, cache: seq<CacheEntry>, tables: map<int, Meaning>)
    requires CacheTrue(nodes, lev, cache, tables)
    ensures |cache| > 0
  {
  }

  lemma Idle(k: Kernel, tables: map<int, Meaning>)
    requires Ready(k, tables)
    ensures Stepped(k, tables, k.nodes, k.Roots(), k.refstack) && Ordered(k.nodes, Levels(k.varnum))
  {
    RetainsNow(k);
  }

  /** bdd_correctify: "if level then r else l" for operands that may lie above level.  It fails
      with BDD_REPLACE exactly when level is a variable of an operand. */
  method Correctify(k: Kernel, ghost tables: map<int, Meaning>, level: nat, l: int, r: int) returns (st: Status, res: int)
    requires Ready(k, tables) && Held(k, l) && Held(k, r) && Ref(k.nodes, l) && Ref(k.nodes, r) && level < k.varnum
    requires |k.refstack| + 2 * |Vars(k, l, r)| <= 2 * k.varnum + 4
    modifies k`nodes, k`freepos, k`freenum, k`L, k`misccache, k`replacecache, k`refstack
    ensures st == Done ==> Stepped(k, tables, old(k.nodes), old(k.Roots()), old(k.refstack)) && Ref(k.nodes, res)
    ensures st == Done ==> IteOf(old(k.nodes), k.nodes, Levels(k.varnum), level, l, r, res) && level !in old(Vars(k, l, r))
    ensures st == BadReplace ==> level in old(Vars(k, l, r))
    ensures st == NoRoom ==> GaveUp(k, old(k.nodes), old(k.Roots())) && NoIte(old(k.nodes), k.nodes, Levels(k.varnum), level, l, r)
    decreases 2 * k.varnum - k.nodes[l].level - k.nodes[r].level, 2
  {
    hide GaveUp, NoIte, Graph, Lists, CacheTrue, Retains, Extends, IteOf, Levels, Protected, EmptyCache, Support, Fitting, IsNode, Child;
    res := 0;
    HeldFacts(k, l);
    HeldFacts(k, r);
    Idle(k, tables);
    ghost var n0, M, d := k.nodes, k.Roots(), 2 * k.varnum - k.nodes[l].level - k.nodes[r].level;
    if level < k.nodes[l].level && level < k.nodes[r].level {
      st, res := Direct(k, tables, level, l, r);
      return;
    }
    if level == k.nodes[l].level || level == k.nodes[r].level {
      TopInSupport(n0, k.varnum, l, level);
      TopInSupport(n0, k.varnum, r, level);
      return BadReplace, 0;
    }
    var v := if k.nodes[l].level < k.nodes[r].level then k.nodes[l].level else k.nodes[r].level;
    Sides(k, d, v, l, r);
    if k.nodes[l].level == k.nodes[r].level {
      st, res := Both(k, tables, d, level, v, k.nodes[l].low, k.nodes[r].low, k.nodes[l].high, k.nodes[r].high, l, r);
    } else if k.nodes[l].level < k.nodes[r].level {
      st, res := Both(k, tables, d, level, v, k.nodes[l].low, r, k.nodes[l].high, r, l, r);
    } else {
      st, res := Both(k, tables, d, level, v, l, k.nodes[r].low, l, k.nodes[r].high, l, r);
    }
  }

  /** The operands of the two recursive calls when v is the upper variable of l and r. */
  lemma Sides(k: Kernel, d: nat, v: nat, l: int, r: int)
    requires k.Valid() && Held(k, l) && Held(k, r) && Ref(k.nodes, l) && Ref(k.nodes, r) && v < k.varnum
    requires d == 2 * k.varnum - k.nodes[l].level - k.nodes[r].level
    requires v <= k.nodes[l].level && v <= k.nodes[r].level && (v == k.nodes[l].level || v == k.nodes[r].level)
    ensures forall b :: Side(k, d, v, l, r, Child(k.nodes, l, v, b), Child(k.nodes, r, v, b))
    ensures ChildCases(k.nodes, l, v) && ChildCases(k.nodes, r, v)
  {
    hide Graph, Lists, Protected, Side, ChildCases;
    HeldFacts(k, l);
    HeldFacts(k, r);
    WhichChildren(k.nodes, k.varnum, l, v);
    WhichChildren(k.nodes, k.varnum, r, v);
    forall b ensures Side(k, d, v, l, r, Child(k.nodes, l, v, b), Child(k.nodes, r, v, b)) {
      SideAt(k, d, v, l, r, b);
    }
  }

  ghost predicate ChildCases(nodes: seq<BddNode>, f: int, v: nat)
    requires 0 <= f < |nodes|
  {
    && (v == nodes[f].level ==> Child(nodes, f, v, false) == nodes[f].low && Child(nodes, f, v, true) == nodes[f].high)
    && (v < nodes[f].level ==> Child(nodes, f, v, false) == Child(nodes, f, v, true) == f)
  }

  lemma WhichChildren(nodes: seq<BddNode>, n: nat, f: int, v: nat)
    requires Ref(nodes, f) && v < n && (f < 2 <==> nodes[f].level == n)
    ensures ChildCases(nodes, f, v)
  {
  }

  lemma SideAt(k: Kernel, d: nat, v: nat, l: int, r: int, b: bool)
    requires k.Valid() && Held(k, l) && Held(k, r) && Ref(k.nodes, l) && Ref(k.nodes, r) && v < k.varnum
    requires d == 2 * k.varnum - k.nodes[l].level - k.nodes[r].level
    requires v <= k.nodes[l].level && v <= k.nodes[r].level && (v == k.nodes[l].level || v == k.nodes[r].level)
    ensures Side(k, d, v, l, r, Child(k.nodes, l, v, b), Child(k.nodes, r, v, b))
  {
    hide Graph, Lists, Protected, Support, Levels;
    HeldFacts(k, l);
    HeldFacts(k, r);
    GraphParts(k.nodes, k.varnum);
    ChildFacts(k.nodes, k.varnum, l, v, b);
    ChildFacts(k.nodes, k.varnum, r, v, b);
    TopInSupport(k.nodes, k.varnum, l, v);
    TopInSupport(k.nodes, k.varnum, r, v);
    FewerVars(Support(k.nodes, Levels(k.varnum), l), Support(k.nodes, Levels(k.varnum), r),
              Support(k.nodes, Levels(k.varnum), Child(k.nodes, l, v, b)), Support(k.nodes, Levels(k.varnum), Child(k.nodes, r, v, b)), v);
  }

  lemma FewerVars(a: set<nat>, b: set<nat>, a': set<nat>, b': set<nat>, v: nat)
    requires a' <= a - {v} && b' <= b - {v} && (v in a || v in b)
    ensures a' + b' <= a + b && |a' + b'| < |a + b|
  {
    SubsetSize(a' + b', (a + b) - {v});
  }

  ghost predicate Side(k: Kernel, d: nat, v: nat, l: int, r: int, l': int, r': int)
    requires k.Valid() && Ref(k.nodes, l) && Ref(k.nodes, r)
    reads k
  {
    && Held(k, l') && Held(k, r') && Ref(k.nodes, l') && Ref(k.nodes, r')
    && v < k.nodes[l'].level <= k.varnum && v < k.nodes[r'].level <= k.varnum
    && d > 2 * k.varnum - k.nodes[l'].level - k.nodes[r'].level
    && Vars(k, l', r') <= Vars(k, l, r) && |Vars(k, l', r')| < |Vars(k, l, r)|
  }

  /** The case of bdd_correctify above both operands. */
  method Direct(k: Kernel, ghost tables: map<int, Meaning>, level: nat, l: int, r: int) returns (st: Status, res: int)
    requires Ready(k, tables) && Held(k, l) && Held(k, r) && Ref(k.nodes, l) && Ref(k.nodes, r) && level < k.varnum
    requires level < k.nodes[l].level && level < k.nodes[r].level
    modifies k`nodes, k`freepos, k`freenum, k`L, k`misccache, k`replacecache
    ensures st == Done ==> Stepped(k, tables, old(k.nodes), old(k.Roots()), old(k.refstack)) && Ref(k.nodes, res)
    ensures st == Done ==> IteOf(old(k.nodes), k.nodes, Levels(k.varnum), level, l, r, res) && level !in old(Vars(k, l, r))
    ensures st != BadReplace
    ensures st == NoRoom ==> GaveUp(k, old(k.nodes), old(k.Roots())) && NoIte(old(k.nodes), k.nodes, Levels(k.varnum), level, l, r)
  {
    hide NoIte, Kernel.Crowded, Graph, Lists, CacheTrue, Retains, Extends, IteOf, Levels, Protected, EmptyCache, Support, IsNode;
    ghost var n0, M, cache := k.nodes, k.Roots(), k.replacecache;
    GraphParts(n0, k.varnum);
    NodeFits(n0, k.varnum, level, l, r);
    NotAbove(n0, k.varnum, l, level);
    NotAbove(n0, k.varnum, r, level);
    var ok;
    ok, res := k.MakeNode(level, l, r);
    GraphParts(k.nodes, k.varnum);
    if !ok {
      KernelGraph(k);
      DirectMissing(n0, k.nodes, k.varnum, M, level, l, r);
      return NoRoom, 0;
    }
    TrueAfter(n0, k.nodes, Levels(k.varnum), cache, k.replacecache, tables);
    IteDirect(n0, k.nodes, k.varnum, M, level, l, r, res);
    st := Done;
  }

  lemma NotAbove(nodes: seq<BddNode>, n: nat, i: int, v: nat)
    requires Ordered(nodes, Levels(n)) && Ref(nodes, i) && v < nodes[i].level
    ensures v !in Support(nodes, Levels(n), i)
  {
    if v in Support(nodes, Levels(n), i) { SupportBelow(nodes, n, i, v); }
  }

  /** Both recursive calls of bdd_correctify, each result put on the reference stack, and the
      node over them. */
  method Both(k: Kernel, ghost tables: map<int, Meaning>, ghost d: nat, level: nat, v: nat, l0: int, r0: int, l1: int, r1: int,
              ghost l: int, ghost r: int) returns (st: Status, res: int)
    requires Ready(k, tables) && Ref(k.nodes, l) && Ref(k.nodes, r) && v < level < k.varnum
    requires Side(k, d, v, l, r, l0, r0) && Side(k, d, v, l, r, l1, r1)
    requires v <= k.nodes[l].level && v <= k.nodes[r].level && (v == k.nodes[l].level || v == k.nodes[r].level)
    requires l0 == Child(k.nodes, l, v, false) && r0 == Child(k.nodes, r, v, false)
    requires l1 == Child(k.nodes, l, v, true) && r1 == Child(k.nodes, r, v, true)
    requires |k.refstack| + 2 * |Vars(k, l, r)| <= 2 * k.varnum + 4
    modifies k`nodes, k`freepos, k`freenum, k`L, k`misccache, k`replacecache, k`refstack
    ensures st == Done ==> Stepped(k, tables, old(k.nodes), old(k.Roots()), old(k.refstack)) && Ref(k.nodes, res)
    ensures st == Done ==> IteOf(old(k.nodes), k.nodes, Levels(k.varnum), level, l, r, res) && level !in old(Vars(k, l, r))
    ensures st == BadReplace ==> level in old(Vars(k, l, r))
    ensures st == NoRoom ==> GaveUp(k, old(k.nodes), old(k.Roots())) && NoIte(old(k.nodes), k.nodes, Levels(k.varnum), level, l, r)
    decreases d, 1
  {
    hide GaveUp, Side, NoIte, Graph, Lists, CacheTrue, Retains, Extends, IteOf, Levels, Protected, EmptyCache, Support, Fitting, IsNode, Child, Ordered;
    ghost var n0, M0, s := k.nodes, k.Roots(), k.refstack;
    var x, y;
    st, x, y := Halves(k, tables, d, level, v, l0, r0, l1, r1, l, r);
    res := 0;
    if st != Done { return; }
    ghost var n2, M2 := k.nodes, k.Roots();
    var ok;
    ok, res := Join(k, tables, v, s, x, y);
    if !ok {
      GaveUpGraph(k, n2, M2);
      GaveUpLater(k, n0, M0, n2, M2);
      NodeMissingIte(n0, n2, k.nodes, k.varnum, M2, level, v, l, r, x, y);
      return NoRoom, 0;
    }
    GraphParts(k.nodes, k.varnum);
    IteSteps(n0, n2, k.nodes, k.varnum, M0, M2, level, v, l, r, x, y, res);
    st := Done;
  }

  /** The two recursive calls. */
  method Halves(k: Kernel, ghost tables: map<int, Meaning>, ghost d: nat, level: nat, v: nat, l0: int, r0: int, l1: int, r1: int,
                ghost l: int, ghost r: int) returns (st: Status, x: int, y: int)
    requires Ready(k, tables) && Ref(k.nodes, l) && Ref(k.nodes, r) && v < level < k.varnum
    requires Side(k, d, v, l, r, l0, r0) && Side(k, d, v, l, r, l1, r1)
    requires v <= k.nodes[l].level && v <= k.nodes[r].level && (v == k.nodes[l].level || v == k.nodes[r].level)
    requires l0 == Child(k.nodes, l, v, false) && r0 == Child(k.nodes, r, v, false)
    requires l1 == Child(k.nodes, l, v, true) && r1 == Child(k.nodes, r, v, true)
    requires |k.refstack| + 2 * |Vars(k, l, r)| <= 2 * k.varnum + 4
    modifies k`nodes, k`freepos, k`freenum, k`L, k`misccache, k`replacecache, k`refstack
    ensures st == Done ==> Ready(k, tables) && k.refstack == old(k.refstack) + [x] + [y] && HalvesHeld(k, old(k.nodes), old(k.Roots()), level, v, l, r, x, y)
    ensures st == Done ==> level !in old(Vars(k, l, r))
    ensures st == BadReplace ==> level in old(Vars(k, l, r))
    ensures st == NoRoom ==> GaveUp(k, old(k.nodes), old(k.Roots())) && NoIte(old(k.nodes), k.nodes, Levels(k.varnum), level, l, r)
    decreases d, 0
  {
    hide GaveUp, NoIte, Graph, Lists, CacheTrue, Retains, Extends, IteOf, Levels, Protected, EmptyCache, Support, Fitting, IsNode, Child, Ordered, ClosedSet, Clean, Targets, EntryTrue, HalvesHeld;
    ghost var n0, M0, s, lev := k.nodes, k.Roots(), k.refstack, Levels(k.varnum);
    GraphParts(n0, k.varnum);
    ChildrenCover(n0, k.varnum, l, v);
    ChildrenCover(n0, k.varnum, r, v);
    y := 0;
    st, x := Correctify(k, tables, level, l0, r0);
    if st != Done {
      if st == NoRoom { IteHalfMissing(n0, k.nodes, k.varnum, level, v, l, r, false); }
      return;
    }
    ghost var n1 := k.nodes;
    GraphParts(n1, k.varnum);
    k.PushRef(x);
    AfterPush(n0, n1, lev, s, x);
    ghost var M1 := k.Roots();
    RetainsDiagram(n0, n1, lev, M0, l1);
    RetainsDiagram(n0, n1, lev, M0, r1);
    st, y := Correctify(k, tables, level, l1, r1);
    if st != Done {
      if st == NoRoom {
        GaveUpGraph(k, n1, M1);
        GaveUpLater(k, n0, M0, n1, M1);
        SecondIteMissing(n0, n1, k.nodes, k.varnum, M0, M1, level, v, l, r);
      }
      return;
    }
    ghost var n2 := k.nodes;
    GraphParts(n2, k.varnum);
    k.PushRef(y);
    AfterPush(n1, n2, lev, s + [x], y);
    TwoHalves(k, n0, n1, M0, M1, level, v, l, r, x, y);
  }

  /** Both halves are in the table, and held. */
  ghost predicate HalvesHeld(k: Kernel, n0: seq<BddNode>, M0: set<int>, level: nat, v: nat, l: int, r: int, x: int, y: int)
    reads k
    requires Ref(n0, l) && Ref(n0, r)
  {
    && k.Valid() && Retains(n0, k.nodes, M0) && M0 <= k.Roots() && Ordered(n0, Levels(k.varnum)) && Ordered(k.nodes, Levels(k.varnum))
    && IteOf(n0, k.nodes, Levels(k.varnum), level, Child(n0, l, v, false), Child(n0, r, v, false), x)
    && IteOf(n0, k.nodes, Levels(k.varnum), level, Child(n0, l, v, true), Child(n0, r, v, true), y)
    && Fitting(k.nodes, k.varnum, v, x, y)
    && (x == 0 || x == 1 || x in k.Roots()) && (y == 0 || y == 1 || y in k.Roots())
  }

  lemma TwoHalves(k: Kernel, n0: seq<BddNode>, n1: seq<BddNode>, M0: set<int>, M1: set<int>, level: nat, v: nat, l: int, r: int, x: int, y: int)
    requires k.Valid() && Retains(n0, n1, M0) && Retains(n1, k.nodes, M1) && M0 <= M1 <= k.Roots()
    requires Ordered(n0, Levels(k.varnum)) && Ordered(n1, Levels(k.varnum)) && Ordered(k.nodes, Levels(k.varnum))
    requires Ref(n0, l) && Ref(n0, r) && v < level < k.varnum && v <= n0[l].level && v <= n0[r].level
    requires IteOf(n0, n1, Levels(k.varnum), level, Child(n0, l, v, false), Child(n0, r, v, false), x)
    requires IteOf(n1, k.nodes, Levels(k.varnum), level, Child(n0, l, v, true), Child(n0, r, v, true), y)
    requires x == 0 || x == 1 || x in M1
    requires y == 0 || y == 1 || y in k.Roots()
    requires var c := Child(n0, l, v, true); c == 0 || c == 1 || c in M0
    requires var c := Child(n0, r, v, true); c == 0 || c == 1 || c in M0
    ensures HalvesHeld(k, n0, M0, level, v, l, r, x, y)
  {
    hide IteOf, Retains, Child, Ordered, Levels, Graph, Lists, Protected, Fitting;
    var lev, n2 := Levels(k.varnum), k.nodes;
    KeptIte(n0, n1, n2, lev, M1, level, Child(n0, l, v, false), Child(n0, r, v, false), x);
    LaterIte(n0, n1, n2, lev, M0, level, Child(n0, l, v, true), Child(n0, r, v, true), y);
    RetainsTransitive(n0, n1, n2, M0, M1);
    ChildBelow(n0, k.varnum, l, v, false);
    ChildBelow(n0, k.varnum, r, v, false);
    ChildBelow(n0, k.varnum, l, v, true);
    ChildBelow(n0, k.varnum, r, v, true);
    IteLevel(n0, n2, lev, level, v, Child(n0, l, v, false), Child(n0, r, v, false), x);
    IteLevel(n0, n2, lev, level, v, Child(n0, l, v, true), Child(n0, r, v, true), y);
    NodeFits(n2, k.varnum, v, x, y);
  }

  /** The node over the two results on top of the reference stack. */
  method Join(k: Kernel, ghost tables: map<int, Meaning>, v: nat, ghost s: seq<int>, ghost x: int, ghost y: int) returns (ok: bool, res: int)
    requires Ready(k, tables) && k.refstack == s + [x] + [y] && Fitting(k.nodes, k.varnum, v, x, y)
    requires (x == 0 || x == 1 || x in k.Roots()) && (y == 0 || y == 1 || y in k.Roots())
    modifies k`nodes, k`freepos, k`freenum, k`L, k`misccache, k`replacecache, k`refstack
    ensures ok ==> Stepped(k, tables, old(k.nodes), old(k.Roots()), s)
    ensures ok ==> IsNode(k.nodes, res, v, x, y) && Ref(k.nodes, res)
    ensures !ok ==> GaveUp(k, old(k.nodes), old(k.Roots())) && x != y && Absent(k.nodes, v, x, y)
  {
    hide Kernel.Crowded, Absent, Graph, Lists, CacheTrue, Retains, Extends, Levels, Protected, EmptyCache, Fitting, IsNode;
    ghost var n2, cache := k.nodes, k.replacecache;
    GraphParts(n2, k.varnum);
    ok, res := k.MakeNode(v, k.ReadRef(2), k.ReadRef(1));
    GraphParts(k.nodes, k.varnum);
    if !ok { return; }
    TrueAfter(n2, k.nodes, Levels(k.varnum), cache, k.replacecache, tables);
    k.PopRef(2);
    assert k.refstack == s;
  }

  lemma IteLevel(n0: seq<BddNode>, n1: seq<BddNode>, lev: seq<nat>, level: nat, v: nat, l: int, r: int, res: int)
    requires IteOf(n0, n1, lev, level, l, r, res) && v < level && v < n0[l].level && v < n0[r].level
    ensures Ref(n1, res) && v < n1[res].level
  {
  }

  lemma KernelGraph(k: Kernel)
    requires k.Valid()
    ensures Graph(k.nodes, k.varnum)
  {
  }

  lemma GaveUpGraph(k: Kernel, n0: seq<BddNode>, M: set<int>)
    requires GaveUp(k, n0, M)
    ensures Graph(k.nodes, k.varnum) && Retains(n0, k.nodes, M)
  {
  }

  lemma SecondIteMissing(n0: seq<BddNode>, n1: seq<BddNode>, n2: seq<BddNode>, n: nat, M0: set<int>, M1: set<int>, level: nat, v: nat, l: int, r: int)
    requires Retains(n0, n1, M0) && Retains(n1, n2, M1) && M0 <= M1 && Ordered(n0, Levels(n)) && Ordered(n1, Levels(n)) && Ref(n0, l) && Ref(n0, r)
    requires v < level < n && v <= n0[l].level && v <= n0[r].level
    requires NoIte(n1, n2, Levels(n), level, Child(n0, l, v, true), Child(n0, r, v, true))
    requires var c := Child(n0, l, v, true); c == 0 || c == 1 || c in M0
    requires var c := Child(n0, r, v, true); c == 0 || c == 1 || c in M0
    ensures NoIte(n0, n2, Levels(n), level, l, r) && Retains(n0, n2, M0)
  {
    hide NoIte, Retains, Ordered, Child;
    IteMissingLater(n0, n1, n2, Levels(n), M0, level, Child(n0, l, v, true), Child(n0, r, v, true));
    IteHalfMissing(n0, n2, n, level, v, l, r, true);
    RetainsTransitive(n0, n1, n2, M0, M1);
  }

  lemma NodeMissingIte(n0: seq<BddNode>, n2: seq<BddNode>, n3: seq<BddNode>, n: nat, M2: set<int>, level: nat, v: nat, l: int, r: int, x: int, y: int)
    requires Retains(n2, n3, M2) && Ordered(n0, Levels(n)) && Ordered(n2, Levels(n)) && Graph(n3, n)
    requires Ref(n0, l) && Ref(n0, r) && v < level < n && v <= n0[l].level && v <= n0[r].level
    requires IteOf(n0, n2, Levels(n), level, Child(n0, l, v, false), Child(n0, r, v, false), x)
    requires IteOf(n0, n2, Levels(n), level, Child(n0, l, v, true), Child(n0, r, v, true), y)
    requires x == 0 || x == 1 || x in M2
    requires y == 0 || y == 1 || y in M2
    requires x != y && Absent(n3, v, x, y) && Fitting(n2, n, v, x, y)
    ensures NoIte(n0, n3, Levels(n), level, l, r)
  {
    hide IteOf, Retains, Child, Ordered, Levels, Graph, NoIte, Absent;
    var lev := Levels(n);
    GraphOrdered(n3, n);
    KeptIte(n0, n2, n3, lev, M2, level, Child(n0, l, v, false), Child(n0, r, v, false), x);
    KeptIte(n0, n2, n3, lev, M2, level, Child(n0, l, v, true), Child(n0, r, v, true), y);
    LaterFacts(n2, n3, M2, x);
    LaterFacts(n2, n3, M2, y);
    assert Fitting(n3, n, v, x, y);
    IteNodeMissing(n0, n3, n, level, v, l, r, x, y);
  }

  lemma IteSteps(n0: seq<BddNode>, n2: seq<BddNode>, n3: seq<BddNode>, n: nat, M0: set<int>, M2: set<int>,
                 level: nat, v: nat, l: int, r: int, x: int, y: int, res: int)
    requires Retains(n0, n2, M0) && Retains(n2, n3, M2) && M0 <= M2
    requires Ordered(n0, Levels(n)) && Ordered(n2, Levels(n)) && Ordered(n3, Levels(n))
    requires Ref(n0, l) && Ref(n0, r) && v < n && v < level
    requires v <= n0[l].level && v <= n0[r].level && (v == n0[l].level || v == n0[r].level)
    requires IteOf(n0, n2, Levels(n), level, Child(n0, l, v, false), Child(n0, r, v, false), x)
    requires IteOf(n0, n2, Levels(n), level, Child(n0, l, v, true), Child(n0, r, v, true), y)
    requires x == 0 || x == 1 || x in M2
    requires y == 0 || y == 1 || y in M2
    requires IsNode(n3, res, v, x, y) && Ref(n3, res)
    ensures IteOf(n0, n3, Levels(n), level, l, r, res) && Retains(n0, n3, M0)
  {
    hide IteOf, Retains, IsNode, Child, Ordered, Levels;
    var lev := Levels(n);
    KeptIte(n0, n2, n3, lev, M2, level, Child(n0, l, v, false), Child(n0, r, v, false), x);
    KeptIte(n0, n2, n3, lev, M2, level, Child(n0, l, v, true), Child(n0, r, v, true), y);
    IteBranch(n0, n3, n, level, v, l, r, x, y, res);
    RetainsTransitive(n0, n2, n3, M0, M2);
  }

  // ---- replace_rec ------------------------------------------------------------------

  function ReplaceId(p: Pair): int { 4 * p.id + CACHEID_REPLACE }

  /** The diagrams of the table are protected, and results are cached under its number. */
  ghost predicate PairReady(k: Kernel, tables: map<int, Meaning>, p: Pair)
    reads k
    requires k.Valid()
  {
    && ReplaceId(p) in tables && tables[ReplaceId(p)].last == p.last && Targets(k.nodes, k.varnum, p, tables[ReplaceId(p)].to)
    && forall l :: 0 <= l < |p.result| && l <= p.last ==> p.result[l] in k.Roots()
  }

  /** A node of r gets a variable that one of its renamed children has too. */
  ghost predicate Conflict(k: Kernel, tables: map<int, Meaning>, p: Pair, r: int)
    reads k
    requires k.Valid() && Ref(k.nodes, r) && ReplaceId(p) in tables
  {
    Clashes(k.nodes, Levels(k.varnum), tables[ReplaceId(p)].to, r)
  }

  /** What the next call for r under this number finds. */
  predicate Cached(cache: seq<CacheEntry>, p: Pair, r: int, res: int) {
    |cache| > 0 && var e := cache[r % |cache|]; e.a == r && e.c == ReplaceId(p) && e.res == res
  }

  ghost predicate RoomFor(k: Kernel, r: int)
    reads k
    requires k.Valid()
  {
    Ref(k.nodes, r) && |k.refstack| + 2 * |Support(k.nodes, Levels(k.varnum), r)| <= 2 * k.varnum + 4
  }

  /** The operation has given up, and of some part of r the table has no renaming. */
  ghost predicate NoReplacement(k: Kernel, n0: seq<BddNode>, M: set<int>, T: seq<nat>, r: int)
    reads k
  {
    GaveUp(k, n0, M) && Ordered(n0, Levels(k.varnum)) && Ref(n0, r) && PartMissing(n0, k.nodes, Levels(k.varnum), T, r)
  }

  /** The diagrams of the table outlive a step. */
  lemma PairLater(n0: seq<BddNode>, n1: seq<BddNode>, n: nat, M0: set<int>, M1: set<int>, p: Pair, T: seq<nat>)
    requires Retains(n0, n1, M0) && M0 <= M1 && Targets(n0, n, p, T)
    requires forall l :: 0 <= l < |p.result| && l <= p.last ==> p.result[l] in M0
    ensures Targets(n1, n, p, T)
    ensures forall l :: 0 <= l < |p.result| && l <= p.last ==> p.result[l] in M1
  {
    forall l | 0 <= l < n && l <= p.last ensures TargetAt(n1, n, p, T, l) {
      assert TargetAt(n0, n, p, T, l);
      LaterFacts(n0, n1, M0, p.result[l]);
      assert SameNode(n0, n1, p.result[l]);
    }
  }

  lemma RoomBelow(nodes: seq<BddNode>, n: nat, r: int)
    requires Ordered(nodes, Levels(n)) && Live(nodes, r) && Ref(nodes, nodes[r].low) && Ref(nodes, nodes[r].high)
    ensures |Support(nodes, Levels(n), nodes[r].low)| < |Support(nodes, Levels(n), r)|
    ensures |Support(nodes, Levels(n), nodes[r].high)| < |Support(nodes, Levels(n), r)|
  {
    hide Ordered, Support, Levels;
    BelowSize(nodes, n, r);
    var a, b := Support(nodes, Levels(n), nodes[r].low), Support(nodes, Levels(n), nodes[r].high);
    SubsetSize(a, a + b);
    SubsetSize(b, a + b);
  }

  lemma TargetIs(nodes: seq<BddNode>, n: nat, p: Pair, T: seq<nat>, l: nat)
    requires Targets(nodes, n, p, T) && l < n && l <= p.last
    ensures |p.result| == |T| == n && 2 <= p.result[l] < |nodes| && nodes[p.result[l]].level == T[l] < n
  {
    assert TargetAt(nodes, n, p, T, l);
  }

  /** The recursive part of bdd_replace. */
  method ReplaceRec(k: Kernel, ghost tables: map<int, Meaning>, p: Pair, r: int) returns (st: Status, res: int)
    requires Ready(k, tables) && Held(k, r) && PairReady(k, tables, p) && RoomFor(k, r)
    modifies k`nodes, k`freepos, k`freenum, k`L, k`misccache, k`replacecache, k`refstack
    ensures st == Done ==> Stepped(k, tables, old(k.nodes), old(k.Roots()), old(k.refstack)) && Ref(k.nodes, res)
    ensures st == Done ==> ReplacedBy(old(k.nodes), k.nodes, Levels(k.varnum), tables[ReplaceId(p)].to, r, res)
    ensures st == Done ==> !old(Conflict(k, tables, p, r))
    ensures st == BadReplace ==> old(Conflict(k, tables, p, r))
    ensures st == NoRoom ==> NoReplacement(k, old(k.nodes), old(k.Roots()), tables[ReplaceId(p)].to, r)
    ensures st == Done && r >= 2 && old(k.nodes)[r].level <= p.last ==> Cached(k.replacecache, p, r, res)
    decreases k.varnum - k.nodes[r].level, 1
  {
    hide NoReplacement, Graph, Lists, CacheTrue, Retains, ReplacedBy, Levels, Protected, EmptyCache, Targets, Support, Told, Matters, ClashAt, Clashes;
    HeldFacts(k, r);
    Idle(k, tables);
    ghost var n0, M, T := k.nodes, k.Roots(), tables[ReplaceId(p)].to;
    res := 0;
    if r < 2 || k.nodes[r].level > p.last {
      TargetsSize(n0, k.varnum, p, T);
      NothingToReplace(n0, k.varnum, T, p.last, r);
      NoClashBelow(n0, k.varnum, T, p.last, r);
      return Done, r;
    }
    CacheSize(n0, Levels(k.varnum), k.replacecache, tables);
    var h := r % |k.replacecache|;
    if k.replacecache[h].a == r && k.replacecache[h].c == ReplaceId(p) {
      TrueTells(n0, Levels(k.varnum), k.replacecache, tables, h);
      ToldParts(n0, Levels(k.varnum), T, r, k.replacecache[h].res);
      return Done, k.replacecache[h].res;
    }
    st, res := ReplaceNodeRec(k, tables, p, r);
    if st != Done { return; }
    NowTold(n0, k.nodes, Levels(k.varnum), M, T, r, res);
    CacheSize(k.nodes, Levels(k.varnum), k.replacecache, tables);
    h := r % |k.replacecache|;
    var entry := k.replacecache[h].(a := r, c := ReplaceId(p), res := res);
    TrueStored(k.nodes, Levels(k.varnum), k.replacecache, tables, h, entry);
    k.replacecache := k.replacecache[h := entry];
  }

  lemma ToldParts(nodes: seq<BddNode>, lev: seq<nat>, T: seq<nat>, a: int, res: int)
    requires Ordered(nodes, lev) && Ref(nodes, a) && Told(nodes, lev, T, a, res)
    ensures ReplacedBy(nodes, nodes, lev, T, a, res) && !Clashes(nodes, lev, T, a)
  {
  }

  lemma NowTold(n0: seq<BddNode>, n1: seq<BddNode>, lev: seq<nat>, S: set<int>, T: seq<nat>, r: int, res: int)
    requires ReplacedBy(n0, n1, lev, T, r, res) && Retains(n0, n1, S) && (r in S || r == 0 || r == 1)
    requires Ordered(n0, lev) && Ref(n0, r) && !Clashes(n0, lev, T, r)
    ensures Ordered(n1, lev) && Ref(n1, r) && Told(n1, lev, T, r, res)
  {
    NowReplaced(n0, n1, lev, S, T, r, res);
    RetainsClashes(n0, n1, lev, S, T, r);
  }

  lemma TargetsSize(nodes: seq<BddNode>, n: nat, p: Pair, T: seq<nat>)
    requires Targets(nodes, n, p, T)
    ensures |T| == |p.result| == n && forall l :: 0 <= l < n && l > p.last ==> T[l] == l
  {
  }

  /** The renamed children, put on the reference stack, and bdd_correctify. */
  method ReplaceNodeRec(k: Kernel, ghost tables: map<int, Meaning>, p: Pair, r: int) returns (st: Status, res: int)
    requires Ready(k, tables) && Held(k, r) && PairReady(k, tables, p) && RoomFor(k, r) && r >= 2 && k.nodes[r].level <= p.last
    modifies k`nodes, k`freepos, k`freenum, k`L, k`misccache, k`replacecache, k`refstack
    ensures st == Done ==> Stepped(k, tables, old(k.nodes), old(k.Roots()), old(k.refstack)) && Ref(k.nodes, res)
    ensures st == Done ==> ReplacedBy(old(k.nodes), k.nodes, Levels(k.varnum), tables[ReplaceId(p)].to, r, res)
    ensures st == Done ==> !old(Conflict(k, tables, p, r))
    ensures st == BadReplace ==> old(Conflict(k, tables, p, r))
    ensures st == NoRoom ==> NoReplacement(k, old(k.nodes), old(k.Roots()), tables[ReplaceId(p)].to, r)
    decreases k.varnum - k.nodes[r].level, 0
  {
    hide Graph, Lists, CacheTrue, Retains, ReplacedBy, IteOf, Levels, Protected, EmptyCache, Targets, Support, Told, Matters, ClashAt, Clashes, Reduced, Unique, Kernel.Crowded, NoIte, PartMissing, Ordered, ClosedSet, Clean, EntryTrue;
    ghost var n0, M0, s, lev, T := k.nodes, k.Roots(), k.refstack, Levels(k.varnum), tables[ReplaceId(p)].to;
    GraphParts(n0, k.varnum);
    HeldFacts(k, r);
    RoomBelow(n0, k.varnum, r);
    var v, lo, hi := k.nodes[r].level, k.nodes[r].low, k.nodes[r].high;
    TargetsSize(n0, k.varnum, p, T);
    res := 0;
    var x, y;
    ClashesAt(n0, k.varnum, T, r);
    st, x := ReplaceRec(k, tables, p, lo);
    if st != Done {
      if st == NoRoom { FirstPartMissing(n0, k.nodes, lev, M0, T, r); }
      return;
    }
    ghost var n1 := k.nodes;
    GraphParts(n1, k.varnum);
    k.PushRef(x);
    AfterPush(n0, n1, lev, s, x);
    ghost var M1 := k.Roots();
    PairLater(n0, n1, k.varnum, M0, M1, p, T);
    RetainsDiagram(n0, n1, lev, M0, hi);
    RetainsClashes(n0, n1, lev, M0, T, hi);
    st, y := ReplaceRec(k, tables, p, hi);
    if st != Done {
      if st == NoRoom { SecondPartMissing(n0, n1, k.nodes, lev, M0, M1, T, r); }
      return;
    }
    ghost var n2 := k.nodes;
    GraphParts(n2, k.varnum);
    k.PushRef(y);
    AfterPush(n1, n2, lev, s + [x], y);
    ghost var M2 := k.Roots();
    PairLater(n1, n2, k.varnum, M1, M2, p, T);
    KeptReplaced(n0, n1, n2, lev, M1, T, lo, x);
    LaterReplaced(n0, n1, n2, lev, M0, T, hi, y);
    ReplacedRoom(n0, n2, k.varnum, T, r, x, y);
    TargetIs(n2, k.varnum, p, T, v);
    RetainsTransitive(n0, n1, n2, M0, M1);
    LaterFacts(n1, n2, M1, x);
    GraphCanonical(n2, k.varnum);
    ClashIsMet(n0, n2, lev, T, r, x, y);
    st, res := Correctify(k, tables, k.nodes[p.result[v]].level, k.ReadRef(2), k.ReadRef(1));
    if st != Done {
      if st == NoRoom { ThirdPartMissing(n0, n2, k.nodes, k.varnum, M0, M2, T, r, x, y); }
      return;
    }
    k.PopRef(2);
    ReplaceNode(n0, n2, k.nodes, k.varnum, T, r, x, y, res);
    RetainsTransitive(n0, n2, k.nodes, M0, M2);
    assert k.refstack == s;
  }

  lemma FirstPartMissing(n0: seq<BddNode>, n1: seq<BddNode>, lev: seq<nat>, M0: set<int>, T: seq<nat>, r: int)
    requires Ordered(n0, lev) && Live(n0, r) && Ref(n0, n0[r].low) && PartMissing(n0, n1, lev, T, n0[r].low)
    ensures PartMissing(n0, n1, lev, T, r)
  {
    hide NoReplaced;
    assert NodeOk(n0, lev, r);
    var i :| i in Reach(n0, lev, n0[r].low) && NoReplaced(n0, n1, lev, T, i);
    assert i in Reach(n0, lev, r);
  }

  lemma SecondPartMissing(n0: seq<BddNode>, n1: seq<BddNode>, n2: seq<BddNode>, lev: seq<nat>, M0: set<int>, M1: set<int>, T: seq<nat>, r: int)
    requires Ordered(n0, lev) && Ordered(n1, lev) && Retains(n0, n1, M0) && Retains(n1, n2, M1) && M0 <= M1 && Live(n0, r) && r in M0
    requires Ref(n1, n0[r].high) && PartMissing(n1, n2, lev, T, n0[r].high)
    ensures PartMissing(n0, n2, lev, T, r) && Retains(n0, n2, M0)
  {
    hide PartMissing, Retains, Ordered;
    PartOfChild(n0, n1, n2, lev, M0, T, r, n0[r].high);
    RetainsTransitive(n0, n1, n2, M0, M1);
  }

  lemma ThirdPartMissing(n0: seq<BddNode>, n2: seq<BddNode>, n3: seq<BddNode>, n: nat, M0: set<int>, M2: set<int>, T: seq<nat>, r: int, x: int, y: int)
    requires Ordered(n0, Levels(n)) && Retains(n0, n2, M0) && Retains(n2, n3, M2) && M0 <= M2 && Live(n0, r) && Ref(n0, n0[r].low) && Ref(n0, n0[r].high)
    requires n0[r].level < |T| && ReplacedBy(n0, n2, Levels(n), T, n0[r].low, x) && ReplacedBy(n0, n2, Levels(n), T, n0[r].high, y)
    requires NoIte(n2, n3, Levels(n), T[n0[r].level], x, y)
    ensures PartMissing(n0, n3, Levels(n), T, r) && Retains(n0, n3, M0)
  {
    hide NoIte, NoReplaced, ReplacedBy, Retains;
    ReplacedMissing(n0, n2, n3, n, T, r, x, y);
    RetainsTransitive(n0, n2, n3, M0, M2);
    assert r in Reach(n0, Levels(n), r);
  }

  lemma ClashesAt(nodes: seq<BddNode>, n: nat, T: seq<nat>, r: int)
    requires Ordered(nodes, Levels(n)) && Live(nodes, r) && Ref(nodes, nodes[r].low) && Ref(nodes, nodes[r].high)
    ensures Clashes(nodes, Levels(n), T, r) <==>
              ClashAt(nodes, Levels(n), T, r) || Clashes(nodes, Levels(n), T, nodes[r].low) || Clashes(nodes, Levels(n), T, nodes[r].high)
  {
    hide Matters;
  }

  /** Of every node of r a renaming is protected. */
  ghost predicate RenamingsHeld(k: Kernel, T: seq<nat>, r: int)
    reads k
    requires k.Valid() && Ref(k.nodes, r)
  {
    RenamingsIn(k.nodes, Levels(k.varnum), k.Roots(), T, r)
  }

  /** bdd_replace: simultaneous renaming, unless BDD_REPLACE is raised, which happens exactly at a clash
      and never for an injective table.  The reference stack starts empty and is large enough. */
  method ReplaceOp(k: Kernel, ghost tables: map<int, Meaning>, p: Pair, r: int) returns (st: Status, res: int)
    requires Ready(k, tables) && k.refstack == [] && Ref(k.nodes, r) && Held(k, r) && PairReady(k, tables, p)
    modifies k`nodes, k`freepos, k`freenum, k`L, k`misccache, k`replacecache, k`refstack
    ensures st == Done ==> Stepped(k, tables, old(k.nodes), old(k.Roots()), []) && Ref(k.nodes, res)
    ensures st == Done ==> ReplacedBy(old(k.nodes), k.nodes, Levels(k.varnum), tables[ReplaceId(p)].to, r, res)
    ensures st == Done ==> !old(Conflict(k, tables, p, r))
    ensures st == BadReplace ==> old(Conflict(k, tables, p, r))
    ensures old(InjectiveOn(tables[ReplaceId(p)].to, Below(k.varnum))) ==> st != BadReplace
    ensures st == NoRoom ==> NoReplacement(k, old(k.nodes), old(k.Roots()), tables[ReplaceId(p)].to, r)
    ensures old(RenamingsHeld(k, tables[ReplaceId(p)].to, r)) ==> st != NoRoom
    ensures st == Done && r >= 2 && old(k.nodes)[r].level <= p.last ==> Cached(k.replacecache, p, r, res)
  {
    hide Kernel.Crowded, PartMissing, RenamingsIn, Graph, Lists, CacheTrue, Retains, ReplacedBy, Levels, Protected, Targets, Support, Matters, ClashAt, Clashes, InjectiveOn;
    HeldFacts(k, r);
    GraphParts(k.nodes, k.varnum);
    SupportSize(k.nodes, k.varnum, r);
    InjectiveNoClashBelow(k.nodes, k.varnum, tables[ReplaceId(p)].to, r);
    ghost var n0, M := k.nodes, k.Roots();
    st, res := ReplaceRec(k, tables, p, r);
    if st == NoRoom { RenamingsStay(n0, k.nodes, Levels(k.varnum), M, tables[ReplaceId(p)].to, r); }
  }

  lemma InjectiveNoClashBelow(nodes: seq<BddNode>, n: nat, T: seq<nat>, r: int)
    requires Ordered(nodes, Levels(n)) && Ref(nodes, r)
    ensures InjectiveOn(T, Below(n)) ==> !Clashes(nodes, Levels(n), T, r)
  {
    hide Clashes;
    SupportSize(nodes, n, r);
    if InjectiveOn(T, Below(n)) {
      InjectiveNoClash(nodes, n, T, r);
    }
  }

  lemma GraphCanonical(nodes: seq<BddNode>, n: nat)
    requires Graph(nodes, n)
    ensures Reduced(nodes) && Unique(nodes)
  {
  }

  lemma SupportSize(nodes: seq<BddNode>, n: nat, r: int)
    requires Ordered(nodes, Levels(n)) && Ref(nodes, r)
    ensures |Support(nodes, Levels(n), r)| <= n && forall v :: v in Support(nodes, Levels(n), r) ==> v < n
  {
    forall v | v in Support(nodes, Levels(n), r) ensures v in Below(n) { SupportBelow(nodes, n, r, v); }
    SubsetSize(Support(nodes, Levels(n), r), Below(n));
  }

  ghost function Below(n: nat): (s: set<nat>)
    ensures |s| == n && forall v: nat :: v in s <==> v < n
  {
    if n == 0 then {} else Below(n - 1) + {n - 1}
  }
}
