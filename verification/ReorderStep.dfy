/** One step of an exchange of adjacent variables: growing the table, finding or building a
    node of the upper variable, and rewriting one node in place. */
module ReorderStep {
  import opened NodeTable
  import opened Diagram
  import opened RefCount
  import opened ReorderTheory

  ghost function Padded(ext: seq<nat>, n: nat): seq<nat>
    requires |ext| <= n
  {
    ext + seq(n - |ext|, j => 0)
  }

  lemma NoPadding(ext: seq<nat>)
    ensures Padded(ext, |ext|) == ext
  {
  }

  lemma GrowConserved(nodes: seq<BddNode>, nodes': seq<BddNode>, ext: seq<nat>)
    requires Conserved(nodes, ext) && |nodes'| >= |nodes| && nodes'[..|nodes|] == nodes
    requires forall i :: |nodes| <= i < |nodes'| ==> nodes'[i].low == -1 && nodes'[i].refcount == 0
    ensures Conserved(nodes', Padded(ext, |nodes'|))
  {
    forall m | Live(nodes', m) ensures CountOk(nodes', Padded(ext, |nodes'|), m) {
      assert Live(nodes, m);
      InDegreeFree(nodes, nodes'[|nodes|..], m);
      assert nodes' == nodes + nodes'[|nodes|..];
      var d := InDegree(nodes, m);
    }
  }

  lemma GrowHeld(c: Ctx, nodes: seq<BddNode>, nodes': seq<BddNode>, ext: seq<nat>)
    requires |nodes| == |ext| && AllHeld(c, nodes, ext) && |nodes'| >= |nodes| && nodes'[..|nodes|] == nodes
    requires forall i :: |nodes| <= i < |nodes'| ==> nodes'[i].low == -1
    ensures AllHeld(c, nodes', Padded(ext, |nodes'|))
  {
    var ext' := Padded(ext, |nodes'|);
    forall x | Live(nodes', x) && !OldLower(c, x) ensures Held(nodes', ext', x) {
      assert Live(nodes, x) && Held(nodes, ext, x);
      if ext[x] == 0 && nodes[x].refcount != MAXREF {
        var s :| Live(nodes, s) && nodes[s].refcount > 0 && Edges(nodes[s], x) > 0;
        assert Live(nodes', s);
      }
    }
  }

  /** A fresh node referenced once by the running operation. */
  lemma AllocConserved(nodes: seq<BddNode>, nodes': seq<BddNode>, ext: seq<nat>, r: int, low: int, high: int)
    requires Conserved(nodes, ext) && Closed(nodes) && 2 <= r < |nodes| && nodes[r].low == -1
    requires nodes[0].low == nodes[0].high == 0 && nodes[1].low == nodes[1].high == 1
    requires Ref(nodes, low) && Ref(nodes, high) && low != high
    requires |nodes'| == |nodes| && nodes'[r].low == low && nodes'[r].high == high && nodes'[r].refcount == 1
    requires forall i :: 0 <= i < |nodes| && i != r ==> SameTriple(nodes'[i], nodes[i])
    requires forall i :: 0 <= i < |nodes| && i != r ==>
               nodes'[i].refcount == if i == low || i == high then Increased(nodes[i].refcount) else nodes[i].refcount
    ensures Conserved(nodes', Bump(ext, r))
  {
    assert Live(nodes, low) || low < 2;
    assert Live(nodes, high) || high < 2;
    forall m | Live(nodes', m) ensures CountOk(nodes', Bump(ext, r), m) {
      InDegreeUpdate(nodes, r, nodes'[r], m);
      InDegreeSame(nodes[r := nodes'[r]], nodes', m);
      if m == r {
        forall i | 0 <= i < |nodes| ensures Edges(nodes[i], r) == 0 {
          if i >= 2 && nodes[i].low != -1 { assert Live(nodes, i); }
        }
        NoParents(nodes, r);
      } else {
        assert Live(nodes, m);
        assert CountOk(nodes, ext, m) by { var d := InDegree(nodes, m); }
      }
    }
  }

  /** After allocating r at the head of its bucket. */
  lemma AllocPlaced(nodes: seq<BddNode>, nodes': seq<BddNode>, L: Links, L': Links, levels: seq<LevelData>, levels': seq<LevelData>,
                    work: set<int>, r: int)
    requires Placed(nodes, L, levels, work)
    requires |nodes'| == |nodes| == |L'.owner| && 2 <= r < |nodes| && nodes[r].low == -1 && nodes'[r].low != -1 && r !in work
    requires forall i :: 0 <= i < |nodes| && i != r ==> SameTriple(nodes'[i], nodes[i]) && L'.owner[i] == L.owner[i]
    requires nodes'[r].level < |levels| && levels[nodes'[r].level].size > 0
    requires SameSizes(levels, levels')
    requires L'.owner[r] == Home(nodes', levels, r)
    ensures Placed(nodes', L', levels', work)
  {
  }

  /** One more node of v is counted. */
  ghost predicate OneMore(levels: seq<LevelData>, levels': seq<LevelData>, v: nat) {
    v < |levels| && levels' == levels[v := levels[v].(nodenum := levels[v].nodenum + 1)]
  }

  ghost predicate SameSizes(levels: seq<LevelData>, levels': seq<LevelData>) {
    && |levels| == |levels'|
    && forall v :: 0 <= v < |levels| ==> levels'[v].start == levels[v].start && levels'[v].size == levels[v].size
  }

  lemma AllocCounted(nodes: seq<BddNode>, nodes': seq<BddNode>, L: Links, L': Links, levels: seq<LevelData>, levels': seq<LevelData>, r: int)
    requires |nodes'| == |nodes| == |L'.owner| == |L.owner| && 2 <= r < |nodes| && L'.owner[r].Bucket? && !L.owner[r].Bucket?
    requires forall i :: 0 <= i < |nodes| && i != r ==> nodes'[i].level == nodes[i].level && L'.owner[i] == L.owner[i]
    requires Counted(nodes, L, levels) && OneMore(levels, levels', nodes'[r].level)
    ensures Counted(nodes', L', levels')
  {
    forall v | 0 <= v < |levels| ensures levels'[v].nodenum == |InTable(nodes', L', v)| {
      AllocInTable(nodes, nodes', L, L', r, v);
    }
  }

  lemma AllocInTable(nodes: seq<BddNode>, nodes': seq<BddNode>, L: Links, L': Links, r: int, v: nat)
    requires |nodes'| == |nodes| == |L'.owner| == |L.owner| && 2 <= r < |nodes| && L'.owner[r].Bucket? && !L.owner[r].Bucket?
    requires forall i :: 0 <= i < |nodes| && i != r ==> nodes'[i].level == nodes[i].level && L'.owner[i] == L.owner[i]
    ensures |InTable(nodes', L', v)| == |InTable(nodes, L, v)| + if v == nodes'[r].level then 1 else 0
  {
    if v == nodes'[r].level {
      assert r !in InTable(nodes, L, v);
      assert InTable(nodes', L', v) == InTable(nodes, L, v) + {r};
    } else {
      assert InTable(nodes', L', v) == InTable(nodes, L, v);
    }
  }

  lemma AllocHeld(c: Ctx, nodes: seq<BddNode>, nodes': seq<BddNode>, ext: seq<nat>, r: int)
    requires |nodes| == |ext| && AllHeld(c, nodes, ext)
    requires |nodes'| == |nodes| && 2 <= r < |nodes| && nodes[r].low == -1
    requires forall i :: 0 <= i < |nodes| && i != r ==> SameTriple(nodes'[i], nodes[i])
    requires forall i :: 0 <= i < |nodes| && i != r ==> nodes'[i].refcount == nodes[i].refcount || nodes'[i].refcount == Increased(nodes[i].refcount)
    ensures AllHeld(c, nodes', Bump(ext, r))
  {
    forall x | Live(nodes', x) && !OldLower(c, x) ensures Held(nodes', Bump(ext, r), x) {
      if x != r {
        assert Live(nodes, x) && Held(nodes, ext, x);
        if ext[x] == 0 && nodes[x].refcount != MAXREF {
          var s :| Live(nodes, s) && nodes[s].refcount > 0 && Edges(nodes[s], x) > 0;
          assert Live(nodes', s);
        }
      }
    }
  }

  lemma GrowPlaced(nodes: seq<BddNode>, nodes': seq<BddNode>, L: Links, L': Links, levels: seq<LevelData>, work: set<int>, freepos: nat)
    requires Placed(nodes, L, levels, work) && Counted(nodes, L, levels) && Geometry(levels, |nodes|)
    requires |nodes'| >= |nodes| && nodes'[..|nodes|] == nodes && GrownLinks(L, L', |nodes'|, freepos)
    requires forall i :: |nodes| <= i < |nodes'| ==> nodes'[i].low == -1 && nodes'[i].level == 0
    ensures Placed(nodes', L', levels, work) && Counted(nodes', L', levels) && Geometry(levels, |nodes'|)
  {
    assert forall i :: 0 <= i < |nodes| ==> nodes'[i] == nodes[i];
    forall v | 0 <= v < |levels| ensures levels[v].nodenum == |InTable(nodes', L', v)| {
      assert InTable(nodes', L', v) == InTable(nodes, L, v);
    }
  }

  /** Allocated nodes stay what they are. */
  ghost predicate KeepsNodes(nodes: seq<BddNode>, nodes': seq<BddNode>) {
    && |nodes| <= |nodes'|
    && forall i {:trigger Live(nodes', i)} :: Live(nodes, i) ==> Live(nodes', i) && SameTriple(nodes'[i], nodes[i])
  }

  /** The working list is left alone. */
  ghost predicate KeepsWork(nodes: seq<BddNode>, nodes': seq<BddNode>, L: Links, L': Links) {
    && 2 <= |nodes| == |L.owner| == |L.pos| <= |nodes'| == |L'.owner| == |L'.pos|
    && (forall i :: 2 <= i < |nodes| && L.owner[i] == Work ==> L'.pos[i] == L.pos[i] && nodes'[i].next == nodes[i].next)
    && (forall i :: 2 <= i < |nodes'| ==> (L'.owner[i] == Work <==> i < |nodes| && L.owner[i] == Work))
  }

  lemma UnderIsRef(c: Ctx, nodes: seq<BddNode>, done: set<int>, x: int)
    requires CtxOk(c) && Mid(c, nodes, done) && NoneFreed(c, nodes) && Under(c, x)
    ensures Ref(nodes, x)
  {
    assert Live(c.n0, x) ==> Live(nodes, x);
  }

  /** A node in the bucket of (v, low, high) belongs to v. */
  lemma FoundIsMade(c: Ctx, nodes: seq<BddNode>, L: Links, levels: seq<LevelData>, done: set<int>, v: nat, res: int, low: int, high: int)
    requires CtxOk(c) && Mid(c, nodes, done) && Geometry(levels, |nodes|) && Placed(nodes, L, levels, c.U - done)
    requires v == c.v0 && v < |levels| && low != high
    requires 2 <= res < |nodes| && nodes[res].low == low && nodes[res].high == high
    requires L.owner[res] == Bucket(NodeHash(levels, v, low, high)) && Linked(nodes, L)
    ensures Ref(nodes, res) && Mk(c, IncRef(nodes, res), res, low, high) && Ref(IncRef(nodes, res), res)
  {
    hide PairHash, LinkAt, HeadOk, Ordered, Unique;
    assert L.owner[res] == Home(nodes, levels, res);
    assert nodes[res].level == v;
  }

  lemma SameIsMade(c: Ctx, nodes: seq<BddNode>, x: int)
    requires Ref(nodes, x)
    ensures Mk(c, IncRef(nodes, x), x, x, x) && Ref(IncRef(nodes, x), x)
  {
  }

  lemma HashInRange(levels: seq<LevelData>, n: nat, v: nat, low: int, high: int)
    requires Geometry(levels, n) && v < |levels|
    ensures levels[v].size > 0 && levels[v].start <= NodeHash(levels, v, low, high) < levels[v].start + levels[v].size <= n
  {
  }

  lemma SameGeometry(levels: seq<LevelData>, levels': seq<LevelData>, n: nat)
    requires Geometry(levels, n) && SameSizes(levels, levels')
    ensures Geometry(levels', n)
  {
  }

  lemma FreeHead(nodes: seq<BddNode>, L: Links, levels: seq<LevelData>, work: set<int>, freepos: nat, freenum: int)
    requires Linked(nodes, L) && Placed(nodes, L, levels, work) && FreeOk(L, freepos, freenum) && freepos != 0
    ensures |L.owner| == |L.pos| == |nodes| && 2 <= freepos < |nodes| && nodes[freepos].low == -1 && L.owner[freepos] == Free
  {
  }

  /** A free entry was free before the exchange. */
  lemma NotInCtx(c: Ctx, nodes: seq<BddNode>, done: set<int>, r: int)
    requires CtxOk(c) && Mid(c, nodes, done) && NoneFreed(c, nodes) && !Live(nodes, r) && 2 <= r < |nodes|
    ensures !Live(c.n0, r) && r !in c.U
    ensures nodes[0].low == nodes[0].high == 0 && nodes[1].low == nodes[1].high == 1
  {
  }

  /** Everything reorder_makenode writes for a fresh node r. */
  function Written(nodes: seq<BddNode>, r: int, v: nat, low: int, high: int): (w: seq<BddNode>)
    requires 0 <= r < |nodes|
    ensures |w| == |nodes|
  {
    nodes[r := nodes[r].(level := v, low := low, high := high)]
  }

  function FirstCounts(nodes: seq<BddNode>, r: int, low: int, high: int): (w: seq<BddNode>)
    requires 0 <= r < |nodes| && 0 <= low < |nodes| && 0 <= high < |nodes|
    ensures |w| == |nodes|
  {
    IncRef(IncRef(nodes[r := nodes[r].(refcount := 1)], low), high)
  }

  /** r has become the node "if v then high else low", referenced once. */
  ghost predicate FreshNode(nodes: seq<BddNode>, nodes': seq<BddNode>, r: int, v: nat, low: int, high: int)
    requires 2 <= r < |nodes|
  {
    && |nodes'| == |nodes|
    && nodes'[r].level == v && nodes'[r].low == low && nodes'[r].high == high && nodes'[r].refcount == 1
    && (forall i :: 0 <= i < |nodes| && i != r ==> SameTriple(nodes'[i], nodes[i]) && nodes'[i].next == nodes[i].next)
    && (forall i :: 0 <= i < |nodes| && i != r ==>
          nodes'[i].refcount == if i == low || i == high then Increased(nodes[i].refcount) else nodes[i].refcount)
  }

  lemma BuiltFields(nodes: seq<BddNode>, r: int, v: nat, low: int, high: int, hash: nat)
    requires 0 <= low < |nodes| && 0 <= high < |nodes| && 2 <= r < |nodes| && r != low && r != high && low != high && hash < |nodes|
    ensures var n2 := Written(nodes, r, v, low, high);
            var n3 := PushBucket(n2, r, hash);
            var nodes' := FirstCounts(n3, r, low, high);
            && (forall i :: 0 <= i < |nodes| ==> n2[i].hash == nodes[i].hash && n2[i].next == nodes[i].next)
            && (forall i :: 0 <= i < |nodes| ==> nodes'[i].hash == n3[i].hash && nodes'[i].next == n3[i].next)
            && FreshNode(nodes, nodes', r, v, low, high)
  {
  }

  lemma BuildStarts(c: Ctx, done: set<int>, nodes: seq<BddNode>, L: Links, levels: seq<LevelData>, freepos: nat, freenum: int, ext: seq<nat>,
                    v: nat, low: int, high: int, hash: nat)
    requires MidTable(c, done, nodes, L, levels, freepos, freenum, ext) && freepos != 0 && v < |levels|
    requires low != high && Under(c, low) && Under(c, high) && hash == NodeHash(levels, v, low, high)
    ensures |L.owner| == |L.pos| == |nodes| && 2 <= freepos < |nodes| && nodes[freepos].low == -1 && L.owner[freepos] == Free
    ensures Ref(nodes, low) && Ref(nodes, high) && freepos != low && freepos != high && hash < |nodes|
    ensures var n2 := Written(nodes, freepos, v, low, high);
            var n3 := PushBucket(n2, freepos, hash);
            var nodes' := FirstCounts(n3, freepos, low, high);
            && (forall i :: 0 <= i < |nodes| ==> n2[i].hash == nodes[i].hash && n2[i].next == nodes[i].next)
            && (forall i :: 0 <= i < |nodes| ==> nodes'[i].hash == n3[i].hash && nodes'[i].next == n3[i].next)
            && FreshNode(nodes, nodes', freepos, v, low, high)
  {
    hide Mid, NoneFreed, Conserved, AllHeld, CtxOk, Linked, LinkAt, Placed, Counted, Geometry, FreeOk, NodeHash, Under, Closed;
    hide Written, FirstCounts, PushBucket, FreshNode;
    MidClosed(c, nodes, done);
    UnderIsRef(c, nodes, done, low);
    UnderIsRef(c, nodes, done, high);
    HashInRange(levels, |nodes|, v, low, high);
    FreeHead(nodes, L, levels, c.U - done, freepos, freenum);
    NotInCtx(c, nodes, done, freepos);
    BuiltFields(nodes, freepos, v, low, high, hash);
  }

  lemma KeepsTransitive(n1: seq<BddNode>, n2: seq<BddNode>, n3: seq<BddNode>, L1: Links, L2: Links, L3: Links)
    requires KeepsNodes(n1, n2) && KeepsNodes(n2, n3)
    requires KeepsWork(n1, n2, L1, L2) && KeepsWork(n2, n3, L2, L3)
    ensures KeepsNodes(n1, n3) && KeepsWork(n1, n3, L1, L3)
  {
    forall i | Live(n1, i) ensures Live(n3, i) && SameTriple(n3[i], n1[i]) {
      assert Live(n2, i);
    }
  }

  lemma UpdateTwice(owner: seq<Owner>, i: nat, a: Owner, b: Owner)
    requires i < |owner|
    ensures owner[i := a][i := b] == owner[i := b]
  {
  }

  lemma SameWork(nodes: seq<BddNode>, L: Links)
    requires Linked(nodes, L)
    ensures KeepsWork(nodes, nodes, L, L) && KeepsNodes(nodes, nodes)
  {
  }

  lemma GrownAbsent(c: Ctx, nodes: seq<BddNode>, nodes': seq<BddNode>, L: Links, L': Links, low: int, high: int)
    requires AbsentV0(c, nodes, low, high) && |nodes'| >= |nodes| && nodes'[..|nodes|] == nodes
    requires forall i :: |nodes| <= i < |nodes'| ==> nodes'[i].low == -1
    requires 2 <= |nodes| == |L.owner| && GrownLinks(L, L', |nodes'|, 0)
    ensures AbsentV0(c, nodes', low, high) && KeepsNodes(nodes, nodes') && KeepsWork(nodes, nodes', L, L')
  {
    assert forall i :: 0 <= i < |nodes| ==> nodes'[i] == nodes[i];
    forall i | Live(nodes', i) && i !in c.U && nodes'[i].level == c.v0 ensures nodes'[i].low != low || nodes'[i].high != high {
      assert Live(nodes, i) && nodes'[i] == nodes[i];
    }
  }

  lemma NotFound(c: Ctx, nodes: seq<BddNode>, L: Links, levels: seq<LevelData>, done: set<int>, v: nat, low: int, high: int)
    requires Placed(nodes, L, levels, c.U - done)
    requires v < |levels| && levels[v].size > 0
    requires forall i :: 2 <= i < |nodes| && L.owner[i] == Bucket(NodeHash(levels, v, low, high)) ==> nodes[i].low != low || nodes[i].high != high
    requires v == c.v0
    ensures AbsentV0(c, nodes, low, high)
  {
    forall i | Live(nodes, i) && i !in c.U && nodes[i].level == v ensures nodes[i].low != low || nodes[i].high != high {
      assert L.owner[i] == Home(nodes, levels, i);
    }
  }

  ghost predicate MidTable(c: Ctx, done: set<int>, nodes: seq<BddNode>, L: Links, levels: seq<LevelData>,
                           freepos: nat, freenum: int, ext: seq<nat>)
  {
    && CtxOk(c) && |levels| == |c.lev| - 1 && |ext| == |nodes|
    && Mid(c, nodes, done) && NoneFreed(c, nodes)
    && Linked(nodes, L) && Geometry(levels, |nodes|) && Placed(nodes, L, levels, c.U - done)
    && FreeOk(L, freepos, freenum) && Counted(nodes, L, levels)
    && Conserved(nodes, ext) && AllHeld(c, nodes, ext)
  }

  lemma MidRange(c: Ctx, done: set<int>, nodes: seq<BddNode>, L: Links, levels: seq<LevelData>, freepos: nat, freenum: int, ext: seq<nat>)
    requires MidTable(c, done, nodes, L, levels, freepos, freenum, ext)
    ensures c.v0 < |levels| && 2 <= |nodes| == |L.owner| == |L.pos| == |ext|
  {
  }

  /** A fresh node r, written and linked into its bucket, keeps the invariant. */
  lemma BuildKeeps(c: Ctx, done: set<int>, nodes: seq<BddNode>, nodes': seq<BddNode>, L: Links, L': Links,
                   levels: seq<LevelData>, levels': seq<LevelData>, freepos: nat, freenum: int, freepos': nat, freenum': int,
                   ext: seq<nat>, r: int, low: int, high: int)
    requires MidTable(c, done, nodes, L, levels, freepos, freenum, ext)
    requires Linked(nodes', L') && FreeOk(L', freepos', freenum')
    requires 2 <= r < |nodes| && L.owner[r] == Free
    requires c.v0 < |levels| && levels[c.v0].size > 0
    requires low != high && Under(c, low) && Under(c, high) && Fits(c, low, high) && AbsentV0(c, nodes, low, high)
    requires FreshNode(nodes, nodes', r, c.v0, low, high)
    requires OneMore(levels, levels', c.v0)
    requires L'.owner == L.owner[r := Bucket(NodeHash(levels, c.v0, low, high))]
    requires forall i :: 0 <= i < |nodes| && i != r ==> L'.pos[i] == L.pos[i]
    ensures MidTable(c, done, nodes', L', levels', freepos', freenum', Bump(ext, r))
    ensures Mk(c, nodes', r, low, high) && Live(nodes', r) && KeepsWork(nodes, nodes', L, L') && KeepsNodes(nodes, nodes')
  {
    hide Mid, NoneFreed, Conserved, AllHeld, CtxOk, AbsentV0, Fits, FreshNode, Counted, Geometry, Linked, LinkAt, NodeHash, FreeOk, Under, KeepsWork, KeepsNodes;
    FreeIsFree(nodes, L, levels, c.U - done, r);
    BuildKeepsGraph(c, done, nodes, nodes', ext, r, low, high);
    BuildKeepsLists(nodes, nodes', L, L', levels, levels', c.U - done, r, c.v0, low, high);
  }

  lemma FreeIsFree(nodes: seq<BddNode>, L: Links, levels: seq<LevelData>, work: set<int>, r: int)
    requires Placed(nodes, L, levels, work) && 2 <= r < |nodes| && L.owner[r] == Free
    ensures nodes[r].low == -1
  {
  }

  lemma BuildKeepsLists(nodes: seq<BddNode>, nodes': seq<BddNode>, L: Links, L': Links, levels: seq<LevelData>, levels': seq<LevelData>,
                        work: set<int>, r: int, v: nat, low: int, high: int)
    requires Linked(nodes, L) && Linked(nodes', L') && Geometry(levels, |nodes|) && Placed(nodes, L, levels, work) && Counted(nodes, L, levels)
    requires 2 <= r < |nodes| && nodes[r].low == -1 && L.owner[r] == Free && r !in work && low != -1
    requires v < |levels| && levels[v].size > 0
    requires FreshNode(nodes, nodes', r, v, low, high)
    requires OneMore(levels, levels', v)
    requires L'.owner == L.owner[r := Bucket(NodeHash(levels, v, low, high))]
    requires forall i :: 0 <= i < |nodes| && i != r ==> L'.pos[i] == L.pos[i]
    ensures Placed(nodes', L', levels', work) && Counted(nodes', L', levels') && Geometry(levels', |nodes'|)
    ensures KeepsWork(nodes, nodes', L, L')
  {
    hide Placed, Counted, Geometry, NodeHash, LinkAt, HeadOk;
    AllocPlaced(nodes, nodes', L, L', levels, levels', work, r);
    AllocCounted(nodes, nodes', L, L', levels, levels', r);
    SameGeometry(levels, levels', |nodes|);
  }

  lemma BuildKeepsGraph(c: Ctx, done: set<int>, nodes: seq<BddNode>, nodes': seq<BddNode>, ext: seq<nat>, r: int, low: int, high: int)
    requires CtxOk(c) && |ext| == |nodes| && Mid(c, nodes, done) && NoneFreed(c, nodes) && Conserved(nodes, ext) && AllHeld(c, nodes, ext)
    requires 2 <= r < |nodes| && nodes[r].low == -1
    requires low != high && Under(c, low) && Under(c, high) && Fits(c, low, high) && AbsentV0(c, nodes, low, high)
    requires FreshNode(nodes, nodes', r, c.v0, low, high)
    ensures r !in c.U && low != -1
    ensures |nodes'| == |nodes| && Mid(c, nodes', done) && NoneFreed(c, nodes') && Conserved(nodes', Bump(ext, r)) && AllHeld(c, nodes', Bump(ext, r))
    ensures Mk(c, nodes', r, low, high) && KeepsNodes(nodes, nodes')
  {
    hide Mid, NoneFreed, Conserved, AllHeld, CtxOk, AbsentV0, Fits;
    MidClosed(c, nodes, done);
    UnderIsRef(c, nodes, done, low);
    UnderIsRef(c, nodes, done, high);
    NotInCtx(c, nodes, done, r);
    AllocKeepsMid(c, nodes, nodes', done, r);
    AllocConserved(nodes, nodes', ext, r, low, high);
    AllocHeld(c, nodes, nodes', ext, r);
  }

  // ---- one step of reorder_swap -----------------------------------------------------

  lemma BumpPadded(ext: seq<nat>, g: int, n: nat)
    requires 0 <= g < |ext| <= n
    ensures Padded(Bump(ext, g), n) == Bump(Padded(ext, n), g)
  {
  }

  lemma PaddedTwice(ext: seq<nat>, m: nat, n: nat)
    requires |ext| <= m <= n
    ensures Padded(Padded(ext, m), n) == Padded(ext, n)
  {
  }

  /** The fields reorder_swap writes for p: two counts, then the triple. */
  function Rewritten(nodes: seq<BddNode>, p: int, v1: nat, g0: int, g1: int): (w: seq<BddNode>)
    requires 0 <= p < |nodes| && 0 <= nodes[p].low < |nodes| && 0 <= nodes[p].high < |nodes|
    ensures |w| == |nodes|
  {
    var n1 := DecRef(DecRef(nodes, nodes[p].low), nodes[p].high);
    n1[p := n1[p].(level := v1, low := g0, high := g1)]
  }

  lemma RewrittenFields(nodes: seq<BddNode>, p: int, v1: nat, g0: int, g1: int, hash: nat)
    requires 2 <= p < |nodes| && 0 <= nodes[p].low < |nodes| && 0 <= nodes[p].high < |nodes| && nodes[p].low != nodes[p].high
    requires hash < |nodes|
    ensures var n2 := Rewritten(nodes, p, v1, g0, g1);
            && (forall i :: 0 <= i < |nodes| ==> n2[i].hash == nodes[i].hash && n2[i].next == nodes[i].next)
            && Relinked(nodes, PushBucket(n2, p, hash), p, v1, g0, g1)
  {
  }

  lemma StepLists(nodes: seq<BddNode>, nodes': seq<BddNode>, L: Links, L': Links, levels: seq<LevelData>, levels': seq<LevelData>,
                  work: set<int>, p: int, v1: nat, g0: int, g1: int)
    requires Geometry(levels, |nodes|) && Placed(nodes, L, levels, work) && Counted(nodes, L, levels)
    requires 2 <= p < |nodes| == |L.owner| && L.owner[p] == Work && p in work && v1 < |levels| && g0 != -1
    requires Relinked(nodes, nodes', p, v1, g0, g1)
    requires levels[v1].size > 0 && OneMore(levels, levels', v1)
    requires L'.owner == L.owner[p := Bucket(NodeHash(levels, v1, g0, g1))]
    ensures Placed(nodes', L', levels', work - {p}) && Counted(nodes', L', levels') && Geometry(levels', |nodes'|)
  {
    hide NodeHash, Counted, Geometry, Placed;
    StepPlaced(nodes, nodes', L, L', levels, levels', work, p, v1, g0, g1);
    AllocCounted(nodes, nodes', L, L', levels, levels', p);
    SameGeometry(levels, levels', |nodes|);
  }

  lemma StepPlaced(nodes: seq<BddNode>, nodes': seq<BddNode>, L: Links, L': Links, levels: seq<LevelData>, levels': seq<LevelData>,
                   work: set<int>, p: int, v1: nat, g0: int, g1: int)
    requires Placed(nodes, L, levels, work)
    requires 2 <= p < |nodes| && p in work && v1 < |levels| && g0 != -1
    requires Relinked(nodes, nodes', p, v1, g0, g1)
    requires levels[v1].size > 0 && SameSizes(levels, levels')
    requires L'.owner == L.owner[p := Bucket(NodeHash(levels, v1, g0, g1))]
    ensures Placed(nodes', L', levels', work - {p})
  {
  }

  lemma StepKeeps(c: Ctx, done: set<int>, nodes: seq<BddNode>, nodes': seq<BddNode>, ext: seq<nat>, p: int, g0: int, g1: int)
    requires CtxOk(c) && Mid(c, nodes, done) && NoneFreed(c, nodes) && p in c.U && p !in done
    requires |ext| == |nodes| && Ref(nodes, g0) && Ref(nodes, g1)
    requires Live(c.n0, p) && 0 <= c.n0[p].low < |c.n0| && 0 <= c.n0[p].high < |c.n0|
    requires Mk(c, nodes, g0, Cof(c, c.n0[p].low, false), Cof(c, c.n0[p].high, false))
    requires Mk(c, nodes, g1, Cof(c, c.n0[p].low, true), Cof(c, c.n0[p].high, true))
    requires Conserved(nodes, Bump(Bump(ext, g0), g1)) && AllHeld(c, nodes, Bump(Bump(ext, g0), g1))
    requires Live(nodes, p) && Relinked(nodes, nodes', p, c.v1, g0, g1)
    ensures |nodes'| == |nodes| && Mid(c, nodes', done + {p}) && NoneFreed(c, nodes') && Conserved(nodes', ext) && AllHeld(c, nodes', ext)
  {
    hide Conserved, AllHeld;
    assert SameTriple(nodes[p], c.n0[p]) && nodes[p].low != nodes[p].high;
    assert Restructured(c, nodes', p) by { StepRestructured(c, done, nodes, nodes', p, g0, g1); }
    hide Mid, NoneFreed, CtxOk, Mk, Restructured;
    RestructureKeepsMid(c, nodes, nodes', done, p);
    RelinkedConserved(nodes, nodes', ext, p, c.v1, g0, g1);
    StepHolds(c, nodes, nodes', ext, done, p, g0, g1);
  }

  lemma StepRestructured(c: Ctx, done: set<int>, nodes: seq<BddNode>, nodes': seq<BddNode>, p: int, g0: int, g1: int)
    requires CtxOk(c) && p in c.U && p !in done && Live(nodes, p) && 2 <= |nodes|
    requires Ref(nodes, g0) && Ref(nodes, g1)
    requires Live(c.n0, p) && 0 <= c.n0[p].low < |c.n0| && 0 <= c.n0[p].high < |c.n0|
    requires Mk(c, nodes, g0, Cof(c, c.n0[p].low, false), Cof(c, c.n0[p].high, false))
    requires Mk(c, nodes, g1, Cof(c, c.n0[p].low, true), Cof(c, c.n0[p].high, true))
    requires Relinked(nodes, nodes', p, c.v1, g0, g1)
    ensures Restructured(c, nodes', p)
  {
  }

  lemma MkKept(c: Ctx, nodes: seq<BddNode>, nodes': seq<BddNode>, g: int, a: int, b: int)
    requires Mk(c, nodes, g, a, b) && Ref(nodes, g) && KeepsNodes(nodes, nodes')
    ensures Mk(c, nodes', g, a, b) && Ref(nodes', g)
  {
    assert g >= 2 ==> Live(nodes', g);
  }

  /** The entry at the head of the working list is a node still to be restructured, and
      the cofactors read from the table are those of the table before the exchange. */
  lemma WorkHead(c: Ctx, done: set<int>, nodes: seq<BddNode>, L: Links, levels: seq<LevelData>, p: int)
    requires CtxOk(c) && Mid(c, nodes, done) && NoneFreed(c, nodes) && Linked(nodes, L) && Placed(nodes, L, levels, c.U - done)
    requires HeadOk(L, Work, p) && p != 0
    ensures p in c.U && p !in done && Live(nodes, p) && Live(c.n0, p) && SameTriple(nodes[p], c.n0[p]) && L.owner[p] == Work
    ensures |c.n0| <= |nodes| && Ref(c.n0, c.n0[p].low) && Ref(c.n0, c.n0[p].high) && c.n0[p].low != c.n0[p].high
    ensures forall b :: Under(c, Cof(c, c.n0[p].low, b)) && Under(c, Cof(c, c.n0[p].high, b)) && Fits(c, Cof(c, c.n0[p].low, b), Cof(c, c.n0[p].high, b))
    ensures SameTriple(nodes[c.n0[p].low], c.n0[c.n0[p].low]) && SameTriple(nodes[c.n0[p].high], c.n0[c.n0[p].high])
  {
    assert Live(c.n0, p);
    CofactorsUnder(c, p, false);
    CofactorsUnder(c, p, true);
    forall b ensures Under(c, Cof(c, c.n0[p].low, b)) && Under(c, Cof(c, c.n0[p].high, b)) && Fits(c, Cof(c, c.n0[p].low, b), Cof(c, c.n0[p].high, b)) {
      CofactorsUnder(c, p, b);
    }
    var f0, f1 := c.n0[p].low, c.n0[p].high;
    assert Live(c.n0, f0) ==> f0 !in done && Live(nodes, f0);
    assert Live(c.n0, f1) ==> f1 !in done && Live(nodes, f1);
  }

  lemma UnderAll(c: Ctx, levels: seq<LevelData>, n: nat)
    requires CtxOk(c) && |levels| == |c.lev| - 1 && Geometry(levels, n)
    ensures c.v0 < |levels| && c.v1 < |levels| && levels[c.v0].size > 0 && levels[c.v1].size > 0
  {
  }

  lemma SameHash(levels: seq<LevelData>, levels': seq<LevelData>, v: nat, low: int, high: int)
    requires v < |levels| && levels[v].size > 0 && SameSizes(levels, levels')
    ensures levels'[v].size > 0 && NodeHash(levels', v, low, high) == NodeHash(levels, v, low, high)
  {
  }

  lemma PopWork(nodes: seq<BddNode>, L: Links, p: int, freepos: nat, freenum: int)
    requires Linked(nodes, L) && HeadOk(L, Work, p) && p != 0 && FreeOk(L, freepos, freenum)
    ensures var L' := L.(owner := L.owner[p := Loose]);
            Linked(nodes, L') && HeadOk(L', Work, nodes[p].next) && FreeOk(L', freepos, freenum)
  {
    PopLinked(nodes, L, Work, p);
  }

  lemma HeldBoth(e0: seq<nat>, e1: seq<nat>, e2: seq<nat>, m: nat, n: nat, g0: int, g1: int)
    requires |e0| <= m <= n && 0 <= g0 < m && 0 <= g1 < n
    requires e1 == Bump(Padded(e0, m), g0) && e2 == Bump(Padded(e1, n), g1)
    ensures e2 == Bump(Bump(Padded(e0, n), g0), g1)
  {
    BumpPadded(Padded(e0, m), g0, n);
    PaddedTwice(e0, m, n);
  }

  lemma HeadKept(n0: seq<BddNode>, n1: seq<BddNode>, n2: seq<BddNode>, L0: Links, L1: Links, L2: Links, p: int)
    requires KeepsWork(n0, n1, L0, L1) && KeepsWork(n1, n2, L1, L2) && HeadOk(L0, Work, p) && p != 0
    ensures HeadOk(L2, Work, p) && n2[p].next == n0[p].next
  {
  }

  lemma RefKept(c: Ctx, done: set<int>, nodes: seq<BddNode>, f: int)
    requires NoneFreed(c, nodes) && Ref(c.n0, f) && 2 <= |nodes|
    ensures Ref(nodes, f)
  {
    assert Live(c.n0, f) ==> Live(nodes, f);
  }

  lemma RewriteKeeps(c: Ctx, done: set<int>, nodes: seq<BddNode>, nodes': seq<BddNode>, L: Links, L': Links,
                     levels: seq<LevelData>, levels': seq<LevelData>, freepos: nat, freenum: int, freepos': nat, freenum': int,
                     ext: seq<nat>, p: int, g0: int, g1: int)
    requires |ext| == |nodes| && Ref(nodes, g0) && Ref(nodes, g1)
    requires MidTable(c, done, nodes, L, levels, freepos, freenum, Bump(Bump(ext, g0), g1))
    requires Linked(nodes', L') && FreeOk(L', freepos', freenum')
    requires p in c.U && p !in done && Live(nodes, p) && L.owner[p] == Work
    requires Live(c.n0, p) && 0 <= c.n0[p].low < |c.n0| && 0 <= c.n0[p].high < |c.n0|
    requires Mk(c, nodes, g0, Cof(c, c.n0[p].low, false), Cof(c, c.n0[p].high, false))
    requires Mk(c, nodes, g1, Cof(c, c.n0[p].low, true), Cof(c, c.n0[p].high, true))
    requires Relinked(nodes, nodes', p, c.v1, g0, g1) && OneMore(levels, levels', c.v1) && levels[c.v1].size > 0
    requires L'.owner == L.owner[p := Bucket(NodeHash(levels, c.v1, g0, g1))]
    ensures MidTable(c, done + {p}, nodes', L', levels', freepos', freenum', ext)
  {
    hide Mid, NoneFreed, CtxOk, Conserved, AllHeld, Counted, Geometry, Placed, NodeHash, Mk, LinkAt, HeadOk, FreeOk, Bump, Cof, Relinked;
    StepLists(nodes, nodes', L, L', levels, levels', c.U - done, p, c.v1, g0, g1);
    StepKeeps(c, done, nodes, nodes', ext, p, g0, g1);
    assert c.U - done - {p} == c.U - (done + {p});
  }

  lemma ReferenceKeeps(c: Ctx, done: set<int>, nodes: seq<BddNode>, L: Links, levels: seq<LevelData>, freepos: nat, freenum: int,
                       ext: seq<nat>, g: int)
    requires MidTable(c, done, nodes, L, levels, freepos, freenum, ext) && Ref(nodes, g)
    ensures |ext| == |nodes|
    ensures MidTable(c, done, IncRef(nodes, g), L, levels, freepos, freenum, Bump(ext, g))
    ensures KeepsNodes(nodes, IncRef(nodes, g)) && KeepsWork(nodes, IncRef(nodes, g), L, L)
  {
    hide Mid, NoneFreed, Conserved, AllHeld, CtxOk, FreeOk, Geometry, Counted, Placed, LinkAt, HeadOk;
    var nodes' := IncRef(nodes, g);
    forall i | Live(nodes, i) ensures Live(nodes', i) && SameTriple(nodes'[i], nodes[i]) {
    }
    IncRefConserved(nodes, ext, g);
    IncRefHeld(c, nodes, ext, g);
    SameLinks(nodes, nodes', L);
    SameTriplesKeepMid(c, nodes, nodes', done);
    SamePlaced(nodes, nodes', L, levels, c.U - done);
  }

  lemma SamePlaced(nodes: seq<BddNode>, nodes': seq<BddNode>, L: Links, levels: seq<LevelData>, work: set<int>)
    requires Placed(nodes, L, levels, work) && Counted(nodes, L, levels)
    requires |nodes'| == |nodes| && forall i :: 0 <= i < |nodes| ==> SameTriple(nodes'[i], nodes[i])
    ensures Placed(nodes', L, levels, work) && Counted(nodes', L, levels)
  {
    forall v | 0 <= v < |levels| ensures levels[v].nodenum == |InTable(nodes', L, v)| {
      assert InTable(nodes', L, v) == InTable(nodes, L, v);
    }
  }
}
