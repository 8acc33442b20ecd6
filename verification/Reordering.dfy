/** Dynamic variable reordering: the node table is kept while a session is under way,
    with the `level` field of a node holding its variable. */
module Reordering {
  import opened NodeTable
  import opened Diagram
  import opened RefCount
  import opened ReorderTheory
  import opened ReorderStep
  import opened ReorderSweep
  import opened ReorderSession
  import opened Saturation
  import opened Supply
  import opened BlockOrder
  import opened KernelTheory
  import opened Collection
  import opened ReorderStart
  import opened Dependencies
  import Prime

  lemma SliceFits(l: LevelData, v: nat, m: nat)
    requires SliceOf(l, v, m) && m > 0
    ensures l.start == v * m && 0 < l.size <= m
  {
  }

  class Reorderer {
    var nodes: seq<BddNode>
    var freepos: nat
    var freenum: int
    const maxnodesize: nat
    const maxnodeincrease: nat
    var levels: seq<LevelData>
    var var2level: seq<nat>
    var level2var: seq<nat>
    var iactmtx: seq<seq<bool>>
    var pairs: seq<RenameTable>
    var resizedInMakenode: bool

    /** The lists threaded through the table. */
    ghost var L: Links
    /** The number of references to each node from outside the table. */
    ghost var ext: seq<nat>

    /** Invariant while v0 and v1 are being exchanged and the nodes of `done` are restructured. */
    ghost predicate MidState(c: Ctx, done: set<int>)
      reads this
    {
      MidTable(c, done, nodes, L, levels, freepos, freenum, ext)
    }

    /** The table is sure to grow when bdd_noderesize is called. */
    ghost predicate CanGrow()
      reads this
    {
      Prime.CanGrow(|nodes|, maxnodesize, maxnodeincrease)
    }

    /** bdd_noderesize refuses. */
    predicate AtLimit()
      reads this
    {
      maxnodesize > 0 && |nodes| >= maxnodesize
    }

    /** There is no free entry, or the first one would be behind the table, which is not sure to grow. */
    ghost predicate Exhausted()
      reads this
    {
      !CanGrow() && (freepos == 0 || freepos >= |nodes|)
    }

    /** bdd_noderesize without rehashing.  The lists are right afterwards if and only if the table
        has grown; otherwise the free list is said to begin behind the last entry, and the chain of
        that entry may be cut. */
    method NodeResize() returns (ok: bool)
      requires Linked(nodes, L) && FreeOk(L, freepos, freenum) && |ext| == |nodes|
      modifies this`nodes, this`freepos, this`freenum, this`L, this`ext
      ensures ok <==> !(old(|nodes|) >= maxnodesize && maxnodesize > 0)
      ensures !ok ==> nodes == old(nodes) && freepos == old(freepos) && freenum == old(freenum) && L == old(L) && ext == old(ext)
      ensures ok ==>
                && Prime.NewSize(old(|nodes|), maxnodesize, maxnodeincrease, |nodes|)
                && Resized(old(nodes), nodes, |nodes|, old(freepos))
                && freepos == old(|nodes|) && freenum == old(freenum) + |nodes| - old(|nodes|)
                && ((exists L' :: Linked(nodes, L') && FreeOk(L', freepos, freenum)) <==> |nodes| > old(|nodes|))
      ensures old(CanGrow()) ==> ok && |nodes| > old(|nodes|)
      ensures ok && |nodes| <= old(|nodes|) ==> !CanGrow()
      ensures ok && |nodes| > old(|nodes|) ==>
                && nodes[..old(|nodes|)] == old(nodes) && (maxnodesize > 0 ==> |nodes| <= maxnodesize)
                && (forall i :: old(|nodes|) <= i < |nodes| ==> nodes[i].low == -1 && nodes[i].refcount == 0 && nodes[i].level == 0)
                && ext == Padded(old(ext), |nodes|)
                && Linked(nodes, L) && FreeOk(L, freepos, freenum)
                && GrownLinks(old(L), L, |nodes|, old(freepos))
    {
      hide Prime.NewSize, Prime.CanGrow, Prime.MayShrink, DistinctPos, LinkAt, ResizedAt;
      var oldsize := |nodes|;
      Prime.NoneAtLimit(oldsize, maxnodesize, maxnodeincrease);
      Prime.NewSizeOdd(oldsize, maxnodesize, maxnodeincrease);
      if oldsize >= maxnodesize && maxnodesize > 0 {
        return false;
      }
      var newsize := Prime.NextSize(oldsize, maxnodesize, maxnodeincrease);
      ghost var before := nodes;
      nodes := AppendFree(nodes, newsize, freepos);
      ResizedLinkedIff(before, L, nodes, newsize, freepos, freenum);
      if newsize > oldsize {
        ResizedGrown(before, nodes, newsize, freepos);
        ghost var L' := GrownLinksExist(L, newsize, freepos);
        GrowLinked(before, nodes, L, L', freepos);
        L := L';
        ext := Padded(ext, newsize);
      } else {
        Prime.NoGrowth(oldsize, newsize, maxnodesize, maxnodeincrease);
      }
      freepos := oldsize;
      freenum := freenum + newsize - oldsize;
      ok := true;
    }

    /** The operation holds one more reference on g. */
    method Reference(ghost c: Ctx, ghost done: set<int>, g: int)
      requires MidState(c, done) && Ref(nodes, g)
      modifies this`nodes, this`ext
      ensures MidState(c, done)
      ensures nodes == IncRef(old(nodes), g) && ext == Bump(old(ext), g) && |nodes| == old(|nodes|)
      ensures Within(old(nodes), nodes, old(ext), 3, maxnodesize)
      ensures KeepsNodes(old(nodes), nodes) && KeepsWork(old(nodes), nodes, L, L)
      ensures Supplied(c, old(nodes), freenum, nodes, freenum)
    {
      hide MidTable, KeepsNodes, KeepsWork, Bump, Within, Conserved, Supplied, Mk, Wanted;
      ReferenceKeeps(c, done, nodes, L, levels, freepos, freenum, ext, g);
      MidTerminals(c, done, nodes, L, levels, freepos, freenum, ext);
      ReferenceWithin(nodes, ext, g, maxnodesize);
      SameSupply(c, nodes, IncRef(nodes, g), freenum, freenum);
      nodes := IncRef(nodes, g);
      ext := Bump(ext, g);
    }

    /** The search along a hash chain. */
    method Find(hash: nat, low: int, high: int) returns (res: nat)
      requires Linked(nodes, L) && hash < |nodes|
      ensures res != 0 ==> 2 <= res < |nodes| && L.owner[res] == Bucket(hash) && nodes[res].low == low && nodes[res].high == high
      ensures res == 0 ==> forall i :: 2 <= i < |nodes| && L.owner[i] == Bucket(hash) ==> nodes[i].low != low || nodes[i].high != high
    {
      res := nodes[hash].hash;
      assert HeadOk(L, Bucket(hash), res);
      while res != 0
        invariant res == 0 || (2 <= res < |nodes| && L.owner[res] == Bucket(hash))
        invariant forall i :: 2 <= i < |nodes| && L.owner[i] == Bucket(hash) && (res == 0 || L.pos[i] > L.pos[res]) ==>
                    nodes[i].low != low || nodes[i].high != high
        decreases if res == 0 then 0 else L.pos[res] + 1
      {
        assert LinkAt(nodes, L, res);
        if nodes[res].low == low && nodes[res].high == high {
          return;
        }
        res := nodes[res].next;
      }
    }

    /** Growing the table in the middle of an exchange.  When it has not grown the original takes the
        entry behind the table next; false stands for that too. */
    method Grow(ghost c: Ctx, ghost done: set<int>) returns (ok: bool)
      requires MidState(c, done) && freepos == 0
      modifies this`nodes, this`freepos, this`freenum, this`L, this`ext, this`resizedInMakenode
      ensures ok ==> MidState(c, done) && freepos != 0
      ensures ok ==> |nodes| > old(|nodes|) && nodes[..old(|nodes|)] == old(nodes) && ext == Padded(old(ext), |nodes|)
      ensures ok ==> forall i :: old(|nodes|) <= i < |nodes| ==> nodes[i].low == -1
      ensures ok ==> GrownLinks(old(L), L, |nodes|, 0) && Within(old(nodes), nodes, old(ext), 3, maxnodesize)
      ensures ok ==> |nodes| > old(|nodes|) && Supplied(c, old(nodes), old(freenum), nodes, freenum) && !old(AtLimit())
      ensures resizedInMakenode
      ensures !ok ==> Exhausted() && !old(CanGrow())
    {
      hide Within, Supplied, Mk, Wanted;
      hide Mid, NoneFreed, Conserved, AllHeld, CtxOk, Counted, Placed, Geometry;
      ghost var n1, L1, e1, f1 := nodes, L, ext, freenum;
      ok := NodeResize();
      resizedInMakenode := true;
      if freepos == 0 {
        return false;
      }
      if freepos >= |nodes| {
        return false;
      }
      SameTriplesKeepMid(c, n1, nodes, done);
      GrowConserved(n1, nodes, e1);
      GrownWithin(n1, nodes, e1, 3, maxnodesize);
      GrowHeld(c, n1, nodes, e1);
      GrowPlaced(n1, nodes, L1, L, levels, c.U - done, 0);
      GrownOutside(c, n1, nodes);
      SameSupply(c, n1, nodes, f1, freenum);
    }

    /** reorder_makenode: the node "if v then high else low", found or built, with one
        more reference. */
    method MakeNode(ghost c: Ctx, ghost done: set<int>, v: nat, low: int, high: int) returns (ok: bool, res: int)
      requires MidState(c, done) && v == c.v0 && Under(c, low) && Under(c, high) && Fits(c, low, high)
      modifies this`nodes, this`freepos, this`freenum, this`levels, this`L, this`ext, this`resizedInMakenode
      ensures ok ==> MidState(c, done) && NodeMade(c, old(nodes), old(L), old(ext), nodes, L, ext, res, low, high, maxnodesize)
      ensures MakeSucceeds(c, old(nodes), old(freepos), old(freenum), low, high, ok, freenum, |nodes|)
      ensures ok ==> Supplied(c, old(nodes), old(freenum), nodes, freenum) && (old(AtLimit()) ==> |nodes| == old(|nodes|))
      ensures ok ==> SameSlices(old(levels), levels)
      ensures ok ==> (resizedInMakenode <==> old(resizedInMakenode) || |nodes| > old(|nodes|))
      ensures !ok ==> Exhausted() && !old(CanGrow())
    {
      hide SameSlices, Prime.CanGrow, CtxOk, Mid, NoneFreed, Conserved, AllHeld, Linked, Placed, Counted, FreeOk, NodeHash, Geometry, AbsentV0, IncRef, Fits;
      hide Supplied, Enough, Exists, Under, Mk, Live, KeepsNodes, KeepsWork, Bump, Padded, HeadOk, GrownLinks, Within, Own;
      SlicesSelf(levels);
      NoPadding(ext);
      MidRange(c, done, nodes, L, levels, freepos, freenum, ext);
      HashInRange(levels, |nodes|, v, low, high);
      UnderIsRef(c, nodes, done, low);
      UnderIsRef(c, nodes, done, high);
      SameWork(nodes, L);
      if low == high {
        SameIsMade(c, nodes, low);
        RefIn(nodes, low);
        Reference(c, done, low);
        res := low;
        return true, res;
      }
      var hash := NodeHash(levels, v, low, high);
      res := Find(hash, low, high);
      if res != 0 {
        FoundIsMade(c, nodes, L, levels, done, v, res, low, high);
        Reference(c, done, res);
        return true, res;
      }
      NotFound(c, nodes, L, levels, done, v, low, high);
      NotEnough(c, nodes, low, high);
      EmptyFreeList(L, freepos, freenum);
      ok, res := AddNode(c, done, v, low, high, hash);
    }

    /** The rest of reorder_makenode: the table is made to grow if no entry is free, and a free entry
        is used. */
    method AddNode(ghost c: Ctx, ghost done: set<int>, v: nat, low: int, high: int, hash: nat) returns (ok: bool, res: int)
      requires MidState(c, done) && v == c.v0 && low != high && Under(c, low) && Under(c, high) && Fits(c, low, high)
      requires v < |levels| && levels[v].size > 0 && hash == NodeHash(levels, v, low, high) && AbsentV0(c, nodes, low, high)
      modifies this`nodes, this`freepos, this`freenum, this`levels, this`L, this`ext, this`resizedInMakenode
      ensures ok ==> MidState(c, done) && NodeMade(c, old(nodes), old(L), old(ext), nodes, L, ext, res, low, high, maxnodesize)
      ensures old(freepos) != 0 ==> ok && |nodes| == old(|nodes|)
      ensures ok ==> Supplied(c, old(nodes), old(freenum), nodes, freenum) && (old(AtLimit()) ==> |nodes| == old(|nodes|))
      ensures ok ==> SameSlices(old(levels), levels)
      ensures ok ==> (resizedInMakenode <==> old(resizedInMakenode) || |nodes| > old(|nodes|))
      ensures !ok ==> Exhausted() && !old(CanGrow())
    {
      hide SameSlices, Prime.CanGrow, CtxOk, Mid, NoneFreed, Conserved, AllHeld, Linked, Placed, Counted, FreeOk, NodeHash, Geometry, AbsentV0, IncRef, Fits, Supplied;
      hide Under, Mk, Live, KeepsNodes, KeepsWork, Bump, Padded, HeadOk, GrownLinks, Within, Own;
      SlicesSelf(levels);
      NoPadding(ext);
      MidRange(c, done, nodes, L, levels, freepos, freenum, ext);
      SameWork(nodes, L);
      ghost var n1, L1, e1, f1 := nodes, L, ext, freenum;
      SuppliedSelf(c, nodes, freenum);
      WithinSelf(nodes, ext, 3, maxnodesize);
      ok, res := true, 0;
      if freepos == 0 {
        ok := Grow(c, done);
        if !ok { return false, 0; }
        GrownAbsent(c, n1, nodes, L1, L, low, high);
      }
      ghost var n2, L2, e2, f2 := nodes, L, ext, freenum;
      res := Build(c, done, v, low, high, hash);
      RefIn(nodes, res);
      PaddedOwn(e1, |n2|);
      WithinThen(n1, n2, nodes, e1, e2, 3, 3, 0, maxnodesize);
      KeepsTransitive(n1, n2, nodes, L1, L2, L);
      SuppliedThen(c, n1, f1, n2, f2, nodes, freenum);
    }

    /** Taking the first entry off the free list. */
    method TakeFree() returns (res: nat)
      requires Linked(nodes, L) && FreeOk(L, freepos, freenum) && freepos != 0
      modifies this`freepos, this`freenum, this`L
      ensures freenum == old(freenum) - 1
      ensures res == old(freepos) && 2 <= res < |nodes| && L == old(L).(owner := old(L).owner[res := Loose])
      ensures Linked(nodes, L) && FreeOk(L, freepos, freenum)
      ensures forall o, h :: o != Free && o != Loose && HeadOk(old(L), o, h) ==> HeadOk(L, o, h)
    {
      PopLinked(nodes, L, Free, freepos);
      res := freepos;
      freepos := nodes[freepos].next;
      freenum := freenum - 1;
      L := L.(owner := L.owner[res := Loose]);
    }

    /** Putting a loose entry at the head of its bucket. */
    method Insert(res: nat, hash: nat)
      requires Linked(nodes, L) && FreeOk(L, freepos, freenum) && 2 <= res < |nodes| && hash < |nodes| && L.owner[res] == Loose
      modifies this`nodes, this`L
      ensures nodes == PushBucket(old(nodes), res, hash)
      ensures Linked(nodes, L) && FreeOk(L, freepos, freenum)
      ensures L.owner == old(L).owner[res := Bucket(hash)]
      ensures forall i :: 0 <= i < |nodes| && i != res ==> L.pos[i] == old(L).pos[i]
      ensures forall o, h :: o in {Work, Rest} && HeadOk(old(L), o, h) ==> HeadOk(L, o, h)
    {
      PushBucketLinked(nodes, L, res, hash);
      BucketHead(nodes, L, hash);
      L := Pushed(L, res, Bucket(hash), nodes[hash].hash);
      nodes := PushBucket(nodes, res, hash);
    }

    /** The second half of reorder_makenode: take a free entry and put it into its bucket. */
    method Build(ghost c: Ctx, ghost done: set<int>, v: nat, low: int, high: int, hash: nat) returns (res: int)
      requires MidState(c, done) && freepos != 0 && v == c.v0 && low != high && Under(c, low) && Under(c, high) && Fits(c, low, high)
      requires v < |levels| && levels[v].size > 0 && hash == NodeHash(levels, v, low, high)
      requires AbsentV0(c, nodes, low, high)
      modifies this`nodes, this`freepos, this`freenum, this`levels, this`L, this`ext
      ensures MidState(c, done) && Mk(c, nodes, res, low, high) && Live(nodes, res)
      ensures |nodes| == old(|nodes|) && ext == Bump(old(ext), res)
      ensures KeepsNodes(old(nodes), nodes) && Within(old(nodes), nodes, old(ext), 3, maxnodesize)
      ensures KeepsWork(old(nodes), nodes, old(L), L)
      ensures Supplied(c, old(nodes), old(freenum), nodes, freenum)
      ensures SameSlices(old(levels), levels)
    {
      hide SameSlices, Mid, NoneFreed, Conserved, AllHeld, CtxOk, Linked, LinkAt, Placed, Counted, Geometry, FreeOk, NodeHash, AbsentV0;
      hide Written, FirstCounts, PushBucket, Under, Fits, Bump, NoneFreed, Closed, FreshNode, KeepsWork, Mk, KeepsNodes, Within, Supplied;
      ghost var n1, L1, e1, lv1, fp1, fn1 := nodes, L, ext, levels, freepos, freenum;
      BuildStarts(c, done, nodes, L, levels, freepos, freenum, ext, v, low, high, hash);
      res := TakeFree();
      ext := Bump(ext, res);
      levels := levels[v := levels[v].(nodenum := levels[v].nodenum + 1)];
      assert OneMore(lv1, levels, v);
      nodes := Written(nodes, res, v, low, high);
      SameLinks(n1, nodes, L);
      Insert(res, hash);
      ghost var n3 := nodes;
      nodes := FirstCounts(nodes, res, low, high);
      SameLinks(n3, nodes, L);
      UpdateTwice(L1.owner, res, Loose, Bucket(hash));
      BuildDone(c, done, n1, nodes, L1, L, lv1, levels, fp1, fn1, freepos, freenum, e1, res, v, low, high, maxnodesize);
    }

    /** The in-place update of p at the end of a round of reorder_swap. */
    method Rewrite(ghost c: Ctx, ghost done: set<int>, p: nat, var1: nat, g0: int, g1: int, ghost e: seq<nat>)
      requires MidState(c, done) && HeadOk(L, Work, p) && p != 0 && var1 == c.v1
      requires p in c.U && p !in done && Live(nodes, p) && Live(c.n0, p) && L.owner[p] == Work
      requires 0 <= c.n0[p].low < |c.n0| && 0 <= c.n0[p].high < |c.n0| && Ref(nodes, g0) && Ref(nodes, g1)
      requires Ref(nodes, nodes[p].low) && Ref(nodes, nodes[p].high) && nodes[p].low != nodes[p].high
      requires Mk(c, nodes, g0, Cof(c, c.n0[p].low, false), Cof(c, c.n0[p].high, false))
      requires Mk(c, nodes, g1, Cof(c, c.n0[p].low, true), Cof(c, c.n0[p].high, true))
      requires |e| == |nodes| && ext == Bump(Bump(e, g0), g1)
      modifies this`nodes, this`levels, this`L, this`ext
      ensures MidState(c, done + {p}) && HeadOk(L, Work, old(nodes)[p].next)
      ensures |nodes| == old(|nodes|) && ext == e && NoneStuck(old(nodes), nodes)
      ensures Supplied(c, old(nodes), freenum, nodes, freenum) && SameSlices(old(levels), levels)
    {
      hide SameSlices, Mid, NoneFreed, CtxOk, Conserved, AllHeld, Counted, Geometry, Placed, NodeHash, Mk, LinkAt, HeadOk, FreeOk, Bump, Cof, Linked;
      hide Rewritten, PushBucket, Relinked, NoneStuck, Supplied, Wanted;
      ghost var n1, L1, lv1, fp1, fn1 := nodes, L, levels, freepos, freenum;
      UnderAll(c, levels, |nodes|);
      HashInRange(levels, |nodes|, var1, g0, g1);
      RewrittenFields(nodes, p, var1, g0, g1, NodeHash(levels, var1, g0, g1));
      nodes := Rewritten(nodes, p, var1, g0, g1);
      levels := levels[var1 := levels[var1].(nodenum := levels[var1].nodenum + 1)];
      assert OneMore(lv1, levels, var1);
      SlicesMore(lv1, levels, var1);
      SameHash(lv1, levels, var1, g0, g1);
      var hash := NodeHash(levels, var1, g0, g1);
      SameLinks(n1, nodes, L);
      PopWork(nodes, L, p, freepos, freenum);
      L := L.(owner := L.owner[p := Loose]);
      Insert(p, hash);
      UpdateTwice(L1.owner, p, Loose, Bucket(hash));
      MidTerminals(c, done, n1, L1, lv1, fp1, fn1, ext);
      RelinkedNoneStuck(n1, nodes, ext, p, var1, g0, g1);
      RelinkedOutside(c, n1, nodes, p, var1, g0, g1);
      SameSupply(c, n1, nodes, freenum, freenum);
      ext := e;
      RewriteKeeps(c, done, n1, nodes, L1, L, lv1, levels, fp1, fn1, freepos, freenum, e, p, g0, g1);
    }

    /** One round of the loop of reorder_swap, for the node p at the head of the working list. */
    method SwapNode(ghost c: Ctx, ghost done: set<int>, p: nat, var0: nat, var1: nat) returns (ok: bool)
      requires MidState(c, done) && HeadOk(L, Work, p) && p != 0 && var0 == c.v0 && var1 == c.v1
      modifies this`nodes, this`freepos, this`freenum, this`levels, this`L, this`ext, this`resizedInMakenode
      ensures p in c.U && p !in done && p < old(|nodes|)
      ensures ok ==> MidState(c, done + {p}) && HeadOk(L, Work, old(nodes)[p].next)
      ensures ok ==> |nodes| >= old(|nodes|) && ext == Padded(old(ext), |nodes|) && Within(old(nodes), nodes, old(ext), 0, maxnodesize)
      ensures old(Enough(c, nodes, freenum)) ==> ok
      ensures ok ==> Supplied(c, old(nodes), old(freenum), nodes, freenum) && (old(AtLimit()) ==> |nodes| == old(|nodes|))
      ensures ok ==> SameSlices(old(levels), levels)
      ensures ok ==> (resizedInMakenode <==> old(resizedInMakenode) || |nodes| > old(|nodes|))
      ensures !ok ==> Exhausted()
    {
      hide SameSlices, Prime.CanGrow, Mid, NoneFreed, CtxOk, Conserved, AllHeld, Counted, Geometry, FreeOk, Placed, NodeHash, Restructured, Under, Fits, Mk, Linked, HeadOk, Within, NoneStuck, Own, Supplied, Enough, Exists;
      WorkHead(c, done, nodes, L, levels, p);
      var f0, f1 := nodes[p].low, nodes[p].high;
      var f00, f01, f10, f11 := f0, f0, f1, f1;
      if nodes[f0].level == var1 { f00, f01 := nodes[f0].low, nodes[f0].high; }
      if nodes[f1].level == var1 { f10, f11 := nodes[f1].low, nodes[f1].high; }
      assert f00 == Cof(c, f0, false) && f01 == Cof(c, f0, true) && f10 == Cof(c, f1, false) && f11 == Cof(c, f1, true);
      hide Cof;
      ghost var n0, e0, free0 := nodes, ext, freenum;
      var g0, g1;
      ok, g0, g1 := MakeBoth(c, done, p, var0, f00, f10, f01, f11);
      if !ok { return; }
      WorkHead(c, done, nodes, L, levels, p);
      RefKept(c, done, nodes, f0);
      RefKept(c, done, nodes, f1);
      ghost var n2, lv2 := nodes, levels;
      Rewrite(c, done, p, var1, g0, g1, Padded(e0, |nodes|));
      NoneStuckWithin(n0, n2, nodes, e0, 0, maxnodesize);
      SuppliedThen(c, n0, free0, n2, freenum, nodes, freenum);
      SlicesThen(old(levels), lv2, levels);
    }

    /** The two new children of a node of the working list. */
    method MakeBoth(ghost c: Ctx, ghost done: set<int>, ghost p: nat, var0: nat, f00: int, f10: int, f01: int, f11: int) returns (ok: bool, g0: int, g1: int)
      requires MidState(c, done) && HeadOk(L, Work, p) && p != 0 && var0 == c.v0
      requires Under(c, f00) && Under(c, f10) && Fits(c, f00, f10) && Under(c, f01) && Under(c, f11) && Fits(c, f01, f11)
      modifies this`nodes, this`freepos, this`freenum, this`levels, this`L, this`ext, this`resizedInMakenode
      ensures ok ==> MidState(c, done) && BothMade(c, old(nodes), old(ext), nodes, L, ext, p, g0, g1, maxnodesize)
      ensures ok ==> Mk(c, nodes, g0, f00, f10) && Mk(c, nodes, g1, f01, f11)
      ensures old(Enough(c, nodes, freenum)) ==> ok
      ensures ok ==> Supplied(c, old(nodes), old(freenum), nodes, freenum) && (old(AtLimit()) ==> |nodes| == old(|nodes|))
      ensures ok ==> SameSlices(old(levels), levels)
      ensures ok ==> (resizedInMakenode <==> old(resizedInMakenode) || |nodes| > old(|nodes|))
      ensures !ok ==> Exhausted()
    {
      hide SameSlices, Prime.CanGrow, MidTable, Under, Fits, Mk, HeadOk, Supplied, Enough, Exists, NodeMade, BothMade;
      ghost var n0, L0, e0, free0 := nodes, L, ext, freenum;
      MidRange(c, done, nodes, L, levels, freepos, freenum, ext);
      g1 := 0;
      ok, g0 := MakeNode(c, done, var0, f00, f10);
      if !ok { return; }
      ghost var n1, L1, e1, free1, lv1 := nodes, L, ext, freenum, levels;
      MidRange(c, done, nodes, L, levels, freepos, freenum, ext);
      SuppliedEnough(c, n0, free0, n1, free1);
      ok, g1 := MakeNode(c, done, var0, f01, f11);
      if !ok { return; }
      MidRange(c, done, nodes, L, levels, freepos, freenum, ext);
      MadeTwice(c, n0, L0, e0, n1, L1, e1, nodes, L, ext, p, g0, f00, f10, g1, f01, f11, maxnodesize);
      SuppliedThen(c, n0, free0, n1, free1, nodes, freenum);
      MadeSize(c, n0, L0, e0, n1, L1, e1, g0, f00, f10, maxnodesize);
      MadeSize(c, n1, L1, e1, nodes, L, ext, g1, f01, f11, maxnodesize);
      SlicesThen(old(levels), lv1, levels);
    }

    /** reorder_downSimple: the nodes of var0 without a child of var1 stay in the table, the
        others are collected. */
    method DownSimple(ghost c: Ctx, var0: nat, var1: nat) returns (toBeProcessed: nat)
      requires Table(nodes, c.lev, L, levels, freepos, freenum, ext) && c.n0 == nodes
      requires var0 == c.v0 < |c.lev| - 1 && var1 == c.v1 < |c.lev| - 1 && c.lev[c.v1] == c.lev[c.v0] + 1
      requires c.U == Interacting(nodes, var0, var1)
      modifies this`nodes, this`levels, this`L
      ensures MidTable(c, {}, nodes, L, levels, freepos, freenum, ext) && HeadOk(L, Work, toBeProcessed) && |nodes| == old(|nodes|)
      ensures SameCore(old(nodes), nodes) && NoneStuck(old(nodes), nodes) && SameSlices(old(levels), levels)
    {
      hide SameSlices, DownPlaced, DownCounted, Linked, LinkAt, Geometry, HeadOk, NodeHash, FreeOk, Sorted, Conserved, Unique, Reduced, Ordered, Placed;
      hide Interacting, Mid, MidTable, Counted, Renamed, PushBucket, Pushed;
      ghost var n0, L0, lv0 := nodes, L, levels;
      toBeProcessed := 0;
      var vl0, size0 := levels[var0].start, levels[var0].size;
      DownStart(nodes, L, levels, var0, var1, freepos, freenum);
      SlicesSelf(lv0);
      SlicesNumber(lv0, lv0, var0, 0);
      levels := levels[var0 := levels[var0].(nodenum := 0)];
      ghost var b := 0;
      var n := 0;
      while n < size0
        invariant n <= size0 && SameSlices(lv0, levels) && |levels| == |lv0| && levels[var0].start == vl0 && levels[var0].size == size0
        invariant DownInv(n0, nodes, L, levels, var0, var1, b, n, 0, toBeProcessed, freepos, freenum)
      {
        var hash := n + vl0;
        ghost var L1 := Rename(L, hash);
        DownDetach(n0, nodes, L, L1, levels, var0, var1, b, n, hash, toBeProcessed, freepos, freenum);
        var r := nodes[hash].hash;
        nodes := nodes[hash := nodes[hash].(hash := 0)];
        L := L1;
        b := hash;
        while r != 0
          invariant n < size0 && SameSlices(lv0, levels) && |levels| == |lv0| && levels[var0].start == vl0 && levels[var0].size == size0
          invariant DownInv(n0, nodes, L, levels, var0, var1, hash, n + 1, r, toBeProcessed, freepos, freenum)
          decreases if 0 < r < |L.pos| then L.pos[r] + 1 else 0
        {
          RestNode(c.lev, n0, nodes, L, levels, var0, var1, hash, n + 1, r);
          var next := nodes[r].next;
          if nodes[nodes[r].low].level != var1 && nodes[nodes[r].high].level != var1 {
            ghost var lv1 := levels;
            levels := levels[var0 := levels[var0].(nodenum := levels[var0].nodenum + 1)];
            assert OneMore(lv1, levels, var0);
            SlicesMore(lv1, levels, var0);
            SlicesThen(lv0, lv1, levels);
            DownKeep(n0, nodes, L, lv1, levels, var0, var1, hash, n + 1, r, toBeProcessed, freepos, freenum);
            L := Pushed(L, r, Bucket(hash), nodes[hash].hash);
            nodes := PushBucket(nodes, r, hash);
          } else {
            DownMove(n0, nodes, L, levels, var0, var1, hash, n + 1, r, toBeProcessed, freepos, freenum);
            L := Pushed(L, r, Work, toBeProcessed);
            nodes := nodes[r := nodes[r].(next := toBeProcessed)];
            toBeProcessed := r;
          }
          r := next;
        }
        n := n + 1;
      }
      CoreNoneStuck(n0, nodes);
      DownEnd(c, nodes, L0, lv0, freepos, freenum, L, levels, b, toBeProcessed, freepos, freenum, ext);
    }

    /** reorder_swap: restructuring the collected nodes. */
    method Swap(ghost c: Ctx, toBeProcessed: nat, var0: nat, var1: nat) returns (ok: bool)
      requires MidState(c, {}) && HeadOk(L, Work, toBeProcessed) && var0 == c.v0 && var1 == c.v1
      modifies this`nodes, this`freepos, this`freenum, this`levels, this`L, this`ext, this`resizedInMakenode
      ensures ok ==> MidState(c, c.U) && |nodes| >= old(|nodes|) && ext == Padded(old(ext), |nodes|)
      ensures ok ==> Within(old(nodes), nodes, old(ext), 0, maxnodesize)
      ensures old(Enough(c, nodes, freenum)) ==> ok
      ensures old(AtLimit()) ==> (ok <==> old(Enough(c, nodes, freenum)))
      ensures ok ==> SameSlices(old(levels), levels)
      ensures ok ==> (resizedInMakenode <==> old(resizedInMakenode) || |nodes| > old(|nodes|))
      ensures !ok ==> Exhausted()
    {
      hide SameSlices, Prime.CanGrow, MidTable, HeadOk, Within, Own, Supplied, Enough;
      MidSizes(c, {}, nodes, L, levels, freepos, freenum, ext);
      ghost var done: set<int> := {};
      ghost var e0, s0, start, free0 := ext, |nodes|, nodes, freenum;
      SuppliedSelf(c, nodes, freenum);
      SlicesSelf(levels);
      NoPadding(ext);
      WithinSelf(nodes, ext, 0, maxnodesize);
      var p := toBeProcessed;
      while p != 0
        invariant MidState(c, done) && |L.owner| == |L.pos| == |nodes| && HeadOk(L, Work, p) && done <= c.U
        invariant |nodes| >= s0 && ext == Padded(e0, |nodes|) && Within(start, nodes, e0, 0, maxnodesize)
        invariant SameSlices(old(levels), levels) && (resizedInMakenode <==> old(resizedInMakenode) || |nodes| > s0)
        invariant Supplied(c, start, free0, nodes, freenum) && (old(AtLimit()) ==> |nodes| == s0)
        decreases c.U - done
      {
        ghost var size, n1, e1, free1, lv1 := |nodes|, nodes, ext, freenum, levels;
        SuppliedEnough(c, start, free0, nodes, freenum);
        HeadRange(L, Work, p);
        var next := nodes[p].next;
        ok := SwapNode(c, done, p, var0, var1);
        if !ok { return; }
        SlicesThen(old(levels), lv1, levels);
        PaddedTwice(e0, size, |nodes|);
        PaddedOwn(e0, size);
        SuppliedThen(c, start, free0, n1, free1, nodes, freenum);
        WithinThen(start, n1, nodes, e0, e1, 0, 0, 0, maxnodesize);
        MidSizes(c, done + {p}, nodes, L, levels, freepos, freenum, ext);
        done := done + {p};
        p := next;
      }
      AllDone(c, done, nodes, L, levels, freepos, freenum, ext);
      EndEnough(c, nodes, L, levels, freepos, freenum, ext);
      SuppliedEnough(c, start, free0, nodes, freenum);
      ok := true;
    }

    /** reorder_localGbc: the unreferenced nodes of var1 become free entries. */
    method LocalGbc(ghost c: Ctx, var1: nat)
      requires MidState(c, c.U) && var1 == c.v1
      modifies this`nodes, this`freepos, this`freenum, this`levels, this`L
      ensures GcGraph(c, nodes, ext) && c.v0 < |c.lev| && c.v1 < |c.lev|
      ensures Table(nodes, Swapped(c.lev, c.v0, c.v1), L, levels, freepos, freenum, ext)
      ensures GcKeepsNodes(old(nodes), nodes, var1) && NoneStuck(old(nodes), nodes)
      ensures SameSlices(old(levels), levels) && |nodes| == old(|nodes|)
    {
      hide SameSlices, NoneStuck, Conserved;
      hide MidTable, GcGraph, GcPlaced, GcCounted, Linked, LinkAt, Geometry, HeadOk, NodeHash, FreeOk, Renamed, Sorted, PushBucket, Pushed, Emptied;
      GcStart(c, nodes, L, levels, freepos, freenum, ext);
      ghost var n1, size, lv0 := nodes, |levels|, levels;
      SlicesSelf(levels);
      var vl1, size1 := levels[var1].start, levels[var1].size;
      ghost var b := 0;
      var n := 0;
      assert GcKeepsNodes(n1, nodes, var1);
      CoreSelf(nodes);
      CoreNoneStuck(nodes, nodes);
      while n < size1
        invariant n <= size1 && SameSlices(lv0, levels) && |nodes| == |n1| && |levels| == size && levels[var1].start == vl1 && levels[var1].size == size1
        invariant GcInv(c, nodes, L, levels, b, n, 0, freepos, freenum, ext)
        invariant GcKeepsNodes(n1, nodes, var1) && NoneStuck(n1, nodes)
      {
        var hash := n + vl1;
        ghost var L1 := Rename(L, hash);
        GcDetach(c, nodes, L, L1, levels, b, n, hash, freepos, freenum, ext);
        var r := nodes[hash].hash;
        ghost var n2 := nodes;
        nodes := nodes[hash := nodes[hash].(hash := 0)];
        SameKept(n1, n2, nodes, var1);
        CoreNoneStuck(n2, nodes);
        NoneStuckTwice(n1, n2, nodes);
        L := L1;
        b := hash;
        while r != 0
          invariant n < size1 && SameSlices(lv0, levels) && |nodes| == |n1| && |levels| == size && levels[var1].start == vl1 && levels[var1].size == size1
          invariant GcInv(c, nodes, L, levels, hash, n + 1, r, freepos, freenum, ext)
          invariant GcKeepsNodes(n1, nodes, var1) && NoneStuck(n1, nodes)
          decreases if 0 < r < |L.pos| then L.pos[r] + 1 else 0
        {
          GcNode(nodes, L, levels, var1, hash, n + 1, r);
          n2 := nodes;
          var next := nodes[r].next;
          if nodes[r].refcount > 0 {
            GcKeep(c, nodes, L, levels, hash, n + 1, r, freepos, freenum, ext);
            L := Pushed(L, r, Bucket(hash), nodes[hash].hash);
            PushCore(nodes, nodes, r, hash, 0);
            nodes := PushBucket(nodes, r, hash);
            SameKept(n1, n2, nodes, var1);
            CoreNoneStuck(n2, nodes);
            NoneStuckTwice(n1, n2, nodes);
          } else {
            ghost var lv1 := levels;
            levels := levels[var1 := levels[var1].(nodenum := levels[var1].nodenum - 1)];
            assert OneLess(lv1, levels, var1);
            SlicesNumber(lv0, lv1, var1, lv1[var1].nodenum - 1);
            GcCounts(c, nodes, ext);
            GcFree(c, nodes, L, lv1, levels, hash, n + 1, r, freepos, freenum, ext);
            L := Pushed(L, r, Free, freepos);
            nodes := Emptied(nodes, r, freepos);
            FreeKept(n1, n2, nodes, var1, r, freepos);
            EmptiedNoneStuck(n2, ext, r, freepos);
            NoneStuckTwice(n1, n2, nodes);
            freepos := r;
            freenum := freenum + 1;
          }
          r := next;
        }
        n := n + 1;
      }
      GcEnd(c, nodes, L, levels, b, freepos, freenum, ext);
    }

    /** reorder_setLevellookup: every variable gets an equal slice of the table, and of a slice of four
        entries or more as many as the search for a prime returns. */
    method SetLevelLookup()
      requires 0 < |levels| <= |nodes|
      modifies this`levels
      ensures |levels| == old(|levels|) && Geometry(levels, |nodes|) && SameNumbers(old(levels), levels)
      ensures Sliced(levels, |nodes|)
    {
      hide Prime.CanReturn;
      var varnum := |levels|;
      var m := |nodes| / varnum;
      assert m > 0;
      var n := 0;
      while n < varnum
        invariant n <= varnum == |levels|
        invariant forall v :: 0 <= v < n ==> SliceOf(levels[v], v, m)
        invariant forall v :: 0 <= v < |levels| ==> levels[v].nodenum == old(levels)[v].nodenum
      {
        var size := m;
        if size >= 4 {
          size := Prime.PrimeBelow(size);
        }
        levels := levels[n := levels[n].(maxsize := m, start := n * m, size := size)];
        n := n + 1;
      }
      forall v | 0 <= v < |levels| ensures levels[v].start == v * m && 0 < levels[v].size <= m {
        SliceFits(levels[v], v, m);
      }
      SlicesFit(levels, |nodes|, m);
    }

    /** reorder_rehashAll */
    method RehashAll(ghost lev: seq<nat>)
      requires Table(nodes, lev, L, levels, freepos, freenum, ext) && 0 < |levels| <= |nodes|
      modifies this`nodes, this`levels, this`L, this`freepos
      ensures Table(nodes, lev, L, levels, freepos, freenum, ext)
      ensures SameCore(old(nodes), nodes) && |levels| == old(|levels|) && Sliced(levels, |nodes|)
    {
      hide Sliced, Table, Linked, HeadOk, NodeHash, LinkAt, Geometry, Rehashed, PushBucket, SameCore, SameNumbers, AllInNone, NoBuckets;
      ghost var n0, L0, lv0, fp0, fn0, e0 := nodes, L, levels, freepos, freenum, ext;
      TableSizes(nodes, lev, L, levels, freepos, freenum, ext);
      SetLevelLookup();
      freepos := 0;
      ClearHashes();
      L := AllLoose(nodes);
      var n := |nodes|;
      RehashStart(nodes, L, levels);
      ghost var lv1 := levels;
      while n > 2
        invariant levels == lv1 && freenum == fn0 && ext == e0
        invariant 2 <= n <= |nodes| == |n0| && SameCore(n0, nodes)
        invariant Linked(nodes, L) && |L.owner| == |L.pos| == |nodes| && HeadOk(L, Free, freepos) && Rehashed(nodes, L, levels, n)
      {
        n := n - 1;
        RehashTarget(n0, nodes, lev, L0, lv0, fp0, fn0, e0, n);
        RehashEntry(n0, n);
      }
      RehashEnd(n0, nodes, lev, L0, L, lv0, levels, fp0, freepos, fn0, e0);
    }

    method ClearHashes()
      modifies this`nodes
      ensures SameCore(old(nodes), nodes) && |nodes| == old(|nodes|) && NoBuckets(nodes)
    {
      var n := |nodes|;
      while n > 0
        invariant 0 <= n <= |nodes| && SameCore(old(nodes), nodes)
        invariant forall i :: n <= i < |nodes| ==> nodes[i].hash == 0
      {
        n := n - 1;
        nodes := nodes[n := nodes[n].(hash := 0)];
      }
    }

    /** One round of the loop of reorder_rehashAll. */
    method RehashEntry(ghost n0: seq<BddNode>, n: nat)
      requires 2 <= n < |nodes| == |L.owner| == |L.pos| && SameCore(n0, nodes) && Geometry(levels, |nodes|)
      requires Linked(nodes, L) && HeadOk(L, Free, freepos) && Rehashed(nodes, L, levels, n + 1)
      requires nodes[n].low == -1 <==> nodes[n].refcount == 0
      requires nodes[n].level <= |levels| && (nodes[n].low != -1 ==> nodes[n].level < |levels|)
      modifies this`nodes, this`L, this`freepos
      ensures |nodes| == old(|nodes|) == |L.owner| == |L.pos| && SameCore(n0, nodes)
      ensures Linked(nodes, L) && HeadOk(L, Free, freepos) && Rehashed(nodes, L, levels, n)
    {
      hide Linked, HeadOk, NodeHash, LinkAt, Geometry, Rehashed, PushBucket, SameCore;
      ghost var n1, L1 := nodes, L;
      CoreSelf(nodes);
      RehashLoose(nodes, L, levels, n);
      if nodes[n].refcount > 0 {
        HomeInRange(nodes, levels, n);
        var hash := NodeHash(levels, nodes[n].level, nodes[n].low, nodes[n].high);
        PushBucketLinked(nodes, L, n, hash);
        BucketHead(nodes, L, hash);
        PushCore(n0, nodes, n, hash, 0);
        PushCore(nodes, nodes, n, hash, 0);
        L := Pushed(L, n, Bucket(hash), nodes[hash].hash);
        nodes := PushBucket(nodes, n, hash);
        RehashStep(n1, nodes, L1, L, levels, n, Bucket(hash));
      } else {
        HeadRange(L, Free, freepos);
        PushLinked(nodes, L, n, Free, freepos);
        PushCore(n0, nodes, n, 0, freepos);
        PushCore(nodes, nodes, n, 0, freepos);
        L := Pushed(L, n, Free, freepos);
        nodes := nodes[n := nodes[n].(next := freepos)];
        freepos := n;
        RehashStep(n1, nodes, L1, L, levels, n, Free);
      }
    }

    ghost predicate Valid()
      reads this
    {
      Session(nodes, var2level, level2var, L, levels, freepos, freenum, ext, iactmtx, pairs)
    }

    ghost function Snap(): Snapshot
      reads this
    {
      Snapshot(nodes, var2level, ext, pairs, maxnodesize)
    }

    /** Restructuring the nodes of var0 that have a child of var1. */
    method Restructure(ghost c: Ctx, var0: nat, var1: nat) returns (ok: bool)
      requires Table(nodes, c.lev, L, levels, freepos, freenum, ext) && c.n0 == nodes
      requires var0 == c.v0 < |c.lev| - 1 && var1 == c.v1 < |c.lev| - 1 && c.lev[c.v1] == c.lev[c.v0] + 1
      requires c.U == Interacting(nodes, var0, var1)
      modifies this`nodes, this`freepos, this`freenum, this`levels, this`L, this`ext, this`resizedInMakenode
      ensures ok ==> GcGraph(c, nodes, ext) && |nodes| >= old(|nodes|) && |old(ext)| == old(|nodes|) && ext == Padded(old(ext), |nodes|)
      ensures ok ==> Table(nodes, Swapped(c.lev, c.v0, c.v1), L, levels, freepos, freenum, ext)
      ensures ok ==> Within(old(nodes), nodes, old(ext), 0, maxnodesize)
      ensures old(Enough(c, nodes, freenum)) ==> ok
      ensures old(AtLimit()) ==> (ok <==> old(Enough(c, nodes, freenum)))
      ensures ok ==> SameSlices(old(levels), levels)
      ensures ok ==> (resizedInMakenode <==> old(resizedInMakenode) || |nodes| > old(|nodes|))
      ensures !ok ==> Exhausted()
    {
      hide SameSlices, Table, MidTable, GcGraph, HeadOk, GcKeepsNodes, Within, NoneStuck, Enough, SameCore, Prime.CanGrow, Interacting, Swapped, Own;
      TableSizes(nodes, c.lev, L, levels, freepos, freenum, ext);
      ghost var n0, e0 := nodes, ext;
      var toBeProcessed := DownSimple(c, var0, var1);
      ghost var n1, lv1 := nodes, levels;
      SameEnough(c, n0, n1, freenum);
      ok := Swap(c, toBeProcessed, var0, var1);
      if ok {
        ghost var n2, lv2 := nodes, levels;
        LocalGbc(c, var1);
        SlicesThen(old(levels), lv1, lv2);
        SlicesThen(old(levels), lv2, levels);
        NoneStuckFirst(n0, n1, n2, e0, 0, maxnodesize);
        NoneStuckWithin(n0, n2, nodes, e0, 0, maxnodesize);
        TableSizes(nodes, Swapped(c.lev, c.v0, c.v1), L, levels, freepos, freenum, ext);
      }
    }

    method PairsVardown(level: nat)
      requires PairsSized(pairs, |levels|) && level + 1 < |levels|
      modifies this`pairs
      ensures PairsMoved(old(pairs), pairs, level) && PairsSized(pairs, |levels|)
    {
      var k := 0;
      while k < |pairs|
        invariant k <= |pairs| == old(|pairs|)
        invariant PairsSized(pairs, |levels|)
        invariant forall j :: 0 <= j < k ==> level + 1 < |old(pairs)[j].result| && pairs[j] == PairDown(old(pairs)[j], level)
        invariant forall j :: k <= j < |pairs| ==> pairs[j] == old(pairs)[j]
      {
        var p := pairs[k];
        var tmp := p.result[level];
        p := p.(result := p.result[level := p.result[level + 1]]);
        p := p.(result := p.result[level + 1 := tmp]);
        if p.last == level { p := p.(last := p.last + 1); }
        pairs := pairs[k := p];
        k := k + 1;
      }
    }

    /** The diagram side of reorder_vardown. */
    method ExchangeNodes(ghost c: Ctx, v: nat, w: nat) returns (ok: bool)
      requires Table(nodes, c.lev, L, levels, freepos, freenum, ext) && c.n0 == nodes
      requires v == c.v0 < |c.lev| - 1 && w == c.v1 < |c.lev| - 1 && c.lev[c.v1] == c.lev[c.v0] + 1
      requires c.U == Interacting(nodes, v, w) && Covers(nodes, c.lev, iactmtx) && MatrixOk(iactmtx, |levels|)
      modifies this`nodes, this`freepos, this`freenum, this`levels, this`L, this`ext, this`resizedInMakenode
      ensures ok ==> Table(nodes, Swapped(c.lev, v, w), L, levels, freepos, freenum, ext) && |levels| == old(|levels|)
      ensures ok ==> Exchanged(old(nodes), c.lev, old(ext), nodes, Swapped(c.lev, v, w), ext, w)
      ensures ok ==> Covers(nodes, Swapped(c.lev, v, w), iactmtx) && Within(old(nodes), nodes, old(ext), 0, maxnodesize)
      ensures !iactmtx[v][w] ==> ok
      ensures old(Enough(c, nodes, freenum)) ==> ok
      ensures old(AtLimit()) ==> (ok <==> old(Enough(c, nodes, freenum)))
      ensures ok ==> SameSlices(old(levels), levels)
      ensures ok ==> (resizedInMakenode <==> old(resizedInMakenode) || |nodes| > old(|nodes|))
      ensures !ok ==> Exhausted()
    {
      assert Table(nodes, c.lev, L, levels, freepos, freenum, ext);
      assert Covers(nodes, c.lev, iactmtx);
      TableSizes(nodes, c.lev, L, levels, freepos, freenum, ext);
      ghost var e0, lev' := ext, Swapped(c.lev, v, w);
      hide SameSlices, Prime.CanGrow, Table, GcGraph, Covers, Exchanged, Swapped, Within, Enough;
      NoPadding(ext);
      SlicesSelf(levels);
      WithinSelf(nodes, ext, 0, maxnodesize);
      if iactmtx[v][w] {
        ok := Restructure(c, v, w);
        if !ok { return; }
      } else {
        NothingWanted(c, iactmtx, freenum);
        FreeNonnegative(nodes, c.lev, L, levels, freepos, freenum, ext);
        IndependentExchange(c, L, levels, freepos, freenum, ext, iactmtx);
      }
      ok := true;
      TableSizes(nodes, lev', L, levels, freepos, freenum, ext);
      RestructuredExchange(c, nodes, e0, ext, iactmtx);
    }

    /** Exchanging two neighbours in var2level and level2var, and in the substitution tables. */
    method SwapTables(level: nat, v: nat, w: nat)
      requires Inverse(var2level, level2var) && level + 1 < |level2var| && v == level2var[level] && w == level2var[level + 1]
      requires PairsSized(pairs, |levels|) && level + 1 < |levels| && |var2level| == |levels| + 1 && var2level[|levels|] == |levels|
      modifies this`var2level, this`level2var, this`pairs
      ensures v < |old(var2level)| && w < |old(var2level)| && var2level == Swapped(old(var2level), v, w)
      ensures Inverse(var2level, level2var) && level2var == SwapAt(old(level2var), level)
      ensures PairsSized(pairs, |levels|) && PairsKept(old(pairs), old(var2level), pairs, var2level)
    {
      hide Inverse, Swapped, PairsMoved, PairsKept, PairsSized;
      SwapInverse(var2level, level2var, level, v, w);
      SwapOrder(level, v);
      PairsVardown(level);
      PairsMovedKept(old(pairs), pairs, old(var2level), old(level2var), level);
    }

    method SwapOrder(level: nat, v: nat)
      requires Inverse(var2level, level2var) && level + 1 < |level2var| && v == level2var[level]
      modifies this`var2level, this`level2var
      ensures v < |old(var2level)| && old(level2var)[level + 1] < |old(var2level)|
      ensures var2level == Swapped(old(var2level), v, old(level2var)[level + 1])
      ensures level2var == SwapAt(old(level2var), level)
    {
      var n := level2var[level];
      level2var := level2var[level := level2var[level + 1]];
      level2var := level2var[level + 1 := n];
      n := var2level[v];
      var2level := var2level[v := var2level[level2var[level]]];
      var2level := var2level[level2var[level] := n];
    }

    method RehashIfResized(ghost lev: seq<nat>)
      requires Table(nodes, lev, L, levels, freepos, freenum, ext) && 0 < |levels| <= |nodes|
      modifies this`nodes, this`levels, this`L, this`freepos
      ensures Table(nodes, lev, L, levels, freepos, freenum, ext)
      ensures Ordered(old(nodes), lev) && (Covers(old(nodes), lev, iactmtx) ==> Covers(nodes, lev, iactmtx))
      ensures SameCore(old(nodes), nodes) && |levels| == old(|levels|)
      ensures if resizedInMakenode then Sliced(levels, |nodes|) else levels == old(levels)
    {
      CoreSelf(nodes);
      if resizedInMakenode {
        ghost var n0 := nodes;
        assert Ordered(n0, lev);
        RehashAll(lev);
        assert Ordered(nodes, lev);
        hide Table, Covers, Ordered;
        if Covers(n0, lev, iactmtx) { CoreCovers(n0, nodes, lev, iactmtx); }
      }
    }

    /** reorder_vardown: exchange a variable with the next one in the order.  False stands
        for the errors raised for an unknown variable and for a table that cannot grow. */
    method Vardown(v: int) returns (ok: bool)
      requires Valid()
      modifies this
      ensures ok ==> Valid() && |levels| == old(|levels|) && 0 <= v < |levels|
      ensures ok ==> Carried(old(Snap()), Snap())
      ensures ok && old(var2level)[v] + 1 >= |levels| ==> nodes == old(nodes) && level2var == old(level2var) && var2level == old(var2level)
      ensures ok && old(var2level)[v] + 1 < |levels| ==>
                var w := old(level2var)[old(var2level)[v] + 1];
                && level2var == SwapAt(old(level2var), old(var2level)[v])
                && w < |old(var2level)| && var2level == Swapped(old(var2level), v, w)
                && Exchanged(old(nodes), old(var2level), old(ext), nodes, var2level, ext, w)
      ensures Decided(old(nodes), old(var2level), old(level2var), old(iactmtx), old(freenum), old(AtLimit()), v, ok)
      ensures !ok ==> v < 0 || v >= old(|levels|) || (Exhausted() && Fails(old(Snap())))
    {
      hide Session, Exchanged, PairsSized, PairsKept, MatrixOk, Swapped, SwapAt, Ordered, Covers, Table, Inverse, Preserved, Fails, DecidedFor, Prime.CanGrow;
      SessionFacts(nodes, var2level, level2var, L, levels, freepos, freenum, ext, iactmtx, pairs);
      if v < 0 || v >= |levels| { return false; }
      NextVariable(var2level, level2var, v);
      var level := var2level[v];
      if level >= |levels| - 1 {
        PreservedSelf(nodes, var2level, ext);
        PairsKeptSelf(pairs, var2level, level2var);
        WithinSelf(nodes, ext, 0, maxnodesize);
        return true;
      }
      ok := ExchangeNext(v, level);
    }

    /** reorder_vardown for a variable that is not the last one. */
    method ExchangeNext(v: nat, level: nat) returns (ok: bool)
      requires Valid() && v < |levels| && v < |var2level| && level == var2level[v] && level + 1 < |levels| && level + 1 < |level2var|
      modifies this
      ensures ok ==> Valid() && |levels| == old(|levels|) && Carried(old(Snap()), Snap())
      ensures ok ==>
                var w := old(level2var)[level + 1];
                && level2var == SwapAt(old(level2var), level) && w < |old(var2level)| && var2level == Swapped(old(var2level), v, w)
                && Exchanged(old(nodes), old(var2level), old(ext), nodes, var2level, ext, w)
      ensures Decided(old(nodes), old(var2level), old(level2var), old(iactmtx), old(freenum), old(AtLimit()), v, ok)
      ensures !ok ==> Exhausted() && Fails(old(Snap()))
    {
      hide SameSlices, Sliced, Session, Table, Covers, Exchanged, PairsSized, PairsMoved, PairsKept, MatrixOk, SameCore, Swapped, SwapAt, Within, NoneStuck, Prime.CanGrow;
      hide Ordered, Inverse, Interacting, Preserved, Padded, Enough, Fails, DecidedFor, Decided;
      ghost var n0, lev0, e0, p0 := nodes, var2level, ext, pairs;
      SessionFacts(nodes, var2level, level2var, L, levels, freepos, freenum, ext, iactmtx, pairs);
      NextVariable(var2level, level2var, v);
      MatrixFacts(Snap(), level2var, L, levels, freepos, freenum, iactmtx);
      MatrixRow(iactmtx, |levels|, v);
      resizedInMakenode := false;
      var w := level2var[level + 1];
      ghost var c := Ctx(nodes, var2level, v, w, Interacting(nodes, v, w));
      ghost var s0, L0, levels0, freepos0, free0, iact0 := Snap(), L, levels, freepos, freenum, iactmtx;
      ok := ExchangeNodes(c, v, w);
      Outcome(s0, level2var, L0, levels0, freepos0, free0, iact0, old(AtLimit()), v, w, ok);
      if !ok { return; }
      ghost var n1, lev1 := nodes, Swapped(lev0, v, w);
      if |nodes| == |n0| { StillSliced(old(levels), levels, |nodes|); }
      SwapTables(level, v, w);
      ExchangedSizes(n0, lev0, e0, n1, lev1, ext, w);
      RehashIfResized(lev1);
      CoreNoneStuck(n1, nodes);
      NoneStuckWithin(n0, n1, nodes, e0, 0, maxnodesize);
      FinishExchange(n0, lev0, e0, n1, nodes, lev1, ext, w, L, levels, freepos, freenum);
      SessionMade(nodes, var2level, level2var, L, levels, freepos, freenum, ext, iactmtx, pairs);
      ok := true;
    }

    method Varup(v: int) returns (ok: bool)
      requires Valid()
      modifies this
      ensures ok ==> Valid() && |levels| == old(|levels|) && 0 <= v < |levels|
      ensures ok ==> Carried(old(Snap()), Snap())
      ensures ok && old(var2level)[v] == 0 ==> level2var == old(level2var) && var2level == old(var2level)
      ensures ok && old(var2level)[v] > 0 ==>
                var u := old(level2var)[old(var2level)[v] - 1];
                && level2var == SwapAt(old(level2var), old(var2level)[v] - 1)
                && u < |old(var2level)| && var2level == Swapped(old(var2level), u, v)
      ensures ok ==> 0 <= v < |old(var2level)| - 1
      ensures 0 <= v < |old(var2level)| - 1 ==>
                if old(var2level)[v] == 0 then ok
                else old(var2level)[v] <= |old(level2var)| &&
                     Decided(old(nodes), old(var2level), old(level2var), old(iactmtx), old(freenum), old(AtLimit()), old(level2var)[old(var2level)[v] - 1], ok)
      ensures !ok ==> v < 0 || v >= old(|levels|) || (Exhausted() && Fails(old(Snap())))
    {
      hide Decided, Fails, Prime.CanGrow, Session, PairsKept, PairsSized, Swapped, SwapAt, Ordered, Inverse, Preserved, Exchanged;
      OrderFacts(nodes, var2level, level2var, L, levels, freepos, freenum, ext, iactmtx, pairs);
      if v < 0 || v >= |levels| { return false; }
      PreviousVariable(var2level, level2var, v);
      if var2level[v] == 0 {
        PreservedSelf(nodes, var2level, ext);
        PairsKeptSelf(pairs, var2level, level2var);
        WithinSelf(nodes, ext, 0, maxnodesize);
        return true;
      }
      ok := Vardown(level2var[var2level[v] - 1]);
    }

    // ---- the start of a session -------------------------------------------------------

    /** The row of v of the interaction matrix is added to dep. */
    method AddRow(dep: seq<bool>, v: nat, ghost R: Relation) returns (dep': seq<bool>)
      requires MatrixIs(iactmtx, |dep|, R) && v < |dep|
      ensures |dep'| == |dep| && DepSet(dep') == DepSet(dep) + Row(R, v)
    {
      dep' := dep;
      var n := 0;
      while n < |dep'|
        invariant n <= |dep'| == |dep|
        invariant forall u :: 0 <= u < |dep| ==> (dep'[u] <==> dep[u] || (u < n && iactmtx[v][u]))
      {
        dep' := dep'[n := dep'[n] || iactmtx[v][n]];
        n := n + 1;
      }
      assert forall u: nat :: u in DepSet(dep') <==> u in DepSet(dep) + Row(R, v);
    }

    /** addDependencies: the variables of dep are related to one another. */
    method AddDependencies(dep: seq<bool>, ghost R: Relation)
      requires MatrixIs(iactmtx, |dep|, R)
      modifies this`iactmtx
      ensures MatrixIs(iactmtx, |dep|, R + AllPairs(DepSet(dep)))
    {
      hide RelatedTo;
      ghost var m0 := iactmtx;
      RelateStart(m0, dep);
      var n := 0;
      while n < |dep|
        invariant n <= |dep| && RelatedTo(m0, iactmtx, dep, n, n)
      {
        var m := n;
        while m < |dep|
          invariant n <= m <= |dep| && RelatedTo(m0, iactmtx, dep, n, m)
        {
          RelateStep(m0, iactmtx, dep, n, m);
          if dep[n] && dep[m] {
            iactmtx := Both(iactmtx, n, m);
          }
          m := m + 1;
        }
        RelateRow(m0, iactmtx, dep, n);
        n := n + 1;
      }
      RelateEnd(m0, iactmtx, dep, R);
    }

    /** addref_rec: r is referenced once more, and a node visited for the first time references its
        children; the variables found are those of Expand. */
    method AddRefRec(r: int, dep: seq<bool>, ghost R: Relation, ghost g: seq<BddNode>, ghost lev: seq<nat>, ghost M: set<int>, ghost e: seq<nat>, ghost X: set<int>)
      returns (dep': seq<bool>, ghost X': set<int>)
      requires Ordered(g, lev) && |levels| == |lev| - 1 <= MAXVAR && Ref(g, r) && Ranged(g, |levels|)
      requires Shape(g, nodes, M) && Counting(g, nodes, e, X) && MatrixIs(iactmtx, |levels|, R) && |dep| == |levels|
      modifies this`nodes, this`levels, this`freenum
      ensures Shape(g, nodes, M) && 0 <= r < |e| && Counting(g, nodes, Bump(e, r), X') && X <= X' && X' - X <= Reach(g, lev, r)
      ensures forall i :: i in X' - X ==> 0 <= i < |g| && g[i].refcount == 0
      ensures NumGrown(old(levels), levels, g, X' - X) && SameHashes(old(nodes), nodes)
      ensures |dep'| == |dep|
      ensures Expand(g, lev, R, Progress(CountedNodes(old(nodes)), DepSet(dep)), r) == Progress(CountedNodes(nodes), DepSet(dep'))
      decreases |lev| - Pos(g, lev, r), 1
    {
      hide Ordered, Shape, Counting, Reach, NumGrown, Bump, Ranged, SameHashes, Expand, MatrixIs;
      X' := X;
      dep' := dep;
      assert X - X == {};
      PosRange(g, lev, r);
      CountingSizes(g, nodes, e, X);
      HashesKept(nodes, r);
      NumSame(levels, g);
      ExpandLeaf(g, lev, R, Progress(CountedNodes(nodes), DepSet(dep)), r);
      if r < 2 {
        TerminalBump(g, nodes, e, X, r);
        return;
      }
      RangeOf(g, |levels|, r);
      LevelIn(g, lev, r);
      ShapeFields(g, nodes, M, r);
      Uncounted(g, nodes, e, X, r);
      CountedMore(nodes, r);
      if nodes[r].refcount == 0 {
        dep', X' := FirstVisit(r, dep, R, g, lev, M, e, X);
      } else {
        CountingAgain(g, nodes, e, X, r);
        ShapeInc(g, nodes, M, r);
        dep' := AddRow(dep, UnMark(nodes[r].level), R);
        nodes := IncRef(nodes, r);
      }
    }

    /** The first visit to a node. */
    method FirstVisit(r: int, dep: seq<bool>, ghost R: Relation, ghost g: seq<BddNode>, ghost lev: seq<nat>, ghost M: set<int>, ghost e: seq<nat>, ghost X: set<int>)
      returns (dep': seq<bool>, ghost X': set<int>)
      requires Ordered(g, lev) && |levels| == |lev| - 1 <= MAXVAR && Live(g, r) && Ranged(g, |levels|)
      requires Shape(g, nodes, M) && Counting(g, nodes, e, X) && r < |nodes| && nodes[r].refcount == 0
      requires MatrixIs(iactmtx, |levels|, R) && |dep| == |levels|
      modifies this`nodes, this`levels, this`freenum
      ensures Shape(g, nodes, M) && r < |e| && Counting(g, nodes, Bump(e, r), X') && X <= X' && X' - X <= Reach(g, lev, r)
      ensures forall i :: i in X' - X ==> 0 <= i < |g| && g[i].refcount == 0
      ensures NumGrown(old(levels), levels, g, X' - X) && SameHashes(old(nodes), nodes)
      ensures |dep'| == |dep|
      ensures Expand(g, lev, R, Progress(CountedNodes(old(nodes)), DepSet(dep)), r) == Progress(CountedNodes(nodes), DepSet(dep'))
      decreases |lev| - Pos(g, lev, r), 0
    {
      hide Ordered, Shape, Counting, Reach, NumGrown, Bump, Ranged, SameHashes, Expand, MatrixIs;
      CountingSizes(g, nodes, e, X);
      ghost var h0 := nodes;
      RangeOf(g, |levels|, r);
      LevelIn(g, lev, r);
      ShapeFields(g, nodes, M, r);
      Uncounted(g, nodes, e, X, r);
      NotBelowItself(g, lev, r);
      PosRange(g, lev, g[r].low);
      PosRange(g, lev, g[r].high);
      freenum := freenum - 1;
      var v := UnMark(nodes[r].level);
      dep' := dep[v := true];
      MarkedDep(dep, v);
      ghost var d1 := dep';
      ghost var l0 := levels;
      NumOne(levels, g, r);
      levels := levels[v := levels[v].(nodenum := levels[v].nodenum + 1)];
      ghost var l1 := levels;
      SameLength(l0, l1, g, {r});
      var low, high := nodes[r].low, nodes[r].high;
      ghost var X1, X2;
      dep', X1 := AddRefRec(low, dep', R, g, lev, M, e, X);
      ghost var l2, h1, d2 := levels, nodes, dep';
      SameLength(l1, l2, g, X1 - X);
      dep', X2 := AddRefRec(high, dep', R, g, lev, M, Bump(e, low), X1);
      CountingSizes(g, nodes, Bump(Bump(e, low), high), X2);
      ExpandStep(g, lev, R, h0, h1, nodes, DepSet(dep), DepSet(d1), DepSet(d2), DepSet(dep'), r);
      HashesChain(h0, h1, nodes);
      HashesKept(nodes, r);
      HashesChain(h0, nodes, IncRef(nodes, r));
      StillUncounted(g, lev, nodes, Bump(Bump(e, low), high), X, X1, X2, r);
      CountingVisit(g, nodes, e, X2, r);
      ShapeInc(g, nodes, M, r);
      NumVisit(l0, l1, l2, levels, g, r, X, X1, X2);
      nodes := IncRef(nodes, r);
      X' := X2 + {r};
      forall i | i in X' - X ensures 0 <= i < |g| && g[i].refcount == 0 {
        assert i == r || i in X1 - X || i in X2 - X1;
      }
    }

    /** The first loop of mark_roots: levels become variables, and counted nodes are marked. */
    method Translate(ghost n: nat)
      requires Graph(nodes, n) && OrderOf(var2level, level2var, n) && Ranged(nodes, n) && |level2var| == n + 1
      modifies this`nodes
      ensures |nodes| == |old(nodes)| && TranslatedTo(old(nodes), Translated(old(nodes), level2var), nodes, |nodes|)
    {
      hide Graph, OrderOf, TranslatedTo, ShapeAt;
      ghost var n0 := nodes;
      RootTable(nodes, n, var2level, level2var);
      TranslateStart(nodes, level2var);
      var k := 2;
      while k < |nodes|
        invariant 2 <= k <= |nodes| == |n0| && TranslatedTo(n0, Translated(n0, level2var), nodes, k)
      {
        TranslatedNext(n0, Translated(n0, level2var), nodes, k);
        var v := level2var[nodes[k].level];
        ghost var next := nodes[k := nodes[k].(level := if n0[k].refcount > 0 then SetMark(v) else v)];
        TranslateStep(n0, level2var, nodes, next, k);
        nodes := nodes[k := nodes[k].(level := v)];
        if nodes[k].refcount > 0 {
          nodes := nodes[k := nodes[k].(level := SetMark(nodes[k].level))];
        }
        assert nodes == next;
        k := k + 1;
      }
    }

    /** The second loop of mark_roots, one entry: a root is listed and its diagram expanded. */
    method RootEntry(n: nat, ghost g: seq<BddNode>, ghost lev: seq<nat>, ghost X: set<int>) returns (root: bool, ghost X': set<int>)
      requires Ordered(g, lev) && |levels| == |lev| - 1 <= MAXVAR && Ranged(g, |levels|) && 2 <= n < |g|
      requires RootsTo(g, lev, nodes, X, n) && CountedAreLive(g) && Depended(g, lev, n, nodes, iactmtx)
      modifies this`nodes, this`levels, this`freenum, this`iactmtx
      ensures |nodes| == |g| && RootsTo(g, lev, nodes, X', n + 1) && root == (g[n].refcount > 0) && X <= X'
      ensures NumGrown(old(levels), levels, g, X' - X) && (!root ==> X' == X) && SameHashes(old(nodes), nodes)
      ensures Depended(g, lev, n + 1, nodes, iactmtx)
    {
      hide Ordered, Shape, Counting, Reach, NumGrown, Bump, Ranged, Protected, SameHashes, RootsBelow, Expand, MatrixIs, Depended;
      X' := X;
      assert X - X == {};
      ghost var n0, l0 := nodes, levels;
      NumSame(levels, g);
      RangeOf(g, |levels|, n);
      IsMarkedRoot(g, nodes, n);
      HashesKept(nodes, n);
      root := Marked(nodes[n].level);
      if !root {
        NoRootHere(g, lev, nodes, X, n);
        NotDepended(g, lev, n, nodes, iactmtx);
        return;
      }
      CountedLive(g, lev, n);
      NotBelowItself(g, lev, n);
      LevelIn(g, lev, n);
      CountingKept(g, n0, n0[n := n0[n].(level := UnMark(n0[n].level))], Outside(g), X);
      nodes := nodes[n := nodes[n].(level := UnMark(nodes[n].level))];
      ghost var h1 := nodes;
      ShapeFields(g, nodes, Roots(g, n + 1), n);
      var v, low, high := nodes[n].level, nodes[n].low, nodes[n].high;
      assert v == g[n].level;
      var dep := seq(|levels|, u => false)[v := true];
      ghost var R := RootsBelow(g, lev, n).related;
      DependedMatrix(g, lev, n, n0, iactmtx, h1);
      NumOne(levels, g, n);
      levels := levels[v := levels[v].(nodenum := levels[v].nodenum + 1)];
      ghost var l1, d1, X1, X2 := levels, DepSet(dep), X, X;
      dep, X1 := AddRefRec(low, dep, R, g, lev, Roots(g, n + 1), Outside(g), X);
      ghost var l2, h2, d2 := levels, nodes, DepSet(dep);
      SameLength(l1, l2, g, X1 - X);
      dep, X2 := AddRefRec(high, dep, R, g, lev, Roots(g, n + 1), Bump(Outside(g), low), X1);
      HashesChain(h1, h2, nodes);
      HashesChain(n0, h1, nodes);
      RootDone(g, lev, nodes, X, X1, X2, n, n0);
      CountingSizes(g, nodes, Bump(Bump(Outside(g), low), high), X2);
      NumVisit(l0, l1, l2, levels, g, n, X, X1, X2);
      X' := X2 + {n};
      AddDependencies(dep, R);
      assert d1 == {v};
      DependedRoot(g, lev, n, h1, h2, nodes, d1, d2, DepSet(dep), iactmtx);
    }

    /** mark_roots: the counts become references from outside and parents, for exactly the nodes
        reachable from a counted node, and the matrix relates the variables that were found together. */
    method MarkRoots(n: nat) returns (extroots: seq<nat>, ghost X: set<int>)
      requires Graph(nodes, n) && OrderOf(var2level, level2var, n) && Ranged(nodes, n) && |level2var| == n + 1 && |levels| == n
      modifies this`nodes, this`levels, this`freenum, this`iactmtx
      ensures Ordered(Translated(old(nodes), level2var), var2level) && CountedAreLive(Translated(old(nodes), level2var))
      ensures MatrixIs(iactmtx, n, Found(Translated(old(nodes), level2var), var2level))
      ensures RootsTo(Translated(old(nodes), level2var), var2level, nodes, X, |old(nodes)|)
      ensures NoBuckets(nodes) && NumGrown(old(levels), levels, Translated(old(nodes), level2var), X)
      ensures ListedTo(Translated(old(nodes), level2var), extroots, |old(nodes)|)
    {
      hide Graph, OrderOf, Ordered, RootsTo, NumGrown, SameHashes, Ranged, TranslatedTo, ListedTo, Depended, RootsBelow, MatrixIs;
      ghost var n0, l0 := nodes, levels;
      RootTable(nodes, n, var2level, level2var);
      ghost var g := Translated(nodes, level2var);
      Translate(n);
      CountingBegins(n0, n, var2level, level2var, nodes);
      extroots, X := [], {};
      iactmtx := seq(n, v => seq(n, u => false));
      NothingDepended(n0, g, var2level, nodes, iactmtx);
      NothingListed(g);
      NumSame(levels, g);
      var k := 2;
      while k < |nodes|
        invariant 2 <= k <= |nodes| == |g| && |levels| == n
        invariant RootsTo(g, var2level, nodes, X, k) && NumGrown(l0, levels, g, X) && ClearedTo(nodes, k) && ListedTo(g, extroots, k)
        invariant Depended(g, var2level, k, nodes, iactmtx)
      {
        ghost var n1, l1, X1 := nodes, levels, X;
        var root;
        root, X := RootEntry(k, g, var2level, X);
        NumLater(l0, l1, levels, g, X1, X);
        ListedNext(g, extroots, k);
        if root {
          extroots := extroots + [k];
        }
        ClearedNext(n1, nodes, k);
        RootsKept(g, var2level, nodes, nodes[k := nodes[k].(hash := 0)], X, k + 1);
        DependedKept(g, var2level, k + 1, nodes, nodes[k := nodes[k].(hash := 0)], iactmtx);
        nodes := nodes[k := nodes[k].(hash := 0)];
        k := k + 1;
      }
      RootsKept(g, var2level, nodes, nodes[0 := nodes[0].(hash := 0)][1 := nodes[1].(hash := 0)], X, k);
      DependedFound(g, var2level, nodes, iactmtx);
      nodes := nodes[0 := nodes[0].(hash := 0)];
      nodes := nodes[1 := nodes[1].(hash := 0)];
    }

    /** reorder_gbc: what is not counted becomes free, the rest goes to the buckets of its variable. */
    method StartGbc()
      requires NoBuckets(nodes) && 3 <= |nodes| && Geometry(levels, |nodes|)
      requires forall i :: 2 <= i < |nodes| && nodes[i].refcount > 0 ==> nodes[i].low != -1 && nodes[i].level < |levels|
      requires forall i :: 2 <= i < |nodes| ==> nodes[i].level <= |levels|
      modifies this`nodes, this`L, this`freepos, this`freenum
      ensures SweptFrom(old(nodes), nodes, 2) && Linked(nodes, L) && FreeOk(L, freepos, freenum) && Rehashed(nodes, L, levels, 2)
    {
      hide Linked, HeadOk, LinkAt, NodeHash, Geometry, Rehashed, SameCore, AllInNone, NoBuckets, SweptFrom, Dead;
      ghost var c := nodes;
      freepos := 0;
      freenum := 0;
      L := AllLoose(nodes);
      RehashStart(nodes, L, levels);
      SweptStart(c);
      var n := |nodes|;
      while n > 2
        invariant 2 <= n <= |nodes| == |c| == |L.owner| == |L.pos|
        invariant SweptFrom(c, nodes, n) && freenum == |Dead(c, n)|
        invariant Linked(nodes, L) && HeadOk(L, Free, freepos) && Rehashed(nodes, L, levels, n)
      {
        n := n - 1;
        SweptEntry(c, nodes, n);
        ghost var n1 := nodes;
        if nodes[n].refcount == 0 {
          FreedEntry(c, nodes, L, levels, n);
          nodes := nodes[n := nodes[n].(low := -1)];
          freenum := freenum + 1;
        }
        CoreSelf(nodes);
        RehashEntry(nodes, n);
        SweptNext(c, n1, nodes, n);
      }
      FreeNumberIs(c, nodes, L, levels, freepos, freenum);
    }

    /** reorder_init: the counts become references from outside and parents, and the diagrams say by
        variable what they said by level.  The session invariant holds if and only if the matrix built
        on the way relates the variables of every diagram of a counted node. */
    method Init(n: nat) returns (extroots: seq<nat>)
      requires Graph(nodes, n) && OrderOf(var2level, level2var, n) && Ranged(nodes, n) && |level2var| == n + 1
      requires 0 < n <= |nodes| && PairsSized(pairs, n)
      modifies this`nodes, this`levels, this`freepos, this`freenum, this`L, this`ext, this`iactmtx
      ensures Ready(nodes, var2level, level2var, L, levels, freepos, freenum, ext)
      ensures Ordered(Translated(old(nodes), level2var), var2level) && CountedAreLive(Translated(old(nodes), level2var))
      ensures MatrixIs(iactmtx, n, Found(Translated(old(nodes), level2var), var2level))
      ensures Valid() <==> Complete(old(nodes), n, var2level, level2var)
      ensures |levels| == n && |nodes| == |old(nodes)| && ext == Outside(Translated(old(nodes), level2var))
      ensures Begins(old(nodes), n, level2var, nodes, var2level)
      ensures StartCounts(old(nodes), nodes)
      ensures KeptAs(Translated(old(nodes), level2var), nodes, Protected(old(nodes), Levels(n), []))
      ensures ListedTo(Translated(old(nodes), level2var), extroots, |old(nodes)|)
    {
      hide Graph, OrderOf, Ordered, RootsTo, NumGrown, Linked, FreeOk, Rehashed, Geometry, SweptFrom, Begins, Session, RootsRelated, MatrixIs, Found, NoBuckets, ListedTo, StartCounts, KeptAs, Protected;
      ghost var n0 := nodes;
      RootTable(nodes, n, var2level, level2var);
      levels := seq(n, i => LevelData(0, 0, 0, 0));
      ghost var l0 := levels;
      ghost var X;
      extroots, X := MarkRoots(n);
      ghost var c, l1 := nodes, levels;
      NumSizes(l0, l1, Translated(n0, level2var), X);
      CountedFit(Translated(n0, level2var), var2level, c, X);
      SetLevelLookup();
      StartGbc();
      ext := Outside(Translated(n0, level2var));
      SweptSize(c, nodes);
      SessionBegins(n0, n, var2level, level2var, c, nodes, X, L, l0, l1, levels, freepos, freenum, iactmtx, Found(Translated(n0, level2var), var2level), pairs);
    }

    /** reorder_done up to its final bdd_gbc: the table is canonical by level again, and the listed
        roots say by level what they said by variable. */
    method Done(n: nat, extroots: seq<nat>)
      requires Ready(nodes, var2level, level2var, L, levels, freepos, freenum, ext) && n == |levels| && n <= MAXVAR && forall r :: r in extroots ==> 2 <= r < |nodes|
      modifies this`nodes
      ensures Graph(nodes, n) && |nodes| == |old(nodes)| && EndedTo(old(nodes), nodes, Listed(extroots), var2level, |nodes|)
      ensures OrderOf(var2level, level2var, n) && Ends(old(nodes), var2level, level2var, nodes, n, Listed(extroots))
    {
      hide Graph, Ordered, Ready, Conserved, Ends, EndedTo, Inverse, Reduced, Unique;
      ghost var n0 := nodes;
      SessionEndFacts(nodes, var2level, level2var, L, levels, freepos, freenum, ext);
      EndStart(nodes, var2level);
      NoneListed(extroots);
      var k := 0;
      while k < |extroots|
        invariant k <= |extroots| && |nodes| == |n0| && EndedTo(n0, nodes, Listed(extroots[..k]), var2level, 2)
      {
        var r := extroots[k];
        assert r in extroots;
        RangeOf(n0, n, r);
        EndMarked(n0, nodes, extroots, k, var2level);
        nodes := nodes[r := nodes[r].(level := SetMark(nodes[r].level))];
        k := k + 1;
      }
      assert extroots[..k] == extroots;
      ghost var R := Listed(extroots);
      var i := 2;
      while i < |nodes|
        invariant 2 <= i <= |nodes| == |n0| && EndedTo(n0, nodes, R, var2level, i)
      {
        RangeOf(n0, n, i);
        RangeIn(n0, n, i);
        ghost var next := nodes[i := nodes[i].(level := var2level[n0[i].level], refcount := if i in R then nodes[i].refcount else 0)];
        EndStep(n0, nodes, next, R, var2level, i);
        if Marked(nodes[i].level) {
          nodes := nodes[i := nodes[i].(level := UnMark(nodes[i].level))];
        } else {
          nodes := nodes[i := nodes[i].(refcount := 0)];
        }
        nodes := nodes[i := nodes[i].(level := var2level[UnMark(nodes[i].level)])];
        assert nodes == next;
        i := i + 1;
      }
      ListedFrom2(extroots);
      SessionEnds(n0, nodes, R, var2level, level2var, n, ext);
    }

    /** Facts about the order that hold between exchanges. */
    lemma Start()
      requires Valid()
      ensures Carried(Snap(), Snap()) && Inverse(var2level, level2var)
      ensures |var2level| == |level2var| == |levels| + 1 && var2level[|levels|] == |levels| > 0
    {
      hide Session, PairsKept, PairsSized, Ordered, Inverse, Preserved;
      OrderFacts(nodes, var2level, level2var, L, levels, freepos, freenum, ext, iactmtx, pairs);
      PreservedSelf(nodes, var2level, ext);
      PairsKeptSelf(pairs, var2level, level2var);
      WithinSelf(nodes, ext, 0, maxnodesize);
    }

    /** bdd_setvarorder */
    method SetVarOrder(neworder: seq<nat>) returns (ok: bool)
      requires Valid() && |neworder| == |levels| && forall k :: 0 <= k < |neworder| ==> neworder[k] < |levels|
      modifies this
      ensures ok ==> Valid() && Carried(old(Snap()), Snap()) && |levels| == old(|levels|)
      ensures ok ==> level2var == Arranged(old(level2var), neworder, 0)
      ensures ok ==> |level2var| == |neworder| + 1 && (level2var[..|neworder|] == neworder <==> Permutation(neworder))
      ensures |neworder| <= old(|level2var|) && old(level2var)[..|neworder|] == neworder ==> ok && nodes == old(nodes) && level2var == old(level2var)
      ensures !ok ==> Exhausted() && Fails(old(Snap()))
    {
      hide Prime.CanGrow, Fails, Session, Carried, Inverse, Swapped, SwapAt, PairsKept, Preserved, Exchanged, Valid, PutAt;
      Start();
      ghost var s0, l2v0, target := Snap(), level2var, Arranged(level2var, neworder, 0);
      var level := 0;
      while level < |levels|
        invariant Valid() && Carried(s0, Snap()) && |levels| == |neworder| && level <= |levels|
        invariant Arranged(level2var, neworder, level) == target
        invariant |neworder| <= |l2v0| && l2v0[..|neworder|] == neworder ==> nodes == s0.nodes && level2var == l2v0
        invariant Permutation(neworder) ==> FollowsTo(level2var, neworder, level)
      {
        var lowvar := neworder[level];
        Start();
        if |neworder| <= |l2v0| && l2v0[..|neworder|] == neworder { StandsThere(var2level, level2var, neworder, level); }
        while var2level[lowvar] > level
          invariant Valid() && Carried(s0, Snap()) && |levels| == |neworder| && |var2level| == |levels| + 1
          invariant |neworder| <= |l2v0| && l2v0[..|neworder|] == neworder ==> nodes == s0.nodes && level2var == l2v0 && var2level[lowvar] == level
          invariant Arranged(PutAt(level2var, level, lowvar), neworder, level + 1) == target
          invariant Permutation(neworder) ==> FollowsTo(level2var, neworder, level)
          decreases var2level[lowvar]
        {
          Start();
          ghost var s1, l2v := Snap(), level2var;
          ok := Varup(lowvar);
          if !ok { FailsLater(s0, s1); return; }
          CarriedTransitive(s0, s1, Snap());
          Start();
          UpFollows(s1.lev, l2v, var2level, level2var, neworder, level, lowvar);
          UpLifts(s1.lev, l2v, var2level, level2var, level, lowvar);
        }
        Start();
        NextFollows(var2level, level2var, neworder, level);
        NotLifted(var2level, level2var, level, lowvar);
        level := level + 1;
      }
      Start();
      OrderReached(var2level, level2var, neworder);
      ok := true;
    }

    /** The first loop of bdd_swapvar. */
    method MoveDown(v1: nat, l2: nat) returns (ok: bool)
      requires Valid() && v1 < |var2level| && var2level[v1] <= l2 < |levels|
      modifies this
      ensures ok ==> Valid() && Carried(old(Snap()), Snap()) && |levels| == old(|levels|)
      ensures ok ==> MovedDown(old(level2var), level2var, old(var2level)[v1], l2)
      ensures !ok ==> Exhausted() && Fails(old(Snap()))
    {
      hide Prime.CanGrow, Fails, Session, Carried, Inverse, Swapped, SwapAt, PairsKept, Preserved, Exchanged, Valid, MovedDown;
      Start();
      ghost var s0, before, l1, size := Snap(), level2var, var2level[v1], |levels|;
      MovedNowhere(var2level, level2var, v1);
      while var2level[v1] < l2
        invariant Valid() && Carried(s0, Snap()) && |levels| == size && |var2level| == size + 1
        invariant l1 <= var2level[v1] <= l2
        invariant MovedDown(before, level2var, l1, var2level[v1])
        decreases l2 - var2level[v1]
      {
        Start();
        ghost var s1, l2v := Snap(), level2var;
        ok := Vardown(v1);
        if !ok { FailsLater(s0, s1); return; }
        CarriedTransitive(s0, s1, Snap());
        Start();
        DownFurther(before, l2v, l1, s1.lev[v1]);
        SwappedAt(s1.lev, l2v, v1);
      }
      ok := true;
    }

    /** The second loop of bdd_swapvar. */
    method MoveUp(v2: nat, l1: nat) returns (ok: bool)
      requires Valid() && v2 < |levels| && |var2level| == |levels| + 1 && l1 <= var2level[v2]
      modifies this
      ensures ok ==> Valid() && Carried(old(Snap()), Snap()) && |levels| == old(|levels|)
      ensures ok ==> MovedUp(old(level2var), level2var, old(var2level)[v2], l1)
      ensures !ok ==> Exhausted() && Fails(old(Snap()))
    {
      hide Prime.CanGrow, Fails, Session, Carried, Inverse, Swapped, SwapAt, PairsKept, Preserved, Exchanged, Valid, MovedUp;
      Start();
      ghost var s0, before, l2, size := Snap(), level2var, var2level[v2], |levels|;
      MovedNowhere(var2level, level2var, v2);
      while var2level[v2] > l1
        invariant Valid() && Carried(s0, Snap()) && |levels| == size && |var2level| == size + 1
        invariant l1 <= var2level[v2] <= l2
        invariant MovedUp(before, level2var, l2, var2level[v2])
        decreases var2level[v2]
      {
        Start();
        ghost var s1, l2v := Snap(), level2var;
        ok := Varup(v2);
        if !ok { FailsLater(s0, s1); return; }
        CarriedTransitive(s0, s1, Snap());
        Start();
        UpFurther(before, l2v, l2, s1.lev[v2]);
        SwappedBelow(s1.lev, l2v, v2);
      }
      ok := true;
    }

    /** bdd_swapvar: the two variables change places and no other variable moves. */
    method SwapVar(v1: int, v2: int) returns (ok: bool)
      requires Valid()
      modifies this
      ensures ok ==> Valid() && Carried(old(Snap()), Snap()) && |levels| == old(|levels|)
      ensures v1 == v2 ==> ok && level2var == old(level2var) && nodes == old(nodes)
      ensures ok ==> v1 == v2 || (0 <= v1 < |levels| && 0 <= v2 < |levels|)
      ensures ok && v1 != v2 ==>
                && 0 <= v1 < |levels| && 0 <= v2 < |levels| && |old(var2level)| == |levels| + 1
                && var l1, l2 := old(var2level)[v1], old(var2level)[v2];
                   l1 < |old(level2var)| && l2 < |old(level2var)| && level2var == old(level2var)[l1 := v2][l2 := v1]
      ensures !ok ==> v1 < 0 || v1 >= old(|levels|) || v2 < 0 || v2 >= old(|levels|) || (Exhausted() && Fails(old(Snap())))
    {
      hide Prime.CanGrow, Fails, Session, Carried, Inverse, PairsKept, Preserved, Exchanged, Valid, MovedUp, MovedDown;
      Start();
      if v1 == v2 { return true; }
      if v1 < 0 || v1 >= |levels| || v2 < 0 || v2 >= |levels| { return false; }
      ghost var s0, before, lev0 := Snap(), level2var, var2level;
      var w1, w2 := v1, v2;
      if var2level[w1] > var2level[w2] { w1, w2 := v2, v1; }
      var l1, l2 := var2level[w1], var2level[w2];
      TwoVariables(var2level, level2var, w1, w2);
      ok := MoveDown(w1, l2);
      if !ok { return; }
      Start();
      ghost var s1, mid := Snap(), level2var;
      OtherMoved(before, var2level, mid, l1, l2, w2);
      ok := MoveUp(w2, l1);
      if !ok { FailsLater(s0, s1); return; }
      CarriedTransitive(s0, s1, Snap());
      DownThenUp(before, mid, level2var, l1, l2);
    }

    // ---- blockdown ------------------------------------------------------------------

    /** reorder_vardown for lseq[n] when a variable of B stands below it. */
    method OneDown(lseq: seq<nat>, n: nat, ghost B: seq<nat>, ghost s: nat, ghost before: seq<nat>, ghost s0: Snapshot) returns (ok: bool)
      requires Valid() && Carried(s0, Snap()) && Shuffle(var2level, level2var, before, lseq, B, s) && s + |lseq| + |B| <= |levels|
      requires n < |lseq| && lseq[n] < |var2level| && var2level[lseq[n]] + 1 < s + |lseq| + |B|
      requires n + 1 < |lseq| ==> lseq[n + 1] < |var2level| && var2level[lseq[n + 1]] != var2level[lseq[n]] + 1
      modifies this
      ensures ok ==> Valid() && Carried(s0, Snap()) && |levels| == old(|levels|) && |var2level| == old(|var2level|)
      ensures ok ==> Shuffle(var2level, level2var, before, lseq, B, s)
      ensures ok ==> (forall a :: 0 <= a < |lseq| ==> lseq[a] < |var2level|) && Sum(var2level, lseq) == Sum(old(var2level), lseq) + 1
      ensures !ok ==> Exhausted() && Fails(s0)
    {
      hide Prime.CanGrow, Fails, Session, Carried, Inverse, Swapped, SwapAt, PairsKept, Preserved, Exchanged, Valid, Shuffle, Sum;
      Start();
      ghost var s1, l2v := Snap(), level2var;
      ShuffleRange(var2level, level2var, before, lseq, B, s);
      ok := Vardown(lseq[n]);
      if !ok { FailsLater(s0, s1); return; }
      CarriedTransitive(s0, s1, Snap());
      Start();
      DownKeepsShuffle(s1.lev, l2v, before, lseq, B, s, n, var2level, level2var);
      SumStep(s1.lev, var2level, lseq, n);
    }

    /** One round of the first loop of blockdown. */
    method PassDown(lseq: seq<nat>, rlast: nat, ghost B: seq<nat>, ghost s: nat, ghost before: seq<nat>, ghost s0: Snapshot) returns (ok: bool)
      requires Valid() && Carried(s0, Snap()) && Shuffle(var2level, level2var, before, lseq, B, s) && s + |lseq| + |B| <= |levels|
      requires lseq != [] && B != [] && rlast == B[|B| - 1]
      requires lseq[0] < |var2level| && rlast < |var2level| && var2level[lseq[0]] < var2level[rlast]
      modifies this
      ensures ok ==> Valid() && Carried(s0, Snap()) && |levels| == old(|levels|) && |var2level| == old(|var2level|)
      ensures ok ==> Shuffle(var2level, level2var, before, lseq, B, s)
      ensures ok ==> (forall a :: 0 <= a < |lseq| ==> lseq[a] < |var2level|) && Sum(var2level, lseq) > Sum(old(var2level), lseq)
      ensures !ok ==> Exhausted() && Fails(s0)
    {
      hide Prime.CanGrow, Fails, Session, Carried, Inverse, Swapped, SwapAt, PairsKept, Preserved, Exchanged, Valid, Shuffle, Sum;
      ghost var size, lev0, moved := |levels|, var2level, false;
      var leftsize := |lseq| - 1;
      var n := 0;
      ShuffleRange(var2level, level2var, before, lseq, B, s);
      while n < leftsize
        invariant 0 <= n <= leftsize && Valid() && Carried(s0, Snap()) && |levels| == size && |var2level| == |lev0|
        invariant Shuffle(var2level, level2var, before, lseq, B, s)
        invariant forall a :: 0 <= a < |lseq| ==> lseq[a] < |lev0|
        invariant if moved then Sum(var2level, lseq) > Sum(lev0, lseq)
                  else Sum(var2level, lseq) == Sum(lev0, lseq) && var2level[lseq[n]] < var2level[rlast]
      {
        ShuffleRange(var2level, level2var, before, lseq, B, s);
        if var2level[lseq[n]] + 1 != var2level[lseq[n + 1]] && var2level[lseq[n]] < var2level[rlast] {
          ok := OneDown(lseq, n, B, s, before, s0);
          if !ok { return; }
          moved := true;
        }
        n := n + 1;
      }
      ShuffleRange(var2level, level2var, before, lseq, B, s);
      if var2level[lseq[leftsize]] < var2level[rlast] {
        ok := OneDown(lseq, leftsize, B, s, before, s0);
        if !ok { return; }
      }
      ok := true;
    }

    /** The first loop of blockdown: the left block moves past everything down to the end of
        the right one. */
    method LeftPast(lseq: seq<nat>, rlast: nat, ghost B: seq<nat>, ghost s: nat) returns (ok: bool)
      requires Valid() && Shuffle(var2level, level2var, level2var, lseq, B, s) && s + |lseq| + |B| <= |levels|
      requires lseq != [] && B != [] && rlast == B[|B| - 1]
      modifies this
      ensures ok ==> Valid() && Carried(old(Snap()), Snap()) && |levels| == old(|levels|) && |var2level| == old(|var2level|)
      ensures ok ==> Shuffle(var2level, level2var, old(level2var), lseq, B, s)
      ensures ok ==> StandsAt(var2level, B, s) && StandsAt(var2level, lseq, s + |B|)
      ensures !ok ==> Exhausted() && Fails(old(Snap()))
    {
      hide Prime.CanGrow, Fails, Session, Carried, Inverse, Swapped, SwapAt, PairsKept, Preserved, Exchanged, Valid, Shuffle, Sum;
      Start();
      ghost var s0, size, before := Snap(), |levels|, level2var;
      ShuffleRange(var2level, level2var, before, lseq, B, s);
      while var2level[lseq[0]] < var2level[rlast]
        invariant Valid() && Carried(s0, Snap()) && |levels| == size && |var2level| == |s0.lev|
        invariant Shuffle(var2level, level2var, before, lseq, B, s)
        invariant rlast < |var2level| && forall a :: 0 <= a < |lseq| ==> lseq[a] < |var2level|
        decreases |lseq| * (s + |lseq| + |B|) - Sum(var2level, lseq)
      {
        ShuffleRange(var2level, level2var, before, lseq, B, s);
        SumBound(var2level, lseq, s + |lseq| + |B|);
        ok := PassDown(lseq, rlast, B, s, before, s0);
        if !ok { return; }
        ShuffleRange(var2level, level2var, before, lseq, B, s);
        SumBound(var2level, lseq, s + |lseq| + |B|);
      }
      AllPassed(var2level, level2var, before, lseq, B, s);
      ok := true;
    }

    /** reorder_varup for rseq[n] when a variable of G stands above it. */
    method OneUp(rseq: seq<nat>, n: nat, ghost G: seq<nat>, ghost s: nat, ghost before: seq<nat>, ghost s0: Snapshot) returns (ok: bool)
      requires Valid() && Carried(s0, Snap()) && Shuffle(var2level, level2var, before, G, rseq, s) && s + |G| + |rseq| <= |levels|
      requires n < |rseq| && rseq[n] < |var2level| && var2level[rseq[n]] > s
      requires n > 0 ==> rseq[n - 1] < |var2level| && var2level[rseq[n - 1]] != var2level[rseq[n]] - 1
      modifies this
      ensures ok ==> Valid() && Carried(s0, Snap()) && |levels| == old(|levels|) && |var2level| == old(|var2level|)
      ensures ok ==> Shuffle(var2level, level2var, before, G, rseq, s)
      ensures ok ==> forall b :: 0 <= b < |rseq| ==>
                rseq[b] < |var2level| && var2level[rseq[b]] == old(var2level)[rseq[b]] - if b == n then 1 else 0
      ensures !ok ==> Exhausted() && Fails(s0)
    {
      hide Prime.CanGrow, Fails, Session, Carried, Inverse, Swapped, SwapAt, PairsKept, Preserved, Exchanged, Valid, Shuffle;
      Start();
      ghost var s1, l2v := Snap(), level2var;
      ShuffleRange(var2level, level2var, before, G, rseq, s);
      ok := Varup(rseq[n]);
      if !ok { FailsLater(s0, s1); return; }
      CarriedTransitive(s0, s1, Snap());
      Start();
      UpKeepsShuffle(s1.lev, l2v, before, G, rseq, s, n, var2level, level2var);
    }

    /** Round t + 1 of the second loop of blockdown. */
    method PassUp(rseq: seq<nat>, leftstart: nat, ghost G: seq<nat>, ghost t: nat, ghost before: seq<nat>, ghost s0: Snapshot) returns (ok: bool)
      requires Valid() && Carried(s0, Snap()) && Shuffle(var2level, level2var, before, G, rseq, leftstart)
      requires leftstart + |G| + |rseq| <= |levels| && rseq != []
      requires Spread(var2level, rseq, leftstart, |G|, t, |rseq| - 1) && t < |G|
      modifies this
      ensures ok ==> Valid() && Carried(s0, Snap()) && |levels| == old(|levels|) && |var2level| == old(|var2level|)
      ensures ok ==> Shuffle(var2level, level2var, before, G, rseq, leftstart)
      ensures ok ==> Spread(var2level, rseq, leftstart, |G|, t + 1, |rseq| - 1)
      ensures !ok ==> Exhausted() && Fails(s0)
    {
      hide Prime.CanGrow, Fails, Session, Carried, Inverse, Swapped, SwapAt, PairsKept, Preserved, Exchanged, Valid, Shuffle, Spread;
      ghost var size, lev0, g := |levels|, var2level, |G|;
      var n := |rseq| - 1;
      ShuffleRange(var2level, level2var, before, G, rseq, leftstart);
      while n > 0
        invariant 0 <= n < |rseq| && Valid() && Carried(s0, Snap()) && |levels| == size && |var2level| == |lev0|
        invariant Shuffle(var2level, level2var, before, G, rseq, leftstart)
        invariant forall b :: 0 <= b < |rseq| ==> rseq[b] < |lev0|
        invariant Spread(var2level, rseq, leftstart, g, t, n)
      {
        ghost var lev1 := var2level;
        SpreadGap(var2level, rseq, leftstart, g, t, n);
        if var2level[rseq[n]] - 1 != var2level[rseq[n - 1]] && var2level[rseq[n]] > leftstart {
          ok := OneUp(rseq, n, G, leftstart, before, s0);
          if !ok { return; }
          SpreadStep(lev1, var2level, rseq, leftstart, g, t, n);
        } else {
          SpreadSkip(var2level, rseq, leftstart, g, t, n);
        }
        n := n - 1;
      }
      SpreadGap(var2level, rseq, leftstart, g, t, 0);
      ghost var lev2 := var2level;
      if var2level[rseq[0]] > leftstart {
        ok := OneUp(rseq, 0, G, leftstart, before, s0);
        if !ok { return; }
      }
      SpreadStep(lev2, var2level, rseq, leftstart, g, t, 0);
      SpreadRound(var2level, rseq, leftstart, g, t);
      ok := true;
    }

    /** The second loop of blockdown: until the first variable of the right block stands
        where the left block stood. */
    method RightUp(rseq: seq<nat>, leftstart: nat, ghost G: seq<nat>) returns (ok: bool)
      requires Valid() && rseq != [] && leftstart + |G| + |rseq| <= |levels|
      requires StandsAt(var2level, G, leftstart) && StandsAt(var2level, rseq, leftstart + |G|)
      modifies this
      ensures ok ==> Valid() && Carried(old(Snap()), Snap()) && |levels| == old(|levels|) && |var2level| == old(|var2level|)
      ensures ok ==> Shuffle(var2level, level2var, old(level2var), G, rseq, leftstart)
      ensures ok ==> Alternates(var2level, rseq, leftstart, |G|)
      ensures !ok ==> Exhausted() && Fails(old(Snap()))
    {
      hide Prime.CanGrow, Fails, Session, Carried, Inverse, PairsKept, Preserved, Exchanged, Valid, Shuffle, Spread, StandsAt, Alternates;
      Start();
      ghost var s0, size, before, g, t := Snap(), |levels|, level2var, |G|, 0;
      StandsShuffle(var2level, level2var, G, rseq, leftstart);
      SpreadStart(var2level, rseq, leftstart, g);
      SpreadFirst(var2level, rseq, leftstart, g, t);
      while var2level[rseq[0]] > leftstart
        invariant Valid() && Carried(s0, Snap()) && |levels| == size && |var2level| == |s0.lev| && rseq[0] < |var2level|
        invariant Shuffle(var2level, level2var, before, G, rseq, leftstart)
        invariant t <= g && Spread(var2level, rseq, leftstart, g, t, |rseq| - 1) && var2level[rseq[0]] == leftstart + g - t
        decreases g - t
      {
        ok := PassUp(rseq, leftstart, G, t, before, s0);
        if !ok { return; }
        t := t + 1;
        SpreadFirst(var2level, rseq, leftstart, g, t);
      }
      SpreadFirst(var2level, rseq, leftstart, g, t);
      ok := true;
    }

    /** The two loops of blockdown. */
    method MoveBlocks(lseq: seq<nat>, rseq: seq<nat>) returns (ok: bool)
      requires Valid() && TwoGroups(var2level, lseq, rseq, |levels|)
      modifies this
      ensures ok ==> Valid() && Carried(old(Snap()), Snap()) && |levels| == old(|levels|)
      ensures ok ==> GroupsExchanged(old(var2level), old(level2var), level2var, lseq, rseq)
      ensures !ok ==> Exhausted() && Fails(old(Snap()))
    {
      hide Prime.CanGrow, Fails, Session, Carried, Inverse, PairsKept, Preserved, Exchanged, Valid, Shuffle, StandsAt, Alternates, Interleave;
      Start();
      ghost var s0, size, before := Snap(), |levels|, level2var;
      ghost var r := var2level[rseq[0]];
      var leftstart := var2level[lseq[0]];
      ghost var gap := level2var[leftstart + |lseq|..r];
      ghost var B := GroupsShuffle(var2level, level2var, lseq, rseq, leftstart, r);
      ok := LeftPast(lseq, rseq[|rseq| - 1], B, leftstart);
      if !ok { return; }
      Start();
      ghost var s1, mid := Snap(), level2var;
      OutsideShuffle(var2level, level2var, before, lseq, B, leftstart);
      SplitStands(var2level, gap, rseq, leftstart);
      SegmentAt(var2level, level2var, lseq, leftstart + |B|);
      ok := RightUp(rseq, leftstart, gap);
      if !ok { FailsLater(s0, s1); return; }
      CarriedTransitive(s0, s1, Snap());
      BlocksExchanged(before, mid, var2level, level2var, lseq, gap, rseq, leftstart);
      GroupsAreExchanged(s0.lev, before, level2var, lseq, rseq, size);
      ok := true;
    }
  }

  /** The part of a variable block that blockdown uses: its variables in their current order
      and its neighbours. */
  class Block {
    var variables: seq<nat>
    var pos: int
    var next: Block?
    var prev: Block?

    constructor (variables: seq<nat>, pos: int)
      ensures this.variables == variables && this.pos == pos && next == null && prev == null
    {
      this.variables, this.pos := variables, pos;
      next, prev := null, null;
    }
  }

  /** left and its successor are correctly linked with their neighbours. */
  ghost predicate Neighbours(left: Block, right: Block)
    reads left, right, left.prev, right.next
  {
    && left != right && left.next == right && right.prev == left
    && left.prev != right && right.next != left && (left.prev == null || left.prev != right.next)
    && left.prev != left && right.next != right
    && (left.prev != null ==> left.prev.next == left)
    && (right.next != null ==> right.next.prev == right)
  }

  /** The relinking at the end of blockdown. */
  method ExchangeLinks(left: Block, right: Block)
    requires Neighbours(left, right)
    modifies left, right, left.prev, right.next
    ensures Neighbours(right, left)
    ensures right.prev == old(left.prev) && left.next == old(right.next)
    ensures left.pos == old(right.pos) && right.pos == old(left.pos)
    ensures left.variables == old(left.variables) && right.variables == old(right.variables)
    ensures old(left.prev) != null ==>
              old(left.prev).prev == old(left.prev.prev) && old(left.prev).variables == old(left.prev.variables) && old(left.prev).pos == old(left.prev.pos)
    ensures old(right.next) != null ==>
              old(right.next).next == old(right.next.next) && old(right.next).variables == old(right.next.variables) && old(right.next).pos == old(right.next.pos)
  {
    left.next := right.next;
    right.prev := left.prev;
    left.prev := right;
    right.next := left;
    if right.prev != null {
      right.prev.next := right;
    }
    if left.next != null {
      left.next.prev := left;
    }
    var n := left.pos;
    left.pos := right.pos;
    right.pos := n;
  }

  /** blockdown: exchange a block with the next one. */
  method Blockdown(m: Reorderer, left: Block, right: Block) returns (ok: bool)
    requires m.Valid() && Neighbours(left, right) && TwoGroups(m.var2level, left.variables, right.variables, |m.levels|)
    modifies m, left, right, left.prev, right.next
    ensures ok ==> m.Valid() && Carried(old(m.Snap()), m.Snap())
    ensures ok ==> Neighbours(right, left) && right.prev == old(left.prev) && left.next == old(right.next)
    ensures ok ==> left.pos == old(right.pos) && right.pos == old(left.pos)
    ensures ok ==> left.variables == old(left.variables) && right.variables == old(right.variables)
    ensures ok ==> GroupsExchanged(old(m.var2level), old(m.level2var), m.level2var, left.variables, right.variables)
    ensures !ok ==> m.Exhausted() && Fails(old(m.Snap()))
  {
    hide Session, Carried, TwoGroups, GroupsExchanged, Reorderer.Valid;
    ok := m.MoveBlocks(left.variables, right.variables);
    if !ok { return; }
    ExchangeLinks(left, right);
  }
}
