/** The sweeps of an exchange over the hash chains: sorting out the nodes to restructure,
    the local collection, and rehashing after a resize. */
module ReorderSweep {
  import opened NodeTable
  import opened Diagram
  import opened RefCount
  import opened ReorderTheory
  import opened ReorderStep

  // ---- reorder_downSimple -----------------------------------------------------------

  /** The table between two exchanges. */
  ghost predicate Table(nodes: seq<BddNode>, lev: seq<nat>, L: Links, levels: seq<LevelData>, freepos: nat, freenum: int, ext: seq<nat>) {
    && Ordered(nodes, lev) && Reduced(nodes) && Unique(nodes)
    && |levels| == |lev| - 1 && |ext| == |nodes|
    && Linked(nodes, L) && Geometry(levels, |nodes|) && Placed(nodes, L, levels, {})
    && FreeOk(L, freepos, freenum) && Counted(nodes, L, levels)
    && Conserved(nodes, ext)
    && forall i {:trigger Live(nodes, i)} :: Live(nodes, i) ==> nodes[i].refcount > 0
  }

  ghost predicate SameCore(nodes: seq<BddNode>, nodes': seq<BddNode>) {
    && |nodes'| == |nodes|
    && forall i :: 0 <= i < |nodes| ==> SameTriple(nodes'[i], nodes[i]) && nodes'[i].refcount == nodes[i].refcount
  }

  /** The entries in the first hi buckets of v0. */
  ghost function Sorted(L: Links, start: nat, hi: nat): set<int> {
    set i | 2 <= i < |L.owner| && L.owner[i].Bucket? && start <= L.owner[i].b < start + hi
  }

  /** The first hi buckets of v0 have been sorted; what is left of bucket b hangs on `Rest`. */
  ghost predicate DownPlaced(n0: seq<BddNode>, L: Links, levels: seq<LevelData>, v0: nat, v1: nat, b: nat, hi: nat) {
    && |L.owner| == |n0| && v0 < |levels|
    && (forall i :: 2 <= i < |n0| ==>
          if n0[i].low == -1 then L.owner[i] == Free && n0[i].level <= |levels|
          else
            && n0[i].level < |levels| && levels[n0[i].level].size > 0
            && (|| L.owner[i] == Home(n0, levels, i)
                || (L.owner[i] == Rest && Home(n0, levels, i) == Bucket(b))
                || (L.owner[i] == Work && n0[i].level == v0 && DependsOn(n0, i, v1))))
    && (forall i :: i in Sorted(L, levels[v0].start, hi) ==> !DependsOn(n0, i, v1))
  }

  ghost predicate DownCounted(n0: seq<BddNode>, L: Links, levels: seq<LevelData>, v0: nat, hi: nat) {
    && |L.owner| == |n0| && v0 < |levels|
    && levels[v0].nodenum == |Sorted(L, levels[v0].start, hi)|
    && forall w :: 0 <= w < |levels| && w != v0 ==> levels[w].nodenum == |InTable(n0, L, w)|
  }

  ghost predicate DownInv(n0: seq<BddNode>, nodes: seq<BddNode>, L: Links, levels: seq<LevelData>, v0: nat, v1: nat,
                          b: nat, hi: nat, r: int, tbp: int, freepos: nat, freenum: int)
  {
    && SameCore(n0, nodes) && Linked(nodes, L) && FreeOk(L, freepos, freenum) && Geometry(levels, |n0|)
    && HeadOk(L, Rest, r) && HeadOk(L, Work, tbp)
    && DownPlaced(n0, L, levels, v0, v1, b, hi) && DownCounted(n0, L, levels, v0, hi)
    && v0 < |levels| && hi <= levels[v0].size
  }

  lemma DownStartPlaced(nodes: seq<BddNode>, L: Links, levels: seq<LevelData>, levels': seq<LevelData>, v0: nat, v1: nat)
    requires Placed(nodes, L, levels, {}) && SameSizes(levels, levels') && v0 < |levels|
    ensures DownPlaced(nodes, L, levels', v0, v1, 0, 0)
  {
    hide PairHash;
    assert Sorted(L, levels'[v0].start, 0) == {};
  }

  lemma ZeroCount(levels: seq<LevelData>, levels': seq<LevelData>, v0: nat)
    requires v0 < |levels| && levels' == levels[v0 := levels[v0].(nodenum := 0)]
    ensures SameSizes(levels, levels')
  {
  }

  lemma NoTemporaries(nodes: seq<BddNode>, L: Links, levels: seq<LevelData>)
    requires Placed(nodes, L, levels, {}) && |L.pos| == |L.owner|
    ensures HeadOk(L, Rest, 0) && HeadOk(L, Work, 0)
  {
  }

  lemma DownStartCounted(nodes: seq<BddNode>, L: Links, levels: seq<LevelData>, levels': seq<LevelData>, v0: nat)
    requires |L.owner| == |nodes| && v0 < |levels| && Counted(nodes, L, levels) && levels' == levels[v0 := levels[v0].(nodenum := 0)]
    ensures DownCounted(nodes, L, levels', v0, 0)
  {
    assert Sorted(L, levels'[v0].start, 0) == {};
  }

  lemma DownStart(nodes: seq<BddNode>, L: Links, levels: seq<LevelData>, v0: nat, v1: nat, freepos: nat, freenum: int)
    requires Linked(nodes, L) && FreeOk(L, freepos, freenum) && Geometry(levels, |nodes|) && Placed(nodes, L, levels, {}) && Counted(nodes, L, levels)
    requires v0 < |levels|
    ensures DownInv(nodes, nodes, L, levels[v0 := levels[v0].(nodenum := 0)], v0, v1, 0, 0, 0, 0, freepos, freenum)
  {
    hide Placed, DownPlaced, DownCounted, Counted, Linked, Geometry, FreeOk, HeadOk, NodeHash, SameSizes, SameCore;
    var levels' := levels[v0 := levels[v0].(nodenum := 0)];
    LinkedSizes(nodes, L);
    CoreSelf(nodes);
    ZeroCount(levels, levels', v0);
    NoTemporaries(nodes, L, levels);
    SameGeometry(levels, levels', |nodes|);
    DownStartPlaced(nodes, L, levels, levels', v0, v1);
    DownStartCounted(nodes, L, levels, levels', v0);
  }

  lemma DownDetachPlaced(n0: seq<BddNode>, L: Links, L': Links, levels: seq<LevelData>, v0: nat, v1: nat, b: nat, n: nat)
    requires DownPlaced(n0, L, levels, v0, v1, b, n) && n < levels[v0].size
    requires forall i :: 2 <= i < |n0| ==> L.owner[i] != Rest
    requires Renamed(L, L', n + levels[v0].start)
    ensures DownPlaced(n0, L', levels, v0, v1, n + levels[v0].start, n + 1)
  {
    hide NodeHash;
    assert Sorted(L', levels[v0].start, n + 1) <= Sorted(L, levels[v0].start, n);
  }

  lemma DownDetachCounted(n0: seq<BddNode>, L: Links, L': Links, levels: seq<LevelData>, v0: nat, v1: nat, b: nat, n: nat)
    requires DownPlaced(n0, L, levels, v0, v1, b, n) && DownCounted(n0, L, levels, v0, n) && Geometry(levels, |n0|) && n < levels[v0].size
    requires Renamed(L, L', n + levels[v0].start)
    ensures DownCounted(n0, L', levels, v0, n + 1)
  {
    var h := n + levels[v0].start;
    assert Sorted(L', levels[v0].start, n + 1) == Sorted(L, levels[v0].start, n);
    forall w | 0 <= w < |levels| && w != v0 ensures InTable(n0, L', w) == InTable(n0, L, w) {
      BucketOfOther(n0, L, levels, v0, v1, b, n, h, w);
      hide Geometry, DownPlaced, DownCounted;
    }
  }

  /** The entries of a bucket of v0 belong to v0. */
  lemma BucketOfOther(n0: seq<BddNode>, L: Links, levels: seq<LevelData>, v0: nat, v1: nat, b: nat, hi: nat, h: nat, w: nat)
    requires DownPlaced(n0, L, levels, v0, v1, b, hi) && Geometry(levels, |n0|)
    requires levels[v0].start <= h < levels[v0].start + levels[v0].size && w < |levels| && w != v0
    ensures forall i :: 2 <= i < |n0| && L.owner[i] == Bucket(h) ==> n0[i].level != w
  {
    forall i | 2 <= i < |n0| && L.owner[i] == Bucket(h) && n0[i].level == w ensures false {
      HashInRange(levels, |n0|, w, n0[i].low, n0[i].high);
    }
  }

  lemma DetachCore(n0: seq<BddNode>, nodes: seq<BddNode>, L: Links, L': Links, h: nat, freepos: nat, freenum: int)
    requires SameCore(n0, nodes) && h < |nodes| && |L.owner| == |L.pos| && FreeOk(L, freepos, freenum) && Renamed(L, L', h)
    ensures SameCore(n0, nodes[h := nodes[h].(hash := 0)]) && FreeOk(L', freepos, freenum)
  {
  }

  lemma DownDetach(n0: seq<BddNode>, nodes: seq<BddNode>, L: Links, L': Links, levels: seq<LevelData>, v0: nat, v1: nat,
                   b: nat, n: nat, h: nat, tbp: int, freepos: nat, freenum: int)
    requires DownInv(n0, nodes, L, levels, v0, v1, b, n, 0, tbp, freepos, freenum) && n < levels[v0].size
    requires h == n + levels[v0].start && Renamed(L, L', h)
    ensures h < |nodes| && DownInv(n0, nodes[h := nodes[h].(hash := 0)], L', levels, v0, v1, h, n + 1, nodes[h].hash, tbp, freepos, freenum)
  {
    hide DownPlaced, DownCounted, Linked, LinkAt, Geometry, HeadOk, NodeHash, SameCore, FreeOk, Renamed, Sorted;
    DetachRange(n0, nodes, L, levels, v0, n);
    NothingInRest(n0, L);
    DetachCore(n0, nodes, L, L', h, freepos, freenum);
    DetachLinked(nodes, L, L', h);
    DownDetachPlaced(n0, L, L', levels, v0, v1, b, n);
    DownDetachCounted(n0, L, L', levels, v0, v1, b, n);
  }

  lemma DetachRange(n0: seq<BddNode>, nodes: seq<BddNode>, L: Links, levels: seq<LevelData>, v0: nat, n: nat)
    requires Linked(nodes, L) && SameCore(n0, nodes) && Geometry(levels, |n0|) && v0 < |levels| && n < levels[v0].size
    ensures |L.owner| == |L.pos| == |n0| == |nodes| && n + levels[v0].start < |nodes|
  {
  }

  lemma NothingInRest(n0: seq<BddNode>, L: Links)
    requires |L.owner| == |L.pos| == |n0| && HeadOk(L, Rest, 0)
    ensures forall i :: 2 <= i < |n0| ==> L.owner[i] != Rest
  {
  }

  /** The entry at the head of `Rest` is a v0 node of bucket b. */
  lemma RestHead(n0: seq<BddNode>, L: Links, levels: seq<LevelData>, v0: nat, v1: nat, b: nat, hi: nat, r: int)
    requires DownPlaced(n0, L, levels, v0, v1, b, hi) && Geometry(levels, |n0|) && |L.pos| == |L.owner|
    requires HeadOk(L, Rest, r) && r != 0 && levels[v0].start <= b < levels[v0].start + levels[v0].size
    ensures Live(n0, r) && n0[r].level == v0 && L.owner[r] == Rest && Home(n0, levels, r) == Bucket(b)
  {
    var w := n0[r].level;
    HashInRange(levels, |n0|, w, n0[r].low, n0[r].high);
    if w != v0 {
      assert false;
    }
  }

  lemma KeepPlaced(n0: seq<BddNode>, L: Links, L': Links, levels: seq<LevelData>, levels': seq<LevelData>, v0: nat, v1: nat, b: nat, hi: nat, r: int)
    requires DownPlaced(n0, L, levels, v0, v1, b, hi) && OneMore(levels, levels', v0) && SameSizes(levels, levels')
    requires 2 <= r < |n0| && n0[r].low != -1 && n0[r].level == v0 && Home(n0, levels, r) == Bucket(b) && !DependsOn(n0, r, v1)
    requires L'.owner == L.owner[r := Bucket(b)]
    ensures DownPlaced(n0, L', levels', v0, v1, b, hi)
  {
    hide PairHash;
    assert Sorted(L', levels[v0].start, hi) <= Sorted(L, levels[v0].start, hi) + {r};
  }

  lemma KeepCounted(n0: seq<BddNode>, L: Links, L': Links, levels: seq<LevelData>, levels': seq<LevelData>, v0: nat, b: nat, hi: nat, r: int)
    requires DownCounted(n0, L, levels, v0, hi) && OneMore(levels, levels', v0)
    requires 2 <= r < |n0| && n0[r].level == v0 && L.owner[r] == Rest && levels[v0].start <= b < levels[v0].start + hi
    requires L'.owner == L.owner[r := Bucket(b)]
    ensures DownCounted(n0, L', levels', v0, hi)
  {
    assert Sorted(L', levels[v0].start, hi) == Sorted(L, levels[v0].start, hi) + {r};
    forall w | 0 <= w < |levels| && w != v0 ensures InTable(n0, L', w) == InTable(n0, L, w) {
    }
  }

  lemma PushCore(n0: seq<BddNode>, nodes: seq<BddNode>, r: int, b: nat, h: nat)
    requires SameCore(n0, nodes) && 2 <= r < |nodes| && b < |nodes|
    ensures SameCore(n0, PushBucket(nodes, r, b))
    ensures SameCore(n0, nodes[r := nodes[r].(next := h)])
  {
  }

  lemma FreeUntouched(L: Links, L': Links, r: int, freepos: nat, freenum: int)
    requires |L.owner| == |L.pos| == |L'.pos| == |L'.owner| && FreeOk(L, freepos, freenum) && 2 <= r < |L.owner| && L.owner[r] != Free
    requires L'.owner[r] != Free
    requires forall i :: 0 <= i < |L.owner| && i != r ==> L'.owner[i] == L.owner[i] && L'.pos[i] == L.pos[i]
    ensures FreeOk(L', freepos, freenum)
  {
  }

  /** The entry after r is closer to the end of its list. */
  ghost predicate RestShrinks(nodes: seq<BddNode>, L: Links, L': Links, r: int)
    requires 2 <= r < |nodes| == |L.pos|
  {
    && |L'.pos| == |nodes|
    && (nodes[r].next != 0 ==> 2 <= nodes[r].next < |nodes| && L'.pos[nodes[r].next] < L.pos[r])
  }

  /** Moving the head of `Rest` to the head of bucket b. */
  lemma RestToBucket(nodes: seq<BddNode>, L: Links, b: nat, r: int, tbp: int, freepos: nat, freenum: int)
    requires Linked(nodes, L) && HeadOk(L, Rest, r) && r != 0 && HeadOk(L, Work, tbp) && FreeOk(L, freepos, freenum) && b < |nodes|
    ensures 2 <= r < |nodes| == |L.owner| == |L.pos| && 0 <= nodes[b].hash < |nodes|
    ensures var L' := Pushed(L, r, Bucket(b), nodes[b].hash);
            && Linked(PushBucket(nodes, r, b), L') && HeadOk(L', Rest, nodes[r].next) && HeadOk(L', Work, tbp) && FreeOk(L', freepos, freenum)
            && L'.owner == L.owner[r := Bucket(b)]
    ensures RestShrinks(nodes, L, Pushed(L, r, Bucket(b), nodes[b].hash), r)
  {
    BucketHead(nodes, L, b);
    var L1 := L.(owner := L.owner[r := Loose]);
    var L' := Pushed(L, r, Bucket(b), nodes[b].hash);
    FreeUntouched(L, L', r, freepos, freenum);
    PushedLoose(L, L1, r, Bucket(b), nodes[b].hash);
    hide Linked, HeadOk, FreeOk, PushBucket, LinkAt;
    PopLinked(nodes, L, Rest, r);
    PushBucketLinked(nodes, L1, r, b);
  }

  /** Moving the head of `Rest` to the head of the working list. */
  lemma RestToWork(nodes: seq<BddNode>, L: Links, r: int, tbp: int, freepos: nat, freenum: int)
    requires Linked(nodes, L) && HeadOk(L, Rest, r) && r != 0 && HeadOk(L, Work, tbp) && FreeOk(L, freepos, freenum)
    ensures 2 <= r < |nodes| == |L.owner| == |L.pos| && 0 <= tbp < |nodes|
    ensures var L' := Pushed(L, r, Work, tbp);
            && Linked(nodes[r := nodes[r].(next := tbp)], L') && HeadOk(L', Rest, nodes[r].next) && HeadOk(L', Work, r) && FreeOk(L', freepos, freenum)
            && L'.owner == L.owner[r := Work]
    ensures RestShrinks(nodes, L, Pushed(L, r, Work, tbp), r)
  {
    var L1 := L.(owner := L.owner[r := Loose]);
    var L' := Pushed(L, r, Work, tbp);
    FreeUntouched(L, L', r, freepos, freenum);
    PushedLoose(L, L1, r, Work, tbp);
    hide Linked, HeadOk, FreeOk, LinkAt;
    PopLinked(nodes, L, Rest, r);
    PushLinked(nodes, L1, r, Work, tbp);
  }

  lemma DownSizes(n0: seq<BddNode>, nodes: seq<BddNode>, L: Links, levels: seq<LevelData>, v0: nat, v1: nat,
                  b: nat, hi: nat, r: int, tbp: int, freepos: nat, freenum: int)
    requires DownInv(n0, nodes, L, levels, v0, v1, b, hi, r, tbp, freepos, freenum)
    ensures |n0| == |nodes| == |L.owner| == |L.pos| && levels[v0].start + levels[v0].size <= |n0|
  {
  }

  lemma OneMoreSizes(levels: seq<LevelData>, levels': seq<LevelData>, v: nat)
    requires v < |levels| && OneMore(levels, levels', v)
    ensures SameSizes(levels, levels') && |levels'| == |levels| && levels'[v].size == levels[v].size
  {
  }

  lemma DownKeep(n0: seq<BddNode>, nodes: seq<BddNode>, L: Links, levels: seq<LevelData>, levels': seq<LevelData>, v0: nat, v1: nat,
                 b: nat, hi: nat, r: int, tbp: int, freepos: nat, freenum: int)
    requires DownInv(n0, nodes, L, levels, v0, v1, b, hi, r, tbp, freepos, freenum)
    requires r != 0 && levels[v0].start <= b < levels[v0].start + hi && OneMore(levels, levels', v0)
    requires 2 <= r < |n0| && !DependsOn(n0, r, v1)
    ensures 2 <= r < |nodes| && b < |nodes| && 0 <= nodes[b].hash < |nodes| && |L.owner| == |L.pos| == |nodes|
    ensures var L' := Pushed(L, r, Bucket(b), nodes[b].hash);
            DownInv(n0, PushBucket(nodes, r, b), L', levels', v0, v1, b, hi, nodes[r].next, tbp, freepos, freenum)
            && RestShrinks(nodes, L, L', r)
  {
    hide DownPlaced, DownCounted, Linked, LinkAt, Geometry, NodeHash, SameCore, FreeOk, Sorted, PushBucket, HeadOk, Pushed, OneMore, SameSizes, DependsOn;
    DownSizes(n0, nodes, L, levels, v0, v1, b, hi, r, tbp, freepos, freenum);
    OneMoreSizes(levels, levels', v0);
    RestToBucket(nodes, L, b, r, tbp, freepos, freenum);
    var L' := Pushed(L, r, Bucket(b), nodes[b].hash);
    RestHead(n0, L, levels, v0, v1, b, hi, r);
    KeepPlaced(n0, L, L', levels, levels', v0, v1, b, hi, r);
    KeepCounted(n0, L, L', levels, levels', v0, b, hi, r);
    PushCore(n0, nodes, r, b, 0);
    SameGeometry(levels, levels', |n0|);
  }

  lemma PushedLoose(L: Links, L1: Links, r: int, o: Owner, h: int)
    requires |L.owner| == |L.pos| && 2 <= r < |L.owner| && 0 <= h < |L.owner|
    requires L1 == L.(owner := L.owner[r := Loose])
    ensures Pushed(L1, r, o, h) == Pushed(L, r, o, h)
  {
    UpdateTwice(L.owner, r, Loose, o);
  }

  lemma MovePlaced(n0: seq<BddNode>, L: Links, L': Links, levels: seq<LevelData>, v0: nat, v1: nat, b: nat, hi: nat, r: int)
    requires DownPlaced(n0, L, levels, v0, v1, b, hi) && DownCounted(n0, L, levels, v0, hi)
    requires 2 <= r < |n0| && n0[r].low != -1 && n0[r].level == v0 && DependsOn(n0, r, v1) && L.owner[r] == Rest
    requires L'.owner == L.owner[r := Work]
    ensures DownPlaced(n0, L', levels, v0, v1, b, hi) && DownCounted(n0, L', levels, v0, hi)
  {
    hide NodeHash;
    assert Sorted(L', levels[v0].start, hi) == Sorted(L, levels[v0].start, hi);
    forall w | 0 <= w < |levels| && w != v0 ensures InTable(n0, L', w) == InTable(n0, L, w) {
    }
  }

  lemma DownMove(n0: seq<BddNode>, nodes: seq<BddNode>, L: Links, levels: seq<LevelData>, v0: nat, v1: nat,
                 b: nat, hi: nat, r: int, tbp: int, freepos: nat, freenum: int)
    requires DownInv(n0, nodes, L, levels, v0, v1, b, hi, r, tbp, freepos, freenum)
    requires r != 0 && 2 <= r < |n0| && DependsOn(n0, r, v1) && levels[v0].start <= b < levels[v0].start + hi && 0 <= tbp
    ensures 2 <= r < |nodes| == |L.owner| == |L.pos| && tbp < |nodes|
    ensures DownInv(n0, nodes[r := nodes[r].(next := tbp)], Pushed(L, r, Work, tbp), levels, v0, v1, b, hi, nodes[r].next, r, freepos, freenum)
    ensures RestShrinks(nodes, L, Pushed(L, r, Work, tbp), r)
  {
    assert |n0| == |nodes|;
    hide DownPlaced, DownCounted, Linked, LinkAt, Geometry, NodeHash, SameCore, FreeOk, Sorted;
    RestToWork(nodes, L, r, tbp, freepos, freenum);
    hide HeadOk;
    var L' := Pushed(L, r, Work, tbp);
    hide Pushed;
    RestHead(n0, L, levels, v0, v1, b, hi, r);
    MovePlaced(n0, L, L', levels, v0, v1, b, hi, r);
    PushCore(n0, nodes, r, 0, tbp);
  }

  /** The nodes of v0 with a child of v1. */
  ghost function Interacting(nodes: seq<BddNode>, v0: nat, v1: nat): set<int> {
    set i | 2 <= i < |nodes| && Live(nodes, i) && nodes[i].level == v0 && DependsOn(nodes, i, v1)
  }

  /** When every bucket of v0 has been sorted, the working list holds exactly the
      interacting nodes. */
  lemma DownEndPlaced(n0: seq<BddNode>, nodes: seq<BddNode>, L: Links, levels: seq<LevelData>, v0: nat, v1: nat, b: nat)
    requires v0 < |levels| && DownPlaced(n0, L, levels, v0, v1, b, levels[v0].size) && SameCore(n0, nodes) && Geometry(levels, |n0|)
    requires forall i :: 2 <= i < |n0| ==> L.owner[i] != Rest
    ensures Placed(nodes, L, levels, Interacting(n0, v0, v1))
  {
    forall i | 2 <= i < |n0| && n0[i].low != -1
      ensures if i in Interacting(n0, v0, v1) then L.owner[i] == Work else L.owner[i] == Home(n0, levels, i)
    {
      if n0[i].level == v0 && L.owner[i] != Work {
        HashInRange(levels, |n0|, v0, n0[i].low, n0[i].high);
        assert i in Sorted(L, levels[v0].start, levels[v0].size);
      }
    }
  }

  lemma DownEndCounted(n0: seq<BddNode>, nodes: seq<BddNode>, L: Links, levels: seq<LevelData>, v0: nat, v1: nat, b: nat)
    requires v0 < |levels| && DownPlaced(n0, L, levels, v0, v1, b, levels[v0].size) && DownCounted(n0, L, levels, v0, levels[v0].size)
    requires Geometry(levels, |n0|) && SameCore(n0, nodes)
    requires forall i :: 2 <= i < |n0| ==> L.owner[i] != Rest
    ensures Counted(nodes, L, levels)
  {
    forall w | 0 <= w < |levels| ensures levels[w].nodenum == |InTable(nodes, L, w)| {
      assert InTable(nodes, L, w) == InTable(n0, L, w);
      if w == v0 {
        forall i | 2 <= i < |n0| && L.owner[i].Bucket?
          ensures i in Sorted(L, levels[v0].start, levels[v0].size) <==> n0[i].level == v0
        {
          HashInRange(levels, |n0|, n0[i].level, n0[i].low, n0[i].high);
        }
        assert InTable(n0, L, v0) == Sorted(L, levels[v0].start, levels[v0].size);
      }
    }
  }

  /** Between exchanges every node is referenced, so it is held. */
  lemma TableHeld(c: Ctx, nodes: seq<BddNode>, ext: seq<nat>)
    requires Conserved(nodes, ext) && |ext| == |nodes| && forall i {:trigger Live(nodes, i)} :: Live(nodes, i) ==> nodes[i].refcount > 0
    requires nodes[0].low == nodes[0].high == 0 && nodes[1].low == nodes[1].high == 1
    ensures AllHeld(c, nodes, ext)
  {
    forall x | Live(nodes, x) && !OldLower(c, x) ensures Held(nodes, ext, x) {
      assert CountOk(nodes, ext, x) by { var d := InDegree(nodes, x); }
      if nodes[x].refcount != MAXREF && ext[x] == 0 {
        if forall s :: 0 <= s < |nodes| ==> Edges(nodes[s], x) == 0 {
          NoParents(nodes, x);
          assert false;
        }
        var s :| 0 <= s < |nodes| && Edges(nodes[s], x) > 0;
        assert Live(nodes, s);
      }
    }
  }

  lemma CoreConserved(n0: seq<BddNode>, nodes: seq<BddNode>, ext: seq<nat>)
    requires Conserved(n0, ext) && SameCore(n0, nodes)
    ensures Conserved(nodes, ext)
  {
    forall m | Live(nodes, m) ensures CountOk(nodes, ext, m) {
      InDegreeSame(n0, nodes, m);
      var d := InDegree(n0, m);
    }
  }

  lemma StartMid(c: Ctx, nodes: seq<BddNode>)
    requires CtxOk(c) && SameCore(c.n0, nodes)
    ensures Mid(c, nodes, {}) && NoneFreed(c, nodes)
  {
    forall i, j | Live(nodes, i) && Live(nodes, j) && i !in c.U && j !in c.U && nodes[i].level == c.v0 && SameTriple(nodes[i], nodes[j])
      ensures i == j
    {
      assert Live(c.n0, i) && Live(c.n0, j) && SameTriple(c.n0[i], c.n0[j]);
    }
  }

  lemma DownEnd(c: Ctx, nodes: seq<BddNode>, L0: Links, levels0: seq<LevelData>, fp0: nat, fn0: int,
                L: Links, levels: seq<LevelData>, b: nat, tbp: int, freepos: nat, freenum: int, ext: seq<nat>)
    requires Table(c.n0, c.lev, L0, levels0, fp0, fn0, ext) && |levels| == |levels0|
    requires c.v0 < |c.lev| - 1 && c.v1 < |c.lev| - 1 && c.lev[c.v1] == c.lev[c.v0] + 1 && c.U == Interacting(c.n0, c.v0, c.v1)
    requires DownInv(c.n0, nodes, L, levels, c.v0, c.v1, b, levels[c.v0].size, 0, tbp, freepos, freenum)
    ensures MidTable(c, {}, nodes, L, levels, freepos, freenum, ext) && HeadOk(L, Work, tbp)
  {
    hide DownPlaced, DownCounted, Linked, LinkAt, Geometry, HeadOk, NodeHash, FreeOk, Sorted, Conserved, Unique, Reduced, CtxOk, Ordered;
    hide Interacting, Mid, NoneFreed, AllHeld;
    CtxStart(c);
    StartMid(c, nodes);
    CoreConserved(c.n0, nodes, ext);
    TerminalShape(c.n0, c.lev);
    TableHeld(c, nodes, ext);
    hide SameCore;
    SizesAgree(c.n0, nodes, L);
    NothingInRest(c.n0, L);
    DownEndPlaced(c.n0, nodes, L, levels, c.v0, c.v1, b);
    DownEndCounted(c.n0, nodes, L, levels, c.v0, c.v1, b);
    assert c.U - {} == c.U;
  }

  lemma CtxStart(c: Ctx)
    requires Ordered(c.n0, c.lev) && Reduced(c.n0) && Unique(c.n0)
    requires c.v0 < |c.lev| - 1 && c.v1 < |c.lev| - 1 && c.lev[c.v1] == c.lev[c.v0] + 1 && c.U == Interacting(c.n0, c.v0, c.v1)
    ensures CtxOk(c)
  {
  }

  lemma SizesAgree(n0: seq<BddNode>, nodes: seq<BddNode>, L: Links)
    requires SameCore(n0, nodes) && Linked(nodes, L)
    ensures |n0| == |nodes| == |L.owner| == |L.pos|
  {
  }

  lemma TerminalShape(nodes: seq<BddNode>, lev: seq<nat>)
    requires Ordered(nodes, lev)
    ensures nodes[0].low == nodes[0].high == 0 && nodes[1].low == nodes[1].high == 1
  {
  }

  // ---- reorder_localGbc -------------------------------------------------------------

  /** The first hi buckets of v1 hold referenced nodes only; what is left of bucket b
      hangs on `Rest`. */
  ghost predicate GcPlaced(nodes: seq<BddNode>, L: Links, levels: seq<LevelData>, v1: nat, b: nat, hi: nat) {
    && |L.owner| == |nodes| && v1 < |levels|
    && (forall i :: 2 <= i < |nodes| ==>
          if nodes[i].low == -1 then L.owner[i] == Free && nodes[i].level <= |levels|
          else
            && nodes[i].level < |levels| && levels[nodes[i].level].size > 0
            && (L.owner[i] == Home(nodes, levels, i) || (L.owner[i] == Rest && Home(nodes, levels, i) == Bucket(b))))
    && (forall i :: i in Sorted(L, levels[v1].start, hi) ==> nodes[i].refcount > 0)
  }

  ghost function InSession(nodes: seq<BddNode>, L: Links, v: nat): set<int>
    requires |L.owner| == |nodes|
  {
    set i | 2 <= i < |nodes| && (L.owner[i].Bucket? || L.owner[i] == Rest) && nodes[i].level == v
  }

  ghost predicate GcCounted(nodes: seq<BddNode>, L: Links, levels: seq<LevelData>) {
    && |L.owner| == |nodes|
    && forall w :: 0 <= w < |levels| ==> levels[w].nodenum == |InSession(nodes, L, w)|
  }

  ghost predicate GcGraph(c: Ctx, nodes: seq<BddNode>, ext: seq<nat>) {
    && CtxOk(c) && |ext| == |nodes|
    && Mid(c, nodes, c.U) && Closed(nodes) && Conserved(nodes, ext) && AllHeld(c, nodes, ext)
  }

  ghost predicate GcInv(c: Ctx, nodes: seq<BddNode>, L: Links, levels: seq<LevelData>, b: nat, hi: nat, r: int,
                        freepos: nat, freenum: int, ext: seq<nat>)
  {
    && GcGraph(c, nodes, ext) && |levels| == |c.lev| - 1
    && Linked(nodes, L) && FreeOk(L, freepos, freenum) && Geometry(levels, |nodes|) && HeadOk(L, Rest, r)
    && GcPlaced(nodes, L, levels, c.v1, b, hi) && GcCounted(nodes, L, levels)
    && c.v1 < |levels| && hi <= levels[c.v1].size
  }

  lemma GcStartPlaced(nodes: seq<BddNode>, L: Links, levels: seq<LevelData>, v1: nat)
    requires Placed(nodes, L, levels, {}) && Counted(nodes, L, levels) && v1 < |levels|
    ensures GcPlaced(nodes, L, levels, v1, 0, 0) && GcCounted(nodes, L, levels)
    ensures |L.pos| == |L.owner| ==> HeadOk(L, Rest, 0)
  {
    hide NodeHash;
    assert Sorted(L, levels[v1].start, 0) == {};
    forall w | 0 <= w < |levels| ensures InSession(nodes, L, w) == InTable(nodes, L, w) {
    }
  }

  lemma CtxRange(c: Ctx)
    requires CtxOk(c)
    ensures c.v0 < |c.lev| - 1 && c.v1 < |c.lev| - 1 && c.v0 != c.v1
  {
  }

  lemma GcStart(c: Ctx, nodes: seq<BddNode>, L: Links, levels: seq<LevelData>, freepos: nat, freenum: int, ext: seq<nat>)
    requires MidTable(c, c.U, nodes, L, levels, freepos, freenum, ext)
    ensures GcInv(c, nodes, L, levels, 0, 0, 0, freepos, freenum, ext)
  {
    hide Mid, NoneFreed, CtxOk, Closed, Conserved, AllHeld, FreeOk, Geometry, Linked, LinkAt, NodeHash, Placed, GcPlaced, GcCounted, HeadOk, Counted;
    MidClosed(c, nodes, c.U);
    CtxRange(c);
    LinkedSizes(nodes, L);
    assert c.U - c.U == {};
    GcStartPlaced(nodes, L, levels, c.v1);
  }

  lemma GcDetachPlaced(nodes: seq<BddNode>, nodes': seq<BddNode>, L: Links, L': Links, levels: seq<LevelData>, v1: nat, b: nat, n: nat)
    requires v1 < |levels| && n < levels[v1].size && GcPlaced(nodes, L, levels, v1, b, n) && GcCounted(nodes, L, levels)
    requires SameCore(nodes, nodes') && Renamed(L, L', n + levels[v1].start)
    requires forall i :: 2 <= i < |nodes| ==> L.owner[i] != Rest
    ensures GcPlaced(nodes', L', levels, v1, n + levels[v1].start, n + 1) && GcCounted(nodes', L', levels)
  {
    hide NodeHash;
    assert Sorted(L', levels[v1].start, n + 1) <= Sorted(L, levels[v1].start, n);
    forall w | 0 <= w < |levels| ensures InSession(nodes', L', w) == InSession(nodes, L, w) {
    }
  }

  lemma GcDetach(c: Ctx, nodes: seq<BddNode>, L: Links, L': Links, levels: seq<LevelData>, b: nat, n: nat, h: nat,
                 freepos: nat, freenum: int, ext: seq<nat>)
    requires GcInv(c, nodes, L, levels, b, n, 0, freepos, freenum, ext) && n < levels[c.v1].size
    requires h == n + levels[c.v1].start && Renamed(L, L', h)
    ensures h < |nodes| && GcInv(c, nodes[h := nodes[h].(hash := 0)], L', levels, h, n + 1, nodes[h].hash, freepos, freenum, ext)
  {
    hide GcGraph, GcPlaced, GcCounted, Linked, LinkAt, Geometry, HeadOk, NodeHash, FreeOk, Renamed, Sorted;
    assert SameCore(nodes, nodes);
    DetachRange(nodes, nodes, L, levels, c.v1, n);
    NothingInRest(nodes, L);
    DetachCore(nodes, nodes, L, L', h, freepos, freenum);
    DetachLinked(nodes, L, L', h);
    GcDetachPlaced(nodes, nodes[h := nodes[h].(hash := 0)], L, L', levels, c.v1, b, n);
    CoreGraph(c, nodes, nodes[h := nodes[h].(hash := 0)], ext);
  }

  /** Relinking does not touch the graph. */
  lemma CoreGraph(c: Ctx, nodes: seq<BddNode>, nodes': seq<BddNode>, ext: seq<nat>)
    requires GcGraph(c, nodes, ext) && SameCore(nodes, nodes')
    ensures GcGraph(c, nodes', ext)
  {
    CoreConserved(nodes, nodes', ext);
    SameTriplesKeepMid(c, nodes, nodes', c.U);
    forall i | Live(nodes', i) ensures Ref(nodes', nodes'[i].low) && Ref(nodes', nodes'[i].high) {
      assert Live(nodes, i);
    }
    forall x | Live(nodes', x) && !OldLower(c, x) ensures Held(nodes', ext, x) {
      assert Held(nodes, ext, x) by { assert Live(nodes, x); }
      if ext[x] == 0 && nodes[x].refcount != MAXREF {
        var s :| Live(nodes, s) && nodes[s].refcount > 0 && Edges(nodes[s], x) > 0;
        assert Live(nodes', s) && Edges(nodes'[s], x) > 0;
      }
    }
  }

  lemma GcRestHead(nodes: seq<BddNode>, L: Links, levels: seq<LevelData>, v1: nat, b: nat, hi: nat, r: int)
    requires GcPlaced(nodes, L, levels, v1, b, hi) && Geometry(levels, |nodes|) && |L.pos| == |L.owner|
    requires HeadOk(L, Rest, r) && r != 0 && levels[v1].start <= b < levels[v1].start + levels[v1].size
    ensures Live(nodes, r) && nodes[r].level == v1 && L.owner[r] == Rest && Home(nodes, levels, r) == Bucket(b)
  {
    var w := nodes[r].level;
    HashInRange(levels, |nodes|, w, nodes[r].low, nodes[r].high);
    if w != v1 {
      assert false;
    }
  }

  lemma GcKeepPlaced(nodes: seq<BddNode>, nodes': seq<BddNode>, L: Links, L': Links, levels: seq<LevelData>, v1: nat, b: nat, hi: nat, r: int)
    requires GcPlaced(nodes, L, levels, v1, b, hi) && GcCounted(nodes, L, levels) && SameCore(nodes, nodes')
    requires 2 <= r < |nodes| && nodes[r].low != -1 && Home(nodes, levels, r) == Bucket(b) && nodes[r].refcount > 0 && L.owner[r] == Rest
    requires L'.owner == L.owner[r := Bucket(b)]
    ensures GcPlaced(nodes', L', levels, v1, b, hi) && GcCounted(nodes', L', levels)
  {
    hide NodeHash;
    assert Sorted(L', levels[v1].start, hi) <= Sorted(L, levels[v1].start, hi) + {r};
    forall w | 0 <= w < |levels| ensures InSession(nodes', L', w) == InSession(nodes, L, w) {
    }
  }

  lemma GcKeep(c: Ctx, nodes: seq<BddNode>, L: Links, levels: seq<LevelData>, b: nat, hi: nat, r: int,
               freepos: nat, freenum: int, ext: seq<nat>)
    requires GcInv(c, nodes, L, levels, b, hi, r, freepos, freenum, ext)
    requires 2 <= r < |nodes| && nodes[r].refcount > 0 && levels[c.v1].start <= b < levels[c.v1].start + hi
    ensures b < |nodes| && 0 <= nodes[b].hash < |nodes| && |L.owner| == |L.pos| == |nodes|
    ensures GcInv(c, PushBucket(nodes, r, b), Pushed(L, r, Bucket(b), nodes[b].hash), levels, b, hi, nodes[r].next, freepos, freenum, ext)
    ensures RestShrinks(nodes, L, Pushed(L, r, Bucket(b), nodes[b].hash), r)
  {
    hide GcGraph, GcPlaced, GcCounted, Linked, LinkAt, NodeHash, FreeOk, Sorted, PushBucket, HeadOk;
    LinkedSizes(nodes, L);
    NoWork(nodes, L, levels, c.v1, b, hi);
    assert b < |nodes|;
    RestToBucket(nodes, L, b, r, 0, freepos, freenum);
    var L' := Pushed(L, r, Bucket(b), nodes[b].hash);
    hide Pushed, Geometry;
    GcRestHead(nodes, L, levels, c.v1, b, hi, r);
    assert SameCore(nodes, nodes);
    PushCore(nodes, nodes, r, b, 0);
    GcKeepPlaced(nodes, PushBucket(nodes, r, b), L, L', levels, c.v1, b, hi, r);
    CoreGraph(c, nodes, PushBucket(nodes, r, b), ext);
  }

  lemma NoWork(nodes: seq<BddNode>, L: Links, levels: seq<LevelData>, v1: nat, b: nat, hi: nat)
    requires GcPlaced(nodes, L, levels, v1, b, hi) && |L.pos| == |L.owner|
    ensures HeadOk(L, Work, 0)
  {
  }

  /** What reorder_localGbc writes for a dead node r. */
  function Emptied(nodes: seq<BddNode>, r: int, freepos: nat): (w: seq<BddNode>)
    requires 0 <= r < |nodes| && 0 <= nodes[r].low < |nodes| && 0 <= nodes[r].high < |nodes|
    ensures |w| == |nodes|
  {
    var n1 := DecRef(DecRef(nodes, nodes[r].low), nodes[r].high);
    n1[r := n1[r].(low := -1, next := freepos)]
  }

  lemma EmptiedFields(nodes: seq<BddNode>, r: int, freepos: nat)
    requires 2 <= r < |nodes| && 0 <= nodes[r].low < |nodes| && 0 <= nodes[r].high < |nodes| && nodes[r].low != nodes[r].high
    ensures var n1 := nodes[r := nodes[r].(next := freepos)];
            var n2 := Emptied(nodes, r, freepos);
            && (forall i :: 0 <= i < |nodes| ==> n2[i].hash == n1[i].hash && n2[i].next == n1[i].next)
            && Freed(nodes, n2, r)
  {
  }

  /** Moving the head of `Rest` to the free list. */
  lemma RestToFree(nodes: seq<BddNode>, L: Links, r: int, freepos: nat, freenum: int)
    requires Linked(nodes, L) && HeadOk(L, Rest, r) && r != 0 && FreeOk(L, freepos, freenum)
    ensures 2 <= r < |nodes| == |L.owner| == |L.pos| && freepos < |nodes|
    ensures var L' := Pushed(L, r, Free, freepos);
            && Linked(nodes[r := nodes[r].(next := freepos)], L') && HeadOk(L', Rest, nodes[r].next) && FreeOk(L', r, freenum + 1)
            && L'.owner == L.owner[r := Free]
    ensures RestShrinks(nodes, L, Pushed(L, r, Free, freepos), r)
  {
    var L1 := L.(owner := L.owner[r := Loose]);
    PushedLoose(L, L1, r, Free, freepos);
    hide Linked, HeadOk, LinkAt;
    PopLinked(nodes, L, Rest, r);
    PushLinked(nodes, L1, r, Free, freepos);
  }

  ghost predicate OneLess(levels: seq<LevelData>, levels': seq<LevelData>, v: nat) {
    v < |levels| && levels' == levels[v := levels[v].(nodenum := levels[v].nodenum - 1)]
  }

  /** Entries in the buckets of v1 belong to v1. */
  lemma SortedLevel(nodes: seq<BddNode>, L: Links, levels: seq<LevelData>, v1: nat, b: nat, hi: nat, i: int)
    requires GcPlaced(nodes, L, levels, v1, b, hi) && Geometry(levels, |nodes|) && hi <= levels[v1].size
    requires i in Sorted(L, levels[v1].start, hi)
    ensures Live(nodes, i) && nodes[i].level == v1
  {
    var w := nodes[i].level;
    HashInRange(levels, |nodes|, w, nodes[i].low, nodes[i].high);
    if w != v1 { assert false; }
  }

  lemma GcFreePlaced(nodes: seq<BddNode>, nodes': seq<BddNode>, L: Links, L': Links, levels: seq<LevelData>, levels': seq<LevelData>,
                     v1: nat, b: nat, hi: nat, r: int)
    requires GcPlaced(nodes, L, levels, v1, b, hi) && GcCounted(nodes, L, levels) && Geometry(levels, |nodes|) && hi <= levels[v1].size
    requires 2 <= r < |nodes| && nodes[r].level == v1 && L.owner[r] == Rest
    requires Freed(nodes, nodes', r) && OneLess(levels, levels', v1) && SameSizes(levels, levels')
    requires Ref(nodes, nodes[r].low) && Ref(nodes, nodes[r].high)
    requires nodes[nodes[r].low].level != v1 && nodes[nodes[r].high].level != v1
    requires L'.owner == L.owner[r := Free]
    ensures GcPlaced(nodes', L', levels', v1, b, hi) && GcCounted(nodes', L', levels')
  {
    hide PairHash, InSession, Freed, OneLess, GcCounted, Ref;
    GcFreeRefs(nodes, nodes', L, L', levels, levels', v1, b, hi, r);
    GcFreeCounted(nodes, nodes', L, L', levels, levels', v1, b, r);
    FreedFields(nodes, nodes', r);
  }

  lemma FreedFields(nodes: seq<BddNode>, nodes': seq<BddNode>, r: int)
    requires 0 <= r < |nodes| && Freed(nodes, nodes', r)
    ensures |nodes'| == |nodes| && nodes'[r].low == -1 && nodes'[r].level == nodes[r].level
    ensures forall i :: 0 <= i < |nodes| && i != r ==>
              nodes'[i].level == nodes[i].level && nodes'[i].low == nodes[i].low && nodes'[i].high == nodes[i].high
  {
  }

  /** The nodes already sorted are not children of the freed node, so they stay referenced. */
  lemma GcFreeRefs(nodes: seq<BddNode>, nodes': seq<BddNode>, L: Links, L': Links, levels: seq<LevelData>, levels': seq<LevelData>,
                   v1: nat, b: nat, hi: nat, r: int)
    requires GcPlaced(nodes, L, levels, v1, b, hi) && Geometry(levels, |nodes|) && hi <= levels[v1].size
    requires 2 <= r < |nodes| && nodes[r].level == v1 && L.owner[r] == Rest
    requires Freed(nodes, nodes', r) && SameSizes(levels, levels')
    requires Ref(nodes, nodes[r].low) && Ref(nodes, nodes[r].high)
    requires nodes[nodes[r].low].level != v1 && nodes[nodes[r].high].level != v1
    requires L'.owner == L.owner[r := Free]
    ensures |levels'| == |levels| && forall i :: i in Sorted(L', levels'[v1].start, hi) ==> i < |nodes'| && nodes'[i].refcount > 0
  {
    hide NodeHash;
    assert Sorted(L', levels'[v1].start, hi) <= Sorted(L, levels[v1].start, hi);
    forall i | i in Sorted(L', levels'[v1].start, hi) ensures i < |nodes'| && nodes'[i].refcount > 0 {
      SortedLevel(nodes, L, levels, v1, b, hi, i);
    }
  }

  lemma GcFreeCounted(nodes: seq<BddNode>, nodes': seq<BddNode>, L: Links, L': Links, levels: seq<LevelData>, levels': seq<LevelData>,
                      v1: nat, b: nat, r: int)
    requires GcCounted(nodes, L, levels) && 2 <= r < |nodes| && nodes[r].level == v1 && L.owner[r] == Rest
    requires Freed(nodes, nodes', r) && v1 < |levels| && OneLess(levels, levels', v1) && L'.owner == L.owner[r := Free]
    ensures GcCounted(nodes', L', levels')
  {
    forall w | 0 <= w < |levels| ensures levels'[w].nodenum == |InSession(nodes', L', w)| {
      FreeInSession(nodes, nodes', L, L', r, w);
    }
  }

  lemma FreeInSession(nodes: seq<BddNode>, nodes': seq<BddNode>, L: Links, L': Links, r: int, w: nat)
    requires |L.owner| == |nodes| && 2 <= r < |nodes| && L.owner[r] == Rest
    requires Freed(nodes, nodes', r) && L'.owner == L.owner[r := Free]
    ensures |InSession(nodes', L', w)| == |InSession(nodes, L, w)| - if w == nodes[r].level then 1 else 0
  {
    if w == nodes[r].level {
      assert r in InSession(nodes, L, w);
      assert InSession(nodes', L', w) == InSession(nodes, L, w) - {r};
    } else {
      assert InSession(nodes', L', w) == InSession(nodes, L, w);
    }
  }

  lemma GcFree(c: Ctx, nodes: seq<BddNode>, L: Links, levels: seq<LevelData>, levels': seq<LevelData>, b: nat, hi: nat, r: int,
               freepos: nat, freenum: int, ext: seq<nat>)
    requires GcInv(c, nodes, L, levels, b, hi, r, freepos, freenum, ext)
    requires 2 <= r < |nodes| && nodes[r].refcount == 0 && levels[c.v1].start <= b < levels[c.v1].start + hi && OneLess(levels, levels', c.v1)
    ensures Live(nodes, r) && Ref(nodes, nodes[r].low) && Ref(nodes, nodes[r].high) && freepos < |nodes| == |L.owner| == |L.pos|
    ensures GcInv(c, Emptied(nodes, r, freepos), Pushed(L, r, Free, freepos), levels', b, hi, nodes[r].next, r, freenum + 1, ext)
    ensures RestShrinks(nodes, L, Pushed(L, r, Free, freepos), r)
  {
    hide GcPlaced, GcCounted, Linked, LinkAt, NodeHash, FreeOk, Sorted, HeadOk, Emptied, Geometry, Mid, CtxOk, AllHeld, Conserved, Freed;
    LinkedSizes(nodes, L);
    assert SameSizes(levels, levels');
    GcRestHead(nodes, L, levels, c.v1, b, hi, r);
    DeadIsOld(c, nodes, ext, r);
    EmptiedFields(nodes, r, freepos);
    RestToFree(nodes, L, r, freepos, freenum);
    var n1 := nodes[r := nodes[r].(next := freepos)];
    var nodes' := Emptied(nodes, r, freepos);
    var L' := Pushed(L, r, Free, freepos);
    hide Pushed, Closed;
    SameLinks(n1, nodes', L');
    FreedKeeps(c, nodes, nodes', ext, r);
    GcFreePlaced(nodes, nodes', L, L', levels, levels', c.v1, b, hi, r);
    SameGeometry(levels, levels', |nodes|);
  }

  lemma GcEndPlaced(c: Ctx, nodes: seq<BddNode>, L: Links, levels: seq<LevelData>, b: nat, ext: seq<nat>)
    requires GcGraph(c, nodes, ext) && c.v1 < |levels| && GcPlaced(nodes, L, levels, c.v1, b, levels[c.v1].size) && GcCounted(nodes, L, levels)
    requires Geometry(levels, |nodes|) && |L.pos| == |L.owner| && HeadOk(L, Rest, 0)
    ensures Placed(nodes, L, levels, {}) && Counted(nodes, L, levels)
    ensures forall i {:trigger Live(nodes, i)} :: Live(nodes, i) ==> nodes[i].refcount > 0
  {
    hide NodeHash;
    forall w | 0 <= w < |levels| ensures InSession(nodes, L, w) == InTable(nodes, L, w) {
    }
    forall i | Live(nodes, i) ensures nodes[i].refcount > 0 {
      GcEndHeld(c, nodes, L, levels, b, ext, i);
    }
  }

  lemma GcEndHeld(c: Ctx, nodes: seq<BddNode>, L: Links, levels: seq<LevelData>, b: nat, ext: seq<nat>, i: int)
    requires GcGraph(c, nodes, ext) && c.v1 < |levels| && GcPlaced(nodes, L, levels, c.v1, b, levels[c.v1].size)
    requires Geometry(levels, |nodes|) && |L.pos| == |L.owner| && HeadOk(L, Rest, 0) && Live(nodes, i)
    ensures nodes[i].refcount > 0
  {
    if OldLower(c, i) {
      assert i !in c.U;
      assert SameTriple(nodes[i], c.n0[i]);
      hide GcGraph, Mid, AllHeld, Conserved, CtxOk;
      HashInRange(levels, |nodes|, c.v1, nodes[i].low, nodes[i].high);
      assert L.owner[i] == Home(nodes, levels, i);
      assert i in Sorted(L, levels[c.v1].start, levels[c.v1].size);
    } else {
      assert Held(nodes, ext, i);
      HeldIsCounted(nodes, ext, i);
    }
  }

  lemma GcEnd(c: Ctx, nodes: seq<BddNode>, L: Links, levels: seq<LevelData>, b: nat, freepos: nat, freenum: int, ext: seq<nat>)
    requires c.v1 < |levels| && GcInv(c, nodes, L, levels, b, levels[c.v1].size, 0, freepos, freenum, ext)
    ensures c.v0 < |c.lev| && c.v1 < |c.lev| && Table(nodes, Swapped(c.lev, c.v0, c.v1), L, levels, freepos, freenum, ext)
  {
    hide GcPlaced, GcCounted, Linked, LinkAt, NodeHash, FreeOk, Sorted, HeadOk, Geometry, Mid, CtxOk, AllHeld, Conserved, Placed, Counted;
    CtxRange(c);
    LinkedSizes(nodes, L);
    GcEndPlaced(c, nodes, L, levels, b, ext);
    AfterOrdered(c, nodes);
    AfterUnique(c, nodes);
    assert |Swapped(c.lev, c.v0, c.v1)| == |c.lev|;
    hide GcGraph, Ordered, Unique, Reduced;
  }

  // ---- reorder_rehashAll ------------------------------------------------------------

  /** The entries from n on have been relinked, the others are in no list. */
  ghost predicate SameNumbers(levels: seq<LevelData>, levels': seq<LevelData>) {
    |levels'| == |levels| && forall v :: 0 <= v < |levels| ==> levels'[v].nodenum == levels[v].nodenum
  }

  ghost predicate Rehashed(nodes: seq<BddNode>, L: Links, levels: seq<LevelData>, n: nat) {
    && |L.owner| == |nodes|
    && forall i :: 2 <= i < |nodes| ==>
         if i < n then L.owner[i] == Loose
         else if nodes[i].low == -1 then L.owner[i] == Free && nodes[i].level <= |levels|
         else nodes[i].level < |levels| && levels[nodes[i].level].size > 0 && L.owner[i] == Home(nodes, levels, i)
  }

  lemma RehashStep(nodes: seq<BddNode>, nodes': seq<BddNode>, L: Links, L': Links, levels: seq<LevelData>, n: nat, o: Owner)
    requires Rehashed(nodes, L, levels, n + 1) && 2 <= n < |nodes| && SameCore(nodes, nodes')
    requires L'.owner == L.owner[n := o]
    requires if nodes[n].low == -1 then o == Free && nodes[n].level <= |levels|
             else nodes[n].level < |levels| && levels[nodes[n].level].size > 0 && o == Home(nodes, levels, n)
    ensures Rehashed(nodes', L', levels, n)
  {
    hide NodeHash;
  }

  /** The free list has as many entries as before. */
  lemma SameFreeNumber(nodes: seq<BddNode>, nodes': seq<BddNode>, L: Links, L': Links, freepos: nat, freepos': nat, freenum: int)
    requires Linked(nodes, L) && Linked(nodes', L') && |nodes'| == |nodes|
    requires FreeOk(L, freepos, freenum) && HeadOk(L', Free, freepos')
    requires forall i :: 2 <= i < |nodes| ==> (L.owner[i] == Free <==> L'.owner[i] == Free)
    ensures FreeOk(L', freepos', freenum)
  {
    ListSize(nodes, L, Free, freepos);
    ListSize(nodes', L', Free, freepos');
    assert (set x | 2 <= x < |nodes| && L.owner[x] == Free) == (set x | 2 <= x < |nodes'| && L'.owner[x] == Free);
  }

  lemma RehashEnd(nodes: seq<BddNode>, nodes': seq<BddNode>, lev: seq<nat>, L: Links, L': Links, levels: seq<LevelData>, levels': seq<LevelData>,
                  freepos: nat, freepos': nat, freenum: int, ext: seq<nat>)
    requires Table(nodes, lev, L, levels, freepos, freenum, ext) && SameCore(nodes, nodes')
    requires |levels'| == |levels| && Geometry(levels', |nodes'|)
    requires SameNumbers(levels, levels')
    requires Linked(nodes', L') && HeadOk(L', Free, freepos') && Rehashed(nodes', L', levels', 2)
    ensures Table(nodes', lev, L', levels', freepos', freenum, ext)
  {
    hide NodeHash, LinkAt, PairHash, Geometry, HeadOk;
    CoreTable(nodes, nodes', lev, ext);
    RehashCounted(nodes, nodes', L, L', levels, levels');
    FreeAgree(nodes, nodes', L, L', levels, levels');
    hide Linked, Ordered, Reduced, Unique, Conserved, Counted, FreeOk;
    SameFreeNumber(nodes, nodes', L, L', freepos, freepos', freenum);
  }

  lemma FreeAgree(nodes: seq<BddNode>, nodes': seq<BddNode>, L: Links, L': Links, levels: seq<LevelData>, levels': seq<LevelData>)
    requires Placed(nodes, L, levels, {}) && SameCore(nodes, nodes') && Rehashed(nodes', L', levels', 2)
    ensures Placed(nodes', L', levels', {})
    ensures forall i :: 2 <= i < |nodes| ==> (L.owner[i] == Free <==> L'.owner[i] == Free)
  {
    hide NodeHash;
  }

  lemma RehashCounted(nodes: seq<BddNode>, nodes': seq<BddNode>, L: Links, L': Links, levels: seq<LevelData>, levels': seq<LevelData>)
    requires Placed(nodes, L, levels, {}) && Counted(nodes, L, levels) && SameCore(nodes, nodes') && |levels'| == |levels|
    requires Rehashed(nodes', L', levels', 2)
    requires forall v :: 0 <= v < |levels| ==> levels'[v].nodenum == levels[v].nodenum
    ensures Counted(nodes', L', levels')
  {
    hide NodeHash;
    forall v | 0 <= v < |levels| ensures InTable(nodes', L', v) == InTable(nodes, L, v) {
    }
  }

  lemma CoreTable(nodes: seq<BddNode>, nodes': seq<BddNode>, lev: seq<nat>, ext: seq<nat>)
    requires Ordered(nodes, lev) && Reduced(nodes) && Unique(nodes) && Conserved(nodes, ext) && SameCore(nodes, nodes')
    requires forall i {:trigger Live(nodes, i)} :: Live(nodes, i) ==> nodes[i].refcount > 0
    ensures Ordered(nodes', lev) && Reduced(nodes') && Unique(nodes') && Conserved(nodes', ext)
    ensures forall i {:trigger Live(nodes', i)} :: Live(nodes', i) ==> nodes'[i].refcount > 0
    ensures forall i {:trigger Ref(nodes', i)} :: Ref(nodes', i) <==> Ref(nodes, i)
  {
    CoreConserved(nodes, nodes', ext);
    forall i | Live(nodes', i) ensures NodeOk(nodes', lev, i) && nodes'[i].low != nodes'[i].high && nodes'[i].refcount > 0 {
      assert Live(nodes, i) && NodeOk(nodes, lev, i);
    }
    forall i, j | Live(nodes', i) && Live(nodes', j) && SameTriple(nodes'[i], nodes'[j]) ensures i == j {
      assert Live(nodes, i) && Live(nodes, j);
    }
  }

  lemma {:induction false} CoreEval(nodes: seq<BddNode>, nodes': seq<BddNode>, lev: seq<nat>, i: int, env: Env)
    requires Ordered(nodes, lev) && Ordered(nodes', lev) && SameCore(nodes, nodes') && Ref(nodes, i)
    ensures Ref(nodes', i) && Eval(nodes', lev, i, env) == Eval(nodes, lev, i, env)
    ensures Support(nodes', lev, i) == Support(nodes, lev, i)
    decreases |lev| - Pos(nodes, lev, i)
  {
    if i >= 2 {
      assert NodeOk(nodes, lev, i) && Live(nodes', i);
      CoreEval(nodes, nodes', lev, nodes[i].low, env);
      CoreEval(nodes, nodes', lev, nodes[i].high, env);
    }
  }

  lemma RestNode(lev: seq<nat>, n0: seq<BddNode>, nodes: seq<BddNode>, L: Links, levels: seq<LevelData>, v0: nat, v1: nat, b: nat, hi: nat, r: int)
    requires Ordered(n0, lev) && SameCore(n0, nodes) && Linked(nodes, L) && Geometry(levels, |n0|)
    requires DownPlaced(n0, L, levels, v0, v1, b, hi) && HeadOk(L, Rest, r) && r != 0
    requires levels[v0].start <= b < levels[v0].start + levels[v0].size
    ensures 2 <= r < |nodes| == |n0| == |L.pos|
    ensures 0 <= nodes[r].low < |nodes| && 0 <= nodes[r].high < |nodes|
    ensures DependsOn(n0, r, v1) <==> nodes[nodes[r].low].level == v1 || nodes[nodes[r].high].level == v1
  {
    RestHead(n0, L, levels, v0, v1, b, hi, r);
    assert NodeOk(n0, lev, r);
  }

  lemma AllDone(c: Ctx, done: set<int>, nodes: seq<BddNode>, L: Links, levels: seq<LevelData>, freepos: nat, freenum: int, ext: seq<nat>)
    requires MidTable(c, done, nodes, L, levels, freepos, freenum, ext) && HeadOk(L, Work, 0)
    ensures done == c.U
  {
    assert done <= c.U;
    forall i | i in c.U ensures i in done {
      assert Live(c.n0, i) && Live(nodes, i);
    }
  }

  /** Which nodes a collection may free: unreferenced nodes of v1. */
  ghost predicate GcKeepsNodes(n1: seq<BddNode>, nodes: seq<BddNode>, v1: nat) {
    && |nodes| == |n1|
    && (forall i {:trigger Live(nodes, i)} :: Live(nodes, i) ==> Live(n1, i) && SameTriple(nodes[i], n1[i]))
    && (forall i {:trigger Live(n1, i)} :: Live(n1, i) && !Live(nodes, i) ==> n1[i].level == v1)
  }

  lemma GcKeepsMore(n1: seq<BddNode>, nodes: seq<BddNode>, nodes': seq<BddNode>, v1: nat, r: int)
    requires GcKeepsNodes(n1, nodes, v1) && |nodes'| == |nodes|
    requires forall i :: 0 <= i < |nodes| && i != r ==> SameTriple(nodes'[i], nodes[i])
    requires 2 <= r < |nodes| && Live(nodes, r) && nodes[r].level == v1
    requires SameTriple(nodes'[r], nodes[r]) || nodes'[r].low == -1
    ensures GcKeepsNodes(n1, nodes', v1)
  {
    forall i | Live(nodes', i) ensures Live(n1, i) && SameTriple(nodes'[i], n1[i]) {
      assert Live(nodes, i);
    }
    forall i | Live(n1, i) && !Live(nodes', i) ensures n1[i].level == v1 {
      assert Live(nodes, i) || i != r;
    }
  }

  lemma MidSizes(c: Ctx, done: set<int>, nodes: seq<BddNode>, L: Links, levels: seq<LevelData>, freepos: nat, freenum: int, ext: seq<nat>)
    requires MidTable(c, done, nodes, L, levels, freepos, freenum, ext)
    ensures |ext| == |nodes| == |L.owner| == |L.pos|
  {
  }

  lemma SameKept(n1: seq<BddNode>, nodes: seq<BddNode>, nodes': seq<BddNode>, v1: nat)
    requires GcKeepsNodes(n1, nodes, v1) && SameCore(nodes, nodes')
    ensures GcKeepsNodes(n1, nodes', v1)
  {
    assert forall i :: Live(nodes', i) <==> Live(nodes, i);
  }

  lemma FreeKept(n1: seq<BddNode>, nodes: seq<BddNode>, nodes': seq<BddNode>, v1: nat, r: int, freepos: nat)
    requires GcKeepsNodes(n1, nodes, v1) && Live(nodes, r) && nodes[r].level == v1
    requires Ref(nodes, nodes[r].low) && Ref(nodes, nodes[r].high) && nodes' == Emptied(nodes, r, freepos)
    ensures GcKeepsNodes(n1, nodes', v1)
  {
    GcKeepsMore(n1, nodes, nodes', v1, r);
  }

  lemma GcNode(nodes: seq<BddNode>, L: Links, levels: seq<LevelData>, v1: nat, b: nat, hi: nat, r: int)
    requires Linked(nodes, L) && Geometry(levels, |nodes|) && GcPlaced(nodes, L, levels, v1, b, hi) && HeadOk(L, Rest, r) && r != 0
    requires levels[v1].start <= b < levels[v1].start + levels[v1].size
    ensures 2 <= r < |nodes| == |L.pos| && Live(nodes, r) && nodes[r].level == v1
  {
    GcRestHead(nodes, L, levels, v1, b, hi, r);
  }

  /** Equal slices of the table are disjoint and fit into it. */
  lemma SlicesFit(levels: seq<LevelData>, n: nat, m: nat)
    requires |levels| > 0 && m == n / |levels| && m > 0
    requires forall v :: 0 <= v < |levels| ==> levels[v].start == v * m && 0 < levels[v].size <= m
    ensures Geometry(levels, n)
  {
    forall v | 0 <= v < |levels| ensures levels[v].start + levels[v].size <= n {
      assert (v + 1) * m <= |levels| * m <= n;
    }
    forall v, w | 0 <= v < w < |levels| ensures levels[v].start + levels[v].size <= levels[w].start {
      assert (v + 1) * m <= w * m;
    }
  }

  lemma TableSizes(nodes: seq<BddNode>, lev: seq<nat>, L: Links, levels: seq<LevelData>, freepos: nat, freenum: int, ext: seq<nat>)
    requires Table(nodes, lev, L, levels, freepos, freenum, ext)
    ensures 3 <= |nodes| == |ext| == |L.owner| == |L.pos| && |levels| == |lev| - 1
  {
  }

  /** Which entries reorder_rehashAll links where. */
  lemma RehashTarget(nodes: seq<BddNode>, nodes': seq<BddNode>, lev: seq<nat>, L: Links, levels: seq<LevelData>,
                     freepos: nat, freenum: int, ext: seq<nat>, n: int)
    requires Table(nodes, lev, L, levels, freepos, freenum, ext) && 2 <= n < |nodes| && SameCore(nodes, nodes')
    ensures nodes'[n].low == -1 <==> nodes'[n].refcount == 0
    ensures nodes'[n].level <= |levels| && (nodes'[n].low != -1 ==> nodes'[n].level < |levels|)
  {
    assert Live(nodes, n) ==> NodeOk(nodes, lev, n);
  }

  lemma CoreSelf(nodes: seq<BddNode>)
    ensures SameCore(nodes, nodes)
  {
  }

  lemma RehashStart(nodes: seq<BddNode>, L: Links, levels: seq<LevelData>)
    requires AllInNone(nodes, L)
    ensures Rehashed(nodes, L, levels, |nodes|)
  {
  }

  lemma RehashLoose(nodes: seq<BddNode>, L: Links, levels: seq<LevelData>, n: nat)
    requires Rehashed(nodes, L, levels, n + 1) && 2 <= n < |nodes|
    ensures L.owner[n] == Loose
  {
  }

  lemma HomeInRange(nodes: seq<BddNode>, levels: seq<LevelData>, i: int)
    requires Geometry(levels, |nodes|) && 0 <= i < |nodes| && nodes[i].level < |levels|
    ensures levels[nodes[i].level].size > 0
    ensures NodeHash(levels, nodes[i].level, nodes[i].low, nodes[i].high) < |nodes|
  {
    HashInRange(levels, |nodes|, nodes[i].level, nodes[i].low, nodes[i].high);
  }
}
