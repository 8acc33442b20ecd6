/** The BuDDy kernel: the unique table with its garbage collector and the reference stack. */
module BddKernel {
  import opened NodeTable
  import opened Diagram
  import opened RefCount
  import opened KernelTheory
  import opened Collection
  import opened Startup
  import Prime
  import NumberTheory

  /** An entry of an operator cache; -1 in `a` marks an empty one. */
  datatype CacheEntry = CacheEntry(a: int, b: int, c: int, res: int)

  datatype VarNumStatus = Extended | BadRange | Decreasing | OutOfNodes

  /** How bdd_noderesize ends: done, refused at the limit, or with a size below the present one. */
  datatype ResizeStatus = Performed | Refused | Shrunk

  class Kernel {
    var nodes: seq<BddNode>
    var freepos: nat
    var freenum: int
    var varnum: nat
    var refstack: seq<int>
    var maxnodesize: nat
    var maxnodeincrease: nat
    var minfreenodes: int
    var misccache: seq<CacheEntry>
    var replacecache: seq<CacheEntry>
    /** The two nodes of every variable. */
    var varset: seq<int>

    ghost var L: Links

    /** bdd_init: the sizes are what the prime search finds from the arguments on. */
    constructor (initnodesize: Prime.uint32, cs: Prime.uint32, maxnodesize: nat, maxnodeincrease: nat, minfreenodes: nat, ghost p: Prime.uint32)
      requires initnodesize >= 2 && cs >= 2 && NumberTheory.IsPrime(p) && p >= 3 && p >= initnodesize && p >= cs
      ensures Valid() && varnum == 0 && refstack == [] && AllLive(nodes) == {} && freenum == |nodes| - 2
      ensures Prime.FoundFrom(initnodesize, |nodes|) && CachesEmpty()
      ensures Prime.FoundFrom(cs, |misccache|) && Prime.FoundFrom(cs, |replacecache|)
      ensures this.maxnodesize == maxnodesize && this.maxnodeincrease == maxnodeincrease && this.minfreenodes == minfreenodes
    {
      hide NumberTheory.IsPrime, Prime.FoundFrom, Graph, Lists;
      var nodesize := Prime.PrimeFrom(initnodesize, p);
      var table := InitialTable(nodesize);
      InitialGraph(table);
      InitialLists(table);
      nodes, freepos, freenum, varnum, refstack, varset, L := table, 2, nodesize - 2, 0, [], [], InitialLinks(nodesize);
      this.maxnodesize, this.maxnodeincrease, this.minfreenodes := maxnodesize, maxnodeincrease, minfreenodes;
      var replacesize := Prime.PrimeFrom(cs, p);
      replacecache := seq(replacesize, i => CacheEntry(-1, 0, 0, 0));
      var miscsize := Prime.PrimeFrom(cs, p);
      misccache := seq(miscsize, i => CacheEntry(-1, 0, 0, 0));
    }

    /** A canonical table, however its lists are. */
    ghost predicate Sound()
      reads this
    {
      && Graph(nodes, varnum) && minfreenodes >= 0
      && (forall k :: 0 <= k < |refstack| ==> Ref(nodes, refstack[k]))
    }

    /** The invariant between operations. */
    ghost predicate Valid()
      reads this
    {
      Sound() && Lists(nodes, L, freepos, freenum)
    }

    /** The table is sure to grow when bdd_noderesize is called. */
    ghost predicate CanGrow()
      reads this
    {
      Prime.CanGrow(|nodes|, maxnodesize, maxnodeincrease)
    }

    /** The search for a new size may end below the present one. */
    ghost predicate MayShrink()
      reads this
    {
      Prime.MayShrink(|nodes|, maxnodesize, maxnodeincrease)
    }

    /** bdd_noderesize refuses. */
    predicate AtLimit()
      reads this
    {
      maxnodesize > 0 && |nodes| >= maxnodesize
    }

    /** The state in which an operation gives up: everything that is left is protected, so few entries are
        free that bdd_noderesize has been called, and there is no free entry and the table is not sure to
        grow, or entries may be cut off. */
    ghost predicate Crowded()
      reads this
    {
      && Valid() && AllLive(nodes) == Roots() && |nodes| > 0 && freenum * 100 / |nodes| <= minfreenodes
      && ((freepos == 0 && !CanGrow()) || MayShrink())
    }

    /** The nodes a collection has to keep. */
    ghost function Roots(): set<int>
      reads this
      requires Sound()
    {
      Protected(nodes, Levels(varnum), refstack)
    }

    // ---- marking --------------------------------------------------------------------

    /** bdd_mark */
    method Mark(i: int, ghost n0: seq<BddNode>, ghost M: set<int>) returns (ghost M': set<int>)
      requires Clean(n0) && Ordered(n0, Levels(varnum)) && Ref(n0, i) && MarkedAs(n0, nodes, M)
      requires FinishedFrom(n0, Levels(varnum), M, i)
      modifies this`nodes
      ensures M' == M + Reach(n0, Levels(varnum), i) && MarkedAs(n0, nodes, M')
      ensures SameHashes(old(nodes), nodes)
      decreases varnum + 1 - Pos(n0, Levels(varnum), i)
    {
      hide Clean, MarkedAs, SetMark, Marked, FinishedFrom, SameHashes;
      M' := M;
      HashesSame(nodes);
      if i < 2 { return; }
      Sizes(n0, nodes, M);
      IsMarked(n0, nodes, M, i);
      if Marked(nodes[i].level) || nodes[i].low == -1 {
        InProgress(n0, Levels(varnum), M, i);
        return;
      }
      ghost var h0 := nodes;
      MarkOne(n0, nodes, M, i);
      nodes := nodes[i := nodes[i].(level := SetMark(nodes[i].level))];
      ghost var h1 := nodes;
      EnterLow(n0, Levels(varnum), M, i);
      EnterHigh(n0, Levels(varnum), M, i);
      EntryFields(n0, nodes, M + {i}, i);
      M' := Mark(nodes[i].low, n0, M + {i});
      ghost var h2 := nodes;
      Sizes(n0, nodes, M');
      EntryFields(n0, nodes, M', i);
      M' := Mark(nodes[i].high, n0, M');
      HashesTransitive(h0, h1, h2, nodes);
    }

    /** The marking of what the reference stack holds. */
    method MarkStack() returns (ghost M: set<int>)
      requires Sound()
      modifies this`nodes
      ensures |nodes| == old(|nodes|) && MarkedAs(old(nodes), nodes, M) && ClosedSet(old(nodes), M)
      ensures Ordered(old(nodes), Levels(varnum)) && IsFound(old(nodes), Levels(varnum), refstack, |refstack|, 0, M)
    {
      hide Graph, Lists, MarkedAs, IsFound, FinishedFrom, Ordered, Clean, SameHashes, ClosedSet, Levels;
      ghost var n0, lev := nodes, Levels(varnum);
      GraphParts(n0, varnum);
      NothingMarked(n0);
      FoundNone(n0, lev, refstack);
      M := {};
      var k := 0;
      while k < |refstack|
        invariant k <= |refstack| && |nodes| == |n0|
        invariant MarkedAs(n0, nodes, M) && ClosedSet(n0, M) && IsFound(n0, lev, refstack, k, 0, M)
      {
        AllFinished(n0, lev, M, refstack[k]);
        FoundStack(n0, lev, refstack, k, M);
        M := Mark(refstack[k], n0, M);
        Sizes(n0, nodes, M);
        k := k + 1;
      }
    }

    /** The marking of what has a positive count; this loop also clears the buckets. */
    method MarkCounted(ghost n0: seq<BddNode>, ghost M0: set<int>) returns (ghost M: set<int>)
      requires Graph(n0, varnum) && |nodes| == |n0| && MarkedAs(n0, nodes, M0) && ClosedSet(n0, M0)
      requires IsFound(n0, Levels(varnum), refstack, |refstack|, 0, M0)
      modifies this`nodes
      ensures |nodes| == |n0| && MarkedAs(n0, nodes, M) && ZeroedTo(nodes, |nodes|)
      ensures IsFound(n0, Levels(varnum), refstack, |refstack|, |n0|, M)
    {
      hide Graph, MarkedAs, ZeroedTo, IsFound, FinishedFrom, Ordered, Clean, SameHashes, ClosedSet, Levels;
      GraphParts(n0, varnum);
      M := M0;
      var n := 0;
      NoneZeroed(nodes);
      while n < |nodes|
        invariant n <= |nodes| == |n0| && ZeroedTo(nodes, n)
        invariant MarkedAs(n0, nodes, M) && ClosedSet(n0, M) && IsFound(n0, Levels(varnum), refstack, |refstack|, n, M)
      {
        EntryFields(n0, nodes, M, n);
        if nodes[n].refcount > 0 { CountedIsLive(n0, varnum, n); }
        FoundCount(n0, Levels(varnum), refstack, n, M);
        if nodes[n].refcount > 0 {
          ghost var h := nodes;
          AllFinished(n0, Levels(varnum), M, n);
          M := Mark(n, n0, M);
          Sizes(n0, nodes, M);
          HashesZeroed(h, nodes, n);
        }
        ZeroOne(n0, nodes, M, n);
        nodes := nodes[n := nodes[n].(hash := 0)];
        n := n + 1;
      }
    }

    /** The two marking loops of bdd_gbc. */
    method MarkRoots() returns (ghost M: set<int>)
      requires Sound()
      modifies this`nodes
      ensures M == old(Roots()) == Protected(old(nodes), Levels(varnum), refstack) && MarkedAs(old(nodes), nodes, M)
      ensures ZeroedTo(nodes, |nodes|) && |nodes| == old(|nodes|)
    {
      hide Graph, Lists, MarkedAs, ZeroedTo, IsFound, Ordered, ClosedSet, Protected, Levels;
      ghost var n0 := nodes;
      M := MarkStack();
      M := MarkCounted(n0, M);
      FoundIsProtected(n0, Levels(varnum), refstack, M);
    }

    /** One entry of the sweep of bdd_gbc. */
    method SweepEntry(n: nat, ghost n0: seq<BddNode>, ghost M: set<int>)
      requires Clean(n0) && SweptTo(n0, nodes, M, M, L, n + 1) && 2 <= n < |n0| == |nodes|
      requires ClosedSet(n0, M) && Linked(nodes, L) && |L.owner| == |L.pos| && FreeOk(L, freepos, freenum)
      modifies this`nodes, this`freepos, this`freenum, this`L
      ensures |nodes| == |n0| && SweptTo(n0, nodes, M, M, L, n) && Linked(nodes, L) && |L.owner| == |L.pos| && FreeOk(L, freepos, freenum)
    {
      hide Clean, SweptTo, Linked, FreeOk, Hash, Marked, UnMark, PushBucket;
      LinkedSizes(nodes, L);
      SweepLevel(n0, nodes, M, M, L, n);
      ClosedLive(n0, M, n);
      if Marked(nodes[n].level) && nodes[n].low != -1 {
        SweepKeep(n0, nodes, M, M, L, n, freepos, freenum);
        nodes := nodes[n := nodes[n].(level := UnMark(nodes[n].level))];
        var hash := Hash(nodes[n].level, nodes[n].low, nodes[n].high, |nodes|);
        L := Pushed(L, n, Bucket(hash), nodes[hash].hash);
        nodes := PushBucket(nodes, n, hash);
      } else {
        SweepDrop(n0, nodes, M, M, L, n, freepos, freenum);
        L := Pushed(L, n, Free, freepos);
        nodes := nodes[n := nodes[n].(low := -1, next := freepos)];
        freepos := n;
        freenum := freenum + 1;
      }
      LinkedSizes(nodes, L);
    }

    /** bdd_gbc: exactly the nodes reachable from the reference stack or from a node with a
        positive count are left, unchanged and unmarked; the others are the free list, and
        the operator caches are empty. */
    method Gbc()
      requires Sound()
      modifies this`nodes, this`freepos, this`freenum, this`L, this`misccache, this`replacecache
      ensures Valid() && Collected(old(nodes), nodes, old(Roots())) && CachesEmpty()
      ensures freenum == |nodes| - 2 - |old(Roots())|
      ensures |misccache| == old(|misccache|) && |replacecache| == old(|replacecache|)
    {
      hide Graph, MarkedAs, ZeroedTo, SweptTo, Linked, FreeOk, Clean, Roots, Collected, Protected, Hashed, ClosedSet;
      ghost var n0 := nodes;
      GraphParts(n0, varnum);
      RootsClosed();
      ghost var M := MarkRoots();
      freepos := 0;
      freenum := 0;
      AllZeroed(nodes);
      L := AllLoose(nodes);
      EmptyFree(L);
      SweepStart(n0, nodes, M, M, L);
      var n := |nodes|;
      while n > 2
        invariant 2 <= n <= |nodes| == |n0| && SweptTo(n0, nodes, M, M, L, n)
        invariant Linked(nodes, L) && |L.owner| == |L.pos| && FreeOk(L, freepos, freenum)
        invariant misccache == old(misccache) && replacecache == old(replacecache)
      {
        n := n - 1;
        SweepEntry(n, n0, M);
      }
      SweepEnd(n0, nodes, M, M, L);
      CollectedGraph(n0, nodes, M, varnum);
      FreeCount(nodes, L, freepos, freenum, M, n0);
      StackKept(n0, nodes, refstack, varnum, M);
      OperatorReset();
    }

    // ---- resizing -------------------------------------------------------------------

    /** One round of bdd_gbc_rehash. */
    method RehashEntry(n: nat, ghost n0: seq<BddNode>)
      requires Clean(n0) && SweptTo(n0, nodes, {}, AllLive(n0), L, n + 1) && 2 <= n < |n0| == |nodes|
      requires Linked(nodes, L) && |L.owner| == |L.pos| && FreeOk(L, freepos, freenum)
      modifies this`nodes, this`freepos, this`freenum, this`L
      ensures |nodes| == |n0| && SweptTo(n0, nodes, {}, AllLive(n0), L, n)
      ensures Linked(nodes, L) && |L.owner| == |L.pos| && FreeOk(L, freepos, freenum)
    {
      hide Clean, SweptTo, Linked, FreeOk, Hash, Marked, UnMark, PushBucket, Kept;
      LinkedSizes(nodes, L);
      SweepLevel(n0, nodes, {}, AllLive(n0), L, n);
      CleanLevel(n0, n);
      if nodes[n].low != -1 {
        SweepKeep(n0, nodes, {}, AllLive(n0), L, n, freepos, freenum);
        var hash := Hash(nodes[n].level, nodes[n].low, nodes[n].high, |nodes|);
        RehashNext(n0, nodes, n, hash);
        L := Pushed(L, n, Bucket(hash), nodes[hash].hash);
        nodes := PushBucket(nodes, n, hash);
      } else {
        SweepDrop(n0, nodes, {}, AllLive(n0), L, n, freepos, freenum);
        L := Pushed(L, n, Free, freepos);
        nodes := nodes[n := nodes[n].(next := freepos)];
        freepos := n;
        freenum := freenum + 1;
      }
      LinkedSizes(nodes, L);
    }

    /** bdd_gbc_rehash */
    method GbcRehash()
      requires Graph(nodes, varnum) && NoBuckets(nodes)
      modifies this`nodes, this`freepos, this`freenum, this`L
      ensures Graph(nodes, varnum) && Lists(nodes, L, freepos, freenum) && Extends(old(nodes), nodes) && |nodes| == old(|nodes|)
      ensures SameFree(old(nodes), nodes)
    {
      hide Graph, MarkedAs, SweptTo, Linked, FreeOk, Clean, Hashed, ClosedSet, NoBuckets, AllInNone, Retains, Extends, Collected;
      ghost var n0 := nodes;
      GraphParts(n0, varnum);
      freepos := 0;
      freenum := 0;
      L := AllLoose(nodes);
      EmptyFree(L);
      NothingMarked(nodes);
      SweepStart(n0, nodes, {}, AllLive(n0), L);
      var n := |nodes|;
      while n > 2
        invariant 2 <= n <= |nodes| == |n0| && SweptTo(n0, nodes, {}, AllLive(n0), L, n)
        invariant Linked(nodes, L) && |L.owner| == |L.pos| && FreeOk(L, freepos, freenum)
      {
        n := n - 1;
        RehashEntry(n, n0);
      }
      AllLiveClosed(n0, varnum);
      SweepEnd(n0, nodes, {}, AllLive(n0), L);
      CollectedAll(n0, nodes, varnum);
    }

    /** bdd_noderesize with rehashing.  When the search ends below the old size the original goes
        on to write outside the table it has cut off; nothing is changed here then. */
    method NodeResize() returns (st: ResizeStatus)
      requires Valid()
      modifies this`nodes, this`freepos, this`freenum, this`L
      ensures Valid() && Extends(old(nodes), nodes) && AllLive(nodes) == AllLive(old(nodes))
      ensures st == Refused <==> old(|nodes|) >= maxnodesize && maxnodesize > 0
      ensures st == Performed ==> |nodes| >= old(|nodes|) && Prime.NewSize(old(|nodes|), maxnodesize, maxnodeincrease, |nodes|)
      ensures freenum == old(freenum) + |nodes| - old(|nodes|)
      ensures st == Performed ==> (freepos == 0 <==> old(freepos) == 0 && |nodes| == old(|nodes|))
      ensures old(CanGrow()) ==> st == Performed && |nodes| > old(|nodes|)
      ensures st == Shrunk ==> old(MayShrink())
      ensures st != Performed ==> nodes == old(nodes) && freepos == old(freepos) && freenum == old(freenum)
    {
      hide Graph, Lists, Clean, Hashed, ClosedSet, NoBuckets, Retains, Extends, Levels, AllLive, Prime.NewSize, Prime.CanGrow, Prime.MayShrink;
      GraphParts(nodes, varnum);
      ExtendsSelf(nodes, Levels(varnum));
      ghost var n0 := nodes;
      var oldsize := |nodes|;
      Prime.NoneAtLimit(oldsize, maxnodesize, maxnodeincrease);
      if oldsize >= maxnodesize && maxnodesize > 0 {
        return Refused;
      }
      NoneFree(nodes, L, freepos, freenum);
      FreeIs(nodes, L, freepos, freenum);
      Prime.NewSizeOdd(oldsize, maxnodesize, maxnodeincrease);
      var newsize := Prime.NextSize(oldsize, maxnodesize, maxnodeincrease);
      if newsize < oldsize {
        return Shrunk;
      }
      nodes := ClearBuckets(nodes);
      SameGraph(n0, nodes, varnum);
      ghost var n1 := nodes;
      nodes := AppendFree(nodes, newsize, freepos);
      ResizedNodes(n1, nodes, newsize, freepos);
      GrownGraph(n1, nodes, varnum);
      ghost var n2 := nodes;
      GbcRehash();
      ExtendsTransitive(n0, n1, n2);
      ExtendsTransitive(n0, n2, nodes);
      NoneFree(nodes, L, freepos, freenum);
      SameRoom(n0, n2, nodes);
      ExtendsStack(n0, nodes, refstack);
      SameLive(n0, n1, n2, nodes);
      FreeIs(nodes, L, freepos, freenum);
      st := Performed;
    }

    // ---- bdd_makenode ---------------------------------------------------------------

    /** The search through a hash chain. */
    method Find(hash: nat, level: nat, low: int, high: int) returns (res: nat)
      requires Linked(nodes, L) && hash < |nodes|
      ensures res != 0 ==> 2 <= res < |nodes| && L.owner[res] == Bucket(hash) && HasTriple(nodes, res, level, low, high)
      ensures res == 0 ==> forall i :: 2 <= i < |nodes| && L.owner[i] == Bucket(hash) ==> !HasTriple(nodes, i, level, low, high)
    {
      hide DistinctPos;
      res := nodes[hash].hash;
      assert HeadOk(L, Bucket(hash), res);
      while res != 0
        invariant res == 0 || (2 <= res < |nodes| && L.owner[res] == Bucket(hash))
        invariant forall i :: 2 <= i < |nodes| && L.owner[i] == Bucket(hash) && (res == 0 || L.pos[i] > L.pos[res]) ==>
                    !HasTriple(nodes, i, level, low, high)
        decreases if res == 0 then 0 else L.pos[res] + 1
      {
        assert LinkAt(nodes, L, res);
        if nodes[res].level == level && nodes[res].low == low && nodes[res].high == high {
          return;
        }
        OnlyAt(nodes, L, res);
        res := nodes[res].next;
      }
    }

    /** Room for a new node: collect, and grow the table when little was freed.  False stands
        for the error BDD_NODENUM, and for a table that has been cut off. */
    method MakeRoom() returns (ok: bool)
      requires Valid()
      modifies this`nodes, this`freepos, this`freenum, this`L, this`misccache, this`replacecache
      ensures Valid() && Retains(old(nodes), nodes, old(Roots())) && CachesEmpty()
      ensures AllLive(nodes) == old(Roots()) == Roots() && freenum == |nodes| - 2 - |Roots()|
      ensures |misccache| == old(|misccache|) && |replacecache| == old(|replacecache|)
      ensures ok ==> freepos != 0 && |nodes| >= old(|nodes|)
      ensures !ok ==> Crowded() && |nodes| == old(|nodes|) && (MayShrink() || |Roots()| == |nodes| - 2)
      ensures RoomMade(old(|nodes|), |old(Roots())|, minfreenodes, old(CanGrow()), old(AtLimit()), ok, |nodes|)
    {
      hide Graph, Lists, Protected, Retains, Extends, AllLive, ClosedSet, Prime.NewSize, Prime.CanGrow, Prime.MayShrink;
      ghost var n0, M := nodes, Roots();
      GraphParts(n0, varnum);
      Gbc();
      ghost var n1 := nodes;
      CollectedLive(n0, n1, M);
      CollectedSize(n0, n1, M);
      FreeNumber(nodes, L, freepos, freenum);
      if (freenum * 100) / |nodes| <= minfreenodes {
        var st := NodeResize();
        RetainsExtends(n0, n1, nodes, M);
        StillRoots(n0, M);
        FreeNumber(nodes, L, freepos, freenum);
        if st == Shrunk {
          return false;
        }
      } else {
        GraphParts(nodes, varnum);
        ExtendsSelf(nodes, Levels(varnum));
        RetainsExtends(n0, n1, nodes, M);
        StillRoots(n0, M);
      }
      ok := freepos != 0;
    }

    /** After a collection everything is protected. */
    lemma StillRoots(n0: seq<BddNode>, M: set<int>)
      requires Valid() && Ordered(n0, Levels(varnum)) && M == Protected(n0, Levels(varnum), refstack)
      requires Retains(n0, nodes, M) && AllLive(nodes) == M
      ensures Roots() == M
    {
      hide Graph, Lists, Protected, Retains;
      GraphParts(nodes, varnum);
      RetainsProtected(n0, nodes, Levels(varnum), refstack, refstack);
      RootsClosed();
      forall i | i in Roots() ensures i in AllLive(nodes) {
        assert ClosedAt(nodes, Roots(), i);
      }
    }

    /** Filling the first free entry. */
    method Build(level: nat, low: int, high: int, hash: nat) returns (res: int)
      requires Valid() && Fitting(nodes, varnum, level, low, high) && low != high && Absent(nodes, level, low, high)
      requires freepos != 0 && hash == Hash(level, low, high, |nodes|)
      modifies this`nodes, this`freepos, this`freenum, this`L
      ensures Valid() && Extends(old(nodes), nodes) && IsNode(nodes, res, level, low, high)
      ensures |nodes| == old(|nodes|) && freenum == old(freenum) - 1
    {
      hide Graph, Clean, Hashed, Retains, Extends, Levels, Absent, Fitting, IsNode, Linked, FreeOk, Hash;
      ghost var n0 := nodes;
      FittingSigns(nodes, varnum, level, low, high);
      LinkedSizes(nodes, L);
      BuildLists(nodes, L, freepos, freenum, level, low, high, hash);
      res := freepos;
      freepos := nodes[freepos].next;
      freenum := freenum - 1;
      nodes := nodes[res := nodes[res].(level := level, low := low, high := high)];
      L := Pushed(L, res, Bucket(hash), nodes[hash].hash);
      nodes := PushBucket(nodes, res, hash);
      BuiltEntry(n0, nodes, res, level, low, high, hash);
      BuildGraph(n0, nodes, varnum, res, level, low, high);
      ExtendsStack(n0, nodes, refstack);
    }

    /** bdd_makenode: the only node for this triple, found or built.  A collection on the way
        keeps what is protected.  False stands for BDD_NODENUM, where every entry of a table that
        is not sure to grow is protected, and for a table that has been cut off. */
    method MakeNode(level: nat, low: int, high: int) returns (ok: bool, res: int)
      requires Valid() && Fitting(nodes, varnum, level, low, high)
      requires (low < 2 || low in Roots()) && (high < 2 || high in Roots())
      modifies this`nodes, this`freepos, this`freenum, this`L, this`misccache, this`replacecache
      ensures Valid() && Retains(old(nodes), nodes, old(Roots()))
      ensures ok ==> Ref(nodes, res) && IsNode(nodes, res, level, low, high)
      ensures low == high || !old(Absent(nodes, level, low, high)) ==> ok && nodes == old(nodes) && freepos == old(freepos) && freenum == old(freenum)
      ensures old(freepos) != 0 ==> ok && |nodes| == old(|nodes|) && freenum >= old(freenum) - 1
      ensures !ok ==> Crowded() && Absent(nodes, level, low, high) && |nodes| == old(|nodes|) && (MayShrink() || |old(Roots())| == |nodes| - 2)
      ensures old(freepos) == 0 && low != high && old(Absent(nodes, level, low, high)) ==>
                RoomMade(old(|nodes|), |old(Roots())|, minfreenodes, old(CanGrow()), old(AtLimit()), ok, |nodes|)
      ensures (Extends(old(nodes), nodes) && misccache == old(misccache) && replacecache == old(replacecache)) || CachesEmpty()
      ensures |misccache| == old(|misccache|) && |replacecache| == old(|replacecache|)
    {
      hide Graph, Clean, Hashed, Retains, Extends, Levels, Absent, Fitting, Linked, FreeOk, Hash, Roots, ClosedSet, EmptyCache, AllLive, Prime.CanGrow, Prime.MayShrink;
      ghost var n0, M := nodes, Roots();
      GraphParts(nodes, varnum);
      ExtendsSelf(nodes, Levels(varnum));
      RootsClosed();
      ExtendsRetains(nodes, nodes, M);
      if low == high {
        FittingRefs(nodes, varnum, level, low, high);
        return true, low;
      }
      var hash := Hash(level, low, high, |nodes|);
      res := Find(hash, level, low, high);
      if res != 0 {
        FoundLive(nodes, L, res, level, low, high);
        return true, res;
      }
      NotFoundAbsent(nodes, L, level, low, high);
      if freepos == 0 {
        ok := MakeRoom();
        GraphParts(nodes, varnum);
        RoomAbsent(n0, nodes, M, level, low, high);
        RoomFitting(n0, nodes, M, varnum, level, low, high);
        hash := Hash(level, low, high, |nodes|);
        if !ok { return; }
      }
      ghost var n1 := nodes;
      res := Build(level, low, high, hash);
      RetainsExtends(n0, n1, nodes, M);
      ok := true;
    }

    // ---- variables ------------------------------------------------------------------

    /** A count that never changes again. */
    method Saturate(x: int)
      requires Valid() && Live(nodes, x)
      modifies this`nodes
      ensures Valid() && nodes == old(nodes)[x := old(nodes)[x].(refcount := MAXREF)]
    {
      hide Graph, Lists, Levels, Protected;
      ghost var n0 := nodes;
      nodes := nodes[x := nodes[x].(refcount := MAXREF)];
      RecountedGraph(n0, nodes, varnum, x);
      RecountedLists(n0, nodes, L, freepos, freenum);
    }

    /** One round of bdd_setvarnum.  The terminals are lowered in each round here, rather than after
        the last one; nothing in between reads their level. */
    method AddVariable() returns (ok: bool)
      requires Valid() && varnum < MAXVAR && refstack == [] && |varset| == 2 * varnum && HasVariables(nodes, varset, varnum)
      modifies this`nodes, this`freepos, this`freenum, this`L, this`misccache, this`replacecache, this`refstack, this`varnum, this`varset
      ensures ok ==> Valid() && varnum == old(varnum) + 1 && refstack == []
      ensures ok ==> |varset| == 2 * varnum && HasVariables(nodes, varset, varnum)
      ensures ok ==> Carries(old(nodes), old(varnum), nodes, varnum)
      ensures old(freenum) >= 2 ==> ok && freenum >= old(freenum) - 2
      ensures !ok ==> Crowded()
    {
      hide Prime.CanGrow, Prime.MayShrink, Graph, Lists, Ordered, Carries, HasVariables, Retains, Protected, Levels, Raised, ClosedSet, EmptyCache, Extends;
      ghost var n0 := nodes;
      var v := varnum;
      GraphParts(nodes, v);
      RaisedGraph(nodes, v);
      RaisedLists(nodes, L, freepos, freenum, v + 1);
      RaisedCarries(nodes, v);
      RaisedVariables(nodes, v + 1, varset, v);
      nodes := Raised(nodes, v + 1);
      varnum := v + 1;
      var x, y;
      ok, x := NewNode(v, 0, 1, n0);
      if !ok { return; }
      PushRef(x);
      OnStack(x);
      ghost var n1, S := nodes, Roots();
      ok, y := NewNode(v, 1, 0, n0);
      if !ok { return; }
      KeptNode(n1, nodes, S, x);
      PopRef(1);
      NewVariable(v, x, y, n0);
      ok := true;
    }

    /** What a round does with the two nodes. */
    method NewVariable(v: nat, x: int, y: int, ghost n0: seq<BddNode>)
      requires Valid() && varnum == v + 1 && |varset| == 2 * v && Carries(n0, v, nodes, varnum) && HasVariables(nodes, varset, v)
      requires Live(nodes, x) && nodes[x].level == v && nodes[x].low == 0 && nodes[x].high == 1
      requires Live(nodes, y) && nodes[y].level == v && nodes[y].low == 1 && nodes[y].high == 0
      modifies this`nodes, this`varset
      ensures Valid() && |varset| == 2 * varnum && HasVariables(nodes, varset, varnum) && Carries(n0, v, nodes, varnum)
    {
      hide Graph, Lists, Ordered, Carries, HasVariables, Protected, Levels, Saturated;
      NewLevel(n0, v, nodes, x);
      NewLevel(n0, v, nodes, y);
      ghost var n1 := nodes;
      Saturate(x);
      ghost var n2 := nodes;
      GraphParts(nodes, varnum);
      SaturatedStep(n0, v, n1, n2, x, varset);
      Saturate(y);
      GraphParts(nodes, varnum);
      SaturatedStep(n0, v, n2, nodes, y, varset);
      OneMoreVariable(nodes, varset, v, x, y);
      varset := varset + [x, y];
    }

    lemma OnStack(x: int)
      requires Valid() && Live(nodes, x) && x in refstack
      ensures x in Roots()
    {
      GraphParts(nodes, varnum);
      assert IsRoot(nodes, refstack, x);
      RootProtects(nodes, Levels(varnum), refstack, x);
    }

    /** bdd_setvarnum: the new variables have their two nodes, which are never collected, and the
        nodes with a count keep their meaning.  The reference stack is emptied. */
    method SetVarNum(num: int) returns (st: VarNumStatus)
      requires Valid() && |varset| == 2 * varnum && HasVariables(nodes, varset, varnum)
      modifies this`nodes, this`freepos, this`freenum, this`L, this`misccache, this`replacecache, this`refstack, this`varnum, this`varset
      ensures st == BadRange <==> num < 1 || num > MAXVAR
      ensures st == Decreasing <==> 1 <= num <= MAXVAR && num < old(varnum)
      ensures st == OutOfNodes ==> Crowded()
      ensures old(freenum) >= 2 * (num - old(varnum)) ==> st != OutOfNodes
      ensures st == Extended ==> Valid() && varnum == num && |varset| == 2 * num && HasVariables(nodes, varset, num) && Carries(old(nodes), old(varnum), nodes, num)
      ensures st == Extended && num > old(varnum) ==> refstack == []
      ensures st in {BadRange, Decreasing} ==> nodes == old(nodes) && varnum == old(varnum)
    {
      hide Prime.CanGrow, Prime.MayShrink, Graph, Lists, Ordered, Carries, HasVariables, Protected, Levels;
      if num < 1 || num > MAXVAR {
        return BadRange;
      }
      if num < varnum {
        return Decreasing;
      }
      GraphParts(nodes, varnum);
      CarriesSelf(nodes, varnum);
      if num == varnum {
        return Extended;
      }
      refstack := [];
      ghost var n0, start := nodes, varnum;
      while varnum < num
        invariant Valid() && varnum <= num && refstack == [] && |varset| == 2 * varnum
        invariant HasVariables(nodes, varset, varnum) && Carries(n0, start, nodes, varnum)
        invariant old(freenum) >= 2 * (num - start) ==> freenum >= 2 * (num - varnum)
      {
        ghost var n1, v := nodes, varnum;
        var ok := AddVariable();
        if !ok {
          return OutOfNodes;
        }
        CarriesTransitive(n0, start, n1, v, nodes, varnum);
      }
      return Extended;
    }

    /** A node of the new variable. */
    method NewNode(v: nat, low: int, high: int, ghost n0: seq<BddNode>) returns (ok: bool, x: int)
      requires Valid() && varnum == v + 1 && low in {0, 1} && high == 1 - low && Carries(n0, v, nodes, varnum) && HasVariables(nodes, varset, v)
      modifies this`nodes, this`freepos, this`freenum, this`L, this`misccache, this`replacecache
      ensures Valid() && (!ok ==> Crowded()) && Carries(n0, v, nodes, varnum) && HasVariables(nodes, varset, v)
      ensures ok ==> Live(nodes, x) && nodes[x].level == v && nodes[x].low == low && nodes[x].high == high
      ensures old(freenum) > 0 ==> ok && freenum >= old(freenum) - 1
      ensures Retains(old(nodes), nodes, old(Roots()))
    {
      hide Prime.CanGrow, Prime.MayShrink, Graph, Lists, Ordered, Carries, HasVariables, Retains, Protected, Levels, ClosedSet, EmptyCache, Extends;
      ghost var n1, S := nodes, Roots();
      FreeNumber(nodes, L, freepos, freenum);
      GraphParts(nodes, varnum);
      TerminalsFit(nodes, varnum, v);
      RootsClosed();
      ok, x := MakeNode(v, low, high);
      GraphParts(nodes, varnum);
      RetainsCarries(n1, nodes, varnum, refstack);
      CarriesTransitive(n0, v, n1, varnum, nodes, varnum);
      RetainsVariables(n1, nodes, S, varset, v);
    }

    // ---- references -----------------------------------------------------------------

    /** PUSHREF */
    method PushRef(a: int)
      requires Valid() && Ref(nodes, a) && |refstack| < 2 * varnum + 4
      modifies this`refstack
      ensures Valid() && refstack == old(refstack) + [a]
    {
      refstack := refstack + [a];
    }

    /** POPREF */
    method PopRef(a: nat)
      requires Valid() && a <= |refstack|
      modifies this`refstack
      ensures Valid() && refstack == old(refstack)[..|old(refstack)| - a]
    {
      refstack := refstack[..|refstack| - a];
    }

    /** READREF */
    function ReadRef(a: nat): int
      requires 1 <= a <= |refstack|
      reads this
    {
      refstack[|refstack| - a]
    }

    /** bdd_addref; false stands for BDD_ILLBDD. */
    method AddRef(root: nat) returns (ok: bool)
      requires Valid()
      modifies this`nodes
      ensures Valid() && ok == Ref(old(nodes), root)
      ensures ok && root >= 2 ==> nodes == IncRef(old(nodes), root) && root in Roots()
      ensures !ok || root < 2 ==> nodes == old(nodes)
    {
      hide Graph, Lists, Levels, Protected;
      GraphParts(nodes, varnum);
      if root < 2 { return true; }
      if root >= |nodes| || nodes[root].low == -1 { return false; }
      ghost var n0 := nodes;
      nodes := IncRef(nodes, root);
      RecountedGraph(n0, nodes, varnum, root);
      RecountedLists(n0, nodes, L, freepos, freenum);
      RootProtects(nodes, Levels(varnum), refstack, root);
      GraphParts(nodes, varnum);
      assert root in Reach(nodes, Levels(varnum), root);
      ok := true;
    }

    /** bdd_delref; false stands for BDD_ILLBDD and BDD_BREAK. */
    method DelRef(root: nat) returns (ok: bool)
      requires Valid()
      modifies this`nodes
      ensures Valid() && ok == (Ref(old(nodes), root) && (root >= 2 ==> old(nodes)[root].refcount != 0))
      ensures ok && root >= 2 ==> nodes == DecRef(old(nodes), root)
      ensures !ok || root < 2 ==> nodes == old(nodes)
    {
      hide Graph, Lists, Levels, Protected;
      GraphParts(nodes, varnum);
      if root < 2 { return true; }
      if root >= |nodes| || nodes[root].low == -1 || nodes[root].refcount == 0 { return false; }
      ghost var n0 := nodes;
      nodes := DecRef(nodes, root);
      RecountedGraph(n0, nodes, varnum, root);
      RecountedLists(n0, nodes, L, freepos, freenum);
      ok := true;
    }

    /** Identifiers are canonical between operations. */
    lemma Canonical(i: int, j: int)
      requires Valid() && Ref(nodes, i) && Ref(nodes, j)
      ensures Ordered(nodes, Levels(varnum))
      ensures i == j <==> forall env :: Eval(nodes, Levels(varnum), i, env) == Eval(nodes, Levels(varnum), j, env)
    {
      if i != j {
        var env := Distinguish(nodes, Levels(varnum), i, j);
      }
    }

    /** Following `next` from the head of bucket b meets the nodes that hash to b, each once;
        from bddfreepos it meets the free entries, each once, and bddfreenum is their number. */
    lemma Partition(b: nat)
      requires Valid() && b < |nodes|
      ensures (nodes[b].hash == 0 || (2 <= nodes[b].hash < |nodes| && L.owner[nodes[b].hash] != Loose))
      ensures freepos == 0 || (2 <= freepos < |nodes| && L.owner[freepos] != Loose)
      ensures var w := Walk(nodes, L, nodes[b].hash);
              && (forall x :: x in w <==> Live(nodes, x) && Hash(nodes[x].level, nodes[x].low, nodes[x].high, |nodes|) == b)
              && (forall i, j :: 0 <= i < j < |w| ==> w[i] != w[j])
      ensures var w := Walk(nodes, L, freepos);
              && |w| == freenum
              && (forall x :: x in w <==> 2 <= x < |nodes| && nodes[x].low == -1)
              && (forall i, j :: 0 <= i < j < |w| ==> w[i] != w[j])
    {
      hide Hash, Graph, LinkAt, DistinctPos;
      assert HeadOk(L, Bucket(b), nodes[b].hash);
      WalkMeetsList(nodes, L, Bucket(b), nodes[b].hash);
      WalkMeetsList(nodes, L, Free, freepos);
    }

    ghost predicate CachesEmpty()
      reads this
    {
      EmptyCache(misccache) && EmptyCache(replacecache)
    }

    /** bdd_operator_reset */
    method OperatorReset()
      modifies this`misccache, this`replacecache
      ensures CachesEmpty() && |misccache| == old(|misccache|) && |replacecache| == old(|replacecache|)
    {
      misccache := ResetCache(misccache);
      replacecache := ResetCache(replacecache);
    }

    lemma RootsClosed()
      requires Sound()
      ensures ClosedSet(nodes, Roots()) && 0 !in Roots() && 1 !in Roots()
      ensures forall i :: 2 <= i < |nodes| && nodes[i].refcount > 0 ==> i in Roots()
    {
      ProtectedClosed(nodes, Levels(varnum), refstack);
      forall i | 2 <= i < |nodes| && nodes[i].refcount > 0 ensures i in Roots() {
        assert IsRoot(nodes, refstack, i);
        RootProtects(nodes, Levels(varnum), refstack, i);
      }
    }
  }

  /** A table of n entries without a free one, `roots` of them protected, has been collected and has n1
      entries now: it grows if at most min per cent are free and it can; there is room afterwards if
      something was freed or it has grown. */
  predicate RoomMade(n: nat, roots: nat, min: int, sure: bool, limit: bool, ok: bool, n1: nat) {
    && n >= 3
    && ((n - 2 - roots) * 100 / n > min ==> ok && n1 == n)
    && ((n - 2 - roots) * 100 / n <= min && sure ==> ok && n1 > n)
    && (limit ==> n1 == n && (ok <==> roots < n - 2))
  }

  ghost predicate EmptyCache(c: seq<CacheEntry>) {
    forall k :: 0 <= k < |c| ==> c[k].a == -1
  }

  /** BddCache_reset */
  method ResetCache(cache: seq<CacheEntry>) returns (c: seq<CacheEntry>)
    ensures |c| == |cache| && EmptyCache(c)
  {
    c := cache;
    var n := 0;
    while n < |c|
      invariant n <= |c| == |cache| && forall k :: 0 <= k < n ==> c[k].a == -1
    {
      c := c[n := c[n].(a := -1)];
      n := n + 1;
    }
  }

  lemma CollectedAll(n0: seq<BddNode>, nodes: seq<BddNode>, n: nat)
    requires Graph(n0, n) && Collected(n0, nodes, AllLive(n0))
    requires forall i :: 0 <= i < |n0| ==> nodes[i].level == n0[i].level && nodes[i].refcount == n0[i].refcount
    ensures Graph(nodes, n) && Extends(n0, nodes)
    ensures SameFree(n0, nodes)
  {
    CollectedGraph(n0, nodes, AllLive(n0), n);
    forall i | 2 <= i < |nodes| ensures nodes[i].low == -1 <==> n0[i].low == -1 {
      assert Live(nodes, i) <==> i in AllLive(n0);
    }
  }

  ghost predicate SameFree(n0: seq<BddNode>, nodes: seq<BddNode>) {
    |nodes| == |n0| && forall i :: 2 <= i < |nodes| ==> (nodes[i].low == -1 <==> n0[i].low == -1)
  }

  method ClearBuckets(nodes: seq<BddNode>) returns (r: seq<BddNode>)
    ensures |r| == |nodes| && NoBuckets(r)
    ensures forall i :: 0 <= i < |nodes| ==> r[i] == nodes[i].(hash := 0)
  {
    r := nodes;
    var n := 0;
    while n < |r|
      invariant n <= |r| == |nodes|
      invariant forall i :: 0 <= i < |nodes| ==> r[i] == if i < n then nodes[i].(hash := 0) else nodes[i]
    {
      r := r[n := r[n].(hash := 0)];
      n := n + 1;
    }
  }

  lemma ResizedNodes(n1: seq<BddNode>, nodes: seq<BddNode>, newsize: nat, freepos: nat)
    requires NoBuckets(n1) && |n1| <= newsize && Resized(n1, nodes, newsize, freepos)
    ensures |nodes| == newsize && NoBuckets(nodes)
    ensures forall i :: 0 <= i < |n1| ==> SameTriple(nodes[i], n1[i]) && nodes[i].refcount == n1[i].refcount
    ensures forall i :: |n1| <= i < |nodes| ==> nodes[i].low == -1 && nodes[i].refcount == 0 && nodes[i].level == 0
  {
    forall i | 0 <= i < newsize
      ensures nodes[i].hash == 0
      ensures i < |n1| ==> SameTriple(nodes[i], n1[i]) && nodes[i].refcount == n1[i].refcount
      ensures i >= |n1| ==> nodes[i].low == -1 && nodes[i].refcount == 0 && nodes[i].level == 0
    {
      assert ResizedAt(n1, nodes, newsize, freepos, i);
    }
  }

  /** No entry is free afterwards if none was and none has been added. */
  lemma SameRoom(n0: seq<BddNode>, n2: seq<BddNode>, nodes: seq<BddNode>)
    requires 2 <= |n0| <= |n2| && SameFree(n2, nodes) && forall i :: 0 <= i < |n0| ==> n2[i].low == n0[i].low
    requires forall i :: |n0| <= i < |n2| ==> n2[i].low == -1
    ensures (forall i :: 2 <= i < |nodes| ==> nodes[i].low != -1) <==> (forall i :: 2 <= i < |n0| ==> n0[i].low != -1) && |nodes| == |n0|
  {
    if |n0| < |n2| {
      assert nodes[|n0|].low == -1;
    }
  }

  lemma ExtendsStack(n0: seq<BddNode>, nodes: seq<BddNode>, stack: seq<int>)
    requires Extends(n0, nodes) && forall k :: 0 <= k < |stack| ==> Ref(n0, stack[k])
    ensures forall k :: 0 <= k < |stack| ==> Ref(nodes, stack[k])
  {
    forall k | 0 <= k < |stack| ensures Ref(nodes, stack[k]) {
      if stack[k] >= 2 { assert stack[k] in AllLive(n0) && SameNode(n0, nodes, stack[k]); }
    }
  }

  lemma SameLive(n0: seq<BddNode>, n1: seq<BddNode>, n2: seq<BddNode>, n3: seq<BddNode>)
    requires |n0| == |n1| <= |n2| == |n3|
    requires forall i :: 0 <= i < |n0| ==> n1[i].low == n0[i].low == n2[i].low
    requires forall i :: |n1| <= i < |n2| ==> n2[i].low == -1
    requires SameFree(n2, n3)
    ensures AllLive(n3) == AllLive(n0)
  {
  }

  predicate HasTriple(nodes: seq<BddNode>, i: int, level: nat, low: int, high: int)
    requires 0 <= i < |nodes|
  {
    nodes[i].level == level && nodes[i].low == low && nodes[i].high == high
  }

  lemma OnlyAt(nodes: seq<BddNode>, L: Links, res: int)
    requires Linked(nodes, L) && 2 <= res < |nodes| && L.owner[res] != Loose
    ensures forall i :: 2 <= i < |nodes| && L.owner[i] == L.owner[res] && L.pos[i] == L.pos[res] ==> i == res
  {
  }

  lemma CollectedSize(n0: seq<BddNode>, nodes: seq<BddNode>, M: set<int>)
    requires Collected(n0, nodes, M)
    ensures |nodes| == |n0|
  {
  }

  lemma FreeNumber(nodes: seq<BddNode>, L: Links, freepos: nat, freenum: int)
    requires Lists(nodes, L, freepos, freenum)
    ensures freenum >= 0 && (freenum == 0 <==> freepos == 0)
  {
    hide LinkAt, Hashed;
  }

  lemma CollectedLive(n0: seq<BddNode>, nodes: seq<BddNode>, M: set<int>)
    requires Collected(n0, nodes, M)
    ensures Retains(n0, nodes, M) && AllLive(nodes) == M
  {
  }

  lemma RetainsExtends(n0: seq<BddNode>, n1: seq<BddNode>, n2: seq<BddNode>, M: set<int>)
    requires Retains(n0, n1, M) && Extends(n1, n2)
    ensures Retains(n0, n2, M)
  {
    forall i | i in M ensures i in AllLive(n1) { assert SameNode(n0, n1, i) && ClosedAt(n0, M, i); }
    RetainsTransitive(n0, n1, n2, M, AllLive(n1));
  }

  lemma BuiltEntry(n0: seq<BddNode>, nodes: seq<BddNode>, r: int, level: nat, low: int, high: int, hash: nat)
    requires 2 <= r < |n0| && n0[r].low == -1 && hash < |n0| && nodes == PushBucket(Made(n0, r, level, low, high), r, hash)
    ensures Built(n0, nodes, r, level, low, high)
  {
  }

  lemma FittingRefs(nodes: seq<BddNode>, n: nat, level: nat, low: int, high: int)
    requires Fitting(nodes, n, level, low, high)
    ensures Ref(nodes, low) && Ref(nodes, high)
  {
  }

  lemma FoundLive(nodes: seq<BddNode>, L: Links, res: int, level: nat, low: int, high: int)
    requires Hashed(nodes, L) && 2 <= res < |nodes| && L.owner[res].Bucket? && HasTriple(nodes, res, level, low, high)
    ensures !Absent(nodes, level, low, high)
    ensures Live(nodes, res)
  {
    hide Hash;
    assert Live(nodes, res);
  }

  lemma NotFoundAbsent(nodes: seq<BddNode>, L: Links, level: nat, low: int, high: int)
    requires Hashed(nodes, L) && |nodes| > 0
    requires forall i :: 2 <= i < |nodes| && L.owner[i] == Bucket(Hash(level, low, high, |nodes|)) ==> !HasTriple(nodes, i, level, low, high)
    ensures Absent(nodes, level, low, high)
  {
    hide Hash;
    forall i | Live(nodes, i) ensures !HasTriple(nodes, i, level, low, high) { }
  }

  lemma RoomAbsent(n0: seq<BddNode>, nodes: seq<BddNode>, M: set<int>, level: nat, low: int, high: int)
    requires Retains(n0, nodes, M) && AllLive(nodes) <= M && Absent(n0, level, low, high)
    ensures Absent(nodes, level, low, high)
  {
    forall i | Live(nodes, i) ensures !HasTriple(nodes, i, level, low, high) {
      assert i in AllLive(nodes);
      assert SameNode(n0, nodes, i) && ClosedAt(n0, M, i);
    }
  }

  lemma RoomFitting(n0: seq<BddNode>, nodes: seq<BddNode>, M: set<int>, n: nat, level: nat, low: int, high: int)
    requires Retains(n0, nodes, M) && Fitting(n0, n, level, low, high)
    requires (low < 2 || low in M) && (high < 2 || high in M)
    ensures Fitting(nodes, n, level, low, high)
  {
    assert low >= 2 ==> SameNode(n0, nodes, low) && ClosedAt(n0, M, low);
    assert high >= 2 ==> SameNode(n0, nodes, high) && ClosedAt(n0, M, high);
  }

  lemma SaturatedStep(n0: seq<BddNode>, v: nat, n1: seq<BddNode>, n2: seq<BddNode>, x: int, varset: seq<int>)
    requires Carries(n0, v, n1, v + 1) && HasVariables(n1, varset, v) && Ordered(n2, Levels(v + 1)) && x !in Protected(n0, Levels(v), [])
    requires 2 <= x < |n1| && n2 == n1[x := n1[x].(refcount := MAXREF)]
    ensures Carries(n0, v, n2, v + 1) && HasVariables(n2, varset, v)
  {
    hide Carries, HasVariables, Ordered, Protected;
    SaturatedCarries(n0, v, n1, n2, v + 1, x);
    SaturatedVariables(n1, n2, x, varset, v);
  }

  lemma KeptNode(n0: seq<BddNode>, n1: seq<BddNode>, S: set<int>, x: int)
    requires Retains(n0, n1, S) && x in S
    ensures 0 <= x < |n0| && x < |n1| && SameTriple(n1[x], n0[x])
  {
  }

  lemma TerminalsFit(nodes: seq<BddNode>, n: nat, v: nat)
    requires Graph(nodes, n) && v < n
    ensures Fitting(nodes, n, v, 0, 1) && Fitting(nodes, n, v, 1, 0)
  {
  }

  lemma RecountedGraph(n0: seq<BddNode>, nodes: seq<BddNode>, n: nat, r: int)
    requires Graph(n0, n) && Live(n0, r) && |nodes| == |n0|
    requires forall i :: 0 <= i < |n0| ==> SameTriple(nodes[i], n0[i])
    requires forall i :: 0 <= i < |n0| && i != r ==> nodes[i].refcount == n0[i].refcount
    requires n0[r].refcount <= MAXREF ==> nodes[r].refcount <= MAXREF
    ensures Graph(nodes, n)
  {
    RecountedRanged(n0, nodes, n);
    forall i | Live(nodes, i) ensures Live(n0, i) && NodeOk(nodes, Levels(n), i) { assert NodeOk(n0, Levels(n), i); }
  }

  lemma RecountedRanged(n0: seq<BddNode>, nodes: seq<BddNode>, n: nat)
    requires Ranged(n0, n) && |nodes| == |n0|
    requires forall i :: 0 <= i < |n0| ==> SameTriple(nodes[i], n0[i]) && nodes[i].refcount <= MAXREF
    ensures Ranged(nodes, n)
  {
  }

  lemma RecountedLists(n0: seq<BddNode>, nodes: seq<BddNode>, L: Links, freepos: nat, freenum: int)
    requires Lists(n0, L, freepos, freenum) && |nodes| == |n0|
    requires forall i :: 0 <= i < |n0| ==> SameTriple(nodes[i], n0[i]) && nodes[i].hash == n0[i].hash && nodes[i].next == n0[i].next
    ensures Lists(nodes, L, freepos, freenum)
  {
    hide Hash, Linked, FreeOk;
    SameLinks(n0, nodes, L);
  }

  lemma GraphParts(nodes: seq<BddNode>, n: nat)
    requires Graph(nodes, n)
    ensures Ordered(nodes, Levels(n)) && Clean(nodes) && |nodes| >= 3 && |Levels(n)| == n + 1
  {
  }

  lemma NoneZeroed(nodes: seq<BddNode>)
    ensures ZeroedTo(nodes, 0)
  {
  }

  lemma AllZeroed(nodes: seq<BddNode>)
    requires ZeroedTo(nodes, |nodes|)
    ensures NoBuckets(nodes)
  {
  }

  lemma EmptyFree(L: Links)
    requires |L.owner| == |L.pos| && HeadOk(L, Free, 0)
    ensures FreeOk(L, 0, 0)
  {
  }

  lemma ClosedLive(n0: seq<BddNode>, M: set<int>, n: nat)
    requires ClosedSet(n0, M)
    ensures n in M ==> Live(n0, n) && n0[n].low != -1
  {
  }

  /** The free list holds what was not kept. */
  lemma FreeCount(nodes: seq<BddNode>, L: Links, freepos: nat, freenum: int, M: set<int>, n0: seq<BddNode>)
    requires Linked(nodes, L) && Hashed(nodes, L) && |L.owner| == |L.pos| && FreeOk(L, freepos, freenum) && Collected(n0, nodes, M)
    ensures freenum == |nodes| - 2 - |M|
  {
    ListSize(nodes, L, Free, freepos);
    var F := set x | 2 <= x < |nodes| && L.owner[x] == Free;
    var A := Entries(|nodes|);
    forall x ensures x in F <==> x in A - M {
      if 2 <= x < |nodes| { assert Live(nodes, x) <==> x in M; }
    }
    assert F == A - M;
    assert M <= A by { forall x | x in M ensures x in A { assert Live(n0, x); } }
  }

  /** The free number in terms of the allocated nodes. */
  lemma FreeIs(nodes: seq<BddNode>, L: Links, freepos: nat, freenum: int)
    requires Lists(nodes, L, freepos, freenum) && |nodes| >= 2
    ensures freenum == |nodes| - 2 - |AllLive(nodes)|
  {
    hide Hash, LinkAt;
    ListSize(nodes, L, Free, freepos);
    var F := set x | 2 <= x < |nodes| && L.owner[x] == Free;
    var A := Entries(|nodes|);
    assert F == A - AllLive(nodes);
    assert AllLive(nodes) <= A;
  }

  /** The numbers of all entries but the terminals. */
  ghost function Entries(n: nat): (s: set<int>)
    requires n >= 2
    ensures |s| == n - 2 && forall x :: x in s <==> 2 <= x < n
  {
    if n == 2 then {} else Entries(n - 1) + {n - 1}
  }

  lemma StackKept(n0: seq<BddNode>, nodes: seq<BddNode>, stack: seq<int>, n: nat, M: set<int>)
    requires Ordered(n0, Levels(n)) && M == Protected(n0, Levels(n), stack) && Collected(n0, nodes, M)
    requires forall k :: 0 <= k < |stack| ==> Ref(n0, stack[k])
    ensures forall k :: 0 <= k < |stack| ==> Ref(nodes, stack[k])
  {
    forall k | 0 <= k < |stack| ensures Ref(nodes, stack[k]) {
      var r := stack[k];
      if r >= 2 {
        assert IsRoot(n0, stack, r);
        RootProtects(n0, Levels(n), stack, r);
        assert r in M && SameNode(n0, nodes, r);
      }
    }
  }

  lemma Sizes(n0: seq<BddNode>, nodes: seq<BddNode>, M: set<int>)
    requires MarkedAs(n0, nodes, M)
    ensures |nodes| == |n0|
  {
  }

  lemma EntryFields(n0: seq<BddNode>, nodes: seq<BddNode>, M: set<int>, i: int)
    requires MarkedAs(n0, nodes, M) && 0 <= i < |n0|
    ensures |nodes| == |n0| && nodes[i].low == n0[i].low && nodes[i].high == n0[i].high && nodes[i].refcount == n0[i].refcount
  {
    assert EntryMarked(n0, nodes, M, i);
  }

  lemma HashesSame(nodes: seq<BddNode>)
    ensures SameHashes(nodes, nodes)
  {
  }

  lemma HashesTransitive(a: seq<BddNode>, b: seq<BddNode>, c: seq<BddNode>, d: seq<BddNode>)
    requires SameHashes(a, b) && SameHashes(b, c) && SameHashes(c, d)
    ensures SameHashes(a, d)
  {
  }

  /** An entry found marked is completely marked already. */
  lemma InProgress(n0: seq<BddNode>, lev: seq<nat>, M: set<int>, i: int)
    requires Ordered(n0, lev) && Live(n0, i) && FinishedFrom(n0, lev, M, i) && i in M
    ensures M + Reach(n0, lev, i) == M
  {
    assert FinishedAt(n0, lev, M, i, i);
  }
}
