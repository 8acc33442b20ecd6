/** Which reference counts may get stuck at their maximum during a reordering session: a count grows
    only by references from outside, references of the running operation and parents. */
module Saturation {
  import opened NodeTable
  import opened Diagram
  import opened RefCount
  import opened ReorderTheory
  import opened ReorderStep
  import opened ReorderSweep

  /** The references from outside, zero for entries that are not listed. */
  ghost function Own(e: seq<nat>, m: int): nat {
    if 0 <= m < |e| then e[m] else 0
  }

  ghost predicate GotStuck(n0: seq<BddNode>, n1: seq<BddNode>, m: int) {
    2 <= m < |n1| && n1[m].refcount == MAXREF && !(m < |n0| && n0[m].refcount == MAXREF)
  }

  /** From n0 to n1 the table has kept within maxsize, if there is one, and a count has got stuck only
      where the references from outside and two edges for each entry make MAXREF + s. */
  ghost predicate Within(n0: seq<BddNode>, n1: seq<BddNode>, e: seq<nat>, s: nat, maxsize: nat) {
    && |n0| <= |n1| && (maxsize > 0 ==> |n1| <= |n0| || |n1| <= maxsize)
    && forall m :: GotStuck(n0, n1, m) ==> Own(e, m) + 2 * |n1| >= MAXREF + s
  }

  lemma WithinSelf(n: seq<BddNode>, e: seq<nat>, s: nat, maxsize: nat)
    ensures Within(n, n, e, s, maxsize)
  {
  }

  /** The second part may hold d more references. */
  lemma WithinThen(n0: seq<BddNode>, n1: seq<BddNode>, n2: seq<BddNode>, e: seq<nat>, f: seq<nat>, s: nat, t: nat, d: nat, maxsize: nat)
    requires Within(n0, n1, e, s, maxsize) && Within(n1, n2, f, t, maxsize) && t >= d + s
    requires forall m {:trigger Own(f, m)} :: Own(f, m) <= Own(e, m) + d
    ensures Within(n0, n2, e, s, maxsize)
  {
    forall m | GotStuck(n0, n2, m) ensures Own(e, m) + 2 * |n2| >= MAXREF + s {
      if GotStuck(n1, n2, m) {
        assert Own(f, m) <= Own(e, m) + d;
      } else {
        assert GotStuck(n0, n1, m);
      }
    }
  }

  lemma WithinLess(n0: seq<BddNode>, n1: seq<BddNode>, e: seq<nat>, s: nat, t: nat, maxsize: nat)
    requires Within(n0, n1, e, s, maxsize) && t <= s
    ensures Within(n0, n1, e, t, maxsize)
  {
  }

  /** No count gets stuck. */
  ghost predicate NoneStuck(n0: seq<BddNode>, n1: seq<BddNode>) {
    |n1| == |n0| && forall m :: !GotStuck(n0, n1, m)
  }

  lemma NoneStuckWithin(n0: seq<BddNode>, n1: seq<BddNode>, n2: seq<BddNode>, e: seq<nat>, s: nat, maxsize: nat)
    requires Within(n0, n1, e, s, maxsize) && NoneStuck(n1, n2)
    ensures Within(n0, n2, e, s, maxsize)
  {
    forall m | GotStuck(n0, n2, m) ensures Own(e, m) + 2 * |n2| >= MAXREF + s {
      assert !GotStuck(n1, n2, m);
      assert GotStuck(n0, n1, m);
    }
  }

  lemma NoneStuckFirst(n0: seq<BddNode>, n1: seq<BddNode>, n2: seq<BddNode>, e: seq<nat>, s: nat, maxsize: nat)
    requires NoneStuck(n0, n1) && Within(n1, n2, e, s, maxsize)
    ensures Within(n0, n2, e, s, maxsize)
  {
    forall m | GotStuck(n0, n2, m) ensures Own(e, m) + 2 * |n2| >= MAXREF + s {
      assert !GotStuck(n0, n1, m);
      assert GotStuck(n1, n2, m);
    }
  }

  lemma PaddedOwn(e: seq<nat>, n: nat)
    requires |e| <= n
    ensures forall m {:trigger Own(Padded(e, n), m)} :: Own(Padded(e, n), m) == Own(e, m)
  {
  }

  lemma BumpOwn(e: seq<nat>, g: int)
    requires 0 <= g < |e|
    ensures forall m {:trigger Own(Bump(e, g), m)} :: Own(Bump(e, g), m) <= Own(e, m) + 1
  {
  }

  /** Every entry but the terminals has at most two edges. */
  lemma {:induction false} DegreeBound(nodes: seq<BddNode>, m: int)
    requires m >= 2 && |nodes| >= 2 && nodes[0].low == nodes[0].high == 0 && nodes[1].low == nodes[1].high == 1
    ensures InDegree(nodes, m) <= 2 * |nodes| - 4
  {
    var k := |nodes| - 1;
    if |nodes| == 2 {
      assert nodes[..1][..0] == [] && InDegree(nodes[..1], m) == 0;
    } else {
      DegreeBound(nodes[..k], m);
    }
  }

  /** INCREF of an allocated node. */
  lemma StuckByInc(nodes: seq<BddNode>, ext: seq<nat>, g: int)
    requires Conserved(nodes, ext) && Live(nodes, g) && Increased(nodes[g].refcount) == MAXREF && nodes[g].refcount != MAXREF
    requires nodes[0].low == nodes[0].high == 0 && nodes[1].low == nodes[1].high == 1
    ensures Own(ext, g) + 2 * |nodes| >= MAXREF + 3
  {
    DegreeBound(nodes, g);
    assert CountOk(nodes, ext, g);
  }

  lemma ReferenceWithin(nodes: seq<BddNode>, ext: seq<nat>, g: int, maxsize: nat)
    requires Conserved(nodes, ext) && Ref(nodes, g) && nodes[0].low == nodes[0].high == 0 && nodes[1].low == nodes[1].high == 1
    ensures Within(nodes, IncRef(nodes, g), ext, 3, maxsize)
  {
    var nodes' := IncRef(nodes, g);
    forall m | GotStuck(nodes, nodes', m) ensures Own(ext, m) + 2 * |nodes'| >= MAXREF + 3 {
      StuckByInc(nodes, ext, m);
    }
  }

  lemma BuildWithin(nodes: seq<BddNode>, nodes': seq<BddNode>, ext: seq<nat>, r: int, v: nat, low: int, high: int, maxsize: nat)
    requires Conserved(nodes, ext) && nodes[0].low == nodes[0].high == 0 && nodes[1].low == nodes[1].high == 1
    requires 2 <= r < |nodes| && Ref(nodes, low) && Ref(nodes, high) && FreshNode(nodes, nodes', r, v, low, high)
    ensures Within(nodes, nodes', ext, 3, maxsize)
  {
    forall m | GotStuck(nodes, nodes', m) ensures Own(ext, m) + 2 * |nodes'| >= MAXREF + 3 {
      StuckByInc(nodes, ext, m);
    }
  }

  lemma CountRange(nodes: seq<BddNode>, ext: seq<nat>)
    requires Conserved(nodes, ext)
    ensures forall i :: 0 <= i < |nodes| ==> nodes[i].refcount <= MAXREF
  {
    forall i | 0 <= i < |nodes| ensures nodes[i].refcount <= MAXREF {
      if Live(nodes, i) {
        var d := InDegree(nodes, i);
        assert CountOk(nodes, ext, i);
      }
    }
  }

  lemma RelinkedNoneStuck(nodes: seq<BddNode>, nodes': seq<BddNode>, ext: seq<nat>, p: int, v1: nat, g0: int, g1: int)
    requires 0 <= p < |nodes| && Relinked(nodes, nodes', p, v1, g0, g1) && Conserved(nodes, ext)
    ensures NoneStuck(nodes, nodes')
  {
    CountRange(nodes, ext);
    forall m ensures !GotStuck(nodes, nodes', m) {
      if 2 <= m < |nodes| {
        assert nodes'[m].refcount == Decreased(nodes[m].refcount) || nodes'[m].refcount == nodes[m].refcount;
      }
    }
  }

  lemma GcCounts(c: Ctx, nodes: seq<BddNode>, ext: seq<nat>)
    requires GcGraph(c, nodes, ext)
    ensures Conserved(nodes, ext)
  {
  }

  lemma EmptiedNoneStuck(nodes: seq<BddNode>, ext: seq<nat>, r: int, freepos: nat)
    requires Conserved(nodes, ext) && 0 <= r < |nodes| && 0 <= nodes[r].low < |nodes| && 0 <= nodes[r].high < |nodes|
    ensures NoneStuck(nodes, Emptied(nodes, r, freepos))
  {
    CountRange(nodes, ext);
  }

  lemma MidTerminals(c: Ctx, done: set<int>, nodes: seq<BddNode>, L: Links, levels: seq<LevelData>, freepos: nat, freenum: int, ext: seq<nat>)
    requires MidTable(c, done, nodes, L, levels, freepos, freenum, ext)
    ensures Conserved(nodes, ext) && |nodes| >= 2 && nodes[0].low == nodes[0].high == 0 && nodes[1].low == nodes[1].high == 1
  {
  }

  /** Two nodes found or built, the reference on the first being held meanwhile. */
  lemma HeldWithin(n0: seq<BddNode>, n1: seq<BddNode>, n2: seq<BddNode>, e0: seq<nat>, e1: seq<nat>, g: int, maxsize: nat)
    requires |e0| <= |n1| && 0 <= g < |n1| && e1 == Bump(Padded(e0, |n1|), g)
    requires Within(n0, n1, e0, 3, maxsize) && Within(n1, n2, e1, 3, maxsize)
    ensures Within(n0, n2, e0, 0, maxsize)
  {
    hide Own;
    PaddedOwn(e0, |n1|);
    BumpOwn(Padded(e0, |n1|), g);
    WithinLess(n0, n1, e0, 3, 0, maxsize);
    WithinThen(n0, n1, n2, e0, e1, 0, 3, 1, maxsize);
  }

  lemma GrownWithin(nodes: seq<BddNode>, nodes': seq<BddNode>, e: seq<nat>, s: nat, maxsize: nat)
    requires |nodes| <= |nodes'| && nodes'[..|nodes|] == nodes && (maxsize > 0 ==> |nodes'| <= maxsize)
    requires forall i :: |nodes| <= i < |nodes'| ==> nodes'[i].refcount == 0
    ensures Within(nodes, nodes', e, s, maxsize)
  {
    forall m | 0 <= m < |nodes| ensures nodes'[m] == nodes[m] {
      assert nodes'[..|nodes|][m] == nodes[m];
    }
  }

  lemma CoreNoneStuck(nodes: seq<BddNode>, nodes': seq<BddNode>)
    requires SameCore(nodes, nodes')
    ensures NoneStuck(nodes, nodes')
  {
  }

  lemma NoneStuckTwice(n0: seq<BddNode>, n1: seq<BddNode>, n2: seq<BddNode>)
    requires NoneStuck(n0, n1) && NoneStuck(n1, n2)
    ensures NoneStuck(n0, n2)
  {
    forall m ensures !GotStuck(n0, n2, m) {
      assert !GotStuck(n0, n1, m) && !GotStuck(n1, n2, m);
    }
  }
}
