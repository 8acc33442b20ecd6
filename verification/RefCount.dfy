/** Reference counting with saturation, and the number of parents of a node. */
module RefCount {
  import opened NodeTable

  function Increased(c: nat): (r: nat) { if c != MAXREF then c + 1 else c }

  function Decreased(c: nat): (r: nat) { if c != 0 && c != MAXREF then c - 1 else c }

  /** INCREF */
  function IncRef(nodes: seq<BddNode>, i: int): seq<BddNode>
    requires 0 <= i < |nodes|
  {
    nodes[i := nodes[i].(refcount := Increased(nodes[i].refcount))]
  }

  /** DECREF */
  function DecRef(nodes: seq<BddNode>, i: int): seq<BddNode>
    requires 0 <= i < |nodes|
  {
    nodes[i := nodes[i].(refcount := Decreased(nodes[i].refcount))]
  }

  /** bdd_addref, k times. */
  function IncRefs(nodes: seq<BddNode>, i: int, k: nat): (r: seq<BddNode>)
    requires 0 <= i < |nodes|
    ensures |r| == |nodes|
  {
    if k == 0 then nodes else IncRef(IncRefs(nodes, i, k - 1), i)
  }

  /** bdd_delref, k times. */
  function DecRefs(nodes: seq<BddNode>, i: int, k: nat): (r: seq<BddNode>)
    requires 0 <= i < |nodes|
    ensures |r| == |nodes|
    decreases k
  {
    if k == 0 then nodes else DecRefs(DecRef(nodes, i), i, k - 1)
  }

  lemma {:induction false} IncRefsIs(nodes: seq<BddNode>, i: int, k: nat)
    requires 0 <= i < |nodes| && nodes[i].refcount <= 1023
    ensures IncRefs(nodes, i, k) == nodes[i := nodes[i].(refcount := if nodes[i].refcount + k < 1023 then nodes[i].refcount + k else 1023)]
  {
    if k > 0 { IncRefsIs(nodes, i, k - 1); }
  }

  lemma {:induction false} DecRefsIs(nodes: seq<BddNode>, i: int, k: nat)
    requires 0 <= i < |nodes| && nodes[i].refcount <= 1023 && (k <= nodes[i].refcount || nodes[i].refcount == 1023)
    ensures DecRefs(nodes, i, k) == if nodes[i].refcount < 1023 then nodes[i := nodes[i].(refcount := nodes[i].refcount - k)] else nodes
    decreases k
  {
    if k > 0 { DecRefsIs(DecRef(nodes, i), i, k - 1); }
  }

  /** References taken and given back leave the table as it was if and only if they do not bring the count
      to 1023, where it stays, or it was there before. */
  lemma RefsRestored(nodes: seq<BddNode>, i: int, k: nat)
    requires 0 <= i < |nodes| && nodes[i].refcount <= 1023
    ensures DecRefs(IncRefs(nodes, i, k), i, k) == nodes <==> nodes[i].refcount + k < 1023 || nodes[i].refcount == 1023
    ensures nodes[i].refcount + k >= 1023 ==> DecRefs(IncRefs(nodes, i, k), i, k)[i].refcount == 1023
  {
    IncRefsIs(nodes, i, k);
    DecRefsIs(IncRefs(nodes, i, k), i, k);
  }

  function Edges(x: BddNode, m: int): nat {
    if x.low == -1 then 0 else (if x.low == m then 1 else 0) + (if x.high == m then 1 else 0)
  }

  /** The number of edges from allocated nodes to m. */
  ghost function InDegree(nodes: seq<BddNode>, m: int): nat {
    if nodes == [] then 0 else InDegree(nodes[..|nodes|-1], m) + Edges(nodes[|nodes|-1], m)
  }

  lemma {:induction false} InDegreeUpdate(nodes: seq<BddNode>, i: nat, x: BddNode, m: int)
    requires i < |nodes|
    ensures InDegree(nodes[i := x], m) == InDegree(nodes, m) - Edges(nodes[i], m) + Edges(x, m)
  {
    var k := |nodes| - 1;
    if i == k {
      assert nodes[i := x][..k] == nodes[..k];
    } else {
      assert nodes[i := x][..k] == nodes[..k][i := x];
      InDegreeUpdate(nodes[..k], i, x, m);
    }
  }

  lemma {:induction false} InDegreeSame(nodes: seq<BddNode>, nodes': seq<BddNode>, m: int)
    requires |nodes| == |nodes'|
    requires forall i :: 0 <= i < |nodes| ==> nodes'[i].low == nodes[i].low && nodes'[i].high == nodes[i].high
    ensures InDegree(nodes', m) == InDegree(nodes, m)
  {
    if nodes != [] {
      InDegreeSame(nodes[..|nodes|-1], nodes'[..|nodes|-1], m);
    }
  }

  lemma {:induction false} InDegreeFree(nodes: seq<BddNode>, more: seq<BddNode>, m: int)
    requires forall i :: 0 <= i < |more| ==> more[i].low == -1
    ensures InDegree(nodes + more, m) == InDegree(nodes, m)
  {
    if more == [] {
      assert nodes + more == nodes;
    } else {
      var k := |more| - 1;
      assert (nodes + more)[..|nodes| + k] == nodes + more[..k];
      InDegreeFree(nodes, more[..k], m);
    }
  }

  lemma {:induction false} EdgeCounts(nodes: seq<BddNode>, i: nat, m: int)
    requires i < |nodes|
    ensures Edges(nodes[i], m) <= InDegree(nodes, m)
  {
    var k := |nodes| - 1;
    if i < k {
      EdgeCounts(nodes[..k], i, m);
    }
  }

  /** Conservation: every allocated node's count is its external references plus its
      allocated parents, unless it is stuck at MAXREF. */
  ghost predicate Conserved(nodes: seq<BddNode>, ext: seq<nat>) {
    && 2 <= |nodes| == |ext|
    && nodes[0].refcount == nodes[1].refcount == MAXREF
    && (forall m :: 2 <= m < |nodes| && nodes[m].low == -1 ==> nodes[m].refcount == 0 && ext[m] == 0)
    && (forall m {:trigger InDegree(nodes, m)} :: Live(nodes, m) ==> CountOk(nodes, ext, m))
  }

  ghost predicate CountOk(nodes: seq<BddNode>, ext: seq<nat>, m: int)
    requires 2 <= m < |nodes| == |ext|
  {
    nodes[m].refcount == MAXREF || (nodes[m].refcount < MAXREF && nodes[m].refcount == ext[m] + InDegree(nodes, m))
  }
}
