/** The BuDDy node table: one growable array whose entries serve at once as diagram
    nodes, as hash buckets (field `hash`) and as cells of singly linked lists (field
    `next`).  The hash chains, the free list and the temporary lists of a reordering
    step all run through the same `next` fields. */
module NodeTable {

  const MAXREF: nat := 0x3FF

  datatype BddNode = BddNode(refcount: nat, level: nat, low: int, high: int, hash: nat, next: nat)

  /** An allocated internal node; `low == -1` marks a free entry. */
  predicate Live(nodes: seq<BddNode>, i: int) {
    2 <= i < |nodes| && nodes[i].low != -1
  }

  /** The list an entry is linked into.  `Work` and `Rest` are the temporary lists of
      a traversal, `Loose` entries are in no list. */
  datatype Owner = Bucket(b: nat) | Free | Work | Rest | Loose

  /** Ghost description of the lists: the list of every entry and its distance from
      the end of that list. */
  datatype Links = Links(owner: seq<Owner>, pos: seq<nat>)

  /** The `next` field of entry i leads to the entry one closer to the end. */
  ghost predicate LinkAt(nodes: seq<BddNode>, L: Links, i: int)
    requires 2 <= i < |nodes| == |L.owner| == |L.pos|
  {
    L.owner[i] != Loose ==>
      if L.pos[i] == 0 then nodes[i].next == 0
      else
        var x := nodes[i].next;
        2 <= x < |nodes| && L.owner[x] == L.owner[i] && L.pos[x] == L.pos[i] - 1
  }

  /** h is the head of list o: 0 exactly for the empty list, otherwise the entry
      furthest from the end. */
  ghost predicate HeadOk(L: Links, o: Owner, h: int)
    requires |L.owner| == |L.pos|
  {
    && (h == 0 || (2 <= h < |L.owner| && L.owner[h] == o))
    && (forall i :: 2 <= i < |L.owner| && L.owner[i] == o ==> h != 0 && L.pos[i] <= L.pos[h])
  }

  /** No two entries of a list have the same distance from its end. */
  ghost predicate DistinctPos(L: Links) {
    && |L.owner| == |L.pos|
    && forall i, j :: 2 <= i < j < |L.owner| && L.owner[i] == L.owner[j] != Loose ==> L.pos[i] != L.pos[j]
  }

  /** The lists of a table, which has at least one entry besides the terminals. */
  ghost predicate Linked(nodes: seq<BddNode>, L: Links) {
    && 3 <= |nodes| == |L.owner| == |L.pos|
    && (forall i {:trigger LinkAt(nodes, L, i)} :: 2 <= i < |nodes| ==> LinkAt(nodes, L, i))
    && DistinctPos(L)
    && (forall b :: 0 <= b < |nodes| ==> HeadOk(L, Bucket(b), nodes[b].hash))
    && (forall i :: 2 <= i < |nodes| && L.owner[i].Bucket? ==> L.owner[i].b < |nodes|)
  }

  /** The identifiers met by following `next` from h. */
  ghost function Walk(nodes: seq<BddNode>, L: Links, h: int): (w: seq<int>)
    requires Linked(nodes, L)
    requires h == 0 || (2 <= h < |nodes| && L.owner[h] != Loose)
    decreases if h == 0 then 0 else L.pos[h] + 1
  {
    if h == 0 then []
    else assert LinkAt(nodes, L, h); [h] + Walk(nodes, L, nodes[h].next)
  }

  /** What the ghost description means: following `next` from a list's head meets
      exactly the entries of that list, each once. */
  lemma {:induction false} WalkMeetsList(nodes: seq<BddNode>, L: Links, o: Owner, h: int)
    requires Linked(nodes, L) && o != Loose
    requires h == 0 || (2 <= h < |nodes| && L.owner[h] == o)
    ensures |Walk(nodes, L, h)| == if h == 0 then 0 else L.pos[h] + 1
    ensures forall x :: x in Walk(nodes, L, h) <==>
              2 <= x < |nodes| && L.owner[x] == o && h != 0 && L.pos[x] <= L.pos[h]
    ensures forall i, j :: 0 <= i < j < |Walk(nodes, L, h)| ==> Walk(nodes, L, h)[i] != Walk(nodes, L, h)[j]
    decreases if h == 0 then 0 else L.pos[h] + 1
  {
    if h != 0 {
      assert LinkAt(nodes, L, h);
      var t := nodes[h].next;
      WalkMeetsList(nodes, L, o, t);
      var w := Walk(nodes, L, t);
      assert Walk(nodes, L, h) == [h] + w;
      assert h !in w;
    }
  }

  /** Pushing a loose entry onto the bucket b. */
  function PushBucket(nodes: seq<BddNode>, i: int, b: nat): (r: seq<BddNode>)
    requires 2 <= i < |nodes| && b < |nodes|
    ensures |r| == |nodes|
  {
    var n1 := nodes[i := nodes[i].(next := nodes[b].hash)];
    n1[b := n1[b].(hash := i)]
  }

  ghost function Pushed(L: Links, i: int, o: Owner, h: int): Links
    requires |L.owner| == |L.pos| && 2 <= i < |L.owner| && 0 <= h < |L.owner|
  {
    Links(L.owner[i := o], L.pos[i := if h == 0 then 0 else L.pos[h] + 1])
  }

  lemma PushDistinct(L: Links, i: int, o: Owner, h: int)
    requires DistinctPos(L) && 2 <= i < |L.owner| && 0 <= h < |L.owner| && o != Loose && HeadOk(L, o, h)
    ensures DistinctPos(Pushed(L, i, o, h))
  {
  }

  lemma PushHeads(L: Links, i: int, o: Owner, h: int)
    requires |L.owner| == |L.pos| && 2 <= i < |L.owner| && L.owner[i] == Loose && o != Loose && HeadOk(L, o, h)
    ensures 0 <= h < |L.owner| && HeadOk(Pushed(L, i, o, h), o, i)
    ensures forall p: Owner, g :: p != o && p != Loose && HeadOk(L, p, g) ==> HeadOk(Pushed(L, i, o, h), p, g)
  {
  }

  lemma PushBucketLinked(nodes: seq<BddNode>, L: Links, i: int, b: nat)
    requires Linked(nodes, L) && 2 <= i < |nodes| && b < |nodes| && L.owner[i] == Loose
    ensures Linked(PushBucket(nodes, i, b), Pushed(L, i, Bucket(b), nodes[b].hash))
    ensures forall o: Owner, h :: !o.Bucket? && o != Loose && HeadOk(L, o, h) ==> HeadOk(Pushed(L, i, Bucket(b), nodes[b].hash), o, h)
  {
    hide DistinctPos;
    assert HeadOk(L, Bucket(b), nodes[b].hash);
    PushDistinct(L, i, Bucket(b), nodes[b].hash);
    PushHeads(L, i, Bucket(b), nodes[b].hash);
    var nodes' := PushBucket(nodes, i, b);
    var L' := Pushed(L, i, Bucket(b), nodes[b].hash);
    forall j | 2 <= j < |nodes'| ensures LinkAt(nodes', L', j) {
      assert LinkAt(nodes, L, j);
    }
    forall c | 0 <= c < |nodes'| ensures HeadOk(L', Bucket(c), nodes'[c].hash) {
      assert HeadOk(L, Bucket(c), nodes[c].hash);
    }
  }

  /** Pushing a loose entry onto a list whose head is kept in a variable. */
  lemma PushLinked(nodes: seq<BddNode>, L: Links, i: int, o: Owner, h: int)
    requires Linked(nodes, L) && 2 <= i < |nodes| && L.owner[i] == Loose
    requires o in {Free, Work, Rest} && HeadOk(L, o, h)
    ensures var L' := Pushed(L, i, o, h);
            && Linked(nodes[i := nodes[i].(next := h)], L')
            && HeadOk(L', o, i)
            && forall p: Owner, g :: p != o && p != Loose && HeadOk(L, p, g) ==> HeadOk(L', p, g)
  {
    hide DistinctPos;
    PushDistinct(L, i, o, h);
    var nodes' := nodes[i := nodes[i].(next := h)];
    var L' := Pushed(L, i, o, h);
    forall j | 2 <= j < |nodes'| ensures LinkAt(nodes', L', j) {
      assert LinkAt(nodes, L, j);
    }
    PushHeads(L, i, o, h);
    hide HeadOk;
    forall c | 0 <= c < |nodes'| ensures HeadOk(L', Bucket(c), nodes'[c].hash) {
      assert HeadOk(L, Bucket(c), nodes[c].hash);
    }
  }

  lemma PopDistinct(L: Links, h: int)
    requires DistinctPos(L) && 2 <= h < |L.owner|
    ensures DistinctPos(L.(owner := L.owner[h := Loose]))
  {
  }

  lemma HeadIsAlone(L: Links, o: Owner, h: int)
    requires DistinctPos(L) && HeadOk(L, o, h) && h != 0 && o != Loose
    ensures forall i :: 2 <= i < |L.owner| && i != h && L.owner[i] == o ==> L.pos[i] < L.pos[h]
  {
  }

  /** Taking the head off a list whose head is kept in a variable. */
  lemma PopLinked(nodes: seq<BddNode>, L: Links, o: Owner, h: int)
    requires Linked(nodes, L) && o in {Free, Work, Rest} && HeadOk(L, o, h) && h != 0
    ensures var L' := L.(owner := L.owner[h := Loose]);
            && Linked(nodes, L')
            && HeadOk(L', o, nodes[h].next)
            && (nodes[h].next == 0 <==> L.pos[h] == 0)
            && (nodes[h].next != 0 ==> L.pos[nodes[h].next] == L.pos[h] - 1)
            && forall p: Owner, g :: p != o && p != Loose && HeadOk(L, p, g) ==> HeadOk(L', p, g)
  {
    hide DistinctPos;
    assert LinkAt(nodes, L, h);
    PopDistinct(L, h);
    HeadIsAlone(L, o, h);
    var L' := L.(owner := L.owner[h := Loose]);
    forall j | 2 <= j < |nodes| ensures LinkAt(nodes, L', j) {
      assert LinkAt(nodes, L, j);
    }
    forall c | 0 <= c < |nodes| ensures HeadOk(L', Bucket(c), nodes[c].hash) {
      assert HeadOk(L, Bucket(c), nodes[c].hash);
    }
  }

  /** All entries of bucket b have moved to the list `Rest`. */
  ghost predicate Renamed(L: Links, L': Links, b: nat) {
    && L'.pos == L.pos && |L'.owner| == |L.owner|
    && forall j :: 0 <= j < |L.owner| ==> L'.owner[j] == if L.owner[j] == Bucket(b) then Rest else L.owner[j]
  }

  lemma Rename(L: Links, b: nat) returns (L': Links)
    ensures Renamed(L, L', b)
  {
    L' := L.(owner := seq(|L.owner|, j requires 0 <= j < |L.owner| => if L.owner[j] == Bucket(b) then Rest else L.owner[j]));
  }

  lemma RenameDistinct(L: Links, L': Links, b: nat)
    requires DistinctPos(L) && Renamed(L, L', b) && HeadOk(L, Rest, 0)
    ensures DistinctPos(L')
  {
  }

  /** Detaching the whole chain of bucket b as the list `Rest`. */
  lemma DetachLinked(nodes: seq<BddNode>, L: Links, L': Links, b: nat)
    requires Linked(nodes, L) && b < |nodes| && Renamed(L, L', b)
    requires HeadOk(L, Rest, 0)
    ensures var nodes' := nodes[b := nodes[b].(hash := 0)];
            && Linked(nodes', L')
            && HeadOk(L', Rest, nodes[b].hash)
            && forall p: Owner, g :: p in {Free, Work} && HeadOk(L, p, g) ==> HeadOk(L', p, g)
  {
    hide DistinctPos;
    RenameDistinct(L, L', b);
    var nodes' := nodes[b := nodes[b].(hash := 0)];
    assert HeadOk(L, Bucket(b), nodes[b].hash);
    forall j | 2 <= j < |nodes| ensures LinkAt(nodes', L', j) {
      assert LinkAt(nodes, L, j);
    }
    forall c | 0 <= c < |nodes| ensures HeadOk(L', Bucket(c), nodes'[c].hash) {
      assert HeadOk(L, Bucket(c), nodes[c].hash);
    }
  }

  /** Changing fields other than `hash` and `next`, or a free bucket list, keeps the lists. */
  lemma SameLinks(nodes: seq<BddNode>, nodes': seq<BddNode>, L: Links)
    requires Linked(nodes, L) && |nodes'| == |nodes|
    requires forall i :: 0 <= i < |nodes| ==> nodes'[i].hash == nodes[i].hash && nodes'[i].next == nodes[i].next
    ensures Linked(nodes', L)
  {
    forall j | 2 <= j < |nodes| ensures LinkAt(nodes', L, j) {
      assert LinkAt(nodes, L, j);
    }
    forall c | 0 <= c < |nodes| ensures HeadOk(L, Bucket(c), nodes'[c].hash) {
      assert HeadOk(L, Bucket(c), nodes[c].hash);
    }
  }

  /** The number of entries of a list is one more than the position of its head. */
  lemma {:induction false} ListSize(nodes: seq<BddNode>, L: Links, o: Owner, h: int)
    requires Linked(nodes, L) && o != Loose && HeadOk(L, o, h)
    ensures |set x | 2 <= x < |nodes| && L.owner[x] == o| == if h == 0 then 0 else L.pos[h] + 1
  {
    WalkMeetsList(nodes, L, o, h);
    var w := Walk(nodes, L, h);
    DistinctSeqSize(w);
    assert (set x | x in w) == (set x | 2 <= x < |nodes| && L.owner[x] == o);
  }

  lemma {:induction false} DistinctSeqSize(w: seq<int>)
    requires forall i, j :: 0 <= i < j < |w| ==> w[i] != w[j]
    ensures |set x | x in w| == |w|
  {
    if w != [] {
      var v := w[..|w|-1];
      DistinctSeqSize(v);
      assert w == v + [w[|w|-1]];
      assert (set x | x in w) == (set x | x in v) + {w[|w|-1]};
    }
  }

  // ---- growing the table ------------------------------------------------------------

  /** The lists after appending free entries, each linked to the next and the last one to
      the old free list. */
  ghost predicate GrownLinks(L: Links, L': Links, n: nat, freepos: nat) {
    && |L.owner| == |L.pos| <= n == |L'.owner| == |L'.pos| && freepos < |L.pos|
    && (forall i :: 0 <= i < |L.owner| ==> L'.owner[i] == L.owner[i] && L'.pos[i] == L.pos[i])
    && (forall i :: |L.owner| <= i < n ==>
          L'.owner[i] == Free && L'.pos[i] == (if freepos == 0 then 0 else L.pos[freepos] + 1) + (n - 1 - i))
  }

  lemma GrownLinksExist(L: Links, n: nat, freepos: nat) returns (L': Links)
    requires |L.owner| == |L.pos| <= n && freepos < |L.pos|
    ensures GrownLinks(L, L', n, freepos)
  {
    var m := |L.owner|;
    var k := if freepos == 0 then 0 else L.pos[freepos] + 1;
    L' := Links(L.owner + seq(n - m, j => Free), L.pos + seq(n - m, j requires 0 <= j < n - m => k + (n - m - 1 - j)));
  }

  lemma GrowDistinct(L: Links, L': Links, n: nat, freepos: nat)
    requires DistinctPos(L) && HeadOk(L, Free, freepos) && GrownLinks(L, L', n, freepos)
    ensures DistinctPos(L')
  {
    forall i, j | 2 <= i < j < n && L'.owner[i] == L'.owner[j] != Loose ensures L'.pos[i] != L'.pos[j] {
      if L'.owner[i] == Free && i < |L.owner| {
        assert L.pos[i] <= L.pos[freepos];
      }
    }
  }

  lemma GrowLinked(nodes: seq<BddNode>, nodes': seq<BddNode>, L: Links, L': Links, freepos: nat)
    requires Linked(nodes, L) && HeadOk(L, Free, freepos) && GrownLinks(L, L', |nodes'|, freepos)
    requires |nodes'| > |nodes| && forall i :: 0 <= i < |nodes| ==> nodes'[i] == nodes[i]
    requires forall i :: |nodes| <= i < |nodes'| ==>
               nodes'[i].hash == 0 && nodes'[i].next == if i == |nodes'| - 1 then freepos else i + 1
    ensures Linked(nodes', L') && HeadOk(L', Free, |nodes|)
    ensures forall o: Owner, h :: o in {Work, Rest} && HeadOk(L, o, h) ==> HeadOk(L', o, h)
  {
    hide DistinctPos;
    forall j | 2 <= j < |nodes'| ensures LinkAt(nodes', L', j) {
      if j < |nodes| {
        assert LinkAt(nodes, L, j);
      }
    }
    GrowDistinct(L, L', |nodes'|, freepos);
    forall c | 0 <= c < |nodes'| ensures HeadOk(L', Bucket(c), nodes'[c].hash) {
      if c < |nodes| {
        assert HeadOk(L, Bucket(c), nodes[c].hash);
      }
    }
  }

  // ---- hashing, the free list, and starting afresh ----------------------------------

  const WORD: nat := 0x1_0000_0000

  /** PAIR, in 32-bit unsigned arithmetic. */
  function PairHash(a: int, b: int): nat {
    var s := (a + b) % WORD;
    ((s * ((s + 1) % WORD)) % WORD / 2 + a % WORD) % WORD
  }

  lemma PairParts(a: int, b: int, s: nat, t: nat, c: nat)
    requires (a + b) % WORD == s && (s + 1) % WORD == t && a % WORD == c
    ensures PairHash(a, b) == (s * t % WORD / 2 + c) % WORD
  {
  }

  lemma Wraps(x: nat)
    requires x < 0x1_0000_0000
    ensures x % WORD == (x - 0x1_0000_0000) % WORD == x
  {
  }

  /** Both unsigned sums and the product wrap around at 2^32. */
  lemma PairHashIs(a: nat, b: nat)
    requires a + b + 1 < 0x1_0000_0000
    ensures PairHash(a, b) == ((a + b) * (a + b + 1) % 0x1_0000_0000 / 2 + a) % 0x1_0000_0000
    ensures PairHash(a - 0x1_0000_0000, b) == PairHash(a, b) == PairHash(a, b - 0x1_0000_0000)
  {
    hide PairHash;
    Wraps(a + b);
    Wraps(a + b + 1);
    Wraps(a);
    PairParts(a, b, a + b, a + b + 1, a);
    PairParts(a - 0x1_0000_0000, b, a + b, a + b + 1, a);
    PairParts(a, b - 0x1_0000_0000, a + b, a + b + 1, a);
  }

  /** As long as nothing wraps around the pair can be told from its number. */
  lemma PairHashDiffers(a: nat, b: nat, c: nat, d: nat)
    requires (a + b) * (a + b + 1) < 0x1_0000_0000 && (c + d) * (c + d + 1) < 0x1_0000_0000
    ensures PairHash(a, b) == PairHash(c, d) <==> a == c && b == d
  {
    SmallPair(a, b);
    SmallPair(c, d);
    if a + b < c + d { PairsApart(a + b, c + d); }
    if c + d < a + b { PairsApart(c + d, a + b); }
  }

  lemma SmallPair(a: nat, b: nat)
    requires (a + b) * (a + b + 1) < 0x1_0000_0000
    ensures 2 * PairHash(a, b) == (a + b) * (a + b + 1) + 2 * a
  {
    hide PairHash;
    var s := a + b;
    var p := s * (s + 1);
    if s >= 0x1_0000 { Products(0x1_0000, s); }
    PairHashIs(a, b);
    Even(s);
    HalfSum(p, a);
  }

  lemma HalfSum(p: nat, a: nat)
    requires p < 0x1_0000_0000 && p % 2 == 0 && a < 0x1_0000
    ensures 2 * ((p % 0x1_0000_0000 / 2 + a) % 0x1_0000_0000) == p + 2 * a
  {
  }

  lemma {:induction false} Even(s: nat)
    ensures s * (s + 1) % 2 == 0
  {
    if s > 0 {
      Even(s - 1);
      assert s * (s + 1) == (s - 1) * s + 2 * s;
    }
  }

  lemma PairsApart(s: nat, t: nat)
    requires s < t
    ensures s * (s + 1) + 2 * s < t * (t + 1)
  {
    assert (s + 1) * (s + 2) == s * (s + 1) + 2 * s + 2;
    Products(s + 1, t);
  }

  lemma Products(s: nat, t: nat)
    requires s <= t
    ensures s * (s + 1) <= t * (t + 1)
  {
    assert t * (t + 1) == s * (s + 1) + (t - s) * (t + s + 1);
  }

  ghost predicate FreeOk(L: Links, freepos: nat, freenum: int)
    requires |L.owner| == |L.pos|
  {
    && HeadOk(L, Free, freepos)
    && freenum == if freepos == 0 then 0 else L.pos[freepos] + 1
  }

  lemma BucketHead(nodes: seq<BddNode>, L: Links, b: nat)
    requires Linked(nodes, L) && b < |nodes|
    ensures |L.owner| == |L.pos| == |nodes| && 0 <= nodes[b].hash < |nodes|
  {
    assert HeadOk(L, Bucket(b), nodes[b].hash);
  }

  lemma HeadRange(L: Links, o: Owner, h: int)
    requires |L.owner| == |L.pos| && HeadOk(L, o, h)
    ensures h == 0 || (2 <= h < |L.owner| && L.owner[h] == o)
  {
  }

  lemma LinkedSizes(nodes: seq<BddNode>, L: Links)
    requires Linked(nodes, L)
    ensures 3 <= |nodes| == |L.owner| == |L.pos|
  {
  }

  ghost predicate NoBuckets(nodes: seq<BddNode>) {
    forall i :: 0 <= i < |nodes| ==> nodes[i].hash == 0
  }

  ghost predicate AllInNone(nodes: seq<BddNode>, L: Links) {
    |L.owner| == |nodes| && forall i :: 2 <= i < |nodes| ==> L.owner[i] == Loose
  }

  lemma AllLoose(nodes: seq<BddNode>) returns (L: Links)
    requires 3 <= |nodes| && NoBuckets(nodes)
    ensures Linked(nodes, L) && HeadOk(L, Free, 0) && AllInNone(nodes, L) && |L.owner| == |L.pos| == |nodes|
  {
    L := Links(seq(|nodes|, i => Loose), seq(|nodes|, i => 0));
    forall j | 2 <= j < |nodes| ensures LinkAt(nodes, L, j) {
    }
  }

  // ---- the new entries of bdd_noderesize --------------------------------------------

  /** What bdd_noderesize leaves in the table, before any rehashing: entries are cut off or added,
      the new ones are linked to the next, and the last entry, new or not, to the old free list. */
  ghost predicate Resized(nodes: seq<BddNode>, resized: seq<BddNode>, newsize: nat, freepos: nat) {
    |resized| == newsize && forall i :: 0 <= i < newsize ==> ResizedAt(nodes, resized, newsize, freepos, i)
  }

  ghost predicate ResizedAt(nodes: seq<BddNode>, resized: seq<BddNode>, newsize: nat, freepos: nat, i: int)
    requires 0 <= i < newsize == |resized|
  {
    if i < |nodes| then resized[i] == nodes[i].(next := if i == newsize - 1 then freepos else nodes[i].next)
    else
      && resized[i].low == -1 && resized[i].refcount == 0 && resized[i].hash == 0 && resized[i].level == 0
      && resized[i].next == if i == newsize - 1 then freepos else i + 1
  }

  method AppendFree(nodes: seq<BddNode>, newsize: nat, freepos: nat) returns (resized: seq<BddNode>)
    requires newsize > 0
    ensures Resized(nodes, resized, newsize, freepos)
    ensures |nodes| < newsize ==> resized[..|nodes|] == nodes
  {
    resized := if newsize < |nodes| then nodes[..newsize] else nodes;
    var n := |nodes|;
    while n < newsize
      invariant |nodes| <= n && |resized| == if n > newsize then newsize else n
      invariant forall i :: 0 <= i < |nodes| && i < newsize ==> resized[i] == nodes[i]
      invariant forall i :: |nodes| <= i < n && i < newsize ==>
                  && resized[i].low == -1 && resized[i].refcount == 0 && resized[i].hash == 0 && resized[i].level == 0
                  && resized[i].next == i + 1
    {
      var uninitialised: int := *;
      resized := resized + [BddNode(0, 0, -1, uninitialised, 0, n + 1)];
      n := n + 1;
    }
    resized := resized[newsize - 1 := resized[newsize - 1].(next := freepos)];
  }

  lemma ResizedGrown(nodes: seq<BddNode>, resized: seq<BddNode>, newsize: nat, freepos: nat)
    requires Resized(nodes, resized, newsize, freepos) && |nodes| < newsize
    ensures forall i :: 0 <= i < |nodes| ==> resized[i] == nodes[i]
    ensures forall i :: |nodes| <= i < newsize ==>
              && resized[i].low == -1 && resized[i].refcount == 0 && resized[i].hash == 0 && resized[i].level == 0
              && resized[i].next == if i == newsize - 1 then freepos else i + 1
  {
    forall i | 0 <= i < |nodes| ensures resized[i] == nodes[i] {
      assert ResizedAt(nodes, resized, newsize, freepos, i);
    }
    forall i | |nodes| <= i < newsize
      ensures && resized[i].low == -1 && resized[i].refcount == 0 && resized[i].hash == 0 && resized[i].level == 0
              && resized[i].next == if i == newsize - 1 then freepos else i + 1
    {
      assert ResizedAt(nodes, resized, newsize, freepos, i);
    }
  }

  /** Without rehashing the lists are right afterwards if and only if the table has grown: the free
      list is said to begin at the old size, which is no entry otherwise. */
  lemma ResizedLinkedIff(nodes: seq<BddNode>, L: Links, resized: seq<BddNode>, newsize: nat, freepos: nat, freenum: int)
    requires Linked(nodes, L) && FreeOk(L, freepos, freenum) && Resized(nodes, resized, newsize, freepos)
    ensures (exists L' :: Linked(resized, L') && FreeOk(L', |nodes|, freenum + newsize - |nodes|)) <==> newsize > |nodes|
  {
    hide DistinctPos;
    if newsize > |nodes| {
      ResizedGrown(nodes, resized, newsize, freepos);
      var L' := GrownLinksExist(L, newsize, freepos);
      GrowLinked(nodes, resized, L, L', freepos);
    }
  }

  /** Nodes 4, 3 and 2 in the chain of bucket 2. */
  ghost function FiveEntries(next: nat): (r: seq<BddNode>)
    ensures |r| == 5
  {
    [BddNode(MAXREF, 2, 0, 0, 0, 0), BddNode(MAXREF, 2, 1, 1, 0, 0),
     BddNode(1, 1, 0, 1, 4, 0), BddNode(1, 1, 1, 0, 0, 2), BddNode(1, 0, 2, 3, 0, next)]
  }

  ghost function FiveLinks(): Links {
    Links([Loose, Loose, Bucket(2), Bucket(2), Bucket(2)], [0, 0, 0, 1, 2])
  }

  lemma FiveLinked()
    ensures Linked(FiveEntries(3), FiveLinks()) && FreeOk(FiveLinks(), 0, 0) && FiveLinks().owner[3] == Bucket(2)
  {
    hide DistinctPos, ResizedAt;
    FiveDistinct();
    var t, L := FiveEntries(3), FiveLinks();
    forall i | 2 <= i < 5 ensures LinkAt(t, L, i) {
    }
    forall b | 0 <= b < 5 ensures HeadOk(L, Bucket(b), t[b].hash) {
    }
  }

  lemma FiveDistinct()
    ensures DistinctPos(FiveLinks())
  {
  }

  lemma FiveResized()
    ensures Resized(FiveEntries(3), FiveEntries(0), 5, 0)
  {
    forall i | 0 <= i < 5 ensures ResizedAt(FiveEntries(3), FiveEntries(0), 5, 0, i) {
    }
  }

  /** A full table of five entries whose last entry is the head of a chain: when its size stays,
      the chain is cut, and node 3 is in no bucket any more. */
  lemma ChainIsCut(L: Links)
    requires Linked(FiveEntries(0), L)
    ensures Linked(FiveEntries(3), FiveLinks()) && FreeOk(FiveLinks(), 0, 0) && FiveLinks().owner[3] == Bucket(2)
    ensures Resized(FiveEntries(3), FiveEntries(0), 5, 0)
    ensures !L.owner[3].Bucket? && !FreeOk(L, 5, 0)
  {
    FiveLinked();
    FiveResized();
    var r := FiveEntries(0);
    assert LinkAt(r, L, 4);
    assert forall b :: 0 <= b < 5 ==> HeadOk(L, Bucket(b), r[b].hash);
  }
}
