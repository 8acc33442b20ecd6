/** Substitution tables: their numbers, under which bdd_replace caches results, and what setting and
    resetting a table does to the cache. */
module Pairs {
  import opened NodeTable
  import opened Diagram
  import opened RefCount
  import opened KernelTheory
  import opened Startup
  import opened BddKernel
  import opened Operators
  import opened Renaming
  import opened Replace
  import opened ReorderStart

  /** INT_MAX >> 2, where the numbers start again. */
  const LAST_ID: nat := 0x1FFF_FFFF

  /** The order and the variables' nodes. */
  ghost predicate Ordering(nodes: seq<BddNode>, varset: seq<int>, n: nat, var2level: seq<nat>, level2var: seq<nat>) {
    && OrderOf(var2level, level2var, n)
    && forall v :: 0 <= v < n ==> VariableAt(nodes, varset, v, var2level[v])
  }

  ghost predicate VariableAt(nodes: seq<BddNode>, varset: seq<int>, v: nat, l: nat) {
    2 * v < |varset| && Lasting(nodes, varset[2 * v], l, 0, 1)
  }

  /** The diagrams of the table are the variables that `to` says, and the identity beyond last. */
  ghost predicate Holds(nodes: seq<BddNode>, n: nat, result: seq<int>, last: int, to: seq<nat>) {
    |result| == |to| == n && last < n && forall l :: 0 <= l < n ==> HoldsAt(nodes, n, result, last, to, l)
  }

  ghost predicate HoldsAt(nodes: seq<BddNode>, n: nat, result: seq<int>, last: int, to: seq<nat>, l: nat)
    requires l < |result| == |to|
  {
    to[l] < n && Lasting(nodes, result[l], to[l], 0, 1) && (l > last ==> to[l] == l)
  }

  function Identity(n: nat): (t: seq<nat>)
    ensures |t| == n && forall l :: 0 <= l < n ==> t[l] == l
  {
    seq(n, l requires 0 <= l => l)
  }

  /** The table `to` with the level of variable v replaced by the one of variable w. */
  function Redirected(to: seq<nat>, var2level: seq<nat>, v: int, w: int): (t: seq<nat>)
  {
    if 0 <= v < |var2level| && 0 <= w < |var2level| && var2level[v] < |to| then to[var2level[v] := var2level[w]] else to
  }

  /** Only numbers differ. */
  ghost predicate SameTables(a: seq<Pair>, b: seq<Pair>) {
    |a| == |b| && forall i :: 0 <= i < |a| ==> b[i] == a[i].(id := b[i].id)
  }

  /** Different tables have different numbers, and none is larger than the counter. */
  ghost predicate Numbered(pairs: seq<Pair>, pairsid: nat, tables: map<int, Meaning>) {
    && pairsid < LAST_ID && |pairs| < LAST_ID
    && (forall c :: c in tables ==> 0 <= c <= 4 * pairsid)
    && (forall i :: 0 <= i < |pairs| ==> pairs[i].id <= pairsid)
    && (forall i, j :: 0 <= i < j < |pairs| ==> pairs[i].id != pairs[j].id)
  }

  /** Every table's number stands for what the table means. */
  ghost predicate Meant(pairs: seq<Pair>, to: seq<seq<nat>>, tables: map<int, Meaning>) {
    |to| == |pairs| && forall i :: 0 <= i < |pairs| ==> MeantAt(pairs[i], to[i], tables)
  }

  ghost predicate MeantAt(p: Pair, to: seq<nat>, tables: map<int, Meaning>) {
    ReplaceId(p) in tables && tables[ReplaceId(p)] == Meaning(to, p.last)
  }

  ghost predicate AllHold(nodes: seq<BddNode>, n: nat, pairs: seq<Pair>, to: seq<seq<nat>>) {
    |to| == |pairs| && forall i :: 0 <= i < |pairs| ==> Holds(nodes, n, pairs[i].result, pairs[i].last, to[i])
  }

  class PairList {
    var pairsid: nat
    /** The tables in use, in the order of their registration. */
    var pairs: seq<Pair>

    /** What the tables mean: for each the level that replaces each level. */
    ghost var to: seq<seq<nat>>
    /** The meaning of every number that has been given out since the numbers last started. */
    ghost var tables: map<int, Meaning>

    /** Every cached result is right for the number it is cached under, and every table's number stands
        for what the table means. */
    ghost predicate Valid(k: Kernel, var2level: seq<nat>, level2var: seq<nat>)
      reads this, k
    {
      && Numbered(pairs, pairsid, tables) && Meant(pairs, to, tables) && Ready(k, tables)
      && Ordering(k.nodes, k.varset, k.varnum, var2level, level2var) && AllHold(k.nodes, k.varnum, pairs, to)
    }

    /** The tables in use get the first numbers. */
    method Renumber()
      requires |to| == |pairs| < LAST_ID
      modifies this`pairsid, this`tables, this`pairs
      ensures Numbered(pairs, pairsid, tables) && Meant(pairs, to, tables) && SameTables(old(pairs), pairs)
      ensures pairsid == |pairs| && forall i :: 0 <= i < |pairs| ==> pairs[i].id == i
      ensures 4 * pairsid !in tables
    {
      pairsid := 0;
      tables := map[];
      var i := 0;
      while i < |pairs|
        invariant i <= |pairs| && pairsid == i && SameTables(old(pairs), pairs)
        invariant forall j :: 0 <= j < i ==> pairs[j].id == j && MeantAt(pairs[j], to[j], tables)
        invariant forall c :: c in tables ==> 0 <= c < 4 * i
      {
        pairs := pairs[i := pairs[i].(id := pairsid)];
        tables := tables[ReplaceId(pairs[i]) := Meaning(to[i], pairs[i].last)];
        pairsid := pairsid + 1;
        i := i + 1;
      }
    }

    /** update_pairsid: a number that nothing is cached under.  When the numbers are used up all
        tables in use are numbered again, and the caches are emptied. */
    method UpdatePairsid(k: Kernel) returns (id: nat)
      requires Numbered(pairs, pairsid, tables) && |to| == |pairs| && Ready(k, tables)
      modifies this`pairsid, this`tables, this`pairs, k`misccache, k`replacecache
      ensures Numbered(pairs, pairsid, tables) && SameTables(old(pairs), pairs) && Ready(k, tables)
      ensures if old(pairsid) + 1 == 0x1FFF_FFFF then id == |pairs| && k.CachesEmpty() && forall i :: 0 <= i < |pairs| ==> pairs[i].id == i
              else id == old(pairsid) + 1 && pairs == old(pairs) && k.misccache == old(k.misccache) && k.replacecache == old(k.replacecache)
      ensures id == pairsid && 4 * id !in tables && forall i :: 0 <= i < |pairs| ==> pairs[i].id < id
      ensures forall i :: 0 <= i < |pairs| && MeantAt(old(pairs)[i], to[i], old(tables)) ==> MeantAt(pairs[i], to[i], tables)
    {
      hide Graph, Lists, CacheTrue;
      pairsid := pairsid + 1;
      if pairsid == LAST_ID {
        CacheSize(k.nodes, Levels(k.varnum), k.replacecache, tables);
        GraphParts(k.nodes, k.varnum);
        Renumber();
        k.OperatorReset();
        EmptyIsTrue(k.nodes, Levels(k.varnum), k.replacecache, tables);
      }
      id := pairsid;
    }

    /** bdd_newpair: a table that means no change. */
    method NewPair(k: Kernel, var2level: seq<nat>, level2var: seq<nat>) returns (p: nat)
      requires Valid(k, var2level, level2var) && |pairs| + 1 < LAST_ID
      modifies this, k`misccache, k`replacecache
      ensures Valid(k, var2level, level2var) && p == |old(pairs)| && |pairs| == p + 1 == |to| && to == old(to) + [Identity(k.varnum)]
    {
      hide Ready, Ordering, Lasting, Holds;
      var result := [];
      var i := 0;
      while i < k.varnum
        invariant i <= k.varnum && |result| == i
        invariant forall l :: 0 <= l < i ==> Lasting(k.nodes, result[l], l, 0, 1)
        modifies {}
      {
        LevelsVariable(k.nodes, k.varset, k.varnum, var2level, level2var, i);
        result := result + [k.varset[2 * level2var[i]]];
        i := i + 1;
      }
      IdentityHolds(k.nodes, k.varnum, result, -1);
      var id := UpdatePairsid(k);
      p := |pairs|;
      ghost var t := Meaning(Identity(k.varnum), -1);
      FreshNumber(k, tables, 4 * id, t);
      tables := tables[4 * id := t];
      pairs := pairs + [Pair(result, -1, id)];
      to := to + [Identity(k.varnum)];
    }

    /** bdd_setpair: afterwards the table replaces oldvar by newvar, and nothing else has changed.  False
        stands for BDD_VAR. */
    method SetPair(k: Kernel, var2level: seq<nat>, level2var: seq<nat>, p: nat, oldvar: int, newvar: int) returns (ok: bool)
      requires Valid(k, var2level, level2var) && p < |pairs|
      modifies this, k`nodes, k`misccache, k`replacecache
      ensures Valid(k, var2level, level2var) && k.nodes == old(k.nodes) && |pairs| == |old(pairs)| == |to|
      ensures ok <==> 0 <= oldvar < k.varnum && 0 <= newvar < k.varnum
      ensures ok && oldvar < |var2level| ==> var2level[oldvar] <= pairs[p].last
      ensures p < |old(to)| && to == if ok then old(to)[p := Redirected(old(to)[p], var2level, oldvar, newvar)] else old(to)
    {
      hide Ready, Ordering, Lasting, Holds, Numbered, Meant, MeantAt, AllHold, SameTables;
      ghost var pairs0, to0, tables0 := pairs, to, tables;
      if oldvar < 0 || oldvar > k.varnum - 1 || newvar < 0 || newvar > k.varnum - 1 {
        AllSized(k.nodes, k.varnum, pairs, to, p);
        return false;
      }
      VariablesLevel(k.nodes, k.varset, k.varnum, var2level, level2var, oldvar);
      VariablesLevel(k.nodes, k.varset, k.varnum, var2level, level2var, newvar);
      var l := var2level[oldvar];
      AllSized(k.nodes, k.varnum, pairs, to, p);
      HoldsVariable(k.nodes, k.varnum, pairs[p].result, pairs[p].last, to[p], l);
      HoldsSet(k.nodes, k.varnum, pairs[p].result, pairs[p].last, to[p], l, k.varset[2 * newvar], var2level[newvar]);
      DropVariable(k, tables, pairs[p].result[l]);
      pairs := pairs[p := pairs[p].(result := pairs[p].result[l := k.varset[2 * newvar]])];
      to := to[p := to[p][l := var2level[newvar]]];
      SetStays(pairs0, to0, tables, pairsid, p, pairs[p], to[p]);
      ghost var pairs1 := pairs;
      var id := UpdatePairsid(k);
      SameAt(pairs1, pairs, p);
      ghost var pairs2 := pairs;
      pairs := pairs[p := pairs[p].(id := id)];
      if l > pairs[p].last {
        pairs := pairs[p := pairs[p].(last := l)];
      }
      FreshNumber(k, tables, 4 * id, Meaning(to[p], pairs[p].last));
      Entered(k.nodes, k.varnum, pairs0, to0, tables0, pairs1, pairs2, tables, pairsid, p, pairs[p], to[p]);
      tables := tables[4 * id := Meaning(to[p], pairs[p].last)];
      assert pairs == pairs2[p := pairs[p]];
      ok := true;
    }

    /** bdd_replace with a table of the list: the cache and the tables stay right. */
    method Replace(k: Kernel, var2level: seq<nat>, level2var: seq<nat>, p: nat, r: int) returns (st: Status, res: int)
      requires Valid(k, var2level, level2var) && p < |pairs| && |to| == |pairs| && k.refstack == [] && Ref(k.nodes, r) && Held(k, r)
      modifies k`nodes, k`freepos, k`freenum, k`L, k`misccache, k`replacecache, k`refstack
      ensures st == Done ==> Valid(k, var2level, level2var) && k.refstack == [] && Ref(k.nodes, res)
      ensures st == Done ==> ReplacedBy(old(k.nodes), k.nodes, Levels(k.varnum), to[p], r, res)
      ensures st == Done ==> Retains(old(k.nodes), k.nodes, old(k.Roots()))
      ensures st == Done ==> !Clashes(old(k.nodes), Levels(k.varnum), to[p], r)
      ensures st == BadReplace ==> Clashes(old(k.nodes), Levels(k.varnum), to[p], r)
      ensures st == NoRoom ==> NoReplacement(k, old(k.nodes), old(k.Roots()), to[p], r)
      ensures old(RenamingsHeld(k, to[p], r)) ==> st != NoRoom
      ensures st == Done && r >= 2 && old(k.nodes)[r].level <= pairs[p].last ==> Cached(k.replacecache, pairs[p], r, res)
    {
      hide NoReplacement, RenamingsHeld, Ordering, Holds, Numbered, Meant, AllHold, CacheTrue, Graph, Lists, Retains, ReplacedBy, Clashes, Protected, Targets, Levels;
      AllSized(k.nodes, k.varnum, pairs, to, p);
      MeansIt(pairs, to, tables, p);
      TableReady(k, tables, pairs[p], to[p]);
      ghost var n0, M := k.nodes, k.Roots();
      k.RootsClosed();
      GraphParts(n0, k.varnum);
      st, res := ReplaceOp(k, tables, pairs[p], r);
      if st == Done {
        OrderingLater(n0, k.nodes, M, k.varset, k.varnum, var2level, level2var);
        AllHoldLater(n0, k.nodes, M, k.varnum, pairs, to);
      }
    }

    /** bdd_resetpair.  The table is meant to change nothing afterwards, but it keeps its number, and the
        diagrams are those of the variables 0, 1, ... for the levels 0, 1, ...: everything stays right
        if and only if the order is 0, 1, ... and nothing but the argument is cached for a diagram at level
        0 under the table's number. */
    method ResetPair(k: Kernel, var2level: seq<nat>, level2var: seq<nat>, p: nat)
      requires Valid(k, var2level, level2var) && p < |pairs| && k.varnum > 0
      modifies this`pairs, this`to, this`tables
      ensures |pairs| == |old(pairs)| && pairs[p].last == 0 && pairs[p].id == old(pairs)[p].id && pairs == old(pairs)[p := pairs[p]]
      ensures p < |old(to)| && to == old(to)[p := Identity(k.varnum)]
      ensures Valid(k, var2level, level2var) <==> Straight(var2level, k.varnum) && NoneStale(k.nodes, k.replacecache, ReplaceId(pairs[p]))
    {
      hide Ordering, Holds, Numbered, Meant, AllHold, CacheTrue, Graph, Lists, Straight, NoneStale;
      AllSized(k.nodes, k.varnum, pairs, to, p);
      MeansIt(pairs, to, tables, p);
      ghost var pairs0, to0, tables0 := pairs, to, tables;
      var n := 0;
      while n < k.varnum
        invariant n <= k.varnum && |pairs| == |pairs0| && pairs == pairs0[p := pairs0[p].(result := pairs[p].result)] && |pairs[p].result| == k.varnum
        invariant forall v :: 0 <= v < n ==> 2 * v < |k.varset| && pairs[p].result[v] == k.varset[2 * v]
        modifies this`pairs
      {
        VariablesLevel(k.nodes, k.varset, k.varnum, var2level, level2var, n);
        pairs := pairs[p := pairs[p].(result := pairs[p].result[n := k.varset[2 * n]])];
        n := n + 1;
      }
      pairs := pairs[p := pairs[p].(last := 0)];
      to := to[p := Identity(k.varnum)];
      tables := tables[ReplaceId(pairs[p]) := Meaning(Identity(k.varnum), 0)];
      ResetNumbers(pairs0, to0, tables0, pairsid, p, pairs[p], Identity(k.varnum));
      ResetHolds(k.nodes, k.varset, k.varnum, var2level, level2var, pairs0, to0, p, pairs[p]);
      ResetCached(k.nodes, k.varnum, k.replacecache, tables0, ReplaceId(pairs[p]));
    }
  }

  /** The order is that of the variables' numbers. */
  ghost predicate Straight(var2level: seq<nat>, n: nat) {
    n <= |var2level| && forall v :: 0 <= v < n ==> var2level[v] == v
  }

  /** For diagrams at level 0 nothing but the argument is cached under the number. */
  ghost predicate NoneStale(nodes: seq<BddNode>, cache: seq<CacheEntry>, c: int) {
    forall j :: 0 <= j < |cache| && cache[j].a != -1 && cache[j].c == c && 0 <= cache[j].a < |nodes| && nodes[cache[j].a].level == 0 ==>
      cache[j].res == cache[j].a
  }

  lemma MeansIt(pairs: seq<Pair>, to: seq<seq<nat>>, tables: map<int, Meaning>, p: nat)
    requires Meant(pairs, to, tables) && p < |pairs|
    ensures |to| == |pairs| && MeantAt(pairs[p], to[p], tables)
  {
  }

  lemma TableReady(k: Kernel, tables: map<int, Meaning>, p: Pair, to: seq<nat>)
    requires k.Valid() && MeantAt(p, to, tables) && Holds(k.nodes, k.varnum, p.result, p.last, to)
    ensures PairReady(k, tables, p)
  {
    k.RootsClosed();
    forall l | 0 <= l < k.varnum ensures TargetAt(k.nodes, k.varnum, p, to, l) && p.result[l] in k.Roots() && (l > p.last ==> to[l] == l) {
      assert HoldsAt(k.nodes, k.varnum, p.result, p.last, to, l);
    }
  }

  lemma LastingLater(n0: seq<BddNode>, n1: seq<BddNode>, S: set<int>, x: int, l: nat)
    requires Retains(n0, n1, S) && Lasting(n0, x, l, 0, 1) && forall i :: 2 <= i < |n0| && n0[i].refcount > 0 ==> i in S
    ensures Lasting(n1, x, l, 0, 1)
  {
    assert x in S;
  }

  lemma OrderingLater(n0: seq<BddNode>, n1: seq<BddNode>, S: set<int>, varset: seq<int>, n: nat, var2level: seq<nat>, level2var: seq<nat>)
    requires Ordering(n0, varset, n, var2level, level2var) && Retains(n0, n1, S) && forall i :: 2 <= i < |n0| && n0[i].refcount > 0 ==> i in S
    ensures Ordering(n1, varset, n, var2level, level2var)
  {
    hide Retains, Lasting;
    forall v | 0 <= v < n ensures VariableAt(n1, varset, v, var2level[v]) {
      assert VariableAt(n0, varset, v, var2level[v]);
      LastingLater(n0, n1, S, varset[2 * v], var2level[v]);
    }
  }

  lemma AllHoldLater(n0: seq<BddNode>, n1: seq<BddNode>, S: set<int>, n: nat, pairs: seq<Pair>, to: seq<seq<nat>>)
    requires AllHold(n0, n, pairs, to) && Retains(n0, n1, S) && forall i :: 2 <= i < |n0| && n0[i].refcount > 0 ==> i in S
    ensures AllHold(n1, n, pairs, to)
  {
    hide Retains, Lasting;
    forall i | 0 <= i < |pairs| ensures Holds(n1, n, pairs[i].result, pairs[i].last, to[i]) {
      var result, last, t := pairs[i].result, pairs[i].last, to[i];
      forall l | 0 <= l < n ensures HoldsAt(n1, n, result, last, t, l) {
        assert HoldsAt(n0, n, result, last, t, l);
        LastingLater(n0, n1, S, result[l], t[l]);
      }
    }
  }

  lemma ResetNumbers(pairs: seq<Pair>, to: seq<seq<nat>>, tables: map<int, Meaning>, pairsid: nat, p: nat, x: Pair, t: seq<nat>)
    requires Numbered(pairs, pairsid, tables) && Meant(pairs, to, tables) && p < |pairs| && x.id == pairs[p].id
    ensures |to| == |pairs|
    ensures Numbered(pairs[p := x], pairsid, tables[ReplaceId(x) := Meaning(t, x.last)])
    ensures Meant(pairs[p := x], to[p := t], tables[ReplaceId(x) := Meaning(t, x.last)])
  {
    var pairs', to', tables' := pairs[p := x], to[p := t], tables[ReplaceId(x) := Meaning(t, x.last)];
    assert MeantAt(pairs[p], to[p], tables);
    forall i | 0 <= i < |pairs'| ensures MeantAt(pairs'[i], to'[i], tables') {
      assert MeantAt(pairs[i], to[i], tables);
    }
  }

  /** The diagrams are those of no change if and only if the order is that of the numbers. */
  lemma ResetHolds(nodes: seq<BddNode>, varset: seq<int>, n: nat, var2level: seq<nat>, level2var: seq<nat>, pairs: seq<Pair>, to: seq<seq<nat>>,
                   p: nat, x: Pair)
    requires Ordering(nodes, varset, n, var2level, level2var) && AllHold(nodes, n, pairs, to) && p < |pairs| && x.last == 0 < n
    requires |x.result| == n && forall v :: 0 <= v < n ==> 2 * v < |varset| && x.result[v] == varset[2 * v]
    ensures |to| == |pairs| && (AllHold(nodes, n, pairs[p := x], to[p := Identity(n)]) <==> Straight(var2level, n))
  {
    assert n < |var2level|;
    hide OrderOf, Lasting, Holds;
    forall v | 0 <= v < n ensures v < |var2level| && Lasting(nodes, x.result[v], var2level[v], 0, 1) {
      VariablesLevel(nodes, varset, n, var2level, level2var, v);
    }
    if Straight(var2level, n) {
      IdentityHolds(nodes, n, x.result, 0);
    }
    if Holds(nodes, n, x.result, 0, Identity(n)) {
      forall v | 0 <= v < n ensures v < |var2level| && var2level[v] == v {
        assert HoldsAt(nodes, n, x.result, 0, Identity(n), v);
        OneLevel(nodes, x.result[v], v, var2level[v]);
      }
    }
    var pairs', to' := pairs[p := x], to[p := Identity(n)];
    assert AllHold(nodes, n, pairs', to') ==> Holds(nodes, n, pairs'[p].result, pairs'[p].last, to'[p]);
  }

  lemma OneLevel(nodes: seq<BddNode>, x: int, l: nat, m: nat)
    requires Lasting(nodes, x, l, 0, 1) && Lasting(nodes, x, m, 0, 1)
    ensures l == m
  {
  }

  /** In a canonical table a diagram renamed by the identity is itself. */
  lemma IdentityTold(nodes: seq<BddNode>, n: nat, a: int, res: int)
    requires Graph(nodes, n) && Ref(nodes, a)
    ensures Told(nodes, Levels(n), Identity(n), a, res) <==> res == a
  {
    NothingToReplace(nodes, n, Identity(n), -1, a);
    NoClashBelow(nodes, n, Identity(n), -1, a);
    if Told(nodes, Levels(n), Identity(n), a, res) && res != a {
      var env := Distinguish(nodes, Levels(n), res, a);
    }
  }

  /** What is cached is right for the reset table if and only if nothing stale is cached. */
  lemma ResetCached(nodes: seq<BddNode>, n: nat, cache: seq<CacheEntry>, tables: map<int, Meaning>, c: int)
    requires Graph(nodes, n) && CacheTrue(nodes, Levels(n), cache, tables) && c % 4 == CACHEID_REPLACE
    ensures CacheTrue(nodes, Levels(n), cache, tables[c := Meaning(Identity(n), 0)]) <==> NoneStale(nodes, cache, c)
  {
    hide Graph, Ordered, Told;
    var tables' := tables[c := Meaning(Identity(n), 0)];
    forall j | 0 <= j < |cache| ensures EntryTrue(nodes, Levels(n), cache[j], tables') <==>
                                          (cache[j].a != -1 && cache[j].c == c && nodes[cache[j].a].level == 0 ==> cache[j].res == cache[j].a) {
      var e := cache[j];
      assert EntryTrue(nodes, Levels(n), e, tables);
      if IsCached(e) {
        IdentityTold(nodes, n, e.a, e.res);
      }
    }
  }

  lemma AllSized(nodes: seq<BddNode>, n: nat, pairs: seq<Pair>, to: seq<seq<nat>>, p: nat)
    requires AllHold(nodes, n, pairs, to) && p < |pairs|
    ensures |to| == |pairs| && Holds(nodes, n, pairs[p].result, pairs[p].last, to[p]) && |pairs[p].result| == |to[p]| == n
  {
  }

  lemma SameAt(a: seq<Pair>, b: seq<Pair>, p: nat)
    requires SameTables(a, b) && p < |a|
    ensures |a| == |b| && b[p] == a[p].(id := b[p].id)
  {
  }

  /** Setting a diagram does not change the numbers. */
  lemma SetStays(pairs: seq<Pair>, to: seq<seq<nat>>, tables: map<int, Meaning>, pairsid: nat, p: nat, x: Pair, t: seq<nat>)
    requires Numbered(pairs, pairsid, tables) && Meant(pairs, to, tables) && p < |pairs| && x.id == pairs[p].id
    ensures |to| == |pairs| && Numbered(pairs[p := x], pairsid, tables)
    ensures var pairs', to' := pairs[p := x], to[p := t]; forall i :: 0 <= i < |pairs| && i != p ==> MeantAt(pairs'[i], to'[i], tables)
  {
  }

  /** A table entered under a new number. */
  lemma Entered(nodes: seq<BddNode>, n: nat, pairs0: seq<Pair>, to0: seq<seq<nat>>, tables0: map<int, Meaning>,
                pairs1: seq<Pair>, pairs2: seq<Pair>, tables: map<int, Meaning>, pairsid: nat, p: nat, x: Pair, t: seq<nat>)
    requires AllHold(nodes, n, pairs0, to0) && p < |pairs0| == |pairs1| && pairs1 == pairs0[p := pairs1[p]] && SameTables(pairs1, pairs2)
    requires forall i :: 0 <= i < |pairs1| && i != p ==> MeantAt(pairs1[i], to0[p := t][i], tables0)
    requires forall i :: 0 <= i < |pairs2| && MeantAt(pairs1[i], to0[p := t][i], tables0) ==> MeantAt(pairs2[i], to0[p := t][i], tables)
    requires Numbered(pairs2, pairsid, tables) && (forall i :: 0 <= i < |pairs2| ==> pairs2[i].id < pairsid) && 4 * pairsid !in tables
    requires x.id == pairsid && Holds(nodes, n, x.result, x.last, t)
    ensures var tables' := tables[4 * pairsid := Meaning(t, x.last)];
            && Numbered(pairs2[p := x], pairsid, tables') && Meant(pairs2[p := x], to0[p := t], tables')
            && AllHold(nodes, n, pairs2[p := x], to0[p := t])
  {
    hide Holds;
    var tables', to', pairs' := tables[4 * pairsid := Meaning(t, x.last)], to0[p := t], pairs2[p := x];
    forall i | 0 <= i < |pairs'| ensures MeantAt(pairs'[i], to'[i], tables') && Holds(nodes, n, pairs'[i].result, pairs'[i].last, to'[i]) {
      if i != p {
        assert MeantAt(pairs1[i], to'[i], tables0);
        assert MeantAt(pairs2[i], to'[i], tables);
        assert Holds(nodes, n, pairs0[i].result, pairs0[i].last, to0[i]);
      }
    }
  }

  /** bdd_delref of a variable's node does nothing. */
  method DropVariable(k: Kernel, ghost tables: map<int, Meaning>, x: int)
    requires Ready(k, tables) && Live(k.nodes, x) && k.nodes[x].refcount == MAXREF
    modifies k`nodes
    ensures Ready(k, tables) && k.nodes == old(k.nodes)
  {
    hide Graph, Lists, Protected, CacheTrue, DecRef;
    StuckStays(k.nodes, x);
    var ok := k.DelRef(x);
  }

  lemma StuckStays(nodes: seq<BddNode>, x: int)
    requires 0 <= x < |nodes| && nodes[x].refcount == MAXREF
    ensures DecRef(nodes, x) == nodes
  {
  }

  lemma LevelsVariable(nodes: seq<BddNode>, varset: seq<int>, n: nat, var2level: seq<nat>, level2var: seq<nat>, l: nat)
    requires Ordering(nodes, varset, n, var2level, level2var) && l < n
    ensures l < |level2var| && 2 * level2var[l] < |varset| && Lasting(nodes, varset[2 * level2var[l]], l, 0, 1)
  {
    OrderIsOrder(var2level, level2var, n);
    assert VariableAt(nodes, varset, level2var[l], var2level[level2var[l]]);
  }

  lemma VariablesLevel(nodes: seq<BddNode>, varset: seq<int>, n: nat, var2level: seq<nat>, level2var: seq<nat>, v: nat)
    requires Ordering(nodes, varset, n, var2level, level2var) && v < n
    ensures v < |var2level| && var2level[v] < n && 2 * v < |varset| && Lasting(nodes, varset[2 * v], var2level[v], 0, 1)
  {
    assert level2var[var2level[v]] == v && level2var[var2level[n]] == n;
    assert VariableAt(nodes, varset, v, var2level[v]);
  }

  lemma IdentityHolds(nodes: seq<BddNode>, n: nat, result: seq<int>, last: int)
    requires |result| == n && last < n && forall l :: 0 <= l < n ==> Lasting(nodes, result[l], l, 0, 1)
    ensures Holds(nodes, n, result, last, Identity(n))
  {
    forall l | 0 <= l < n ensures HoldsAt(nodes, n, result, last, Identity(n), l) {
    }
  }

  lemma HoldsVariable(nodes: seq<BddNode>, n: nat, result: seq<int>, last: int, to: seq<nat>, l: nat)
    requires Holds(nodes, n, result, last, to) && l < n
    ensures |result| == |to| == n && last < n && Live(nodes, result[l]) && nodes[result[l]].refcount == MAXREF
  {
    assert HoldsAt(nodes, n, result, last, to, l);
  }

  lemma HoldsSet(nodes: seq<BddNode>, n: nat, result: seq<int>, last: int, to: seq<nat>, l: nat, x: int, t: nat)
    requires Holds(nodes, n, result, last, to) && l < n && t < n && Lasting(nodes, x, t, 0, 1)
    ensures |result| == |to| == n
    ensures Holds(nodes, n, result[l := x], if l > last then l else last, to[l := t])
  {
    var last' := if l > last then l else last;
    var result', to' := result[l := x], to[l := t];
    forall m | 0 <= m < n ensures HoldsAt(nodes, n, result', last', to', m) {
      assert HoldsAt(nodes, n, result, last, to, m);
    }
  }

  /** A new number may get any meaning. */
  lemma FreshNumber(k: Kernel, tables: map<int, Meaning>, id: int, t: Meaning)
    requires Ready(k, tables) && id !in tables
    ensures Ready(k, tables[id := t])
  {
    var lev := Levels(k.varnum);
    forall j | 0 <= j < |k.replacecache| ensures EntryTrue(k.nodes, lev, k.replacecache[j], tables[id := t]) {
      assert EntryTrue(k.nodes, lev, k.replacecache[j], tables);
    }
  }

  lemma EmptyIsTrue(nodes: seq<BddNode>, lev: seq<nat>, cache: seq<CacheEntry>, tables: map<int, Meaning>)
    requires Ordered(nodes, lev) && |cache| > 0 && EmptyCache(cache)
    ensures CacheTrue(nodes, lev, cache, tables)
  {
    forall k | 0 <= k < |cache| ensures EntryTrue(nodes, lev, cache[k], tables) {
    }
  }

  /** A variable renamed: variable v of level 0 becomes the one of level 1, which is another diagram. */
  lemma RenamedVariable(n0: seq<BddNode>, n1: seq<BddNode>, n: nat, to: seq<nat>, x: int, y: int)
    requires Graph(n0, n) && n >= 2 && |to| == n && to[0] == 1 && Lasting(n0, x, 0, 0, 1) && ReplacedBy(n0, n1, Levels(n), to, x, y)
    requires Ref(n1, x) && Ordered(n1, Levels(n)) && Eval(n1, Levels(n), x, {0}) == Eval(n0, Levels(n), x, {0})
    ensures y != x
  {
    assert NodeOk(n0, Levels(n), x);
    var e: Env := {0};
    assert 0 !in Renaming.Renamed(to, e);
    assert Eval(n1, Levels(n), y, e) == Eval(n0, Levels(n), x, Renaming.Renamed(to, e));
    assert Eval(n0, Levels(n), x, e) && !Eval(n0, Levels(n), x, Renaming.Renamed(to, e));
  }

  lemma VariableNoClash(nodes: seq<BddNode>, n: nat, to: seq<nat>, x: int)
    requires Graph(nodes, n) && Lasting(nodes, x, 0, 0, 1)
    ensures Ref(nodes, x) && !Clashes(nodes, Levels(n), to, x)
  {
    assert NodeOk(nodes, Levels(n), x);
  }

  /** A table that renames variable 0 to variable 1 is used on variable 0 and then reset: what the next
      bdd_replace finds cached for variable 0, under the number that the table has kept, is another diagram. */
  method StaleAnswer(k: Kernel, m: PairList, var2level: seq<nat>, level2var: seq<nat>) returns (st: Status, p: nat, x: int, y: int)
    requires m.Valid(k, var2level, level2var) && k.varnum >= 2 && Straight(var2level, k.varnum) && k.refstack == []
    requires |m.pairs| + 1 < LAST_ID
    modifies m, k`nodes, k`freepos, k`freenum, k`L, k`misccache, k`replacecache, k`refstack
    ensures st != BadReplace
    ensures st == Done ==> p < |m.pairs| && m.to != [] && m.to[|m.to| - 1] == Identity(k.varnum) && p == |m.to| - 1
    ensures st == Done ==> Live(k.nodes, x) && k.nodes[x].level <= m.pairs[p].last
    ensures st == Done ==> Cached(k.replacecache, m.pairs[p], x, y) && y != x
    ensures st == Done ==> !m.Valid(k, var2level, level2var)
  {
    hide Ordering, Numbered, Meant, AllHold, CacheTrue, Graph, Lists, NoneStale, ReplacedBy, Clashes, Holds, Levels, Protected, Retains, ClosedSet, Extends;
    p := m.NewPair(k, var2level, level2var);
    ghost var made := m.to;
    assert made[p] == Identity(k.varnum);
    var ok := m.SetPair(k, var2level, level2var, p, 0, 1);
    VariablesLevel(k.nodes, k.varset, k.varnum, var2level, level2var, 0);
    VariablesLevel(k.nodes, k.varset, k.varnum, var2level, level2var, 1);
    x := k.varset[0];
    ghost var n0, M, to := k.nodes, k.Roots(), m.to[p];
    k.RootsClosed();
    GraphParts(n0, k.varnum);
    VariableNoClash(n0, k.varnum, to, x);
    st, y := m.Replace(k, var2level, level2var, p, x);
    if st == Done {
      GraphParts(k.nodes, k.varnum);
      LastingLater(n0, k.nodes, M, x, 0);
      RetainsEval(n0, k.nodes, Levels(k.varnum), M, x, {0});
      RenamedVariable(n0, k.nodes, k.varnum, to, x, y);
      m.ResetPair(k, var2level, level2var, p);
      IsStale(k.nodes, k.replacecache, m.pairs[p], x, y);
    }
  }

  lemma IsStale(nodes: seq<BddNode>, cache: seq<CacheEntry>, p: Pair, x: int, y: int)
    requires Cached(cache, p, x, y) && y != x && Live(nodes, x) && nodes[x].level == 0
    ensures !NoneStale(nodes, cache, ReplaceId(p))
  {
    var e := cache[x % |cache|];
  }
}
