/** bdd_constrain, run on the kernel: recursion, operator cache and reference stack, with a
    garbage collection possible at every node made. */
module Constrain {
  import opened NodeTable
  import opened Diagram
  import opened KernelTheory
  import opened Collection
  import opened BddKernel
  import opened Operators
  import opened Cofactor
  import opened Answers

  ghost predicate Ready(k: Kernel)
    reads k
  {
    k.Valid() && CacheOk(k.nodes, Levels(k.varnum), k.misccache)
  }

  /** What every step of the operation keeps. */
  ghost predicate Stepped(k: Kernel, n0: seq<BddNode>, M: set<int>, s: seq<int>)
    reads k
  {
    Ready(k) && k.refstack == s && Retains(n0, k.nodes, M)
  }

  /** The reference stack has room for two entries per level from the level of x on. */
  ghost predicate Room(k: Kernel, x: int)
    reads k
  {
    0 <= x < |k.nodes| && |k.refstack| + 2 * (k.varnum - k.nodes[x].level) <= 2 * k.varnum + 4
  }

  /** The recursive part of bdd_constrain. */
  method ConstrainRec(k: Kernel, f: int, c: int) returns (ok: bool, res: int)
    requires Ready(k) && Held(k, f) && Held(k, c) && Room(k, f) && Room(k, c)
    modifies k`nodes, k`freepos, k`freenum, k`L, k`misccache, k`replacecache, k`refstack
    ensures ok ==> Stepped(k, old(k.nodes), old(k.Roots()), old(k.refstack)) && Ref(k.nodes, res)
    ensures ok && c != 0 ==> CofactorOf(old(k.nodes), k.nodes, Levels(k.varnum), f, c, res)
    ensures ok && c == 0 ==> res == if f < 2 then f else 0
    ensures !ok ==> GaveUp(k, old(k.nodes), old(k.Roots())) && NoCofactor(old(k.nodes), k.nodes, Levels(k.varnum), f, c)
    decreases 2 * k.varnum - k.nodes[f].level - k.nodes[c].level, 2
  {
    hide GaveUp, NoCofactor, Graph, Lists, CacheOk, Retains, CofactorOf, Levels, Protected, EmptyCache, BranchOf;
    HeldFacts(k, f);
    HeldFacts(k, c);
    ghost var n0, M := k.nodes, k.Roots();
    Idle(k);
    TrivialCofactor(k.nodes, k.varnum, f, c);
    if c == 1 || f < 2 { return true, f; }
    if c == f { return true, 1; }
    if c == 0 { return true, 0; }
    CacheSize(k.nodes, Levels(k.varnum), k.misccache);
    var h := PairHash(f, c) % |k.misccache|;
    if k.misccache[h].a == f && k.misccache[h].b == c && k.misccache[h].c == CACHEID_CONSTRAIN {
      CacheTells(k.nodes, Levels(k.varnum), k.misccache, h);
      return true, k.misccache[h].res;
    }
    ok, res := Cases(k, f, c);
    if !ok { return; }
    NowCofactor(n0, k.nodes, Levels(k.varnum), M, f, c, res);
    CacheSize(k.nodes, Levels(k.varnum), k.misccache);
    h := PairHash(f, c) % |k.misccache|;
    CacheStored(k.nodes, Levels(k.varnum), k.misccache, h, f, c, res);
    k.misccache := k.misccache[h := CacheEntry(f, c, CACHEID_CONSTRAIN, res)];
  }

  /** The cases of constrain_rec after the cache has been asked. */
  method Cases(k: Kernel, f: int, c: int) returns (ok: bool, res: int)
    requires Ready(k) && Held(k, f) && Held(k, c) && Room(k, f) && Room(k, c) && f >= 2 && c >= 2
    modifies k`nodes, k`freepos, k`freenum, k`L, k`misccache, k`replacecache, k`refstack
    ensures ok ==> Stepped(k, old(k.nodes), old(k.Roots()), old(k.refstack)) && Ref(k.nodes, res)
    ensures ok ==> CofactorOf(old(k.nodes), k.nodes, Levels(k.varnum), f, c, res)
    ensures !ok ==> GaveUp(k, old(k.nodes), old(k.Roots())) && NoCofactor(old(k.nodes), k.nodes, Levels(k.varnum), f, c)
    decreases 2 * k.varnum - k.nodes[f].level - k.nodes[c].level, 1
  {
    hide GaveUp, NoCofactor, NoBranchOf, Graph, Lists, CacheOk, Retains, CofactorOf, Levels, Protected, EmptyCache, BranchOf, Reduced;
    HeldFacts(k, f);
    HeldFacts(k, c);
    Idle(k);
    ghost var n0, d := k.nodes, 2 * k.varnum - k.nodes[f].level - k.nodes[c].level;
    var fl, fh, cl, ch := k.nodes[f].low, k.nodes[f].high, k.nodes[c].low, k.nodes[c].high;
    if k.nodes[f].level == k.nodes[c].level {
      if cl == 0 {
        ok, res := ConstrainRec(k, fh, ch);
        if !ok { SkipMissing(n0, k.nodes, k.varnum, f, c, fh, ch); return; }
        SkipIsCofactor(n0, k.nodes, k.varnum, f, c, fh, ch, res);
      } else if ch == 0 {
        ok, res := ConstrainRec(k, fl, cl);
        if !ok { SkipMissing(n0, k.nodes, k.varnum, f, c, fl, cl); return; }
        SkipIsCofactor(n0, k.nodes, k.varnum, f, c, fl, cl, res);
      } else {
        ok, res := Branch(k, d, k.nodes[f].level, fl, cl, fh, ch);
        if !ok { BranchMissing(n0, k.nodes, k.varnum, f, c, n0[f].level, fl, cl, fh, ch); return; }
        BranchIsCofactor(n0, k.nodes, k.varnum, f, c, n0[f].level, fl, cl, fh, ch, res);
      }
    } else if k.nodes[f].level < k.nodes[c].level {
      ok, res := Branch(k, d, k.nodes[f].level, fl, c, fh, c);
      if !ok { BranchMissing(n0, k.nodes, k.varnum, f, c, n0[f].level, fl, c, fh, c); return; }
      BranchIsCofactor(n0, k.nodes, k.varnum, f, c, n0[f].level, fl, c, fh, c, res);
    } else if cl == 0 {
      ok, res := ConstrainRec(k, f, ch);
      if !ok { SkipMissing(n0, k.nodes, k.varnum, f, c, f, ch); return; }
      SkipIsCofactor(n0, k.nodes, k.varnum, f, c, f, ch, res);
    } else if ch == 0 {
      ok, res := ConstrainRec(k, f, cl);
      if !ok { SkipMissing(n0, k.nodes, k.varnum, f, c, f, cl); return; }
      SkipIsCofactor(n0, k.nodes, k.varnum, f, c, f, cl, res);
    } else {
      ok, res := Branch(k, d, k.nodes[c].level, f, cl, f, ch);
      if !ok { BranchMissing(n0, k.nodes, k.varnum, f, c, n0[c].level, f, cl, f, ch); return; }
      BranchIsCofactor(n0, k.nodes, k.varnum, f, c, n0[c].level, f, cl, f, ch, res);
    }
  }

  /** Both branches, each result put on the reference stack, and the node over them. */
  method Branch(k: Kernel, ghost d: nat, level: nat, f0: int, c0: int, f1: int, c1: int) returns (ok: bool, res: int)
    requires Ready(k) && Held(k, f0) && Held(k, c0) && Held(k, f1) && Held(k, c1) && c0 != 0 && c1 != 0
    requires Ref(k.nodes, f0) && Ref(k.nodes, c0) && Ref(k.nodes, f1) && Ref(k.nodes, c1)
    requires level < k.nodes[f0].level && level < k.nodes[c0].level && level < k.nodes[f1].level && level < k.nodes[c1].level
    requires level < k.varnum && |k.refstack| + 2 * (k.varnum - level) <= 2 * k.varnum + 4
    requires d > 2 * k.varnum - k.nodes[f0].level - k.nodes[c0].level && d > 2 * k.varnum - k.nodes[f1].level - k.nodes[c1].level
    modifies k`nodes, k`freepos, k`freenum, k`L, k`misccache, k`replacecache, k`refstack
    ensures ok ==> Stepped(k, old(k.nodes), old(k.Roots()), old(k.refstack)) && Ref(k.nodes, res)
    ensures ok ==> BranchOf(old(k.nodes), k.nodes, Levels(k.varnum), level, f0, c0, f1, c1, res)
    ensures !ok ==> GaveUp(k, old(k.nodes), old(k.Roots())) && NoBranchOf(old(k.nodes), k.nodes, Levels(k.varnum), level, f0, c0, f1, c1)
    decreases d, 0
  {
    hide NoCofactor, NoBranchOf, Kernel.Crowded, Graph, Lists, CacheOk, Retains, Extends, CofactorOf, Levels, Protected, EmptyCache, BranchOf, Reduced, Fitting, IsNode;
    ghost var n0, M0, s, lev := k.nodes, k.Roots(), k.refstack, Levels(k.varnum);
    GraphParts(k.nodes, k.varnum);
    res := 0;
    var r0, r1;
    ok, r0 := ConstrainRec(k, f0, c0);
    if !ok { HalfMissing(n0, k.nodes, k.varnum, level, f0, c0, f1, c1, false); return; }
    ghost var n1 := k.nodes;
    GraphParts(n1, k.varnum);
    k.PushRef(r0);
    AfterPush(n0, n1, lev, s, r0);
    ghost var M1 := k.Roots();
    LaterFacts(n0, n1, M0, f1);
    LaterFacts(n0, n1, M0, c1);
    ok, r1 := ConstrainRec(k, f1, c1);
    if !ok { SecondMissing(n0, n1, k.nodes, k.varnum, M0, M1, level, f0, c0, f1, c1); return; }
    ghost var n2 := k.nodes;
    GraphParts(n2, k.varnum);
    k.PushRef(r1);
    AfterPush(n1, n2, lev, s + [r0], r1);
    ghost var M2 := k.Roots();
    FitsUnder(n0, n1, lev, level, f0, c0, r0);
    FitsUnder(n1, n2, lev, level, f1, c1, r1);
    LaterFacts(n1, n2, M1, r0);
    NodeFits(n2, k.varnum, level, r0, r1);
    ghost var cache := k.misccache;
    ok, res := k.MakeNode(level, k.ReadRef(2), k.ReadRef(1));
    ghost var n3 := k.nodes;
    GraphParts(n3, k.varnum);
    if !ok { ThirdMissing(n0, n1, n2, n3, k.varnum, M0, M1, M2, level, f0, c0, f1, c1, r0, r1); return; }
    CacheAfter(n2, n3, lev, cache, k.misccache);
    k.PopRef(2);
    BranchSteps(n0, n1, n2, n3, lev, M0, M1, M2, level, f0, c0, f1, c1, r0, r1, res);
    assert k.refstack == s;
  }

  lemma Idle(k: Kernel)
    requires Ready(k)
    ensures Stepped(k, k.nodes, k.Roots(), k.refstack) && Ordered(k.nodes, Levels(k.varnum)) && Reduced(k.nodes)
  {
    RetainsNow(k);
  }

  lemma CacheSize(nodes: seq<BddNode>, lev: seq<nat>, cache: seq<CacheEntry>)
    requires CacheOk(nodes, lev, cache)
    ensures |cache| > 0
  {
  }

  lemma CacheTells(nodes: seq<BddNode>, lev: seq<nat>, cache: seq<CacheEntry>, h: nat)
    requires CacheOk(nodes, lev, cache) && h < |cache| && cache[h].a != -1 && cache[h].c == CACHEID_CONSTRAIN
    ensures cache[h].b != 0 && CofactorOf(nodes, nodes, lev, cache[h].a, cache[h].b, cache[h].res) && Ref(nodes, cache[h].res)
  {
    assert EntryOk(nodes, lev, cache[h]);
  }

  lemma CacheAfter(n0: seq<BddNode>, n1: seq<BddNode>, lev: seq<nat>, cache: seq<CacheEntry>, cache': seq<CacheEntry>)
    requires CacheOk(n0, lev, cache) && Ordered(n1, lev) && |cache'| == |cache|
    requires (Extends(n0, n1) && cache' == cache) || EmptyCache(cache')
    ensures CacheOk(n1, lev, cache')
  {
    if EmptyCache(cache') { CacheEmptied(n1, lev, cache'); } else { CacheExtends(n0, n1, lev, cache); }
  }

  lemma BranchSteps(n0: seq<BddNode>, n1: seq<BddNode>, n2: seq<BddNode>, n3: seq<BddNode>, lev: seq<nat>,
                    M0: set<int>, M1: set<int>, M2: set<int>, level: nat, f0: int, c0: int, f1: int, c1: int, r0: int, r1: int, res: int)
    requires Retains(n0, n1, M0) && Retains(n1, n2, M1) && Retains(n2, n3, M2) && M0 <= M1 <= M2
    requires Ordered(n0, lev) && Ordered(n1, lev) && Ordered(n2, lev) && Ordered(n3, lev)
    requires CofactorOf(n0, n1, lev, f0, c0, r0) && CofactorOf(n1, n2, lev, f1, c1, r1)
    requires (r0 == 0 || r0 == 1 || r0 in M1) && (r1 == 0 || r1 == 1 || r1 in M2)
    requires (f1 == 0 || f1 == 1 || f1 in M0) && (c1 == 0 || c1 == 1 || c1 in M0)
    requires IsNode(n3, res, level, r0, r1) && Ref(n3, res) && Fitting(n2, |lev| - 1, level, r0, r1)
    ensures BranchOf(n0, n3, lev, level, f0, c0, f1, c1, res) && Retains(n0, n3, M0)
  {
    hide CofactorOf, Retains, IsNode, BranchOf;
    KeptCofactor(n0, n1, n2, lev, M1, f0, c0, r0);
    KeptCofactor(n0, n2, n3, lev, M2, f0, c0, r0);
    LaterCofactor(n0, n1, n2, lev, M0, f1, c1, r1);
    KeptCofactor(n0, n2, n3, lev, M2, f1, c1, r1);
    LaterFacts(n2, n3, M2, r0);
    LaterFacts(n2, n3, M2, r1);
    BranchMade(n0, n3, lev, level, f0, c0, f1, c1, r0, r1, res);
    RetainsTransitive(n1, n2, n3, M1, M2);
    RetainsTransitive(n0, n1, n3, M0, M1);
  }

  lemma SecondMissing(n0: seq<BddNode>, n1: seq<BddNode>, n2: seq<BddNode>, n: nat, M0: set<int>, M1: set<int>, level: nat, f0: int, c0: int, f1: int, c1: int)
    requires Retains(n0, n1, M0) && Retains(n1, n2, M1) && M0 <= M1 && Ordered(n0, Levels(n)) && Ordered(n1, Levels(n)) && NoCofactor(n1, n2, Levels(n), f1, c1)
    requires Ref(n0, f0) && Ref(n0, c0) && Ref(n0, f1) && Ref(n0, c1) && level < n
    requires level < n0[f0].level && level < n0[c0].level && level < n0[f1].level && level < n0[c1].level
    requires (f1 == 0 || f1 == 1 || f1 in M0) && (c1 == 0 || c1 == 1 || c1 in M0)
    ensures NoBranchOf(n0, n2, Levels(n), level, f0, c0, f1, c1) && Retains(n0, n2, M0)
  {
    hide NoCofactor, NoBranchOf, Retains, Ordered;
    MissingLater(n0, n1, n2, Levels(n), M0, f1, c1);
    HalfMissing(n0, n2, n, level, f0, c0, f1, c1, true);
    RetainsTransitive(n0, n1, n2, M0, M1);
  }

  lemma ThirdMissing(n0: seq<BddNode>, n1: seq<BddNode>, n2: seq<BddNode>, n3: seq<BddNode>, n: nat,
                     M0: set<int>, M1: set<int>, M2: set<int>, level: nat, f0: int, c0: int, f1: int, c1: int, r0: int, r1: int)
    requires Retains(n0, n1, M0) && Retains(n1, n2, M1) && Retains(n2, n3, M2) && M0 <= M1 <= M2
    requires Ordered(n0, Levels(n)) && Ordered(n1, Levels(n)) && Ordered(n2, Levels(n)) && Graph(n3, n)
    requires CofactorOf(n0, n1, Levels(n), f0, c0, r0) && CofactorOf(n1, n2, Levels(n), f1, c1, r1)
    requires (r0 == 0 || r0 == 1 || r0 in M1) && (r1 == 0 || r1 == 1 || r1 in M2)
    requires (f1 == 0 || f1 == 1 || f1 in M0) && (c1 == 0 || c1 == 1 || c1 in M0)
    requires r0 != r1 && Absent(n3, level, r0, r1) && Fitting(n2, n, level, r0, r1)
    ensures NoBranchOf(n0, n3, Levels(n), level, f0, c0, f1, c1) && Retains(n0, n3, M0)
  {
    hide CofactorOf, Retains, Graph, NoBranchOf, Absent;
    var lev := Levels(n);
    GraphParts(n3, n);
    KeptCofactor(n0, n1, n2, lev, M1, f0, c0, r0);
    KeptCofactor(n0, n2, n3, lev, M2, f0, c0, r0);
    LaterCofactor(n0, n1, n2, lev, M0, f1, c1, r1);
    KeptCofactor(n0, n2, n3, lev, M2, f1, c1, r1);
    LaterFacts(n2, n3, M2, r0);
    LaterFacts(n2, n3, M2, r1);
    NodeFits(n3, n, level, r0, r1);
    NodeMissing(n0, n3, n, level, f0, c0, f1, c1, r0, r1);
    RetainsTransitive(n1, n2, n3, M1, M2);
    RetainsTransitive(n0, n1, n3, M0, M1);
  }

  /** A diagram for the generalized cofactor is protected. */
  ghost predicate AnswerHeld(k: Kernel, f: int, c: int)
    reads k
    requires k.Valid()
  {
    exists x :: Held(k, x) && Shows(k.nodes, k.nodes, Levels(k.varnum), f, c, x)
  }

  /** bdd_constrain.  The stack starts empty; the operands are external references.  It gives up only with
      a table full of protected nodes that has no diagram for the result. */
  method ConstrainOp(k: Kernel, f: int, c: int) returns (ok: bool, res: int)
    requires Ready(k) && k.refstack == [] && Held(k, f) && Held(k, c)
    modifies k`nodes, k`freepos, k`freenum, k`L, k`misccache, k`replacecache, k`refstack
    ensures ok ==> Stepped(k, old(k.nodes), old(k.Roots()), []) && Ref(k.nodes, res)
    ensures ok && c != 0 ==> CofactorOf(old(k.nodes), k.nodes, Levels(k.varnum), f, c, res)
    ensures ok && c == 0 ==> res == if f < 2 then f else 0
    ensures !ok ==> GaveUp(k, old(k.nodes), old(k.Roots())) && NoCofactor(old(k.nodes), k.nodes, Levels(k.varnum), f, c)
    ensures old(AnswerHeld(k, f, c)) ==> ok
  {
    hide Graph, Lists, CacheOk, Retains, CofactorOf, Levels, Protected, NoCofactor, Shows, Kernel.Crowded;
    HeldFacts(k, f);
    HeldFacts(k, c);
    ghost var n0, M := k.nodes, k.Roots();
    ok, res := ConstrainRec(k, f, c);
    if !ok {
      forall x | x == 0 || x == 1 || x in M ensures !Shows(n0, n0, Levels(k.varnum), f, c, x) {
        if Shows(n0, n0, Levels(k.varnum), f, c, x) { AnswerKept(n0, k.nodes, Levels(k.varnum), M, f, c, x); }
      }
    }
  }

  /** f and its generalized cofactor agree wherever c holds. */
  lemma AgreesOn(n0: seq<BddNode>, n1: seq<BddNode>, lev: seq<nat>, f: int, c: int, res: int, env: Env)
    requires CofactorOf(n0, n1, lev, f, c, res) && Eval(n0, lev, c, env)
    ensures Eval(n1, lev, res, env) == Eval(n0, lev, f, env)
  {
    ProjectIsIdentity(n0, lev, c, env);
  }
}
