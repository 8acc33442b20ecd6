/** The generalized cofactor of bdd_constrain: f at the projection of an assignment onto the
    on-set of c. */
module Cofactor {
  import opened NodeTable
  import opened Diagram
  import opened KernelTheory
  import opened Collection
  import opened BddKernel

  const CACHEID_CONSTRAIN: int := 0

  /** Follow c along env; where the chosen child is 0, flip the variable. */
  ghost function Project(nodes: seq<BddNode>, lev: seq<nat>, c: int, env: Env): Env
    requires Ordered(nodes, lev) && Ref(nodes, c)
    decreases |lev| - Pos(nodes, lev, c)
  {
    if c < 2 then env
    else
      assert NodeOk(nodes, lev, c);
      var v, lo, hi := nodes[c].level, nodes[c].low, nodes[c].high;
      var b := v in env;
      if (if b then hi else lo) == 0 then With(Project(nodes, lev, if b then lo else hi, env), v, !b)
      else Project(nodes, lev, if b then hi else lo, env)
  }

  /** Only variables from the level of c on can be flipped. */
  lemma {:induction false} ProjectKeepsUpper(nodes: seq<BddNode>, lev: seq<nat>, c: int, env: Env, v: nat)
    requires Ordered(nodes, lev) && Ref(nodes, c) && v < |lev| && lev[v] < Pos(nodes, lev, c)
    ensures v in Project(nodes, lev, c, env) <==> v in env
    decreases |lev| - Pos(nodes, lev, c)
  {
    if c >= 2 {
      assert NodeOk(nodes, lev, c);
      ProjectKeepsUpper(nodes, lev, nodes[c].low, env, v);
      ProjectKeepsUpper(nodes, lev, nodes[c].high, env, v);
    }
  }

  /** The projection lies in the on-set of c. */
  lemma {:induction false} ProjectHolds(nodes: seq<BddNode>, lev: seq<nat>, c: int, env: Env)
    requires Ordered(nodes, lev) && Reduced(nodes) && Ref(nodes, c) && c != 0
    ensures Eval(nodes, lev, c, Project(nodes, lev, c, env))
    decreases |lev| - Pos(nodes, lev, c)
  {
    if c >= 2 {
      assert NodeOk(nodes, lev, c);
      var v, lo, hi := nodes[c].level, nodes[c].low, nodes[c].high;
      var b := v in env;
      var flip := (if b then hi else lo) == 0;
      var d := if b != flip then hi else lo;
      ProjectHolds(nodes, lev, d, env);
      ProjectKeepsUpper(nodes, lev, d, env, v);
      EvalIgnoresUpper(nodes, lev, d, Project(nodes, lev, d, env), v, !b);
    }
  }

  /** Where c holds nothing is flipped. */
  lemma {:induction false} ProjectIsIdentity(nodes: seq<BddNode>, lev: seq<nat>, c: int, env: Env)
    requires Ordered(nodes, lev) && Ref(nodes, c) && Eval(nodes, lev, c, env)
    ensures Project(nodes, lev, c, env) == env
    decreases |lev| - Pos(nodes, lev, c)
  {
    if c >= 2 {
      assert NodeOk(nodes, lev, c);
      ProjectIsIdentity(nodes, lev, if nodes[c].level in env then nodes[c].high else nodes[c].low, env);
    }
  }

  lemma {:induction false} RetainsProject(n0: seq<BddNode>, n1: seq<BddNode>, lev: seq<nat>, S: set<int>, c: int, env: Env)
    requires Ordered(n0, lev) && Ordered(n1, lev) && Retains(n0, n1, S) && (c in S || c == 0 || c == 1)
    ensures Ref(n0, c) && Ref(n1, c) && Project(n1, lev, c, env) == Project(n0, lev, c, env)
    decreases if Ref(n0, c) then |lev| - Pos(n0, lev, c) else 0
  {
    if c >= 2 {
      assert c in S && ClosedAt(n0, S, c) && SameNode(n0, n1, c);
      assert NodeOk(n0, lev, c) && NodeOk(n1, lev, c);
      RetainsProject(n0, n1, lev, S, n0[c].low, env);
      RetainsProject(n0, n1, lev, S, n0[c].high, env);
    }
  }

  /** The generalized cofactor as a function. */
  ghost predicate At(nodes: seq<BddNode>, lev: seq<nat>, f: int, c: int, env: Env)
    requires Ordered(nodes, lev) && Ref(nodes, f) && Ref(nodes, c)
  {
    Eval(nodes, lev, f, Project(nodes, lev, c, env))
  }

  /** Only one child of c is not 0: the cofactor is that of this child, whatever env says about
      the variable. */
  lemma SkipC(nodes: seq<BddNode>, lev: seq<nat>, f: int, c: int, env: Env)
    requires Ordered(nodes, lev) && Reduced(nodes) && Ref(nodes, f) && Live(nodes, c)
    requires nodes[c].low == 0 || nodes[c].high == 0
    ensures NodeOk(nodes, lev, c)
    ensures var b := nodes[c].low == 0;
            var d := if b then nodes[c].high else nodes[c].low;
            && (lev[nodes[c].level] < Pos(nodes, lev, f) ==> At(nodes, lev, f, c, env) == At(nodes, lev, f, d, env))
            && (f >= 2 && nodes[f].level == nodes[c].level ==>
                  NodeOk(nodes, lev, f) && At(nodes, lev, f, c, env) == At(nodes, lev, if b then nodes[f].high else nodes[f].low, d, env))
  {
    assert NodeOk(nodes, lev, c);
    var v := nodes[c].level;
    var b := nodes[c].low == 0;
    var d := if b then nodes[c].high else nodes[c].low;
    var p := Project(nodes, lev, d, env);
    ProjectKeepsUpper(nodes, lev, d, env, v);
    assert Project(nodes, lev, c, env) == With(p, v, b);
    if lev[v] < Pos(nodes, lev, f) {
      EvalIgnoresUpper(nodes, lev, f, p, v, b);
    }
    if f >= 2 && nodes[f].level == v {
      assert NodeOk(nodes, lev, f);
      EvalIgnoresUpper(nodes, lev, if b then nodes[f].high else nodes[f].low, p, v, b);
    }
  }

  /** Branching on the upper variable of f and c when no child of c is 0. */
  lemma BranchAt(nodes: seq<BddNode>, lev: seq<nat>, f: int, c: int, v: nat, env: Env)
    requires Ordered(nodes, lev) && Ref(nodes, f) && Ref(nodes, c) && v < |lev| - 1
    requires lev[v] <= Pos(nodes, lev, f) && lev[v] <= Pos(nodes, lev, c)
    requires c >= 2 && nodes[c].level == v ==> nodes[c].low != 0 && nodes[c].high != 0
    ensures Ref(nodes, Child(nodes, f, v, v in env)) && Ref(nodes, Child(nodes, c, v, v in env))
    ensures At(nodes, lev, f, c, env) == At(nodes, lev, Child(nodes, f, v, v in env), Child(nodes, c, v, v in env), env)
  {
    assert f >= 2 ==> NodeOk(nodes, lev, f);
    assert c >= 2 ==> NodeOk(nodes, lev, c);
    assert f >= 2 && nodes[f].level != v ==> lev[v] < Pos(nodes, lev, f);
    assert c >= 2 && nodes[c].level != v ==> lev[v] < Pos(nodes, lev, c);
    ProjectKeepsUpper(nodes, lev, Child(nodes, c, v, v in env), env, v);
  }

  // ---- bdd_constrain ----------------------------------------------------------------

  /** res, a diagram of n1, is the generalized cofactor of the diagrams f and c of n0. */
  ghost predicate CofactorOf(n0: seq<BddNode>, n1: seq<BddNode>, lev: seq<nat>, f: int, c: int, res: int) {
    && Ordered(n0, lev) && Ordered(n1, lev) && Ref(n0, f) && Ref(n0, c) && Ref(n1, res)
    && (n1[res].level >= n0[f].level || n1[res].level >= n0[c].level)
    && forall env :: Eval(n1, lev, res, env) == At(n0, lev, f, c, env)
  }

  /** The valid entries of the cache tell the truth. */
  ghost predicate EntryOk(nodes: seq<BddNode>, lev: seq<nat>, e: CacheEntry) {
    e.a != -1 && e.c == 0 ==> e.b != 0 && CofactorOf(nodes, nodes, lev, e.a, e.b, e.res)
  }

  ghost predicate CacheOk(nodes: seq<BddNode>, lev: seq<nat>, cache: seq<CacheEntry>) {
    |cache| > 0 && forall k :: 0 <= k < |cache| ==> EntryOk(nodes, lev, cache[k])
  }

  lemma RetainsAt(n0: seq<BddNode>, n1: seq<BddNode>, lev: seq<nat>, S: set<int>, f: int, c: int, env: Env)
    requires Ordered(n0, lev) && Ordered(n1, lev) && Retains(n0, n1, S)
    requires (f in S || f == 0 || f == 1) && (c in S || c == 0 || c == 1)
    ensures Ref(n0, f) && Ref(n0, c) && Ref(n1, f) && Ref(n1, c) && At(n1, lev, f, c, env) == At(n0, lev, f, c, env)
    ensures n1[f].level == n0[f].level && n1[c].level == n0[c].level
  {
    RetainsProject(n0, n1, lev, S, c, env);
    RetainsEval(n0, n1, lev, S, f, Project(n0, lev, c, env));
    assert f >= 2 ==> SameNode(n0, n1, f);
    assert c >= 2 ==> SameNode(n0, n1, c);
  }

  /** Retaining the operands keeps a statement about a later table. */
  lemma LaterCofactor(n0: seq<BddNode>, n1: seq<BddNode>, n2: seq<BddNode>, lev: seq<nat>, S: set<int>, f: int, c: int, res: int)
    requires CofactorOf(n1, n2, lev, f, c, res) && Ordered(n0, lev) && Retains(n0, n1, S)
    requires (f in S || f == 0 || f == 1) && (c in S || c == 0 || c == 1)
    ensures CofactorOf(n0, n2, lev, f, c, res)
  {
    RetainsAt(n0, n1, lev, S, f, c, {});
    forall env ensures Eval(n2, lev, res, env) == At(n0, lev, f, c, env) {
      RetainsAt(n0, n1, lev, S, f, c, env);
    }
  }

  lemma NowCofactor(n0: seq<BddNode>, n1: seq<BddNode>, lev: seq<nat>, S: set<int>, f: int, c: int, res: int)
    requires CofactorOf(n0, n1, lev, f, c, res) && Retains(n0, n1, S)
    requires (f in S || f == 0 || f == 1) && (c in S || c == 0 || c == 1)
    ensures CofactorOf(n1, n1, lev, f, c, res)
  {
    RetainsAt(n0, n1, lev, S, f, c, {});
    forall env ensures Eval(n1, lev, res, env) == At(n1, lev, f, c, env) {
      RetainsAt(n0, n1, lev, S, f, c, env);
    }
  }

  /** The result stays what it is when it is retained. */
  lemma KeptCofactor(n0: seq<BddNode>, n1: seq<BddNode>, n2: seq<BddNode>, lev: seq<nat>, S: set<int>, f: int, c: int, res: int)
    requires CofactorOf(n0, n1, lev, f, c, res) && Ordered(n2, lev) && Retains(n1, n2, S) && (res in S || res == 0 || res == 1)
    ensures CofactorOf(n0, n2, lev, f, c, res)
  {
    RetainsEval(n1, n2, lev, S, res, {});
    assert res >= 2 ==> SameNode(n1, n2, res);
    forall env ensures Eval(n2, lev, res, env) == At(n0, lev, f, c, env) {
      RetainsEval(n1, n2, lev, S, res, env);
    }
  }

  lemma CacheExtends(n0: seq<BddNode>, n1: seq<BddNode>, lev: seq<nat>, cache: seq<CacheEntry>)
    requires CacheOk(n0, lev, cache) && Extends(n0, n1) && Ordered(n1, lev)
    ensures CacheOk(n1, lev, cache)
  {
    forall k | 0 <= k < |cache| ensures EntryOk(n1, lev, cache[k]) {
      var e := cache[k];
      assert EntryOk(n0, lev, e);
      if e.a != -1 && e.c == CACHEID_CONSTRAIN {
        KeptCofactor(n0, n0, n1, lev, AllLive(n0), e.a, e.b, e.res);
        NowCofactor(n0, n1, lev, AllLive(n0), e.a, e.b, e.res);
      }
    }
  }

  lemma CacheEmptied(nodes: seq<BddNode>, lev: seq<nat>, cache: seq<CacheEntry>)
    requires EmptyCache(cache) && |cache| > 0
    ensures CacheOk(nodes, lev, cache)
  {
  }

  lemma CacheStored(nodes: seq<BddNode>, lev: seq<nat>, cache: seq<CacheEntry>, h: nat, f: int, c: int, res: int)
    requires CacheOk(nodes, lev, cache) && h < |cache| && c != 0 && CofactorOf(nodes, nodes, lev, f, c, res)
    ensures CacheOk(nodes, lev, cache[h := CacheEntry(f, c, CACHEID_CONSTRAIN, res)])
  {
    var cache' := cache[h := CacheEntry(f, c, CACHEID_CONSTRAIN, res)];
    forall k | 0 <= k < |cache'| ensures EntryOk(nodes, lev, cache'[k]) { assert EntryOk(nodes, lev, cache[k]); }
  }

  /** "if level then f1 at c1 else f0 at c0". */
  ghost predicate BranchOf(n0: seq<BddNode>, n1: seq<BddNode>, lev: seq<nat>, level: nat, f0: int, c0: int, f1: int, c1: int, res: int) {
    && Ordered(n0, lev) && Ordered(n1, lev) && Ref(n0, f0) && Ref(n0, c0) && Ref(n0, f1) && Ref(n0, c1) && Ref(n1, res)
    && n1[res].level >= level
    && forall env :: Eval(n1, lev, res, env) == if level in env then At(n0, lev, f1, c1, env) else At(n0, lev, f0, c0, env)
  }

  lemma BranchMade(n0: seq<BddNode>, n: seq<BddNode>, lev: seq<nat>, level: nat, f0: int, c0: int, f1: int, c1: int, r0: int, r1: int, res: int)
    requires CofactorOf(n0, n, lev, f0, c0, r0) && CofactorOf(n0, n, lev, f1, c1, r1)
    requires IsNode(n, res, level, r0, r1) && Ref(n, res) && level < n[r0].level && level < n[r1].level
    ensures BranchOf(n0, n, lev, level, f0, c0, f1, c1, res)
  {
    forall env ensures Eval(n, lev, res, env) == if level in env then At(n0, lev, f1, c1, env) else At(n0, lev, f0, c0, env) {
      assert res >= 2 ==> NodeOk(n, lev, res);
    }
  }

  /** The result of a recursive call fits under the branching level. */
  lemma FitsUnder(n0: seq<BddNode>, n1: seq<BddNode>, lev: seq<nat>, level: nat, f: int, c: int, res: int)
    requires CofactorOf(n0, n1, lev, f, c, res) && level < n0[f].level && level < n0[c].level
    ensures Ref(n1, res) && level < n1[res].level
  {
  }

  /** The branching cases of constrain_rec. */
  lemma BranchIsCofactor(n0: seq<BddNode>, n1: seq<BddNode>, n: nat, f: int, c: int, level: nat, f0: int, c0: int, f1: int, c1: int, res: int)
    requires BranchOf(n0, n1, Levels(n), level, f0, c0, f1, c1, res) && Ref(n0, f) && Ref(n0, c)
    requires level < n && level <= n0[f].level && level <= n0[c].level && (level == n0[f].level || level == n0[c].level)
    requires c >= 2 && n0[c].level == level ==> n0[c].low != 0 && n0[c].high != 0
    requires f0 == Child(n0, f, level, false) && f1 == Child(n0, f, level, true)
    requires c0 == Child(n0, c, level, false) && c1 == Child(n0, c, level, true)
    ensures CofactorOf(n0, n1, Levels(n), f, c, res)
  {
    assert f >= 2 ==> NodeOk(n0, Levels(n), f);
    assert c >= 2 ==> NodeOk(n0, Levels(n), c);
    forall env ensures Eval(n1, Levels(n), res, env) == At(n0, Levels(n), f, c, env) {
      BranchAt(n0, Levels(n), f, c, level, env);
    }
  }

  /** The cases where a child of c is 0. */
  lemma SkipIsCofactor(n0: seq<BddNode>, n1: seq<BddNode>, n: nat, f: int, c: int, f': int, c': int, res: int)
    requires CofactorOf(n0, n1, Levels(n), f', c', res) && Reduced(n0) && Ref(n0, f) && Live(n0, c)
    requires n0[c].level <= n0[f].level && (n0[c].low == 0 || n0[c].high == 0)
    requires c' == if n0[c].low == 0 then n0[c].high else n0[c].low
    requires f' == Child(n0, f, n0[c].level, n0[c].low == 0)
    ensures CofactorOf(n0, n1, Levels(n), f, c, res)
  {
    assert NodeOk(n0, Levels(n), c);
    assert f >= 2 ==> NodeOk(n0, Levels(n), f);
    forall env ensures Eval(n1, Levels(n), res, env) == At(n0, Levels(n), f, c, env) {
      SkipC(n0, Levels(n), f, c, env);
    }
  }

  /** Where c is 1, f a constant, or c equals f. */
  lemma TrivialCofactor(nodes: seq<BddNode>, n: nat, f: int, c: int)
    requires Ordered(nodes, Levels(n)) && Reduced(nodes) && Ref(nodes, f) && Ref(nodes, c)
    ensures c == 1 || (f < 2 && c != 0) ==> CofactorOf(nodes, nodes, Levels(n), f, c, f)
    ensures c == f && c != 0 ==> CofactorOf(nodes, nodes, Levels(n), f, c, 1)
  {
    if c == f && c != 0 {
      forall env ensures At(nodes, Levels(n), f, c, env) { ProjectHolds(nodes, Levels(n), c, env); }
      assert f >= 2 ==> NodeOk(nodes, Levels(n), f);
    }
  }
}
