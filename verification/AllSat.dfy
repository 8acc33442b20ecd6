/** bdd_allsat, bdd_pathcount and bdd_satcount: the reported cubes partition the satisfying
    assignments, and the two counts are the number of cubes and of assignments.  Counts are
    exact integers here. */
module AllSat {
  import opened NodeTable
  import opened Diagram
  import opened KernelTheory

  ghost predicate Tree(nodes: seq<BddNode>, n: nat) { Ordered(nodes, Levels(n)) }

  function Pow2(k: nat): (p: nat)
    ensures p > 0
  {
    if k == 0 then 1 else 2 * Pow2(k - 1)
  }

  lemma Children(nodes: seq<BddNode>, n: nat, r: int)
    requires Tree(nodes, n) && Ref(nodes, r)
    ensures nodes[r].level <= n && (r < 2 <==> nodes[r].level == n)
    ensures r >= 2 ==> Ref(nodes, nodes[r].low) && Ref(nodes, nodes[r].high)
    ensures r >= 2 ==> nodes[r].level < nodes[nodes[r].low].level <= n && nodes[r].level < nodes[nodes[r].high].level <= n
  {
    if r >= 2 {
      assert NodeOk(nodes, Levels(n), r);
      if nodes[r].low >= 2 { assert NodeOk(nodes, Levels(n), nodes[r].low); }
      if nodes[r].high >= 2 { assert NodeOk(nodes, Levels(n), nodes[r].high); }
    }
  }

  // ---- the two counts ---------------------------------------------------------------

  /** bdd_pathcount_rec */
  ghost function PathCount(nodes: seq<BddNode>, n: nat, r: int): nat
    requires Tree(nodes, n) && Ref(nodes, r)
    decreases n - nodes[r].level
  {
    if r == 0 then 0
    else if r == 1 then 1
    else
      Children(nodes, n, r);
      PathCount(nodes, n, nodes[r].low) + PathCount(nodes, n, nodes[r].high)
  }

  /** satcount_rec: the variables skipped on an edge double the count. */
  ghost function SatCountRec(nodes: seq<BddNode>, n: nat, r: int): nat
    requires Tree(nodes, n) && Ref(nodes, r)
    decreases n - nodes[r].level
  {
    if r < 2 then r
    else
      Children(nodes, n, r);
      var lo, hi := nodes[r].low, nodes[r].high;
      Pow2(nodes[lo].level - nodes[r].level - 1) * SatCountRec(nodes, n, lo) +
      Pow2(nodes[hi].level - nodes[r].level - 1) * SatCountRec(nodes, n, hi)
  }

  /** bdd_satcount */
  ghost function SatCount(nodes: seq<BddNode>, n: nat, r: int): nat
    requires Tree(nodes, n) && Ref(nodes, r)
  {
    Pow2(nodes[r].level) * SatCountRec(nodes, n, r)
  }

  // ---- the satisfying assignments ---------------------------------------------------

  ghost function Plus(s: set<Env>, l: nat): (t: set<Env>)
  {
    set e | e in s :: e + {l}
  }

  /** All assignments to the variables at the levels from l on. */
  ghost function All(l: nat, n: nat): (s: set<Env>)
    requires l <= n
    ensures forall e :: e in s ==> forall v :: v in e ==> l <= v < n
    decreases n - l
  {
    if l == n then {{}} else All(l + 1, n) + Plus(All(l + 1, n), l)
  }

  ghost function Sat(nodes: seq<BddNode>, n: nat, r: int, l: nat): set<Env>
    requires Tree(nodes, n) && Ref(nodes, r) && l <= n
  {
    set e | e in All(l, n) && Eval(nodes, Levels(n), r, e)
  }

  lemma PlusOne(s: set<Env>, l: nat, x: Env)
    requires x in s && forall e :: e in s ==> l !in e
    ensures Plus(s, l) == Plus(s - {x}, l) + {x + {l}} && x + {l} !in Plus(s - {x}, l)
  {
    forall e | e in s - {x} ensures e + {l} != x + {l} {
      assert e == (e + {l}) - {l} && x == (x + {l}) - {l};
    }
  }

  lemma {:induction false} PlusSize(s: set<Env>, l: nat)
    requires forall e :: e in s ==> l !in e
    ensures |Plus(s, l)| == |s|
    decreases s
  {
    if s == {} {
      assert Plus(s, l) == {};
    } else {
      var x :| x in s;
      PlusSize(s - {x}, l);
      PlusOne(s, l, x);
    }
  }

  lemma EvalSplit(nodes: seq<BddNode>, n: nat, r: int, l: nat, e: Env)
    requires Tree(nodes, n) && Ref(nodes, r) && l < n && l <= nodes[r].level && l !in e
    ensures Ref(nodes, Child(nodes, r, l, false)) && Ref(nodes, Child(nodes, r, l, true))
    ensures Eval(nodes, Levels(n), r, e) == Eval(nodes, Levels(n), Child(nodes, r, l, false), e)
    ensures Eval(nodes, Levels(n), r, e + {l}) == Eval(nodes, Levels(n), Child(nodes, r, l, true), e)
  {
    Children(nodes, n, r);
    Children(nodes, n, Child(nodes, r, l, false));
    Children(nodes, n, Child(nodes, r, l, true));
    EvalIgnoresUpper(nodes, Levels(n), Child(nodes, r, l, true), e, l, true);
  }

  lemma SatSets(nodes: seq<BddNode>, n: nat, r: int, l: nat, lo: int, hi: int)
    requires Tree(nodes, n) && Ref(nodes, r) && Ref(nodes, lo) && Ref(nodes, hi) && l < n
    requires forall e :: e in All(l + 1, n) ==>
               && Eval(nodes, Levels(n), r, e) == Eval(nodes, Levels(n), lo, e)
               && Eval(nodes, Levels(n), r, e + {l}) == Eval(nodes, Levels(n), hi, e)
    ensures Sat(nodes, n, r, l) == Sat(nodes, n, lo, l + 1) + Plus(Sat(nodes, n, hi, l + 1), l)
  {
    hide Tree, Eval;
    var S0, S1 := Sat(nodes, n, lo, l + 1), Sat(nodes, n, hi, l + 1);
    forall e ensures e in Sat(nodes, n, r, l) <==> e in S0 + Plus(S1, l) {
      if e in Sat(nodes, n, r, l) && e !in All(l + 1, n) {
        var x :| x in All(l + 1, n) && e == x + {l};
        assert x in S1;
      }
      if e in Plus(S1, l) {
        var x :| x in S1 && e == x + {l};
        assert x in All(l + 1, n);
      }
    }
  }

  /** What r says about the assignments from l on, in terms of the level after l. */
  lemma SatSplit(nodes: seq<BddNode>, n: nat, r: int, l: nat)
    requires Tree(nodes, n) && Ref(nodes, r) && l < n && l <= nodes[r].level
    ensures Ref(nodes, Child(nodes, r, l, false)) && Ref(nodes, Child(nodes, r, l, true))
    ensures |Sat(nodes, n, r, l)| == |Sat(nodes, n, Child(nodes, r, l, false), l + 1)| + |Sat(nodes, n, Child(nodes, r, l, true), l + 1)|
  {
    hide Ordered, Eval;
    EvalSplit(nodes, n, r, l, {});
    var lo, hi := Child(nodes, r, l, false), Child(nodes, r, l, true);
    forall e | e in All(l + 1, n)
      ensures Eval(nodes, Levels(n), r, e) == Eval(nodes, Levels(n), lo, e)
      ensures Eval(nodes, Levels(n), r, e + {l}) == Eval(nodes, Levels(n), hi, e)
    {
      EvalSplit(nodes, n, r, l, e);
    }
    SatSets(nodes, n, r, l, lo, hi);
    var S0, S1 := Sat(nodes, n, lo, l + 1), Sat(nodes, n, hi, l + 1);
    PlusSize(S1, l);
    assert S0 !! Plus(S1, l) by {
      forall e | e in Plus(S1, l) ensures e !in S0 { assert l in e; }
    }
  }

  lemma SatTerminal(nodes: seq<BddNode>, n: nat, r: int)
    requires Tree(nodes, n) && (r == 0 || r == 1)
    ensures |Sat(nodes, n, r, n)| == r
  {
    assert Sat(nodes, n, r, n) == if r == 1 then {{}} else {};
  }

  lemma Doubled(k: nat, x: nat)
    ensures Pow2(k + 1) * x == Pow2(k) * x + Pow2(k) * x
  {
  }

  /** bdd_satcount is the number of satisfying assignments. */
  lemma {:induction false} SatCountIsSize(nodes: seq<BddNode>, n: nat, r: int, l: nat)
    requires Tree(nodes, n) && Ref(nodes, r) && l <= nodes[r].level
    ensures nodes[r].level <= n && |Sat(nodes, n, r, l)| == Pow2(nodes[r].level - l) * SatCountRec(nodes, n, r)
    decreases n - l
  {
    hide Sat, All, Tree, Eval;
    Children(nodes, n, r);
    if l == n {
      SatTerminal(nodes, n, r);
    } else {
      SatSplit(nodes, n, r, l);
      if l < nodes[r].level {
        SatCountIsSize(nodes, n, r, l + 1);
        Doubled(nodes[r].level - l - 1, SatCountRec(nodes, n, r));
      } else {
        SatCountIsSize(nodes, n, nodes[r].low, l + 1);
        SatCountIsSize(nodes, n, nodes[r].high, l + 1);
      }
    }
  }

  // ---- the cubes --------------------------------------------------------------------

  function Prefixed(x: int, cubes: seq<seq<int>>): (r: seq<seq<int>>)
    ensures |r| == |cubes| && forall i :: 0 <= i < |cubes| ==> r[i] == [x] + cubes[i]
  {
    seq(|cubes|, i requires 0 <= i < |cubes| => [x] + cubes[i])
  }

  /** The cubes of r over the levels from l on, in the order in which they are reported. */
  ghost function Cubes(nodes: seq<BddNode>, n: nat, r: int, l: nat): (cubes: seq<seq<int>>)
    requires Tree(nodes, n) && Ref(nodes, r) && l <= nodes[r].level
    ensures nodes[r].level <= n && forall i :: 0 <= i < |cubes| ==> |cubes[i]| == n - l
    decreases n - l
  {
    Children(nodes, n, r);
    if l == n then (if r == 1 then [[]] else [])
    else if l < nodes[r].level then Prefixed(-1, Cubes(nodes, n, r, l + 1))
    else Prefixed(0, Cubes(nodes, n, nodes[r].low, l + 1)) + Prefixed(1, Cubes(nodes, n, nodes[r].high, l + 1))
  }

  /** env agrees with the cube over the levels from l on. */
  predicate Matches(cube: seq<int>, l: nat, env: Env) {
    forall k :: 0 <= k < |cube| ==> (cube[k] == 0 ==> l + k !in env) && (cube[k] == 1 ==> l + k in env)
  }

  lemma MatchesFirst(x: int, cube: seq<int>, l: nat, env: Env)
    ensures Matches([x] + cube, l, env) <==> (x == 0 ==> l !in env) && (x == 1 ==> l in env) && Matches(cube, l + 1, env)
  {
    var c := [x] + cube;
    if Matches(c, l, env) {
      assert c[0] == x;
      forall k | 0 <= k < |cube| ensures (cube[k] == 0 ==> l + 1 + k !in env) && (cube[k] == 1 ==> l + 1 + k in env) {
        assert c[k + 1] == cube[k];
      }
    }
  }

  ghost function Hits(cubes: seq<seq<int>>, l: nat, env: Env): nat {
    if cubes == [] then 0 else Hits(cubes[..|cubes| - 1], l, env) + if Matches(cubes[|cubes| - 1], l, env) then 1 else 0
  }

  lemma {:induction false} HitsAppend(a: seq<seq<int>>, b: seq<seq<int>>, l: nat, env: Env)
    ensures Hits(a + b, l, env) == Hits(a, l, env) + Hits(b, l, env)
  {
    if b == [] {
      assert a + b == a;
    } else {
      assert (a + b)[..|a + b| - 1] == a + b[..|b| - 1];
      HitsAppend(a, b[..|b| - 1], l, env);
    }
  }

  lemma {:induction false} HitsPrefixed(x: int, cubes: seq<seq<int>>, l: nat, env: Env)
    ensures Hits(Prefixed(x, cubes), l, env) ==
            if (x == 0 ==> l !in env) && (x == 1 ==> l in env) then Hits(cubes, l + 1, env) else 0
  {
    if cubes != [] {
      var m := |cubes| - 1;
      assert Prefixed(x, cubes)[..m] == Prefixed(x, cubes[..m]);
      HitsPrefixed(x, cubes[..m], l, env);
      MatchesFirst(x, cubes[m], l, env);
    }
  }

  lemma HitsOne(l: nat, env: Env)
    ensures Hits([[]], l, env) == 1 && Hits([], l, env) == 0
  {
    assert Hits([[]], l, env) == Hits([[]][..0], l, env) + 1;
  }

  lemma EvalStep(nodes: seq<BddNode>, n: nat, r: int, env: Env)
    requires Tree(nodes, n) && Ref(nodes, r)
    ensures r == 0 ==> !Eval(nodes, Levels(n), r, env)
    ensures r == 1 ==> Eval(nodes, Levels(n), r, env)
    ensures r >= 2 ==> Ref(nodes, nodes[r].low) && Ref(nodes, nodes[r].high)
    ensures r >= 2 ==> Eval(nodes, Levels(n), r, env) ==
                       Eval(nodes, Levels(n), if nodes[r].level in env then nodes[r].high else nodes[r].low, env)
  {
    assert r >= 2 ==> NodeOk(nodes, Levels(n), r);
  }

  /** A satisfying assignment matches exactly one cube, any other none. */
  lemma {:induction false} CubesPartition(nodes: seq<BddNode>, n: nat, r: int, l: nat, env: Env)
    requires Tree(nodes, n) && Ref(nodes, r) && l <= nodes[r].level
    ensures Hits(Cubes(nodes, n, r, l), l, env) == if Eval(nodes, Levels(n), r, env) then 1 else 0
    decreases n - l
  {
    hide Tree, Hits, Prefixed, Matches, Eval;
    Children(nodes, n, r);
    EvalStep(nodes, n, r, env);
    if l == n {
      HitsOne(l, env);
    } else if l < nodes[r].level {
      CubesPartition(nodes, n, r, l + 1, env);
      HitsPrefixed(-1, Cubes(nodes, n, r, l + 1), l, env);
    } else {
      var lo, hi := nodes[r].low, nodes[r].high;
      CubesPartition(nodes, n, lo, l + 1, env);
      CubesPartition(nodes, n, hi, l + 1, env);
      HitsPrefixed(0, Cubes(nodes, n, lo, l + 1), l, env);
      HitsPrefixed(1, Cubes(nodes, n, hi, l + 1), l, env);
      HitsAppend(Prefixed(0, Cubes(nodes, n, lo, l + 1)), Prefixed(1, Cubes(nodes, n, hi, l + 1)), l, env);
    }
  }

  /** The number of cubes is bdd_pathcount. */
  lemma {:induction false} CubesCount(nodes: seq<BddNode>, n: nat, r: int, l: nat)
    requires Tree(nodes, n) && Ref(nodes, r) && l <= nodes[r].level
    ensures |Cubes(nodes, n, r, l)| == PathCount(nodes, n, r)
    decreases n - l
  {
    Children(nodes, n, r);
    if l < nodes[r].level {
      CubesCount(nodes, n, r, l + 1);
    } else if l < n {
      CubesCount(nodes, n, nodes[r].low, l + 1);
      CubesCount(nodes, n, nodes[r].high, l + 1);
    }
  }

  function DontCares(cube: seq<int>): nat {
    if cube == [] then 0 else (if cube[0] == -1 then 1 else 0) + DontCares(cube[1..])
  }

  ghost function Weight(cubes: seq<seq<int>>): nat {
    if cubes == [] then 0 else Weight(cubes[..|cubes| - 1]) + Pow2(DontCares(cubes[|cubes| - 1]))
  }

  lemma {:induction false} WeightAppend(a: seq<seq<int>>, b: seq<seq<int>>)
    ensures Weight(a + b) == Weight(a) + Weight(b)
  {
    if b == [] {
      assert a + b == a;
    } else {
      assert (a + b)[..|a + b| - 1] == a + b[..|b| - 1];
      WeightAppend(a, b[..|b| - 1]);
    }
  }

  lemma {:induction false} WeightPrefixed(x: int, cubes: seq<seq<int>>)
    ensures Weight(Prefixed(x, cubes)) == (if x == -1 then 2 else 1) * Weight(cubes)
  {
    if cubes != [] {
      var m := |cubes| - 1;
      assert Prefixed(x, cubes)[..m] == Prefixed(x, cubes[..m]);
      WeightPrefixed(x, cubes[..m]);
      assert ([x] + cubes[m])[1..] == cubes[m];
    }
  }

  lemma WeightOne()
    ensures Weight([[]]) == 1 && Weight([]) == 0
  {
    assert Weight([[]]) == Weight([[]][..0]) + 1;
  }

  /** The sizes of the cubes add up to bdd_satcount. */
  lemma {:induction false} CubesWeight(nodes: seq<BddNode>, n: nat, r: int, l: nat)
    requires Tree(nodes, n) && Ref(nodes, r) && l <= nodes[r].level
    ensures Weight(Cubes(nodes, n, r, l)) == |Sat(nodes, n, r, l)|
    decreases n - l
  {
    hide Sat, All, Tree, Eval, Weight, Prefixed, Pow2;
    Children(nodes, n, r);
    if l == n {
      SatTerminal(nodes, n, r);
      WeightOne();
    } else {
      SatSplit(nodes, n, r, l);
      if l < nodes[r].level {
        CubesWeight(nodes, n, r, l + 1);
        WeightPrefixed(-1, Cubes(nodes, n, r, l + 1));
      } else {
        var lo, hi := nodes[r].low, nodes[r].high;
        CubesWeight(nodes, n, lo, l + 1);
        CubesWeight(nodes, n, hi, l + 1);
        WeightPrefixed(0, Cubes(nodes, n, lo, l + 1));
        WeightPrefixed(1, Cubes(nodes, n, hi, l + 1));
        WeightAppend(Prefixed(0, Cubes(nodes, n, lo, l + 1)), Prefixed(1, Cubes(nodes, n, hi, l + 1)));
      }
    }
  }

  // ---- bdd_allsat -------------------------------------------------------------------

  /** The profile by level instead of by variable. */
  ghost function View(profile: seq<int>, level2var: seq<nat>): (v: seq<int>)
    requires forall l :: 0 <= l < |level2var| ==> level2var[l] < |profile|
    ensures |v| == |level2var| && forall l :: 0 <= l < |v| ==> v[l] == profile[level2var[l]]
  {
    seq(|level2var|, l requires 0 <= l < |level2var| => profile[level2var[l]])
  }

  ghost predicate IsPermutation(level2var: seq<nat>) {
    && (forall l :: 0 <= l < |level2var| ==> level2var[l] < |level2var|)
    && (forall l, m :: 0 <= l < m < |level2var| ==> level2var[l] != level2var[m])
  }

  /** A cube over the levels from l on, put behind the entries for the levels above. */
  ghost function Completed(front: seq<int>, cubes: seq<seq<int>>): (r: seq<seq<int>>)
    ensures |r| == |cubes| && forall i :: 0 <= i < |cubes| ==> r[i] == front + cubes[i]
  {
    seq(|cubes|, i requires 0 <= i < |cubes| => front + cubes[i])
  }

  class Enumeration {
    const nodes: seq<BddNode>
    const level2var: seq<nat>
    var profile: array<int>
    /** What the handler has been called with. */
    var reports: seq<seq<int>>

    ghost predicate Valid()
      reads this
    {
      Tree(nodes, |level2var|) && IsPermutation(level2var) && profile.Length == |level2var|
    }

    constructor (nodes: seq<BddNode>, level2var: seq<nat>)
      requires Tree(nodes, |level2var|) && IsPermutation(level2var)
      ensures Valid() && fresh(profile) && this.nodes == nodes && this.level2var == level2var && reports == []
    {
      this.nodes, this.level2var := nodes, level2var;
      profile := new int[|level2var|];
      reports := [];
    }

    ghost function Views(reports: seq<seq<int>>): (r: seq<seq<int>>)
      requires IsPermutation(level2var)
      ensures |r| == |reports|
    {
      seq(|reports|, i requires 0 <= i < |reports| => if |reports[i]| == |level2var| then View(reports[i], level2var) else [])
    }

    /** The loop that marks the variables skipped between two levels as don't cares. */
    method Skip(low: nat, high: nat)
      requires Valid() && high <= |level2var|
      modifies profile
      ensures Valid()
      ensures forall l :: 0 <= l < |level2var| ==>
                View(profile[..], level2var)[l] == if low <= l < high then -1 else old(View(profile[..], level2var)[l])
    {
      var v := high - 1;
      while v >= low
        invariant low - 1 <= v < high || v == high - 1
        invariant forall l :: 0 <= l < |level2var| ==>
                    profile[level2var[l]] == if v < l < high then -1 else old(profile[level2var[l]])
        decreases v
      {
        profile[level2var[v]] := -1;
        v := v - 1;
      }
    }

    /** allsat_rec: reports the cubes of r, each behind what the profile holds for the levels
        above r, which it leaves alone. */
    method Rec(r: int)
      requires Valid() && Ref(nodes, r)
      modifies profile, this`reports
      ensures Valid() && nodes[r].level <= |level2var|
      ensures var front := old(View(profile[..], level2var)[..nodes[r].level]);
              && Views(reports) == old(Views(reports)) + Completed(front, Cubes(nodes, |level2var|, r, nodes[r].level))
              && View(profile[..], level2var)[..nodes[r].level] == front
      decreases |level2var| - nodes[r].level, 1
    {
      hide Tree, View, Views, Cubes, Completed, Prefixed;
      Children(nodes, |level2var|, r);
      ghost var n, l, V := |level2var|, nodes[r].level, View(profile[..], level2var);
      if r == 1 {
        CubesTerminal(nodes, n, V);
        ViewsAppend(reports, profile[..]);
        reports := reports + [profile[..]];
        return;
      }
      if r == 0 {
        CubesTerminal(nodes, n, V);
        return;
      }
      if nodes[r].low != 0 {
        Side(r, nodes[r].low, 0);
      } else {
        NoCubes(nodes, n, l + 1, V[..l], 0);
      }
      if nodes[r].high != 0 {
        Side(r, nodes[r].high, 1);
      } else {
        NoCubes(nodes, n, l + 1, V[..l], 1);
      }
      BothSides(nodes, n, r, V[..l]);
    }

    /** One branch of allsat_rec. */
    method Side(r: int, c: int, b: int)
      requires Valid() && Live(nodes, r) && Ref(nodes, c) && nodes[r].level < nodes[c].level <= |level2var|
      modifies profile, this`reports
      ensures Valid()
      ensures var front := old(View(profile[..], level2var)[..nodes[r].level]);
              && Views(reports) == old(Views(reports)) + Completed(front, Prefixed(b, Cubes(nodes, |level2var|, c, nodes[r].level + 1)))
              && View(profile[..], level2var)[..nodes[r].level] == front
      decreases |level2var| - nodes[r].level, 0
    {
      hide Tree, Views, Cubes, Completed, Prefixed;
      ghost var l, V := nodes[r].level, View(profile[..], level2var);
      SetOne(nodes[r].level, b);
      Skip(nodes[r].level + 1, nodes[c].level);
      ghost var front := View(profile[..], level2var)[..nodes[c].level];
      FrontIs(V, View(profile[..], level2var), l, nodes[c].level, b);
      Rec(c);
      SkipCubes(nodes, |level2var|, c, l + 1, V[..l] + [b]);
      CompletedPrefixed(V[..l], b, Cubes(nodes, |level2var|, c, l + 1));
      assert View(profile[..], level2var)[..l] == front[..l];
    }

    method SetOne(l: nat, b: int)
      requires Valid() && l < |level2var|
      modifies profile
      ensures Valid() && View(profile[..], level2var) == old(View(profile[..], level2var))[l := b]
    {
      profile[level2var[l]] := b;
    }

    lemma ViewsAppend(reports: seq<seq<int>>, p: seq<int>)
      requires IsPermutation(level2var) && |p| == |level2var|
      ensures Views(reports + [p]) == Views(reports) + [View(p, level2var)]
    {
    }

    /** bdd_allsat: the handler is called with the cubes of r, which partition its satisfying
        assignments and are as many as bdd_pathcount says. */
    method AllSat(r: int)
      requires Valid() && Ref(nodes, r) && reports == []
      modifies profile, this`reports
      ensures Valid() && Views(reports) == Cubes(nodes, |level2var|, r, 0)
      ensures |reports| == PathCount(nodes, |level2var|, r)
      ensures forall env :: Hits(Views(reports), 0, env) == if Eval(nodes, Levels(|level2var|), r, env) then 1 else 0
      ensures Weight(Views(reports)) == SatCount(nodes, |level2var|, r) == |Sat(nodes, |level2var|, r, 0)|
    {
      hide Ordered, View, Cubes, Completed, Prefixed, Hits, Weight, Eval, Sat, PathCount, SatCountRec;
      assert Views([]) == [];
      ghost var n := |level2var|;
      Children(nodes, n, r);
      Skip(0, nodes[r].level);
      ghost var front := View(profile[..], level2var)[..nodes[r].level];
      assert front == [] + NegOnes(nodes[r].level);
      Rec(r);
      SkipCubes(nodes, n, r, 0, []);
      CompletedNone(Cubes(nodes, n, r, 0));
      assert Views(reports) == Cubes(nodes, n, r, 0);
      CubesCount(nodes, n, r, 0);
      CubesWeight(nodes, n, r, 0);
      SatCountIsSize(nodes, n, r, 0);
      forall env ensures Hits(Views(reports), 0, env) == if Eval(nodes, Levels(n), r, env) then 1 else 0 {
        CubesPartition(nodes, n, r, 0, env);
      }
    }
  }

  ghost function NegOnes(k: nat): (s: seq<int>)
    ensures |s| == k && forall i :: 0 <= i < k ==> s[i] == -1
  {
    seq(k, i => -1)
  }

  lemma CubesTerminal(nodes: seq<BddNode>, n: nat, V: seq<int>)
    requires Tree(nodes, n) && |V| == n
    ensures |nodes| >= 2 && nodes[0].level == nodes[1].level == n
    ensures Completed(V[..n], Cubes(nodes, n, 1, n)) == [V] && Completed(V[..n], Cubes(nodes, n, 0, n)) == []
  {
    assert Completed(V[..n], [[]])[0] == V[..n] + [] == V;
  }

  lemma {:induction false} ZeroCubes(nodes: seq<BddNode>, n: nat, l: nat)
    requires Tree(nodes, n) && l <= n
    ensures |nodes| >= 2 && nodes[0].level == n && Cubes(nodes, n, 0, l) == []
    decreases n - l
  {
    Children(nodes, n, 0);
    if l < n { ZeroCubes(nodes, n, l + 1); }
  }

  lemma NoCubes(nodes: seq<BddNode>, n: nat, l: nat, front: seq<int>, b: int)
    requires Tree(nodes, n) && l <= n
    ensures |nodes| >= 2 && nodes[0].level == n && Completed(front, Prefixed(b, Cubes(nodes, n, 0, l))) == []
  {
    ZeroCubes(nodes, n, l);
  }

  lemma CompletedPrefixed(front: seq<int>, b: int, cubes: seq<seq<int>>)
    ensures Completed(front, Prefixed(b, cubes)) == Completed(front + [b], cubes)
  {
    forall i | 0 <= i < |cubes| ensures front + ([b] + cubes[i]) == (front + [b]) + cubes[i] { }
  }

  lemma CompletedNone(cubes: seq<seq<int>>)
    ensures Completed([], cubes) == cubes
  {
    forall i | 0 <= i < |cubes| ensures [] + cubes[i] == cubes[i] { }
  }

  /** Reporting behind don't cares is the same as having them in the cubes. */
  lemma {:induction false} SkipCubes(nodes: seq<BddNode>, n: nat, r: int, l: nat, front: seq<int>)
    requires Tree(nodes, n) && Ref(nodes, r) && l <= nodes[r].level
    ensures nodes[r].level <= n
    ensures Completed(front + NegOnes(nodes[r].level - l), Cubes(nodes, n, r, nodes[r].level)) == Completed(front, Cubes(nodes, n, r, l))
    decreases n - l
  {
    hide Completed, Prefixed, Tree;
    Children(nodes, n, r);
    if l == nodes[r].level {
      assert front + NegOnes(0) == front;
    } else {
      SkipCubes(nodes, n, r, l + 1, front + [-1]);
      assert front + NegOnes(nodes[r].level - l) == front + [-1] + NegOnes(nodes[r].level - l - 1);
      CompletedPrefixed(front, -1, Cubes(nodes, n, r, l + 1));
    }
  }

  lemma BothSides(nodes: seq<BddNode>, n: nat, r: int, front: seq<int>)
    requires Tree(nodes, n) && Live(nodes, r)
    ensures Ref(nodes, nodes[r].low) && Ref(nodes, nodes[r].high)
    ensures nodes[r].level < nodes[nodes[r].low].level <= n && nodes[r].level < nodes[nodes[r].high].level <= n
    ensures Completed(front, Cubes(nodes, n, r, nodes[r].level)) ==
            Completed(front, Prefixed(0, Cubes(nodes, n, nodes[r].low, nodes[r].level + 1))) +
            Completed(front, Prefixed(1, Cubes(nodes, n, nodes[r].high, nodes[r].level + 1)))
  {
    hide Tree;
    Children(nodes, n, r);
  }

  lemma FrontIs(V: seq<int>, W: seq<int>, l: nat, m: nat, b: int)
    requires |V| == |W| && l < m <= |V|
    requires forall i :: 0 <= i < |W| ==> W[i] == if l + 1 <= i < m then -1 else V[l := b][i]
    ensures W[..m] == V[..l] + [b] + NegOnes(m - l - 1) && W[..l] == V[..l]
  {
  }
}
