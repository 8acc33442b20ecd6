/** Cudd_ApaCountMinterm: exact counting over complement edges with 16-bit digits. */
module MintermCount {
  import opened CuddDiagram
  import opened Apa
  import AllSat

  // ---- the number counted -----------------------------------------------------------

  /** The assignments to the variables V that satisfy f. */
  ghost function Models(f: Edge, V: set<nat>): (s: set<Env>) {
    set e: Env | e <= V && Eval(f, e)
  }

  ghost function Count(f: Edge, V: set<nat>): nat { |Models(f, V)| }

  lemma {:induction false} Ignores(d: Dd, i: nat, env: Env)
    requires i !in Indices(d)
    ensures Holds(d, env + {i}) == Holds(d, env)
  {
    if d.Node? {
      Ignores(d.T, i, env);
      Ignores(d.E.node, i, env);
    }
  }

  /** The models of f by the value of one variable. */
  lemma Split(f: Edge, f0: Edge, f1: Edge, i: nat, V: set<nat>)
    requires i in V
    requires forall e :: e <= V - {i} ==> Eval(f, e) == Eval(f0, e) && Eval(f, e + {i}) == Eval(f1, e)
    ensures Count(f, V) == Count(f0, V - {i}) + Count(f1, V - {i})
  {
    hide Eval;
    var W := V - {i};
    var A, B := Models(f0, W), Models(f1, W);
    AllSat.PlusSize(B, i);
    var C := AllSat.Plus(B, i);
    forall e ensures e in Models(f, V) <==> e in A + C {
      SplitOne(f, f0, f1, i, V, e);
    }
    assert Models(f, V) == A + C;
    assert A !! C;
  }

  lemma SplitOne(f: Edge, f0: Edge, f1: Edge, i: nat, V: set<nat>, e: Env)
    requires i in V
    requires forall e :: e <= V - {i} ==> Eval(f, e) == Eval(f0, e) && Eval(f, e + {i}) == Eval(f1, e)
    ensures e in Models(f, V) <==> e in Models(f0, V - {i}) || e in AllSat.Plus(Models(f1, V - {i}), i)
  {
    hide Eval;
    if i in e {
      assert e == (e - {i}) + {i};
      if e <= V { assert e - {i} <= V - {i}; }
      if e in AllSat.Plus(Models(f1, V - {i}), i) {
        var x :| x in Models(f1, V - {i}) && e == x + {i};
        assert x == e - {i};
      }
    }
  }

  /** A variable that f ignores doubles its count. */
  lemma Doubles(f: Edge, i: nat, V: set<nat>)
    requires i in V && i !in Indices(f.node)
    ensures Count(f, V) == 2 * Count(f, V - {i})
  {
    forall e ensures Eval(f, e + {i}) == Eval(f, e) {
      Ignores(f.node, i, e);
    }
    Split(f, f, f, i, V);
  }

  lemma {:induction false} Below(perm: seq<nat>, d: Dd, i: nat)
    requires Good(perm, d) && i < |perm| && Level(perm, d) > perm[i]
    ensures i !in Indices(d)
  {
    if d.Node? {
      Below(perm, d.T, i);
      Below(perm, d.E.node, i);
    }
  }

  /** |f| = (|f0| + |f1|) / 2 */
  lemma Halves(perm: seq<nat>, d: Dd, V: set<nat>)
    requires d.Node? && Good(perm, d) && Indices(d) <= V
    ensures 2 * Count(Edge(false, d), V) == Count(Edge(false, d.T), V) + Count(d.E, V)
  {
    var i := d.index;
    Below(perm, d.T, i);
    Below(perm, d.E.node, i);
    Doubles(Edge(false, d.T), i, V);
    Doubles(d.E, i, V);
    forall e | e <= V - {i}
      ensures Eval(Edge(false, d), e) == Eval(d.E, e) && Eval(Edge(false, d), e + {i}) == Eval(Edge(false, d.T), e)
    {
      Ignores(d.T, i, e);
    }
    Split(Edge(false, d), d.E, Edge(false, d.T), i, V);
  }

  lemma {:induction false} CountOne(V: set<nat>)
    ensures Count(ONE, V) == Power(2, |V|) && Count(ZERO, V) == 0
    decreases V
  {
    assert Models(ZERO, V) == {};
    if V == {} {
      var empty: Env := {};
      forall e ensures e in Models(ONE, V) <==> e in {empty} {
        if e <= V { assert e == empty; }
      }
      assert Models(ONE, V) == {empty};
    } else {
      var i :| i in V;
      Doubles(ONE, i, V);
      CountOne(V - {i});
    }
  }

  /** |f'| = max - |f| */
  lemma Complemented(f: Edge, V: set<nat>)
    ensures Count(f, V) + Count(Not(f), V) == Power(2, |V|)
  {
    hide Eval, Power;
    CountOne(V);
    var A, B := Models(f, V), Models(Not(f), V);
    forall e ensures Eval(ONE, e) && (Eval(f, e) <==> !Eval(Not(f), e)) {
      Opposite(f, e);
    }
    assert Models(ONE, V) == A + B;
    assert A !! B;
  }

  lemma Opposite(f: Edge, e: Env)
    ensures Eval(ONE, e) && (Eval(f, e) <==> !Eval(Not(f), e))
  {
  }

  // ---- the algorithm ----------------------------------------------------------------

  /** Cudd_ApaNumberOfDigits */
  function NumberOfDigits(binaryDigits: nat): (digits: nat)
    ensures 16 * digits >= binaryDigits && (digits > 0 ==> 16 * (digits - 1) < binaryDigits)
  {
    var digits := binaryDigits / BITS;
    if digits * BITS != binaryDigits then digits + 1 else digits
  }

  lemma NoBorrow(a: int, b: int, d: int, p: int)
    requires 0 <= d < p && 0 <= a - b && (d == a - b || d == a - b + p)
    ensures d == a - b
  {
  }

  lemma NumberBound(a: array<digit>)
    ensures 0 <= Number(a) < Power(BASE, a.Length)
  {
    ValueBound(BASE, a[..]);
  }

  class Counter {
    const digits: nat
    const max: array<digit>
    const min: array<digit>
    /** Only nodes with more than one reference are remembered. */
    const ref: Dd -> nat
    var table: map<Dd, array<digit>>
    ghost const V: set<nat>
    ghost const perm: seq<nat>

    ghost predicate Remembers(d: Dd)
      requires d in table
      reads this, table[d]
    {
      table[d].Length == digits && Number(table[d]) == Count(Edge(false, d), V)
    }

    ghost predicate Valid()
      reads this, max, min, set d | d in table :: table[d]
    {
      && digits > 0 && max.Length == digits && min.Length == digits
      && Number(max) == Power(2, |V|) && Number(min) == 0
      && forall d :: d in table ==> Remembers(d)
    }

    constructor (nvars: nat, ref: Dd -> nat, ghost V: set<nat>, ghost perm: seq<nat>)
      requires |V| == nvars
      ensures Valid() && fresh(max) && fresh(min) && this.V == V && this.perm == perm && digits == NumberOfDigits(nvars + 1)
    {
      var n := NumberOfDigits(nvars + 1);
      var a := new digit[n];
      PowerOfTwo(n, a, nvars);
      var b := new digit[n];
      SetToLiteral(n, b, 0);
      digits, max, min, this.ref, table := n, a, b, ref, map[];
      this.V, this.perm := V, perm;
    }

    /** max - |f| into diff */
    method FromMax(count: array<digit>, diff: array<digit>, ghost f: Edge)
      requires Valid() && count.Length == diff.Length == digits && Number(count) == Count(f, V)
      requires diff != max && diff != count
      modifies diff
      ensures Number(diff) == Count(Not(f), V)
    {
      Complemented(f, V);
      var borrow := Subtract(digits, max, count, diff);
      NumberBound(diff);
      NoBorrow(Power(2, |V|), Count(f, V), Number(diff), Power(BASE, digits));
    }

    /** (first + second) / 2 into mint, where mint may be the second operand; the carry is shifted back in. */
    method Average(first: array<digit>, second: array<digit>, mint: array<digit>)
      requires digits > 0 && first.Length == second.Length == mint.Length == digits
      modifies mint
      ensures Number(mint) == (old(Number(first)) + old(Number(second))) / 2
    {
      var carryout := Add(digits, first, second, mint);
      ShiftRight(digits, carryout, mint, mint);
    }

    /** cuddApaCountMintermAux */
    method Aux(node: Dd) returns (mint: array<digit>)
      requires Valid() && Good(perm, node) && Indices(node) <= V
      modifies this`table
      ensures Valid() && mint.Length == digits && Number(mint) == Count(Edge(false, node), V)
      decreases node, 1
    {
      hide Count, Good, Number, Power;
      if node.One? {
        CountOne(V);
        return max;
      }
      if ref(node) > 1 && node in table {
        assert Remembers(node);
        return table[node];
      }
      mint := Inner(node);
      if ref(node) > 1 {
        table := table[node := mint];
      }
    }

    /** The part of it below the lookup. */
    method Inner(node: Dd) returns (mint: array<digit>)
      requires Valid() && node.Node? && Good(perm, node) && Indices(node) <= V
      modifies this`table
      ensures Valid() && mint.Length == digits && Number(mint) == Count(Edge(false, node), V)
      decreases node, 0
    {
      hide Count, Good, Number, Power;
      GoodChildren(perm, node);
      var Nt, Ne := node.T, node.E;
      var mint1 := Aux(Nt);
      var mint2 := Aux(Ne.node);
      mint := Mean(mint1, mint2, Ne, Count(Edge(false, Nt), V));
      Halves(perm, node, V);
    }

    /** The mean of two counts, the second one first complemented if its edge is. */
    method Mean(mint1: array<digit>, mint2: array<digit>, Ne: Edge, ghost c: nat) returns (mint: array<digit>)
      requires Valid() && mint1.Length == mint2.Length == digits && Number(mint1) == c && Number(mint2) == Count(Edge(false, Ne.node), V)
      ensures fresh(mint) && mint.Length == digits && Number(mint) == (c + Count(Ne, V)) / 2
    {
      hide Count, Power;
      mint := new digit[digits];
      if Ne.neg {
        FromMax(mint2, mint, Edge(false, Ne.node));
        Average(mint1, mint, mint);
      } else {
        Average(mint1, mint2, mint);
      }
    }
  }

  lemma GoodChildren(perm: seq<nat>, d: Dd)
    requires d.Node? && Good(perm, d)
    ensures Good(perm, d.T) && Good(perm, d.E.node)
  {
  }

  /** Cudd_ApaCountMinterm: the number of satisfying assignments to any nvars variables that
      include the support. */
  method CountMinterm(perm: seq<nat>, ref: Dd -> nat, node: Edge, nvars: nat, ghost V: set<nat>) returns (count: array<digit>, digits: nat)
    requires Good(perm, node.node) && Indices(node.node) <= V && |V| == nvars
    ensures digits == NumberOfDigits(nvars + 1) && count.Length == digits && fresh(count)
    ensures Number(count) == Count(node, V)
  {
    var c := new Counter(nvars, ref, V, perm);
    digits := c.digits;
    var i := c.Aux(node.node);
    count := new digit[digits];
    if node.neg {
      c.FromMax(i, count, Edge(false, node.node));
    } else {
      Copy(digits, i, count);
    }
  }
}
