/** Variable orders under exchanges of neighbours: two groups of variables that keep their
    internal order while one of them moves through the other. */
module BlockOrder {
  import opened ReorderTheory
  import opened ReorderSession

  /** The variables of A stand in this order. */
  ghost predicate Increasing(lev: seq<nat>, A: seq<nat>) {
    && (forall a :: 0 <= a < |A| ==> A[a] < |lev|)
    && (forall a, b :: 0 <= a < b < |A| ==> lev[A[a]] < lev[A[b]])
  }

  ghost predicate Inside(lev: seq<nat>, A: seq<nat>, s: nat, e: nat) {
    forall a :: 0 <= a < |A| ==> A[a] < |lev| && s <= lev[A[a]] < e
  }

  /** From level s on, the variables of A and B stand in some interleaving that keeps the
      order inside A and inside B; everything else is as in `before`. */
  ghost predicate Shuffle(lev: seq<nat>, l2v: seq<nat>, before: seq<nat>, A: seq<nat>, B: seq<nat>, s: nat) {
    && Inverse(lev, l2v) && |before| == |l2v| && s + |A| + |B| < |l2v|
    && Increasing(lev, A) && Increasing(lev, B)
    && Inside(lev, A, s, s + |A| + |B|) && Inside(lev, B, s, s + |A| + |B|)
    && (forall k :: s <= k < s + |A| + |B| ==> l2v[k] in A || l2v[k] in B)
    && (forall a, b :: 0 <= a < |A| && 0 <= b < |B| ==> A[a] != B[b])
    && (forall k :: 0 <= k < |l2v| && (k < s || k >= s + |A| + |B|) ==> l2v[k] == before[k])
  }

  /** What stands below A[n] is in B, unless it is A[n + 1] or past the end. */
  lemma Below(lev: seq<nat>, l2v: seq<nat>, before: seq<nat>, A: seq<nat>, B: seq<nat>, s: nat, n: nat) returns (m: nat)
    requires Shuffle(lev, l2v, before, A, B, s) && n < |A|
    requires lev[A[n]] + 1 < s + |A| + |B| && (n + 1 < |A| ==> lev[A[n + 1]] != lev[A[n]] + 1)
    ensures m < |B| && l2v[lev[A[n]] + 1] == B[m] && lev[B[m]] == lev[A[n]] + 1
  {
    var x := l2v[lev[A[n]] + 1];
    assert lev[x] == lev[A[n]] + 1;
    forall a | 0 <= a < |A| ensures lev[A[a]] != lev[x] {
      if a < n { assert lev[A[a]] < lev[A[n]]; }
      if a > n + 1 { assert lev[A[n]] < lev[A[n + 1]] < lev[A[a]]; }
    }
    assert x !in A;
    m :| 0 <= m < |B| && B[m] == x;
  }

  lemma SwapEffect(lev: seq<nat>, l2v: seq<nat>, p: nat, v: nat, w: nat)
    requires Inverse(lev, l2v) && p + 1 < |l2v| && v == l2v[p] && w == l2v[p + 1]
    ensures v < |lev| && w < |lev| && lev[v] == p && lev[w] == p + 1
    ensures Inverse(Swapped(lev, v, w), SwapAt(l2v, p)) && |Swapped(lev, v, w)| == |lev| && |SwapAt(l2v, p)| == |l2v|
    ensures forall x :: 0 <= x < |lev| ==> Swapped(lev, v, w)[x] == if x == v then p + 1 else if x == w then p else lev[x]
    ensures forall k :: 0 <= k < |l2v| ==> SwapAt(l2v, p)[k] == if k == p then w else if k == p + 1 then v else l2v[k]
  {
    SwapInverse(lev, l2v, p, v, w);
  }

  /** A list stays in order when one of its elements takes a free neighbouring level. */
  lemma MoveIncreasing(lev: seq<nat>, lev': seq<nat>, A: seq<nat>, n: nat, p: nat, q: nat)
    requires Increasing(lev, A) && |lev'| == |lev| && n < |A| && lev[A[n]] == p && (q == p + 1 || p == q + 1)
    requires forall a :: 0 <= a < |A| && a != n ==> lev'[A[a]] == lev[A[a]] && lev[A[a]] != q
    requires lev'[A[n]] == q
    ensures Increasing(lev', A)
  {
    forall a, b | 0 <= a < b < |A| ensures lev'[A[a]] < lev'[A[b]] {
      assert lev[A[a]] < lev[A[b]];
    }
  }

  lemma Distinct(lev: seq<nat>, A: seq<nat>, a: nat, b: nat)
    requires Increasing(lev, A) && a < |A| && b < |A| && a != b
    ensures lev[A[a]] != lev[A[b]] && A[a] != A[b]
  {
    if a < b { assert lev[A[a]] < lev[A[b]]; } else { assert lev[A[b]] < lev[A[a]]; }
  }

  /** Moving A[n] down past an element of B. */
  lemma DownKeepsShuffle(lev: seq<nat>, l2v: seq<nat>, before: seq<nat>, A: seq<nat>, B: seq<nat>, s: nat, n: nat,
                         lev': seq<nat>, l2v': seq<nat>)
    requires Shuffle(lev, l2v, before, A, B, s) && n < |A|
    requires lev[A[n]] + 1 < s + |A| + |B| && (n + 1 < |A| ==> lev[A[n + 1]] != lev[A[n]] + 1)
    requires lev[A[n]] + 1 < |l2v| && l2v[lev[A[n]] + 1] < |lev|
    requires lev' == Swapped(lev, A[n], l2v[lev[A[n]] + 1]) && l2v' == SwapAt(l2v, lev[A[n]])
    ensures Shuffle(lev', l2v', before, A, B, s)
    ensures forall a :: 0 <= a < |A| ==> lev'[A[a]] == if a == n then lev[A[a]] + 1 else lev[A[a]]
    ensures forall b :: 0 <= b < |B| ==> lev'[B[b]] == if lev[B[b]] == lev[A[n]] + 1 then lev[A[n]] else lev[B[b]]
  {
    hide Inverse, Swapped, SwapAt, Increasing;
    var p := lev[A[n]];
    var m := Below(lev, l2v, before, A, B, s, n);
    AtLevel(lev, l2v, A[n]);
    SwapEffect(lev, l2v, p, A[n], B[m]);
    forall a | 0 <= a < |A| && a != n ensures lev'[A[a]] == lev[A[a]] && lev[A[a]] != p + 1 {
      Distinct(lev, A, a, n);
      Same(lev, l2v, A[a], B[m]);
    }
    forall b | 0 <= b < |B| && b != m ensures lev'[B[b]] == lev[B[b]] && lev[B[b]] != p {
      Distinct(lev, B, b, m);
      Same(lev, l2v, A[n], B[b]);
    }
    MoveIncreasing(lev, lev', A, n, p, p + 1);
    MoveIncreasing(lev, lev', B, m, p + 1, p);
  }

  lemma AtLevel(lev: seq<nat>, l2v: seq<nat>, x: nat)
    requires Inverse(lev, l2v) && x < |lev|
    ensures |l2v| == |lev| && lev[x] < |l2v| && l2v[lev[x]] == x
  {
  }

  lemma Same(lev: seq<nat>, l2v: seq<nat>, x: nat, y: nat)
    requires Inverse(lev, l2v) && x < |lev| && y < |lev| && x != y
    ensures lev[x] != lev[y]
  {
  }

  ghost function Sum(lev: seq<nat>, A: seq<nat>): nat
    requires forall a :: 0 <= a < |A| ==> A[a] < |lev|
  {
    if A == [] then 0 else Sum(lev, A[..|A| - 1]) + lev[A[|A| - 1]]
  }

  lemma {:induction false} SumStep(lev: seq<nat>, lev': seq<nat>, A: seq<nat>, n: nat)
    requires n < |A| && forall a :: 0 <= a < |A| ==> A[a] < |lev| && A[a] < |lev'|
    requires forall a :: 0 <= a < |A| ==> lev'[A[a]] == if a == n then lev[A[a]] + 1 else lev[A[a]]
    ensures Sum(lev', A) == Sum(lev, A) + 1
  {
    if n < |A| - 1 {
      SumStep(lev, lev', A[..|A| - 1], n);
    } else {
      SumSame(lev, lev', A[..|A| - 1]);
    }
  }

  lemma {:induction false} SumSame(lev: seq<nat>, lev': seq<nat>, A: seq<nat>)
    requires forall a :: 0 <= a < |A| ==> A[a] < |lev| && A[a] < |lev'| && lev'[A[a]] == lev[A[a]]
    ensures Sum(lev', A) == Sum(lev, A)
  {
    if A != [] { SumSame(lev, lev', A[..|A| - 1]); }
  }

  lemma {:induction false} SumBound(lev: seq<nat>, A: seq<nat>, e: nat)
    requires forall a :: 0 <= a < |A| ==> A[a] < |lev| && lev[A[a]] <= e
    ensures Sum(lev, A) <= |A| * e
  {
    if A != [] { SumBound(lev, A[..|A| - 1], e); }
  }

  lemma {:induction false} AtLeast(lev: seq<nat>, A: seq<nat>, s: nat, k: nat)
    requires Increasing(lev, A) && (forall a :: 0 <= a < |A| ==> s <= lev[A[a]]) && k < |A|
    ensures lev[A[k]] >= s + k
  {
    if k > 0 { AtLeast(lev, A, s, k - 1); assert lev[A[k - 1]] < lev[A[k]]; }
  }

  lemma {:induction false} AtMost(lev: seq<nat>, A: seq<nat>, e: nat, k: nat)
    requires Increasing(lev, A) && (forall a :: 0 <= a < |A| ==> lev[A[a]] < e) && k < |A|
    ensures lev[A[k]] <= e - |A| + k
    decreases |A| - k
  {
    if k < |A| - 1 { AtMost(lev, A, e, k + 1); assert lev[A[k]] < lev[A[k + 1]]; }
  }

  /** A list that fills its levels stands there without gaps. */
  lemma Packed(lev: seq<nat>, A: seq<nat>, s: nat)
    requires Increasing(lev, A) && Inside(lev, A, s, s + |A|)
    ensures forall a :: 0 <= a < |A| ==> A[a] < |lev| && lev[A[a]] == s + a
  {
    forall a | 0 <= a < |A| ensures A[a] < |lev| && lev[A[a]] == s + a {
      AtLeast(lev, A, s, a);
      AtMost(lev, A, s + |A|, a);
    }
  }

  lemma LastIsMost(lev: seq<nat>, A: seq<nat>, a: nat)
    requires Increasing(lev, A) && a < |A|
    ensures lev[A[0]] <= lev[A[a]] <= lev[A[|A| - 1]]
  {
    if a > 0 { assert lev[A[0]] < lev[A[a]]; }
    if a < |A| - 1 { assert lev[A[a]] < lev[A[|A| - 1]]; }
  }

  /** Once the first of A is below the last of B, all of A is below all of B. */
  lemma AllPassed(lev: seq<nat>, l2v: seq<nat>, before: seq<nat>, A: seq<nat>, B: seq<nat>, s: nat)
    requires Shuffle(lev, l2v, before, A, B, s) && A != [] && B != [] && lev[A[0]] >= lev[B[|B| - 1]]
    ensures forall b :: 0 <= b < |B| ==> B[b] < |lev| && lev[B[b]] == s + b
    ensures forall a :: 0 <= a < |A| ==> A[a] < |lev| && lev[A[a]] == s + |B| + a
  {
    var e := s + |A| + |B|;
    assert Increasing(lev, A) && Increasing(lev, B);
    Same(lev, l2v, A[0], B[|B| - 1]);
    AtMost(lev, A, e, 0);
    AtLeast(lev, B, s, |B| - 1);
    hide Increasing, Inverse;
    forall b | 0 <= b < |B| ensures s <= lev[B[b]] < s + |B| { LastIsMost(lev, B, b); }
    forall a | 0 <= a < |A| ensures s + |B| <= lev[A[a]] < e { LastIsMost(lev, A, a); }
    Packed(lev, B, s);
    Packed(lev, A, s + |B|);
  }

  /** The levels of a list without gaps hold that list. */
  lemma SegmentIs(lev: seq<nat>, l2v: seq<nat>, A: seq<nat>, s: nat)
    requires Inverse(lev, l2v) && s + |A| <= |l2v| && forall a :: 0 <= a < |A| ==> A[a] < |lev| && lev[A[a]] == s + a
    ensures l2v[s..s + |A|] == A
  {
    forall k | 0 <= k < |A| ensures l2v[s + k] == A[k] {
      assert l2v[lev[A[k]]] == A[k];
    }
  }

  /** What stands above B[n] is in A, unless it is B[n - 1] or before the start. */
  lemma Above(lev: seq<nat>, l2v: seq<nat>, before: seq<nat>, A: seq<nat>, B: seq<nat>, s: nat, n: nat) returns (m: nat)
    requires Shuffle(lev, l2v, before, A, B, s) && n < |B|
    requires lev[B[n]] > s && (n > 0 ==> lev[B[n - 1]] != lev[B[n]] - 1)
    ensures m < |A| && l2v[lev[B[n]] - 1] == A[m] && lev[A[m]] == lev[B[n]] - 1 && (m + 1 < |A| ==> lev[A[m + 1]] != lev[B[n]])
  {
    var x := l2v[lev[B[n]] - 1];
    assert lev[x] == lev[B[n]] - 1;
    forall b | 0 <= b < |B| ensures lev[B[b]] != lev[x] {
      if b > n { assert lev[B[n]] < lev[B[b]]; }
      if b < n - 1 { assert lev[B[b]] < lev[B[n - 1]] < lev[B[n]]; }
    }
    assert x !in B;
    m :| 0 <= m < |A| && A[m] == x;
    if m + 1 < |A| { assert A[m + 1] != B[n]; }
  }

  /** Moving B[n] up past an element of A. */
  lemma UpKeepsShuffle(lev: seq<nat>, l2v: seq<nat>, before: seq<nat>, A: seq<nat>, B: seq<nat>, s: nat, n: nat,
                       lev': seq<nat>, l2v': seq<nat>)
    requires Shuffle(lev, l2v, before, A, B, s) && n < |B|
    requires lev[B[n]] > s && (n > 0 ==> lev[B[n - 1]] != lev[B[n]] - 1)
    requires lev[B[n]] < |l2v| && l2v[lev[B[n]] - 1] < |lev|
    requires lev' == Swapped(lev, l2v[lev[B[n]] - 1], B[n]) && l2v' == SwapAt(l2v, lev[B[n]] - 1)
    ensures Shuffle(lev', l2v', before, A, B, s)
    ensures forall b :: 0 <= b < |B| ==> lev'[B[b]] == if b == n then lev[B[b]] - 1 else lev[B[b]]
  {
    hide Inverse, Swapped, SwapAt, Increasing;
    var m := Above(lev, l2v, before, A, B, s, n);
    AtLevel(lev, l2v, B[n]);
    DownKeepsShuffle(lev, l2v, before, A, B, s, m, lev', l2v');
    forall b | 0 <= b < |B| && b != n ensures lev[B[b]] != lev[B[n]] { Distinct(lev, B, b, n); }
  }

  // ---- what the second loop of blockdown arrives at ---------------------------------

  /** How far the element k has been lifted after t rounds: an element starts to move one
      round after the element before it. */
  function Lifted(t: nat, k: nat): nat { if t > k then t - k else 0 }

  /** During round t + 1, with the elements above n done. */
  ghost predicate Spread(lev: seq<nat>, R: seq<nat>, s: nat, g: nat, t: nat, n: int) {
    forall k :: 0 <= k < |R| ==> R[k] < |lev| && lev[R[k]] == s + g + k - if k > n then Lifted(t + 1, k) else Lifted(t, k)
  }

  /** R and G taken alternately, R first, and then what is left over. */
  function Interleave(R: seq<nat>, G: seq<nat>): seq<nat> {
    if R == [] then G else if G == [] then R else [R[0], G[0]] + Interleave(R[1..], G[1..])
  }

  ghost predicate Alternates(lev: seq<nat>, R: seq<nat>, s: nat, g: nat) {
    forall k :: 0 <= k < |R| ==> R[k] < |lev| && lev[R[k]] == s + k + if k < g then k else g
  }

  lemma LevelOf(lev: seq<nat>, l2v: seq<nat>, k: nat)
    requires Inverse(lev, l2v) && k < |l2v|
    ensures l2v[k] < |lev| && lev[l2v[k]] == k
  {
  }

  lemma SecondPlace(lev: seq<nat>, l2v: seq<nat>, before: seq<nat>, G: seq<nat>, R: seq<nat>, s: nat)
    requires Shuffle(lev, l2v, before, G, R, s) && Alternates(lev, R, s, |G|) && R != [] && G != []
    ensures R[0] < |lev| && G[0] < |lev| && lev[R[0]] == s && lev[G[0]] == s + 1
  {
    hide Inverse, Increasing;
    var x := l2v[s + 1];
    LevelOf(lev, l2v, s + 1);
    assert x !in R;
    var j :| 0 <= j < |G| && G[j] == x;
    LastIsMost(lev, G, j);
    Same(lev, l2v, R[0], G[0]);
  }

  lemma TailIncreasing(lev: seq<nat>, A: seq<nat>)
    requires Increasing(lev, A) && A != []
    ensures Increasing(lev, A[1..]) && forall k :: 1 <= k < |A| ==> A[k] < |lev| && lev[A[0]] < lev[A[k]]
  {
  }

  lemma Tails(lev: seq<nat>, l2v: seq<nat>, before: seq<nat>, G: seq<nat>, R: seq<nat>, s: nat)
    requires Shuffle(lev, l2v, before, G, R, s) && Alternates(lev, R, s, |G|) && R != [] && G != []
    ensures Shuffle(lev, l2v, l2v, G[1..], R[1..], s + 2) && Alternates(lev, R[1..], s + 2, |G[1..]|)
  {
    hide Inverse, Increasing;
    SecondPlace(lev, l2v, before, G, R, s);
    var G', R' := G[1..], R[1..];
    TailIncreasing(lev, G);
    TailIncreasing(lev, R);
    forall k | s + 2 <= k < s + |G| + |R| ensures l2v[k] in G' || l2v[k] in R' {
      LevelOf(lev, l2v, k);
      var x := l2v[k];
      if x in G { var a :| 0 <= a < |G| && G[a] == x; assert a > 0; assert G'[a - 1] == x; }
      else { var b :| 0 <= b < |R| && R[b] == x; assert b > 0; assert R'[b - 1] == x; }
    }
  }

  lemma {:induction false} Interleaved(lev: seq<nat>, l2v: seq<nat>, before: seq<nat>, G: seq<nat>, R: seq<nat>, s: nat)
    requires Shuffle(lev, l2v, before, G, R, s) && Alternates(lev, R, s, |G|)
    ensures l2v[s..s + |G| + |R|] == Interleave(R, G)
    decreases |R|
  {
    hide Inverse, Increasing, Inside;
    if R == [] {
      Packed(lev, G, s);
      SegmentIs(lev, l2v, G, s);
    } else if G == [] {
      SegmentIs(lev, l2v, R, s);
    } else {
      hide Shuffle, Alternates;
      SecondPlace(lev, l2v, before, G, R, s);
      Tails(lev, l2v, before, G, R, s);
      Interleaved(lev, l2v, l2v, G[1..], R[1..], s + 2);
      AtLevel(lev, l2v, R[0]);
      AtLevel(lev, l2v, G[0]);
      assert l2v[s..s + |G| + |R|] == [l2v[s], l2v[s + 1]] + l2v[s + 2..s + |G| + |R|];
    }
  }

  /** The blocks are exchanged cleanly exactly when nothing stands between them or the
      right one is a single variable. */
  lemma CleanExchange(R: seq<nat>, G: seq<nat>)
    requires forall a, b :: 0 <= a < |R| && 0 <= b < |G| ==> R[a] != G[b]
    ensures Interleave(R, G) == R + G <==> |R| <= 1 || G == []
  {
    if R == [] {
      assert R + G == G;
    } else if G == [] {
      assert R + G == R;
    } else {
      var both := Interleave(R, G);
      var rest := Interleave(R[1..], G[1..]);
      hide Interleave;
      assert both == [R[0], G[0]] + rest;
      if |R| == 1 {
        OneInterleaved(R, G);
      } else {
        assert both[1] == G[0] && (R + G)[1] == R[1];
      }
    }
  }

  lemma OneInterleaved(R: seq<nat>, G: seq<nat>)
    requires |R| == 1 && G != []
    ensures Interleave(R, G) == R + G
  {
    assert Interleave(R[1..], G[1..]) == G[1..];
  }

  lemma {:induction false} InterleaveSize(R: seq<nat>, G: seq<nat>)
    ensures |Interleave(R, G)| == |R| + |G|
  {
    if R != [] && G != [] { InterleaveSize(R[1..], G[1..]); }
  }

  // ---- bdd_setvarorder --------------------------------------------------------------

  predicate Permutation(order: seq<nat>) {
    forall i, j :: 0 <= i < j < |order| ==> order[i] != order[j]
  }

  /** The order agrees with the requested one on its first n levels. */
  predicate FollowsTo(l2v: seq<nat>, order: seq<nat>, n: nat) {
    n <= |order| <= |l2v| && forall k :: 0 <= k < n ==> l2v[k] == order[k]
  }

  /** The first place of v. */
  function Where(l2v: seq<nat>, v: nat): (p: nat)
    ensures p <= |l2v| && (p < |l2v| ==> l2v[p] == v) && forall k :: 0 <= k < p ==> l2v[k] != v
  {
    if l2v == [] || l2v[0] == v then 0 else 1 + Where(l2v[1..], v)
  }

  /** The order with v taken out and put in at level n, if it stands lower. */
  function PutAt(l2v: seq<nat>, n: nat, v: nat): seq<nat> {
    var p := Where(l2v, v);
    if n < p < |l2v| then l2v[..n] + [v] + l2v[n..p] + l2v[p + 1..] else l2v
  }

  /** The order after the variables of `order` have been lifted to their levels, from level n on. */
  function Arranged(l2v: seq<nat>, order: seq<nat>, n: nat): seq<nat>
    requires n <= |order|
    decreases |order| - n
  {
    if n == |order| then l2v else Arranged(PutAt(l2v, n, order[n]), order, n + 1)
  }

  lemma WhereIs(lev: seq<nat>, l2v: seq<nat>, v: nat)
    requires Inverse(lev, l2v) && v < |lev|
    ensures Where(l2v, v) == lev[v]
  {
    assert l2v[lev[v]] == v;
    assert lev[l2v[Where(l2v, v)]] == Where(l2v, v);
  }

  lemma VariableAt(lev: seq<nat>, l2v: seq<nat>, v: nat)
    requires Inverse(lev, l2v) && v < |lev|
    ensures lev[v] < |l2v| && l2v[lev[v]] == v && v !in l2v[..lev[v]]
  {
    forall k | 0 <= k < lev[v] ensures l2v[k] != v {
      assert lev[l2v[k]] == k;
    }
  }

  /** Taking v out behind A and putting it in at level n. */
  lemma PutSplit(A: seq<nat>, v: nat, B: seq<nat>, n: nat)
    requires n <= |A| && v !in A
    ensures PutAt(A + [v] + B, n, v) == A[..n] + [v] + A[n..] + B
  {
    var l2v, p := A + [v] + B, Where(A + [v] + B, v);
    assert l2v[|A|] == v && forall k :: 0 <= k < |A| ==> l2v[k] == A[k];
    assert l2v[..n] == A[..n] && l2v[n..p] == A[n..] && l2v[p + 1..] == B;
    if p == n {
      assert A[..n] == A && A[n..] == [];
    }
  }

  /** Moving v up by one level changes nothing about where lifting it leads. */
  lemma UpLifts(lev: seq<nat>, l2v: seq<nat>, lev': seq<nat>, l2v': seq<nat>, n: nat, v: nat)
    requires Inverse(lev, l2v) && Inverse(lev', l2v') && v < |lev| && n < lev[v] && |lev'| == |lev| && lev'[v] == lev[v] - 1
    requires l2v' == SwapAt(l2v, lev[v] - 1)
    ensures PutAt(l2v', n, v) == PutAt(l2v, n, v)
  {
    hide PutAt, Where, Inverse;
    VariableAt(lev, l2v, v);
    var p := lev[v];
    var A, x, B := l2v[..p - 1], l2v[p - 1], l2v[p + 1..];
    assert l2v == A + [x] + [v] + B && l2v' == A + [v] + ([x] + B);
    PutSplit(A, v, [x] + B, n);
    PutSplit(A + [x], v, B, n);
    assert (A + [x])[..n] == A[..n] && (A + [x])[n..] == A[n..] + [x];
  }

  lemma StandsThere(lev: seq<nat>, l2v: seq<nat>, order: seq<nat>, n: nat)
    requires Inverse(lev, l2v) && n < |order| <= |l2v| && l2v[..|order|] == order
    ensures order[n] < |lev| && lev[order[n]] == n
  {
    assert l2v[n] == order[n];
  }

  lemma NotLifted(lev: seq<nat>, l2v: seq<nat>, n: nat, v: nat)
    requires Inverse(lev, l2v) && v < |lev| && lev[v] <= n
    ensures PutAt(l2v, n, v) == l2v
  {
    WhereIs(lev, l2v, v);
  }

  lemma UpFollows(lev: seq<nat>, l2v: seq<nat>, lev': seq<nat>, l2v': seq<nat>, order: seq<nat>, n: nat, v: nat)
    requires Inverse(lev, l2v) && v < |lev| && lev[v] > n
    requires l2v' == SwapAt(l2v, lev[v] - 1) && l2v[lev[v] - 1] < |lev| && lev' == Swapped(lev, l2v[lev[v] - 1], v)
    ensures FollowsTo(l2v, order, n) ==> FollowsTo(l2v', order, n)
    ensures |lev'| == |lev| && lev'[v] == lev[v] - 1
  {
  }

  /** When the loop for level n is over, order[n] stands at n: it cannot stand higher, for
      the levels above hold other variables. */
  lemma NextFollows(lev: seq<nat>, l2v: seq<nat>, order: seq<nat>, n: nat)
    requires Inverse(lev, l2v) && n < |order| <= |l2v| && order[n] < |lev| && lev[order[n]] <= n
    ensures Permutation(order) && FollowsTo(l2v, order, n) ==> FollowsTo(l2v, order, n + 1)
  {
    var k := lev[order[n]];
    assert l2v[k] == order[n];
  }

  lemma OrderReached(lev: seq<nat>, l2v: seq<nat>, order: seq<nat>)
    requires Inverse(lev, l2v) && |order| <= |l2v| && (Permutation(order) ==> FollowsTo(l2v, order, |order|))
    ensures l2v[..|order|] == order <==> Permutation(order)
  {
    if l2v[..|order|] == order {
      forall i, j | 0 <= i < j < |order| ensures order[i] != order[j] {
        assert l2v[i] == order[i] && l2v[j] == order[j];
        assert lev[l2v[i]] == i && lev[l2v[j]] == j;
      }
    }
  }

  // ---- bdd_swapvar ------------------------------------------------------------------

  /** The variable at level k after the variable at l has moved down to p. */
  function DownAt(before: seq<nat>, l: nat, p: nat, k: nat): nat
    requires l <= p < |before| && k < |before|
  {
    if k < l || k > p then before[k] else if k == p then before[l] else before[k + 1]
  }

  /** The variable at level k after the variable at l has moved up to p. */
  function UpAt(before: seq<nat>, l: nat, p: nat, k: nat): nat
    requires p <= l < |before| && k < |before|
  {
    if k < p || k > l then before[k] else if k == p then before[l] else before[k - 1]
  }

  ghost predicate MovedDown(before: seq<nat>, l2v: seq<nat>, l: nat, p: nat) {
    |l2v| == |before| && l <= p < |before| && forall k :: 0 <= k < |before| ==> l2v[k] == DownAt(before, l, p, k)
  }

  ghost predicate MovedUp(before: seq<nat>, l2v: seq<nat>, l: nat, p: nat) {
    |l2v| == |before| && p <= l < |before| && forall k :: 0 <= k < |before| ==> l2v[k] == UpAt(before, l, p, k)
  }

  lemma DownFurther(before: seq<nat>, l2v: seq<nat>, l: nat, p: nat)
    requires MovedDown(before, l2v, l, p) && p + 1 < |l2v|
    ensures MovedDown(before, SwapAt(l2v, p), l, p + 1)
  {
    forall k | 0 <= k < |before| ensures SwapAt(l2v, p)[k] == DownAt(before, l, p + 1, k) {
      assert l2v[k] == DownAt(before, l, p, k) && l2v[p] == DownAt(before, l, p, p) && l2v[p + 1] == DownAt(before, l, p, p + 1);
    }
  }

  lemma UpFurther(before: seq<nat>, l2v: seq<nat>, l: nat, p: nat)
    requires MovedUp(before, l2v, l, p) && p > 0
    ensures MovedUp(before, SwapAt(l2v, p - 1), l, p - 1)
  {
    var q, after := p - 1, SwapAt(l2v, p - 1);
    forall k | 0 <= k < |before| ensures after[k] == UpAt(before, l, q, k) {
      assert l2v[k] == UpAt(before, l, p, k) && l2v[p] == UpAt(before, l, p, p) && l2v[p - 1] == UpAt(before, l, p, p - 1);
    }
  }

  lemma DownThenUp(before: seq<nat>, mid: seq<nat>, after: seq<nat>, l1: nat, l2: nat)
    requires l1 < l2 && MovedDown(before, mid, l1, l2) && MovedUp(mid, after, l2 - 1, l1)
    ensures after == before[l1 := before[l2]][l2 := before[l1]]
  {
    forall k | 0 <= k < |before| ensures after[k] == before[l1 := before[l2]][l2 := before[l1]][k] {
      assert after[k] == UpAt(mid, l2 - 1, l1, k);
      assert mid[k] == DownAt(before, l1, l2, k) && mid[l2 - 1] == DownAt(before, l1, l2, l2 - 1);
      assert k > 0 ==> mid[k - 1] == DownAt(before, l1, l2, k - 1);
    }
  }

  lemma MovedNowhere(lev: seq<nat>, l2v: seq<nat>, v: nat)
    requires Inverse(lev, l2v) && v < |lev|
    ensures MovedDown(l2v, l2v, lev[v], lev[v]) && MovedUp(l2v, l2v, lev[v], lev[v])
  {
  }

  lemma SwappedAt(lev: seq<nat>, l2v: seq<nat>, v: nat)
    requires Inverse(lev, l2v) && v < |lev| && lev[v] + 1 < |l2v|
    ensures l2v[lev[v] + 1] < |lev| && |Swapped(lev, v, l2v[lev[v] + 1])| == |lev| && Swapped(lev, v, l2v[lev[v] + 1])[v] == lev[v] + 1
  {
    var w := l2v[lev[v] + 1];
    assert lev[w] == lev[v] + 1;
  }

  lemma SwappedBelow(lev: seq<nat>, l2v: seq<nat>, v: nat)
    requires Inverse(lev, l2v) && v < |lev| && lev[v] > 0
    ensures l2v[lev[v] - 1] < |lev| && |Swapped(lev, l2v[lev[v] - 1], v)| == |lev| && Swapped(lev, l2v[lev[v] - 1], v)[v] == lev[v] - 1
  {
    var w := l2v[lev[v] - 1];
    assert lev[w] == lev[v] - 1;
  }

  lemma TwoVariables(lev: seq<nat>, l2v: seq<nat>, v: nat, w: nat)
    requires Inverse(lev, l2v) && v < |lev| - 1 && w < |lev| - 1 && v != w && lev[|lev| - 1] == |lev| - 1
    ensures lev[v] != lev[w] && lev[v] < |lev| - 1 && lev[w] < |lev| - 1 && l2v[lev[v]] == v && l2v[lev[w]] == w
  {
    assert l2v[|lev| - 1] == |lev| - 1;
  }

  lemma OtherMoved(before: seq<nat>, lev: seq<nat>, l2v: seq<nat>, l1: nat, l2: nat, w: nat)
    requires MovedDown(before, l2v, l1, l2) && l1 < l2 && before[l2] == w && Inverse(lev, l2v)
    ensures w < |lev| && lev[w] == l2 - 1
  {
    assert l2v[l2 - 1] == DownAt(before, l1, l2, l2 - 1) == w;
  }

  // ---- the steps of blockdown -------------------------------------------------------

  /** The variables of the list stand at consecutive levels from s on. */
  ghost predicate StandsAt(lev: seq<nat>, A: seq<nat>, s: nat) {
    forall a :: 0 <= a < |A| ==> A[a] < |lev| && lev[A[a]] == s + a
  }

  /** A contiguous group L, whatever stands in the gap, and a contiguous group R below. */
  lemma GroupsShuffle(lev: seq<nat>, l2v: seq<nat>, L: seq<nat>, R: seq<nat>, s: nat, r: nat) returns (B: seq<nat>)
    requires Inverse(lev, l2v) && StandsAt(lev, L, s) && StandsAt(lev, R, r) && s + |L| <= r && r + |R| < |l2v|
    ensures B == l2v[s + |L|..r] + R && |B| == r + |R| - s - |L|
    ensures Shuffle(lev, l2v, l2v, L, B, s)
    ensures StandsAt(lev, B, s + |L|)
  {
    B := l2v[s + |L|..r] + R;
    forall b | 0 <= b < |B| ensures B[b] < |lev| && lev[B[b]] == s + |L| + b {
      if b < r - s - |L| {
        LevelOf(lev, l2v, s + |L| + b);
        assert B[b] == l2v[s + |L| + b];
      } else {
        assert B[b] == R[b - (r - s - |L|)];
      }
    }
    StandsShuffle(lev, l2v, L, B, s);
  }

  lemma StandsShuffle(lev: seq<nat>, l2v: seq<nat>, A: seq<nat>, B: seq<nat>, s: nat)
    requires Inverse(lev, l2v) && StandsAt(lev, A, s) && StandsAt(lev, B, s + |A|) && s + |A| + |B| < |l2v|
    ensures Shuffle(lev, l2v, l2v, A, B, s)
  {
    forall k | s <= k < s + |A| + |B| ensures l2v[k] in A || l2v[k] in B {
      if k < s + |A| { AtLevel(lev, l2v, A[k - s]); } else { AtLevel(lev, l2v, B[k - s - |A|]); }
    }
  }

  lemma SegmentAt(lev: seq<nat>, l2v: seq<nat>, A: seq<nat>, s: nat)
    requires Inverse(lev, l2v) && StandsAt(lev, A, s) && s + |A| <= |l2v|
    ensures l2v[s..s + |A|] == A
  {
    SegmentIs(lev, l2v, A, s);
  }

  lemma ShuffleRange(lev: seq<nat>, l2v: seq<nat>, before: seq<nat>, A: seq<nat>, B: seq<nat>, s: nat)
    requires Shuffle(lev, l2v, before, A, B, s)
    ensures forall a :: 0 <= a < |A| ==> A[a] < |lev| && s <= lev[A[a]] < s + |A| + |B| < |lev| == |l2v|
    ensures forall b :: 0 <= b < |B| ==> B[b] < |lev| && s <= lev[B[b]] < s + |A| + |B|
    ensures forall a, b :: 0 <= a < |A| && 0 <= b < |B| ==> lev[A[a]] != lev[B[b]]
  {
    forall a, b | 0 <= a < |A| && 0 <= b < |B| ensures lev[A[a]] != lev[B[b]] {
      Same(lev, l2v, A[a], B[b]);
    }
  }

  /** Element n of R is lifted in round t + 1 exactly when a variable of the gap stands
      directly above it. */
  lemma SpreadGap(lev: seq<nat>, R: seq<nat>, s: nat, g: nat, t: nat, n: nat)
    requires Spread(lev, R, s, g, t, n) && t < g && n < |R|
    ensures forall k :: 0 <= k < |R| ==> R[k] < |lev| && lev[R[k]] >= s
    ensures lev[R[n]] > s
    ensures n > 0 ==> (lev[R[n - 1]] != lev[R[n]] - 1 <==> t >= n)
  {
  }

  lemma SpreadStep(lev: seq<nat>, lev': seq<nat>, R: seq<nat>, s: nat, g: nat, t: nat, n: nat)
    requires Spread(lev, R, s, g, t, n) && t < g && n < |R| && |lev'| == |lev| && t >= n
    requires forall k :: 0 <= k < |R| ==> R[k] < |lev| && lev'[R[k]] == if k == n then lev[R[k]] - 1 else lev[R[k]]
    ensures Spread(lev', R, s, g, t, n - 1)
  {
  }

  lemma SpreadSkip(lev: seq<nat>, R: seq<nat>, s: nat, g: nat, t: nat, n: nat)
    requires Spread(lev, R, s, g, t, n) && t < n
    ensures Spread(lev, R, s, g, t, n - 1)
  {
  }

  lemma SpreadRound(lev: seq<nat>, R: seq<nat>, s: nat, g: nat, t: nat)
    requires Spread(lev, R, s, g, t, -1)
    ensures Spread(lev, R, s, g, t + 1, |R| - 1)
  {
  }

  lemma SpreadStart(lev: seq<nat>, R: seq<nat>, s: nat, g: nat)
    requires StandsAt(lev, R, s + g)
    ensures Spread(lev, R, s, g, 0, |R| - 1)
  {
  }

  lemma SpreadFirst(lev: seq<nat>, R: seq<nat>, s: nat, g: nat, t: nat)
    requires Spread(lev, R, s, g, t, |R| - 1) && t <= g && R != []
    ensures R[0] < |lev| && lev[R[0]] == s + g - t
    ensures t == g ==> Alternates(lev, R, s, g)
  {
  }

  lemma SplitStands(lev: seq<nat>, G: seq<nat>, R: seq<nat>, s: nat)
    requires StandsAt(lev, G + R, s)
    ensures StandsAt(lev, G, s) && StandsAt(lev, R, s + |G|)
  {
    assert forall k :: 0 <= k < |G| ==> (G + R)[k] == G[k];
    assert forall k :: 0 <= k < |R| ==> (G + R)[|G| + k] == R[k];
  }

  /** What the two loops of blockdown together make of the order: the gap is woven into the
      right block. */
  lemma BlocksExchanged(before: seq<nat>, mid: seq<nat>, lev: seq<nat>, l2v: seq<nat>, L: seq<nat>, G: seq<nat>, R: seq<nat>, s: nat)
    requires |mid| == |before| && s + |L| + |G| + |R| < |before|
    requires forall k :: 0 <= k < |before| && (k < s || k >= s + |L| + |G| + |R|) ==> mid[k] == before[k]
    requires mid[s + |G| + |R|..s + |G| + |R| + |L|] == L
    requires Shuffle(lev, l2v, mid, G, R, s) && Alternates(lev, R, s, |G|)
    ensures l2v == before[..s] + Interleave(R, G) + L + before[s + |L| + |G| + |R|..]
  {
    hide Shuffle, Interleave, Alternates;
    Interleaved(lev, l2v, mid, G, R, s);
    OutsideShuffle(lev, l2v, mid, G, R, s);
    Assemble(before, mid, l2v, s, s + |G| + |R|, s + |G| + |R| + |L|, Interleave(R, G), L);
  }

  lemma Assemble(before: seq<nat>, mid: seq<nat>, l2v: seq<nat>, s: nat, e: nat, f: nat, M: seq<nat>, L: seq<nat>)
    requires |l2v| == |mid| == |before| && s <= e <= f <= |before|
    requires forall k :: 0 <= k < |before| && (k < s || k >= f) ==> mid[k] == before[k]
    requires forall k :: 0 <= k < |l2v| && (k < s || k >= e) ==> l2v[k] == mid[k]
    requires l2v[s..e] == M && mid[e..f] == L
    ensures l2v == before[..s] + M + L + before[f..]
  {
    assert l2v == before[..s] + l2v[s..e] + mid[e..f] + before[f..];
  }

  lemma OutsideShuffle(lev: seq<nat>, l2v: seq<nat>, before: seq<nat>, A: seq<nat>, B: seq<nat>, s: nat)
    requires Shuffle(lev, l2v, before, A, B, s)
    ensures |l2v| == |before| && forall k :: 0 <= k < |l2v| && (k < s || k >= s + |A| + |B|) ==> l2v[k] == before[k]
  {
  }

  /** The order after blockdown on a left block L at level s, a gap G, and a right block R. */
  function BlockdownOrder(before: seq<nat>, s: nat, L: seq<nat>, G: seq<nat>, R: seq<nat>): seq<nat>
    requires s + |L| + |G| + |R| <= |before|
  {
    before[..s] + Interleave(R, G) + L + before[s + |L| + |G| + |R|..]
  }

  /** blockdown exchanges the two blocks exactly when they are adjacent or the right one is a
      single variable; otherwise the right block does not stay contiguous. */
  lemma BlockdownExchanges(before: seq<nat>, s: nat, L: seq<nat>, G: seq<nat>, R: seq<nat>)
    requires s + |L| + |G| + |R| <= |before| && R != []
    requires forall a, b :: 0 <= a < |R| && 0 <= b < |G| ==> R[a] != G[b]
    ensures BlockdownOrder(before, s, L, G, R) == before[..s] + R + G + L + before[s + |L| + |G| + |R|..] <==> |R| == 1 || G == []
  {
    CleanExchange(R, G);
    InterleaveSize(R, G);
    var I, tail := Interleave(R, G), before[s + |L| + |G| + |R|..];
    var x := BlockdownOrder(before, s, L, G, R);
    var y := before[..s] + R + G + L + tail;
    assert x[s..s + |I|] == I;
    assert y[s..s + |I|] == R + G;
    assert before[..s] + (R + G) == before[..s] + R + G;
  }

  /** Two contiguous groups of variables among the first n levels, L above R. */
  ghost predicate TwoGroups(lev: seq<nat>, L: seq<nat>, R: seq<nat>, n: nat) {
    && L != [] && R != [] && L[0] < |lev| && R[0] < |lev|
    && StandsAt(lev, L, lev[L[0]]) && StandsAt(lev, R, lev[R[0]])
    && lev[L[0]] + |L| <= lev[R[0]] && lev[R[0]] + |R| <= n
  }

  /** What blockdown makes of the order, with the exact condition for a clean exchange. */
  ghost predicate GroupsExchanged(lev: seq<nat>, before: seq<nat>, after: seq<nat>, L: seq<nat>, R: seq<nat>) {
    && TwoGroups(lev, L, R, |before|)
    && var s, r := lev[L[0]], lev[R[0]];
       var G := before[s + |L|..r];
       && after == BlockdownOrder(before, s, L, G, R)
       && (after == before[..s] + R + G + L + before[r + |R|..] <==> |R| == 1 || G == [])
  }

  lemma GroupsAreExchanged(lev: seq<nat>, before: seq<nat>, after: seq<nat>, L: seq<nat>, R: seq<nat>, n: nat)
    requires Inverse(lev, before) && TwoGroups(lev, L, R, n) && n <= |before|
    requires after == BlockdownOrder(before, lev[L[0]], L, before[lev[L[0]] + |L|..lev[R[0]]], R)
    ensures GroupsExchanged(lev, before, after, L, R)
  {
    hide Inverse, BlockdownOrder, Interleave;
    GapDisjoint(lev, before, R, lev[L[0]] + |L|, lev[R[0]]);
    BlockdownExchanges(before, lev[L[0]], L, before[lev[L[0]] + |L|..lev[R[0]]], R);
  }

  /** Three variables, the middle one in no block and the last two a block: blockdown weaves
      them together. */
  lemma BlockdownTearsBlock()
    ensures BlockdownOrder([0, 1, 2, 3], 0, [0], [1], [2, 3]) == [2, 1, 3, 0]
  {
    assert Interleave([2, 3], [1]) == [2, 1] + Interleave([3], []);
  }

  lemma GapDisjoint(lev: seq<nat>, l2v: seq<nat>, R: seq<nat>, s: nat, r: nat)
    requires Inverse(lev, l2v) && StandsAt(lev, R, r) && s <= r <= |l2v|
    ensures forall a, b :: 0 <= a < |R| && 0 <= b < |l2v[s..r]| ==> R[a] != l2v[s..r][b]
  {
    forall a, b | 0 <= a < |R| && 0 <= b < |l2v[s..r]| ensures R[a] != l2v[s..r][b] {
      LevelOf(lev, l2v, s + b);
    }
  }
}
