/** The bit-parallel parenthesis matcher and the stack algorithm it is checked against. */
module Parens {
  import opened Streams

  // ---- the specification: counting open parentheses ---------------------------------

  /** The number of open parentheses before position i, when P holds the opening and Q the
      closing ones; a closing one without a partner is ignored. */
  ghost function Open(P: Stream, Q: Stream, i: nat): nat
    requires i <= |P| == |Q|
  {
    if i == 0 then 0
    else
      var c := Open(P, Q, i - 1);
      if P[i - 1] then c + 1 else if Q[i - 1] && c > 0 then c - 1 else c
  }

  ghost function MaxOpen(P: Stream, Q: Stream, i: nat): (m: nat)
    requires i <= |P| == |Q|
    ensures m >= Open(P, Q, i)
  {
    if i == 0 then 0
    else
      var m := MaxOpen(P, Q, i - 1);
      if Open(P, Q, i) > m then Open(P, Q, i) else m
  }

  /** The closing parenthesis at i has a partner. */
  ghost predicate Matched(P: Stream, Q: Stream, i: nat)
    requires i < |P| == |Q|
  {
    Q[i] && Open(P, Q, i) > 0
  }

  /** The parenthesis opened at j has not been closed before position i: the depth has stayed above what
      it was at j. */
  ghost predicate StillOpen(P: Stream, Q: Stream, j: nat, i: nat)
    requires j < i <= |P| == |Q|
  {
    P[j] && forall t :: j < t <= i ==> Open(P, Q, t) > Open(P, Q, j)
  }

  /** The closing parenthesis at i belongs to the opening one at j, and k is the greatest depth between
      them, over the depth inside the pair. */
  ghost predicate Nests(P: Stream, Q: Stream, j: nat, i: nat, k: nat)
    requires j < i < |P| == |Q|
  {
    && StillOpen(P, Q, j, i) && Open(P, Q, j) + 1 == Open(P, Q, i)
    && (forall t :: j < t <= i ==> Open(P, Q, t) <= Open(P, Q, i) + k)
    && exists t :: j < t <= i && Open(P, Q, t) == Open(P, Q, i) + k
  }

  /** The closing parenthesis at i has a partner, with k levels of pairs between them. */
  ghost predicate MatchedAt(P: Stream, Q: Stream, i: nat, k: nat)
    requires i < |P| == |Q|
  {
    Q[i] && exists j :: 0 <= j < i && Nests(P, Q, j, i, k)
  }

  // ---- how deep the pairs are -------------------------------------------------------

  /** The greatest depth in the stretch up to i where the depth is at least c. */
  ghost function Peak(P: Stream, Q: Stream, i: nat, c: nat): (m: nat)
    requires i <= |P| == |Q| && c >= 1
    ensures m >= c - 1 && (Open(P, Q, i) >= c ==> m >= Open(P, Q, i))
  {
    if Open(P, Q, i) < c then c - 1
    else
      var m := Peak(P, Q, i - 1, c);
      if Open(P, Q, i) > m then Open(P, Q, i) else m
  }

  ghost function Height(P: Stream, Q: Stream, i: nat): (h: nat)
    requires i <= |P| == |Q|
  {
    if Open(P, Q, i) > 0 then Peak(P, Q, i, Open(P, Q, i)) - Open(P, Q, i) else 0
  }

  /** In a stretch behind j the peak is the greatest depth. */
  lemma {:induction false} PeakBehind(P: Stream, Q: Stream, j: nat, i: nat, c: nat) returns (t: nat)
    requires j < i <= |P| == |Q| && c >= 1 && Open(P, Q, j) < c && forall s :: j < s <= i ==> Open(P, Q, s) >= c
    ensures forall s :: j < s <= i ==> Open(P, Q, s) <= Peak(P, Q, i, c)
    ensures j < t <= i && Open(P, Q, t) == Peak(P, Q, i, c)
    decreases i
  {
    t := i;
    if j < i - 1 {
      var t1 := PeakBehind(P, Q, j, i - 1, c);
      if Open(P, Q, i) <= Peak(P, Q, i - 1, c) { t := t1; }
    }
  }

  /** Where the depth is at least c there is a last position where it was raised to c. */
  lemma {:induction false} RaisedTo(P: Stream, Q: Stream, i: nat, c: nat) returns (j: nat)
    requires i <= |P| == |Q| && 1 <= c <= Open(P, Q, i)
    ensures j < i && P[j] && Open(P, Q, j) == c - 1 && forall s :: j < s <= i ==> Open(P, Q, s) >= c
  {
    if Open(P, Q, i - 1) < c {
      j := i - 1;
    } else {
      j := RaisedTo(P, Q, i - 1, c);
    }
  }

  lemma HeightIs(P: Stream, Q: Stream, i: nat, k: nat)
    requires i < |P| == |Q|
    ensures MatchedAt(P, Q, i, k) <==> Matched(P, Q, i) && Height(P, Q, i) == k
  {
    hide Open, Peak;
    var c := Open(P, Q, i);
    if Q[i] && c > 0 && Height(P, Q, i) == k {
      var j := RaisedTo(P, Q, i, c);
      var t := PeakBehind(P, Q, j, i, c);
      assert Nests(P, Q, j, i, k);
    }
    if MatchedAt(P, Q, i, k) {
      var j :| 0 <= j < i && Nests(P, Q, j, i, k);
      var t := PeakBehind(P, Q, j, i, c);
    }
  }

  // ---- one iteration ----------------------------------------------------------------

  /** The last parenthesis before position i is an opening one. */
  ghost predicate AfterOpen(P: Stream, Q: Stream, i: nat)
    requires i <= |P| == |Q|
  {
    i > 0 && (P[i - 1] || (!Q[i - 1] && AfterOpen(P, Q, i - 1)))
  }

  /** No two markers meet, so every one stops at the next parenthesis in play. */
  lemma {:induction false} CarryIsAfterOpen(P: Stream, Q: Stream, i: nat)
    requires i < |P| == |Q| && !P[|P| - 1] && !Q[|P| - 1] && forall k :: 0 <= k < |P| ==> !(P[k] && Q[k])
    ensures AfterOpen(P, Q, i) == (Carry(Advance(P), Or(P, Q), i) || Advance(P)[i])
    ensures !(Carry(Advance(P), Or(P, Q), i) && Advance(P)[i])
  {
    if i > 0 { CarryIsAfterOpen(P, Q, i - 1); }
  }

  lemma ScanIsAfterOpen(P: Stream, Q: Stream, i: nat)
    requires i < |P| == |Q| && !P[|P| - 1] && !Q[|P| - 1] && forall k :: 0 <= k < |P| ==> !(P[k] && Q[k])
    ensures ScanTo(Advance(P), Or(P, Q))[i] == (AfterOpen(P, Q, i) && (P[i] || Q[i] || i == |P| - 1))
  {
    CarryIsAfterOpen(P, Q, i);
  }

  /** What is left in play: of every run of opening parentheses the first is gone, and the
      closing one after the run. */
  ghost predicate Reduced(P: Stream, Q: Stream, P': Stream, Q': Stream) {
    && |P| == |Q| == |P'| == |Q'|
    && forall i :: 0 <= i < |P| ==> P'[i] == (P[i] && AfterOpen(P, Q, i)) && Q'[i] == (Q[i] && !AfterOpen(P, Q, i))
  }

  /** The count of open parentheses drops by one exactly where a marker is under way. */
  lemma {:induction false} ReducedOpen(P: Stream, Q: Stream, P': Stream, Q': Stream, i: nat)
    requires Reduced(P, Q, P', Q') && i <= |P| && forall k :: 0 <= k < |P| ==> !(P[k] && Q[k])
    ensures Open(P', Q', i) == Open(P, Q, i) - if AfterOpen(P, Q, i) then 1 else 0
  {
    if i > 0 { ReducedOpen(P, Q, P', Q', i - 1); }
  }

  lemma {:induction false} ReducedMax(P: Stream, Q: Stream, P': Stream, Q': Stream, i: nat)
    requires Reduced(P, Q, P', Q') && i <= |P| && forall k :: 0 <= k < |P| ==> !(P[k] && Q[k])
    ensures MaxOpen(P', Q', i) == if MaxOpen(P, Q, i) > 0 then MaxOpen(P, Q, i) - 1 else 0
    ensures !AfterOpen(P, Q, i) ==> Open(P, Q, i) == 0 || Open(P, Q, i) < MaxOpen(P, Q, i)
  {
    ReducedOpen(P, Q, P', Q', i);
    if i > 0 { ReducedMax(P, Q, P', Q', i - 1); }
  }

  /** So does the peak of every stretch. */
  lemma {:induction false} ReducedPeak(P: Stream, Q: Stream, P': Stream, Q': Stream, i: nat, c: nat)
    requires Reduced(P, Q, P', Q') && i <= |P| && c >= 1 && forall k :: 0 <= k < |P| ==> !(P[k] && Q[k])
    ensures Peak(P', Q', i, c) == if Open(P, Q, i) < c then c - 1 else Peak(P, Q, i, c) - 1
    ensures Open(P, Q, i) >= c && !AfterOpen(P, Q, i) ==> Open(P, Q, i) < Peak(P, Q, i, c)
  {
    ReducedOpen(P, Q, P', Q', i);
    if i > 0 {
      ReducedOpen(P, Q, P', Q', i - 1);
      ReducedPeak(P, Q, P', Q', i - 1, c);
    }
  }

  /** A pair is matched when nothing is left between its parentheses. */
  lemma ReducedHeight(P: Stream, Q: Stream, P': Stream, Q': Stream, i: nat)
    requires Reduced(P, Q, P', Q') && i < |P| && Open(P, Q, i) > 0 && forall k :: 0 <= k < |P| ==> !(P[k] && Q[k])
    ensures AfterOpen(P, Q, i) <==> Height(P, Q, i) == 0
    ensures !AfterOpen(P, Q, i) ==> Open(P', Q', i) == Open(P, Q, i) && Height(P', Q', i) + 1 == Height(P, Q, i)
  {
    hide AfterOpen;
    ReducedOpen(P, Q, P', Q', i);
    ReducedPeak(P, Q, P', Q', i, Open(P, Q, i));
  }

  lemma {:induction false} NoneOpen(P: Stream, Q: Stream, i: nat)
    requires i <= |P| == |Q| && !Any(P)
    ensures Open(P, Q, i) == 0 && MaxOpen(P, Q, i) == 0
  {
    if i > 0 { NoneOpen(P, Q, i - 1); }
  }

  lemma {:induction false} SomeOpen(P: Stream, Q: Stream, j: nat, i: nat)
    requires j < i <= |P| == |Q| && P[j]
    ensures MaxOpen(P, Q, i) > 0
  {
    if i > j + 1 { SomeOpen(P, Q, j, i - 1); }
  }

  // ---- the kernel -------------------------------------------------------------------

  /** The character classes of the two parentheses. */
  method Classes(bytes: seq<byte>) returns (lparen: Stream, rparen: Stream)
    ensures |lparen| == |rparen| == |bytes| + 1 && !lparen[|bytes|] && !rparen[|bytes|]
    ensures forall i :: 0 <= i < |bytes| ==> lparen[i] == (bytes[i] == 0x28) && rparen[i] == (bytes[i] == 0x29)
  {
    var b0, b1, b2, b3 := Basis(bytes, 0), Basis(bytes, 1), Basis(bytes, 2), Basis(bytes, 3);
    var b4, b5, b6, b7 := Basis(bytes, 4), Basis(bytes, 5), Basis(bytes, 6), Basis(bytes, 7);
    var temp1 := Or(b0, b1);
    var temp2 := And(b2, Not(b3));
    var temp3 := And(temp2, Not(temp1));
    var temp4 := And(b4, Not(b5));
    var temp5 := Or(b6, b7);
    var temp6 := And(temp4, Not(temp5));
    lparen := And(temp3, temp6);
    var temp7 := And(b7, Not(b6));
    var temp8 := And(temp4, temp7);
    rparen := And(temp3, temp8);
    forall i | 0 <= i < |bytes| ensures lparen[i] == (bytes[i] == 0x28) && rparen[i] == (bytes[i] == 0x29) {
      ParenBits(bytes[i]);
    }
  }

  lemma ParenBits(b: byte)
    ensures (!Bit(b, 0) && !Bit(b, 1) && Bit(b, 2) && !Bit(b, 3) && Bit(b, 4) && !Bit(b, 5) && !Bit(b, 6) && !Bit(b, 7)) == (b == 0x28)
    ensures (!Bit(b, 0) && !Bit(b, 1) && Bit(b, 2) && !Bit(b, 3) && Bit(b, 4) && !Bit(b, 5) && !Bit(b, 6) && Bit(b, 7)) == (b == 0x29)
  {
  }

  ghost predicate Paired(P: Stream, Q: Stream) {
    |P| == |Q| > 0 && !P[|P| - 1] && !Q[|P| - 1] && forall k :: 0 <= k < |P| ==> !(P[k] && Q[k])
  }

  /** The closing parentheses that have not been used yet. */
  ghost function Rest(rparen: Stream, all_closed: Stream): (r: Stream)
    requires |rparen| == |all_closed|
    ensures |r| == |rparen| && forall i :: 0 <= i < |r| ==> r[i] == (rparen[i] && !all_closed[i])
  {
    And(rparen, Not(all_closed))
  }

  /** P is what is pending and Q what is left of the closing parentheses: every iteration has
      preserved which of them have partners, and has taken one off the nesting depth. */
  ghost predicate Faithful(lparen: Stream, rparen: Stream, P: Stream, all_closed: Stream, errors: Stream, rounds: nat)
    requires Paired(lparen, rparen)
  {
    var n := |lparen| - 1;
    && |P| == |all_closed| == |errors| == |lparen| && !P[n]
    && var Q := Rest(rparen, all_closed);
       && (forall i :: 0 <= i <= n && P[i] ==> lparen[i])
       && (forall i :: 0 <= i < n && Q[i] ==> Open(P, Q, i) == Open(lparen, rparen, i))
       && (forall i :: 0 <= i < n && Q[i] && Open(P, Q, i) > 0 ==> Height(P, Q, i) + rounds == Height(lparen, rparen, i))
       && (forall i :: 0 <= i <= n && all_closed[i] ==> Matched(lparen, rparen, i) && Height(lparen, rparen, i) < rounds)
       && (forall i :: 0 <= i < n ==> !errors[i])
       && (errors[n] || Open(P, Q, n) > 0 <==> Open(lparen, rparen, n) > 0)
       && MaxOpen(P, Q, n) + rounds == MaxOpen(lparen, rparen, n)
  }

  lemma FaithfulStart(lparen: Stream, rparen: Stream, all_closed: Stream, errors: Stream)
    requires Paired(lparen, rparen) && all_closed == Zeroes(|lparen| - 1) && errors == Zeroes(|lparen| - 1)
    ensures Faithful(lparen, rparen, lparen, all_closed, errors, 0)
  {
    assert Rest(rparen, all_closed) == rparen;
  }

  /** One iteration: what ScanTo finds, and that the invariant is kept. */
  lemma Iteration(lparen: Stream, rparen: Stream, P: Stream, all_closed: Stream, errors: Stream, rounds: nat, pscan: Stream)
    requires Paired(lparen, rparen) && Faithful(lparen, rparen, P, all_closed, errors, rounds) && Any(P)
    requires pscan == ScanTo(Advance(P), Or(P, Rest(rparen, all_closed)))
    ensures |pscan| == |lparen|
    ensures forall i :: 0 <= i < |lparen| ==> (pscan[i] && rparen[i] <==> Matched(lparen, rparen, i) && Height(lparen, rparen, i) == rounds)
    ensures Faithful(lparen, rparen, And(pscan, lparen), Or(all_closed, And(pscan, rparen)), Or(errors, AtEOF(pscan)), rounds + 1)
    ensures MaxOpen(P, Rest(rparen, all_closed), |lparen| - 1) > 0
  {
    hide Open, MaxOpen, Height, AfterOpen, ScanTo, Advance, Any;
    var n, Q := |lparen| - 1, Rest(rparen, all_closed);
    var P', closed' := And(pscan, lparen), Or(all_closed, And(pscan, rparen));
    var Q' := Rest(rparen, closed');
    forall i | 0 <= i <= n ensures pscan[i] == (AfterOpen(P, Q, i) && (P[i] || Q[i] || i == n)) {
      ScanIsAfterOpen(P, Q, i);
    }
    assert Reduced(P, Q, P', Q');
    forall i | 0 <= i < n && Q[i] ensures AfterOpen(P, Q, i) <==> Open(P, Q, i) > 0 && Height(P, Q, i) == 0 {
      AfterOpenIsOpen(P, Q, i);
      if Open(P, Q, i) > 0 { ReducedHeight(P, Q, P', Q', i); }
    }
    forall i | 0 <= i < n && Q'[i]
      ensures Open(P', Q', i) == Open(P, Q, i)
      ensures Open(P', Q', i) > 0 ==> Height(P', Q', i) + 1 == Height(P, Q, i)
    {
      ReducedOpen(P, Q, P', Q', i);
      if Open(P, Q, i) > 0 { ReducedHeight(P, Q, P', Q', i); }
    }
    ReducedOpen(P, Q, P', Q', n);
    AfterOpenIsOpen(P, Q, n);
    ReducedMax(P, Q, P', Q', n);
    AnyOpen(P, Q);
  }

  lemma {:induction false} AfterOpenIsOpen(P: Stream, Q: Stream, i: nat)
    requires i <= |P| == |Q| && forall k :: 0 <= k < |P| ==> !(P[k] && Q[k])
    ensures AfterOpen(P, Q, i) ==> Open(P, Q, i) > 0
  {
    if i > 0 { AfterOpenIsOpen(P, Q, i - 1); }
  }

  lemma AnyOpen(P: Stream, Q: Stream)
    requires |P| == |Q| > 0 && Any(P) && !P[|P| - 1]
    ensures MaxOpen(P, Q, |P| - 1) > 0
  {
    var j :| 0 <= j < |P| && P[j];
    SomeOpen(P, Q, j, |P| - 1);
  }

  lemma Finished(lparen: Stream, rparen: Stream, P: Stream, all_closed: Stream, errors: Stream, rounds: nat)
    requires Paired(lparen, rparen) && Faithful(lparen, rparen, P, all_closed, errors, rounds) && !Any(P)
    ensures forall i :: 0 <= i < |lparen| ==> all_closed[i] == Matched(lparen, rparen, i) && (all_closed[i] ==> Height(lparen, rparen, i) < rounds)
    ensures forall i :: 0 <= i < |lparen| ==> errors[i] == (i == |lparen| - 1 && Open(lparen, rparen, |lparen| - 1) > 0)
    ensures rounds == MaxOpen(lparen, rparen, |lparen| - 1)
  {
    hide Any, Open, MaxOpen;
    var n, Q := |lparen| - 1, Rest(rparen, all_closed);
    NoneOpen(P, Q, n);
    forall i | 0 <= i < |lparen| ensures all_closed[i] == Matched(lparen, rparen, i) {
      if i < n { NoneOpen(P, Q, i); }
    }
  }

  ghost predicate InMatch(matches: seq<Stream>, k: nat, i: nat) {
    k < |matches| && i < |matches[k]| && matches[k][i]
  }

  /** Stream k holds the closing parentheses with k levels of pairs before them. */
  ghost predicate Recorded(lparen: Stream, rparen: Stream, matches: seq<Stream>)
    requires |lparen| == |rparen|
  {
    && (forall k :: 0 <= k < |matches| ==> |matches[k]| == |lparen|)
    && forall k, i :: 0 <= k < |matches| && 0 <= i < |lparen| ==> (InMatch(matches, k, i) <==> Matched(lparen, rparen, i) && Height(lparen, rparen, i) == k)
  }

  lemma RecordMore(lparen: Stream, rparen: Stream, matches: seq<Stream>, closed_rparen: Stream)
    requires |lparen| == |rparen| && Recorded(lparen, rparen, matches) && |closed_rparen| == |lparen|
    requires forall i :: 0 <= i < |lparen| ==> (closed_rparen[i] <==> Matched(lparen, rparen, i) && Height(lparen, rparen, i) == |matches|)
    ensures Recorded(lparen, rparen, matches + [closed_rparen])
  {
    hide Matched, Height;
    var m := matches + [closed_rparen];
    forall k, i | 0 <= k < |m| && 0 <= i < |lparen| ensures InMatch(m, k, i) <==> Matched(lparen, rparen, i) && Height(lparen, rparen, i) == k {
      assert k < |matches| ==> (InMatch(m, k, i) <==> InMatch(matches, k, i));
    }
  }

  /** The loop of the matcher: the streams it computes and the number of its iterations, in
      terms of counting open parentheses. */
  method MatchLoop(lparen: Stream, rparen: Stream) returns (matches: seq<Stream>, all_closed: Stream, accumulated_errors: Stream)
    requires Paired(lparen, rparen)
    ensures |all_closed| == |accumulated_errors| == |lparen|
    ensures forall i :: 0 <= i < |lparen| ==> all_closed[i] == Matched(lparen, rparen, i)
    ensures forall i :: 0 <= i < |lparen| ==> accumulated_errors[i] == (i == |lparen| - 1 && Open(lparen, rparen, |lparen| - 1) > 0)
    ensures |matches| == MaxOpen(lparen, rparen, |lparen| - 1)
    ensures Recorded(lparen, rparen, matches) && forall i :: 0 <= i < |lparen| && Matched(lparen, rparen, i) ==> Height(lparen, rparen, i) < |matches|
  {
    hide Height, Open, MaxOpen, ScanTo, Advance, Faithful, Recorded, Matched;
    var n := |lparen| - 1;
    var pending_lparen := lparen;
    all_closed := Zeroes(n);
    accumulated_errors := Zeroes(n);
    var in_play := Or(lparen, rparen);
    matches := [];
    FaithfulStart(lparen, rparen, all_closed, accumulated_errors);
    NothingRecorded(lparen, rparen);
    assert Rest(rparen, all_closed) == rparen;
    while Any(pending_lparen)
      invariant |pending_lparen| == |all_closed| == |accumulated_errors| == |in_play| == |lparen|
      invariant in_play == Or(pending_lparen, Rest(rparen, all_closed))
      invariant Faithful(lparen, rparen, pending_lparen, all_closed, accumulated_errors, |matches|)
      invariant Recorded(lparen, rparen, matches)
      decreases MaxOpen(lparen, rparen, n) - |matches|
    {
      var adv_pending_lparen := Advance(pending_lparen);
      var pscan := Zeroes(n);
      if Any(adv_pending_lparen) {
        pscan := ScanTo(adv_pending_lparen, in_play);
      } else {
        NothingAdvanced(pending_lparen, in_play);
      }
      RoundsLeft(lparen, rparen, pending_lparen, all_closed, accumulated_errors, |matches|);
      Iteration(lparen, rparen, pending_lparen, all_closed, accumulated_errors, |matches|, pscan);
      pending_lparen := And(pscan, lparen);
      var closed_rparen := And(pscan, rparen);
      RecordMore(lparen, rparen, matches, closed_rparen);
      all_closed := Or(all_closed, closed_rparen);
      var unmatched_lparen := AtEOF(pscan);
      accumulated_errors := Or(accumulated_errors, unmatched_lparen);
      var pending_rparen := And(rparen, Not(all_closed));
      in_play := Or(pending_lparen, pending_rparen);
      matches := matches + [closed_rparen];
    }
    Finished(lparen, rparen, pending_lparen, all_closed, accumulated_errors, |matches|);
  }

  lemma NothingRecorded(lparen: Stream, rparen: Stream)
    requires |lparen| == |rparen|
    ensures Recorded(lparen, rparen, [])
  {
  }

  lemma RoundsLeft(lparen: Stream, rparen: Stream, P: Stream, all_closed: Stream, errors: Stream, rounds: nat)
    requires Paired(lparen, rparen) && Faithful(lparen, rparen, P, all_closed, errors, rounds) && Any(P)
    ensures rounds < MaxOpen(lparen, rparen, |lparen| - 1)
  {
    hide Open, MaxOpen, Any;
    AnyOpen(P, Rest(rparen, all_closed));
  }

  /** Skipping the scan when there is nothing to scan from changes nothing. */
  lemma NothingAdvanced(P: Stream, to: Stream)
    requires |P| == |to| > 0 && !Any(Advance(P))
    ensures ScanTo(Advance(P), to) == Zeroes(|P| - 1)
  {
    forall i | 0 <= i < |P| ensures !ScanTo(Advance(P), to)[i] {
      NoCarry(Advance(P), to, i);
    }
  }

  lemma {:induction false} NoCarry(m: Stream, to: Stream, i: nat)
    requires i <= |m| == |to| && !Any(m)
    ensures !Carry(m, to, i)
  {
    if i > 0 { NoCarry(m, to, i - 1); }
  }

  // ---- the stack algorithm ----------------------------------------------------------

  ghost function Is(bytes: seq<byte>, c: byte): (r: Stream)
    ensures |r| == |bytes| + 1 && !r[|bytes|] && forall i :: 0 <= i < |bytes| ==> r[i] == (bytes[i] == c)
  {
    seq(|bytes| + 1, i requires 0 <= i <= |bytes| => i < |bytes| && bytes[i] == c)
  }

  /** The stack at position i: the parentheses that are still open, one for each depth. */
  ghost predicate StackAt(P: Stream, Q: Stream, i: nat, stack: seq<nat>)
    requires i <= |P| == |Q|
  {
    && |stack| == Open(P, Q, i)
    && (forall d :: 0 <= d < |stack| ==> stack[d] < i && Open(P, Q, stack[d]) == d)
    && (forall d, e :: 0 <= d < e < |stack| ==> stack[d] < stack[e])
    && forall j: nat :: j in stack <==> j < i && StillOpen(P, Q, j, i)
  }

  lemma StackStep(P: Stream, Q: Stream, i: nat, stack: seq<nat>, stack': seq<nat>)
    requires i < |P| == |Q| && StackAt(P, Q, i, stack)
    requires stack' == if P[i] then stack + [i] else if Q[i] && stack != [] then stack[..|stack| - 1] else stack
    ensures StackAt(P, Q, i + 1, stack')
  {
    forall j: nat ensures j in stack' <==> j < i + 1 && StillOpen(P, Q, j, i + 1) {
      if j < i {
        assert StillOpen(P, Q, j, i + 1) <==> StillOpen(P, Q, j, i) && Open(P, Q, i + 1) > Open(P, Q, j);
      }
    }
  }

  /** The closing parentheses before position i without a partner, first to last. */
  ghost predicate StraysAt(P: Stream, Q: Stream, i: nat, strays: seq<nat>)
    requires i <= |P| == |Q|
  {
    Rising(strays, i) && forall k: nat :: k in strays <==> k < i && Stray(P, Q, k)
  }

  ghost predicate Stray(P: Stream, Q: Stream, k: nat)
    requires k < |P| == |Q|
  {
    Q[k] && !Matched(P, Q, k)
  }

  predicate Rising(s: seq<nat>, i: nat) {
    (forall d :: 0 <= d < |s| ==> s[d] < i) && forall d, e :: 0 <= d < e < |s| ==> s[d] < s[e]
  }

  lemma RisingMore(s: seq<nat>, i: nat)
    requires Rising(s, i)
    ensures Rising(s, i + 1) && Rising(s + [i], i + 1)
  {
  }

  lemma StraysStep(P: Stream, Q: Stream, i: nat, strays: seq<nat>, strays': seq<nat>)
    requires i < |P| == |Q| && StraysAt(P, Q, i, strays) && strays' == if Q[i] && Open(P, Q, i) == 0 then strays + [i] else strays
    ensures StraysAt(P, Q, i + 1, strays')
  {
    hide Rising, Open;
    RisingMore(strays, i);
  }

  lemma StackSize(P: Stream, Q: Stream, i: nat, stack: seq<nat>)
    requires i <= |P| == |Q| && StackAt(P, Q, i, stack)
    ensures |stack| == Open(P, Q, i)
  {
  }

  lemma MaxStep(P: Stream, Q: Stream, i: nat)
    requires i < |P| == |Q|
    ensures MaxOpen(P, Q, i + 1) == if P[i] && Open(P, Q, i) + 1 > MaxOpen(P, Q, i) then Open(P, Q, i) + 1 else MaxOpen(P, Q, i)
  {
  }

  lemma StackStart(P: Stream, Q: Stream)
    requires |P| == |Q|
    ensures StackAt(P, Q, 0, []) && StraysAt(P, Q, 0, []) && MaxOpen(P, Q, 0) == 0
  {
  }

  /** check: a stack of open parentheses. */
  method Check(bytes: seq<byte>) returns (maxDepth: nat, unmatched_left: seq<nat>, unmatched_right: seq<nat>)
    ensures maxDepth == MaxOpen(Is(bytes, 0x28), Is(bytes, 0x29), |bytes|)
    ensures StackAt(Is(bytes, 0x28), Is(bytes, 0x29), |bytes|, unmatched_left)
    ensures StraysAt(Is(bytes, 0x28), Is(bytes, 0x29), |bytes|, unmatched_right)
  {
    hide StackAt, StraysAt, MaxOpen;
    ghost var P, Q := Is(bytes, 0x28), Is(bytes, 0x29);
    StackStart(P, Q);
    maxDepth, unmatched_left, unmatched_right := 0, [], [];
    var i := 0;
    while i < |bytes|
      invariant i <= |bytes|
      invariant maxDepth == MaxOpen(P, Q, i) && StackAt(P, Q, i, unmatched_left)
      invariant StraysAt(P, Q, i, unmatched_right)
    {
      StackSize(P, Q, i, unmatched_left);
      MaxStep(P, Q, i);
      ghost var strays := unmatched_right;
      ghost var stack := unmatched_left;
      if bytes[i] == 0x28 {
        unmatched_left := unmatched_left + [i];
        maxDepth := if |unmatched_left| > maxDepth then |unmatched_left| else maxDepth;
      } else if bytes[i] == 0x29 {
        if unmatched_left == [] {
          unmatched_right := unmatched_right + [i];
        } else {
          unmatched_left := unmatched_left[..|unmatched_left| - 1];
        }
      }
      StackStep(P, Q, i, stack, unmatched_left);
      StraysStep(P, Q, i, strays, unmatched_right);
      i := i + 1;
    }
  }

  /** ParenthesisMatchingKernel against the stack algorithm: the in-file error bits are the
      unmatched closing parentheses, the bit at the end of file says that an opening one is
      unmatched, stream k of the matches holds the closing parentheses with k levels of pairs before
      them, and the loop is run as often as the stack is deep. */
  method MatchParens(bytes: seq<byte>) returns (matches: seq<Stream>, errors: Stream)
    ensures |errors| == |bytes| + 1
    ensures forall i :: 0 <= i < |bytes| ==> errors[i] == (bytes[i] == 0x29 && !Matched(Is(bytes, 0x28), Is(bytes, 0x29), i))
    ensures errors[|bytes|] == (Open(Is(bytes, 0x28), Is(bytes, 0x29), |bytes|) > 0)
    ensures |matches| == MaxOpen(Is(bytes, 0x28), Is(bytes, 0x29), |bytes|)
    ensures forall i, k :: 0 <= i <= |bytes| && 0 <= k < |matches| ==> (InMatch(matches, k, i) <==> MatchedAt(Is(bytes, 0x28), Is(bytes, 0x29), i, k))
    ensures forall i :: 0 <= i <= |bytes| && Matched(Is(bytes, 0x28), Is(bytes, 0x29), i) ==> exists k :: 0 <= k < |matches| && InMatch(matches, k, i)
  {
    hide Open, MaxOpen, Height, Matched, MatchedAt, InMatch;
    var lparen, rparen := Classes(bytes);
    assert lparen == Is(bytes, 0x28) && rparen == Is(bytes, 0x29);
    var all_closed, accumulated_errors;
    matches, all_closed, accumulated_errors := MatchLoop(lparen, rparen);
    forall i, k | 0 <= i <= |bytes| && 0 <= k < |matches| ensures InMatch(matches, k, i) <==> MatchedAt(lparen, rparen, i, k) {
      HeightIs(lparen, rparen, i, k);
    }
    forall i | 0 <= i <= |bytes| && Matched(lparen, rparen, i) ensures exists k :: 0 <= k < |matches| && InMatch(matches, k, i) {
      assert InMatch(matches, Height(lparen, rparen, i), i);
    }
    var unmatched_rparen := And(rparen, Not(all_closed));
    errors := Or(accumulated_errors, unmatched_rparen);
  }

  /** Both on the same input: the in-file error bits are the unmatched closing parentheses, the
      bit at the end of file says that an opening one is unmatched, and the parallel loop runs
      as often as the stack is deep. */
  method MatchAndCheck(bytes: seq<byte>) returns (matches: seq<Stream>, errors: Stream,
                                                   maxDepth: nat, unmatched_left: seq<nat>, unmatched_right: seq<nat>)
    ensures |errors| == |bytes| + 1 && |matches| == maxDepth
    ensures forall i :: 0 <= i < |bytes| ==> (errors[i] <==> i in unmatched_right)
    ensures errors[|bytes|] <==> unmatched_left != []
    ensures forall i :: 0 <= i < |bytes| ==>
              ((exists k :: 0 <= k < |matches| && InMatch(matches, k, i)) <==> bytes[i] == 0x29 && i !in unmatched_right)
    ensures forall i, k :: 0 <= i <= |bytes| && 0 <= k < |matches| ==> (InMatch(matches, k, i) <==> MatchedAt(Is(bytes, 0x28), Is(bytes, 0x29), i, k))
  {
    hide Open, MaxOpen, InMatch, MatchedAt;
    maxDepth, unmatched_left, unmatched_right := Check(bytes);
    matches, errors := MatchParens(bytes);
    forall i, k | 0 <= i <= |bytes| && 0 <= k < |matches| && MatchedAt(Is(bytes, 0x28), Is(bytes, 0x29), i, k) ensures Matched(Is(bytes, 0x28), Is(bytes, 0x29), i) {
      HeightIs(Is(bytes, 0x28), Is(bytes, 0x29), i, k);
    }
  }
}
