/** Bit streams of the Pablo language.  A stream over n input positions is a sequence of n + 1
    bits; the last one is the end-of-file position. */
module Streams {
  type Stream = seq<bool>

  type byte = b: int | 0 <= b < 256

  function Zeroes(n: nat): (r: Stream)
    ensures |r| == n + 1 && forall i :: 0 <= i <= n ==> !r[i]
  {
    seq(n + 1, i => false)
  }

  function And(a: Stream, b: Stream): (r: Stream)
    requires |a| == |b|
    ensures |r| == |a| && forall i :: 0 <= i < |a| ==> r[i] == (a[i] && b[i])
  {
    seq(|a|, i requires 0 <= i < |a| => a[i] && b[i])
  }

  function Or(a: Stream, b: Stream): (r: Stream)
    requires |a| == |b|
    ensures |r| == |a| && forall i :: 0 <= i < |a| ==> r[i] == (a[i] || b[i])
  {
    seq(|a|, i requires 0 <= i < |a| => a[i] || b[i])
  }

  function Xor(a: Stream, b: Stream): (r: Stream)
    requires |a| == |b|
    ensures |r| == |a| && forall i :: 0 <= i < |a| ==> r[i] == (a[i] != b[i])
  {
    seq(|a|, i requires 0 <= i < |a| => a[i] != b[i])
  }

  function Not(a: Stream): (r: Stream)
    ensures |r| == |a| && forall i :: 0 <= i < |a| ==> r[i] == !a[i]
  {
    seq(|a|, i requires 0 <= i < |a| => !a[i])
  }

  /** Advance by one position. */
  function Advance(a: Stream): (r: Stream)
    ensures |r| == |a| && forall i :: 0 <= i < |a| ==> r[i] == (i > 0 && a[i - 1])
  {
    seq(|a|, i requires 0 <= i < |a| => i > 0 && a[i - 1])
  }

  /** The condition of an If or a While. */
  predicate Any(a: Stream) { exists i :: 0 <= i < |a| && a[i] }

  function AtEOF(a: Stream): (r: Stream)
    ensures |r| == |a| && forall i :: 0 <= i < |a| ==> r[i] == (a[i] && i == |a| - 1)
  {
    seq(|a|, i requires 0 <= i < |a| => a[i] && i == |a| - 1)
  }

  // ---- the input --------------------------------------------------------------------

  /** Basis bit k of the input; bit 0 is the most significant one. */
  function Basis(bytes: seq<byte>, k: nat): (r: Stream)
    requires k < 8
    ensures |r| == |bytes| + 1 && forall i :: 0 <= i < |bytes| ==> r[i] == Bit(bytes[i], k)
    ensures !r[|bytes|]
  {
    seq(|bytes| + 1, i requires 0 <= i <= |bytes| => i < |bytes| && Bit(bytes[i], k))
  }

  predicate Bit(b: byte, k: nat)
    requires k < 8
  {
    b / [128, 64, 32, 16, 8, 4, 2, 1][k] % 2 == 1
  }

  // ---- scanning, as the addition it is compiled to ----------------------------------

  /** The stopping positions: the end of file counts as one. */
  predicate Stops(to: Stream, i: nat)
    requires i < |to|
  {
    to[i] != (i == |to| - 1)
  }

  /** The carry into position i when the markers are added to the non-stopping positions. */
  function Carry(m: Stream, to: Stream, i: nat): bool
    requires i <= |m| == |to|
  {
    i > 0 &&
    var c := Carry(m, to, i - 1);
    if Stops(to, i - 1) then m[i - 1] && c else m[i - 1] || c
  }

  /** ScanTo: (m + ~to) & to */
  function ScanTo(m: Stream, to: Stream): (r: Stream)
    requires |m| == |to|
    ensures |r| == |m| && forall i :: 0 <= i < |m| ==> r[i] == (((m[i] != !Stops(to, i)) != Carry(m, to, i)) && Stops(to, i))
  {
    seq(|m|, i requires 0 <= i < |m| => ((m[i] != !Stops(to, i)) != Carry(m, to, i)) && Stops(to, i))
  }

  lemma {:induction false} CarryOne(m: Stream, to: Stream, j: nat, i: nat)
    requires j < |m| == |to| && i <= |m| && forall k :: 0 <= k < |m| ==> (m[k] <==> k == j)
    ensures Carry(m, to, i) <==> j < i && forall k :: j <= k < i ==> !Stops(to, k)
  {
    if i > 0 { CarryOne(m, to, j, i - 1); }
  }

  /** A single marker comes to the first position from its own on that is in `to`, or to the end of file. */
  lemma ScanOne(m: Stream, to: Stream, j: nat, i: nat)
    requires j < |m| == |to| && !to[|to| - 1] && i < |m| && forall k :: 0 <= k < |m| ==> (m[k] <==> k == j)
    ensures ScanTo(m, to)[i] <==> j <= i && (to[i] || i == |m| - 1) && forall k :: j <= k < i ==> !to[k]
  {
    CarryOne(m, to, j, i);
    assert forall k :: 0 <= k < i ==> (Stops(to, k) <==> to[k]);
  }
}
