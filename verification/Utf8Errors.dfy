/** The error mask of the transcoder: which byte strings it accepts, and which are UTF-8. */
module Utf8Errors {
  import opened Streams
  import opened Unicode
  import opened U8U16

  // ---- the mask, position by position -----------------------------------------------

  /** Scopes in which a suffix is expected.  The third position of four is not among them. */
  predicate AnyScope(bytes: seq<byte>, i: int) { Last(bytes, i) || Scope32(bytes, i) || Scope42(bytes, i) }

  predicate FourError(bytes: seq<byte>, i: int) {
    || In(bytes, i, 0xF5, 0xFF)
    || (In(bytes, i - 1, 0xF0, 0xF0) && In(bytes, i, 0x80, 0x8F))
    || (In(bytes, i - 1, 0xF4, 0xF4) && In(bytes, i, 0x90, 0xBF))
  }

  predicate LongError(bytes: seq<byte>, i: int) {
    || (In(bytes, i - 1, 0xE0, 0xE0) && In(bytes, i, 0x80, 0x9F))
    || (In(bytes, i - 1, 0xED, 0xED) && In(bytes, i, 0xA0, 0xBF))
    || FourError(bytes, i)
  }

  /** Bytes that cannot stand in UTF-8, overlong forms, surrogates, and numbers above 0x10FFFF. */
  predicate BadBytes(bytes: seq<byte>, i: int) { In(bytes, i, 0xC0, 0xC1) || LongError(bytes, i) }

  /** The bit of the mask. */
  predicate ErrorBit(bytes: seq<byte>, i: int) { AnyScope(bytes, i) != Suffix(bytes, i) || BadBytes(bytes, i) }

  predicate MaskEmpty(bytes: seq<byte>) {
    forall i :: 0 <= i <= |bytes| ==> !ErrorBit(bytes, i)
  }

  // ---- UTF-8 ------------------------------------------------------------------------

  predicate NoSurrogates(cps: seq<CodePoint>) {
    forall k :: 0 <= k < |cps| ==> !(0xD800 <= cps[k] <= 0xDFFF)
  }

  /** The bytes are what the encoder makes of code points that are no surrogates. */
  ghost predicate IsUtf8(bytes: seq<byte>) {
    exists cps :: NoSurrogates(cps) && bytes == Utf8(cps)
  }

  /** The rule with the third position of four counted as a scope. */
  predicate Wrong(bytes: seq<byte>, i: int) {
    (AnyScope(bytes, i) || Scope43(bytes, i)) != Suffix(bytes, i) || BadBytes(bytes, i)
  }

  predicate NoneWrong(bytes: seq<byte>, o: int) {
    forall i :: o <= i <= |bytes| ==> !Wrong(bytes, i)
  }

  // ---- the rule is right ------------------------------------------------------------

  /** The sequence at o, by its length. */
  predicate Shaped(bytes: seq<byte>, o: nat, n: nat) {
    && Boundary(bytes, o) && 1 <= n <= 4 && o + n <= |bytes|
    && (if n == 1 then In(bytes, o, 0, 0x7F) else if n == 2 then In(bytes, o, 0xC2, 0xDF)
        else if n == 3 then In(bytes, o, 0xE0, 0xEF) else In(bytes, o, 0xF0, 0xF4))
    && (n >= 2 ==> Suffix(bytes, o + 1)) && (n >= 3 ==> Suffix(bytes, o + 2)) && (n == 4 ==> Suffix(bytes, o + 3))
  }

  /** No overlong form, no surrogate, no number too great. */
  predicate Bounded(bytes: seq<byte>, o: nat) {
    && !(In(bytes, o, 0xE0, 0xE0) && In(bytes, o + 1, 0x80, 0x9F)) && !(In(bytes, o, 0xED, 0xED) && In(bytes, o + 1, 0xA0, 0xBF))
    && !(In(bytes, o, 0xF0, 0xF0) && In(bytes, o + 1, 0x80, 0x8F)) && !(In(bytes, o, 0xF4, 0xF4) && In(bytes, o + 1, 0x90, 0xBF))
  }

  /** Where nothing is wrong a whole sequence stands. */
  lemma Finds(bytes: seq<byte>, o: nat) returns (n: nat)
    requires o < |bytes| && Boundary(bytes, o) && NoneWrong(bytes, o)
    ensures Shaped(bytes, o, n) && Bounded(bytes, o) && Boundary(bytes, o + n)
  {
    var b := bytes[o];
    n := if b <= 0x7F then 1 else if b <= 0xDF then 2 else if b <= 0xEF then 3 else 4;
    assert !Wrong(bytes, o);
    assert !Wrong(bytes, o + 1);
    if n >= 3 { assert !Wrong(bytes, o + 2); }
    if n == 4 { assert !Wrong(bytes, o + 3); }
  }

  /** In a whole sequence nothing is wrong. */
  lemma Stays(bytes: seq<byte>, o: nat, n: nat)
    requires Shaped(bytes, o, n) && Bounded(bytes, o)
    ensures Boundary(bytes, o + n) && forall i :: o <= i < o + n ==> !Wrong(bytes, i)
  {
    assert n >= 2 ==> Suffix(bytes, o + 1);
    assert n >= 3 ==> Suffix(bytes, o + 2);
    assert n == 4 ==> Suffix(bytes, o + 3);
  }

  /** The number whose groups of six bits are a, b, c and d. */
  function Joined(a: int, b: int, c: int, d: int): int { 262144 * a + 4096 * b + 64 * c + d }

  lemma JoinedGroups(a: nat, b: nat, c: nat, d: nat)
    requires b < 64 && c < 64 && d < 64
    ensures var x := Joined(a, b, c, d); x / 262144 == a && x / 4096 % 64 == b && x / 64 % 64 == c && x % 64 == d
    ensures Joined(a, b, c, d) / 4096 == 64 * a + b && Joined(a, b, c, d) / 64 == 4096 * a + 64 * b + c
  {
    var x := Joined(a, b, c, d);
    Remainder(x, 64, 4096 * a + 64 * b + c, d);
    assert x / 64 == 4096 * a + 64 * b + c;
    Remainder(x / 64, 64, 64 * a + b, c);
    assert x / 4096 == 64 * a + b;
    Remainder(x / 4096, 64, a, b);
  }

  /** The data bits of the byte at i under its mark. */
  function Data(bytes: seq<byte>, i: int, mark: int): int
    requires 0 <= i < |bytes|
  {
    bytes[i] as int - mark
  }

  /** The number of the sequence at o. */
  function Decoded(bytes: seq<byte>, o: nat, n: nat): int
    requires Shaped(bytes, o, n)
  {
    if n == 1 then bytes[o]
    else if n == 2 then Joined(0, 0, Data(bytes, o, 0xC0), Data(bytes, o + 1, 0x80))
    else if n == 3 then Joined(0, Data(bytes, o, 0xE0), Data(bytes, o + 1, 0x80), Data(bytes, o + 2, 0x80))
    else Joined(Data(bytes, o, 0xF0), Data(bytes, o + 1, 0x80), Data(bytes, o + 2, 0x80), Data(bytes, o + 3, 0x80))
  }

  /** The bounds leave exactly the numbers of n bytes, without surrogates. */
  lemma DecodedRange(bytes: seq<byte>, o: nat, n: nat)
    requires Shaped(bytes, o, n) && Bounded(bytes, o)
    ensures var cp := Decoded(bytes, o, n); 0 <= cp <= 0x10FFFF && Length8(cp) == n && !(0xD800 <= cp <= 0xDFFF)
  {
  }

  lemma DecodedStands(bytes: seq<byte>, o: nat, n: nat)
    requires Shaped(bytes, o, n) && Bounded(bytes, o)
    ensures var cp := Decoded(bytes, o, n); 0 <= cp <= 0x10FFFF && Length8(cp) == n && Stands(bytes, o, cp) && !(0xD800 <= cp <= 0xDFFF)
  {
    hide Byte8, Length8, Bounded, Boundary;
    DecodedRange(bytes, o, n);
    var cp := Decoded(bytes, o, n);
    LengthRange(cp);
    if n == 2 {
      JoinedGroups(0, 0, Data(bytes, o, 0xC0), Data(bytes, o + 1, 0x80));
    } else if n == 3 {
      JoinedGroups(0, Data(bytes, o, 0xE0), Data(bytes, o + 1, 0x80), Data(bytes, o + 2, 0x80));
    } else if n == 4 {
      JoinedGroups(Data(bytes, o, 0xF0), Data(bytes, o + 1, 0x80), Data(bytes, o + 2, 0x80), Data(bytes, o + 3, 0x80));
    }
    hide Joined;
    Bytes(cp);
    assert bytes[o..o + n] == Encode8(cp);
  }

  lemma LengthRange(cp: CodePoint)
    ensures Length8(cp) == 1 <==> cp <= 0x7F
    ensures Length8(cp) == 2 <==> 0x80 <= cp <= 0x7FF
    ensures Length8(cp) == 3 <==> 0x800 <= cp <= 0xFFFF
    ensures Length8(cp) == 4 <==> 0x10000 <= cp
  {
  }

  /** The first two bytes of an encoding are in bounds. */
  lemma FirstBytes(cp: CodePoint, x: byte, y: byte)
    requires Length8(cp) >= 2 && x == Byte8(cp, 1) && y == Byte8(cp, 2) && !(0xD800 <= cp <= 0xDFFF)
    ensures 0x80 <= y <= 0xBF
    ensures cp <= 0x7FF ==> 0xC2 <= x <= 0xDF
    ensures 0x800 <= cp <= 0xFFFF ==> 0xE0 <= x <= 0xEF && (x == 0xE0 ==> y > 0x9F) && (x == 0xED ==> y < 0xA0)
    ensures 0x10000 <= cp ==> 0xF0 <= x <= 0xF4 && (x == 0xF0 ==> y > 0x8F) && (x == 0xF4 ==> y < 0x90)
  {
    hide Byte8;
    Bytes(cp);
  }

  lemma LaterByte(cp: CodePoint, k: nat)
    requires 2 <= k <= Length8(cp)
    ensures 0x80 <= Byte8(cp, k) <= 0xBF
  {
  }

  lemma StandsShaped(bytes: seq<byte>, o: nat, cp: CodePoint)
    requires Boundary(bytes, o) && Stands(bytes, o, cp) && !(0xD800 <= cp <= 0xDFFF)
    ensures Shaped(bytes, o, Length8(cp)) && Bounded(bytes, o)
  {
    hide Encode8, Byte8, Boundary, Length8, Stands;
    LengthRange(cp);
    StandsInside(bytes, o, cp);
    BytesOf(bytes, o, cp, 0);
    if cp <= 0x7F {
      Bytes(cp);
    } else {
      BytesOf(bytes, o, cp, 1);
      FirstBytes(cp, bytes[o], bytes[o + 1]);
    }
    if cp > 0x7FF {
      BytesOf(bytes, o, cp, 2);
      LaterByte(cp, 3);
    }
    if cp > 0xFFFF {
      BytesOf(bytes, o, cp, 3);
      LaterByte(cp, 4);
    }
  }

  lemma StandsInside(bytes: seq<byte>, o: nat, cp: CodePoint)
    requires Stands(bytes, o, cp)
    ensures o + Length8(cp) <= |bytes|
  {
  }

  lemma {:induction false} Decodes(bytes: seq<byte>, o: nat) returns (cps: seq<CodePoint>)
    requires o <= |bytes| && Boundary(bytes, o) && NoneWrong(bytes, o)
    ensures NoSurrogates(cps) && bytes[o..] == Utf8(cps)
    decreases |bytes| - o
  {
    hide Wrong, Boundary, Shaped, Bounded, Decoded, Encode8, Length8;
    if o == |bytes| {
      cps := [];
    } else {
      var n := Finds(bytes, o);
      ShapedSize(bytes, o, n);
      DecodedStands(bytes, o, n);
      var cp := Decoded(bytes, o, n);
      var rest := Decodes(bytes, o + n);
      cps := [cp] + rest;
      assert cps[1..] == rest;
      assert bytes[o..] == bytes[o..o + n] + bytes[o + n..];
    }
  }

  lemma ShapedSize(bytes: seq<byte>, o: nat, n: nat)
    requires Shaped(bytes, o, n)
    ensures n >= 1 && o + n <= |bytes|
  {
  }

  lemma {:induction false} TextRight(bytes: seq<byte>, o: nat, cps: seq<CodePoint>)
    requires o <= |bytes| && Boundary(bytes, o) && NoSurrogates(cps) && bytes[o..] == Utf8(cps)
    ensures NoneWrong(bytes, o)
    decreases |cps|
  {
    hide Wrong, Boundary, Shaped, Bounded, Encode8, Length8, Stands;
    if cps == [] {
      EndRight(bytes);
    } else {
      Parts(bytes, o, cps);
      var n := Length8(cps[0]);
      StandsShaped(bytes, o, cps[0]);
      ShapedSize(bytes, o, n);
      Stays(bytes, o, n);
      TextRight(bytes, o + n, cps[1..]);
    }
  }

  lemma EndRight(bytes: seq<byte>)
    requires Boundary(bytes, |bytes|)
    ensures !Wrong(bytes, |bytes|)
  {
  }

  /** Nothing is wrong in exactly the encodings of texts. */
  lemma RuleIsUtf8(bytes: seq<byte>)
    ensures NoneWrong(bytes, 0) <==> IsUtf8(bytes)
  {
    hide Wrong;
    assert bytes[0..] == bytes;
    if NoneWrong(bytes, 0) {
      var cps := Decodes(bytes, 0);
    }
    if IsUtf8(bytes) {
      var cps :| NoSurrogates(cps) && bytes == Utf8(cps);
      TextRight(bytes, 0, cps);
    }
  }

  // ---- the mask against the rule ----------------------------------------------------

  /** A third position of four where the mask has nothing else to complain about. */
  predicate Third(bytes: seq<byte>, i: int) { Scope43(bytes, i) && !AnyScope(bytes, i) && !BadBytes(bytes, i) }

  /** There the mask is the wrong way round; everywhere else it follows the rule. */
  lemma BitAgainstRule(bytes: seq<byte>, i: int)
    ensures ErrorBit(bytes, i) == (if Third(bytes, i) then !Wrong(bytes, i) else Wrong(bytes, i))
    ensures Third(bytes, i) ==> ErrorBit(bytes, i) == Suffix(bytes, i)
  {
    hide AnyScope, Scope43, Suffix, BadBytes;
  }

  /** In a text exactly the third bytes of sequences of four are flagged. */
  lemma TextFlags(cps: seq<CodePoint>, i: int)
    requires NoSurrogates(cps) && 0 <= i <= |Utf8(cps)|
    ensures ErrorBit(Utf8(cps), i) <==> Scope43(Utf8(cps), i)
  {
    hide Wrong, Utf8;
    var bytes := Utf8(cps);
    RuleIsUtf8(bytes);
    assert !Wrong(bytes, i);
    if Scope43(bytes, i) {
      assert !Wrong(bytes, i - 2) && !Wrong(bytes, i - 1);
      ThirdIsSuffix(bytes, i);
    }
    BitAgainstRule(bytes, i);
    OnlyInScope(bytes, i);
  }

  lemma OnlyInScope(bytes: seq<byte>, i: int)
    ensures Third(bytes, i) ==> Scope43(bytes, i)
  {
  }

  lemma ThirdIsSuffix(bytes: seq<byte>, i: int)
    requires Scope43(bytes, i) && !Wrong(bytes, i - 2) && !Wrong(bytes, i - 1) && !Wrong(bytes, i)
    ensures Third(bytes, i)
  {
  }

  /** Without bytes from 0xF0 on, the mask is empty exactly for UTF-8. */
  lemma MaskWithoutFour(bytes: seq<byte>)
    requires forall b :: b in bytes ==> b < 0xF0
    ensures MaskEmpty(bytes) <==> IsUtf8(bytes)
  {
    hide Wrong, ErrorBit, BadBytes, AnyScope;
    RuleIsUtf8(bytes);
    forall i ensures ErrorBit(bytes, i) == Wrong(bytes, i) {
      if 0 <= i - 2 < |bytes| { assert bytes[i - 2] in bytes; }
      assert !Third(bytes, i);
      BitAgainstRule(bytes, i);
    }
  }

  /** A third position where a suffix stands, one where none stands, and an error elsewhere. */
  predicate Present(bytes: seq<byte>) { exists i :: 0 <= i <= |bytes| && Third(bytes, i) && Suffix(bytes, i) }
  predicate Absent(bytes: seq<byte>) { exists i :: 0 <= i <= |bytes| && Third(bytes, i) && !Suffix(bytes, i) }
  predicate ErrorElsewhere(bytes: seq<byte>) { exists i :: 0 <= i <= |bytes| && !Third(bytes, i) && ErrorBit(bytes, i) }

  /** The mask is empty exactly for UTF-8 if and only if there is an error elsewhere, or there are no third
      positions, or some with and some without a suffix. */
  lemma MaskRightIff(bytes: seq<byte>)
    ensures (MaskEmpty(bytes) <==> IsUtf8(bytes)) <==> (ErrorElsewhere(bytes) || (Present(bytes) <==> Absent(bytes)))
  {
    hide Wrong, ErrorBit, Third, Suffix;
    RuleIsUtf8(bytes);
    forall i ensures ErrorBit(bytes, i) == (if Third(bytes, i) then Suffix(bytes, i) else Wrong(bytes, i)) && (Third(bytes, i) ==> Wrong(bytes, i) == !Suffix(bytes, i)) {
      BitAgainstRule(bytes, i);
    }
  }

  /** Bytes that are accepted although the third of four is no suffix. */
  function Missing(): seq<byte> { [0xF1, 0x80, 0x41, 0x80] }

  lemma MissingAccepted()
    ensures MaskEmpty(Missing()) && !IsUtf8(Missing())
  {
    RuleIsUtf8(Missing());
    assert Wrong(Missing(), 2);
  }

  /** A text with a code point above 0xFFFF is never accepted. */
  lemma AboveRefused(cps: seq<CodePoint>, k: nat)
    requires NoSurrogates(cps) && k < |cps| && cps[k] > 0xFFFF
    ensures !MaskEmpty(Utf8(cps))
  {
    var o := StandsAt(cps, k);
    FourSuffixes(Utf8(cps), o, cps[k]);
    TextFlags(cps, o + 2);
  }

  lemma {:induction false} StandsAt(cps: seq<CodePoint>, k: nat) returns (o: nat)
    requires k < |cps|
    ensures Stands(Utf8(cps), o, cps[k])
  {
    hide Encode8, Length8;
    var len := Length8(cps[0]);
    if k == 0 {
      o := 0;
      assert Utf8(cps)[0..len] == Encode8(cps[0]);
    } else {
      var o1 := StandsAt(cps[1..], k - 1);
      o := len + o1;
      var n := Length8(cps[k]);
      assert Utf8(cps)[o..o + n] == Utf8(cps[1..])[o1..o1 + n];
    }
  }
}
