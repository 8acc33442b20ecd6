/** The bit-stream program: Pablo statements in nested Ifs. */
module U8U16Kernel {
  import opened Streams
  import opened Unicode
  import opened U8U16
  import opened Utf8Errors

  /** A character class, compiled to the stream of the bytes in it. */
  function Class(bytes: seq<byte>, lo: byte, hi: byte): (r: Stream)
    ensures IsClass(bytes, 0, lo, hi, r)
  {
    seq(|bytes| + 1, i requires 0 <= i <= |bytes| => In(bytes, i, lo, hi))
  }

  /** The stream of a class, d positions late. */
  predicate IsClass(bytes: seq<byte>, d: nat, lo: byte, hi: byte, s: Stream) {
    |s| == |bytes| + 1 && forall i :: 0 <= i < |s| ==> s[i] == In(bytes, i - d, lo, hi)
  }

  /** The stream of bit k, d positions late. */
  predicate IsBit(bytes: seq<byte>, d: nat, k: nat, s: Stream)
    requires k < 8
  {
    |s| == |bytes| + 1 && forall i :: 0 <= i < |s| ==> s[i] == Back(bytes, i, d, k)
  }

  /** The stream of bit k of the high surrogates. */
  predicate IsHigh(bytes: seq<byte>, k: nat, s: Stream)
    requires 6 <= k < 16
  {
    |s| == |bytes| + 1 && forall i :: 0 <= i < |s| ==> s[i] == High(bytes, i, k)
  }

  method BasisBit(bytes: seq<byte>, k: nat) returns (s: Stream)
    requires k < 8
    ensures IsBit(bytes, 0, k, s)
  {
    s := Basis(bytes, k);
    assert Bit(0, k) == false;
  }

  lemma LateBit(bytes: seq<byte>, d: nat, k: nat, s: Stream)
    requires k < 8 && IsBit(bytes, d, k, s)
    ensures IsBit(bytes, d + 1, k, Advance(s))
  {
    hide Bit;
    NoBits(k);
    var r := Advance(s);
    forall i | 0 <= i < |r| ensures r[i] == Back(bytes, i, d + 1, k) {
      if i > 0 {
        assert s[i - 1] == Back(bytes, i - 1, d, k);
      }
    }
  }

  lemma LateClass(bytes: seq<byte>, d: nat, lo: byte, hi: byte, s: Stream)
    requires IsClass(bytes, d, lo, hi, s)
    ensures IsClass(bytes, d + 1, lo, hi, Advance(s))
  {
    var r := Advance(s);
    forall i | 0 <= i < |r| ensures r[i] == In(bytes, i - (d + 1), lo, hi) {
      if i > 0 {
        assert s[i - 1] == In(bytes, i - 1 - d, lo, hi);
      }
    }
  }

  lemma NoBits(k: nat)
    requires k < 8
    ensures !Bit(0, k)
  {
  }

  lemma CopyBack(bytes: seq<byte>, k: nat, scope43: Stream, s: Stream)
    requires 10 <= k < 14 && IsClass(bytes, 2, 0xF0, 0xFF, scope43) && IsBit(bytes, 1, k - 6, s)
    ensures IsHigh(bytes, k, And(scope43, s))
  {
    hide Back;
  }

  lemma CopyHere(bytes: seq<byte>, k: nat, scope43: Stream, s: Stream)
    requires 14 <= k < 16 && IsClass(bytes, 2, 0xF0, 0xFF, scope43) && IsBit(bytes, 0, k - 12, s)
    ensures IsHigh(bytes, k, And(scope43, s))
  {
    hide Back;
  }

  /** The plane number less one, with its borrows. */
  method Borrows(bytes: seq<byte>, scope43: Stream, bit2a1: Stream, bit3a1: Stream, bit6a2: Stream, bit7a2: Stream)
    returns (hi6: Stream, hi7: Stream, lo0: Stream, lo1: Stream)
    requires IsClass(bytes, 2, 0xF0, 0xFF, scope43)
    requires IsBit(bytes, 1, 2, bit2a1) && IsBit(bytes, 1, 3, bit3a1) && IsBit(bytes, 2, 6, bit6a2) && IsBit(bytes, 2, 7, bit7a2)
    ensures IsHigh(bytes, 6, hi6) && IsHigh(bytes, 7, hi7) && IsHigh(bytes, 8, lo0) && IsHigh(bytes, 9, lo1)
  {
    hide Back;
    lo1 := And(scope43, Not(bit3a1));
    lo0 := And(scope43, Xor(bit2a1, lo1));
    var brw1 := And(lo1, Not(bit2a1));
    hi7 := And(scope43, Xor(bit7a2, brw1));
    var brw2 := And(brw1, Not(bit7a2));
    hi6 := And(scope43, Xor(bit6a2, brw2));
  }

  /** The illegal bytes of four-byte sequences. */
  predicate IsFourError(bytes: seq<byte>, s: Stream) {
    |s| == |bytes| + 1 && forall i :: 0 <= i < |s| ==> s[i] == FourError(bytes, i)
  }

  method FourErrors(bytes: seq<byte>) returns (fxErr: Stream)
    ensures IsFourError(bytes, fxErr)
  {
    var f0, f4 := Class(bytes, 0xF0, 0xF0), Class(bytes, 0xF4, 0xF4);
    LateClass(bytes, 0, 0xF0, 0xF0, f0);
    LateClass(bytes, 0, 0xF4, 0xF4, f4);
    var f0Err := And(Advance(f0), Class(bytes, 0x80, 0x8F));
    var f4Err := And(Advance(f4), Class(bytes, 0x90, 0xBF));
    var f5ff := Class(bytes, 0xF5, 0xFF);
    fxErr := Or(f5ff, Or(f0Err, f4Err));
  }

  lemma NoFourError(bytes: seq<byte>, zeroes: Stream)
    requires |zeroes| == |bytes| + 1 && (forall i :: 0 <= i < |zeroes| ==> !zeroes[i]) && forall i :: !In(bytes, i, 0xF0, 0xFF)
    ensures IsFourError(bytes, zeroes)
  {
    forall i ensures !In(bytes, i, 0xF0, 0xF0) && !In(bytes, i, 0xF4, 0xF4) && !In(bytes, i, 0xF5, 0xFF) {
      assert !In(bytes, i, 0xF0, 0xFF);
    }
  }

  /** The statements for four-byte sequences, under their If. */
  method FourBytes(bytes: seq<byte>, bit2: Stream, bit3: Stream, bit2a1: Stream, bit3a1: Stream, bit4a1: Stream,
                   bit5a1: Stream, bit6a1: Stream, bit7a1: Stream, bit6a2: Stream, bit7a2: Stream)
    returns (fxErr: Stream, scope42: Stream, scope43: Stream, scope44: Stream, hi6: Stream, hi7: Stream, lo0: Stream, lo1: Stream,
             lo2: Stream, lo3: Stream, lo4: Stream, lo5: Stream, lo6: Stream, lo7: Stream)
    requires IsBit(bytes, 0, 2, bit2) && IsBit(bytes, 0, 3, bit3)
    requires IsBit(bytes, 1, 2, bit2a1) && IsBit(bytes, 1, 3, bit3a1) && IsBit(bytes, 1, 4, bit4a1)
    requires IsBit(bytes, 1, 5, bit5a1) && IsBit(bytes, 1, 6, bit6a1) && IsBit(bytes, 1, 7, bit7a1)
    requires IsBit(bytes, 2, 6, bit6a2) && IsBit(bytes, 2, 7, bit7a2)
    ensures IsFourError(bytes, fxErr)
    ensures IsClass(bytes, 1, 0xF0, 0xFF, scope42) && IsClass(bytes, 2, 0xF0, 0xFF, scope43) && IsClass(bytes, 3, 0xF0, 0xFF, scope44)
    ensures IsHigh(bytes, 6, hi6) && IsHigh(bytes, 7, hi7) && IsHigh(bytes, 8, lo0) && IsHigh(bytes, 9, lo1) && IsHigh(bytes, 10, lo2)
    ensures IsHigh(bytes, 11, lo3) && IsHigh(bytes, 12, lo4) && IsHigh(bytes, 13, lo5) && IsHigh(bytes, 14, lo6) && IsHigh(bytes, 15, lo7)
  {
    hide Back;
    var zeroes := Zeroes(|bytes|);
    fxErr, scope42, scope43, scope44, hi6, hi7, lo0, lo1 := zeroes, zeroes, zeroes, zeroes, zeroes, zeroes, zeroes, zeroes;
    lo2, lo3, lo4, lo5, lo6, lo7 := zeroes, zeroes, zeroes, zeroes, zeroes, zeroes;
    var pfx4 := Class(bytes, 0xF0, 0xFF);
    if Any(pfx4) {
      fxErr := FourErrors(bytes);
      scope42 := Advance(pfx4);
      LateClass(bytes, 0, 0xF0, 0xFF, pfx4);
      scope43 := Advance(scope42);
      LateClass(bytes, 1, 0xF0, 0xFF, scope42);
      scope44 := Advance(scope43);
      LateClass(bytes, 2, 0xF0, 0xFF, scope43);
      hi6, hi7, lo0, lo1 := Borrows(bytes, scope43, bit2a1, bit3a1, bit6a2, bit7a2);
      CopyBack(bytes, 10, scope43, bit4a1);
      CopyBack(bytes, 11, scope43, bit5a1);
      CopyBack(bytes, 12, scope43, bit6a1);
      CopyBack(bytes, 13, scope43, bit7a1);
      CopyHere(bytes, 14, scope43, bit2);
      CopyHere(bytes, 15, scope43, bit3);
      lo2 := And(scope43, bit4a1);
      lo3 := And(scope43, bit5a1);
      lo4 := And(scope43, bit6a1);
      lo5 := And(scope43, bit7a1);
      lo6 := And(scope43, bit2);
      lo7 := And(scope43, bit3);
    } else {
      NoClass(bytes, 0xF0, 0xFF, pfx4);
      NoFourError(bytes, zeroes);
    }
  }

  lemma NoClass(bytes: seq<byte>, lo: byte, hi: byte, s: Stream)
    requires IsClass(bytes, 0, lo, hi, s) && !Any(s)
    ensures forall i :: !In(bytes, i, lo, hi)
  {
    forall i ensures !In(bytes, i, lo, hi) {
      if 0 <= i < |bytes| {
        assert !s[i];
      }
    }
  }

  // ---- three- and four-byte sequences -----------------------------------------------

  /** The stream of bit k of the code units. */
  predicate IsOut(bytes: seq<byte>, k: nat, s: Stream)
    requires k < 16
  {
    |s| == |bytes| + 1 && forall i :: 0 <= i < |s| ==> s[i] == OutBit(bytes, i, k)
  }

  /** The second positions of three- and four-byte sequences. */
  predicate IsDel34(bytes: seq<byte>, s: Stream) {
    |s| == |bytes| + 1 && forall i :: 0 <= i < |s| ==> s[i] == In(bytes, i - 1, 0xE0, 0xFF)
  }

  lemma FiveHighBits(bytes: seq<byte>, scope33: Stream, surrogate: Stream, b4: Stream, b5: Stream, b6: Stream, b7: Stream, b2: Stream)
    requires IsClass(bytes, 2, 0xE0, 0xEF, scope33) && |surrogate| == |bytes| + 1
    requires forall i :: 0 <= i < |surrogate| ==> surrogate[i] == Surrogate(bytes, i)
    requires IsBit(bytes, 2, 4, b4) && IsBit(bytes, 2, 5, b5) && IsBit(bytes, 2, 6, b6) && IsBit(bytes, 2, 7, b7) && IsBit(bytes, 1, 2, b2)
    ensures IsOut(bytes, 0, Or(And(scope33, b4), surrogate)) && IsOut(bytes, 1, Or(And(scope33, b5), surrogate))
    ensures IsOut(bytes, 2, And(scope33, b6)) && IsOut(bytes, 3, Or(And(scope33, b7), surrogate))
    ensures IsOut(bytes, 4, Or(And(scope33, b2), surrogate))
  {
    hide Back, Surrogate;
  }

  /** The illegal bytes of three- and four-byte sequences. */
  predicate IsLongError(bytes: seq<byte>, s: Stream) {
    |s| == |bytes| + 1 && forall i :: 0 <= i < |s| ==> s[i] == LongError(bytes, i)
  }

  method LongErrors(bytes: seq<byte>, fxErr: Stream) returns (exFxErr: Stream)
    requires IsFourError(bytes, fxErr)
    ensures IsLongError(bytes, exFxErr)
  {
    hide FourError;
    var e0, ed := Class(bytes, 0xE0, 0xE0), Class(bytes, 0xED, 0xED);
    LateClass(bytes, 0, 0xE0, 0xE0, e0);
    LateClass(bytes, 0, 0xED, 0xED, ed);
    var e0Err := And(Advance(e0), Class(bytes, 0x80, 0x9F));
    var edErr := And(Advance(ed), Class(bytes, 0xA0, 0xBF));
    exFxErr := Or(Or(e0Err, edErr), fxErr);
  }

  lemma NoLongError(bytes: seq<byte>, zeroes: Stream)
    requires |zeroes| == |bytes| + 1 && (forall i :: 0 <= i < |zeroes| ==> !zeroes[i]) && forall i :: !In(bytes, i, 0xE0, 0xFF)
    ensures IsLongError(bytes, zeroes)
  {
    forall i ensures !In(bytes, i, 0xE0, 0xE0) && !In(bytes, i, 0xED, 0xED) && !In(bytes, i, 0xF0, 0xF0) && !In(bytes, i, 0xF4, 0xF4) && !In(bytes, i, 0xF5, 0xFF) {
      assert !In(bytes, i, 0xE0, 0xFF);
    }
  }

  /** The statements for three- and four-byte sequences, under their If. */
  method LongSequences(bytes: seq<byte>, bit2: Stream, bit3: Stream, bit3a1: Stream, bit4a1: Stream, bit5a1: Stream, bit6a1: Stream, bit7a1: Stream)
    returns (exFxErr: Stream, scope33: Stream, scope44: Stream, del: Stream, hi0: Stream, hi1: Stream, hi2: Stream, hi3: Stream, hi4: Stream,
             hi6: Stream, hi7: Stream, lo0: Stream, lo1: Stream, lo2: Stream, lo3: Stream, lo4: Stream, lo5: Stream, lo6: Stream, lo7: Stream)
    requires IsBit(bytes, 0, 2, bit2) && IsBit(bytes, 0, 3, bit3) && IsBit(bytes, 1, 3, bit3a1) && IsBit(bytes, 1, 4, bit4a1)
    requires IsBit(bytes, 1, 5, bit5a1) && IsBit(bytes, 1, 6, bit6a1) && IsBit(bytes, 1, 7, bit7a1)
    ensures IsLongError(bytes, exFxErr)
    ensures IsClass(bytes, 2, 0xE0, 0xEF, scope33) && IsClass(bytes, 3, 0xF0, 0xFF, scope44) && IsDel34(bytes, del)
    ensures IsOut(bytes, 0, hi0) && IsOut(bytes, 1, hi1) && IsOut(bytes, 2, hi2) && IsOut(bytes, 3, hi3) && IsOut(bytes, 4, hi4)
    ensures IsHigh(bytes, 6, hi6) && IsHigh(bytes, 7, hi7) && IsHigh(bytes, 8, lo0) && IsHigh(bytes, 9, lo1) && IsHigh(bytes, 10, lo2)
    ensures IsHigh(bytes, 11, lo3) && IsHigh(bytes, 12, lo4) && IsHigh(bytes, 13, lo5) && IsHigh(bytes, 14, lo6) && IsHigh(bytes, 15, lo7)
  {
    hide Back, IsBit, IsHigh, IsOut, IsFourError, IsLongError;
    var zeroes := Zeroes(|bytes|);
    exFxErr := zeroes;
    scope33, scope44, del, hi0, hi1, hi2, hi3, hi4 := zeroes, zeroes, zeroes, zeroes, zeroes, zeroes, zeroes, zeroes;
    hi6, hi7, lo0, lo1, lo2, lo3 := zeroes, zeroes, zeroes, zeroes, zeroes, zeroes;
    lo4, lo5, lo6, lo7 := zeroes, zeroes, zeroes, zeroes;
    var pfx34 := Class(bytes, 0xE0, 0xFF);
    if Any(pfx34) {
      var bit2a1 := Advance(bit2);
      LateBit(bytes, 0, 2, bit2);
      var bit4a2, bit5a2, bit6a2, bit7a2 := Advance(bit4a1), Advance(bit5a1), Advance(bit6a1), Advance(bit7a1);
      LateBit(bytes, 1, 4, bit4a1);
      LateBit(bytes, 1, 5, bit5a1);
      LateBit(bytes, 1, 6, bit6a1);
      LateBit(bytes, 1, 7, bit7a1);
      var fxErr, scope42, scope43;
      fxErr, scope42, scope43, scope44, hi6, hi7, lo0, lo1, lo2, lo3, lo4, lo5, lo6, lo7 :=
        FourBytes(bytes, bit2, bit3, bit2a1, bit3a1, bit4a1, bit5a1, bit6a1, bit7a1, bit6a2, bit7a2);
      var pfx3 := Class(bytes, 0xE0, 0xEF);
      var scope32 := Advance(pfx3);
      LateClass(bytes, 0, 0xE0, 0xEF, pfx3);
      scope33 := Advance(scope32);
      LateClass(bytes, 1, 0xE0, 0xEF, scope32);
      exFxErr := LongErrors(bytes, fxErr);
      var surrogate := Or(scope43, scope44);
      del := Or(scope32, scope42);
      FiveHighBits(bytes, scope33, surrogate, bit4a2, bit5a2, bit6a2, bit7a2, bit2a1);
      BitLength(bytes, 1, 2, bit2a1);
      BitLength(bytes, 2, 4, bit4a2);
      BitLength(bytes, 2, 5, bit5a2);
      BitLength(bytes, 2, 6, bit6a2);
      BitLength(bytes, 2, 7, bit7a2);
      hi0 := Or(And(scope33, bit4a2), surrogate);
      hi1 := Or(And(scope33, bit5a2), surrogate);
      hi2 := And(scope33, bit6a2);
      hi3 := Or(And(scope33, bit7a2), surrogate);
      hi4 := Or(And(scope33, bit2a1), surrogate);
    } else {
      NoClass(bytes, 0xE0, 0xFF, pfx34);
      NoLongSequence(bytes, zeroes);
      NoLongError(bytes, zeroes);
    }
  }

  lemma BitLength(bytes: seq<byte>, d: nat, k: nat, s: Stream)
    requires k < 8 && IsBit(bytes, d, k, s)
    ensures |s| == |bytes| + 1
  {
  }

  lemma NoLongSequence(bytes: seq<byte>, zeroes: Stream)
    requires |zeroes| == |bytes| + 1 && forall i :: 0 <= i < |zeroes| ==> !zeroes[i]
    requires forall i :: !In(bytes, i, 0xE0, 0xFF)
    ensures IsClass(bytes, 2, 0xE0, 0xEF, zeroes) && IsClass(bytes, 3, 0xF0, 0xFF, zeroes) && IsDel34(bytes, zeroes)
    ensures forall k :: 0 <= k < 5 ==> IsOut(bytes, k, zeroes)
    ensures forall k :: 6 <= k < 16 ==> IsHigh(bytes, k, zeroes)
  {
    hide Back;
    forall i ensures !In(bytes, i, 0xE0, 0xEF) && !In(bytes, i, 0xF0, 0xFF) {
      assert !In(bytes, i, 0xE0, 0xFF);
    }
  }

  // ---- everything beyond ASCII ------------------------------------------------------

  predicate IsDeleted(bytes: seq<byte>, s: Stream) {
    |s| == |bytes| + 1 && forall i :: 0 <= i < |s| ==> s[i] == Deleted(bytes, i)
  }

  predicate IsLast(bytes: seq<byte>, s: Stream) {
    |s| == |bytes| + 1 && forall i :: 0 <= i < |s| ==> s[i] == Last(bytes, i)
  }

  /** The second bit of the low byte, without its ASCII part. */
  predicate IsLo1(bytes: seq<byte>, s: Stream) {
    |s| == |bytes| + 1 && forall i :: 0 <= i < |s| ==> s[i] == ((Last(bytes, i) && Back(bytes, i, 1, 7)) || High(bytes, i, 9))
  }

  lemma MiddleBit(bytes: seq<byte>, k: nat, last: Stream, bit: Stream, high: Stream)
    requires 6 <= k < 9 && IsLast(bytes, last) && IsBit(bytes, 1, k - 2, bit) && IsHigh(bytes, k, high)
    ensures IsOut(bytes, k, Or(And(last, bit), high))
  {
    hide Back, High, Last;
  }

  lemma FifthBit(bytes: seq<byte>, last: Stream, bit: Stream, scope44: Stream)
    requires IsLast(bytes, last) && IsBit(bytes, 1, 3, bit) && IsClass(bytes, 3, 0xF0, 0xFF, scope44)
    ensures IsOut(bytes, 5, Or(And(last, bit), scope44))
  {
    hide Back, Last;
  }

  lemma Lo1Bit(bytes: seq<byte>, last: Stream, bit: Stream, high: Stream)
    requires IsLast(bytes, last) && IsBit(bytes, 1, 7, bit) && IsHigh(bytes, 9, high)
    ensures IsLo1(bytes, Or(And(last, bit), high))
  {
    hide Back, Last, High;
  }

  predicate IsMask(bytes: seq<byte>, s: Stream) {
    |s| == |bytes| + 1 && forall i :: 0 <= i < |s| ==> s[i] == ErrorBit(bytes, i)
  }

  lemma MaskIs(bytes: seq<byte>, last: Stream, del: Stream, mismatch: Stream, c0c1Err: Stream, exFxErr: Stream)
    requires IsLast(bytes, last) && IsDel34(bytes, del) && IsLongError(bytes, exFxErr) && IsClass(bytes, 0, 0xC0, 0xC1, c0c1Err)
    requires |mismatch| == |last| && forall i :: 0 <= i < |last| ==> mismatch[i] == ((last[i] || del[i]) != Suffix(bytes, i))
    ensures |exFxErr| == |bytes| + 1 && IsMask(bytes, Or(mismatch, Or(c0c1Err, exFxErr)))
  {
    hide Last, LongError;
  }

  lemma NoErrors(bytes: seq<byte>, zeroes: Stream)
    requires |zeroes| == |bytes| + 1 && (forall i :: 0 <= i < |zeroes| ==> !zeroes[i]) && forall i :: !In(bytes, i, 0x80, 0xFF)
    ensures IsMask(bytes, zeroes)
  {
    forall i ensures !ErrorBit(bytes, i) {
      assert !In(bytes, i, 0x80, 0xFF) && !In(bytes, i - 1, 0x80, 0xFF) && !In(bytes, i - 2, 0x80, 0xFF) && !In(bytes, i - 3, 0x80, 0xFF);
    }
  }

  /** The statements for sequences of two bytes and more, under their If. */
  method NonAscii(bytes: seq<byte>, bit2: Stream, bit3: Stream, bit4: Stream, bit5: Stream, bit6: Stream, bit7: Stream)
    returns (errorMask: Stream, last: Stream, delmask: Stream, hi0: Stream, hi1: Stream, hi2: Stream, hi3: Stream, hi4: Stream, hi5: Stream,
             hi6: Stream, hi7: Stream, lo0: Stream, lo1: Stream, lo2: Stream, lo3: Stream, lo4: Stream, lo5: Stream, lo6: Stream, lo7: Stream)
    requires IsBit(bytes, 0, 2, bit2) && IsBit(bytes, 0, 3, bit3) && IsBit(bytes, 0, 4, bit4)
    requires IsBit(bytes, 0, 5, bit5) && IsBit(bytes, 0, 6, bit6) && IsBit(bytes, 0, 7, bit7)
    ensures IsMask(bytes, errorMask) && IsLast(bytes, last) && IsDeleted(bytes, delmask)
    ensures IsOut(bytes, 0, hi0) && IsOut(bytes, 1, hi1) && IsOut(bytes, 2, hi2) && IsOut(bytes, 3, hi3) && IsOut(bytes, 4, hi4)
    ensures IsOut(bytes, 5, hi5) && IsOut(bytes, 6, hi6) && IsOut(bytes, 7, hi7) && IsOut(bytes, 8, lo0)
    ensures IsLo1(bytes, lo1) && IsHigh(bytes, 10, lo2) && IsHigh(bytes, 11, lo3) && IsHigh(bytes, 12, lo4)
    ensures IsHigh(bytes, 13, lo5) && IsHigh(bytes, 14, lo6) && IsHigh(bytes, 15, lo7)
  {
    hide Back, IsBit, IsHigh, IsOut, IsLo1, High, IsMask, IsLongError;
    var zeroes := Zeroes(|bytes|);
    errorMask := zeroes;
    last, delmask, hi0, hi1, hi2, hi3, hi4, hi5 := zeroes, zeroes, zeroes, zeroes, zeroes, zeroes, zeroes, zeroes;
    hi6, hi7, lo0, lo1, lo2, lo3 := zeroes, zeroes, zeroes, zeroes, zeroes, zeroes;
    lo4, lo5, lo6, lo7 := zeroes, zeroes, zeroes, zeroes;
    var nonAscii := Class(bytes, 0x80, 0xFF);
    if Any(nonAscii) {
      var bit3a1, bit4a1, bit5a1, bit6a1, bit7a1 := Advance(bit3), Advance(bit4), Advance(bit5), Advance(bit6), Advance(bit7);
      LateBit(bytes, 0, 3, bit3);
      LateBit(bytes, 0, 4, bit4);
      LateBit(bytes, 0, 5, bit5);
      LateBit(bytes, 0, 6, bit6);
      LateBit(bytes, 0, 7, bit7);
      var exFxErr, scope33, scope44, del, s6, s7, s8, s9;
      exFxErr, scope33, scope44, del, hi0, hi1, hi2, hi3, hi4, s6, s7, s8, s9, lo2, lo3, lo4, lo5, lo6, lo7 :=
        LongSequences(bytes, bit2, bit3, bit3a1, bit4a1, bit5a1, bit6a1, bit7a1);
      var pfx2 := Class(bytes, 0xC0, 0xDF);
      var scope22 := Advance(pfx2);
      LateClass(bytes, 0, 0xC0, 0xDF, pfx2);
      last := Or(scope22, Or(scope33, scope44));
      var anyScope := Or(last, del);
      var c0c1Err := Class(bytes, 0xC0, 0xC1);
      var mismatch := Xor(anyScope, Class(bytes, 0x80, 0xBF));
      MaskIs(bytes, last, del, mismatch, c0c1Err, exFxErr);
      errorMask := Or(mismatch, Or(c0c1Err, exFxErr));
      delmask := Or(del, Class(bytes, 0xC0, 0xFF));
      Lengths(bytes, bit3a1, bit4a1, bit5a1, bit6a1, bit7a1, s6, s7, s8, s9);
      FifthBit(bytes, last, bit3a1, scope44);
      MiddleBit(bytes, 6, last, bit4a1, s6);
      MiddleBit(bytes, 7, last, bit5a1, s7);
      MiddleBit(bytes, 8, last, bit6a1, s8);
      Lo1Bit(bytes, last, bit7a1, s9);
      hi5 := Or(And(last, bit3a1), scope44);
      hi6 := Or(And(last, bit4a1), s6);
      hi7 := Or(And(last, bit5a1), s7);
      lo0 := Or(And(last, bit6a1), s8);
      lo1 := Or(And(last, bit7a1), s9);
    } else {
      NoClass(bytes, 0x80, 0xFF, nonAscii);
      OnlyAscii(bytes, zeroes);
      NoErrors(bytes, zeroes);
    }
  }

  lemma Lengths(bytes: seq<byte>, b3: Stream, b4: Stream, b5: Stream, b6: Stream, b7: Stream, s6: Stream, s7: Stream, s8: Stream, s9: Stream)
    requires IsBit(bytes, 1, 3, b3) && IsBit(bytes, 1, 4, b4) && IsBit(bytes, 1, 5, b5) && IsBit(bytes, 1, 6, b6) && IsBit(bytes, 1, 7, b7)
    requires IsHigh(bytes, 6, s6) && IsHigh(bytes, 7, s7) && IsHigh(bytes, 8, s8) && IsHigh(bytes, 9, s9)
    ensures |b3| == |b4| == |b5| == |b6| == |b7| == |s6| == |s7| == |s8| == |s9| == |bytes| + 1
  {
  }

  lemma OnlyAscii(bytes: seq<byte>, zeroes: Stream)
    requires |zeroes| == |bytes| + 1 && forall i :: 0 <= i < |zeroes| ==> !zeroes[i]
    requires forall i :: !In(bytes, i, 0x80, 0xFF)
    ensures IsLast(bytes, zeroes) && IsDeleted(bytes, zeroes) && IsLo1(bytes, zeroes)
    ensures forall k :: 0 <= k < 9 ==> IsOut(bytes, k, zeroes)
    ensures forall k :: 6 <= k < 16 ==> IsHigh(bytes, k, zeroes)
  {
    hide Back;
    forall i ensures !In(bytes, i, 0xE0, 0xEF) && !In(bytes, i, 0xF0, 0xFF) && !In(bytes, i, 0xC0, 0xDF) && !In(bytes, i, 0xC0, 0xFF) {
      assert !In(bytes, i, 0x80, 0xFF);
    }
  }

  // ---- the program ------------------------------------------------------------------

  lemma LowBit(bytes: seq<byte>, k: nat, ascii: Stream, last: Stream, bit: Stream, high: Stream)
    requires 10 <= k < 16 && IsClass(bytes, 0, 0, 0x7F, ascii) && IsLast(bytes, last) && IsBit(bytes, 0, k - 8, bit) && IsHigh(bytes, k, high)
    ensures IsOut(bytes, k, Or(And(Or(ascii, last), bit), high))
  {
    hide Back, High, Last;
  }

  lemma NinthBit(bytes: seq<byte>, ascii: Stream, bit: Stream, lo1: Stream)
    requires IsClass(bytes, 0, 0, 0x7F, ascii) && IsBit(bytes, 0, 1, bit) && IsLo1(bytes, lo1)
    ensures IsOut(bytes, 9, Or(And(ascii, bit), lo1))
  {
    hide Back, High, Last;
  }

  /** The streams the program delivers. */
  predicate Outputs(bytes: seq<byte>, u16: seq<Stream>, delmask: Stream) {
    && |u16| == 16 && (forall k :: 0 <= k < 16 ==> IsOut(bytes, k, u16[k])) && IsDeleted(bytes, delmask)
    && |delmask| == |bytes| + 1 && forall k :: 0 <= k < 16 ==> |u16[k]| == |bytes| + 1
  }

  lemma OutputLengths(bytes: seq<byte>, u16: seq<Stream>, delmask: Stream)
    requires |u16| == 16 && (forall k :: 0 <= k < 16 ==> IsOut(bytes, k, u16[k])) && IsDeleted(bytes, delmask)
    ensures Outputs(bytes, u16, delmask)
  {
  }

  /** U8U16Kernel::generatePabloMethod: the sixteen streams of the code units, the deletion mask and the
      error mask. */
  method Transcode(bytes: seq<byte>) returns (u16: seq<Stream>, delmask: Stream, errorMask: Stream)
    ensures Outputs(bytes, u16, delmask)
    ensures forall cps :: bytes == Utf8(cps) ==> Collect(u16, delmask, 0) == Utf16(cps)
    ensures |errorMask| == |bytes| + 1 && forall i :: 0 <= i <= |bytes| ==> errorMask[i] == ErrorBit(bytes, i)
    ensures (Any(errorMask) <==> !IsUtf8(bytes)) <==> (ErrorElsewhere(bytes) || (Present(bytes) <==> Absent(bytes)))
  {
    hide Back, IsHigh, IsOut, IsLo1, High, IsDeleted, IsBit, Collect, Utf8, Utf16, ErrorBit, IsUtf8, Present, Absent, ErrorElsewhere;
    MaskRightIff(bytes);
    var bit1 := BasisBit(bytes, 1);
    var bit2 := BasisBit(bytes, 2);
    var bit3 := BasisBit(bytes, 3);
    var bit4 := BasisBit(bytes, 4);
    var bit5 := BasisBit(bytes, 5);
    var bit6 := BasisBit(bytes, 6);
    var bit7 := BasisBit(bytes, 7);
    var last, hi0, hi1, hi2, hi3, hi4, hi5, hi6, hi7, lo0, part1, part2, part3, part4, part5, part6, part7;
    errorMask, last, delmask, hi0, hi1, hi2, hi3, hi4, hi5, hi6, hi7, lo0, part1, part2, part3, part4, part5, part6, part7 :=
      NonAscii(bytes, bit2, bit3, bit4, bit5, bit6, bit7);
    var ascii := Class(bytes, 0, 0x7F);
    var lo1, lo2, lo3, lo4, lo5, lo6, lo7 :=
      LowByte(bytes, ascii, last, bit1, bit2, bit3, bit4, bit5, bit6, bit7, part1, part2, part3, part4, part5, part6, part7);
    u16 := [hi0, hi1, hi2, hi3, hi4, hi5, hi6, hi7, lo0, lo1, lo2, lo3, lo4, lo5, lo6, lo7];
    OutputLengths(bytes, u16, delmask);
    forall cps | bytes == Utf8(cps) ensures Collect(u16, delmask, 0) == Utf16(cps) {
      Collected(bytes, u16, delmask, 0);
      TranscodesText(cps);
    }
  }

  /** The low byte's last seven bits. */
  method LowByte(bytes: seq<byte>, ascii: Stream, last: Stream, bit1: Stream, bit2: Stream, bit3: Stream, bit4: Stream, bit5: Stream, bit6: Stream,
                 bit7: Stream, part1: Stream, part2: Stream, part3: Stream, part4: Stream, part5: Stream, part6: Stream, part7: Stream)
    returns (lo1: Stream, lo2: Stream, lo3: Stream, lo4: Stream, lo5: Stream, lo6: Stream, lo7: Stream)
    requires IsClass(bytes, 0, 0, 0x7F, ascii) && IsLast(bytes, last)
    requires IsBit(bytes, 0, 1, bit1) && IsBit(bytes, 0, 2, bit2) && IsBit(bytes, 0, 3, bit3) && IsBit(bytes, 0, 4, bit4)
    requires IsBit(bytes, 0, 5, bit5) && IsBit(bytes, 0, 6, bit6) && IsBit(bytes, 0, 7, bit7)
    requires IsLo1(bytes, part1) && IsHigh(bytes, 10, part2) && IsHigh(bytes, 11, part3) && IsHigh(bytes, 12, part4)
    requires IsHigh(bytes, 13, part5) && IsHigh(bytes, 14, part6) && IsHigh(bytes, 15, part7)
    ensures IsOut(bytes, 9, lo1) && IsOut(bytes, 10, lo2) && IsOut(bytes, 11, lo3) && IsOut(bytes, 12, lo4)
    ensures IsOut(bytes, 13, lo5) && IsOut(bytes, 14, lo6) && IsOut(bytes, 15, lo7)
  {
    hide Back, High, Last, IsOut;
    var lastByte := Or(ascii, last);
    NinthBit(bytes, ascii, bit1, part1);
    LowBit(bytes, 10, ascii, last, bit2, part2);
    LowBit(bytes, 11, ascii, last, bit3, part3);
    LowBit(bytes, 12, ascii, last, bit4, part4);
    LowBit(bytes, 13, ascii, last, bit5, part5);
    LowBit(bytes, 14, ascii, last, bit6, part6);
    LowBit(bytes, 15, ascii, last, bit7, part7);
    lo1 := Or(And(ascii, bit1), part1);
    lo2 := Or(And(lastByte, bit2), part2);
    lo3 := Or(And(lastByte, bit3), part3);
    lo4 := Or(And(lastByte, bit4), part4);
    lo5 := Or(And(lastByte, bit5), part5);
    lo6 := Or(And(lastByte, bit6), part6);
    lo7 := Or(And(lastByte, bit7), part7);
  }

  // ---- deletion ---------------------------------------------------------------------

  /** The number that the first k streams spell at position i. */
  function Spelled(u16: seq<Stream>, i: nat, k: nat): nat
    requires k <= |u16| && forall j :: 0 <= j < |u16| ==> i < |u16[j]|
  {
    if k == 0 then 0 else 2 * Spelled(u16, i, k - 1) + Num(u16[k - 1][i])
  }

  /** What is left of the sixteen streams after the masked positions are deleted; the end-of-file
      position is no input. */
  function Collect(u16: seq<Stream>, delmask: Stream, i: nat): seq<nat>
    requires i < |delmask| && forall j :: 0 <= j < |u16| ==> |u16[j]| == |delmask|
    decreases |delmask| - i
  {
    if i == |delmask| - 1 then []
    else (if delmask[i] then [] else [Spelled(u16, i, |u16|)]) + Collect(u16, delmask, i + 1)
  }

  lemma SpelledFour(bytes: seq<byte>, u16: seq<Stream>, delmask: Stream, i: nat, k: nat)
    requires Outputs(bytes, u16, delmask) && i < |bytes| && k <= 12
    ensures Spelled(u16, i, k + 4) == 16 * Spelled(u16, i, k) + Nibble(OutBit(bytes, i, k), OutBit(bytes, i, k + 1), OutBit(bytes, i, k + 2), OutBit(bytes, i, k + 3))
  {
    hide OutBit, Num;
    assert Spelled(u16, i, k + 1) == 2 * Spelled(u16, i, k) + Num(u16[k][i]);
    assert Spelled(u16, i, k + 2) == 2 * Spelled(u16, i, k + 1) + Num(u16[k + 1][i]);
    assert Spelled(u16, i, k + 3) == 2 * Spelled(u16, i, k + 2) + Num(u16[k + 2][i]);
    assert Spelled(u16, i, k + 4) == 2 * Spelled(u16, i, k + 3) + Num(u16[k + 3][i]);
    assert IsOut(bytes, k, u16[k]) && IsOut(bytes, k + 1, u16[k + 1]) && IsOut(bytes, k + 2, u16[k + 2]) && IsOut(bytes, k + 3, u16[k + 3]);
  }

  lemma NoneSpelled(u16: seq<Stream>, i: nat)
    requires forall j :: 0 <= j < |u16| ==> i < |u16[j]|
    ensures Spelled(u16, i, 0) == 0
  {
  }

  lemma SpelledIs(bytes: seq<byte>, u16: seq<Stream>, delmask: Stream, i: nat)
    requires Outputs(bytes, u16, delmask) && i < |bytes|
    ensures Spelled(u16, i, 16) == Value(bytes, i)
  {
    hide OutBit, Num, Nibble, IsOut, IsDeleted, Spelled;
    NoneSpelled(u16, i);
    SpelledFour(bytes, u16, delmask, i, 0);
    SpelledFour(bytes, u16, delmask, i, 4);
    SpelledFour(bytes, u16, delmask, i, 8);
    SpelledFour(bytes, u16, delmask, i, 12);
  }

  lemma {:induction false} Collected(bytes: seq<byte>, u16: seq<Stream>, delmask: Stream, i: nat)
    requires Outputs(bytes, u16, delmask) && i <= |bytes|
    ensures Collect(u16, delmask, i) == Kept(bytes, i)
    decreases |bytes| - i
  {
    hide OutBit, Value, Spelled, Deleted;
    if i == |bytes| {
    } else {
      SpelledIs(bytes, u16, delmask, i);
      Collected(bytes, u16, delmask, i + 1);
    }
  }
}
