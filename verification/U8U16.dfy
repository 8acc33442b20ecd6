/** The bit-parallel UTF-8 to UTF-16 transcoder against the scalar encoders. */
module U8U16 {
  import opened Streams
  import opened Unicode

  // ---- what the streams hold at a position ------------------------------------------

  function At(bytes: seq<byte>, i: int): byte { if 0 <= i < |bytes| then bytes[i] else 0 }

  predicate In(bytes: seq<byte>, i: int, lo: byte, hi: byte) { 0 <= i < |bytes| && lo <= bytes[i] <= hi }

  /** The sequence a position belongs to: the second byte of two, the third of three, and so on. */
  predicate Scope22(bytes: seq<byte>, i: int) { In(bytes, i - 1, 0xC0, 0xDF) }
  predicate Scope32(bytes: seq<byte>, i: int) { In(bytes, i - 1, 0xE0, 0xEF) }
  predicate Scope33(bytes: seq<byte>, i: int) { In(bytes, i - 2, 0xE0, 0xEF) }
  predicate Scope42(bytes: seq<byte>, i: int) { In(bytes, i - 1, 0xF0, 0xFF) }
  predicate Scope43(bytes: seq<byte>, i: int) { In(bytes, i - 2, 0xF0, 0xFF) }
  predicate Scope44(bytes: seq<byte>, i: int) { In(bytes, i - 3, 0xF0, 0xFF) }
  predicate Last(bytes: seq<byte>, i: int) { Scope22(bytes, i) || Scope33(bytes, i) || Scope44(bytes, i) }
  predicate Surrogate(bytes: seq<byte>, i: int) { Scope43(bytes, i) || Scope44(bytes, i) }

  /** Bit k of the byte d positions back. */
  predicate Back(bytes: seq<byte>, i: int, d: nat, k: nat)
    requires k < 8
  {
    Bit(At(bytes, i - d), k)
  }

  /** Deleted positions. */
  predicate Deleted(bytes: seq<byte>, i: int) { Scope32(bytes, i) || Scope42(bytes, i) || In(bytes, i, 0xC0, 0xFF) }

  /** The borrow of subtracting one from the five bits of the plane number. */
  predicate Borrow1(bytes: seq<byte>, i: int) { !Back(bytes, i, 1, 3) && !Back(bytes, i, 1, 2) }
  predicate Borrow2(bytes: seq<byte>, i: int) { Borrow1(bytes, i) && !Back(bytes, i, 2, 7) }

  /** What the third position of a four-byte sequence contributes to bit k: the low ten bits of
      the high surrogate. */
  predicate High(bytes: seq<byte>, i: int, k: nat)
    requires 6 <= k < 16
  {
    Scope43(bytes, i) &&
    if k == 6 then Back(bytes, i, 2, 6) != Borrow2(bytes, i)
    else if k == 7 then Back(bytes, i, 2, 7) != Borrow1(bytes, i)
    else if k == 8 then Back(bytes, i, 1, 2) != !Back(bytes, i, 1, 3)
    else if k == 9 then !Back(bytes, i, 1, 3)
    else if k < 14 then Back(bytes, i, 1, k - 6)
    else Back(bytes, i, 0, k - 12)
  }

  /** Bit k of the code unit at position i; bit 0 is the most significant one. */
  predicate OutBit(bytes: seq<byte>, i: int, k: nat)
    requires k < 16
  {
    if k == 2 then Scope33(bytes, i) && Back(bytes, i, 2, 6)
    else if k < 4 then (Scope33(bytes, i) && Back(bytes, i, 2, k + 4)) || Surrogate(bytes, i)
    else if k == 4 then (Scope33(bytes, i) && Back(bytes, i, 1, 2)) || Surrogate(bytes, i)
    else if k == 5 then (Last(bytes, i) && Back(bytes, i, 1, 3)) || Scope44(bytes, i)
    else if k < 9 then (Last(bytes, i) && Back(bytes, i, 1, k - 2)) || High(bytes, i, k)
    else if k == 9 then (In(bytes, i, 0, 0x7F) && Back(bytes, i, 0, 1)) || (Last(bytes, i) && Back(bytes, i, 1, 7)) || High(bytes, i, 9)
    else ((In(bytes, i, 0, 0x7F) || Last(bytes, i)) && Back(bytes, i, 0, k - 8)) || High(bytes, i, k)
  }

  function Num(b: bool): nat { if b then 1 else 0 }

  function Nibble(a: bool, b: bool, c: bool, d: bool): nat { 8 * Num(a) + 4 * Num(b) + 2 * Num(c) + Num(d) }

  /** The code unit at position i. */
  function Value(bytes: seq<byte>, i: int): nat {
    4096 * Nibble(OutBit(bytes, i, 0), OutBit(bytes, i, 1), OutBit(bytes, i, 2), OutBit(bytes, i, 3)) +
    256 * Nibble(OutBit(bytes, i, 4), OutBit(bytes, i, 5), OutBit(bytes, i, 6), OutBit(bytes, i, 7)) +
    16 * Nibble(OutBit(bytes, i, 8), OutBit(bytes, i, 9), OutBit(bytes, i, 10), OutBit(bytes, i, 11)) +
    Nibble(OutBit(bytes, i, 12), OutBit(bytes, i, 13), OutBit(bytes, i, 14), OutBit(bytes, i, 15))
  }

  /** What is left after deletion, from position i on. */
  function Kept(bytes: seq<byte>, i: nat): seq<nat>
    requires i <= |bytes|
    decreases |bytes| - i
  {
    if i == |bytes| then []
    else (if Deleted(bytes, i) then [] else [Value(bytes, i)]) + Kept(bytes, i + 1)
  }

  // ---- bits and numbers -------------------------------------------------------------

  /** The data bits of a byte. */
  function Low(b: byte, k: nat): (n: nat)
    requires k < 8
  {
    b as int % [1, 2, 4, 8, 16, 32, 64, 128][k]
  }

  /** One more binary digit of c. */
  lemma Digit(c: nat, m: nat)
    requires m > 0
    ensures c % (2 * m) == (if c / m % 2 == 1 then m else 0) + c % m
  {
    var q, r := c / m, c % m;
    var h, e := q / 2, q % 2;
    assert q == 2 * h + e;
    assert c == m * q + r;
    assert m * q == 2 * m * h + m * e;
    Remainder(c, 2 * m, h, m * e + r);
  }

  lemma Remainder(c: nat, m: nat, q: nat, r: nat)
    requires c == m * q + r && r < m
    ensures c % m == r
  {
    Monotone(m, c / m + 1, q);
    Monotone(m, q + 1, c / m);
  }

  lemma Monotone(m: nat, x: int, y: int)
    ensures x <= y ==> m * x <= m * y
  {
  }

  lemma LowStep(b: byte)
    ensures Low(b, 7) == 64 * Num(Bit(b, 1)) + Low(b, 6)
    ensures Low(b, 6) == 32 * Num(Bit(b, 2)) + Low(b, 5)
    ensures Low(b, 5) == 16 * Num(Bit(b, 3)) + Low(b, 4)
  {
    Digit(b, 64);
    Digit(b, 32);
    Digit(b, 16);
  }

  lemma LowNibble(b: byte)
    ensures Low(b, 4) == Nibble(Bit(b, 4), Bit(b, 5), Bit(b, 6), Bit(b, 7))
    ensures Low(b, 3) == Nibble(false, Bit(b, 5), Bit(b, 6), Bit(b, 7))
  {
    Digit(b, 8);
    Digit(b, 4);
    Digit(b, 2);
    Digit(b, 1);
  }

  lemma LowSix(b: byte)
    ensures Low(b, 6) == 16 * Nibble(false, false, Bit(b, 2), Bit(b, 3)) + Nibble(Bit(b, 4), Bit(b, 5), Bit(b, 6), Bit(b, 7))
    ensures Low(b, 6) / 16 == Nibble(false, false, Bit(b, 2), Bit(b, 3))
  {
    hide Bit, Low, Num;
    NumBits();
    LowStep(b);
    LowNibble(b);
    SmallNibble(Bit(b, 2), Bit(b, 3), Bit(b, 4), Bit(b, 5), Bit(b, 6), Bit(b, 7));
  }

  lemma SmallNibble(a: bool, b: bool, c: bool, d: bool, e: bool, f: bool)
    ensures (16 * Nibble(false, false, a, b) + Nibble(c, d, e, f)) / 16 == Nibble(false, false, a, b)
  {
  }

  // ---- one code unit ----------------------------------------------------------------

  /** At position i exactly the given scopes are active. */
  predicate Scopes(bytes: seq<byte>, i: int, two: bool, three: bool, fourC: bool, fourD: bool) {
    && 0 <= i < |bytes|
    && Scope22(bytes, i) == two && Scope33(bytes, i) == three && Scope43(bytes, i) == fourC && Scope44(bytes, i) == fourD
  }

  lemma NumEq(a: bool, b: bool)
    requires a == b
    ensures Num(a) == Num(b)
  {
  }

  /** The code unit, given its bits. */
  lemma Bits(bytes: seq<byte>, i: int, x0: bool, x1: bool, x2: bool, x3: bool, x4: bool, x5: bool, x6: bool, x7: bool,
             x8: bool, x9: bool, x10: bool, x11: bool, x12: bool, x13: bool, x14: bool, x15: bool)
    requires OutBit(bytes, i, 0) == x0 && OutBit(bytes, i, 1) == x1 && OutBit(bytes, i, 2) == x2 && OutBit(bytes, i, 3) == x3
    requires OutBit(bytes, i, 4) == x4 && OutBit(bytes, i, 5) == x5 && OutBit(bytes, i, 6) == x6 && OutBit(bytes, i, 7) == x7
    requires OutBit(bytes, i, 8) == x8 && OutBit(bytes, i, 9) == x9 && OutBit(bytes, i, 10) == x10 && OutBit(bytes, i, 11) == x11
    requires OutBit(bytes, i, 12) == x12 && OutBit(bytes, i, 13) == x13 && OutBit(bytes, i, 14) == x14 && OutBit(bytes, i, 15) == x15
    ensures Value(bytes, i) == 4096 * Nibble(x0, x1, x2, x3) + 256 * Nibble(x4, x5, x6, x7) + 16 * Nibble(x8, x9, x10, x11) + Nibble(x12, x13, x14, x15)
  {
    hide Num, OutBit;
    NumEq(OutBit(bytes, i, 0), x0);
    NumEq(OutBit(bytes, i, 1), x1);
    NumEq(OutBit(bytes, i, 2), x2);
    NumEq(OutBit(bytes, i, 3), x3);
    NumEq(OutBit(bytes, i, 4), x4);
    NumEq(OutBit(bytes, i, 5), x5);
    NumEq(OutBit(bytes, i, 6), x6);
    NumEq(OutBit(bytes, i, 7), x7);
    NumEq(OutBit(bytes, i, 8), x8);
    NumEq(OutBit(bytes, i, 9), x9);
    NumEq(OutBit(bytes, i, 10), x10);
    NumEq(OutBit(bytes, i, 11), x11);
    NumEq(OutBit(bytes, i, 12), x12);
    NumEq(OutBit(bytes, i, 13), x13);
    NumEq(OutBit(bytes, i, 14), x14);
    NumEq(OutBit(bytes, i, 15), x15);
  }

  lemma UnitAscii(bytes: seq<byte>, i: int)
    requires Scopes(bytes, i, false, false, false, false) && bytes[i] <= 0x7F
    ensures Value(bytes, i) == bytes[i]
  {
    hide Bit, Low, Num, Value, Scope22, Scope33, Scope43, Scope44;
    NumBits();
    var b := bytes[i];
    Bits(bytes, i, false, false, false, false, false, false, false, false,
         false, Bit(b, 1), Bit(b, 2), Bit(b, 3), Bit(b, 4), Bit(b, 5), Bit(b, 6), Bit(b, 7));
    LowSix(b);
    LowStep(b);
    SevenBits(b);
  }

  lemma SevenBits(b: byte)
    requires b <= 0x7F
    ensures Low(b, 7) == b
  {
  }

  lemma NumBits()
    ensures Num(false) == 0 && Num(true) == 1
  {
  }

  /** The low twelve bits at the last position of a sequence. */
  function Tail(bytes: seq<byte>, i: int): nat {
    256 * Nibble(false, false, Back(bytes, i, 1, 4), Back(bytes, i, 1, 5)) +
    16 * Nibble(Back(bytes, i, 1, 6), Back(bytes, i, 1, 7), Back(bytes, i, 0, 2), Back(bytes, i, 0, 3)) +
    Nibble(Back(bytes, i, 0, 4), Back(bytes, i, 0, 5), Back(bytes, i, 0, 6), Back(bytes, i, 0, 7))
  }

  lemma TailIs(bytes: seq<byte>, i: int)
    requires 1 <= i < |bytes|
    ensures Tail(bytes, i) == 64 * Low(bytes[i - 1], 4) + Low(bytes[i], 6)
  {
    hide Bit, Low, Num, Nibble;
    var p, b := bytes[i - 1], bytes[i];
    LowSix(b);
    LowNibble(p);
    TailSum(Bit(p, 4), Bit(p, 5), Bit(p, 6), Bit(p, 7), Bit(b, 2), Bit(b, 3), Nibble(Bit(b, 4), Bit(b, 5), Bit(b, 6), Bit(b, 7)));
  }

  lemma TailSum(a: bool, b: bool, c: bool, d: bool, e: bool, f: bool, n: nat)
    ensures 256 * Nibble(false, false, a, b) + 16 * Nibble(c, d, e, f) + n == 64 * Nibble(a, b, c, d) + (16 * Nibble(false, false, e, f) + n)
  {
    hide Num;
    NumBits();
  }

  lemma TwoBits(bytes: seq<byte>, i: int)
    requires Scopes(bytes, i, true, false, false, false) && bytes[i] > 0x7F && i >= 1
    ensures Value(bytes, i) == 4096 * Nibble(false, false, false, false) + 256 * Nibble(false, Back(bytes, i, 1, 3), Back(bytes, i, 1, 4), Back(bytes, i, 1, 5)) +
                               16 * Nibble(Back(bytes, i, 1, 6), Back(bytes, i, 1, 7), Back(bytes, i, 0, 2), Back(bytes, i, 0, 3)) +
                               Nibble(Back(bytes, i, 0, 4), Back(bytes, i, 0, 5), Back(bytes, i, 0, 6), Back(bytes, i, 0, 7))
  {
    hide Bit, At, Back, Low, Num, Nibble, Value, Scope22, Scope33, Scope43, Scope44;
    Bits(bytes, i, false, false, false, false, false, Back(bytes, i, 1, 3), Back(bytes, i, 1, 4), Back(bytes, i, 1, 5),
         Back(bytes, i, 1, 6), Back(bytes, i, 1, 7), Back(bytes, i, 0, 2), Back(bytes, i, 0, 3),
         Back(bytes, i, 0, 4), Back(bytes, i, 0, 5), Back(bytes, i, 0, 6), Back(bytes, i, 0, 7));
  }

  lemma UnitTwo(bytes: seq<byte>, i: int)
    requires Scopes(bytes, i, true, false, false, false) && 1 <= i < |bytes| && bytes[i] > 0x7F
    ensures Value(bytes, i) == 64 * Low(bytes[i - 1], 5) + Low(bytes[i], 6)
  {
    hide Bit, Low, Num, Value, OutBit, Scopes;
    NumBits();
    TwoBits(bytes, i);
    TailIs(bytes, i);
    LowStep(bytes[i - 1]);
    LowNibble(bytes[i - 1]);
  }

  lemma ThreeBits(bytes: seq<byte>, i: int)
    requires Scopes(bytes, i, false, true, false, false) && bytes[i] > 0x7F && i >= 2
    ensures Value(bytes, i) == 4096 * Nibble(Back(bytes, i, 2, 4), Back(bytes, i, 2, 5), Back(bytes, i, 2, 6), Back(bytes, i, 2, 7)) +
                               256 * Nibble(Back(bytes, i, 1, 2), Back(bytes, i, 1, 3), Back(bytes, i, 1, 4), Back(bytes, i, 1, 5)) +
                               16 * Nibble(Back(bytes, i, 1, 6), Back(bytes, i, 1, 7), Back(bytes, i, 0, 2), Back(bytes, i, 0, 3)) +
                               Nibble(Back(bytes, i, 0, 4), Back(bytes, i, 0, 5), Back(bytes, i, 0, 6), Back(bytes, i, 0, 7))
  {
    hide Bit, At, Back, Low, Num, Nibble, Value, Scope22, Scope33, Scope43, Scope44;
    Bits(bytes, i, Back(bytes, i, 2, 4), Back(bytes, i, 2, 5), Back(bytes, i, 2, 6), Back(bytes, i, 2, 7),
         Back(bytes, i, 1, 2), Back(bytes, i, 1, 3), Back(bytes, i, 1, 4), Back(bytes, i, 1, 5),
         Back(bytes, i, 1, 6), Back(bytes, i, 1, 7), Back(bytes, i, 0, 2), Back(bytes, i, 0, 3),
         Back(bytes, i, 0, 4), Back(bytes, i, 0, 5), Back(bytes, i, 0, 6), Back(bytes, i, 0, 7));
  }

  lemma UnitThree(bytes: seq<byte>, i: int)
    requires Scopes(bytes, i, false, true, false, false) && 2 <= i < |bytes| && bytes[i] > 0x7F
    ensures Value(bytes, i) == 4096 * Low(bytes[i - 2], 4) + 64 * Low(bytes[i - 1], 6) + Low(bytes[i], 6)
  {
    hide Bit, Low, Num, Value, OutBit, Scopes;
    NumBits();
    ThreeBits(bytes, i);
    TailIs(bytes, i);
    LowStep(bytes[i - 1]);
    LowNibble(bytes[i - 1]);
    LowNibble(bytes[i - 2]);
  }

  lemma LowBits(bytes: seq<byte>, i: int)
    requires Scopes(bytes, i, false, false, false, true) && bytes[i] > 0x7F && i >= 1
    ensures Value(bytes, i) == 4096 * Nibble(true, true, false, true) + 256 * Nibble(true, true, Back(bytes, i, 1, 4), Back(bytes, i, 1, 5)) +
                               16 * Nibble(Back(bytes, i, 1, 6), Back(bytes, i, 1, 7), Back(bytes, i, 0, 2), Back(bytes, i, 0, 3)) +
                               Nibble(Back(bytes, i, 0, 4), Back(bytes, i, 0, 5), Back(bytes, i, 0, 6), Back(bytes, i, 0, 7))
  {
    hide Bit, At, Back, Low, Num, Nibble, Value, Scope22, Scope33, Scope43, Scope44;
    Bits(bytes, i, true, true, false, true, true, true, Back(bytes, i, 1, 4), Back(bytes, i, 1, 5),
         Back(bytes, i, 1, 6), Back(bytes, i, 1, 7), Back(bytes, i, 0, 2), Back(bytes, i, 0, 3),
         Back(bytes, i, 0, 4), Back(bytes, i, 0, 5), Back(bytes, i, 0, 6), Back(bytes, i, 0, 7));
  }

  /** The low surrogate. */
  lemma UnitLow(bytes: seq<byte>, i: int)
    requires Scopes(bytes, i, false, false, false, true) && 1 <= i < |bytes| && bytes[i] > 0x7F
    ensures Value(bytes, i) == 0xDC00 + 64 * Low(bytes[i - 1], 4) + Low(bytes[i], 6)
  {
    hide Bit, Low, Num, Value, OutBit, Scopes;
    NumBits();
    LowBits(bytes, i);
    TailIs(bytes, i);
  }

  /** The bits of the high surrogate: one is subtracted from the plane number. */
  lemma PlaneLessOne(a: bool, b: bool, c: bool, d: bool, e: bool)
    requires 1 <= 16 * Num(a) + Nibble(b, c, d, e) <= 16
    ensures var borrow1 := !e && !d; var borrow2 := borrow1 && !c;
            Nibble(b != borrow2, c != borrow1, d != !e, !e) == 16 * Num(a) + Nibble(b, c, d, e) - 1
  {
  }

  lemma HighBits(bytes: seq<byte>, i: int)
    requires Scopes(bytes, i, false, false, true, false) && bytes[i] > 0x7F && i >= 2
    ensures Value(bytes, i) == 4096 * Nibble(true, true, false, true) +
                               256 * Nibble(true, false, Back(bytes, i, 2, 6) != Borrow2(bytes, i), Back(bytes, i, 2, 7) != Borrow1(bytes, i)) +
                               16 * Nibble(Back(bytes, i, 1, 2) != !Back(bytes, i, 1, 3), !Back(bytes, i, 1, 3), Back(bytes, i, 1, 4), Back(bytes, i, 1, 5)) +
                               Nibble(Back(bytes, i, 1, 6), Back(bytes, i, 1, 7), Back(bytes, i, 0, 2), Back(bytes, i, 0, 3))
  {
    hide Bit, At, Back, Low, Num, Nibble, Value, Borrow1, Borrow2, Scope22, Scope33, Scope43, Scope44;
    Bits(bytes, i, true, true, false, true, true, false, Back(bytes, i, 2, 6) != Borrow2(bytes, i), Back(bytes, i, 2, 7) != Borrow1(bytes, i),
         Back(bytes, i, 1, 2) != !Back(bytes, i, 1, 3), !Back(bytes, i, 1, 3), Back(bytes, i, 1, 4), Back(bytes, i, 1, 5),
         Back(bytes, i, 1, 6), Back(bytes, i, 1, 7), Back(bytes, i, 0, 2), Back(bytes, i, 0, 3));
  }

  /** Four bits that straddle two nibbles. */
  lemma Straddle(a: bool, b: bool, c: bool, d: bool, e: bool, f: bool, g: bool, h: bool)
    ensures 256 * Nibble(true, false, a, b) + 16 * Nibble(c, d, e, f) + Nibble(g, h, false, false)
         == 2048 + 64 * Nibble(a, b, c, d) + 4 * Nibble(e, f, g, h)
  {
    hide Num;
    NumBits();
  }

  /** The high surrogate. */
  lemma UnitHigh(bytes: seq<byte>, i: int)
    requires Scopes(bytes, i, false, false, true, false) && 2 <= i < |bytes| && bytes[i] > 0x7F
    requires 1 <= 4 * Low(bytes[i - 2], 3) + Low(bytes[i - 1], 6) / 16 <= 16
    ensures Value(bytes, i) == 0xD800 + 64 * (4 * Low(bytes[i - 2], 3) + Low(bytes[i - 1], 6) / 16 - 1) + 4 * Low(bytes[i - 1], 4) + Low(bytes[i], 6) / 16
  {
    hide Bit, Num, Value, Low, OutBit, Scopes, Nibble;
    HighBits(bytes, i);
    var p, q, r := bytes[i - 2], bytes[i - 1], bytes[i];
    var borrow1 := !Bit(q, 3) && !Bit(q, 2);
    var borrow2 := borrow1 && !Bit(p, 7);
    LowSix(r);
    LowSix(q);
    LowNibble(q);
    LowNibble(p);
    HighSum(Bit(p, 5), Bit(p, 6), Bit(p, 7), Bit(q, 2), Bit(q, 3), Bit(q, 4), Bit(q, 5), Bit(q, 6), Bit(q, 7), Bit(r, 2), Bit(r, 3));
  }

  lemma HighSum(a: bool, b: bool, c: bool, d: bool, e: bool, f: bool, g: bool, h: bool, j: bool, k: bool, l: bool)
    requires 1 <= 4 * Nibble(false, a, b, c) + Nibble(false, false, d, e) <= 16
    ensures var borrow1 := !e && !d; var borrow2 := borrow1 && !c;
      4096 * Nibble(true, true, false, true) + 256 * Nibble(true, false, b != borrow2, c != borrow1) + 16 * Nibble(d != !e, !e, f, g) + Nibble(h, j, k, l)
      == 0xD800 + 64 * (4 * Nibble(false, a, b, c) + Nibble(false, false, d, e) - 1) + 4 * Nibble(f, g, h, j) + Nibble(false, false, k, l)
  {
    hide Num;
    NumBits();
    Group(a, b, c, d, e);
    PlaneLessOne(a, b, c, d, e);
    var borrow1 := !e && !d;
    var borrow2 := borrow1 && !c;
    Straddle(b != borrow2, c != borrow1, d != !e, !e, f, g, h, j);
  }

  lemma Group(a: bool, b: bool, c: bool, d: bool, e: bool)
    ensures 4 * Nibble(false, a, b, c) + Nibble(false, false, d, e) == 16 * Num(a) + Nibble(b, c, d, e)
  {
  }

  // ---- one code point ---------------------------------------------------------------

  /** No sequence that began before position o reaches it. */
  predicate Boundary(bytes: seq<byte>, o: int) {
    !In(bytes, o - 1, 0xC0, 0xFF) && !In(bytes, o - 2, 0xE0, 0xFF) && !In(bytes, o - 3, 0xF0, 0xFF)
  }

  /** The encoding of cp stands at position o. */
  predicate Stands(bytes: seq<byte>, o: nat, cp: CodePoint) {
    o + Length8(cp) <= |bytes| && bytes[o..o + Length8(cp)] == Encode8(cp)
  }

  lemma BytesOf(bytes: seq<byte>, o: nat, cp: CodePoint, n: nat)
    requires Stands(bytes, o, cp) && n < Length8(cp)
    ensures bytes[o + n] == Byte8(cp, n + 1)
  {
    assert bytes[o + n] == bytes[o..o + Length8(cp)][n];
  }

  /** The bytes of a code point, as its groups of six bits under their marks. */
  lemma Bytes(cp: CodePoint)
    ensures cp <= 0x7F ==> Byte8(cp, 1) == cp
    ensures 0x80 <= cp <= 0x7FF ==> Byte8(cp, 1) == 0xC0 + cp / 64 && Byte8(cp, 2) == 0x80 + cp % 64
    ensures 0x800 <= cp <= 0xFFFF ==>
      Byte8(cp, 1) == 0xE0 + cp / 4096 && Byte8(cp, 2) == 0x80 + cp / 64 % 64 && Byte8(cp, 3) == 0x80 + cp % 64
    ensures 0x10000 <= cp ==>
      Byte8(cp, 1) == 0xF0 + cp / 262144 && Byte8(cp, 2) == 0x80 + cp / 4096 % 64 &&
      Byte8(cp, 3) == 0x80 + cp / 64 % 64 && Byte8(cp, 4) == 0x80 + cp % 64
  {
    assert Pow64(0) == 1 && Pow64(1) == 64 && Pow64(2) == 4096;
  }

  lemma StepOne(bytes: seq<byte>, o: nat, cp: CodePoint)
    requires Boundary(bytes, o) && Stands(bytes, o, cp) && cp <= 0x7F
    ensures Kept(bytes, o) == Encode16(cp) + Kept(bytes, o + 1) && Boundary(bytes, o + 1)
  {
    hide Value;
    BytesOf(bytes, o, cp, 0);
    Bytes(cp);
    UnitAscii(bytes, o);
    assert Encode16(cp) == [cp];
  }

  /** The data bits under the marks. */
  lemma Marks(x: nat)
    requires x < 64
    ensures Low(0x80 + x, 6) == x && Low(0x80 + x, 4) == x % 16
    ensures x < 32 ==> Low(0xC0 + x, 5) == x
    ensures x < 16 ==> Low(0xE0 + x, 4) == x
    ensures x < 8 ==> Low(0xF0 + x, 3) == x
  {
  }

  predicate Suffix(bytes: seq<byte>, i: int) { In(bytes, i, 0x80, 0xBF) }

  lemma ShapeTwo(bytes: seq<byte>, o: nat)
    requires Boundary(bytes, o) && In(bytes, o, 0xC0, 0xDF) && Suffix(bytes, o + 1)
    ensures Scopes(bytes, o + 1, true, false, false, false)
    ensures Deleted(bytes, o) && !Deleted(bytes, o + 1) && Boundary(bytes, o + 2)
  {
  }

  lemma StepTwo(bytes: seq<byte>, o: nat, cp: CodePoint)
    requires Boundary(bytes, o) && Stands(bytes, o, cp) && 0x80 <= cp <= 0x7FF
    ensures Kept(bytes, o) == Encode16(cp) + Kept(bytes, o + 2) && Boundary(bytes, o + 2)
  {
    hide Value, Deleted, Boundary, Scopes, Byte8, Low, Encode8;
    BytesOf(bytes, o, cp, 0);
    BytesOf(bytes, o, cp, 1);
    Bytes(cp);
    ShapeTwo(bytes, o);
    UnitTwo(bytes, o + 1);
    Marks(cp / 64);
    Marks(cp % 64);
    assert Value(bytes, o + 1) == cp;
    DropOne(bytes, o);
    KeepOne(bytes, o + 1);
    assert Encode16(cp) == [cp];
  }

  lemma DropOne(bytes: seq<byte>, o: nat)
    requires o < |bytes| && Deleted(bytes, o)
    ensures Kept(bytes, o) == Kept(bytes, o + 1)
  {
    hide Deleted, Value;
    assert Kept(bytes, o) == [] + Kept(bytes, o + 1);
  }

  lemma KeepOne(bytes: seq<byte>, o: nat)
    requires o < |bytes| && !Deleted(bytes, o)
    ensures Kept(bytes, o) == [Value(bytes, o)] + Kept(bytes, o + 1)
  {
    hide Deleted, Value;
  }

  lemma ShapeThree(bytes: seq<byte>, o: nat)
    requires Boundary(bytes, o) && In(bytes, o, 0xE0, 0xEF) && Suffix(bytes, o + 1) && Suffix(bytes, o + 2)
    ensures Scopes(bytes, o + 2, false, true, false, false)
    ensures Deleted(bytes, o) && Deleted(bytes, o + 1) && !Deleted(bytes, o + 2) && Boundary(bytes, o + 3)
  {
  }

  lemma StepThree(bytes: seq<byte>, o: nat, cp: CodePoint)
    requires Boundary(bytes, o) && Stands(bytes, o, cp) && 0x800 <= cp <= 0xFFFF
    ensures Kept(bytes, o) == Encode16(cp) + Kept(bytes, o + 3) && Boundary(bytes, o + 3)
  {
    hide Value, Deleted, Boundary, Scopes, Byte8, Low, Encode8, Kept;
    BytesOf(bytes, o, cp, 0);
    BytesOf(bytes, o, cp, 1);
    BytesOf(bytes, o, cp, 2);
    Bytes(cp);
    ShapeThree(bytes, o);
    UnitThree(bytes, o + 2);
    Marks(cp / 4096);
    Marks(cp / 64 % 64);
    Marks(cp % 64);
    Groups(cp);
    assert Value(bytes, o + 2) == cp;
    DropOne(bytes, o);
    DropOne(bytes, o + 1);
    KeepOne(bytes, o + 2);
    assert Encode16(cp) == [cp];
  }

  lemma Groups(cp: CodePoint)
    ensures cp == 4096 * (cp / 4096) + 64 * (cp / 64 % 64) + cp % 64
  {
  }

  lemma FourGroups(cp: CodePoint)
    ensures cp == 262144 * (cp / 262144) + 4096 * (cp / 4096 % 64) + 64 * (cp / 64 % 64) + cp % 64
  {
    Groups(cp);
  }

  lemma SurrogateFields(cp: CodePoint, a: nat, b1: nat, b0: nat, c1: nat, c0: nat, d: nat)
    requires 0x10000 <= cp == 262144 * a + 4096 * (16 * b1 + b0) + 64 * (16 * c1 + c0) + d
    requires b1 < 4 && b0 < 16 && c1 < 4 && c0 < 16 && d < 64
    ensures 1 <= 4 * a + b1 <= 16
    ensures Unit16(cp, 1) == 0xD800 + 64 * (4 * a + b1 - 1) + 4 * b0 + c1 && Unit16(cp, 2) == 0xDC00 + 64 * c0 + d
  {
    assert cp - 0x10000 == 1024 * (64 * (4 * a + b1 - 1) + 4 * b0 + c1) + (64 * c0 + d);
  }

  /** The two surrogates of a code point in terms of its groups of six bits. */
  lemma Surrogates(cp: CodePoint)
    requires 0x10000 <= cp
    ensures 1 <= 4 * (cp / 262144) + cp / 4096 % 64 / 16 <= 16
    ensures Unit16(cp, 1) == 0xD800 + 64 * (4 * (cp / 262144) + cp / 4096 % 64 / 16 - 1) + 4 * (cp / 4096 % 64 % 16) + cp / 64 % 64 / 16
    ensures Unit16(cp, 2) == 0xDC00 + 64 * (cp / 64 % 64 % 16) + cp % 64
  {
    var a, b, c, d := cp / 262144, cp / 4096 % 64, cp / 64 % 64, cp % 64;
    FourGroups(cp);
    SurrogateFields(cp, a, b / 16, b % 16, c / 16, c % 16, d);
  }

  lemma ShapeFour(bytes: seq<byte>, o: nat)
    requires Boundary(bytes, o) && In(bytes, o, 0xF0, 0xFF) && Suffix(bytes, o + 1) && Suffix(bytes, o + 2) && Suffix(bytes, o + 3)
    ensures Scopes(bytes, o + 2, false, false, true, false) && Scopes(bytes, o + 3, false, false, false, true)
    ensures Deleted(bytes, o) && Deleted(bytes, o + 1) && !Deleted(bytes, o + 2) && !Deleted(bytes, o + 3) && Boundary(bytes, o + 4)
  {
  }

  lemma SurrogateUnits(bytes: seq<byte>, o: nat, cp: CodePoint)
    requires Stands(bytes, o, cp) && 0x10000 <= cp
    requires Scopes(bytes, o + 2, false, false, true, false) && Scopes(bytes, o + 3, false, false, false, true)
    ensures Value(bytes, o + 2) == Unit16(cp, 1) && Value(bytes, o + 3) == Unit16(cp, 2)
  {
    hide Value, Deleted, Scopes, Byte8, Low, Encode8, Unit16;
    BytesOf(bytes, o, cp, 0);
    BytesOf(bytes, o, cp, 1);
    BytesOf(bytes, o, cp, 2);
    BytesOf(bytes, o, cp, 3);
    Bytes(cp);
    Surrogates(cp);
    Marks(cp / 262144);
    Marks(cp / 4096 % 64);
    Marks(cp / 64 % 64);
    Marks(cp % 64);
    UnitHigh(bytes, o + 2);
    UnitLow(bytes, o + 3);
  }

  lemma FourSuffixes(bytes: seq<byte>, o: nat, cp: CodePoint)
    requires Stands(bytes, o, cp) && 0x10000 <= cp
    ensures o + 4 <= |bytes| && In(bytes, o, 0xF0, 0xFF) && Suffix(bytes, o + 1) && Suffix(bytes, o + 2) && Suffix(bytes, o + 3)
  {
    hide Byte8, Encode8;
    BytesOf(bytes, o, cp, 0);
    BytesOf(bytes, o, cp, 1);
    BytesOf(bytes, o, cp, 2);
    BytesOf(bytes, o, cp, 3);
    Bytes(cp);
  }

  lemma StepFour(bytes: seq<byte>, o: nat, cp: CodePoint)
    requires Boundary(bytes, o) && Stands(bytes, o, cp) && 0x10000 <= cp
    ensures Kept(bytes, o) == Encode16(cp) + Kept(bytes, o + 4) && Boundary(bytes, o + 4)
  {
    hide Value, Deleted, Boundary, Scopes, Stands, In, Suffix, Kept, Unit16;
    FourSuffixes(bytes, o, cp);
    ShapeFour(bytes, o);
    SurrogateUnits(bytes, o, cp);
    DropOne(bytes, o);
    DropOne(bytes, o + 1);
    KeepOne(bytes, o + 2);
    KeepOne(bytes, o + 3);
    assert Encode16(cp) == [Unit16(cp, 1), Unit16(cp, 2)];
  }

  // ---- whole texts ------------------------------------------------------------------

  lemma {:induction false} TailKept(bytes: seq<byte>, o: nat, cps: seq<CodePoint>)
    requires o <= |bytes| && bytes[o..] == Utf8(cps) && Boundary(bytes, o)
    ensures Kept(bytes, o) == Utf16(cps)
    decreases |cps|
  {
    hide Deleted, Value, Boundary, Encode8, Encode16, Length8, Length16, Stands, In;
    if cps == [] {
    } else {
      Parts(bytes, o, cps);
      Step(bytes, o, cps[0]);
      TailKept(bytes, o + Length8(cps[0]), cps[1..]);
    }
  }

  /** The first code point stands at the front, the others behind it. */
  lemma Parts(bytes: seq<byte>, o: nat, cps: seq<CodePoint>)
    requires o <= |bytes| && bytes[o..] == Utf8(cps) && cps != []
    ensures Stands(bytes, o, cps[0]) && bytes[o + Length8(cps[0])..] == Utf8(cps[1..])
  {
    hide Byte8, Length8;
    var len := Length8(cps[0]);
    assert bytes[o..] == Encode8(cps[0]) + Utf8(cps[1..]);
    assert bytes[o..o + len] == bytes[o..][..len] == Encode8(cps[0]);
    assert bytes[o + len..] == bytes[o..][len..] == Utf8(cps[1..]);
  }

  lemma Step(bytes: seq<byte>, o: nat, cp: CodePoint)
    requires Boundary(bytes, o) && Stands(bytes, o, cp)
    ensures Kept(bytes, o) == Encode16(cp) + Kept(bytes, o + Length8(cp)) && Boundary(bytes, o + Length8(cp))
  {
    hide Kept, Encode8, Encode16, Boundary, Stands;
    if cp <= 0x7F {
      StepOne(bytes, o, cp);
    } else if cp <= 0x7FF {
      StepTwo(bytes, o, cp);
    } else if cp <= 0xFFFF {
      StepThree(bytes, o, cp);
    } else {
      StepFour(bytes, o, cp);
    }
  }

  /** For every text: what the bit streams hold after deletion is its UTF-16 encoding. */
  lemma TranscodesText(cps: seq<CodePoint>)
    ensures Kept(Utf8(cps), 0) == Utf16(cps)
  {
    var bytes := Utf8(cps);
    assert bytes[0..] == bytes;
    TailKept(bytes, 0, cps);
  }
}
