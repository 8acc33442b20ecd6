/** CUDD's arbitrary precision integers: big-endian arrays of 16-bit digits, worked on in place.
    The destination of an operation may be one of its operands. */
module Apa {

  const BITS := 16
  const BASE := 0x1_0000

  type digit = x: int | 0 <= x < 0x1_0000
  type doubledigit = x: int | 0 <= x < 0x1_0000_0000

  // ---- what an array denotes --------------------------------------------------------

  function Power(base: nat, k: nat): (p: nat)
    ensures base > 0 ==> p > 0
  {
    if k == 0 then 1 else base * Power(base, k - 1)
  }

  /** The number that digits spell in a base, the most significant one first. */
  function Value(base: nat, s: seq<int>): int {
    if s == [] then 0 else base * Value(base, s[..|s| - 1]) + s[|s| - 1]
  }

  lemma {:induction false} ValueCons(base: nat, s: seq<int>)
    requires s != []
    ensures Value(base, s) == s[0] * Power(base, |s| - 1) + Value(base, s[1..])
  {
    if |s| == 1 {
      assert s[..0] == [] && s[1..] == [];
    } else {
      var f := s[..|s| - 1];
      ValueCons(base, f);
      assert f[1..] == s[1..][..|s[1..]| - 1];
      var p := Power(base, |s| - 2);
      Times(base, s[0], p, Value(base, f[1..]));
    }
  }

  lemma Times(b: int, x: int, p: int, v: int)
    ensures b * (x * p + v) == x * (b * p) + b * v
  {
  }

  lemma {:induction false} ValueBound(base: nat, s: seq<int>)
    requires base > 0 && forall i :: 0 <= i < |s| ==> 0 <= s[i] < base
    ensures 0 <= Value(base, s) < Power(base, |s|)
  {
    if s == [] {
    } else {
      var v := Value(base, s[..|s| - 1]);
      ValueBound(base, s[..|s| - 1]);
      Scaled(base, v, Power(base, |s| - 1) - 1);
    }
  }

  lemma Scaled(b: nat, x: int, y: int)
    ensures x <= y ==> b * x <= b * y
    ensures b * (y + 1) == b * y + b
  {
  }

  ghost function Number(a: array<digit>): int
    reads a
  {
    Value(BASE, a[..])
  }

  lemma Suffix(s: seq<int>, i: nat)
    requires i < |s|
    ensures Value(BASE, s[i..]) == s[i] * Power(BASE, |s| - 1 - i) + Value(BASE, s[i + 1..])
  {
    ValueCons(BASE, s[i..]);
    assert s[i..][1..] == s[i + 1..];
  }

  // ---- addition and subtraction -----------------------------------------------------

  lemma PowerStep(k: nat)
    ensures Power(BASE, k + 1) == BASE * Power(BASE, k)
  {
  }

  /** One more digit of a sum; c and d are the carries, which may be taken as borrows. */
  lemma SumDigit(p: nat, x: int, y: int, z: int, c: int, d: int, xs: int, ys: int, zs: int)
    requires zs + c * p == xs + ys && z + d * BASE == x + y + c
    ensures z * p + zs + d * (BASE * p) == x * p + xs + (y * p + ys)
  {
    assert (z + d * BASE) * p == (x + y + c) * p;
    assert (x + y + c) * p == x * p + y * p + c * p;
    assert (z + d * BASE) * p == z * p + d * (BASE * p);
  }

  /** The digits from i on are a sum with carry c; a borrow is a carry of minus one. */
  ghost predicate IsSum(A: seq<int>, B: seq<int>, S: seq<int>, sign: int, i: nat, c: int)
    requires |A| == |B| == |S| && i <= |A|
  {
    Value(BASE, S[i..]) + c * Power(BASE, |A| - i) == Value(BASE, A[i..]) + sign * Value(BASE, B[i..])
  }

  lemma SumStarts(A: seq<int>, B: seq<int>, S: seq<int>, sign: int)
    requires |A| == |B| == |S|
    ensures IsSum(A, B, S, sign, |A|, 0)
  {
  }

  lemma SumStep(A: seq<int>, B: seq<int>, S: seq<int>, R: seq<int>, sign: int, i: nat, c: int, d: int)
    requires |A| == |B| == |S| == |R| && i < |A| && IsSum(A, B, S, sign, i + 1, c)
    requires R[i + 1..] == S[i + 1..] && R[i] + d * BASE == A[i] + sign * B[i] + c
    ensures IsSum(A, B, R, sign, i, d)
  {
    hide Value, Power;
    var p := Power(BASE, |A| - 1 - i);
    SumDigit(p, A[i], sign * B[i], R[i], c, d, Value(BASE, A[i + 1..]), sign * Value(BASE, B[i + 1..]), Value(BASE, S[i + 1..]));
    Suffix(A, i);
    Suffix(B, i);
    Suffix(R, i);
    Signed(sign, B[i], p, Value(BASE, B[i + 1..]));
    PowerStep(|A| - 1 - i);
  }

  lemma Signed(s: int, x: int, p: int, v: int)
    ensures s * (x * p + v) == s * x * p + s * v
  {
  }

  lemma SumDone(A: seq<int>, B: seq<int>, S: seq<int>, sign: int, c: int)
    requires |A| == |B| == |S| && IsSum(A, B, S, sign, 0, c)
    ensures Value(BASE, S) + c * Power(BASE, |A|) == Value(BASE, A) + sign * Value(BASE, B)
  {
    assert A[0..] == A && B[0..] == B && S[0..] == S;
  }

  /** Cudd_ApaAdd */
  method Add(digits: nat, a: array<digit>, b: array<digit>, sum: array<digit>) returns (carry: digit)
    requires a.Length == b.Length == sum.Length == digits
    modifies sum
    ensures carry <= 1 && Number(sum) + carry * Power(BASE, digits) == old(Number(a)) + old(Number(b))
  {
    hide Value, Power, IsSum;
    var partial: doubledigit := 0;
    ghost var A, B := a[..], b[..];
    var i := digits - 1;
    SumStarts(A, B, sum[..], 1);
    while i >= 0
      invariant -1 <= i < digits && partial / BASE <= 1
      invariant a[..i + 1] == A[..i + 1] && b[..i + 1] == B[..i + 1]
      invariant IsSum(A, B, sum[..], 1, i + 1, partial / BASE)
    {
      ghost var S, c := sum[..], partial / BASE;
      assert a[i] == A[i] && b[i] == B[i];
      partial := a[i] + b[i] + partial / BASE;
      sum[i] := partial % BASE;
      SumStep(A, B, S, sum[..], 1, i, c, partial / BASE);
      i := i - 1;
    }
    SumDone(A, B, sum[..], 1, partial / BASE);
    return partial / BASE;
  }

  /** Cudd_ApaSubtract: the result is zero, or all ones when there was a borrow. */
  method Subtract(digits: nat, a: array<digit>, b: array<digit>, diff: array<digit>) returns (borrow: digit)
    requires a.Length == b.Length == diff.Length == digits
    modifies diff
    ensures borrow == 0 || borrow == BASE - 1
    ensures Number(diff) == old(Number(a)) - old(Number(b)) + if borrow == 0 then 0 else Power(BASE, digits)
  {
    hide Value, Power, IsSum;
    var partial: doubledigit := BASE;
    ghost var A, B := a[..], b[..];
    var i := digits - 1;
    SumStarts(A, B, diff[..], -1);
    while i >= 0
      invariant -1 <= i < digits && partial / BASE <= 1
      invariant a[..i + 1] == A[..i + 1] && b[..i + 1] == B[..i + 1]
      invariant IsSum(A, B, diff[..], -1, i + 1, partial / BASE - 1)
    {
      ghost var D, c := diff[..], partial / BASE - 1;
      assert a[i] == A[i] && b[i] == B[i];
      partial := partial / BASE + (BASE - 1) + a[i] - b[i];
      diff[i] := partial % BASE;
      SumStep(A, B, D, diff[..], -1, i, c, partial / BASE - 1);
      i := i - 1;
    }
    SumDone(A, B, diff[..], -1, partial / BASE - 1);
    return if partial / BASE == 0 then BASE - 1 else 0;
  }

  // ---- division ---------------------------------------------------------------------

  /** One more digit of a quotient. */
  lemma QuotientDigit(v: int, q: int, r: int, d: int, x: int, e: int, s: int)
    requires v == q * d + r && BASE * r + x == e * d + s
    ensures BASE * v + x == (BASE * q + e) * d + s
  {
    assert BASE * (q * d + r) + x == BASE * (q * d) + (BASE * r + x);
    assert (BASE * q + e) * d == BASE * (q * d) + e * d;
  }

  lemma DigitFits(r: nat, d: nat, x: nat)
    requires r < d && x < BASE
    ensures 0 <= (BASE * r + x) / d < BASE && BASE * r + x == (BASE * r + x) / d * d + (BASE * r + x) % d
  {
    var q := (BASE * r + x) / d;
    Scaled(d, BASE, q);
    Scaled(BASE, r + 1, d);
    assert q * d == d * q;
  }

  /** A 32-bit word read as a signed integer. */
  function AsSigned(x: doubledigit): int { if x < 0x8000_0000 then x else x - 0x1_0000_0000 }

  /** remainder * DD_APA_BASE + digit: the product is formed in signed 32-bit arithmetic, with wrap-around,
      and the sum is converted to unsigned.  Nothing is lost. */
  function Partial(remainder: digit, x: digit): (p: doubledigit)
    ensures p == remainder * BASE + x
  {
    (AsSigned(remainder * BASE % 0x1_0000_0000) + x) % 0x1_0000_0000
  }

  /** Cudd_ApaShortDivision */
  method ShortDivision(digits: nat, dividend: array<digit>, divisor: digit, quotient: array<digit>) returns (remainder: digit)
    requires dividend.Length == quotient.Length == digits && 0 < divisor
    modifies quotient
    ensures old(Number(dividend)) == Number(quotient) * divisor + remainder && remainder < divisor
  {
    var i := 0;
    remainder := 0;
    ghost var D := dividend[..];
    while i < digits
      invariant 0 <= i <= digits && remainder < divisor
      invariant dividend[i..] == D[i..]
      invariant Value(BASE, D[..i]) == Value(BASE, quotient[..i]) * divisor + remainder
    {
      ghost var Q, r := quotient[..i], remainder;
      DigitFits(remainder, divisor, dividend[i]);
      assert dividend[i] == D[i];
      var partial := Partial(remainder, dividend[i]);
      quotient[i] := partial / divisor;
      remainder := partial % divisor;
      QuotientDigit(Value(BASE, D[..i]), Value(BASE, Q), r, divisor, D[i], partial / divisor, remainder);
      assert D[..i + 1][..i] == D[..i] && quotient[..i + 1][..i] == Q;
      i := i + 1;
    }
    assert D[..digits] == D && quotient[..digits] == quotient[..];
  }

  // ---- shifting ---------------------------------------------------------------------

  /** The digits from i on, with the bit above them in front, halved. */
  ghost predicate IsHalf(A: seq<int>, H: seq<int>, i: nat, above: int)
    requires |A| == |H| && i <= |A|
  {
    2 * Value(BASE, H[i..]) + LastBit(A) == Value(BASE, A[i..]) + above * Power(BASE, |A| - i)
  }

  ghost function LastBit(A: seq<int>): int { if A == [] then 0 else A[|A| - 1] % 2 }

  lemma HalfStarts(A: seq<int>, H: seq<int>)
    requires |A| == |H|
    ensures IsHalf(A, H, |A|, LastBit(A))
  {
  }

  lemma HalfStep(A: seq<int>, H: seq<int>, R: seq<int>, i: nat, above: int)
    requires |A| == |H| == |R| && i < |A| && IsHalf(A, H, i + 1, A[i] % 2)
    requires R[i + 1..] == H[i + 1..] && R[i] == A[i] / 2 + above * 0x8000
    ensures IsHalf(A, R, i, above)
  {
    hide Value, Power;
    ShiftDigit(Power(BASE, |A| - 1 - i), A[i], above, R[i], Value(BASE, A[i + 1..]), Value(BASE, H[i + 1..]), LastBit(A));
    Suffix(A, i);
    Suffix(R, i);
    PowerStep(|A| - 1 - i);
  }

  /** One more digit of a number halved: it hands its last bit down and takes one from above. */
  lemma ShiftDigit(p: nat, x: int, above: int, z: int, xs: int, zs: int, last: int)
    requires 2 * zs + last == xs + x % 2 * p && z == x / 2 + above * 0x8000
    ensures 2 * (z * p + zs) + last == x * p + xs + above * (BASE * p)
  {
    assert 2 * z == x - x % 2 + above * BASE;
    assert 2 * z * p == (x - x % 2 + above * BASE) * p == x * p - x % 2 * p + above * BASE * p;
    assert above * BASE * p == above * (BASE * p);
  }

  lemma HalfDone(A: seq<int>, H: seq<int>, above: int)
    requires |A| == |H| && IsHalf(A, H, 0, above)
    ensures Value(BASE, H) == (Value(BASE, A) + above * Power(BASE, |A|)) / 2
  {
    assert A[0..] == A && H[0..] == H;
  }

  /** Cudd_ApaShiftRight: the number, with the given bit in front, halved. */
  method ShiftRight(digits: nat, bit: digit, a: array<digit>, b: array<digit>)
    requires a.Length == b.Length == digits && digits > 0
    modifies b
    ensures Number(b) == (old(Number(a)) + bit % 2 * Power(BASE, digits)) / 2
  {
    hide Value, Power, IsHalf;
    ghost var A := a[..];
    var i := digits - 1;
    HalfStarts(A, b[..]);
    while i > 0
      invariant 0 <= i < digits && a[..i + 1] == A[..i + 1]
      invariant IsHalf(A, b[..], i + 1, A[i] % 2)
    {
      ghost var H := b[..];
      assert a[i] == A[i] && a[i - 1] == A[i - 1];
      b[i] := a[i] / 2 + a[i - 1] % 2 * 0x8000;
      HalfStep(A, H, b[..], i, A[i - 1] % 2);
      i := i - 1;
    }
    ghost var H := b[..];
    assert a[0] == A[0];
    b[0] := a[0] / 2 + bit % 2 * 0x8000;
    HalfStep(A, H, b[..], 0, bit % 2);
    HalfDone(A, b[..], bit % 2);
  }

  // ---- literals, copies and comparison ----------------------------------------------

  lemma {:induction false} Zeros(s: seq<int>)
    requires forall i :: 0 <= i < |s| ==> s[i] == 0
    ensures Value(BASE, s) == 0
  {
    if s != [] { Zeros(s[..|s| - 1]); }
  }

  /** Cudd_ApaCopy */
  method Copy(digits: nat, source: array<digit>, dest: array<digit>)
    requires source.Length == dest.Length == digits
    modifies dest
    ensures dest[..] == old(source[..])
  {
    var i := 0;
    ghost var S := source[..];
    while i < digits
      invariant 0 <= i <= digits && dest[..i] == S[..i] && source[i..] == S[i..]
    {
      assert source[i] == S[i];
      dest[i] := source[i];
      i := i + 1;
    }
  }

  /** Cudd_ApaSetToLiteral */
  method SetToLiteral(digits: nat, number: array<digit>, literal: digit)
    requires number.Length == digits && digits > 0
    modifies number
    ensures Number(number) == literal
  {
    var i := 0;
    while i < digits - 1
      invariant 0 <= i <= digits - 1 && forall j :: 0 <= j < i ==> number[j] == 0
    {
      number[i] := 0;
      i := i + 1;
    }
    number[digits - 1] := literal;
    Zeros(number[..][..digits - 1]);
  }

  lemma {:induction false} Powers(k: nat)
    ensures Power(BASE, k) == Power(2, 16 * k)
  {
    if k > 0 {
      Powers(k - 1);
      SixteenBits(16 * k - 16);
    }
  }

  lemma SixteenBits(k: nat)
    ensures Power(2, k + 16) == 0x1_0000 * Power(2, k)
  {
    FourBits(k);
    FourBits(k + 4);
    FourBits(k + 8);
    FourBits(k + 12);
  }

  lemma FourBits(k: nat)
    ensures Power(2, k + 4) == 16 * Power(2, k)
  {
    assert Power(2, k + 4) == 2 * Power(2, k + 3);
    assert Power(2, k + 3) == 2 * Power(2, k + 2);
    assert Power(2, k + 2) == 2 * Power(2, k + 1);
  }

  lemma {:induction false} SmallPower(k: nat)
    requires k < 16
    ensures Power(2, k) <= 0x8000
    decreases 16 - k
  {
    if k < 15 {
      SmallPower(k + 1);
      assert Power(2, k + 1) == 2 * Power(2, k);
    } else {
      assert Power(2, 15) == 0x8000;
    }
  }

  /** One digit among zeros. */
  lemma OneDigit(s: seq<int>, i: nat)
    requires i < |s| && forall j :: 0 <= j < |s| && j != i ==> s[j] == 0
    ensures Value(BASE, s) == s[i] * Power(BASE, |s| - 1 - i)
  {
    hide Value, Power;
    LeadingZeros(s, i);
    Suffix(s, i);
    Zeros(s[i + 1..]);
  }

  lemma {:induction false} PowersMultiply(j: nat, k: nat)
    ensures Power(2, j + k) == Power(2, j) * Power(2, k)
  {
    if j > 0 {
      PowersMultiply(j - 1, k);
      Associate(Power(2, j - 1), Power(2, k));
    }
  }

  lemma Associate(x: int, y: int)
    ensures 2 * (x * y) == 2 * x * y
  {
  }

  /** Cudd_ApaPowerOfTwo: zero when the power is too large. */
  method PowerOfTwo(digits: nat, number: array<digit>, power: nat)
    requires number.Length == digits
    modifies number
    ensures Number(number) == if power < 16 * digits then Power(2, power) else 0
  {
    hide Value, Power;
    var k := 0;
    while k < digits
      invariant 0 <= k <= digits && forall j :: 0 <= j < k ==> number[j] == 0
    {
      number[k] := 0;
      k := k + 1;
    }
    var i := digits - 1 - power / BITS;
    if i < 0 {
      Zeros(number[..]);
      return;
    }
    var index := power % BITS;
    SmallPower(index);
    number[i] := Power(2, index);
    OneDigit(number[..], i);
    Powers(power / BITS);
    PowersMultiply(index, 16 * (power / BITS));
  }

  lemma {:induction false} LeadingZeros(s: seq<int>, k: nat)
    requires k <= |s| && forall i :: 0 <= i < k ==> s[i] == 0
    ensures Value(BASE, s) == Value(BASE, s[k..])
  {
    if k == 0 {
      assert s[0..] == s;
    } else {
      LeadingZeros(s, k - 1);
      Suffix(s, k - 1);
    }
  }

  lemma {:induction false} PowersGrow(j: nat, k: nat)
    requires j <= k
    ensures Power(BASE, j) <= Power(BASE, k)
    decreases k
  {
    if j < k { PowersGrow(j, k - 1); }
  }

  /** More significant digits outweigh all others. */
  lemma Longer(s: seq<digit>, t: seq<digit>)
    requires |s| > |t| && s[0] != 0
    ensures Value(BASE, s) > Value(BASE, t)
  {
    ValueBound(BASE, t);
    ValueBound(BASE, s[1..]);
    ValueCons(BASE, s);
    PowersGrow(|t|, |s| - 1);
    Scaled(Power(BASE, |s| - 1), 1, s[0]);
  }

  lemma FirstDifference(s: seq<digit>, t: seq<digit>, i: nat)
    requires |s| == |t| && i < |s| && s[..i] == t[..i] && s[i] > t[i]
    ensures Value(BASE, s) > Value(BASE, t)
    decreases |s|
  {
    if i > 0 {
      FirstDifference(s[1..], t[1..], i - 1);
      assert s[0] == s[..i][0] && t[0] == t[..i][0];
      assert s[1..][..i - 1] == s[..i][1..] && t[1..][..i - 1] == t[..i][1..];
    } else {
      Scaled(Power(BASE, |s| - 1), t[0] + 1, s[0]);
    }
    ValueCons(BASE, s);
    ValueCons(BASE, t);
    ValueBound(BASE, s[1..]);
    ValueBound(BASE, t[1..]);
  }

  function Sign(x: int): int { if x > 0 then 1 else if x < 0 then -1 else 0 }

  /** Cudd_ApaCompare */
  method Compare(digitsFirst: nat, first: array<digit>, digitsSecond: nat, second: array<digit>) returns (r: int)
    requires first.Length == digitsFirst && second.Length == digitsSecond
    ensures r == Sign(Number(first) - Number(second))
  {
    hide Value;
    var firstNZ := 0;
    while firstNZ < digitsFirst && first[firstNZ] == 0
      invariant 0 <= firstNZ <= digitsFirst && forall j :: 0 <= j < firstNZ ==> first[j] == 0
    {
      firstNZ := firstNZ + 1;
    }
    var secondNZ := 0;
    while secondNZ < digitsSecond && second[secondNZ] == 0
      invariant 0 <= secondNZ <= digitsSecond && forall j :: 0 <= j < secondNZ ==> second[j] == 0
    {
      secondNZ := secondNZ + 1;
    }
    ghost var s, t := first[firstNZ..], second[secondNZ..];
    LeadingZeros(first[..], firstNZ);
    LeadingZeros(second[..], secondNZ);
    assert first[..][firstNZ..] == s && second[..][secondNZ..] == t;
    if digitsFirst - firstNZ > digitsSecond - secondNZ {
      Longer(s, t);
      return 1;
    } else if digitsFirst - firstNZ < digitsSecond - secondNZ {
      Longer(t, s);
      return -1;
    }
    var i := 0;
    while i < digitsFirst - firstNZ
      invariant 0 <= i <= |s| && s[..i] == t[..i]
    {
      assert first[firstNZ + i] == s[i] && second[secondNZ + i] == t[i];
      if first[firstNZ + i] > second[secondNZ + i] {
        FirstDifference(s, t, i);
        return 1;
      } else if first[firstNZ + i] < second[secondNZ + i] {
        FirstDifference(t, s, i);
        return -1;
      }
      i := i + 1;
    }
    assert s == s[..i] == t[..i] == t;
    return 0;
  }

  // ---- printing ---------------------------------------------------------------------

  /** A text of decimal digits without leading zeros; zero is printed as one digit. */
  predicate Plain(text: seq<int>) {
    && |text| >= 1 && (forall i :: 0 <= i < |text| ==> 0 <= text[i] <= 9)
    && (|text| > 1 ==> text[0] != 0)
  }

  /** The last digits of a number by repeated division: v is left, the digits from i on are done. */
  ghost predicate Divided(n: int, v: int, decimal: seq<int>, i: nat)
    requires i <= |decimal|
  {
    && (forall j :: i <= j < |decimal| ==> 0 <= decimal[j] <= 9)
    && n == v * Power(10, |decimal| - i) + Value(10, decimal[i..])
  }

  lemma DivideStep(n: int, v: int, w: int, d: seq<int>, e: seq<int>, i: nat)
    requires i < |d| == |e| && Divided(n, v, d, i + 1) && e[i + 1..] == d[i + 1..]
    requires 0 <= e[i] <= 9 && v == w * 10 + e[i]
    ensures Divided(n, w, e, i)
  {
    hide Value, Power;
    ValueCons(10, e[i..]);
    assert e[i..][1..] == e[i + 1..];
    forall j | i <= j < |e| ensures 0 <= e[j] <= 9 {
      if j > i { assert e[j] == e[i + 1..][j - i - 1] == d[i + 1..][j - i - 1] == d[j]; }
    }
    TenTimes(|d| - i - 1);
    Regroup(w, e[i], Power(10, |d| - i - 1));
  }

  lemma TenTimes(k: nat)
    ensures Power(10, k + 1) == 10 * Power(10, k)
  {
  }

  lemma Regroup(w: int, x: int, p: int)
    ensures (w * 10 + x) * p == w * (10 * p) + x * p
  {
  }

  lemma {:induction false} DecimalZeros(s: seq<int>, k: nat)
    requires k <= |s| && forall i :: 0 <= i < k ==> s[i] == 0
    ensures Value(10, s) == Value(10, s[k..])
  {
    if k == 0 {
      assert s[0..] == s;
    } else {
      DecimalZeros(s, k - 1);
      ValueCons(10, s[k - 1..]);
      assert s[k - 1..][1..] == s[k..];
    }
  }

  lemma RemainderIs(n: int, v: int, p: nat, r: int)
    requires n == v * p + r && 0 <= r < p
    ensures n % p == r
  {
    var k := n / p;
    assert n == p * k + n % p && v * p == p * v;
    Scaled(p, k + 1, v);
    Scaled(p, v + 1, k);
    Scaled(p, k, v - 1);
    Scaled(p, v, k - 1);
  }

  /** The number of decimal places of v, which is the integral part of its decimal logarithm and one. */
  function Places(v: nat): (d: nat)
    ensures d >= 1
  {
    if v < 10 then 1 else Places(v / 10) + 1
  }

  lemma {:induction false} PlacesFit(v: nat)
    requires v > 0
    ensures Power(10, Places(v) - 1) <= v < Power(10, Places(v))
  {
    if v >= 10 {
      PlacesFit(v / 10);
      TenTimes(Places(v / 10));
      TenTimes(Places(v / 10) - 1);
    } else {
      TenTimes(0);
    }
  }

  /** Cudd_ApaPrintDecimal: the text parses back to the number.  The logarithm that gives the number
      of decimal places is taken without rounding. */
  method PrintDecimal(digits: nat, number: array<digit>) returns (text: seq<int>)
    requires number.Length == digits
    ensures Plain(text) && Value(10, text) == Number(number)
  {
    hide Value, Power, Divided, Places;
    var decimalDigits := Places(Power(BASE, digits));
    PlacesFit(Power(BASE, digits));
    var work := new digit[digits];
    Copy(digits, number, work);
    var decimal := new int[decimalDigits];
    var i := decimalDigits - 1;
    ghost var n := Number(number);
    DivideStarts(n, decimal[..]);
    while i >= 0
      invariant -1 <= i < decimalDigits
      invariant number[..] == old(number[..])
      invariant Divided(n, Number(work), decimal[..], i + 1)
    {
      ghost var v, d := Number(work), decimal[..];
      var remainder := ShortDivision(digits, work, 10, work);
      decimal[i] := remainder;
      DivideStep(n, v, Number(work), d, decimal[..], i);
      i := i - 1;
    }
    DivideDone(n, Number(work), decimal[..]);
    text := LeaveZeros(decimal);
    ValueBound(BASE, number[..]);
    Small(n, Power(10, decimalDigits));
  }

  lemma Small(n: int, p: int)
    requires 0 <= n < p
    ensures n % p == n
  {
  }

  lemma DivideStarts(n: int, d: seq<int>)
    ensures Divided(n, n, d, |d|)
  {
  }

  lemma DivideDone(n: int, v: int, d: seq<int>)
    requires Divided(n, v, d, 0)
    ensures Value(10, d) == n % Power(10, |d|)
    ensures forall i :: 0 <= i < |d| ==> 0 <= d[i] <= 9
  {
    assert d[0..] == d;
    ValueBound(10, d);
    RemainderIs(n, v, Power(10, |d|), Value(10, d));
  }

  /** The printing loop. */
  method LeaveZeros(decimal: array<int>) returns (text: seq<int>)
    requires decimal.Length >= 1 && forall i :: 0 <= i < decimal.Length ==> 0 <= decimal[i] <= 9
    ensures Plain(text) && Value(10, text) == Value(10, decimal[..])
  {
    hide Value;
    var leadingzero := true;
    text := [];
    ghost var k := 0;
    var i := 0;
    while i < decimal.Length
      invariant 0 <= k <= i <= decimal.Length
      invariant forall j :: 0 <= j < k ==> decimal[j] == 0
      invariant leadingzero ==> forall j :: 0 <= j < i ==> decimal[j] == 0
      invariant !leadingzero ==> k < decimal.Length && decimal[k] != 0
      invariant i == decimal.Length ==> k < i
      invariant text == decimal[k..i] && (leadingzero && i < decimal.Length ==> k == i)
      invariant leadingzero && i == decimal.Length ==> k == i - 1
    {
      leadingzero := leadingzero && decimal[i] == 0;
      if !leadingzero || i == decimal.Length - 1 {
        text := text + [decimal[i]];
      } else {
        k := i + 1;
      }
      i := i + 1;
    }
    DecimalZeros(decimal[..], k);
    assert decimal[..][k..] == decimal[k..i];
  }
}
