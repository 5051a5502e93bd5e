/** The integer-only VFP compare handler against the numbers its operands encode. */
module VfpCompare {
  import opened Words
  import opened Encodings
  import opened VfpHost
  import opened Shifter
  import opened Fields
  import opened VfpFormat
  import ArchVfp

  // ------------------------------------------------------------ Bits of logical results

  predicate Combine(op: BitOp, a: bool, b: bool) {
    match op case AND => a && b case OR => a || b case XOR => a != b
  }

  lemma LogicHalf(op: BitOp, x: nat, y: nat, n: nat)
    requires n > 0
    ensures Logic(op, x, y, n) / 2 == Logic(op, x / 2, y / 2, n - 1)
    ensures Logic(op, x, y, n) % 2 == 1 <==> Combine(op, x % 2 == 1, y % 2 == 1)
  {
  }

  lemma OnHalf(x: nat, i: nat)
    ensures On(x, 0) <==> x % 2 == 1
    ensures On(x, i + 1) <==> On(x / 2, i)
  {
    assert Pow2(0) == 1 && Pow2(1) == 2;
    NestedQuotient(x, 1, i);
  }

  lemma {:induction false} LogicBit(op: BitOp, x: nat, y: nat, n: nat, i: nat)
    requires i < n
    ensures On(Logic(op, x, y, n), i) <==> Combine(op, On(x, i), On(y, i))
  {
    hide Logic, On;
    var r := Logic(op, x, y, n);
    LogicHalf(op, x, y, n);
    if i == 0 {
      OnHalf(r, 0);
      OnHalf(x, 0);
      OnHalf(y, 0);
    } else {
      OnHalf(r, i - 1);
      OnHalf(x, i - 1);
      OnHalf(y, i - 1);
      LogicBit(op, x / 2, y / 2, n - 1, i - 1);
    }
  }

  /** Setting one bit of a word. */
  lemma OrOneBit(w: Word, i: nat, j: nat)
    requires i < 32 && j < 32 && Pow2(i) < 0x1_0000_0000
    ensures On(Or(w, Pow2(i)), j) <==> On(w, j) || i == j
  {
    LogicBit(OR, w, Pow2(i), 32, j);
    PowerBit(i, j);
  }

  lemma PowerBit(i: nat, j: nat)
    ensures On(Pow2(i), j) <==> i == j
  {
    if j < i {
      Pow2Sum(j, i - j);
      Unique(Pow2(i), Pow2(j), Pow2(i - j), 0);
    } else if i < j {
      Pow2Grows(i + 1, j);
      Unique(Pow2(i), Pow2(j), 0, Pow2(i));
    } else {
      Unique(Pow2(i), Pow2(j), 1, 0);
    }
  }

  // ------------------------------------------------------------ Operands

  lemma FracTest(f: Format, x: nat)
    ensures FracBitsSet(f, x) <==> Frac(f, x) != 0
  {
    ShiftedOutIsLow(x, Bits(f) - FracBits(f), Bits(f));
  }

  lemma FlushAgrees(f: Format, x: nat, fpscr: Word)
    requires Encoding(f, x)
    ensures HostFlush(f, x, fpscr) == (Flushed(f, x, true), if Subnormal(f, x) then Or(fpscr, 0x80) else fpscr)
    ensures forall fz :: Encoding(f, Flushed(f, x, fz))
  {
    hide Or, FracBitsSet, Expo, Frac, Minus;
    FracTest(f, x);
    Parts(f, x);
    Units(f);
    AndTop(x, Bits(f) - 1);
  }

  lemma QuietAgrees(f: Format, x: nat)
    requires Encoding(f, x)
    ensures HostNan(f, x) <==> NumberOf(f, x) == NaN
    ensures HostNan(f, x) && !QuietBit(f, x) <==> Signalling(f, x)
  {
    hide FracBitsSet, Expo;
    FracTest(f, x);
    var h := Pow2(FracBits(f) - 1);
    assert ExpUnit(f) == 2 * h;
    HalfField(x, h);
  }

  lemma HalfField(x: nat, h: nat)
    requires h > 0
    ensures x / h % 2 == 1 <==> x % (2 * h) >= h
  {
    var q, r := x / (2 * h), x % (2 * h);
    DivModFacts(x, 2 * h);
    assert 2 * h * q == h * (2 * q);
    if r >= h {
      assert h * (2 * q + 1) == h * (2 * q) + h;
      Unique(x, h, 2 * q + 1, r - h);
    } else {
      Unique(x, h, 2 * q, r);
    }
  }

  // ------------------------------------------------------------ Order

  /** Sign and magnitude code of an encoding as one signed number. */
  function Code(f: Format, x: nat): int { Negated(Minus(f, x), x % SignUnit(f)) }

  function CodeOrder(a: int, b: int): Ordering {
    if a < b then Less else if a == b then Same else Greater
  }

  /** Signed order from an order of magnitudes that agrees with the codes. */
  lemma SignedOrder(s: bool, t: bool, m: nat, n: nat, i: nat, j: nat)
    requires (m < n <==> i < j) && (n < m <==> j < i) && (m == 0 <==> i == 0) && (n == 0 <==> j == 0)
    ensures CodeOrder(Negated(s, m), Negated(t, n)) == CodeOrder(Negated(s, i), Negated(t, j))
  {
  }

  lemma FiniteOrder(f: Format, x: nat, y: nat)
    requires Encoding(f, x) && Encoding(f, y) && Expo(f, x) != ExpCodes(f) - 1 && Expo(f, y) != ExpCodes(f) - 1
    ensures Order(NumberOf(f, x), NumberOf(f, y)) == CodeOrder(Code(f, x), Code(f, y))
  {
    hide Pow2, Scaled, Expo, Frac, Minus, SignUnit, ExpCodes, One;
    Parts(f, x);
    Parts(f, y);
    var ex, fx, ey, fy := Expo(f, x), Frac(f, x), Expo(f, y), Frac(f, y);
    MagnitudeOrder(f, ex, fx, ey, fy);
    MagnitudeZero(f, ex, fx);
    MagnitudeZero(f, ey, fy);
    SignedOrder(Minus(f, x), Minus(f, y), Scaled(f, ex, fx), Scaled(f, ey, fy), x % SignUnit(f), y % SignUnit(f));
    OnePositive(f);
    RatioOrder(Negated(Minus(f, x), Scaled(f, ex, fx)), Negated(Minus(f, y), Scaled(f, ey, fy)), One(f));
  }

  lemma OnePositive(f: Format)
    ensures One(f) > 0
  {
  }

  lemma MagnitudeOrder(f: Format, e1: nat, f1: nat, e2: nat, f2: nat)
    requires f1 < ExpUnit(f) && f2 < ExpUnit(f)
    ensures Scaled(f, e1, f1) < Scaled(f, e2, f2) <==> e1 * ExpUnit(f) + f1 < e2 * ExpUnit(f) + f2
    ensures Scaled(f, e2, f2) < Scaled(f, e1, f1) <==> e2 * ExpUnit(f) + f2 < e1 * ExpUnit(f) + f1
  {
    hide ExpUnit, Scaled;
    FieldOrder(ExpUnit(f), e1, f1, e2, f2);
    FieldOrder(ExpUnit(f), e2, f2, e1, f1);
    if e1 < e2 || (e1 == e2 && f1 < f2) {
      ScaledGrows(f, e1, f1, e2, f2);
    } else if e1 != e2 || f1 != f2 {
      ScaledGrows(f, e2, f2, e1, f1);
    }
  }

  lemma MagnitudeZero(f: Format, e: nat, g: nat)
    requires g < ExpUnit(f)
    ensures Scaled(f, e, g) == 0 <==> e * ExpUnit(f) + g == 0
  {
    hide ExpUnit;
    if e > 0 {
      AtLeastOnce(e, ExpUnit(f));
      AtLeastOnce(Pow2(e - 1), ExpUnit(f) + g);
      assert Pow2(e - 1) * (ExpUnit(f) + g) == (ExpUnit(f) + g) * Pow2(e - 1);
    }
  }

  /** An infinity's code is beyond every finite code. */
  lemma InfiniteCode(f: Format, x: nat, y: nat)
    requires Encoding(f, x) && Encoding(f, y) && Expo(f, x) == ExpCodes(f) - 1 && Frac(f, x) == 0 && NumberOf(f, y) != NaN
    ensures NumberOf(f, y).Infinite? ==> y % SignUnit(f) == x % SignUnit(f) > 0
    ensures NumberOf(f, y).Finite? ==> 0 <= y % SignUnit(f) < x % SignUnit(f)
  {
    hide Pow2, Scaled, Expo, Frac, Minus, SignUnit, One, ExpUnit, ExpCodes;
    Parts(f, x);
    Parts(f, y);
    FieldOrder(ExpUnit(f), Expo(f, y), Frac(f, y), Expo(f, x), 0);
    CodesPositive(f);
    AtLeastOnce(ExpCodes(f) - 1, ExpUnit(f));
  }

  lemma CodesPositive(f: Format)
    ensures ExpCodes(f) >= 2 && ExpUnit(f) > 0
  {
  }

  /** The order of two numbers is the order of their codes. */
  lemma NumberOrder(f: Format, x: nat, y: nat)
    requires Encoding(f, x) && Encoding(f, y) && NumberOf(f, x) != NaN && NumberOf(f, y) != NaN
    ensures Order(NumberOf(f, x), NumberOf(f, y)) == CodeOrder(Code(f, x), Code(f, y))
  {
    hide Pow2, Scaled, Expo, Frac, SignUnit, One, ExpUnit, ExpCodes, Minus;
    if NumberOf(f, x).Infinite? {
      InfiniteCode(f, x, y);
    } else if NumberOf(f, y).Infinite? {
      assert NumberOf(f, x).Finite?;
      InfiniteCode(f, y, x);
    } else {
      FiniteOrder(f, x, y);
    }
  }

  lemma {:induction false} OrOnes(y: nat, n: nat)
    ensures Logic(OR, Pow2(n) - 1, y, n) == Pow2(n) - 1
  {
    if n > 0 {
      var p := Pow2(n - 1);
      assert (2 * p - 1) / 2 == p - 1 && (2 * p - 1) % 2 == 1;
      OrOnes(y / 2, n - 1);
    }
  }

  lemma {:induction false} OrLeft(y: nat, n: nat)
    requires y < Pow2(n)
    ensures Logic(OR, 0, y, n) == y
  {
    if n > 0 {
      OrLeft(y / 2, n - 1);
    }
  }

  lemma KeyValue(f: Format, x: nat)
    requires Encoding(f, x)
    ensures HostKey(f, x) == if Minus(f, x) then Pow2(Bits(f)) - 1 - x else x + SignUnit(f)
  {
    hide Minus, Logic, Pow2, Expo, Frac, ExpUnit, ExpCodes;
    Units(f);
    Parts(f, x);
    var n := Bits(f);
    if Minus(f, x) {
      OrOnes(SignUnit(f), n);
      XorOnes(x, n);
    } else {
      OrLeft(SignUnit(f), n);
      XorTop(x, n - 1);
    }
  }

  /** The flags the handler computes are those of the order of the numbers. */
  lemma OrderAgrees(f: Format, a: nat, b: nat)
    requires Encoding(f, a) && Encoding(f, b) && NumberOf(f, a) != NaN && NumberOf(f, b) != NaN
    ensures HostOrder(f, a, b) == (match Order(NumberOf(f, a), NumberOf(f, b)) case Less => 8 case Same => 6 case Greater => 2 case Unordered => 3)
  {
    hide HostKey, NumberOf, Order, Expo, Frac, ExpUnit, ExpCodes, Pow2;
    NumberOrder(f, a, b);
    KeyValue(f, a);
    KeyValue(f, b);
    Units(f);
    SignSplit(f, a);
    SignSplit(f, b);
  }

  lemma SignSplit(f: Format, x: nat)
    requires Encoding(f, x)
    ensures x == x % SignUnit(f) + (if Minus(f, x) then SignUnit(f) else 0) && x % SignUnit(f) < SignUnit(f)
    ensures 2 * x % Pow2(Bits(f)) == 2 * (x % SignUnit(f))
  {
    hide Expo, Frac, ExpUnit, ExpCodes, Pow2, SignUnit, Minus;
    Parts(f, x);
    Units(f);
    var s := SignUnit(f);
    DivModFacts(x, s);
    Unique(2 * x, 2 * s, if Minus(f, x) then 1 else 0, 2 * (x % s));
  }

  // ------------------------------------------------------------ The compare theorem

  /** N, Z, C and V of a comparison, as the VFP part of ARM DDI 0100I tabulates them. */
  predicate FlagBit(o: Ordering, j: nat) {
    match o
    case Less => j == 31
    case Same => j == 30 || j == 29
    case Greater => j == 29
    case Unordered => j == 29 || j == 28
  }

  /** Bit `j` of FPSCR after a comparison: fresh condition flags, IOC and IDC accumulated, everything else as it was. */
  ghost predicate FpscrBit(f: Format, a0: nat, b0: nat, always: bool, fpscr: Word, j: nat) {
    var fz := On(fpscr, 24);
    var a, b := Flushed(f, a0, fz), Flushed(f, b0, fz);
    var o := Order(NumberOf(f, a), NumberOf(f, b));
    if j >= 28 then FlagBit(o, j)
    else if j == 0 then On(fpscr, 0) || (o == Unordered && (always || Signalling(f, a) || Signalling(f, b)))
    else if j == 7 then On(fpscr, 7) || (fz && (Subnormal(f, a0) || Subnormal(f, b0)))
    else On(fpscr, j)
  }

  lemma MaskBit(k: nat, j: nat)
    ensures On(Pow2(k) - 1, j) <==> j < k
  {
    if j < k {
      Pow2Sum(j, k - j);
      MaskQuotient(Pow2(j), Pow2(k - j - 1));
    } else {
      Pow2Grows(k, j);
      Unique(Pow2(k) - 1, Pow2(j), 0, Pow2(k) - 1);
    }
  }

  lemma MaskQuotient(p: nat, h: nat)
    requires p > 0 && h > 0
    ensures p * (2 * h) >= 1 && (p * (2 * h) - 1) / p % 2 == 1
  {
    AtLeastOnce(p, 2 * h);
    var q := 2 * h;
    assert p * (q - 1) == p * q - p;
    Unique(p * q - 1, p, q - 1, p - 1);
  }

  lemma ShiftedBit(x: nat, k: nat, j: nat)
    ensures On(x * Pow2(k), j) <==> j >= k && On(x, j - k)
  {
    hide Pow2;
    if j < k {
      ShiftedLow(x, k, j);
    } else {
      ShiftedHigh(x, k, j);
    }
  }

  lemma ShiftedLow(x: nat, k: nat, j: nat)
    requires j < k
    ensures !On(x * Pow2(k), j)
  {
    Pow2Sum(j, k - j);
    var p, h := Pow2(j), Pow2(k - j - 1);
    assert Pow2(k - j) == 2 * h;
    hide Pow2;
    Regrouped(x, p, h);
    Unique(x * Pow2(k), p, 2 * (x * h), 0);
  }

  lemma ShiftedHigh(x: nat, k: nat, j: nat)
    requires j >= k
    ensures On(x * Pow2(k), j) <==> On(x, j - k)
  {
    hide Pow2;
    NestedQuotient(x * Pow2(k), k, j - k);
    Unique(x * Pow2(k), Pow2(k), x, 0);
  }

  lemma Regrouped(x: int, p: int, h: int)
    ensures x * (p * (2 * h)) == p * (2 * (x * h))
  {
  }

  /** BIC of the condition flags and ORR of the new ones. */
  lemma FlagsWritten(w: Word, flags: nat, j: nat)
    requires j < 32 && flags < 16
    ensures On(Or(And(w, 0x0fff_ffff), flags * 0x1000_0000), j) <==> if j >= 28 then On(flags, j - 28) else On(w, j)
  {
    hide On;
    Pow2Small();
    assert Pow2(28) == 16 * Pow2(24);
    LogicBit(OR, And(w, 0x0fff_ffff), flags * 0x1000_0000, 32, j);
    LogicBit(AND, w, 0x0fff_ffff, 32, j);
    MaskBit(28, j);
    ShiftedBit(flags, 28, j);
  }

  lemma FlagNibble(o: Ordering, j: nat)
    requires 28 <= j < 32
    ensures On(match o case Less => 8 case Same => 6 case Greater => 2 case Unordered => 3, j - 28) <==> FlagBit(o, j)
  {
    Pow2Small();
    assert j == 28 || j == 29 || j == 30 || j == 31;
  }

  /** The status word before the condition flags are written: IOC and IDC accumulated. */
  lemma StatusBits(w: Word, ioc: bool, idc1: bool, idc2: bool, j: nat)
    requires j < 32
    ensures var s1 := if idc1 then Or(w, 0x80) else w;
            var s2 := if idc2 then Or(s1, 0x80) else s1;
            var s3 := if ioc then Or(s2, 1) else s2;
            On(s3, j) <==> On(w, j) || (j == 0 && ioc) || (j == 7 && (idc1 || idc2))
  {
    hide Or, On;
    Pow2Small();
    var s1 := if idc1 then Or(w, 0x80) else w;
    var s2 := if idc2 then Or(s1, 0x80) else s1;
    OrOneBit(w, 7, j);
    OrOneBit(s1, 7, j);
    OrOneBit(s2, 0, j);
  }

  /** FPCompare without a floating-point unit: every bit of FPSCR after the handler is the one the numbers call for. */
  lemma CompareIsOrder(f: Format, a0: nat, b0: nat, always: bool, fpscr: Word, j: nat)
    requires Encoding(f, a0) && Encoding(f, b0) && j < 32
    ensures On(HostCompare(f, a0, b0, always, fpscr), j) <==> FpscrBit(f, a0, b0, always, fpscr, j)
  {
    hide Or, And, On, HostFlush, HostNan, QuietBit, HostOrder, NumberOf, Order, Signalling, Subnormal, Flushed, Encoding;
    var fz := On(fpscr, 24);
    var a, b := Flushed(f, a0, fz), Flushed(f, b0, fz);
    FlushAgrees(f, a0, fpscr);
    FlushAgrees(f, b0, fpscr);
    var s1 := if fz && Subnormal(f, a0) then Or(fpscr, 0x80) else fpscr;
    FlushAgrees(f, b0, s1);
    NoFlush(f, a0);
    NoFlush(f, b0);
    QuietAgrees(f, a);
    QuietAgrees(f, b);
    var o := Order(NumberOf(f, a), NumberOf(f, b));
    UnorderedIsNan(f, a, b);
    var ioc := o == Unordered && (always || Signalling(f, a) || Signalling(f, b));
    StatusBits(fpscr, ioc, fz && Subnormal(f, a0), fz && Subnormal(f, b0), j);
    if o != Unordered {
      OrderAgrees(f, a, b);
    }
    var s2 := if fz && Subnormal(f, b0) then Or(s1, 0x80) else s1;
    var s3 := if ioc then Or(s2, 1) else s2;
    var nibble := match o case Less => 8 case Same => 6 case Greater => 2 case Unordered => 3;
    FlagsWritten(s3, nibble, j);
    if j >= 28 {
      FlagNibble(o, j);
    }
    assert HostCompare(f, a0, b0, always, fpscr) == Or(And(s3, 0x0fff_ffff), nibble * 0x1000_0000);
  }

  lemma NoFlush(f: Format, x: nat)
    ensures Flushed(f, x, false) == x
  {
  }

  lemma UnorderedIsNan(f: Format, a: nat, b: nat)
    ensures Order(NumberOf(f, a), NumberOf(f, b)) == Unordered <==> NumberOf(f, a) == NaN || NumberOf(f, b) == NaN
  {
    hide NumberOf;
  }

  // ------------------------------------------------------------ The interpreter's compare

  /** Numbers of the same bits are equal. */
  lemma {:induction false} SameBits(x: nat, y: nat, n: nat)
    requires x < Pow2(n) && y < Pow2(n) && forall i :: 0 <= i < n ==> (On(x, i) <==> On(y, i))
    ensures x == y
  {
    hide On;
    if n > 0 {
      OnHalf(x, 0);
      OnHalf(y, 0);
      forall i | 0 <= i < n - 1
        ensures On(x / 2, i) <==> On(y / 2, i)
      {
        OnHalf(x, i);
        OnHalf(y, i);
        assert On(x, i + 1) <==> On(y, i + 1);
      }
      SameBits(x / 2, y / 2, n - 1);
    }
  }

  lemma SameWords(x: Word, y: Word)
    requires forall i :: 0 <= i < 32 ==> (On(x, i) <==> On(y, i))
    ensures x == y
  {
    hide On;
    Pow2Of32();
    SameBits(x, y, 32);
  }

  lemma NoBit(j: nat)
    ensures !On(0, j)
  {
    Unique(0, Pow2(j), 0, 0);
  }

  /** One of two flags, if any, at the two ends of the cumulative byte. */
  lemma ReportBits(idc1: bool, idc2: bool, ioc: bool, j: nat)
    requires j < 32
    ensures var w := Or(Or(if idc1 then 0x80 else 0, if idc2 then 0x80 else 0), if ioc then 1 else 0);
            On(w, j) <==> (j == 7 && (idc1 || idc2)) || (j == 0 && ioc)
  {
    hide On;
    Pow2Small();
    var a: Word, b: Word, c: Word := if idc1 then 0x80 else 0, if idc2 then 0x80 else 0, if ioc then 1 else 0;
    LogicBit(OR, Or(a, b), c, 32, j);
    LogicBit(OR, a, b, 32, j);
    PowerBit(7, j);
    PowerBit(0, j);
    NoBit(j);
  }

  lemma OrderNibble(o: Ordering)
    ensures ArchVfp.OrderFlags(o) == 0x1000_0000 * (match o case Less => 8 case Same => 6 case Greater => 2 case Unordered => 3)
  {
  }

  /** FZ changes no NaN. */
  lemma FlushedSignals(f: Format, x: nat, fz: bool)
    requires Encoding(f, x)
    ensures Signalling(f, Flushed(f, x, fz)) <==> Signalling(f, x)
  {
    hide Expo, Frac, Minus, Signalling, SignUnit;
    if fz && Subnormal(f, x) {
      FlushedZero(f, x);
    }
  }

  lemma FlushedZero(f: Format, x: nat)
    requires Subnormal(f, x)
    ensures !Signalling(f, x) && !Signalling(f, Flushed(f, x, true))
  {
    Units(f);
    CodesMany(f);
    ZeroFields(f);
    hide SignUnit, ExpUnit, ExpCodes, Minus, Pow2;
  }

  lemma CodesMany(f: Format)
    ensures ExpCodes(f) >= 2
  {
    Pow2Small();
  }

  lemma ZeroFields(f: Format)
    ensures Expo(f, 0) == 0 && Expo(f, SignUnit(f)) == 0
  {
    Units(f);
    hide SignUnit, Pow2, ExpUnit, ExpCodes;
    Unique(SignUnit(f), ExpUnit(f), ExpCodes(f), 0);
    assert SignUnit(f) == ExpUnit(f) * ExpCodes(f);
    Unique(0, ExpUnit(f), 0, 0);
    Unique(0, ExpCodes(f), 0, 0);
    Unique(ExpCodes(f), ExpCodes(f), 1, 0);
  }

  lemma ComparedBits(f: Format, a0: nat, b0: nat, always: bool, fpscr: Word, j: nat)
    requires Encoding(f, a0) && Encoding(f, b0) && j < 32
    ensures On(ArchVfp.Compared(f, a0, b0, always, fpscr), j) <==> FpscrBit(f, a0, b0, always, fpscr, j)
  {
    hide Or, And, On, NumberOf, Order, Signalling, Subnormal, Flushed, Encoding, ArchVfp.OrderFlags;
    var fz := On(fpscr, 24);
    var o := Order(NumberOf(f, Flushed(f, a0, fz)), NumberOf(f, Flushed(f, b0, fz)));
    var idc1, idc2 := fz && Subnormal(f, a0), fz && Subnormal(f, b0);
    var ioc := Signalling(f, a0) || Signalling(f, b0) || (always && o == Unordered);
    FlushedSignals(f, a0, fz);
    FlushedSignals(f, b0, fz);
    SignalsAreNans(f, Flushed(f, a0, fz), Flushed(f, b0, fz));
    ReportBits(idc1, idc2, ioc, j);
    OrderNibble(o);
    var nibble := match o case Less => 8 case Same => 6 case Greater => 2 case Unordered => 3;
    FlagsWritten(fpscr, nibble, j);
    if j >= 28 {
      FlagNibble(o, j);
    }
    var w, report := Or(And(fpscr, 0x0fff_ffff), nibble * 0x1000_0000),
                     Or(Or(if idc1 then 0x80 else 0, if idc2 then 0x80 else 0), if ioc then 1 else 0);
    OrBit(w, report, j);
    assert ArchVfp.Compared(f, a0, b0, always, fpscr) == Or(w, report);
  }

  lemma OrBit(x: Word, y: Word, j: nat)
    requires j < 32
    ensures On(Or(x, y), j) <==> On(x, j) || On(y, j)
  {
    hide On;
    LogicBit(OR, x, y, 32, j);
  }

  lemma SignalsAreNans(f: Format, a: nat, b: nat)
    ensures Signalling(f, a) || Signalling(f, b) ==> Order(NumberOf(f, a), NumberOf(f, b)) == Unordered
  {
    hide NumberOf;
  }

  /** The handler's status word is the interpreter's. */
  lemma CompareAgrees(f: Format, a0: nat, b0: nat, always: bool, fpscr: Word)
    requires Encoding(f, a0) && Encoding(f, b0)
    ensures HostCompare(f, a0, b0, always, fpscr) == ArchVfp.Compared(f, a0, b0, always, fpscr)
  {
    hide *;
    forall j | 0 <= j < 32
      ensures On(HostCompare(f, a0, b0, always, fpscr), j) <==> On(ArchVfp.Compared(f, a0, b0, always, fpscr), j)
    {
      CompareIsOrder(f, a0, b0, always, fpscr, j);
      ComparedBits(f, a0, b0, always, fpscr, j);
    }
    SameWords(HostCompare(f, a0, b0, always, fpscr), ArchVfp.Compared(f, a0, b0, always, fpscr));
  }
}
