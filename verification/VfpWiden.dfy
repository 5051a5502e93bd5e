/** The binary32 to binary64 handler, without a floating-point unit. */
module VfpWiden {
  import opened Words
  import opened Encodings
  import opened VfpHost
  import opened Shifter
  import opened VfpFormat
  import opened VfpCompare
  import ArchVfp

  lemma {:induction false} ClzBounds(x: nat, n: nat)
    requires 0 < x < Pow2(n)
    ensures Clz(x, n) < n && Pow2(n - 1 - Clz(x, n)) <= x < Pow2(n - Clz(x, n))
  {
    if x < Pow2(n - 1) {
      ClzBounds(x, n - 1);
    }
  }

  // ------------------------------------------------------------ Assembling a result

  lemma Powers()
    ensures Pow2(29) == 0x2000_0000 && Pow2(48) == 0x1_0000_0000_0000 && Pow2(51) == 0x8_0000_0000_0000 && Pow2(52) == 0x10_0000_0000_0000 && Pow2(63) == 0x8000_0000_0000_0000 && Pow2(64) == 2 * 0x8000_0000_0000_0000
    ensures Pow2(23) == 0x80_0000 && Pow2(22) == 0x40_0000 && Pow2(53) == 2 * 0x10_0000_0000_0000
  {
    Pow2Small();
    assert Pow2(22) == 64 * Pow2(16);
    assert Pow2(29) == 32 * Pow2(24);
    Pow2Sum(24, 24);
    assert Pow2(51) == 8 * Pow2(48);
    Pow2Of32();
    Pow2Sum(31, 32);
  }

  lemma Weights()
    ensures ExpUnit(Double) == 0x10_0000_0000_0000 && ExpCodes(Double) == 2048 && SignUnit(Double) == 0x8000_0000_0000_0000
    ensures Pow2(Bits(Double)) == 2 * 0x8000_0000_0000_0000
    ensures ExpUnit(Single) == 0x80_0000 && ExpCodes(Single) == 256 && SignUnit(Single) == 0x8000_0000
    ensures Pow2(Bits(Single)) == 0x1_0000_0000
  {
    Powers();
    Pow2Small();
    Pow2Of32();
  }

  /** The joined fields are the sum of their weights. */
  lemma JoinedSum(s: nat, e: nat, g: nat)
    requires s < 2 && e < 2048 && g < 0x10_0000_0000_0000
    ensures Joined(s, e, g) == (s * 2048 + e) * 0x10_0000_0000_0000 + g
  {
    hide Pow2, Logic;
    SignAndExponent(s, e);
    Powers();
    Pow2Small();
    OrDisjoint(s * 2048 + e, g, 52, 64);
  }

  lemma SignAndExponent(s: nat, e: nat)
    requires s < 2 && e < 2048
    ensures Or64(Lsl64(s, 63), Lsl64(e, 52)) == (s * 2048 + e) * 0x10_0000_0000_0000
  {
    Powers();
    assert Pow2(1) == 2;
    hide Pow2, Logic;
    OrDisjoint(s, e * 0x10_0000_0000_0000, 63, 64);
  }

  lemma DoubleFields(r: nat)
    requires r < 0x1_0000_0000_0000_0000
    ensures Encoding(Double, r)
    ensures Expo(Double, r) == r / 0x10_0000_0000_0000 % 2048 && Frac(Double, r) == r % 0x10_0000_0000_0000
    ensures Minus(Double, r) <==> r >= 0x8000_0000_0000_0000
  {
    Weights();
    hide Pow2, ExpUnit, ExpCodes, SignUnit, Bits;
  }

  /** The fields of an assembled encoding read back as themselves. */
  lemma Assembled(s: nat, e: nat, g: nat)
    requires s < 2 && e < 2048 && g < 0x10_0000_0000_0000
    ensures var r := Joined(s, e, g);
            && r == (s * 2048 + e) * 0x10_0000_0000_0000 + g
            && Encoding(Double, r) && Expo(Double, r) == e && Frac(Double, r) == g && (Minus(Double, r) <==> s == 1)
  {
    hide Joined, Expo, Frac, Minus, Encoding;
    JoinedSum(s, e, g);
    ReadBack(s, e, g);
    DoubleFields(Joined(s, e, g));
  }

  lemma ReadBack(s: nat, e: nat, g: nat)
    requires s < 2 && e < 2048 && g < 0x10_0000_0000_0000
    ensures var r := (s * 2048 + e) * 0x10_0000_0000_0000 + g;
            && r < 0x1_0000_0000_0000_0000 && (r >= 0x8000_0000_0000_0000 <==> s == 1)
            && r / 0x10_0000_0000_0000 % 2048 == e && r % 0x10_0000_0000_0000 == g
  {
    var x := s * 2048 + e;
    var r := x * 0x10_0000_0000_0000 + g;
    assert r / 0x10_0000_0000_0000 == x;
    assert x % 2048 == e;
  }

  // ------------------------------------------------------------ The input's fields

  lemma Inputs(x: Word)
    ensures Encoding(Single, x)
    ensures x / 0x8000_0000 == (if Minus(Single, x) then 1 else 0)
    ensures x / 0x80_0000 % 0x100 == Expo(Single, x) && And(x, 0x7f_ffff) == Frac(Single, x) < 0x80_0000
  {
    Weights();
    Pow2Of32();
    AndLow(x, 23, 32);
    Parts(Single, x);
  }

  // ------------------------------------------------------------ Exact values

  /** Moving a normal number's fraction and rebiasing its exponent scales it by a power of two. */
  lemma NormalScaled(e: nat, g: nat)
    requires 0 < e && g < 0x80_0000
    ensures Scaled(Double, e + 896, g * 0x2000_0000) == Scaled(Single, e, g) * Pow2(925)
  {
    Weights();
    Pow2Sum(e - 1, 896);
    Pow2Sum(29, 896);
    Powers();
    WidenedFraction(g);
    hide Pow2, ExpUnit;
    Times(ExpUnit(Double) + g * 0x2000_0000, Pow2(e + 895), ExpUnit(Single) + g, Pow2(29), Pow2(e - 1), Pow2(896), Pow2(925));
  }

  lemma Times(x: int, y: int, a: int, b: int, c: int, d: int, z: int)
    requires x == a * b && y == c * d && z == b * d
    ensures x * y == a * c * z
  {
    Reorder(a, b, c, d);
  }

  lemma WidenedFraction(g: nat)
    ensures 0x10_0000_0000_0000 + g * 0x2000_0000 == (0x80_0000 + g) * 0x2000_0000
  {
  }

  lemma Reorder(a: int, b: int, c: int, d: int)
    ensures a * b * (c * d) == a * c * (b * d)
  {
    assert a * b * (c * d) == a * c * b * d by {
      assert a * b * c == a * c * b;
      assert a * b * (c * d) == a * b * c * d;
    }
  }

  lemma Below(e: nat, n: nat, u: nat)
    requires e < n && u > 0
    ensures e * u < n * u
  {
    MulMono(u, e + 1, n);
    assert u * (e + 1) == e * u + u && u * n == n * u;
  }

  /** The shift that brings a subnormal's leading bit to the hidden one's place. */
  lemma NormalizingShift(g: nat)
    requires 0 < g < 0x80_0000
    ensures var k := Clz(g, 32);
            9 <= k <= 31 && 0x10_0000_0000_0000 <= Lsl64(g, k + 21) < 2 * 0x10_0000_0000_0000
  {
    Powers();
    Pow2Of32();
    ClzBounds(g, 32);
    var k := Clz(g, 32);
    if k < 9 {
      Pow2Grows(23, 31 - k);
    }
    Pow2Sum(31 - k, k + 21);
    Pow2Sum(32 - k, k + 21);
    hide Pow2, Clz;
    AtLeast(g, Pow2(31 - k), Pow2(k + 21));
    Below(g, Pow2(32 - k), Pow2(k + 21));
  }

  /** A subnormal, shifted until its leading bit is the hidden one. */
  lemma SubnormalScaled(g: nat)
    requires 0 < g < 0x80_0000
    ensures var k := Clz(g, 32);
            && 9 <= k <= 31
            && Scaled(Double, 905 - k, Lsl64(g, k + 21) % 0x10_0000_0000_0000) == g * Pow2(925)
  {
    NormalizingShift(g);
    Weights();
    var k := Clz(g, 32);
    Pow2Sum(k + 21, 904 - k);
    hide Pow2, Clz, ExpUnit;
    var v := Lsl64(g, k + 21);
    assert v % 0x10_0000_0000_0000 == v - 0x10_0000_0000_0000;
    Associate(g, Pow2(k + 21), Pow2(904 - k));
  }

  lemma Associate(a: int, b: int, c: int)
    ensures a * b * c == a * (b * c)
  {
  }

  lemma UnitsRelated()
    ensures One(Double) == One(Single) * Pow2(925)
  {
    Pow2Sum(149, 925);
  }

  /** Equal magnitudes in the two units are equal real numbers. */
  lemma SameReal(m: bool, a: nat)
    ensures Negated(m, a * Pow2(925)) as real / One(Double) as real == Negated(m, a) as real / One(Single) as real
  {
    UnitsRelated();
    var n := Negated(m, a);
    assert Negated(m, a * Pow2(925)) == n * Pow2(925);
    RatioScale(n, One(Single), Pow2(925));
  }

  lemma Lsl29(g: nat)
    ensures Lsl64(g, 29) == g * 0x2000_0000
  {
    Powers();
  }

  /** Finite encodings of one sign whose magnitudes agree in the two units are the same number. */
  lemma SameNumber(r: nat, x: nat)
    requires Expo(Double, r) != 2047 && Expo(Single, x) != 255 && (Minus(Double, r) <==> Minus(Single, x))
    requires Scaled(Double, Expo(Double, r), Frac(Double, r)) == Scaled(Single, Expo(Single, x), Frac(Single, x)) * Pow2(925)
    ensures NumberOf(Double, r) == NumberOf(Single, x)
  {
    CodesOf();
    hide Expo, Frac, Minus, Scaled, ExpCodes, One, Negated, Pow2;
    SameReal(Minus(Single, x), Scaled(Single, Expo(Single, x), Frac(Single, x)));
  }

  lemma NormalExact(x: Word, fpscr: Word)
    requires 0 < Expo(Single, x) < 0xff
    ensures var (r, w) := HostWiden(x, fpscr);
            Encoding(Double, r) && NumberOf(Double, r) == NumberOf(Single, x) && (Minus(Double, r) <==> Minus(Single, x)) && w == fpscr
  {
    Inputs(x);
    hide Joined, Expo, Frac, Minus, Scaled, Encoding, NumberOf, On, Or, And, Lsl64, WidenSubnormal, WidenNan, Or64;
    var s, e, g := x / 0x8000_0000, Expo(Single, x), Frac(Single, x);
    Lsl29(g);
    Assembled(s, e + 896, g * 0x2000_0000);
    NormalScaled(e, g);
    SameNumber(HostWiden(x, fpscr).0, x);
  }

  lemma CodesOf()
    ensures ExpCodes(Double) == 2048 && ExpCodes(Single) == 256
  {
    Weights();
  }

  lemma SubnormalJoined(s: nat, g: nat)
    requires s < 2 && 0 < g < 0x80_0000
    ensures var k := Clz(g, 32);
            && 9 <= k <= 31
            && WidenSubnormal(s, g) == Joined(s, 905 - k, Lsl64(g, k + 21) % 0x10_0000_0000_0000)
  {
    NormalizingShift(g);
    Powers();
    hide Pow2, Clz, Joined, Lsl64, Logic;
    AndLow(Lsl64(g, Clz(g, 32) + 21), 52, 64);
  }

  /** Which path of the handler an encoding takes. */
  lemma WidenPaths(x: Word, fpscr: Word)
    ensures var s, g := x / 0x8000_0000, Frac(Single, x);
            && s == (if Minus(Single, x) then 1 else 0) && g < 0x80_0000
            && (Subnormal(Single, x) && !On(fpscr, 24) ==> HostWiden(x, fpscr) == (WidenSubnormal(s, g), fpscr))
            && (NumberOf(Single, x) == NaN ==> HostWiden(x, fpscr) == WidenNan(s, g, fpscr))
  {
    Inputs(x);
    CodesOf();
    hide Joined, Expo, Frac, Minus, ExpUnit, ExpCodes, On, Or, And, Lsl64, WidenSubnormal, WidenNan, Or64;
  }

  lemma SubnormalExact(x: Word, fpscr: Word)
    requires Subnormal(Single, x) && !On(fpscr, 24)
    ensures var (r, w) := HostWiden(x, fpscr);
            Encoding(Double, r) && NumberOf(Double, r) == NumberOf(Single, x) && (Minus(Double, r) <==> Minus(Single, x)) && w == fpscr
  {
    hide HostWiden, Joined, Expo, Frac, Minus, Encoding, NumberOf, Lsl64, WidenSubnormal, Clz, Pow2, On;
    WidenPaths(x, fpscr);
    var s, g := x / 0x8000_0000, Frac(Single, x);
    SubnormalScaled(g);
    SubnormalJoined(s, g);
    var k := Clz(g, 32);
    Assembled(s, 905 - k, Lsl64(g, k + 21) % 0x10_0000_0000_0000);
    ZeroExponent(g);
    hide Scaled;
    SameNumber(HostWiden(x, fpscr).0, x);
  }

  lemma ZeroExponent(g: nat)
    ensures Scaled(Single, 0, g) == g
  {
  }

  lemma SignOnly(s: nat)
    requires s < 2
    ensures Joined(s, 0, 0) == Lsl64(s, 63)
  {
    Powers();
    hide Pow2, Joined;
    JoinedSum(s, 0, 0);
  }

  /** Zero, and a denormal under FZ, become a zero of the same sign. */
  lemma ZeroExact(x: Word, fpscr: Word)
    requires Expo(Single, x) == 0 && (Frac(Single, x) == 0 || On(fpscr, 24))
    ensures var (r, w) := HostWiden(x, fpscr);
            && Encoding(Double, r) && NumberOf(Double, r) == Finite(0.0) && (Minus(Double, r) <==> Minus(Single, x))
            && w == if Frac(Single, x) == 0 then fpscr else Or(fpscr, 0x80)
  {
    Inputs(x);
    CodesOf();
    var s := x / 0x8000_0000;
    hide Joined, Expo, Frac, Minus, Scaled, Encoding, One, ExpUnit, ExpCodes, SignUnit, Bits, On, Or, And, Lsl64,
         WidenSubnormal, WidenNan, Or64, NumberOf;
    SignOnly(s);
    Assembled(s, 0, 0);
    ZeroValue(Double, Lsl64(s, 63));
  }

  lemma InfinityExact(x: Word, fpscr: Word)
    requires Expo(Single, x) == 0xff && Frac(Single, x) == 0
    ensures var (r, w) := HostWiden(x, fpscr);
            Encoding(Double, r) && NumberOf(Double, r) == Infinite(Minus(Single, x)) && w == fpscr
  {
    Inputs(x);
    CodesOf();
    var s := x / 0x8000_0000;
    hide Expo, Frac, Minus, Encoding, Joined, ExpUnit, ExpCodes, SignUnit, Bits, On, Or, And, Lsl64, WidenSubnormal, WidenNan, Or64;
    Assembled(s, 0x7ff, 0);
    JoinedZero(s);
  }

  lemma JoinedZero(s: nat)
    requires s < 2
    ensures Joined(s, 0x7ff, 0) == Or64(Lsl64(s, 63), 0x7ff0_0000_0000_0000)
  {
    Powers();
    assert Lsl64(0x7ff, 52) == 0x7ff0_0000_0000_0000;
    hide Pow2, Logic, Lsl64;
    OrNothing(Or64(Lsl64(s, 63), 0x7ff0_0000_0000_0000), 64);
  }

  /** What becomes of a NaN: quiet, IOC if it was signalling, and the default NaN or its payload as DN says. */
  ghost predicate NanWidened(x: Word, fpscr: Word, r: nat, w: Word) {
    && Encoding(Double, r) && NumberOf(Double, r) == NaN && !Signalling(Double, r)
    && w == (if Signalling(Single, x) then Or(fpscr, 1) else fpscr)
    && (On(fpscr, 25) ==> !Minus(Double, r) && Frac(Double, r) == 0x8_0000_0000_0000)
    && (!On(fpscr, 25) ==> && (Minus(Double, r) <==> Minus(Single, x))
                           && Frac(Double, r) == (Frac(Single, x) + if Signalling(Single, x) then 0x40_0000 else 0) * 0x2000_0000)
  }

  lemma NanExact(x: Word, fpscr: Word)
    requires NumberOf(Single, x) == NaN
    ensures var (r, w) := HostWiden(x, fpscr); NanWidened(x, fpscr, r, w)
  {
    hide HostWiden, Joined, Expo, Frac, Minus, Encoding, Or, On, ExpUnit, ExpCodes, Lsl64, Scaled, One, Negated, Pow2, Signalling, NumberOf;
    WidenPaths(x, fpscr);
    Quieted(x);
    StickyKeepsDn(fpscr);
    var s, g := x / 0x8000_0000, Frac(Single, x);
    var q := if On(g, 22) then g else Or(g, 0x40_0000);
    Lsl29(q);
    Assembled(s, 0x7ff, q * 0x2000_0000);
    Assembled(0, 0x7ff, 0x8_0000_0000_0000);
    QuietNan(HostWiden(x, fpscr).0);
  }

  lemma QuietNan(r: nat)
    requires Expo(Double, r) == 0x7ff && Frac(Double, r) >= 0x8_0000_0000_0000
    ensures NumberOf(Double, r) == NaN && !Signalling(Double, r)
  {
    CodesOf();
    HalfFrac();
    hide Expo, Frac, ExpUnit, ExpCodes;
  }

  lemma HalfFrac()
    ensures ExpUnit(Double) / 2 == 0x8_0000_0000_0000
  {
    Weights();
  }

  /** A signalling NaN has its quiet bit clear; setting it adds its weight. */
  lemma Quieted(x: Word)
    requires NumberOf(Single, x) == NaN
    ensures var g := Frac(Single, x);
            && (On(g, 22) <==> !Signalling(Single, x)) && g < 0x80_0000
            && (if On(g, 22) then g else Or(g, 0x40_0000)) == g + (if Signalling(Single, x) then 0x40_0000 else 0)
            && 0x40_0000 <= g + (if Signalling(Single, x) then 0x40_0000 else 0) < 0x80_0000
  {
    Weights();
    Powers();
    hide Pow2, ExpUnit, ExpCodes, SignUnit, Bits, Logic;
    var g := Frac(Single, x);
    assert On(g, 22) <==> g >= 0x40_0000;
    if g < 0x40_0000 {
      OrOverlay(g, 22, 32);
    }
  }

  /** Setting a bit above a smaller number adds its weight. */
  lemma OrOverlay(g: nat, k: nat, n: nat)
    requires k < n && g < Pow2(k)
    ensures Logic(OR, g, Pow2(k), n) == g + Pow2(k)
  {
    OrSwap(g, Pow2(k), n);
    assert Pow2(n - k) == 2 * Pow2(n - k - 1);
    OrDisjoint(1, g, k, n);
  }

  lemma StickyKeepsDn(fpscr: Word)
    ensures On(Or(fpscr, 1), 25) <==> On(fpscr, 25)
  {
    Pow2Small();
    OrOneBit(fpscr, 0, 25);
  }

  /** The widening theorem: every finite binary32 becomes the binary64 of the same real value, subnormals included unless
      FZ makes them zero; infinities keep their sign; NaNs are quieted. */
  lemma WidenIsExact(x: Word, fpscr: Word)
    ensures var (r, w) := HostWiden(x, fpscr);
            var fz := On(fpscr, 24);
            match NumberOf(Single, x)
            case Finite(v) =>
              && Encoding(Double, r) && (Minus(Double, r) <==> Minus(Single, x))
              && NumberOf(Double, r) == Finite(if fz && Subnormal(Single, x) then 0.0 else v)
              && w == (if fz && Subnormal(Single, x) then Or(fpscr, 0x80) else fpscr)
            case Infinite(m) => Encoding(Double, r) && NumberOf(Double, r) == Infinite(m) && w == fpscr
            case NaN => NanWidened(x, fpscr, r, w)
  {
    Inputs(x);
    Weights();
    hide HostWiden, Expo, Frac, Minus, Encoding, Or, On, And, Pow2, NanWidened, ExpUnit, ExpCodes, SignUnit, Bits;
    var e, g := Expo(Single, x), Frac(Single, x);
    if NumberOf(Single, x) == NaN {
      NanExact(x, fpscr);
    } else if e == 0xff {
      InfinityExact(x, fpscr);
    } else if e != 0 {
      NormalExact(x, fpscr);
    } else if g == 0 || On(fpscr, 24) {
      ZeroExact(x, fpscr);
      if g == 0 {
        ZeroValue(Single, x);
      }
    } else {
      SubnormalExact(x, fpscr);
    }
  }

  lemma ZeroValue(f: Format, x: nat)
    requires Expo(f, x) == 0 && Frac(f, x) == 0
    ensures NumberOf(f, x) == Finite(0.0)
  {
    CodesOf();
    hide Expo, Frac, ExpCodes, One;
    OnePositive(f);
    assert Scaled(f, 0, 0) == 0;
    ZeroRatio(One(f));
  }

  lemma ZeroRatio(p: nat)
    requires p > 0
    ensures 0 as real / p as real == 0.0
  {
  }

  // ------------------------------------------------------------ The normalisation loop

  lemma ClzDoubled(g: nat)
    requires 0 < g < 0x80_0000
    ensures Clz(2 * g, 32) + 1 == Clz(g, 32) && 9 <= Clz(g, 32) <= 31
  {
    hide Pow2;
    NormalizingShift(g);
    Pow2Of32();
    ClzTwice(g, 32);
  }

  lemma {:induction false} ClzTwice(g: nat, n: nat)
    requires 0 < g && n > 0 && 2 * g < Pow2(n)
    ensures Clz(2 * g, n) + 1 == Clz(g, n)
  {
    Pow2Small();
    if n > 1 {
      assert Pow2(n - 1) == 2 * Pow2(n - 2);
      if 2 * g < Pow2(n - 1) {
        ClzTwice(g, n - 1);
      }
    }
  }

  lemma TopClz(g: nat)
    requires 0x80_0000 <= g < 0x100_0000
    ensures Clz(g, 32) == 8
  {
    Powers();
    Pow2Of32();
    Pow2Small();
    ClzBounds(g, 32);
    var k := Clz(g, 32);
    hide Pow2, Clz;
    if k > 8 {
      Pow2Grows(32 - k, 23);
    } else if k < 8 {
      Pow2Grows(24, 31 - k);
    }
  }

  /** Moving a significand up a bit at a time ends where CLZ and one shift do. */
  lemma {:induction false} NormalizedAtOnce(minus: bool, e: nat, g: nat)
    requires 0 < g < 0x100_0000 && e + 8 >= Clz(g, 32) >= 8
    ensures ArchVfp.Normalized(minus, e, g)
            == ArchVfp.Packed(minus, e + 8 - Clz(g, 32), Lsl64(g, Clz(g, 32) + 21) % 0x10_0000_0000_0000)
    decreases 0x100_0000 - g
  {
    hide Clz, Pow2, ArchVfp.Packed;
    if g >= 0x80_0000 {
      TopClz(g);
      Lsl29(g);
      WholeAndRest(g);
    } else {
      ClzDoubled(g);
      NormalizedAtOnce(minus, e - 1, 2 * g);
      DoubledShift(g, Clz(g, 32) + 21);
    }
  }

  lemma WholeAndRest(g: nat)
    ensures g * 0x2000_0000 % 0x10_0000_0000_0000 == g % 0x80_0000 * 0x2000_0000
  {
    var q: int, r: int := g / 0x80_0000, g % 0x80_0000;
    assert g * 0x2000_0000 == 0x10_0000_0000_0000 * q + r * 0x2000_0000;
  }

  lemma DoubledShift(g: nat, n: nat)
    requires n > 0
    ensures Lsl64(2 * g, n - 1) == Lsl64(g, n)
  {
    Associate(g, 2, Pow2(n - 1));
  }

  /** The joined fields are the packed ones. */
  lemma JoinedPacked(minus: bool, e: nat, g: nat)
    requires e < 2048 && g < 0x10_0000_0000_0000
    ensures Joined(Num(minus), e, g) == ArchVfp.Packed(minus, e, g)
  {
    hide Joined;
    JoinedSum(Num(minus), e, g);
  }

  lemma LowFraction(x: Word)
    ensures x % 0x80_0000 == Frac(Single, x)
  {
    Weights();
    hide Pow2;
  }

  /** Is the interpreter's widening the handler's? */
  ghost predicate Same(x: Word, fpscr: Word, host: (nat, Word)) {
    var (r, exc) := ArchVfp.Widened(x, fpscr);
    host == (r, Or(fpscr, exc))
  }

  lemma NanAgrees(x: Word, fpscr: Word, g: Word)
    requires NumberOf(Single, x) == NaN && g == Frac(Single, x)
    ensures Same(x, fpscr, WidenNan(Num(Minus(Single, x)), g, fpscr))
  {
    LowFraction(x);
    Weights();
    hide Joined, Expo, Frac, Minus, Or, On, ExpUnit, ExpCodes, SignUnit, Bits, Lsl64, Scaled, One, Negated, Pow2, ArchVfp.Packed;
    Quieted(x);
    StickyKeepsDn(fpscr);
    OrZeroWord(fpscr);
    var q := if On(g, 22) then g else Or(g, 0x40_0000);
    Lsl29(q);
    JoinedPacked(Minus(Single, x), 0x7ff, q * 0x2000_0000);
  }

  lemma OrZeroWord(w: Word)
    ensures Or(w, 0) == w
  {
    Pow2Of32();
    OrNothing(w, 32);
  }

  lemma SubnormalAgrees(x: Word, fpscr: Word)
    requires Subnormal(Single, x) && !On(fpscr, 24)
    ensures Same(x, fpscr, HostWiden(x, fpscr))
  {
    LowFraction(x);
    Weights();
    hide HostWiden, Joined, Expo, Frac, Minus, ExpUnit, ExpCodes, SignUnit, Bits, Lsl64, WidenSubnormal, Clz, Pow2, On, Or,
         ArchVfp.Packed, ArchVfp.Normalized;
    WidenPaths(x, fpscr);
    var m, g := Minus(Single, x), Frac(Single, x);
    NormalizingShift(g);
    SubnormalJoined(Num(m), g);
    var k := Clz(g, 32);
    JoinedPacked(m, 905 - k, Lsl64(g, k + 21) % 0x10_0000_0000_0000);
    NormalizedAtOnce(m, 897, g);
    OrZeroWord(fpscr);
  }

  lemma InfinityAgrees(x: Word, fpscr: Word)
    requires Expo(Single, x) == 0xff && Frac(Single, x) == 0
    ensures Same(x, fpscr, HostWiden(x, fpscr))
  {
    LowFraction(x);
    Inputs(x);
    hide Expo, Frac, Minus, Encoding, Joined, ExpUnit, ExpCodes, SignUnit, Bits, On, Or, And, Lsl64, WidenSubnormal, WidenNan, Or64, Pow2,
         ArchVfp.Packed, ArchVfp.Normalized;
    OrZeroWord(fpscr);
    JoinedZero(Num(Minus(Single, x)));
    JoinedPacked(Minus(Single, x), 0x7ff, 0);
  }

  lemma NormalAgrees(x: Word, fpscr: Word)
    requires 0 < Expo(Single, x) < 0xff
    ensures Same(x, fpscr, HostWiden(x, fpscr))
  {
    LowFraction(x);
    Inputs(x);
    hide Expo, Frac, Minus, Encoding, Joined, ExpUnit, ExpCodes, SignUnit, Bits, On, Or, And, Lsl64, WidenSubnormal, WidenNan, Or64, Pow2,
         ArchVfp.Packed, ArchVfp.Normalized;
    OrZeroWord(fpscr);
    Lsl29(Frac(Single, x));
    JoinedPacked(Minus(Single, x), Expo(Single, x) + 896, Frac(Single, x) * 0x2000_0000);
  }

  lemma ZeroAgrees(x: Word, fpscr: Word)
    requires Expo(Single, x) == 0 && (Frac(Single, x) == 0 || On(fpscr, 24))
    ensures Same(x, fpscr, HostWiden(x, fpscr))
  {
    LowFraction(x);
    Inputs(x);
    hide Expo, Frac, Minus, Encoding, Joined, ExpUnit, ExpCodes, SignUnit, Bits, On, Or, And, Lsl64, WidenSubnormal, WidenNan, Or64, Pow2,
         ArchVfp.Packed, ArchVfp.Normalized;
    OrZeroWord(fpscr);
    SignOnly(Num(Minus(Single, x)));
    JoinedPacked(Minus(Single, x), 0, 0);
  }

  /** The handler's result and status are the interpreter's. */
  lemma WidenAgrees(x: Word, fpscr: Word)
    ensures Same(x, fpscr, HostWiden(x, fpscr))
  {
    Inputs(x);
    CodesOf();
    var e, g := Expo(Single, x), Frac(Single, x);
    hide *;
    if e == 0xff && g != 0 {
      NanNumber(x);
      WidenPaths(x, fpscr);
      NanAgrees(x, fpscr, g);
    } else if e == 0xff {
      InfinityAgrees(x, fpscr);
    } else if e != 0 {
      NormalAgrees(x, fpscr);
    } else if g == 0 || On(fpscr, 24) {
      ZeroAgrees(x, fpscr);
    } else {
      SubnormalCodes(x);
      SubnormalAgrees(x, fpscr);
    }
  }

  lemma NanNumber(x: Word)
    requires Expo(Single, x) == 0xff && Frac(Single, x) != 0
    ensures NumberOf(Single, x) == NaN
  {
    CodesOf();
    hide Expo, Frac, ExpCodes;
  }

  lemma SubnormalCodes(x: Word)
    requires Expo(Single, x) == 0 && Frac(Single, x) != 0
    ensures Subnormal(Single, x)
  {
    hide Expo, Frac;
  }
}
