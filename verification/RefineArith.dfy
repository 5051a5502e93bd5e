/** VFP arithmetic: whenever the handler commits, its result and status are those of the literal interpreter. */
module RefineArith {
  import opened Words
  import opened Encodings
  import opened Machine
  import opened ExecVfp
  import opened Shifter
  import opened VfpFormat
  import opened VfpCompare
  import ArchVfp

  // ------------------------------------------------------------ Signs and magnitudes

  /** An encoding is its magnitude and its sign. */
  lemma SignSplits(f: Format, x: nat)
    requires Encoding(f, x)
    ensures var g := ArchVfp.Magnitude(f, x);
            && g < SignUnit(f) && x == g + (if Minus(f, x) then SignUnit(f) else 0) && Pow2(Bits(f)) == 2 * SignUnit(f)
            && Expo(f, x) == g / ExpUnit(f) && Expo(f, x) < ExpCodes(f)
  {
    hide Expo, Frac, ExpUnit, ExpCodes, Pow2, SignUnit, Minus, Bits;
    Parts(f, x);
    Units(f);
    FractionBelow(f, x);
    Unique(ArchVfp.Magnitude(f, x), ExpUnit(f), Expo(f, x), Frac(f, x));
    assert ExpUnit(f) * Expo(f, x) == Expo(f, x) * ExpUnit(f);
  }

  lemma FractionBelow(f: Format, x: nat)
    ensures Frac(f, x) < ExpUnit(f)
  {
  }

  /** FNEG changes the sign only. */
  lemma FlipNegates(f: Format, x: nat)
    requires Encoding(f, x)
    ensures Flip(f, x) == ArchVfp.Negate(f, x) && Encoding(f, Flip(f, x))
    ensures ArchVfp.Magnitude(f, Flip(f, x)) == ArchVfp.Magnitude(f, x) && Expo(f, Flip(f, x)) == Expo(f, x)
  {
    hide Expo, ExpUnit, ExpCodes, Logic, Minus, Pow2, Encoding;
    SignSplits(f, x);
    EncodingBelow(f, x);
    EncodingBelow(f, Flip(f, x));
    var n := ExpBits(f) + FracBits(f);
    var g := ArchVfp.Magnitude(f, x);
    FlipBits(g, Minus(f, x), n);
    SignSplits(f, Flip(f, x));
  }

  lemma EncodingBelow(f: Format, x: nat)
    ensures Encoding(f, x) <==> x < 2 * SignUnit(f)
  {
    Units(f);
  }

  lemma FlipBits(g: nat, minus: bool, n: nat)
    requires g < Pow2(n)
    ensures Logic(XOR, g + (if minus then Pow2(n) else 0), Pow2(n), n + 1) == g + (if minus then 0 else Pow2(n))
    ensures (g + Pow2(n)) % Pow2(n) == g && g % Pow2(n) == g && g + Pow2(n) < Pow2(n + 1)
  {
    Unique(g + Pow2(n), Pow2(n), 1, g);
    Unique(g, Pow2(n), 0, g);
    if minus {
      XorTopSet(g, n);
    } else {
      XorTop(g, n);
    }
  }

  /** Clearing a set top bit by exclusive or. */
  lemma {:induction false} XorTopSet(g: nat, n: nat)
    requires g < Pow2(n)
    ensures Logic(XOR, g + Pow2(n), Pow2(n), n + 1) == g
  {
    if n == 0 {
      assert Logic(XOR, 1, 1, 1) == 0;
    } else {
      XorTopSet(g / 2, n - 1);
      var p := Pow2(n - 1);
      assert (g + 2 * p) / 2 == g / 2 + p && (g + 2 * p) % 2 == g % 2 && 2 * p / 2 == p && 2 * p % 2 == 0;
    }
  }

  // ------------------------------------------------------------ Operands that are zero or finite normal

  /** What the classification leaves: zero magnitude, or a normal exponent. */
  lemma SimpleShape(f: Format, x: nat)
    requires Encoding(f, x)
    ensures Simple(f, x) ==> Expo(f, x) != ExpCodes(f) - 1 && !Subnormal(f, x)
    ensures Simple(f, x) ==> ArchVfp.Magnitude(f, x) == 0 || ArchVfp.Magnitude(f, x) >= ExpUnit(f)
    ensures Simple(f, x) <==> ArchVfp.Magnitude(f, x) == 0 || (ArchVfp.Magnitude(f, x) >= ExpUnit(f) && Expo(f, x) != ExpCodes(f) - 1)
  {
    SignSplits(f, x);
    Parts(f, x);
    CodesMany(f);
    hide *;
    SimpleCases(f, x);
    var g, u := ArchVfp.Magnitude(f, x), ExpUnit(f);
    MagnitudeIs(f, x);
    FractionBelow(f, x);
    NoQuotient(g, u);
    SubnormalCase(f, x);
    ZeroProduct(u);
  }

  lemma ZeroProduct(u: nat)
    ensures 0 * u == 0
  {
  }

  lemma MagnitudeIs(f: Format, x: nat)
    ensures ArchVfp.Magnitude(f, x) == x % SignUnit(f)
  {
  }

  lemma NoQuotient(g: nat, u: nat)
    requires u > 0
    ensures g / u == 0 <==> g < u
  {
    DivModFacts(g, u);
    if g < u {
      Unique(g, u, 0, g);
    }
  }

  lemma SubnormalCase(f: Format, x: nat)
    ensures Subnormal(f, x) <==> Expo(f, x) == 0 && Frac(f, x) != 0
  {
    hide Expo, Frac;
  }

  lemma SimpleCases(f: Format, x: nat)
    requires Encoding(f, x)
    ensures Simple(f, x) <==> if Expo(f, x) == 0 then ArchVfp.Magnitude(f, x) == 0 else Expo(f, x) != ExpCodes(f) - 1
  {
    SignSplits(f, x);
    hide Expo, ExpUnit, ExpCodes, SignUnit, Minus, Pow2, Bits, ArchVfp.Magnitude;
    var g, s := ArchVfp.Magnitude(f, x), SignUnit(f);
    TwiceOver(g, Minus(f, x), s);
    assert 2 * x % Pow2(Bits(f)) == 2 * g;
  }

  lemma TwiceOver(g: nat, minus: bool, s: nat)
    requires g < s
    ensures 2 * (g + if minus then s else 0) % (2 * s) == 2 * g
  {
    Unique(2 * (g + if minus then s else 0), 2 * s, Num(minus), 2 * g);
  }

  lemma SimpleFlip(f: Format, x: nat)
    requires Encoding(f, x)
    ensures Simple(f, Flip(f, x)) <==> Simple(f, x)
  {
    hide Simple, ArchVfp.Magnitude, Expo, Flip, ExpUnit, ExpCodes;
    FlipNegates(f, x);
    SimpleShape(f, x);
    SimpleShape(f, Flip(f, x));
  }

  /** FZ leaves such an operand alone and reports nothing. */
  lemma SimpleInput(f: Format, x: nat, fpscr: Word)
    requires Encoding(f, x) && Simple(f, x)
    ensures forall fz :: Flushed(f, x, fz) == x
    ensures ArchVfp.InputDenormal(f, x, fpscr) == 0
  {
    hide Simple, Subnormal;
    SimpleShape(f, x);
  }

  // ------------------------------------------------------------ Flags

  lemma FlagsAre(e: Raised)
    ensures And(FlagBits(e), 0x9f) == FlagBits(e)
  {
    hide FlagBits;
    SmallFlags(FlagBits(e));
  }

  lemma SmallFlags(w: Word)
    requires w < 32
    ensures And(w, 0x9f) == w
  {
    forall j | 0 <= j < 32
      ensures On(And(w, 0x9f), j) <==> On(w, j)
    {
      hide On;
      LogicBit(AND, w, 0x9f, 32, j);
      LowMask(w, j);
    }
    hide On;
    SameWords(And(w, 0x9f), w);
  }

  lemma LowMask(w: Word, j: nat)
    requires w < 32
    ensures On(w, j) ==> On(0x9f, j)
  {
    Pow2Small();
    if j >= 5 {
      Pow2Grows(5, j);
      Unique(w, Pow2(j), 0, w);
    } else {
      assert j == 0 || j == 1 || j == 2 || j == 3 || j == 4;
    }
  }

  /** Reporting what is already set changes nothing. */
  lemma AlreadySet(fpscr: Word, exc: Word)
    requires On(fpscr, 4) && (exc == 0 || exc == 0x10)
    ensures Or(fpscr, exc) == fpscr
  {
    hide On, Or;
    Pow2Small();
    forall j | 0 <= j < 32
      ensures On(Or(fpscr, exc), j) <==> On(fpscr, j)
    {
      OrBit(fpscr, exc, j);
      NoBit(j);
      PowerBit(4, j);
    }
    SameWords(Or(fpscr, exc), fpscr);
  }

  lemma OrSmall()
    ensures Or(0, 0) == 0 && Or(0x10, 0) == 0x10 && Or(0, 0x10) == 0x10 && Or(0x10, 0x10) == 0x10
  {
    hide On, Or;
    Pow2Small();
    PowerBit(4, 4);
    AlreadySet(0x10, 0x10);
    AlreadySet(0x10, 0);
    forall j | 0 <= j < 32
      ensures On(Or(0, 0), j) <==> On(0, j)
      ensures On(Or(0, 0x10), j) <==> On(0x10, j)
    {
      OrBit(0, 0, j);
      OrBit(0, 0x10, j);
      NoBit(j);
    }
    SameWords(Or(0, 0), 0);
    SameWords(Or(0, 0x10), 0x10);
  }

  lemma OrZeroLeft(w: Word)
    ensures Or(0, w) == w
  {
    hide On, Or;
    forall j | 0 <= j < 32
      ensures On(Or(0, w), j) <==> On(w, j)
    {
      OrBit(0, w, j);
      NoBit(j);
    }
    SameWords(Or(0, w), w);
  }

  // ------------------------------------------------------------ Gates

  lemma MaskedBit(w: Word, mask: Word, j: nat)
    requires j < 32
    ensures On(And(w, mask), j) <==> On(w, j) && On(mask, j)
  {
    hide On;
    LogicBit(AND, w, mask, 32, j);
  }

  lemma HighPowers()
    ensures Pow2(9) == 512 && Pow2(10) == 1024 && Pow2(15) == 0x8000 && Pow2(17) == 0x2_0000 && Pow2(18) == 0x4_0000
    ensures Pow2(22) == 0x40_0000 && Pow2(23) == 0x80_0000 && Pow2(25) == 0x200_0000 && Pow2(30) == 0x4000_0000
  {
    Pow2Small();
    assert Pow2(18) == 4 * Pow2(16);
    assert Pow2(22) == 16 * Pow2(18);
    assert Pow2(28) == 16 * Pow2(24);
    assert Pow2(30) == 4 * Pow2(28);
  }

  lemma ExactMask(j: nat)
    ensures j == 16 || j == 17 || j == 18 ==> On(0x7_0000, j) && On(0x7_9f00, j) && On(0x3c7_9f00, j) && !On(0x300_0000, j)
  {
    Pow2Small();
    HighPowers();
  }

  lemma ValuesMask(j: nat)
    ensures 8 <= j <= 12 || j == 15 ==> On(0x7_9f00, j) && On(0x3c7_9f00, j) && !On(0x300_0000, j)
  {
    Pow2Small();
    HighPowers();
    assert 8 <= j <= 12 ==> j == 8 || j == 9 || j == 10 || j == 11 || j == 12;
  }

  lemma ModeMask()
    ensures On(0x3c7_9f00, 22) && On(0x3c7_9f00, 23) && On(0x3c7_9f00, 24) && On(0x3c7_9f00, 25)
    ensures !On(0x300_0000, 22) && !On(0x300_0000, 23) && On(0x300_0000, 24) && On(0x300_0000, 25)
    ensures On(0x9f, 4) && On(0x10, 4)
  {
    Pow2Small();
    HighPowers();
  }

  /** Each gate lets through only what the interpreter executes. */
  lemma ExactGateOpens(v: Vfp)
    requires ExactGate(v)
    ensures !ArchVfp.ShortVectors(v.fpscr)
  {
    hide On, And;
    forall j | j == 16 || j == 17 || j == 18
      ensures !On(v.fpscr, j)
    {
      MaskedBit(v.fpscr, 0x7_0000, j);
      ExactMask(j);
      NoBit(j);
    }
  }

  lemma ValuesGateOpens(v: Vfp)
    requires ValuesGate(v)
    ensures !ArchVfp.ShortVectors(v.fpscr) && !ArchVfp.Trapping(v.fpscr)
  {
    hide On, And;
    forall j | j == 16 || j == 17 || j == 18 || 8 <= j <= 12 || j == 15
      ensures !On(v.fpscr, j)
    {
      MaskedBit(v.fpscr, 0x7_9f00, j);
      ExactMask(j);
      ValuesMask(j);
      NoBit(j);
    }
  }

  lemma ArithGateOpens(v: Vfp)
    requires ArithGate(v)
    ensures !ArchVfp.ShortVectors(v.fpscr) && !ArchVfp.Trapping(v.fpscr)
    ensures On(v.fpscr, 24) && On(v.fpscr, 25) && On(v.fpscr, 4) && v.fpscr / 0x40_0000 % 4 == 0
  {
    hide On, And;
    forall j | j == 16 || j == 17 || j == 18 || 8 <= j <= 12 || j == 15
      ensures !On(v.fpscr, j)
    {
      MaskedBit(v.fpscr, 0x3c7_9f00, j);
      ExactMask(j);
      ValuesMask(j);
    }
    ModeMask();
    forall j | 22 <= j <= 25
      ensures On(v.fpscr, j) <==> On(0x300_0000, j)
    {
      MaskedBit(v.fpscr, 0x3c7_9f00, j);
      assert j == 22 || j == 23 || j == 24 || j == 25;
    }
    MaskedBit(v.fpscr, 0x9f, 4);
    RoundingMode(v.fpscr);
  }

  lemma RoundingMode(w: Word)
    requires !On(w, 22) && !On(w, 23)
    ensures w / 0x40_0000 % 4 == 0
  {
    HighPowers();
    var q: int := w / 0x40_0000;
    assert w / 0x80_0000 == q / 2;
  }

  // ------------------------------------------------------------ One operation

  /** A rounding that only the handler's classification has seen is the interpreter's: no flush, no NaN, no ambiguity, and
      nothing to report but IXC. */
  lemma OperationAgrees(unit: Unit, op: FpOp, f: Format, negate: bool, a: nat, b: nat, fpscr: Word)
    requires Encoding(f, a) && Encoding(f, b) && Simple(f, a) && Simple(f, b)
    requires On(fpscr, 24) && On(fpscr, 25) && fpscr / 0x40_0000 % 4 == 0
    requires HostOperation(unit, op, f, negate, a, b).Some?
    ensures var r := HostOperation(unit, op, f, negate, a, b).value;
            var o := ArchVfp.Operate(unit, op, f, a, b, fpscr);
            && Encoding(f, r) && Simple(f, r)
            && r == (if negate then ArchVfp.Negate(f, o.x) else o.x)
            && Encoding(f, o.x) && !o.ambiguous && (o.exc == 0 || o.exc == 0x10)
  {
    hide Simple, Invisible, Or, On, Flip, ArchVfp.InputDenormal, ArchVfp.Magnitude, ArchVfp.Negate, ArchVfp.FlushOut, FlagBits,
         Flushed, Encoding, NumberOf, Expo, ArchVfp.DefaultNan;
    var (x, e) := Compute(unit, op, f, 0, a, b);
    SimpleInput(f, a, fpscr);
    SimpleInput(f, b, fpscr);
    FlipNegates(f, x);
    SimpleFlip(f, x);
    OrZeroLeft(0);
    OrZeroLeft(FlagBits(e));
    Unflushed(f, x, if negate then Flip(f, x) else x, e);
    NotNan(f, x);
  }

  lemma NotNan(f: Format, x: nat)
    requires Encoding(f, x) && Simple(f, x)
    ensures NumberOf(f, x) != NaN
  {
    SimpleShape(f, x);
    hide Expo, Frac, ExpCodes, Simple, Minus, Scaled, One;
  }

  lemma Unflushed(f: Format, x: nat, r: nat, e: Raised)
    requires Encoding(f, x) && Encoding(f, r) && Simple(f, x) && Invisible(f, r, e)
    requires ArchVfp.Magnitude(f, r) == ArchVfp.Magnitude(f, x)
    ensures ArchVfp.FlushOut(f, x, FlagBits(e)) == ArchVfp.Rounding(x, FlagBits(e), false)
    ensures FlagBits(e) == 0 || FlagBits(e) == 0x10
  {
    hide Simple, FlagBits, And, Or, On, Minus, Expo;
    SimpleShape(f, x);
    FlagsAre(e);
    MagnitudeMask(f, r);
  }

  lemma MagnitudeMask(f: Format, r: nat)
    requires Encoding(f, r)
    ensures Logic(AND, r, SignUnit(f) - 1, Bits(f)) == ArchVfp.Magnitude(f, r)
  {
    hide Logic, Pow2;
    assert SignUnit(f) == Pow2(Bits(f) - 1);
    AndLow(r, Bits(f) - 1, Bits(f));
  }

  // ------------------------------------------------------------ All nine

  function OperationAt(k: nat): ArchVfp.Operation {
    match k
    case 0 => ArchVfp.Vmla
    case 1 => ArchVfp.Vmls
    case 2 => ArchVfp.Vnmls
    case 3 => ArchVfp.Vnmla
    case 4 => ArchVfp.Vmul
    case 5 => ArchVfp.Vnmul
    case 6 => ArchVfp.Vadd
    case 7 => ArchVfp.Vsub
    case _ => ArchVfp.Vdiv
  }

  /** Whatever the unit computes: behind the gate, a committed result is the interpreter's, and the interpreter reports nothing
      that FPSCR does not already hold. */
  lemma ArithAgrees(unit: Unit, k: nat, f: Format, d: nat, n: nat, m: nat, fpscr: Word)
    requires Encoding(f, d) && Encoding(f, n) && Encoding(f, m) && k < 9
    requires On(fpscr, 24) && On(fpscr, 25) && On(fpscr, 4) && fpscr / 0x40_0000 % 4 == 0
    requires HostArith(unit, k, f, d, n, m).Some?
    ensures var o := ArchVfp.Arithmetic(unit, OperationAt(k), f, d, n, m, fpscr);
            o.x == HostArith(unit, k, f, d, n, m).value && Encoding(f, o.x) && !o.ambiguous && Or(fpscr, o.exc) == fpscr
  {
    hide Simple, Invisible, Or, On, HostOperation, ArchVfp.Operate, Encoding, Flip, ArchVfp.Negate;
    AlreadySet(fpscr, 0);
    AlreadySet(fpscr, 0x10);
    if k < 4 {
      OperationAgrees(unit, FpMul, f, false, n, m, fpscr);
      var p := HostOperation(unit, FpMul, f, false, n, m).value;
      FlipNegates(f, p);
      FlipNegates(f, d);
      SimpleFlip(f, p);
      SimpleFlip(f, d);
      OrSmall();
      OperationAgrees(unit, FpAdd, f, false, if k == 2 || k == 3 then Flip(f, d) else d, if k == 1 || k == 3 then Flip(f, p) else p, fpscr);
    } else if k == 4 || k == 5 {
      OperationAgrees(unit, FpMul, f, k == 5, n, m, fpscr);
    } else {
      OperationAgrees(unit, if k == 6 then FpAdd else if k == 7 then FpSub else FpDiv, f, false, n, m, fpscr);
    }
  }
}
