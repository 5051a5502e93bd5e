/** The barrel-shifter handlers compute what shifting one position at a time computes. */
module Shifter {
  import opened Words
  import opened Handlers
  import opened Decode
  import opened Exec
  import Arch

  lemma {:induction false} Pow2Sum(a: nat, b: nat)
    ensures Pow2(a + b) == Pow2(a) * Pow2(b)
  {
    if a > 0 {
      Pow2Sum(a - 1, b);
      assert Pow2(a + b) == 2 * Pow2(a + b - 1);
    }
  }

  lemma Unique(x: int, p: int, q: int, r: int)
    requires p > 0 && x == p * q + r && 0 <= r < p
    ensures x / p == q && x % p == r
  {
    var d := x / p - q;
    assert x == p * (x / p) + x % p;
    assert p * d == r - x % p;
    assert d >= 1 ==> p * d >= p;
    assert d <= -1 ==> p * d <= -p;
  }

  /** Dividing by a power of two and then by two. */
  lemma HalfOfQuotient(x: int, n: nat)
    ensures x / Pow2(n) / 2 == x / Pow2(n + 1)
    ensures x % Pow2(n + 1) == x % Pow2(n) + (x / Pow2(n) % 2) * Pow2(n)
  {
    var p, q, r := Pow2(n), x / Pow2(n), x % Pow2(n);
    var h, b := q / 2, q % 2;
    assert x == p * q + r && q == 2 * h + b;
    assert p * q == (2 * p) * h + b * p by {
      assert p * (2 * h + b) == 2 * p * h + b * p;
    }
    assert 0 <= b * p + r < 2 * p by {
      assert b == 0 || b == 1;
    }
    Unique(x, 2 * p, h, b * p + r);
  }

  // ------------------------------------------------------------ LSR

  lemma {:induction false} LsrValue(x: Word, n: nat, c: bool)
    ensures Arch.Shifted(1, x, n, c).0 == x / Pow2(n)
  {
    if n > 0 {
      LsrValue(x, n - 1, c);
      HalfOfQuotient(x, n - 1);
    }
  }

  lemma Pow2Grows(a: nat, b: nat)
    requires a <= b
    ensures Pow2(a) <= Pow2(b)
  {
    Pow2Sum(b - a, a);
    AtLeastOnce(Pow2(b - a), Pow2(a));
  }

  lemma SmallQuotient(x: Word, n: nat)
    requires n >= 32
    ensures x / Pow2(n) == 0
  {
    Pow2Of32();
    Pow2Grows(32, n);
    Unique(x, Pow2(n), 0, x);
  }

  lemma LsrReg(x: Word, n: nat, c: bool)
    requires n < 256
    ensures HostShiftReg(1, x, n, c) == Arch.Shifted(1, x, n, c)
  {
    LsrValue(x, n, c);
    if n > 0 {
      LsrValue(x, n - 1, c);
      if n >= 32 {
        SmallQuotient(x, n);
      }
      if n > 32 {
        SmallQuotient(x, n - 1);
      }
    }
  }

  // ------------------------------------------------------------ LSL

  lemma {:induction false} LslValue(x: Word, n: nat, c: bool)
    ensures Arch.Shifted(0, x, n, c).0 == Wrap(x * Pow2(n))
  {
    if n > 0 {
      LslValue(x, n - 1, c);
      var y := x * Pow2(n - 1);
      assert x * Pow2(n) == 2 * y by {
        assert x * (2 * Pow2(n - 1)) == 2 * (x * Pow2(n - 1));
      }
      WrapDouble(y);
    }
  }

  lemma WrapDouble(y: nat)
    ensures Wrap(2 * Wrap(y) as int) == Wrap(2 * y)
  {
  }

  lemma ScaledBelow(l: nat, p: nat, m: nat)
    requires l < p
    ensures l * m + m <= p * m
  {
    assert (p - l - 1) * m >= 0;
  }

  lemma Regroup(p: int, q: int, l: int, m: int)
    ensures (p * q + l) * m == (p * m) * q + l * m
  {
  }

  lemma CarryCore(x: nat, p: nat, m: nat)
    requires p > 0 && m > 0 && p * m == 0x8000_0000
    ensures x * m % 0x1_0000_0000 >= 0x8000_0000 <==> x / p % 2 == 1
  {
    var q, l := x / p, x % p;
    DivModFacts(x, p);
    Regroup(p, q, l, m);
    ScaledBelow(l, p, m);
    var t := l * m;
    var y := x * m;
    assert y == 0x8000_0000 * q + t && 0 <= t < 0x8000_0000;
    Unique(y, 0x1_0000_0000, q / 2, 0x8000_0000 * (q % 2) + t);
  }

  /** The top bit after n - 1 left shifts is bit 32 - n of the operand. */
  lemma LslCarry(x: Word, n: nat)
    requires 1 <= n <= 32
    ensures Arch.Negative(Wrap(x * Pow2(n - 1))) == BitAt(x, 32 - n)
  {
    Pow2Sum(32 - n, n - 1);
    Pow2Of32();
    CarryCore(x, Pow2(32 - n), Pow2(n - 1));
  }

  lemma LslAway(x: Word, n: nat)
    requires n >= 32
    ensures Wrap(x * Pow2(n)) == 0
  {
    Pow2Sum(32, n - 32);
    Pow2Of32();
    var k := x * Pow2(n - 32);
    assert x * Pow2(n) == 0x1_0000_0000 * k by {
      assert x * (0x1_0000_0000 * Pow2(n - 32)) == 0x1_0000_0000 * (x * Pow2(n - 32));
    }
    Unique(x * Pow2(n), 0x1_0000_0000, k, 0);
  }

  lemma LslSmall(x: Word, n: nat, c: bool)
    requires 0 < n <= 32
    ensures Arch.Shifted(0, x, n, c) == (if n < 32 then Lsl(x, n) else 0, BitAt(x, 32 - n))
  {
    hide BitAt, Arch.Negative, Pow2;
    LslValue(x, n, c);
    LslValue(x, n - 1, c);
    LslCarry(x, n);
    if n == 32 {
      LslAway(x, 32);
    }
    assert Arch.Shifted(0, x, n, c).1 == Arch.Negative(Arch.Shifted(0, x, n - 1, c).0);
  }

  lemma LslReg(x: Word, n: nat, c: bool)
    requires n < 256
    ensures HostShiftReg(0, x, n, c) == Arch.Shifted(0, x, n, c)
  {
    hide BitAt, Pow2, Arch.Shifted;
    if n == 0 {
      LslNone(x, c);
    } else if n <= 32 {
      LslSmall(x, n, c);
    } else {
      LslBig(x, n, c);
    }
  }

  lemma LslNone(x: Word, c: bool)
    ensures HostShiftReg(0, x, 0, c) == Arch.Shifted(0, x, 0, c)
  {
  }

  lemma LslBig(x: Word, n: nat, c: bool)
    requires 32 < n < 256
    ensures HostShiftReg(0, x, n, c) == Arch.Shifted(0, x, n, c)
  {
    hide BitAt, Pow2, Arch.Shifted;
    LslValue(x, n, c);
    LslValue(x, n - 1, c);
    LslAway(x, n);
    LslAway(x, n - 1);
    LslLastOut(x, n, c);
  }

  lemma LslLastOut(x: Word, n: nat, c: bool)
    requires n > 0
    ensures Arch.Shifted(0, x, n, c).1 == Arch.Negative(Arch.Shifted(0, x, n - 1, c).0)
  {
  }

  // ------------------------------------------------------------ ASR

  lemma QuotientRange(s: int, p: int, k: int)
    requires p > 0 && k > 0 && -k <= s < k
    ensures -k <= s / p < k
  {
    var q, r := s / p, s % p;
    assert s == p * q + r && 0 <= r < p;
    MulMono(k, 1, p);
    assert k * p == p * k;
    if q >= k {
      MulMono(p, k, q);
      assert false;
    }
    if q < -k {
      MulMono(p, q, -k - 1);
      assert false;
    }
  }

  lemma SignedQuotient(x: Word, n: nat)
    ensures -0x8000_0000 <= Signed(x) / Pow2(n) < 0x8000_0000
  {
    QuotientRange(Signed(x), Pow2(n), 0x8000_0000);
  }

  lemma {:induction false} AsrValue(x: Word, n: nat, c: bool)
    ensures Arch.Shifted(2, x, n, c).0 == Asr(x, n)
  {
    if n > 0 {
      AsrValue(x, n - 1, c);
      SignedQuotient(x, n - 1);
      HalfOfQuotient(Signed(x), n - 1);
      AsrOnce(Signed(x) / Pow2(n - 1));
    }
  }

  lemma AsrOnce(q: int)
    requires -0x8000_0000 <= q < 0x8000_0000
    ensures var y := Wrap(q);
            Arch.ShiftOnce(2, y).0 == Wrap(q / 2) && y % 2 == q % 2 && (Arch.Negative(y) <==> q < 0)
  {
  }

  lemma NegativeQuotient(x: int, p: nat, k: nat)
    requires p > 0 && p * k == 0x8000_0000
    ensures (x - 0x1_0000_0000) / p == x / p - 2 * k
  {
    var q, r := x / p, x % p;
    assert x == p * q + r && 0 <= r < p;
    assert p * (q - 2 * k) == p * q - 2 * (p * k);
    Unique(x - 0x1_0000_0000, p, q - 2 * k, r);
  }

  lemma AsrCarry(x: Word, n: nat)
    requires n <= 31
    ensures Asr(x, n) % 2 == 1 <==> BitAt(x, n)
  {
    hide Pow2;
    SignedQuotient(x, n);
    AsrOnce(Signed(x) / Pow2(n));
    if Arch.Negative(x) {
      Pow2Sum(n, 31 - n);
      Pow2Of32();
      NegativeQuotient(x, Pow2(n), Pow2(31 - n));
    }
  }

  lemma AsrSign(x: Word, n: nat)
    requires n >= 31
    ensures Asr(x, n) == if Arch.Negative(x) then 0xffff_ffff else 0
    ensures BitAt(x, 31) <==> Arch.Negative(x)
  {
    Pow2Of32();
    Pow2Grows(31, n);
    if Arch.Negative(x) {
      Unique(Signed(x), Pow2(n), -1, Signed(x) + Pow2(n));
      Unique(x, Pow2(31), 1, x - 0x8000_0000);
    } else {
      Unique(Signed(x), Pow2(n), 0, x);
      Unique(x, Pow2(31), 0, x);
    }
  }

  lemma AsrReg(x: Word, n: nat, c: bool)
    requires n < 256
    ensures HostShiftReg(2, x, n, c) == Arch.Shifted(2, x, n, c)
  {
    AsrValue(x, n, c);
    if n > 0 {
      AsrValue(x, n - 1, c);
      if n <= 32 {
        AsrCarry(x, n - 1);
      } else {
        AsrSign(x, n - 1);
      }
      if n >= 32 {
        AsrSign(x, n);
        AsrSign(x, 31);
      }
    }
  }

  // ------------------------------------------------------------ ROR

  lemma RotateCore(x: Word, p: nat, q: nat)
    requires p > 0 && q > 0 && p * q == 0x1_0000_0000
    ensures 0 <= x / p + (x % p) * q < 0x1_0000_0000
  {
    var h, l := x / p, x % p;
    DivModFacts(x, p);
    Below(x, q, p);
    ScaledBelow(l, p, q);
  }

  lemma RotatedValue(x: Word, n: nat)
    requires n < 32
    ensures Rotated(x, n) == x / Pow2(n) + (x % Pow2(n)) * Pow2(32 - n)
  {
    hide Pow2;
    Pow2Sum(n, 32 - n);
    Pow2Of32();
    RotateCore(x, Pow2(n), Pow2(32 - n));
  }

  lemma {:induction false} RorValue(x: Word, n: nat, c: bool)
    requires n < 32
    ensures Arch.Shifted(3, x, n, c).0 == Rotated(x, n)
  {
    RotatedValue(x, n);
    if n > 0 {
      RorValue(x, n - 1, c);
      RorStep(x, n - 1);
    }
  }

  lemma HalfWeight(n: nat)
    requires n < 32
    ensures Pow2(32 - n) == 2 * Pow2(31 - n)
  {
  }

  lemma HalveSum(y: nat, h: nat, t: nat)
    requires y == h + 2 * t
    ensures y % 2 == h % 2 && y / 2 == h / 2 + t
  {
  }

  /** Value and low bit of a rotation by n. */
  lemma RorHalves(x: Word, n: nat)
    requires n < 32
    ensures Rotated(x, n) % 2 == x / Pow2(n) % 2
    ensures Rotated(x, n) / 2 == x / Pow2(n + 1) + (x % Pow2(n)) * Pow2(31 - n)
  {
    hide *;
    RotatedValue(x, n);
    HalfOfQuotient(x, n);
    HalfWeight(n);
    RorSum(Rotated(x, n), x / Pow2(n), x % Pow2(n), Pow2(32 - n), Pow2(31 - n));
  }

  lemma RorSum(y: nat, h: nat, l: nat, w: nat, k: nat)
    requires w == 2 * k && y == h + l * w
    ensures y % 2 == h % 2 && y / 2 == h / 2 + l * k
  {
    DoubleShare(l, k);
    HalveSum(y, h, l * k);
  }

  lemma DoubleShare(l: int, k: int)
    ensures l * (2 * k) == 2 * (l * k)
  {
  }

  lemma RorStepCore(l: int, b: int, p: int, k: int)
    requires p * k == 0x8000_0000
    ensures (l + b * p) * k == l * k + b * 0x8000_0000
  {
    assert (l + b * p) * k == l * k + b * (p * k);
  }

  /** One rotation moves the low bit of what is left of the operand to the top. */
  lemma RorStep(x: Word, n: nat)
    requires n < 31
    ensures Arch.ShiftOnce(3, Rotated(x, n)).0 == Rotated(x, n + 1)
  {
    RorHalves(x, n);
    HalfOfQuotient(x, n);
    RotatedValue(x, n + 1);
    Pow2Sum(n, 31 - n);
    Pow2Of32();
    hide Pow2, Rotated;
    RorStepCore(x % Pow2(n), x / Pow2(n) % 2, Pow2(n), Pow2(31 - n));
  }

  lemma RorLast(x: Word)
    ensures Arch.ShiftOnce(3, Rotated(x, 31)) == (x, BitAt(x, 31))
  {
    RorHalves(x, 31);
    HalfOfQuotient(x, 31);
    Pow2Of32();
    SmallQuotient(x, 32);
    DivModFacts(x, Pow2(32));
    assert Pow2(0) == 1;
  }

  lemma {:induction false} ShiftedTwice(kind: nat, x: Word, a: nat, b: nat, c: bool)
    ensures Arch.Shifted(kind, x, a + b, c).0 == Arch.Shifted(kind, Arch.Shifted(kind, x, a, c).0, b, c).0
    ensures b > 0 ==> Arch.Shifted(kind, x, a + b, c) == Arch.Shifted(kind, Arch.Shifted(kind, x, a, c).0, b, c)
  {
    if b > 0 {
      ShiftedTwice(kind, x, a, b - 1, c);
    }
  }

  lemma RorFull(x: Word, c: bool)
    ensures Arch.Shifted(3, x, 32, c) == (x, BitAt(x, 31))
  {
    RorValue(x, 31, c);
    RorLast(x);
  }

  lemma RorPart(x: Word, n: nat, c: bool)
    requires 0 < n < 32
    ensures Arch.Shifted(3, x, n, c) == (Rotated(x, n), BitAt(x, n - 1))
  {
    RorValue(x, n, c);
    RorValue(x, n - 1, c);
    RorHalves(x, n - 1);
  }

  lemma {:induction false} RorReg(x: Word, n: nat, c: bool)
    requires n < 256
    ensures HostShiftReg(3, x, n, c) == Arch.Shifted(3, x, n, c)
  {
    hide Pow2, BitAt, Rotated;
    if 0 < n < 32 {
      RorPart(x, n, c);
    } else if n == 32 {
      RorFull(x, c);
    } else if n > 32 {
      hide Arch.Shifted;
      RorFull(x, c);
      ShiftedTwice(3, x, 32, n - 32, c);
      RorReg(x, n - 32, c);
      assert n % 32 == (n - 32) % 32;
    }
  }

  // ------------------------------------------------------------ Both record forms

  /** A register-amount shifter record gives the architecture's operand and carry for every amount 0 to 255. */
  lemma ShiftRegIsShifted(kind: nat, x: Word, n: nat, c: bool)
    requires kind < 4 && n < 256
    ensures HostShiftReg(kind, x, n, c) == Arch.Shifted(kind, x, n, c)
  {
    match kind
    case 0 => LslReg(x, n, c);
    case 1 => LsrReg(x, n, c);
    case 2 => AsrReg(x, n, c);
    case _ => RorReg(x, n, c);
  }

  /** A constant-amount shifter record does so for every encoding, with zero meaning 32 or RRX. */
  lemma ShiftImmIsShifted(kind: nat, x: Word, amount: nat, c: bool)
    requires kind < 4 && amount < 32
    ensures HostShiftImm(kind, x, amount, c) == Arch.ShiftByImmediate(kind, x, amount, c)
  {
    hide Asr, Arch.Shifted, Rotated;
    if amount > 0 {
      ShiftRegIsShifted(kind, x, amount, c);
      SameAsReg(kind, x, amount, c);
    } else if kind == 0 {
      assert Arch.Shifted(0, x, 0, c) == (x, c) by {
        LslReg(x, 0, c);
      }
    } else if kind == 1 {
      LsrReg(x, 32, c);
    } else if kind == 2 {
      AsrReg(x, 32, c);
    } else {
      assert Pow2(0) == 1;
    }
  }

  lemma SameAsReg(kind: nat, x: Word, amount: nat, c: bool)
    requires kind < 4 && 0 < amount < 32
    ensures HostShiftImm(kind, x, amount, c) == HostShiftReg(kind, x, amount, c)
  {
    hide Asr, Rotated, Lsl, Lsr, BitAt;
  }

  /** The decoder's rotated immediate, with its three-way carry rule, is the rotation one position at a time. */
  lemma RotatedImmediate(x: Word, n: nat, c: bool)
    requires n < 32
    ensures Arch.Shifted(3, x, n, c) == (Rotated(x, n), if n == 0 then c else Rotated(x, n) >= 0x8000_0000)
  {
    if n == 0 {
      RotatedValue(x, 0);
      assert Pow2(0) == 1;
    } else {
      RorPart(x, n, c);
      RorValue(x, n - 1, c);
      RorStep(x, n - 1);
      RorHalves(x, n - 1);
    }
  }
}
