/** Fields and order of floating-point encodings, and bit operations on them. */
module VfpFormat {
  import opened Words
  import opened Encodings
  import opened Shifter

  // ------------------------------------------------------------ Fields of an encoding

  /** An encoding is its sign, exponent and fraction fields. */
  lemma Parts(f: Format, x: nat)
    requires Encoding(f, x)
    ensures var s := if Minus(f, x) then 1 else 0;
            x == s * SignUnit(f) + Expo(f, x) * ExpUnit(f) + Frac(f, x)
    ensures Expo(f, x) < ExpCodes(f) && Frac(f, x) < ExpUnit(f) && SignUnit(f) == ExpCodes(f) * ExpUnit(f)
    ensures Minus(f, x) <==> x >= SignUnit(f)
    ensures x % SignUnit(f) == Expo(f, x) * ExpUnit(f) + Frac(f, x)
  {
    hide Pow2, ExpUnit, ExpCodes, SignUnit, Bits;
    Units(f);
    PartsCore(x, ExpUnit(f), ExpCodes(f));
    NestDiv(x, ExpUnit(f), ExpCodes(f));
  }

  lemma Units(f: Format)
    ensures SignUnit(f) == ExpCodes(f) * ExpUnit(f) && Pow2(Bits(f)) == 2 * SignUnit(f)
    ensures SignUnit(f) > 0 && ExpCodes(f) > 0 && ExpUnit(f) > 0
  {
    Pow2Sum(ExpBits(f), FracBits(f));
  }

  lemma NestDiv(x: nat, e: nat, c: nat)
    requires e > 0 && c > 0
    ensures c * e > 0 && x / (c * e) == x / e / c
  {
    AtLeastOnce(e, c);
    assert c * e > 0;
    var q, r := x / e, x % e;
    DivModFacts(x, e);
    DivModFacts(q, c);
    var a, b := q / c, q % c;
    assert x == c * e * a + (e * b + r) by {
      assert e * q == e * (c * a + b) == c * e * a + e * b by {
        Spread(e, c, a, b);
      }
    }
    assert 0 <= e * b + r < c * e by {
      MulMono(e, b, c - 1);
      assert e * (c - 1) == c * e - e;
    }
    Unique(x, c * e, a, e * b + r);
  }

  lemma Spread(e: int, c: int, a: int, b: int)
    ensures e * (c * a + b) == c * e * a + e * b
  {
  }

  lemma BelowProduct(b: nat, r: nat, e: nat, c: nat)
    requires b < c && r < e
    ensures 0 <= b * e + r < c * e
  {
    MulMono(e, b + 1, c);
    assert e * (b + 1) == b * e + e;
    assert e * c == c * e;
  }

  lemma PartsCore(x: nat, e: nat, c: nat)
    requires e > 0 && c > 0 && x < 2 * (c * e)
    ensures var s := if x >= c * e then 1 else 0;
            && x == s * (c * e) + (x / e % c) * e + x % e
            && (x / e / c) == s
            && x % (c * e) == (x / e % c) * e + x % e
  {
    var q, r := x / e, x % e;
    DivModFacts(x, e);
    DivModFacts(q, c);
    var a, b := q / c, q % c;
    var low, whole := b * e + r, c * e;
    Spread(e, c, a, b);
    assert x == whole * a + low;
    BelowProduct(b, r, e, c);
    TopBit(x, whole, a, low);
  }

  lemma TopBit(x: nat, whole: nat, a: nat, low: nat)
    requires x < 2 * whole && low < whole && x == whole * a + low
    ensures a == (if x >= whole then 1 else 0) && x % whole == low && x == a * whole + low
  {
    if a >= 2 {
      MulMono(whole, 2, a);
    }
    Unique(x, whole, a, low);
  }

  // ------------------------------------------------------------ Order of magnitudes

  /** Magnitudes grow with their exponent and fraction fields read as one number. */
  lemma ScaledGrows(f: Format, e1: nat, f1: nat, e2: nat, f2: nat)
    requires f1 < ExpUnit(f) && f2 < ExpUnit(f) && (e1 < e2 || (e1 == e2 && f1 < f2))
    ensures Scaled(f, e1, f1) < Scaled(f, e2, f2)
  {
    var u := ExpUnit(f);
    if e1 == e2 {
      if e1 > 0 {
        StrictMul(Pow2(e1 - 1), u + f1, u + f2);
      }
    } else {
      var p2 := Pow2(e2 - 1);
      AtLeast(u + f2, u, p2);
      if e1 == 0 {
        AtLeastOnce(p2, u);
      } else {
        var p1 := Pow2(e1 - 1);
        StrictMul(p1, u + f1, 2 * u);
        Pow2Grows(e1, e2 - 1);
        MulMono(u, 2 * p1, p2);
        assert 2 * u * p1 == u * (2 * p1);
      }
    }
  }

  lemma StrictMul(p: nat, a: nat, b: nat)
    requires p > 0 && a < b
    ensures a * p < b * p
  {
    MulMono(p, a + 1, b);
    assert p * (a + 1) == p * a + p;
    assert p * a == a * p && p * b == b * p;
  }

  lemma AtLeast(a: nat, b: nat, p: nat)
    requires b <= a
    ensures b * p <= a * p
  {
    MulMono(p, b, a);
    assert p * a == a * p && p * b == b * p;
  }

  lemma FieldOrder(u: nat, e1: nat, f1: nat, e2: nat, f2: nat)
    requires f1 < u && f2 < u
    ensures e1 * u + f1 < e2 * u + f2 <==> e1 < e2 || (e1 == e2 && f1 < f2)
  {
    if e1 < e2 {
      AtLeast(e2, e1 + 1, u);
      assert (e1 + 1) * u == e1 * u + u;
    } else if e2 < e1 {
      AtLeast(e1, e2 + 1, u);
      assert (e2 + 1) * u == e2 * u + u;
    }
  }

  /** Dividing by the same positive number keeps order. */
  lemma RatioOrder(a: int, b: int, p: nat)
    requires p > 0
    ensures (a as real / p as real < b as real / p as real) <==> a < b
    ensures (a as real / p as real == b as real / p as real) <==> a == b
  {
    var x, y, r := a as real / p as real, b as real / p as real, p as real;
    assert x * r == a as real && y * r == b as real;
    if a < b {
      assert (y - x) * r > 0.0;
      PositiveFactor(y - x, r);
    } else if b < a {
      assert (x - y) * r > 0.0;
      PositiveFactor(x - y, r);
    }
  }

  lemma PositiveFactor(d: real, r: real)
    requires r > 0.0 && d * r > 0.0
    ensures d > 0.0
  {
    if d <= 0.0 {
      NegativeProduct(-d, r);
    }
  }

  lemma NegativeProduct(d: real, r: real)
    requires r > 0.0 && d >= 0.0
    ensures -d * r <= 0.0
  {
  }

  lemma RatioScale(a: int, p: nat, q: nat)
    requires p > 0 && q > 0
    ensures p * q > 0 && (a * q) as real / (p * q) as real == a as real / p as real
  {
    AtLeastOnce(p, q);
    var z := a as real / p as real;
    assert z * p as real == a as real;
    assert (a * q) as real == a as real * q as real == z * p as real * q as real;
    assert (p * q) as real == p as real * q as real;
    RealQuotient(z, (p * q) as real, (a * q) as real);
  }

  lemma RealQuotient(z: real, d: real, n: real)
    requires d > 0.0 && z * d == n
    ensures n / d == z
  {
  }

  // ------------------------------------------------------------ Bit operations

  /** Complementing every bit. */
  lemma {:induction false} XorOnes(x: nat, n: nat)
    requires x < Pow2(n)
    ensures Logic(XOR, x, Pow2(n) - 1, n) == Pow2(n) - 1 - x
  {
    if n > 0 {
      var p := Pow2(n - 1);
      assert (2 * p - 1) / 2 == p - 1 && (2 * p - 1) % 2 == 1;
      XorOnes(x / 2, n - 1);
    }
  }

  /** Setting a clear top bit by exclusive or. */
  lemma {:induction false} XorTop(x: nat, n: nat)
    requires x < Pow2(n)
    ensures Logic(XOR, x, Pow2(n), n + 1) == x + Pow2(n)
  {
    if n == 0 {
      assert Logic(XOR, 0, 1, 1) == 1;
    } else {
      XorTop(x / 2, n - 1);
      assert Pow2(n) / 2 == Pow2(n - 1) && Pow2(n) % 2 == 0;
    }
  }

  /** Keeping only the top bit. */
  lemma {:induction false} AndTop(x: nat, n: nat)
    requires x < Pow2(n + 1)
    ensures Logic(AND, x, Pow2(n), n + 1) == if x >= Pow2(n) then Pow2(n) else 0
  {
    if n == 0 {
      assert Logic(AND, x, 1, 1) == x;
    } else {
      AndTop(x / 2, n - 1);
      assert Pow2(n) / 2 == Pow2(n - 1) && Pow2(n) % 2 == 0;
    }
  }

  /** Keeping the low bits is a remainder. */
  lemma {:induction false} AndLow(x: nat, k: nat, n: nat)
    requires k <= n && x < Pow2(n)
    ensures Logic(AND, x, Pow2(k) - 1, n) == x % Pow2(k)
  {
    if k == 0 {
      AndNothing(x, n);
      assert Pow2(0) == 1;
    } else {
      var p := Pow2(k - 1);
      assert (2 * p - 1) / 2 == p - 1 && (2 * p - 1) % 2 == 1;
      AndLow(x / 2, k - 1, n - 1);
      HalfRemainder(x, p);
    }
  }

  lemma HalfRemainder(x: nat, p: nat)
    requires p > 0
    ensures x % (2 * p) == 2 * (x / 2 % p) + x % 2
  {
    var h := x / 2;
    DivModFacts(h, p);
    var q, r := h / p, h % p;
    assert x == 2 * p * q + (2 * r + x % 2) by {
      assert 2 * (p * q) == 2 * p * q;
    }
    Unique(x, 2 * p, q, 2 * r + x % 2);
  }

  lemma {:induction false} OrNothing(x: nat, n: nat)
    requires x < Pow2(n)
    ensures Logic(OR, x, 0, n) == x
  {
    if n > 0 {
      OrNothing(x / 2, n - 1);
    }
  }

  /** Fields that do not overlap are joined by or. */
  lemma {:induction false} OrDisjoint(x: nat, y: nat, k: nat, n: nat)
    requires k <= n && y < Pow2(k) && x < Pow2(n - k)
    ensures Logic(OR, x * Pow2(k), y, n) == x * Pow2(k) + y
  {
    if k == 0 {
      assert Pow2(0) == 1 && x * 1 == x;
      OrNothing(x, n);
    } else {
      var p := Pow2(k - 1);
      assert x * Pow2(k) == 2 * (x * p);
      OrDisjoint(x, y / 2, k - 1, n - 1);
      assert (2 * (x * p)) / 2 == x * p && (2 * (x * p)) % 2 == 0;
    }
  }

  /** Bits shifted out at the top leave nothing exactly when the bits kept are zero. */
  lemma ShiftedOutIsLow(x: nat, k: nat, n: nat)
    requires k <= n
    ensures x * Pow2(k) % Pow2(n) == x % Pow2(n - k) * Pow2(k)
    ensures x * Pow2(k) % Pow2(n) == 0 <==> x % Pow2(n - k) == 0
  {
    hide Pow2;
    var p, q := Pow2(k), Pow2(n - k);
    Pow2Sum(k, n - k);
    DivModFacts(x, q);
    var a, r := x / q, x % q;
    Expand(p, q, a, r);
    ProductBelow(r, p, q);
    Unique(x * p, p * q, a, r * p);
    if r > 0 {
      AtLeastOnce(r, p);
    }
  }

  lemma ProductBelow(r: nat, p: nat, q: nat)
    requires r < q && p > 0
    ensures r * p < p * q
  {
    AtLeast(q, r + 1, p);
    assert (r + 1) * p == r * p + p;
    assert q * p == p * q;
  }

  lemma Expand(p: int, q: int, a: int, r: int)
    ensures (q * a + r) * p == (p * q) * a + r * p
  {
  }
}
