/** Bit fields of bit fields. */
module Fields {
  import opened Words
  import opened Shifter

  lemma {:induction false} NestedQuotient(x: int, a: nat, b: nat)
    ensures x / Pow2(a) / Pow2(b) == x / Pow2(a + b)
  {
    if b == 0 {
      assert Pow2(0) == 1;
    } else {
      NestedQuotient(x, a, b - 1);
      HalfOfQuotient(x, a + b - 1);
      HalfOfQuotient(x / Pow2(a), b - 1);
    }
  }

  lemma QuotientOfRemainder(y: nat, k: nat, n: nat, m: nat)
    requires k > 0 && n > 0 && m > 0
    ensures (y / k) % n == (y % (k * n * m) / k) % n
  {
    var whole := k * n * m;
    assert whole > 0 by {
      AtLeastOnce(k, n);
      AtLeastOnce(m, k * n);
    }
    var a, r := y / whole, y % whole;
    DivModFacts(y, whole);
    var q, t := r / k, r % k;
    DivModFacts(r, k);
    var c := n * m * a;
    assert whole * a == k * c by {
      Rearrange(k, n, m, a);
    }
    assert y == k * (c + q) + t by {
      assert k * (c + q) == k * c + k * q;
    }
    Unique(y, k, c + q, t);
    var u, v := q / n, q % n;
    DivModFacts(q, n);
    assert c + q == n * (m * a + u) + v by {
      assert n * (m * a + u) == n * m * a + n * u;
    }
    Unique(c + q, n, m * a + u, v);
  }

  ghost predicate IsProduct(whole: nat, k: nat, n: nat, m: nat) { whole == k * n * m }

  lemma QuotientOfRemainderAt(y: nat, k: nat, n: nat, m: nat, whole: nat)
    requires k > 0 && n > 0 && m > 0 && whole > 0 && IsProduct(whole, k, n, m)
    ensures y / k % n == y % whole / k % n
  {
    QuotientOfRemainder(y, k, n, m);
  }

  lemma Rearrange(k: int, n: int, m: int, a: int)
    ensures k * n * m * a == k * (n * m * a)
  {
  }

  lemma Pow2Triple(k: nat, n: nat, m: nat)
    ensures Pow2(k + n + m) == Pow2(k) * Pow2(n) * Pow2(m)
  {
    Pow2Sum(k, n);
    Pow2Sum(k + n, m);
  }

  lemma FieldOf(w: Word, lo: nat, n: nat)
    ensures Field(w, lo, n) == w / Pow2(lo) % Pow2(n)
  {
  }

  lemma Weights(k: nat, n: nat, wide: nat)
    requires k + n <= wide
    ensures IsProduct(Pow2(wide), Pow2(k), Pow2(n), Pow2(wide - k - n))
  {
    hide Pow2;
    Pow2Triple(k, n, wide - k - n);
    assert k + n + (wide - k - n) == wide;
  }

  lemma FieldAbove(w: Word, lo: nat, k: nat, n: nat)
    ensures Field(w, lo + k, n) == w / Pow2(lo) / Pow2(k) % Pow2(n)
  {
    hide Pow2, Field;
    FieldOf(w, lo + k, n);
    NestedQuotient(w, lo, k);
  }

  lemma FieldWithin(y: nat, wide: nat, k: nat, n: nat)
    requires k + n <= wide
    ensures y / Pow2(k) % Pow2(n) == y % Pow2(wide) / Pow2(k) % Pow2(n)
  {
    hide Pow2, IsProduct;
    Weights(k, n, wide);
    QuotientOfRemainderAt(y, Pow2(k), Pow2(n), Pow2(wide - k - n), Pow2(wide));
  }

  lemma FieldIsWithin(w: Word, lo: nat, wide: nat, k: nat, n: nat)
    ensures Field(w, lo, wide) / Pow2(k) % Pow2(n) == w / Pow2(lo) % Pow2(wide) / Pow2(k) % Pow2(n)
  {
    hide Pow2, Field;
    FieldOf(w, lo, wide);
  }

  /** A field inside a field is the field at the summed position. */
  lemma SubField(w: Word, lo: nat, wide: nat, k: nat, n: nat)
    requires k + n <= wide
    ensures Field(w, lo + k, n) == Field(w, lo, wide) / Pow2(k) % Pow2(n)
  {
    hide *;
    FieldAbove(w, lo, k, n);
    FieldWithin(w / Pow2(lo), wide, k, n);
    FieldIsWithin(w, lo, wide, k, n);
  }

  lemma QuotientOfZero(p: nat)
    requires p > 0
    ensures 0 / p == 0
  {
  }

  /** A zero field has zero fields. */
  lemma ZeroField(w: Word, lo: nat, wide: nat, k: nat, n: nat)
    requires k + n <= wide && Field(w, lo, wide) == 0
    ensures Field(w, lo + k, n) == 0
  {
    SubField(w, lo, wide, k, n);
    hide Field, Pow2;
    QuotientOfZero(Pow2(k));
    QuotientOfZero(Pow2(n));
    assert 0 % Pow2(n) == 0;
  }

  /** The opcode fields of a halfword are all parts of its top byte. */
  lemma ThumbFields(insn: Word)
    ensures var t := Field(insn, 8, 8);
            && Field(insn, 13, 3) == t / 32
            && Field(insn, 12, 4) == t / 16
            && Field(insn, 11, 5) == t / 8
            && Field(insn, 10, 6) == t / 4
            && Field(insn, 9, 3) == t / 2 % 8
            && Field(insn, 8, 4) == t % 16
            && Field(insn, 11, 2) == t / 8 % 4
  {
    hide Field, Pow2;
    Pow2Small();
    var t := Field(insn, 8, 8);
    SubField(insn, 8, 8, 5, 3);
    SubField(insn, 8, 8, 4, 4);
    SubField(insn, 8, 8, 3, 5);
    SubField(insn, 8, 8, 2, 6);
    SubField(insn, 8, 8, 1, 3);
    SubField(insn, 8, 8, 0, 4);
    SubField(insn, 8, 8, 3, 2);
  }
}
