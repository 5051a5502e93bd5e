/** The nearest sampler: its bulk shortcuts against the scalar loop. */
module Sampler {
  import opened Words
  import opened Shifter

  type I32 = x: int | -0x8000_0000 <= x < 0x8000_0000

  /** A host binary32 value; what is not a finite number is only passed around. */
  datatype Float = Finite(v: real) | Special(tag: nat)

  /** Host binary32 arithmetic on values this model does not look into. */
  datatype Host = Host(recip: Float -> Float, times: (Float, Float) -> Float, plus: (Float, Float) -> Float)

  /** What correct rounding gives when the second operand is one or zero. */
  ghost predicate HostOk(h: Host) {
    && h.recip(Finite(1.0)) == Finite(1.0)
    && (forall v: real :: h.times(Finite(v), Finite(1.0)) == Finite(v))
    && h.plus(Finite(1.0), Finite(0.0)) == Finite(1.0)
  }

  // ------------------------------------------------------------ Integer to binary32

  /** Exponent of the spacing of binary32 numbers at `n`: 24 significant bits. */
  function Spacing(n: nat): nat {
    if n < 0x100_0000 then 0 else 1 + Spacing(n / 2)
  }

  /** Nearest multiple of `p`, ties to even. */
  function NearestMultiple(n: nat, p: nat): nat
    requires p > 0
  {
    var q, r := Quotient(n, p), n % p;
    if 2 * r < p || (2 * r == p && q % 2 == 0) then q * p else (q + 1) * p
  }

  function Quotient(n: nat, p: nat): nat
    requires p > 0
  {
    DivModFacts(n, p);
    n / p
  }

  function RoundNat(n: nat): nat { NearestMultiple(n, Pow2(Spacing(n))) }

  /** The binary32 nearest an integer. */
  function Round32(i: int): int { if i >= 0 then RoundNat(i) else -(RoundNat(-i) as int) }

  lemma {:induction false} SpacingBounds(n: nat)
    ensures n < Pow2(24 + Spacing(n))
    ensures Spacing(n) > 0 ==> n >= Pow2(23 + Spacing(n))
  {
    Pow2Small();
    if n >= 0x100_0000 {
      SpacingBounds(n / 2);
      assert Pow2(24 + Spacing(n)) == 2 * Pow2(24 + Spacing(n / 2));
      assert Pow2(23 + Spacing(n)) == 2 * Pow2(23 + Spacing(n / 2));
      if Spacing(n / 2) == 0 {
        assert Pow2(24) == 0x100_0000;
      }
    }
  }

  lemma SpacingBelow(n: nat, k: nat)
    requires n < Pow2(24 + k)
    ensures Spacing(n) <= k
  {
    SpacingBounds(n);
    if Spacing(n) > k {
      Pow2Grows(24 + k, 23 + Spacing(n));
    }
  }

  lemma SpacingMono(n: nat, m: nat)
    requires n <= m
    ensures Spacing(n) <= Spacing(m)
  {
    SpacingBounds(m);
    SpacingBelow(n, Spacing(m));
  }

  lemma NearestBounds(n: nat, p: nat)
    requires p > 0
    ensures Quotient(n, p) * p <= NearestMultiple(n, p) <= (Quotient(n, p) + 1) * p
    ensures n % p == 0 ==> NearestMultiple(n, p) == n
  {
    DivModFacts(n, p);
    var q := Quotient(n, p);
    assert p * q == q * p && (q + 1) * p == q * p + p;
  }

  lemma ProductOrder(p: int, a: int, b: int)
    requires p > 0 && p * a < p * b
    ensures a < b
  {
    if a >= b {
      MulMono(p, b, a);
    }
  }

  lemma QuotientAtLeast(n: nat, p: nat, c: nat)
    requires p > 0 && n >= c * p
    ensures Quotient(n, p) >= c
  {
    DivModFacts(n, p);
    assert p * (n / p + 1) == p * (n / p) + p && p * c == c * p;
    ProductOrder(p, c, n / p + 1);
  }

  lemma QuotientBelow(n: nat, p: nat, c: nat)
    requires p > 0 && n < c * p
    ensures Quotient(n, p) < c
  {
    DivModFacts(n, p);
    assert p * c == c * p;
    ProductOrder(p, n / p, c);
  }

  /** Rounding to one spacing keeps order. */
  lemma NearestMono(n: nat, m: nat, p: nat)
    requires p > 0 && n <= m
    ensures NearestMultiple(n, p) <= NearestMultiple(m, p)
  {
    var q1, q2 := Quotient(n, p), Quotient(m, p);
    NearestBounds(n, p);
    NearestBounds(m, p);
    DivModFacts(n, p);
    assert p * q1 == q1 * p;
    QuotientAtLeast(m, p, q1);
    hide NearestMultiple, Quotient;
    if q1 == q2 {
      SameQuotient(n, m, p, q1);
    } else {
      MulMono(p, q1 + 1, q2);
      assert p * (q1 + 1) == (q1 + 1) * p && p * q2 == q2 * p;
    }
  }

  lemma SameQuotient(n: nat, m: nat, p: nat, q: nat)
    requires p > 0 && n <= m && Quotient(n, p) == q == Quotient(m, p)
    ensures NearestMultiple(n, p) <= NearestMultiple(m, p)
  {
    DivModFacts(n, p);
    DivModFacts(m, p);
    assert n % p <= m % p;
    assert (q + 1) * p == q * p + p;
  }

  /** A number at least 24 bits long in units of its spacing rounds to at least that. */
  lemma RoundAtLeast(n: nat, c: nat)
    requires n >= c * Pow2(Spacing(n))
    ensures RoundNat(n) >= c * Pow2(Spacing(n))
  {
    var p := Pow2(Spacing(n));
    NearestBounds(n, p);
    QuotientAtLeast(n, p, c);
    MulMono(p, c, Quotient(n, p));
    assert p * c == c * p && p * Quotient(n, p) == Quotient(n, p) * p;
  }

  lemma RoundAtMost(n: nat, c: nat)
    requires n < c * Pow2(Spacing(n))
    ensures RoundNat(n) <= c * Pow2(Spacing(n))
  {
    var p := Pow2(Spacing(n));
    NearestBounds(n, p);
    QuotientBelow(n, p, c);
    var q := Quotient(n, p);
    MulMono(p, q + 1, c);
    assert p * (q + 1) == (q + 1) * p && p * c == c * p;
  }

  /** Rounding integers to binary32 keeps order. */
  lemma RoundMono(n: nat, m: nat)
    requires n <= m
    ensures RoundNat(n) <= RoundNat(m)
  {
    SpacingMono(n, m);
    var s, t := Spacing(n), Spacing(m);
    if s == t {
      NearestMono(n, m, Pow2(s));
    } else {
      SpacingBounds(n);
      SpacingBounds(m);
      Pow2Sum(24, s);
      Pow2Sum(23, t);
      RoundAtMost(n, Pow2(24));
      RoundAtLeast(m, Pow2(23));
      Pow2Grows(24 + s, 23 + t);
    }
  }

  /** Multiples of half a texel below 2^31 are exact. */
  lemma HalfTexelsExact(n: nat)
    requires n < 0x8000_0000 && n % 0x8000 == 0
    ensures RoundNat(n) == n
  {
    Pow2Of32();
    SpacingBelow(n, 7);
    var s := Spacing(n);
    Pow2Sum(15 - s, s);
    Pow2Small();
    assert Pow2(15) == 0x8000;
    var a, b := Pow2(15 - s), Pow2(s);
    var k: nat := n / 0x8000;
    assert n == k * (a * b);
    assert k * (a * b) == b * (k * a) + 0;
    Unique(n, b, k * a, 0);
    NearestBounds(n, b);
  }

  // ------------------------------------------------------------ The scalar loop

  function SWrap(x: int): I32 { Signed(Wrap(x)) }

  /** Conversion toward zero with the sampler's range refusal. */
  function ToInt(f: Float): Option<int> {
    match f
    case Special(_) => None
    case Finite(v) =>
      if -2147483648.0 <= v < 2147483648.0 then Some(if v >= 0.0 then v.Floor else -((-v).Floor)) else None
  }

  /** A row as the sampler has decoded it: descriptor, interpolants in 16.16, and where the pixels will go. */
  datatype Row = Row(base: Word, pitch: Word, maxX: Word, maxY: Word, w: Float, dw: Float, u: I32, v: I32, du: I32, dv: I32,
                     count: nat, out: Word, opaqueTexels: bool)

  /** Negative coordinates become zero, large ones saturate at the limit. */
  function Clamped(x: int, limit: Word): nat {
    var y := if x < 0 then 0 else x;
    if y >= limit then limit else y
  }

  function Texel(r: Row, t: Word): Word { if r.opaqueTexels then Or(t, 0xff00_0000) else t }

  /** The pixels a run of texels becomes. */
  function Mapped(r: Row, p: seq<Word>): (m: seq<Word>)
    ensures |m| == |p| && forall i :: 0 <= i < |p| ==> m[i] == Texel(r, p[i])
  {
    seq(|p|, i requires 0 <= i < |p| => Texel(r, p[i]))
  }

  lemma MappedStep(r: Row, p: seq<Word>, k: nat)
    requires k < |p|
    ensures Mapped(r, p[k..]) == [Texel(r, p[k])] + Mapped(r, p[k + 1..])
  {
    hide Texel;
  }

  function Address(r: Row, x: nat, y: nat): nat { r.base + r.pitch * (y / 0x1_0000) + x / 0x1_0000 * 4 }

  predicate Refused(r: Row, address: nat) {
    address + 3 > 0xffff_ffff || (address < r.out + r.count * 4 && r.out < address + 4)
  }

  type Words32 = Word -> Option<Word>

  /** The instruction-for-instruction loop from pixel `k`. */
  function Scalar(r: Row, k: nat, uk: I32, vk: I32, wk: Float, h: Host, word: Words32): Option<seq<Word>>
    requires k <= r.count
    decreases r.count - k
  {
    if k == r.count then Some([])
    else if wk == Finite(0.0) then None
    else
      var inv := h.recip(wk);
      match (ToInt(h.times(Finite(Round32(uk) as real), inv)), ToInt(h.times(Finite(Round32(vk) as real), inv)))
      case (None, _) => None
      case (_, None) => None
      case (Some(x), Some(y)) =>
        var address := Address(r, Clamped(x, r.maxX), Clamped(y, r.maxY));
        if Refused(r, address) then None
        else
          match word(address)
          case None => None
          case Some(t) => Prepended([Texel(r, t)], Scalar(r, k + 1, SWrap(uk + r.du), SWrap(vk + r.dv), h.plus(wk, r.dw), h, word))
  }

  function Prepended(s: seq<Word>, rest: Option<seq<Word>>): Option<seq<Word>> {
    match rest case None => None case Some(t) => Some(s + t)
  }

  // ------------------------------------------------------------ The shortcuts

  /** One texel per pixel along one texture row: the source address if the row qualifies. */
  function IdentityRow(r: Row): Option<Word> {
    if r.count == 0 || r.w != Finite(1.0) || r.dw != Finite(0.0) || r.du != 65536 || r.dv != 0 || r.u < 0 || r.v < 0
       || r.u % 0x8000 != 0 || r.v % 0x8000 != 0 then None
    else
      var last := r.u + (r.count - 1) * 65536;
      if last > 0x7fff_ffff || last >= r.maxX || r.v >= r.maxY then None
      else
        var address := Address(r, r.u, r.v);
        var bytes := r.count * 4;
        if address + bytes > 0x1_0000_0000 || (address < r.out + bytes && r.out < address + bytes) then None
        else Some(address)
  }

  /** Every pixel in one texel. */
  function ConstantRow(r: Row): Option<Word> {
    if r.count == 0 || r.w != Finite(1.0) || r.dw != Finite(0.0) || r.u < 0 || r.v < 0 || r.du < 0 || r.dv < 0 then None
    else
      var lastU, lastV := r.u + (r.count - 1) * r.du, r.v + (r.count - 1) * r.dv;
      if lastU > 0x7fff_ffff || lastV > 0x7fff_ffff then None
      else
        var x0, y0 := ToInt(Finite(Round32(r.u) as real)), ToInt(Finite(Round32(r.v) as real));
        var x1, y1 := ToInt(Finite(Round32(lastU) as real)), ToInt(Finite(Round32(lastV) as real));
        if x0.None? || y0.None? || x1.None? || y1.None? || x0.value < 0 || y0.value < 0
           || x0.value / 0x1_0000 != x1.value / 0x1_0000 || y0.value / 0x1_0000 != y1.value / 0x1_0000
           || x1.value >= r.maxX || y1.value >= r.maxY then None
        else
          var address := Address(r, x0.value, y0.value);
          if address + 4 > 0x1_0000_0000 || (address < r.out + r.count * 4 && r.out < address + 4) then None
          else Some(address)
  }

  lemma IntegerConverts(n: int)
    ensures ToInt(Finite(n as real)) == if -0x8000_0000 <= n < 0x8000_0000 then Some(n) else None
  {
    if n >= 0 {
      assert (n as real).Floor == n;
    } else {
      assert -(n as real) == (-n) as real;
      assert ((-n) as real).Floor == -n;
    }
  }

  /** With w one, a pixel's coordinates are its rounded fixed-point values. */
  lemma PixelAtOne(r: Row, k: nat, uk: I32, vk: I32, h: Host, word: Words32)
    requires HostOk(h) && k < r.count && r.dw == Finite(0.0) && 0 <= uk && 0 <= vk
    requires Round32(uk) < 0x8000_0000 && Round32(vk) < 0x8000_0000
    ensures var address := Address(r, Clamped(Round32(uk), r.maxX), Clamped(Round32(vk), r.maxY));
            Scalar(r, k, uk, vk, Finite(1.0), h, word)
            == if Refused(r, address) then None
               else match word(address)
                    case None => None
                    case Some(t) => Prepended([Texel(r, t)], Scalar(r, k + 1, SWrap(uk + r.du), SWrap(vk + r.dv), Finite(1.0), h, word))
  {
    hide RoundNat, Clamped, Address, Refused, Texel, ToInt, SWrap;
    IntegerConverts(Round32(uk));
    IntegerConverts(Round32(vk));
  }

  lemma NoWrap(x: int)
    requires 0 <= x < 0x8000_0000
    ensures SWrap(x) == x
  {
  }

  /** A reader's bulk reads, where they succeed, agree with its word reads. */
  ghost predicate Consistent(word: Words32, bulk: (Word, nat) -> Option<seq<Word>>) {
    forall a: Word, n: nat :: bulk(a, n).Some? ==> Agreeing(word, a, n, bulk(a, n).value)
  }

  ghost predicate Agreeing(word: Words32, a: Word, n: nat, p: seq<Word>) {
    |p| == n && a + 4 * n <= 0x1_0000_0000 && forall k :: 0 <= k < n ==> word(a + 4 * k) == Some(p[k])
  }

  lemma IdentityPixel(r: Row, k: nat)
    requires IdentityRow(r).Some? && k < r.count
    ensures var uk := r.u + 65536 * k;
            && 0 <= uk < 0x8000_0000 && Round32(uk) == uk && Round32(r.v) == r.v
            && Address(r, Clamped(uk, r.maxX), Clamped(r.v, r.maxY)) == IdentityRow(r).value + 4 * k
            && !Refused(r, IdentityRow(r).value + 4 * k) && IdentityRow(r).value + 4 * k < 0x1_0000_0000
  {
    hide RoundNat;
    var uk: int := r.u + 65536 * k;
    assert uk % 0x8000 == 0 by {
      HalfTexelStep(r.u, k);
    }
    HalfTexelsExact(uk);
    HalfTexelsExact(r.v);
    assert uk / 0x1_0000 == r.u / 0x1_0000 + k;
  }

  lemma HalfTexelStep(u: int, k: nat)
    requires u % 0x8000 == 0
    ensures (u + 65536 * k) % 0x8000 == 0
  {
    var q := u / 0x8000;
    assert u + 65536 * k == 0x8000 * (q + 2 * k);
  }

  lemma MappedNothing(r: Row, p: seq<Word>)
    ensures Mapped(r, p[|p|..]) == []
  {
  }

  /** The identity shortcut reads exactly the texels the scalar loop would, which would not have refused. */
  lemma {:induction false} IdentityIsScalar(r: Row, k: nat, h: Host, word: Words32, p: seq<Word>)
    requires HostOk(h) && IdentityRow(r).Some? && Agreeing(word, IdentityRow(r).value, r.count, p) && k < r.count
    ensures -0x8000_0000 <= r.u + 65536 * k < 0x8000_0000
    ensures Scalar(r, k, r.u + 65536 * k, r.v, Finite(1.0), h, word) == Some(Mapped(r, p[k..]))
    decreases r.count - k
  {
    hide Round32, Clamped, Address, Refused, Texel, IdentityRow, HostOk, Mapped, SWrap;
    IdentityPixel(r, k);
    IdentityShape(r);
    var uk: int := r.u + 65536 * k;
    PixelAtOne(r, k, uk, r.v, h, word);
    assert word(IdentityRow(r).value + 4 * k) == Some(p[k]);
    NoWrap(r.v);
    MappedStep(r, p, k);
    if k + 1 < r.count {
      IdentityPixel(r, k + 1);
      NoWrap(uk + 65536);
      IdentityIsScalar(r, k + 1, h, word, p);
    } else {
      MappedNothing(r, p);
    }
  }

  lemma IdentityShape(r: Row)
    requires IdentityRow(r).Some?
    ensures r.du == 65536 && r.dv == 0 && r.w == Finite(1.0) && r.dw == Finite(0.0) && 0 <= r.u && 0 <= r.v && r.count > 0
  {
  }

  lemma ConstantShape(r: Row)
    requires ConstantRow(r).Some?
    ensures r.w == Finite(1.0) && r.dw == Finite(0.0) && 0 <= r.u && 0 <= r.v && 0 <= r.du && 0 <= r.dv && r.count > 0
    ensures r.u + (r.count - 1) * r.du <= 0x7fff_ffff && r.v + (r.count - 1) * r.dv <= 0x7fff_ffff
  {
  }

  lemma Between(start: int, step: int, k: nat, n: nat)
    requires step >= 0 && k <= n
    ensures start <= start + k * step <= start + n * step
  {
    MulMono(step, k, n);
    assert step * k == k * step && step * n == n * step && k * step >= 0;
  }

  lemma QuotientBetween(a: int, b: int, c: int)
    requires a <= b <= c && a / 0x1_0000 == c / 0x1_0000
    ensures b / 0x1_0000 == a / 0x1_0000
  {
  }

  lemma ConstantPixel(r: Row, k: nat)
    requires ConstantRow(r).Some? && k < r.count
    ensures var uk, vk := r.u + k * r.du, r.v + k * r.dv;
            && 0 <= uk < 0x8000_0000 && 0 <= vk < 0x8000_0000
            && Round32(uk) < 0x8000_0000 && Round32(vk) < 0x8000_0000
            && Address(r, Clamped(Round32(uk), r.maxX), Clamped(Round32(vk), r.maxY)) == ConstantRow(r).value
            && !Refused(r, ConstantRow(r).value)
  {
    hide RoundNat, ToInt;
    ConstantShape(r);
    Between(r.u, r.du, k, r.count - 1);
    Between(r.v, r.dv, k, r.count - 1);
    var uk, vk := r.u + k * r.du, r.v + k * r.dv;
    var lastU, lastV := r.u + (r.count - 1) * r.du, r.v + (r.count - 1) * r.dv;
    RoundMono(r.u, uk);
    RoundMono(uk, lastU);
    RoundMono(r.v, vk);
    RoundMono(vk, lastV);
    IntegerConverts(RoundNat(r.u));
    IntegerConverts(RoundNat(r.v));
    IntegerConverts(RoundNat(lastU));
    IntegerConverts(RoundNat(lastV));
    QuotientBetween(RoundNat(r.u), RoundNat(uk), RoundNat(lastU));
    QuotientBetween(RoundNat(r.v), RoundNat(vk), RoundNat(lastV));
  }

  /** The constant shortcut reads the one texel every pixel of the scalar loop would read. */
  lemma {:induction false} ConstantIsScalar(r: Row, k: nat, h: Host, word: Words32, p: seq<Word>)
    requires HostOk(h) && ConstantRow(r).Some? && k < r.count == |p| && forall i :: 0 <= i < |p| ==> word(ConstantRow(r).value) == Some(p[i])
    ensures -0x8000_0000 <= r.u + k * r.du < 0x8000_0000 && -0x8000_0000 <= r.v + k * r.dv < 0x8000_0000
    ensures Scalar(r, k, r.u + k * r.du, r.v + k * r.dv, Finite(1.0), h, word) == Some(Mapped(r, p[k..]))
    decreases r.count - k
  {
    hide Round32, Clamped, Address, Refused, Texel, ConstantRow, HostOk, Mapped, SWrap;
    ConstantPixel(r, k);
    ConstantShape(r);
    var uk: int, vk: int := r.u + k * r.du, r.v + k * r.dv;
    PixelAtOne(r, k, uk, vk, h, word);
    MappedStep(r, p, k);
    if k + 1 < r.count {
      ConstantPixel(r, k + 1);
      OneMore(k, r.du);
      OneMore(k, r.dv);
      NoWrap(uk + r.du);
      NoWrap(vk + r.dv);
      ConstantIsScalar(r, k + 1, h, word, p);
    } else {
      MappedNothing(r, p);
    }
  }

  lemma OneMore(k: int, d: int)
    ensures (k + 1) * d == k * d + d
  {
  }

  // ------------------------------------------------------------ The sampler

  /** The general loop. */
  method SampleScalar(r: Row, h: Host, word: Words32) returns (pixels: Option<seq<Word>>)
    ensures pixels == Scalar(r, 0, r.u, r.v, r.w, h, word)
  {
    hide ToInt, Round32, Clamped, Address, Refused, Texel, SWrap;
    var done: seq<Word> := [];
    var k, wk := 0, r.w;
    var uk: I32, vk: I32 := r.u, r.v;
    ghost var all := Scalar(r, 0, r.u, r.v, r.w, h, word);
    PrependedNothing(all);
    while k < r.count
      invariant 0 <= k <= r.count && all == Prepended(done, Scalar(r, k, uk, vk, wk, h, word))
    {
      if wk == Finite(0.0) {
        return None;
      }
      var inv := h.recip(wk);
      var x, y := ToInt(h.times(Finite(Round32(uk) as real), inv)), ToInt(h.times(Finite(Round32(vk) as real), inv));
      if x.None? || y.None? {
        return None;
      }
      var address := Address(r, Clamped(x.value, r.maxX), Clamped(y.value, r.maxY));
      if Refused(r, address) {
        return None;
      }
      InRange(r, address);
      var texel := word(address);
      if texel.None? {
        return None;
      }
      ghost var rest := Scalar(r, k + 1, SWrap(uk + r.du), SWrap(vk + r.dv), h.plus(wk, r.dw), h, word);
      PrependedTwice(done, [Texel(r, texel.value)], rest);
      done := done + [Texel(r, texel.value)];
      k, uk, vk, wk := k + 1, SWrap(uk + r.du), SWrap(vk + r.dv), h.plus(wk, r.dw);
    }
    assert done + [] == done;
    return Some(done);
  }

  lemma InRange(r: Row, address: nat)
    requires !Refused(r, address)
    ensures address < 0x1_0000_0000
  {
  }

  lemma PrependedNothing(rest: Option<seq<Word>>)
    ensures Prepended([], rest) == rest
  {
    if rest.Some? {
      assert [] + rest.value == rest.value;
    }
  }

  lemma PrependedTwice(a: seq<Word>, b: seq<Word>, rest: Option<seq<Word>>)
    ensures Prepended(a, Prepended(b, rest)) == Prepended(a + b, rest)
  {
    if rest.Some? {
      assert a + (b + rest.value) == (a + b) + rest.value;
    }
  }

  /** The sampler with its shortcuts returns what the general loop returns, pixel for pixel, refusal for refusal. */
  method SampleNearest(r: Row, h: Host, word: Words32, bulk: (Word, nat) -> Option<seq<Word>>, root: bool) returns (pixels: Option<seq<Word>>)
    requires HostOk(h) && Consistent(word, bulk)
    ensures pixels == Scalar(r, 0, r.u, r.v, r.w, h, word)
  {
    hide Scalar, IdentityRow, ConstantRow, Texel, HostOk, Consistent, Agreeing;
    if r.count == 0 {
      EmptyRow(r, h, word);
      return Some([]);
    }
    var identity := IdentityRow(r);
    if identity.Some? {
      var block := bulk(identity.value, r.count);
      if block.Some? {
        BulkAgrees(word, bulk, identity.value, r.count);
        IdentityShape(r);
        IdentityIsScalar(r, 0, h, word, block.value);
        assert block.value[0..] == block.value;
        var out := TexelsOf(r, block.value);
        return Some(out);
      }
    }
    if root {
      var constant := ConstantRow(r);
      if constant.Some? {
        var texel := word(constant.value);
        if texel.Some? {
          ConstantShape(r);
          ghost var p := seq(r.count, i => texel.value);
          ConstantIsScalar(r, 0, h, word, p);
          var t := Texel(r, texel.value);
          assert p[0..] == p && seq(r.count, i => t) == Mapped(r, p);
          return Some(seq(r.count, i => t));
        }
      }
    }
    pixels := SampleScalar(r, h, word);
  }

  lemma EmptyRow(r: Row, h: Host, word: Words32)
    requires r.count == 0
    ensures Scalar(r, 0, r.u, r.v, r.w, h, word) == Some([])
  {
  }

  lemma BulkAgrees(word: Words32, bulk: (Word, nat) -> Option<seq<Word>>, a: Word, n: nat)
    requires Consistent(word, bulk) && bulk(a, n).Some?
    ensures Agreeing(word, a, n, bulk(a, n).value) && |bulk(a, n).value| == n
  {
  }

  method TexelsOf(r: Row, p: seq<Word>) returns (out: seq<Word>)
    requires |p| == r.count
    ensures out == Mapped(r, p)
  {
    hide Texel;
    out := [];
    for k := 0 to |p|
      invariant |out| == k && forall i :: 0 <= i < k ==> out[i] == Texel(r, p[i])
    {
      out := out + [Texel(r, p[k])];
    }
  }
}
