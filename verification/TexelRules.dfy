/** The sampler's conversions and addresses, said without its own formulas. */
module TexelRules {
  import opened Words
  import opened Lanes
  import S = Sampler

  /** A coordinate becomes the nearest one the texture has. */
  lemma ClampedIsNearest(x: int, limit: Word, y: nat)
    requires y <= limit
    ensures S.Clamped(x, limit) <= limit
    ensures Distance(x, S.Clamped(x, limit)) <= Distance(x, y)
  {
  }

  function Distance(a: int, b: int): nat { if a < b then b - a else a - b }

  /** Rounding to binary32 gives a multiple of the spacing at that magnitude no farther than half a spacing, the even one of two
      equally near. */
  lemma RoundIsNearest(n: nat)
    ensures var p, r := Pow2(S.Spacing(n)), S.Round32(n);
            && r >= 0 && 2 * Distance(n, r) <= p
            && (exists q: nat :: r == q * p && (2 * Distance(n, r) == p ==> q % 2 == 0))
    ensures n < Pow2(24 + S.Spacing(n)) && (S.Spacing(n) > 0 ==> n >= Pow2(23 + S.Spacing(n)))
  {
    S.SpacingBounds(n);
    hide Pow2, S.Spacing;
    var p := Pow2(S.Spacing(n));
    DivModFacts(n, p);
    var q := n / p;
    assert p * q == q * p && (q + 1) * p == q * p + p;
    if 2 * (n % p) < p || (2 * (n % p) == p && q % 2 == 0) {
      assert S.Round32(n) == q * p;
    } else {
      assert S.Round32(n) == (q + 1) * p;
    }
  }

  lemma RoundIsOdd(i: int)
    ensures S.Round32(-i) == -S.Round32(i)
  {
  }

  /** Conversion drops the fraction, toward zero, and refuses exactly what a 32-bit integer cannot hold. */
  lemma ToIntTruncates(v: real)
    ensures var i := S.ToInt(S.Finite(v));
            && (i.Some? <==> -2147483648.0 <= v < 2147483648.0)
            && (i.Some? && v >= 0.0 ==> i.value as real <= v < i.value as real + 1.0)
            && (i.Some? && v < 0.0 ==> i.value as real - 1.0 < v <= i.value as real)
  {
  }

  /** The texel of column `c` and row `l`, wherever inside it a coordinate falls. */
  lemma AddressOfTexel(r: S.Row, c: nat, l: nat, fx: nat, fy: nat)
    requires fx < 0x1_0000 && fy < 0x1_0000
    ensures S.Address(r, c * 0x1_0000 + fx, l * 0x1_0000 + fy) == r.base + r.pitch * l + 4 * c
  {
    assert (c * 0x1_0000 + fx) / 0x1_0000 == c && (l * 0x1_0000 + fy) / 0x1_0000 == l;
  }

  /** A byte the sampler must not read: beyond the address space, or among the pixels being written. */
  predicate Forbidden(r: S.Row, b: nat) { b > 0xffff_ffff || r.out <= b < r.out + r.count * 4 }

  /** A texel is refused exactly if one of its four bytes is forbidden. */
  lemma RefusedBytes(r: S.Row, address: nat)
    requires r.count > 0
    ensures S.Refused(r, address) <==> exists b: nat :: address <= b < address + 4 && Forbidden(r, b)
  {
    if address + 3 > 0xffff_ffff {
      assert Forbidden(r, address + 3);
    } else if address < r.out + r.count * 4 && r.out < address + 4 {
      assert Forbidden(r, if address < r.out then r.out else address);
    }
  }

  lemma {:induction false} OrOnes(x: nat, n: nat)
    ensures Logic(OR, Pow2(n) - 1, x, n) == Pow2(n) - 1
  {
    if n > 0 {
      OrOnes(x / 2, n - 1);
      var ones: int := Pow2(n) - 1;
      assert ones / 2 == Pow2(n - 1) - 1 && ones % 2 == 1;
    }
  }

  lemma OpaqueMask()
    ensures Channel(0xff00_0000, 0) == 0 && Channel(0xff00_0000, 1) == 0 && Channel(0xff00_0000, 2) == 0
    ensures Channel(0xff00_0000, 3) == 0xff
  {
  }

  lemma OpaqueBytes(t: Word)
    ensures Or(t, 0xff00_0000) == Packed(Channel(t, 0), Channel(t, 1), Channel(t, 2), 0xff)
  {
    Pow2Small();
    OpaqueMask();
    OrOnes(Channel(t, 3), 8);
    hide Logic, Channel, Pow2;
    OrSwap(Channel(t, 3), 0xff, 8);
    LogicBytes(OR, t, 0xff00_0000);
    ByteMasks(Channel(t, 0));
    ByteMasks(Channel(t, 1));
    ByteMasks(Channel(t, 2));
  }

  /** An opaque row's pixels keep the texel's colours and have full alpha; others are the texel. */
  lemma TexelChannels(r: S.Row, t: Word)
    ensures forall k :: 0 <= k < 3 ==> Channel(S.Texel(r, t), k) == Channel(t, k)
    ensures Channel(S.Texel(r, t), 3) == if r.opaqueTexels then 0xff else Channel(t, 3)
  {
    if r.opaqueTexels {
      OpaqueBytes(t);
      PackedChannels(Channel(t, 0), Channel(t, 1), Channel(t, 2), 0xff);
    }
  }

  // ------------------------------------------------------------ Pixels one by one

  function UAt(r: S.Row, k: nat): S.I32 { S.SWrap(r.u + k * r.du) }

  function VAt(r: S.Row, k: nat): S.I32 { S.SWrap(r.v + k * r.dv) }

  function WAt(r: S.Row, k: nat, h: S.Host): S.Float {
    if k == 0 then r.w else h.plus(WAt(r, k - 1, h), r.dw)
  }

  /** Pixel `k` by itself: the texel at its coordinates over its `w`, unless there is none. */
  function PixelAt(r: S.Row, k: nat, h: S.Host, word: S.Words32): Option<Word> {
    if WAt(r, k, h) == S.Finite(0.0) then None
    else
      var inv := h.recip(WAt(r, k, h));
      var x := S.ToInt(h.times(S.Finite(S.Round32(UAt(r, k)) as real), inv));
      var y := S.ToInt(h.times(S.Finite(S.Round32(VAt(r, k)) as real), inv));
      if x.None? || y.None? then None
      else
        var address := S.Address(r, S.Clamped(x.value, r.maxX), S.Clamped(y.value, r.maxY));
        if S.Refused(r, address) then None
        else match word(address) case None => None case Some(t) => Some(S.Texel(r, t))
  }

  lemma NextCoordinate(a: int, k: nat, d: int)
    ensures S.SWrap(S.SWrap(a + k * d) as int + d) == S.SWrap(a + (k + 1) * d)
  {
    assert (k + 1) * d == k * d + d;
    WrapSigned(a + k * d, d);
    WrapWrap(a + k * d, d);
  }

  lemma WrapSigned(x: int, d: int)
    ensures Wrap(Signed(Wrap(x)) + d) == Wrap(Wrap(x) as int + d)
  {
    var w: int := Wrap(x);
    assert Wrap(w + d - 0x1_0000_0000) == Wrap(w + d);
  }

  /** Each pixel of the scalar loop depends on its own place only, and a row is refused exactly if one of its pixels is. */
  lemma {:induction false} ScalarIsPixels(r: S.Row, k: nat, h: S.Host, word: S.Words32)
    requires k <= r.count
    ensures var p := S.Scalar(r, k, UAt(r, k), VAt(r, k), WAt(r, k, h), h, word);
            && (p.Some? <==> forall j :: k <= j < r.count ==> PixelAt(r, j, h, word).Some?)
            && (p.Some? ==> |p.value| == r.count - k && forall j :: k <= j < r.count ==> PixelAt(r, j, h, word) == Some(p.value[j - k]))
    decreases r.count - k
  {
    hide S.ToInt, S.Round32, S.Clamped, S.Address, S.Refused, S.Texel, S.SWrap;
    if k < r.count {
      NextCoordinate(r.u, k, r.du);
      NextCoordinate(r.v, k, r.dv);
      ScalarIsPixels(r, k + 1, h, word);
      var rest := S.Scalar(r, k + 1, UAt(r, k + 1), VAt(r, k + 1), WAt(r, k + 1, h), h, word);
      if PixelAt(r, k, h, word).Some? && rest.Some? {
        var p := [PixelAt(r, k, h, word).value] + rest.value;
        forall j | k <= j < r.count
          ensures PixelAt(r, j, h, word) == Some(p[j - k])
        {
        }
      }
    }
  }
}
