/** Packed-lane pixel arithmetic against four separate channels. */
module Lanes {
  import opened Words
  import opened Shifter
  import opened VfpFormat

  /** The four channels of a packed pixel, lowest byte first. */
  function Channel(x: Word, i: nat): Byte
    requires i < 4
  {
    match i
    case 0 => x % 0x100
    case 1 => x / 0x100 % 0x100
    case 2 => x / 0x1_0000 % 0x100
    case _ => x / 0x100_0000
  }

  function Packed(c0: Byte, c1: Byte, c2: Byte, c3: Byte): Word {
    c0 as int + 0x100 * c1 as int + 0x1_0000 * c2 as int + 0x100_0000 * c3 as int
  }

  lemma PackedChannels(c0: Byte, c1: Byte, c2: Byte, c3: Byte)
    ensures var p := Packed(c0, c1, c2, c3);
            Channel(p, 0) == c0 && Channel(p, 1) == c1 && Channel(p, 2) == c2 && Channel(p, 3) == c3
  {
    var p: int := Packed(c0, c1, c2, c3);
    var x3: int := c3;
    var x2: int := c2 as int + 0x100 * x3;
    var x1: int := c1 as int + 0x100 * x2;
    Unique(p, 0x100, x1, c0 as int);
    Unique(p, 0x1_0000, x2, c0 as int + 0x100 * c1 as int);
    Unique(p, 0x100_0000, x3, c0 as int + 0x100 * c1 as int + 0x1_0000 * c2 as int);
    Unique(x1, 0x100, x2, c1 as int);
    Unique(x2, 0x100, x3, c2 as int);
  }

  lemma ChannelsPack(x: Word)
    ensures x == Packed(Channel(x, 0), Channel(x, 1), Channel(x, 2), Channel(x, 3))
  {
    var q1: int, q2: int := x / 0x100, x / 0x1_0000;
    assert q2 == q1 / 0x100;
    assert x == 0x100 * q1 + x % 0x100;
    assert q1 == 0x100 * q2 + q1 % 0x100;
    assert x / 0x100_0000 == q2 / 0x100;
    assert q2 == 0x100 * (q2 / 0x100) + q2 % 0x100;
  }

  // ------------------------------------------------------------ The source's operations

  const EVEN: Word := 0x00ff_00ff
  const ODD: Word := 0xff00_ff00

  function Ror8(x: Word): Word { Or(x / 0x100, Wrap(x * 0x100_0000)) }

  /** The bilinear helper: two bytes at a time with wrapping multiply and add. */
  function BilinearVertical(top: Word, bottom: Word, weight: nat): Word {
    var even := BilinearPair(And(top, EVEN), And(bottom, EVEN), weight);
    var odd := BilinearPair(And(top / 0x100, EVEN), And(bottom / 0x100, EVEN), weight);
    Or(And(even, EVEN), Wrap(And(odd, EVEN) * 0x100))
  }

  /** Two lanes moved from top towards bottom, modulo the word. */
  function BilinearPair(top: Word, bottom: Word, weight: nat): Word {
    Wrap(top + Wrap(weight * Wrap(bottom as int - top)) / 0x100)
  }

  /** Source over destination, premultiplied. */
  function BlendOver(dst: Word, src: Word): Word {
    var inv: int := 256 - src as int / 0x100_0000;
    var even := Wrap(And(dst, EVEN) * inv);
    var evenScaled := And(Ror8(even), EVEN);
    var odd := Wrap(And(Ror8(dst), EVEN) * inv);
    var oddScaled := And(odd, ODD);
    Wrap(Or(evenScaled, oddScaled) + src)
  }

  /** Texture modulated by colour. */
  function Modulate(texture: Word, color: Word): Word {
    var blue := (texture % 0x100 + 1) * (color % 0x100) / 0x100;
    var green := (texture / 0x100 % 0x100 + 1) * (color / 0x100 % 0x100) / 0x100;
    var red := (texture / 0x1_0000 % 0x100 + 1) * (color / 0x1_0000 % 0x100) / 0x100;
    var alpha := (texture / 0x100_0000 + 1) * (color / 0x100_0000) / 0x100;
    Or(Or(Or(Below256(blue), Below256(green) * 0x100), Below256(red) * 0x1_0000), Below256(alpha) * 0x100_0000)
  }

  function Below256(x: int): Byte { if 0 <= x < 0x100 then x else 0 }

  // ------------------------------------------------------------ Logic on bytes

  function LowBit(op: BitOp, a: nat, b: nat): nat { Num(match op case AND => a == 1 && b == 1 case OR => a == 1 || b == 1 case XOR => (a == 1) != (b == 1)) }

  lemma LogicStep(op: BitOp, x: nat, y: nat, n: nat)
    requires n > 0
    ensures Logic(op, x, y, n) == 2 * Logic(op, x / 2, y / 2, n - 1) + LowBit(op, x % 2, y % 2)
  {
  }

  function Low(x: nat, p: nat): nat
    requires p > 0
  {
    x % p
  }

  function High(x: nat, p: nat): nat
    requires p > 0
  {
    QuotientNat(x, p);
    x / p
  }

  lemma QuotientNat(x: nat, p: nat)
    requires p > 0
    ensures x / p >= 0
  {
  }

  /** A logical operation works on low and high parts separately. */
  lemma {:induction false} LogicSplit(op: BitOp, x: nat, y: nat, k: nat, p: nat, n: nat)
    requires k <= n && p == Pow2(k)
    ensures Logic(op, x, y, n) == Logic(op, Low(x, p), Low(y, p), k) + p * Logic(op, High(x, p), High(y, p), n - k)
    decreases k
  {
    if k == 0 {
      assert Logic(op, Low(x, 1), Low(y, 1), 0) == 0;
    } else {
      var h := Pow2(k - 1);
      assert p == 2 * h;
      hide Logic, Pow2, LowBit, Low, High;
      LogicSplit(op, x / 2, y / 2, k - 1, h, n - 1);
      HalfParts(x, h);
      HalfParts(y, h);
      LogicStep(op, x, y, n);
      LogicStep(op, Low(x, p), Low(y, p), k);
      TwiceProduct(h, Logic(op, High(x, p), High(y, p), n - k));
    }
  }

  lemma TwiceProduct(p: int, z: int)
    ensures 2 * (p * z) == 2 * p * z
  {
  }

  lemma HalfParts(x: nat, p: nat)
    requires p > 0
    ensures Low(x, 2 * p) / 2 == Low(x / 2, p) && Low(x, 2 * p) % 2 == x % 2 && High(x, 2 * p) == High(x / 2, p)
  {
    var h := x / 2;
    DivModFacts(h, p);
    var a, r := h / p, 2 * (h % p) + x % 2;
    TwiceProduct(p, a);
    Unique(x, 2 * p, a, r);
  }

  /** A logical operation on words is the operation on each pair of bytes. */
  lemma LogicBytes(op: BitOp, x: Word, y: Word)
    ensures Logic(op, x, y, 32)
            == Logic(op, Channel(x, 0), Channel(y, 0), 8) + 0x100 * Logic(op, Channel(x, 1), Channel(y, 1), 8)
               + 0x1_0000 * Logic(op, Channel(x, 2), Channel(y, 2), 8) + 0x100_0000 * Logic(op, Channel(x, 3), Channel(y, 3), 8)
  {
    Pow2Small();
    hide Logic, Pow2;
    QuarterQuotients(x);
    QuarterQuotients(y);
    LogicSplit(op, x, y, 8, 0x100, 32);
    LogicSplit(op, x / 0x100, y / 0x100, 8, 0x100, 24);
    LogicSplit(op, x / 0x1_0000, y / 0x1_0000, 8, 0x100, 16);
  }

  lemma QuarterQuotients(x: Word)
    ensures x / 0x100 / 0x100 == x / 0x1_0000 && x / 0x1_0000 / 0x100 == x / 0x100_0000
  {
  }

  lemma ByteMasks(b: Byte)
    ensures Logic(AND, b, 0xff, 8) == b && Logic(AND, b, 0, 8) == 0
    ensures Logic(OR, b, 0, 8) == b && Logic(OR, 0, b, 8) == b
  {
    Pow2Small();
    hide Logic, Pow2;
    AndLow(b, 8, 8);
    AndNothing(b, 8);
    OrNothing(b, 8);
    OrSwap(0, b, 8);
  }

  lemma MaskBytes()
    ensures Channel(EVEN, 0) == 0xff && Channel(EVEN, 1) == 0 && Channel(EVEN, 2) == 0xff && Channel(EVEN, 3) == 0
    ensures Channel(ODD, 0) == 0 && Channel(ODD, 1) == 0xff && Channel(ODD, 2) == 0 && Channel(ODD, 3) == 0xff
  {
  }

  lemma EvenBytes(x: Word)
    ensures And(x, EVEN) == Packed(Channel(x, 0), 0, Channel(x, 2), 0)
    ensures And(x, ODD) == Packed(0, Channel(x, 1), 0, Channel(x, 3))
  {
    LogicBytes(AND, x, EVEN);
    LogicBytes(AND, x, ODD);
    MaskBytes();
    hide Logic;
    ByteMasks(Channel(x, 0));
    ByteMasks(Channel(x, 1));
    ByteMasks(Channel(x, 2));
    ByteMasks(Channel(x, 3));
  }

  /** The one of two bytes that is not zero. */
  function Join(a: Byte, b: Byte): Byte { if a == 0 then b else a }

  lemma OrByte(a: Byte, b: Byte)
    requires a == 0 || b == 0
    ensures Logic(OR, a, b, 8) == Join(a, b)
  {
    ByteMasks(a);
    ByteMasks(b);
  }

  // ------------------------------------------------------------ Bilinear

  /** One channel of a vertical blend. */
  function Lerp(t: int, b: int, weight: nat): int { t + weight * (b - t) / 256 }

  /** The blend lies between its ends. */
  lemma LerpBetween(t: int, b: int, weight: nat)
    requires weight <= 256
    ensures t <= b ==> t <= Lerp(t, b, weight) <= b
    ensures b <= t ==> b <= Lerp(t, b, weight) <= t
  {
    var d := b - t;
    if d >= 0 {
      MulMono(d, weight, 256);
      assert d * weight == weight * d;
      assert weight * d >= 0;
    } else {
      MulMono(-d, weight, 256);
      assert (-d) * weight == -(weight * d);
      assert weight * d <= 0;
    }
  }

  /** Two channels blended at once, borrow and carry and all. */
  lemma PairLerp(t0: Byte, b0: Byte, t2: Byte, b2: Byte, weight: nat)
    requires weight <= 256
    ensures var t, b := Packed(t0, 0, t2, 0), Packed(b0, 0, b2, 0);
            var r := BilinearPair(t, b, weight);
            Channel(r, 0) == Lerp(t0, b0, weight) && Channel(r, 2) == Lerp(t2, b2, weight)
  {
    PairDifference(t0, b0, t2, b2, weight);
    hide Channel, Wrap;
    LerpBetween(t0, b0, weight);
    LerpBetween(t2, b2, weight);
    LerpRange(t0, b0, weight);
    LerpRange(t2, b2, weight);
    PairCore(t0, t2, weight * (b0 as int - t0), weight * (b2 as int - t2));
  }

  lemma LerpRange(t: Byte, b: Byte, weight: nat)
    requires weight <= 256
    ensures -0x1_0000 <= weight * (b as int - t) <= 0x1_0000
  {
    var d := b as int - t;
    MulMono(weight, d, 255);
    MulMono(weight, -255, d);
  }

  lemma PairDifference(t0: Byte, b0: Byte, t2: Byte, b2: Byte, weight: nat)
    ensures var t, b := Packed(t0, 0, t2, 0), Packed(b0, 0, b2, 0);
            Wrap(weight * Wrap(b as int - t)) == Wrap(weight * (b0 as int - t0) + 0x1_0000 * (weight * (b2 as int - t2)))
  {
    hide Wrap;
    var d0: int, d2: int := b0 as int - t0, b2 as int - t2;
    WrapProduct(weight, d0 + 0x1_0000 * d2);
    DistributeLane(weight, d0, d2);
  }

  lemma DistributeLane(w: int, d0: int, d2: int)
    ensures w * (d0 + 0x1_0000 * d2) == w * d0 + 0x1_0000 * (w * d2)
  {
  }

  lemma WrapProduct(w: int, d: int)
    ensures Wrap(w * Wrap(d)) == Wrap(w * d)
  {
    var q: int := d / 0x1_0000_0000;
    assert Wrap(d) == d - 0x1_0000_0000 * q;
    assert w * Wrap(d) == w * d - 0x1_0000_0000 * (w * q);
  }

  lemma PairCore(t0: Byte, t2: Byte, p0: int, p2: int)
    requires 0 <= t0 + p0 / 256 < 256 && 0 <= t2 + p2 / 256 < 256 && -0x1_0000 <= p0 <= 0x1_0000 && -0x1_0000 <= p2 <= 0x1_0000
    ensures var r := Wrap(t0 + 0x1_0000 * t2 as int + Wrap(p0 + 0x1_0000 * p2) / 0x100);
            Channel(r, 0) == t0 + p0 / 256 && Channel(r, 2) == t2 + p2 / 256
  {
    var k := -((p0 + 0x1_0000 * p2) / 0x1_0000_0000);
    WrappedQuotient(p0, p2);
    LaneSum(t0 + p0 / 256, p2 % 256, t2 + p2 / 256, k);
  }

  lemma WrappedQuotient(p0: int, p2: int)
    ensures var s := p0 + 0x1_0000 * p2;
            Wrap(s) / 0x100 == p0 / 256 + 256 * p2 + 0x100_0000 * -(s / 0x1_0000_0000)
  {
    var s := p0 + 0x1_0000 * p2;
    assert s / 256 == p0 / 256 + 256 * p2;
  }

  lemma LaneSum(a: Byte, g: Byte, q: Byte, k: int)
    ensures var r := Wrap(a + 256 * g as int + 0x1_0000 * q as int + 0x100_0000 * k); Channel(r, 0) == a && Channel(r, 2) == q
  {
    var low := a + 256 * g as int + 0x1_0000 * q as int;
    var x := low + 0x100_0000 * k;
    assert Wrap(x) == low + 0x100_0000 * (k % 256);
  }

  /** The packed bilinear blend is the per-channel blend, exactly, for every weight. */
  lemma BilinearIsLerp(top: Word, bottom: Word, weight: nat, i: nat)
    requires weight <= 256 && i < 4
    ensures Channel(BilinearVertical(top, bottom, weight), i) == Lerp(Channel(top, i), Channel(bottom, i), weight)
  {
    hide And, Or, Lerp, Channel, Wrap, Packed, BilinearVertical, BilinearPair;
    EvenBytes(top);
    EvenBytes(bottom);
    EvenBytes(top / 0x100);
    EvenBytes(bottom / 0x100);
    ShiftedChannels(top);
    ShiftedChannels(bottom);
    PairLerp(Channel(top, 0), Channel(bottom, 0), Channel(top, 2), Channel(bottom, 2), weight);
    PairLerp(Channel(top, 1), Channel(bottom, 1), Channel(top, 3), Channel(bottom, 3), weight);
    BilinearJoin(top, bottom, weight);
    var even := BilinearPair(And(top, EVEN), And(bottom, EVEN), weight);
    var odd := BilinearPair(And(top / 0x100, EVEN), And(bottom / 0x100, EVEN), weight);
    PackedChannels(Channel(even, 0), Channel(odd, 0), Channel(even, 2), Channel(odd, 2));
  }

  lemma ShiftedChannels(x: Word)
    ensures Channel(x / 0x100, 0) == Channel(x, 1) && Channel(x / 0x100, 2) == Channel(x, 3)
  {
  }

  lemma BilinearJoin(top: Word, bottom: Word, weight: nat)
    ensures var even := BilinearPair(And(top, EVEN), And(bottom, EVEN), weight);
            var odd := BilinearPair(And(top / 0x100, EVEN), And(bottom / 0x100, EVEN), weight);
            BilinearVertical(top, bottom, weight) == Packed(Channel(even, 0), Channel(odd, 0), Channel(even, 2), Channel(odd, 2))
  {
    hide And, Or, Wrap, Channel, Packed, BilinearPair;
    var even := BilinearPair(And(top, EVEN), And(bottom, EVEN), weight);
    var odd := BilinearPair(And(top / 0x100, EVEN), And(bottom / 0x100, EVEN), weight);
    JoinLanes(even, odd);
  }

  lemma JoinLanes(even: Word, odd: Word)
    ensures Or(And(even, EVEN), Wrap(And(odd, EVEN) * 0x100)) == Packed(Channel(even, 0), Channel(odd, 0), Channel(even, 2), Channel(odd, 2))
  {
    hide Or, And, Channel;
    EvenBytes(even);
    EvenBytes(odd);
    MoveUp(Channel(odd, 0), Channel(odd, 2));
    OrPacked(Channel(even, 0), 0, Channel(even, 2), 0, 0, Channel(odd, 0), 0, Channel(odd, 2));
  }

  lemma MoveUp(c0: Byte, c2: Byte)
    ensures Wrap(Packed(c0, 0, c2, 0) * 0x100) == Packed(0, c0, 0, c2)
  {
  }

  /** Words with no byte in common are joined by or. */
  lemma OrPacked(a0: Byte, a1: Byte, a2: Byte, a3: Byte, b0: Byte, b1: Byte, b2: Byte, b3: Byte)
    requires (a0 == 0 || b0 == 0) && (a1 == 0 || b1 == 0) && (a2 == 0 || b2 == 0) && (a3 == 0 || b3 == 0)
    ensures Or(Packed(a0, a1, a2, a3), Packed(b0, b1, b2, b3)) == Packed(Join(a0, b0), Join(a1, b1), Join(a2, b2), Join(a3, b3))
  {
    hide Channel, Logic, Join;
    PackedChannels(a0, a1, a2, a3);
    PackedChannels(b0, b1, b2, b3);
    LogicBytes(OR, Packed(a0, a1, a2, a3), Packed(b0, b1, b2, b3));
    OrByte(a0, b0);
    OrByte(a1, b1);
    OrByte(a2, b2);
    OrByte(a3, b3);
  }

  // ------------------------------------------------------------ Source over

  predicate Premultiplied(x: Word) {
    forall i :: 0 <= i < 3 ==> Channel(x, i) <= Channel(x, 3)
  }

  /** One channel of source over destination. */
  function Over(d: int, s: int, alpha: int): int { d * (256 - alpha) / 256 + s }

  lemma OverFits(d: Byte, s: Byte, alpha: Byte)
    requires s <= alpha
    ensures 0 <= Over(d, s, alpha) < 256
  {
    var inv := 256 - alpha as int;
    MulMono(inv, d, 255);
    assert inv * d == d * inv && d * inv >= 0;
    assert 255 * inv == 255 * 256 - 255 * alpha;
  }

  lemma RorBytes(x: Word)
    ensures And(Ror8(x), EVEN) == Packed(Channel(x, 1), 0, Channel(x, 3), 0)
  {
    hide And, Or, Channel;
    ChannelsPack(x);
    RorParts(Channel(x, 0), Channel(x, 1), Channel(x, 2), Channel(x, 3));
    OrPacked(Channel(x, 1), Channel(x, 2), Channel(x, 3), 0, 0, 0, 0, Channel(x, 0));
    EvenBytes(Ror8(x));
    PackedChannels(Channel(x, 1), Channel(x, 2), Channel(x, 3), Channel(x, 0));
  }

  lemma RorParts(c0: Byte, c1: Byte, c2: Byte, c3: Byte)
    ensures Packed(c0, c1, c2, c3) / 0x100 == Packed(c1, c2, c3, 0)
    ensures Wrap(Packed(c0, c1, c2, c3) * 0x100_0000) == Packed(0, 0, 0, c0)
  {
    var r: int := Packed(c1, c2, c3, 0);
    var x: int := Packed(c0, c1, c2, c3);
    assert x == 0x100 * r + c0;
    Unique(x, 0x100, r, c0);
    Unique(x * 0x100_0000, 0x1_0000_0000, r, 0x100_0000 * c0 as int);
  }

  /** Two lanes scaled at once do not touch each other. */
  lemma ScaledLanes(c0: Byte, c2: Byte, inv: nat)
    requires inv <= 256
    ensures var r := Wrap(Packed(c0, 0, c2, 0) * inv);
            Channel(r, 1) == c0 as int * inv / 256 && Channel(r, 3) == c2 as int * inv / 256
  {
    var p0, p2 := c0 as int * inv, c2 as int * inv;
    MulMono(inv, c0, 255);
    MulMono(inv, c2, 255);
    assert inv * c0 == p0 && inv * c2 == p2 && 0 <= p0 && 0 <= p2;
    assert Packed(c0, 0, c2, 0) * inv == p0 + 0x1_0000 * p2 by {
      assert (c0 as int + 0x1_0000 * c2 as int) * inv == c0 as int * inv + 0x1_0000 * (c2 as int * inv);
    }
    LaneBytes(p0, p2);
  }

  lemma LaneBytes(p0: int, p2: int)
    requires 0 <= p0 < 0x1_0000 && 0 <= p2 < 0x1_0000
    ensures var r := Wrap(p0 + 0x1_0000 * p2);
            Channel(r, 1) == p0 / 256 && Channel(r, 3) == p2 / 256
  {
    var x, h, l := p0 + 0x1_0000 * p2, p0 / 256, p0 % 256;
    Unique(x, 0x100, h + 0x100 * p2, l);
    Unique(h + 0x100 * p2, 0x100, p2, h);
    Unique(x, 0x100_0000, p2 / 256, p0 + 0x1_0000 * (p2 % 256));
    assert 0 <= x < 0x1_0000_0000;
  }

  /** The blend as one wrapping sum of scaled destination and source, for every source whatever. */
  lemma BlendIsSum(dst: Word, src: Word)
    ensures var a := Channel(src, 3);
            BlendOver(dst, src) == Wrap(Packed(Below256(Over(Channel(dst, 0), 0, a)), Below256(Over(Channel(dst, 1), 0, a)),
                                               Below256(Over(Channel(dst, 2), 0, a)), Below256(Over(Channel(dst, 3), 0, a))) + src)
  {
    hide And, Or, Channel, Ror8, Wrap, Packed;
    var a := Channel(src, 3);
    var inv: int := 256 - a as int;
    EvenBytes(dst);
    RorBytes(dst);
    ScaledLanes(Channel(dst, 0), Channel(dst, 2), inv);
    ScaledLanes(Channel(dst, 1), Channel(dst, 3), inv);
    var even := Wrap(And(dst, EVEN) * inv);
    var odd := Wrap(And(Ror8(dst), EVEN) * inv);
    RorBytes(even);
    EvenBytes(odd);
    OverFits(Channel(dst, 0), 0, a);
    OverFits(Channel(dst, 1), 0, a);
    OverFits(Channel(dst, 2), 0, a);
    OverFits(Channel(dst, 3), 0, a);
    ScaledJoin(And(Ror8(even), EVEN), And(odd, ODD), Channel(even, 1), Channel(odd, 1), Channel(even, 3), Channel(odd, 3));
    TopByte(src);
  }

  lemma TopByte(x: Word)
    ensures Channel(x, 3) == x / 0x100_0000
  {
  }

  lemma ScaledJoin(even: Word, odd: Word, c0: Byte, c1: Byte, c2: Byte, c3: Byte)
    requires even == Packed(c0, 0, c2, 0) && odd == Packed(0, c1, 0, c3)
    ensures Or(even, odd) == Packed(c0, c1, c2, c3)
  {
    OrPacked(c0, 0, c2, 0, 0, c1, 0, c3);
  }

  /** Sums of channels that fit a byte never carry into the next channel. */
  lemma NoCarry(x: Word, y: Word)
    requires forall i :: 0 <= i < 4 ==> Channel(x, i) as int + Channel(y, i) as int < 256
    ensures forall i :: 0 <= i < 4 ==> Channel(Wrap(x + y), i) == Channel(x, i) as int + Channel(y, i) as int
  {
    hide Channel, Packed, Wrap;
    ChannelsPack(x);
    ChannelsPack(y);
    PackedSum(Channel(x, 0), Channel(x, 1), Channel(x, 2), Channel(x, 3), Channel(y, 0), Channel(y, 1), Channel(y, 2), Channel(y, 3));
    PackedChannels(Channel(x, 0) + Channel(y, 0), Channel(x, 1) + Channel(y, 1), Channel(x, 2) + Channel(y, 2), Channel(x, 3) + Channel(y, 3));
  }

  lemma PackedSum(a0: Byte, a1: Byte, a2: Byte, a3: Byte, b0: Byte, b1: Byte, b2: Byte, b3: Byte)
    requires a0 as int + b0 as int < 256 && a1 as int + b1 as int < 256 && a2 as int + b2 as int < 256 && a3 as int + b3 as int < 256
    ensures Wrap(Packed(a0, a1, a2, a3) + Packed(b0, b1, b2, b3)) == Packed(a0 + b0, a1 + b1, a2 + b2, a3 + b3)
  {
  }

  /** For premultiplied sources the packed blend is four separate channel blends. */
  lemma BlendIsOver(dst: Word, src: Word, i: nat)
    requires Premultiplied(src) && i < 4
    ensures Channel(BlendOver(dst, src), i) == Over(Channel(dst, i), Channel(src, i), Channel(src, 3))
  {
    hide *;
    PremultipliedBounds(src);
    var a := Channel(src, 3);
    BlendIsSum(dst, src);
    var c0, c1, c2, c3 := Below256(Over(Channel(dst, 0), 0, a)), Below256(Over(Channel(dst, 1), 0, a)),
                          Below256(Over(Channel(dst, 2), 0, a)), Below256(Over(Channel(dst, 3), 0, a));
    PackedChannels(c0, c1, c2, c3);
    OverSplits(Channel(dst, 0), Channel(src, 0), a);
    OverSplits(Channel(dst, 1), Channel(src, 1), a);
    OverSplits(Channel(dst, 2), Channel(src, 2), a);
    OverSplits(Channel(dst, 3), Channel(src, 3), a);
    NoCarry(Packed(c0, c1, c2, c3), src);
  }

  lemma PremultipliedBounds(src: Word)
    requires Premultiplied(src)
    ensures Channel(src, 0) <= Channel(src, 3) && Channel(src, 1) <= Channel(src, 3) && Channel(src, 2) <= Channel(src, 3)
  {
    hide Channel;
  }

  lemma OverSplits(d: Byte, s: Byte, a: Byte)
    requires s <= a
    ensures Below256(Over(d, 0, a)) as int + s as int == Over(d, s, a) < 256
  {
    OverFits(d, s, a);
    OverFits(d, 0, a);
  }

  /** Premultiplied sources are exactly those blended channel by channel over every destination. */
  lemma BlendExactIffPremultiplied(src: Word)
    ensures Premultiplied(src) <==>
            forall dst: Word, i :: 0 <= i < 4 ==> Channel(BlendOver(dst, src), i) == Over(Channel(dst, i), Channel(src, i), Channel(src, 3))
  {
    hide BlendOver, Channel;
    if Premultiplied(src) {
      forall dst: Word, i | 0 <= i < 4
        ensures Channel(BlendOver(dst, src), i) == Over(Channel(dst, i), Channel(src, i), Channel(src, 3))
      {
        BlendIsOver(dst, src, i);
      }
    } else {
      var white: Word := 0xffff_ffff;
      PackedChannels(255, 255, 255, 255);
      assert white == Packed(255, 255, 255, 255);
      var i :| 0 <= i < 3 && Channel(src, i) > Channel(src, 3);
      WhiteOverflows(Channel(src, i), Channel(src, 3));
      assert Channel(BlendOver(white, src), i) < 256;
    }
  }

  lemma WhiteOverflows(s: Byte, a: Byte)
    requires s > a
    ensures Over(255, s, a) >= 256
  {
  }

  /** Premultiplied over premultiplied stays premultiplied. */
  lemma BlendPremultiplied(dst: Word, src: Word)
    requires Premultiplied(src) && Premultiplied(dst)
    ensures Premultiplied(BlendOver(dst, src))
  {
    hide BlendOver, Channel, Over;
    forall i | 0 <= i < 4
      ensures Channel(BlendOver(dst, src), i) == Over(Channel(dst, i), Channel(src, i), Channel(src, 3))
    {
      BlendIsOver(dst, src, i);
    }
    forall i | 0 <= i < 3
      ensures Over(Channel(dst, i), Channel(src, i), Channel(src, 3)) <= Over(Channel(dst, 3), Channel(src, 3), Channel(src, 3))
    {
      OverMono(Channel(dst, i), Channel(src, i), Channel(dst, 3), Channel(src, 3));
    }
  }

  lemma OverMono(d: Byte, s: Byte, e: Byte, a: Byte)
    requires d <= e && s <= a
    ensures Over(d, s, a) <= Over(e, a, a)
  {
    var inv := 256 - a as int;
    MulMono(inv, d, e);
    assert inv * d == d * inv && inv * e == e * inv;
    DivMono(d * inv, e * inv);
  }

  lemma DivMono(a: int, b: int)
    requires a <= b
    ensures a / 256 <= b / 256
  {
  }

  // ------------------------------------------------------------ Modulation

  function Modulated(t: int, c: int): int { (t + 1) * c / 256 }

  lemma ModulatedFits(t: Byte, c: Byte)
    ensures 0 <= Modulated(t, c) <= c
  {
    MulMono(c, t as int + 1, 256);
    assert c * (t as int + 1) == (t as int + 1) * c && (t as int + 1) * c >= 0;
  }

  /** Modulation is channel by channel. */
  lemma ModulateChannels(texture: Word, color: Word, i: nat)
    requires i < 4
    ensures Channel(Modulate(texture, color), i) == Modulated(Channel(texture, i), Channel(color, i))
  {
    hide Or, Packed;
    ModulatedFits(Channel(texture, 0), Channel(color, 0));
    ModulatedFits(Channel(texture, 1), Channel(color, 1));
    ModulatedFits(Channel(texture, 2), Channel(color, 2));
    ModulatedFits(Channel(texture, 3), Channel(color, 3));
    var c0, c1, c2, c3 := Modulated(Channel(texture, 0), Channel(color, 0)), Modulated(Channel(texture, 1), Channel(color, 1)),
                          Modulated(Channel(texture, 2), Channel(color, 2)), Modulated(Channel(texture, 3), Channel(color, 3));
    JoinFour(c0, c1, c2, c3);
    PackedChannels(c0, c1, c2, c3);
  }

  lemma JoinFour(c0: Byte, c1: Byte, c2: Byte, c3: Byte)
    ensures Or(Or(Or(c0, c1 as int * 0x100), c2 as int * 0x1_0000), c3 as int * 0x100_0000) == Packed(c0, c1, c2, c3)
  {
    hide Or;
    OrPacked(c0, 0, 0, 0, 0, c1, 0, 0);
    OrPacked(c0, c1, 0, 0, 0, 0, c2, 0);
    OrPacked(c0, c1, c2, 0, 0, 0, 0, c3);
  }

  /** Modulating a premultiplied texture by a premultiplied colour gives a premultiplied source, so the blend that follows
      is exact. */
  lemma ModulateThenBlend(texture: Word, color: Word, dst: Word, i: nat)
    requires Premultiplied(texture) && Premultiplied(color) && i < 4
    ensures Premultiplied(Modulate(texture, color))
    ensures var s := Modulated(Channel(texture, i), Channel(color, i));
            var a := Modulated(Channel(texture, 3), Channel(color, 3));
            Channel(BlendOver(dst, Modulate(texture, color)), i) == Over(Channel(dst, i), s, a)
  {
    hide Modulate, BlendOver, Channel;
    forall j | 0 <= j < 4
      ensures Channel(Modulate(texture, color), j) == Modulated(Channel(texture, j), Channel(color, j))
    {
      ModulateChannels(texture, color, j);
    }
    forall j | 0 <= j < 3
      ensures Modulated(Channel(texture, j), Channel(color, j)) <= Modulated(Channel(texture, 3), Channel(color, 3))
    {
      ModulatedMono(Channel(texture, j), Channel(color, j), Channel(texture, 3), Channel(color, 3));
    }
    BlendIsOver(dst, Modulate(texture, color), i);
  }

  lemma ModulatedMono(t: Byte, c: Byte, u: Byte, d: Byte)
    requires t <= u && c <= d
    ensures Modulated(t, c) <= Modulated(u, d)
  {
    MulMono(t as int + 1, c, d);
    MulMono(d, t as int + 1, u as int + 1);
    assert d * (t as int + 1) == (t as int + 1) * d && d * (u as int + 1) == (u as int + 1) * d;
    DivMono((t as int + 1) * c, (u as int + 1) * d);
  }
}
