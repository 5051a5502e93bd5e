/** Where things stand: cache slots, status flags, the areas of a call frame, and when ranges meet. */
module Layout {
  import opened Words
  import opened Fields
  import opened Encodings
  import Machine
  import opened Shifter
  import opened Spans
  import Lanes
  import Chain
  import DeviceTree
  import Text
  import PayloadTar
  import GuestPatch
  import opened RowShadow
  import opened TexelReads

  /** The cache slot of an address: bits 10 to 14, and for the top bit of the six bit 15, flipped for privileged accesses. */
  lemma SlotBits(va: Word, priv: bool)
    ensures Machine.Slot(va, priv) == Field(va, 10, 5) + 32 * Num(Bit(va, 15) != priv)
  {
    Pow2Small();
    assert Pow2(10) == 4 * Pow2(8) && Pow2(15) == 8 * Pow2(12);
    FieldOf(va, 10, 5);
    FieldOf(va, 15, 1);
    var q: int := va / 0x400;
    assert va / 0x8000 == q / 32;
  }

  /** The exception flags stand in bits 0 to 4 of the status word, in the order IOC, DZC, OFC, UFC, IXC. */
  lemma FlagsStand(e: Raised)
    ensures var w := FlagBits(e);
            (On(w, 0) <==> e.ioc) && (On(w, 1) <==> e.dzc) && (On(w, 2) <==> e.ofc) && (On(w, 3) <==> e.ufc) && (On(w, 4) <==> e.ixc)
  {
    Pow2Small();
    hide Pow2;
    var w: int, r3: int := FlagBits(e), Num(e.ufc) + 2 * Num(e.ixc);
    var r2: int := Num(e.ofc) + 2 * r3;
    var r1: int := Num(e.dzc) + 2 * r2;
    assert w == Num(e.ioc) + 2 * r1;
    assert w / 2 == r1 && w / 4 == r2 && w / 8 == r3 && w / 16 == Num(e.ixc);
  }

  /** The arithmetic unit is asked for the operation on the operands as they stand, and an encoding it gives is the result. */
  lemma UnitAsked(unit: Unit, op: FpOp, f: Format, mode: nat, a: nat, b: nat)
    requires Encoding(f, unit(op, f, mode, a, b).0)
    ensures Compute(unit, op, f, mode, a, b) == unit(op, f, mode, a, b)
  {
    hide Pow2, Bits;
    BelowStays(unit(op, f, mode, a, b).0, Pow2(Bits(f)));
  }

  lemma BelowStays(x: nat, p: nat)
    requires x < p
    ensures x % p == x
  {
  }

  /** Two nonempty ranges overlap exactly if some byte is in both. */
  lemma OverlapIsShared(a: nat, n: nat, b: nat, k: nat)
    requires n > 0 && k > 0
    ensures Overlap(a, n, b, k) <==> exists x: nat :: Within(x, a, n) && Within(x, b, k)
  {
    if Overlap(a, n, b, k) {
      assert Within(if a < b then b else a, a, n) && Within(if a < b then b else a, b, k);
    }
  }

  predicate Within(x: nat, a: nat, n: nat) { a <= x < a + n }

  /** A span contains a nonempty range exactly if it has every byte of it. */
  lemma ContainsIsEvery(s: Span, va: nat, n: nat)
    requires n > 0
    ensures Contains(s, va, n) <==> forall x: nat :: Within(x, va, n) ==> Within(x, s.va, |s.src|)
  {
    if forall x: nat :: Within(x, va, n) ==> Within(x, s.va, |s.src|) {
      assert Within(va, va, n) && Within(va + n - 1, va, n);
    }
  }

  /** A read inside one area of the call frame gives that area's bytes; one outside all three gives none. */
  lemma FrameAreas(f: Frame, o: nat, n: nat)
    requires FrameSized(f)
    ensures o + n <= |f.stack| ==> FrameRead(f, 0x7fff_d000 + o, n) == Some(f.stack[o..o + n])
    ensures o + n <= |f.start| ==> FrameRead(f, 0x7fff_d100 + o, n) == Some(f.start[o..o + n])
    ensures o + n <= |f.delta| ==> FrameRead(f, 0x7fff_d200 + o, n) == Some(f.delta[o..o + n])
    ensures n > 0 && o + n <= 0x7fff_d000 ==> FrameRead(f, o, n) == None
  {
  }

  // ------------------------------------------------------------ Bits of words

  lemma {:induction false} LogicBit(op: BitOp, x: nat, y: nat, n: nat, i: nat)
    requires i < n
    ensures On(Logic(op, x, y, n), i) <==> match op case AND => On(x, i) && On(y, i) case OR => On(x, i) || On(y, i) case XOR => On(x, i) != On(y, i)
    decreases n
  {
    var r := Logic(op, x / 2, y / 2, n - 1);
    var whole := Logic(op, x, y, n);
    assert whole / 2 == r;
    if i == 0 {
      assert Pow2(0) == 1;
    } else {
      LogicBit(op, x / 2, y / 2, n - 1, i - 1);
      HalfBit(whole, i);
      HalfBit(x, i);
      HalfBit(y, i);
    }
  }

  lemma HalfBit(x: nat, i: nat)
    requires i > 0
    ensures On(x, i) <==> On(x / 2, i - 1)
  {
    NestedQuotient(x, 1, i - 1);
    assert Pow2(1) == 2;
  }

  /** The operations on words are those on their bits. */
  lemma WordBits(x: Word, y: Word, i: nat)
    requires i < 32
    ensures On(And(x, y), i) <==> On(x, i) && On(y, i)
    ensures On(Or(x, y), i) <==> On(x, i) || On(y, i)
    ensures On(Xor(x, y), i) <==> On(x, i) != On(y, i)
    ensures On(Not(x), i) <==> !On(x, i)
  {
    hide Logic, On;
    LogicBit(AND, x, y, 32, i);
    LogicBit(OR, x, y, 32, i);
    LogicBit(XOR, x, y, 32, i);
    Pow2Of32();
    NotBit(x, 32, i);
  }

  lemma {:induction false} NotBit(x: nat, n: nat, i: nat)
    requires i < n && x < Pow2(n)
    ensures On(Pow2(n) - 1 - x, i) <==> !On(x, i)
    decreases n
  {
    var y: nat := Pow2(n) - 1 - x;
    assert y / 2 == Pow2(n - 1) - 1 - x / 2;
    if i == 0 {
      assert Pow2(0) == 1;
    } else {
      NotBit(x / 2, n - 1, i - 1);
      HalfBit(x, i);
      HalfBit(y, i);
    }
  }

  /** Channel `i` of a packed pixel is its byte `i`, so the `i`-th byte in memory. */
  lemma ChannelByte(x: Word, i: nat)
    requires i < 4
    ensures Lanes.Channel(x, i) == Field(x, 8 * i, 8)
  {
    Pow2Small();
    FieldOf(x, 8 * i, 8);
  }

  // ------------------------------------------------------------ Slots and padding

  /** Every instruction address of a fetch block has a graph slot of its own. */
  lemma GraphSlotExact(pc: Word, other: Word, base: Word, thumb: bool)
    requires base <= pc < base + Chain.FETCH_BLOCK && base <= other < base + Chain.FETCH_BLOCK
    requires (pc - base) % (if thumb then 2 else 4) == 0 && (other - base) % (if thumb then 2 else 4) == 0
    ensures Chain.GraphSlot(pc, base, thumb) < Chain.GRAPH_SLOTS
    ensures Chain.GraphSlot(pc, base, thumb) == Chain.GraphSlot(other, base, thumb) <==> pc == other
  {
  }

  /** Padding goes up to the next multiple of four in a device tree, and of a block in an archive, and no farther. */
  lemma RoundedUp(n: nat)
    ensures DeviceTree.Round4(n) % 4 == 0 && n <= DeviceTree.Round4(n) < n + 4
    ensures PayloadTar.Rounded(n) % 512 == 0 && n <= PayloadTar.Rounded(n) < n + 512
  {
    RoundedTo(n, 4);
    RoundedTo(n, 512);
  }

  lemma RoundedTo(n: nat, k: nat)
    requires k > 0
    ensures (n + k - 1) / k * k % k == 0 && n <= (n + k - 1) / k * k < n + k
  {
    DivModFacts(n + k - 1, k);
    var q := (n + k - 1) / k;
    assert q * k == k * q;
    MultipleOf(q, k);
  }

  lemma {:induction false} MultipleOf(q: nat, k: nat)
    requires k > 0
    ensures q * k % k == 0
  {
    if q > 0 {
      MultipleOf(q - 1, k);
      assert q * k == (q - 1) * k + k;
      Unique(q * k, k, q, 0);
    }
  }

  /** RAM is somewhere and lies below the top of the address space. */
  lemma RamBelowTop(size: nat, base: nat)
    ensures GuestPatch.GeometryOk(size, base) <==> size > 0 && base + size <= 0x1_0000_0000
  {
  }

  /** A name value names a path component exactly if the component is its text up to the first zero, whether or not one is there. */
  lemma NamesItsText(value: seq<Byte>, component: seq<Byte>)
    requires 0 !in component
    ensures DeviceTree.Names(value, component) <==> Text.CString(value) == component
    decreases |value|
  {
    if value != [] && component != [] && value[0] == component[0] {
      NamesItsText(value[1..], component[1..]);
      assert value == [value[0]] + value[1..] && component == [component[0]] + component[1..];
      var v, c := value[1..], component[1..];
      assert component <= value <==> c <= v;
    }
  }
}
