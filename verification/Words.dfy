/** Thirty-two-bit words as bounded integers, and the arithmetic the guest and host instruction sets share. */
module Words {
  type Word = x: int | 0 <= x < 0x1_0000_0000
  type Byte = x: int | 0 <= x < 0x100

  /** The processor condition flags. */
  datatype Flags = Flags(n: bool, z: bool, c: bool, v: bool)

  datatype Option<+T> = None | Some(value: T)

  function Wrap(x: int): Word {
    x % 0x1_0000_0000
  }

  function Signed(x: Word): int {
    if x < 0x8000_0000 then x else x - 0x1_0000_0000
  }

  function Num(b: bool): nat {
    if b then 1 else 0
  }

  function Pow2(n: nat): (p: nat)
    ensures p > 0
  {
    if n == 0 then 1 else 2 * Pow2(n - 1)
  }

  lemma Pow2Small()
    ensures Pow2(0) == 1 && Pow2(6) == 64
    ensures Pow2(1) == 2 && Pow2(2) == 4 && Pow2(3) == 8 && Pow2(4) == 16 && Pow2(5) == 32 && Pow2(7) == 128
    ensures Pow2(8) == 256 && Pow2(11) == 2048 && Pow2(12) == 4096 && Pow2(16) == 0x1_0000 && Pow2(24) == 0x100_0000
  {
    assert Pow2(8) == 16 * Pow2(4);
    assert Pow2(12) == 16 * Pow2(8);
    assert Pow2(16) == 16 * Pow2(12);
    assert Pow2(20) == 16 * Pow2(16);
    assert Pow2(24) == 16 * Pow2(20);
  }

  lemma Pow2Of32()
    ensures Pow2(31) == 0x8000_0000 && Pow2(32) == 0x1_0000_0000
  {
    Pow2Small();
    assert Pow2(28) == 16 * Pow2(24);
    assert Pow2(31) == 8 * Pow2(28);
  }

  /** `n` bits of `w` starting at bit `lo`. */
  function Field(w: Word, lo: nat, n: nat): (f: nat)
    ensures f < Pow2(n)
    ensures n == 1 ==> f < 2
    ensures n == 2 ==> f < 4
    ensures n == 3 ==> f < 8
    ensures n == 4 ==> f < 16
    ensures n == 5 ==> f < 32
    ensures n == 7 ==> f < 128
    ensures n == 8 ==> f < 256
    ensures n == 11 ==> f < 2048
    ensures n == 12 ==> f < 4096
    ensures n == 16 ==> f < 65536
    ensures n == 24 ==> f < 0x100_0000
  {
    Pow2Small();
    (w / Pow2(lo)) % Pow2(n)
  }

  predicate Bit(w: Word, i: nat) {
    Field(w, i, 1) == 1
  }

  // Bitwise operations, defined one bit at a time.
  datatype BitOp = AND | OR | XOR

  function Logic(op: BitOp, x: nat, y: nat, n: nat): (r: nat)
    ensures r < Pow2(n)
    decreases n, x
  {
    if n == 0 then 0
    else
      var a, b := x % 2 == 1, y % 2 == 1;
      var bit := match op case AND => a && b case OR => a || b case XOR => a != b;
      2 * Logic(op, x / 2, y / 2, n - 1) + Num(bit)
  }

  function And(x: Word, y: Word): Word {
    Pow2Of32();
    Logic(AND, x, y, 32)
  }

  function Or(x: Word, y: Word): Word {
    Pow2Of32();
    Logic(OR, x, y, 32)
  }

  function Xor(x: Word, y: Word): Word {
    Pow2Of32();
    Logic(XOR, x, y, 32)
  }

  lemma {:induction false} AndNothing(x: nat, n: nat)
    ensures Logic(AND, x, 0, n) == 0
  {
    if n > 0 {
      AndNothing(x / 2, n - 1);
    }
  }

  lemma {:induction false} OrSwap(x: nat, y: nat, n: nat)
    ensures Logic(OR, x, y, n) == Logic(OR, y, x, n)
  {
    if n > 0 {
      OrSwap(x / 2, y / 2, n - 1);
    }
  }

  function Not(x: Word): Word {
    0xffff_ffff - x
  }

  /** The host's adder: every ADDS, ADCS, SUBS and SBCS is this with one operand perhaps complemented. */
  function AddWithCarry(x: Word, y: Word, carry: bool): (r: (Word, Flags)) {
    var sum := x + y + Num(carry);
    var result := Wrap(sum);
    (result, Flags(result >= 0x8000_0000, result == 0, sum != result,
                   Signed(result) != Signed(x) + Signed(y) + Num(carry)))
  }

  lemma SliceOfSlice<T>(s: seq<T>, at: nat, n: nat, a: nat, b: nat)
    requires at + n <= |s| && a <= b <= n
    ensures s[at..at + n][a..b] == s[at + a..at + b]
  {
    var t, u := s[at..at + n][a..b], s[at + a..at + b];
    assert |t| == |u|;
    forall k | 0 <= k < |t|
      ensures t[k] == u[k]
    {
      assert t[k] == s[at..at + n][a + k];
      assert u[k] == s[at + a + k];
      assert s[at..at + n][a + k] == s[at + (a + k)];
    }
  }

  lemma DivModFacts(x: nat, p: nat)
    requires p > 0
    ensures x == p * (x / p) + x % p && 0 <= x % p < p && 0 <= x / p
  {
  }

  lemma AtLeastOnce(p: nat, q: nat)
    requires p > 0
    ensures p * q >= q
  {
    assert (p - 1) * q >= 0;
  }

  lemma MulMono(p: int, a: int, b: int)
    requires p >= 0 && a <= b
    ensures p * a <= p * b
  {
    assert p * (b - a) >= 0;
  }

  lemma WrapWrap(x: int, a: int)
    ensures Wrap(Wrap(x) as int + a) == Wrap(x + a)
  {
  }
}
