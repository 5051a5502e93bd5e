/** Little-endian order: data loads, stores, instruction fetch and texel reads are one byte sum. */
module ByteOrder {
  import opened Words
  import opened Fields
  import Machine
  import Program
  import Chain
  import RectRoot
  import TexelReads
  import DeviceTree

  /** The widths a data access has. */
  predicate AccessWidth(w: nat) { w == 1 || w == 2 || w == 4 }

  lemma LoadOpens(s: seq<Byte>, at: nat)
    ensures at + 1 <= |s| ==> Chain.LoadLe(s, at, 1) == s[at] as int
    ensures at + 2 <= |s| ==> Chain.LoadLe(s, at, 2) == s[at] as int + 0x100 * s[at + 1] as int
    ensures at + 4 <= |s| ==> Chain.LoadLe(s, at, 4)
                              == s[at] as int + 0x100 * (s[at + 1] as int + 0x100 * (s[at + 2] as int + 0x100 * s[at + 3] as int))
  {
    if at + 4 <= |s| {
      assert Chain.LoadLe(s, at + 3, 1) == s[at + 3] as int;
      assert Chain.LoadLe(s, at + 2, 2) == s[at + 2] as int + 0x100 * Chain.LoadLe(s, at + 3, 1);
      assert Chain.LoadLe(s, at + 1, 3) == s[at + 1] as int + 0x100 * Chain.LoadLe(s, at + 2, 2);
      assert Chain.LoadLe(s, at, 4) == s[at] as int + 0x100 * Chain.LoadLe(s, at + 1, 3);
    }
    if at + 2 <= |s| {
      assert Chain.LoadLe(s, at + 1, 1) == s[at + 1] as int;
    }
  }

  /** A data load of any width is the sum of its bytes, the lowest address weighing least. */
  lemma LoadIsLe(ram: seq<Byte>, a: nat, w: nat)
    requires AccessWidth(w) && a + w <= |ram|
    ensures Machine.LoadBytes(ram, a, w) == Chain.LoadLe(ram, a, w)
  {
    hide Chain.LoadLe;
    LoadOpens(ram, a);
  }

  /** An instruction is fetched as a data load of its width would read it. */
  lemma FetchIsLoad(bytes: seq<Byte>, at: nat, thumb: bool)
    requires at + Program.Width(thumb) <= |bytes|
    ensures Program.ReadLe(bytes, at, thumb) == Machine.LoadBytes(bytes, at, Program.Width(thumb)) == Chain.LoadLe(bytes, at, Program.Width(thumb))
  {
    hide Chain.LoadLe;
    LoadOpens(bytes, at);
  }

  /** Texels, guest structures and device-tree words are read in the same order. */
  lemma OtherReadsAreLe(b: seq<Byte>, at: nat)
    requires at + 4 <= |b|
    ensures TexelReads.WordOf(b[at..at + 4]) == Chain.LoadLe(b, at, 4)
    ensures DeviceTree.Ld32(b, at) == Chain.LoadLe(b, at, 4)
  {
    hide Chain.LoadLe;
    LoadOpens(b, at);
  }

  lemma {:induction false} FieldIsLe(b: seq<Byte>)
    ensures RectRoot.Le(b) == Chain.LoadLe(b, 0, |b|)
  {
    if b != [] {
      FieldIsLe(b[1..]);
      Shift(b, 1, |b| - 1);
    }
  }

  lemma {:induction false} Shift(b: seq<Byte>, at: nat, n: nat)
    requires 0 < at && at + n <= |b|
    ensures Chain.LoadLe(b[1..], at - 1, n) == Chain.LoadLe(b, at, n)
    decreases n
  {
    if n > 0 {
      Shift(b, at + 1, n - 1);
    }
  }

  /** What a store leaves: byte `k` of the value at the `k`-th address, and nothing else changed. */
  lemma StoredBytes(ram: seq<Byte>, a: nat, w: nat, v: Word, k: nat)
    requires AccessWidth(w) && a + w <= |ram| && k < |ram|
    ensures Machine.StoreBytes(ram, a, w, v)[k] == if a <= k < a + w then Field(v, 8 * (k - a), 8) else ram[k]
  {
    Pow2Small();
    if a <= k < a + w {
      FieldOf(v, 8 * (k - a), 8);
    }
  }

  /** Loading what was stored gives the value modulo two to the number of bits stored. */
  lemma LoadStored(ram: seq<Byte>, a: nat, w: nat, v: Word)
    requires AccessWidth(w) && a + w <= |ram|
    ensures Machine.LoadBytes(Machine.StoreBytes(ram, a, w, v), a, w) == v % Pow2(8 * w)
  {
    Pow2Small();
    Pow2Of32();
    var b0, b1, b2, b3 := v % 0x100, v / 0x100 % 0x100, v / 0x1_0000 % 0x100, v / 0x100_0000;
    FourBytes(v);
  }

  lemma FourBytes(v: Word)
    ensures v == v % 0x100 + 0x100 * (v / 0x100 % 0x100) + 0x1_0000 * (v / 0x1_0000 % 0x100) + 0x100_0000 * (v / 0x100_0000)
    ensures v % 0x1_0000 == v % 0x100 + 0x100 * (v / 0x100 % 0x100)
  {
    var q1: int, q2: int := v / 0x100, v / 0x1_0000;
    assert v == 0x100 * q1 + v % 0x100 && q1 == 0x100 * (q1 / 0x100) + q1 % 0x100;
    assert q2 == 0x100 * (q2 / 0x100) + q2 % 0x100;
    assert q1 / 0x100 == q2 && q2 / 0x100 == v / 0x100_0000;
  }
}
