/** What the VFP data handlers compute, instruction by instruction of the host. */
module VfpHost {
  import opened Words
  import opened Encodings

  // ------------------------------------------------------------ The compare handler

  /** LSL past the sign and exponent, then CBZ. */
  predicate FracBitsSet(f: Format, x: nat) {
    x * Pow2(Bits(f) - FracBits(f)) % Pow2(Bits(f)) != 0
  }

  predicate HostNan(f: Format, x: nat) {
    Expo(f, x) == ExpCodes(f) - 1 && FracBitsSet(f, x)
  }

  predicate QuietBit(f: Format, x: nat) { On(x, FracBits(f) - 1) }

  /** FZ: a denormal operand becomes a zero of its sign and sets IDC. */
  function HostFlush(f: Format, x: nat, fpscr: Word): (nat, Word) {
    if Expo(f, x) != 0 || !FracBitsSet(f, x) then (x, fpscr)
    else (Logic(AND, x, SignUnit(f), Bits(f)), Or(fpscr, 0x80))
  }

  /** ASR to the sign, ORR the sign bit, EOR: an unsigned key in the order of the encoded values. */
  function HostKey(f: Format, x: nat): nat {
    var spread := if Minus(f, x) then Pow2(Bits(f)) - 1 else 0;
    Logic(XOR, x, Logic(OR, spread, SignUnit(f), Bits(f)), Bits(f))
  }

  /** N, Z, C and V as the top four bits. */
  function HostOrder(f: Format, a: nat, b: nat): nat {
    if a == b then 6
    else if 2 * a % Pow2(Bits(f)) == 0 && 2 * b % Pow2(Bits(f)) == 0 then 6
    else if HostKey(f, a) < HostKey(f, b) then 8
    else 2
  }

  /** The compare handler from its operands and FPSCR to the new FPSCR; `always` is the E form. */
  function HostCompare(f: Format, a0: nat, b0: nat, always: bool, fpscr: Word): Word {
    var fz := On(fpscr, 24);
    var (a, s1) := if fz then HostFlush(f, a0, fpscr) else (a0, fpscr);
    var (b, s2) := if fz then HostFlush(f, b0, s1) else (b0, s1);
    var nan := HostNan(f, a) || HostNan(f, b);
    var signalling := (HostNan(f, a) && !QuietBit(f, a)) || (HostNan(f, b) && !QuietBit(f, b));
    var s3 := if nan && (always || signalling) then Or(s2, 1) else s2;
    var flags := if nan then 3 else HostOrder(f, a, b);
    Or(And(s3, 0x0fff_ffff), flags * 0x1000_0000)
  }

  // ------------------------------------------------------------ The widening handler

  /** Leading zeros among `n` bits. */
  function Clz(x: nat, n: nat): (k: nat)
    ensures k <= n
  {
    if n == 0 || x >= Pow2(n - 1) then 0 else 1 + Clz(x, n - 1)
  }

  function Or64(x: nat, y: nat): nat { Logic(OR, x, y, 64) }

  /** A 64-bit left shift that loses nothing. */
  function Lsl64(x: nat, n: nat): nat { x * Pow2(n) }

  /** Sign, exponent and fraction moved into place and joined. */
  function Joined(s: nat, e: nat, g: nat): nat { Or64(Or64(Lsl64(s, 63), Lsl64(e, 52)), g) }

  function And64(x: nat, y: nat): nat { Logic(AND, x, y, 64) }

  /** Normalising a subnormal: CLZ gives the shift and the exponent. */
  function WidenSubnormal(s: nat, g: nat): nat {
    var k := Clz(g, 32);
    Joined(s, 905 - k, And64(Lsl64(g, k + 21), 0xf_ffff_ffff_ffff))
  }

  /** Quieting a NaN, then the default NaN or the payload. */
  function WidenNan(s: nat, g: Word, fpscr: Word): (nat, Word) {
    var w := if On(g, 22) then fpscr else Or(fpscr, 1);
    var q := if On(g, 22) then g else Or(g, 0x40_0000);
    (if On(w, 25) then 0x7ff8_0000_0000_0000 else Joined(s, 0x7ff, Lsl64(q, 29)), w)
  }

  /** The widening handler from operand and FPSCR to result and FPSCR. */
  function HostWiden(x: Word, fpscr: Word): (nat, Word) {
    var s, e, g := x / 0x8000_0000, x / 0x80_0000 % 0x100, And(x, 0x7f_ffff);
    if e == 0 then
      if g == 0 then (Lsl64(s, 63), fpscr)
      else if On(fpscr, 24) then (Lsl64(s, 63), Or(fpscr, 0x80))
      else (WidenSubnormal(s, g), fpscr)
    else if e == 0xff then
      if g == 0 then (Or64(Lsl64(s, 63), 0x7ff0_0000_0000_0000), fpscr) else WidenNan(s, g, fpscr)
    else (Joined(s, e + 896, Lsl64(g, 29)), fpscr)
  }
}
