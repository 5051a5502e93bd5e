/** The VFPv2 unit as the literal interpreter executes it, over an arbitrary IEEE arithmetic unit. */
module ArchVfp {
  import opened Words
  import opened Encodings
  import opened Machine

  // ------------------------------------------------------------ Registers

  function GetD(v: Vfp, n: nat): nat
    requires |v.s| == 32 && n < 16
  {
    v.s[2 * n] as int + 0x1_0000_0000 * v.s[2 * n + 1] as int
  }

  function SetD(v: Vfp, n: nat, x: nat): (w: Vfp)
    requires |v.s| == 32 && n < 16
    ensures |w.s| == 32
  {
    v.(s := v.s[2 * n := x % 0x1_0000_0000][2 * n + 1 := x / 0x1_0000_0000 % 0x1_0000_0000])
  }

  /** Register `n` of a width. */
  function Get(f: Format, v: Vfp, n: nat): nat
    requires |v.s| == 32 && n < (if f == Single then 32 else 16)
  {
    if f == Single then v.s[n] else GetD(v, n)
  }

  function Set(f: Format, v: Vfp, n: nat, x: nat): (w: Vfp)
    requires |v.s| == 32 && n < (if f == Single then 32 else 16)
    ensures |w.s| == 32
  {
    if f == Single then v.(s := v.s[n := x % 0x1_0000_0000]) else SetD(v, n, x)
  }

  /** FPSCR.Len, and Len with the exception trap enables. */
  predicate ShortVectors(fpscr: Word) { On(fpscr, 16) || On(fpscr, 17) || On(fpscr, 18) }

  predicate Trapping(fpscr: Word) {
    On(fpscr, 8) || On(fpscr, 9) || On(fpscr, 10) || On(fpscr, 11) || On(fpscr, 12) || On(fpscr, 15)
  }

  // ------------------------------------------------------------ Arithmetic

  /** What FZ makes of an operand, and its report. */
  function InputDenormal(f: Format, x: nat, fpscr: Word): nat {
    if On(fpscr, 24) && Subnormal(f, x) then 0x80 else 0
  }

  function Magnitude(f: Format, x: nat): nat { x % SignUnit(f) }

  /** A sign-bit flip. */
  function Negate(f: Format, x: nat): nat {
    if Minus(f, x) then Magnitude(f, x) else Magnitude(f, x) + SignUnit(f)
  }

  /** An operation's value, the exception bits it reports, and whether FZ cannot be decided from the rounded result. */
  datatype Rounding = Rounding(x: nat, exc: Word, ambiguous: bool)

  /** FZ on a result: a subnormal becomes a zero of its sign, UFC in place of IXC; an inexact least normal is undecidable. */
  function FlushOut(f: Format, x: nat, exc: Word): Rounding {
    if 0 < Magnitude(f, x) < ExpUnit(f) then
      Rounding(if Minus(f, x) then SignUnit(f) else 0, Or(And(exc, 0xffff_ffef), 8), false)
    else Rounding(x, exc, Magnitude(f, x) == ExpUnit(f) && On(exc, 4))
  }

  function DefaultNan(f: Format): nat { if f == Single then 0x7fc0_0000 else 0x7ff8_0000_0000_0000 }

  /** One rounding step in FPSCR's rounding mode, flush-to-zero and default-NaN modes. */
  function Operate(unit: Unit, op: FpOp, f: Format, a: nat, b: nat, fpscr: Word): Rounding {
    var fz := On(fpscr, 24);
    var (x, e) := Compute(unit, op, f, fpscr / 0x40_0000 % 4, Flushed(f, a, fz), Flushed(f, b, fz));
    var exc := Or(Or(InputDenormal(f, a, fpscr), InputDenormal(f, b, fpscr)), FlagBits(e));
    var r := if fz then FlushOut(f, x, exc) else Rounding(x, exc, false);
    if On(fpscr, 25) && NumberOf(f, r.x) == NaN then r.(x := DefaultNan(f)) else r
  }

  datatype Operation = Vmla | Vmls | Vnmls | Vnmla | Vmul | Vnmul | Vadd | Vsub | Vdiv

  /** The arithmetic group: the multiply-accumulates round the product and then the sum. */
  function Arithmetic(unit: Unit, k: Operation, f: Format, d: nat, n: nat, m: nat, fpscr: Word): Rounding {
    match k
    case Vadd => Operate(unit, FpAdd, f, n, m, fpscr)
    case Vsub => Operate(unit, FpSub, f, n, m, fpscr)
    case Vmul => Operate(unit, FpMul, f, n, m, fpscr)
    case Vnmul => var r := Operate(unit, FpMul, f, n, m, fpscr); r.(x := Negate(f, r.x))
    case Vdiv => Operate(unit, FpDiv, f, n, m, fpscr)
    case _ =>
      var p := Operate(unit, FpMul, f, n, m, fpscr);
      var product := if k == Vmls || k == Vnmla then Negate(f, p.x) else p.x;
      var addend := if k == Vnmla || k == Vnmls then Negate(f, d) else d;
      var r := Operate(unit, FpAdd, f, addend, product, fpscr);
      Rounding(r.x, Or(p.exc, r.exc), p.ambiguous || r.ambiguous)
  }

  /** Opcode bits 23, 21, 20 and 6 select the operation. */
  function OperationOf(group: nat, alt: bool): Option<Operation> {
    match group
    case 0 => Some(if alt then Vmls else Vmla)
    case 1 => Some(if alt then Vnmla else Vnmls)
    case 2 => Some(if alt then Vnmul else Vmul)
    case 3 => Some(if alt then Vsub else Vadd)
    case 4 => if alt then None else Some(Vdiv)
    case _ => None
  }

  /** Three-operand data processing. */
  function ArithmeticInsn(insn: Word, v: Vfp): (w: Option<Vfp>)
    requires |v.s| == 32
    ensures w.Some? ==> |w.value.s| == 32
  {
    var f := if Bit(insn, 8) then Double else Single;
    match OperationOf(4 * Field(insn, 23, 1) + 2 * Field(insn, 21, 1) + Field(insn, 20, 1), Bit(insn, 6))
    case None => None
    case Some(k) =>
      if ShortVectors(v.fpscr) || Trapping(v.fpscr) then None
      else if f == Double && (Bit(insn, 22) || Bit(insn, 7) || Bit(insn, 5)) then None
      else
        var rd, rn, rm := Register(f, Field(insn, 12, 4), Field(insn, 22, 1)), Register(f, Field(insn, 16, 4), Field(insn, 7, 1)),
                          Register(f, Field(insn, 0, 4), Field(insn, 5, 1));
        var r := Arithmetic(v.unit, k, f, Get(f, v, rd), Get(f, v, rn), Get(f, v, rm), v.fpscr);
        if r.ambiguous then None else Some(Set(f, v, rd, r.x).(fpscr := Or(v.fpscr, r.exc)))
  }

  /** A four-bit register field with its extra low bit, or a D register. */
  function Register(f: Format, high: nat, low: nat): (n: nat)
    requires high < 16 && low < 2
    ensures n < if f == Single then 32 else 16
  {
    if f == Single then 2 * high + low else high
  }

  // ------------------------------------------------------------ Compare and widen

  function OrderFlags(o: Ordering): Word {
    match o case Less => 0x8000_0000 case Same => 0x6000_0000 case Greater => 0x2000_0000 case Unordered => 0x3000_0000
  }

  /** FPSCR after comparing the numbers two encodings stand for. */
  function Compared(f: Format, a: nat, b: nat, always: bool, fpscr: Word): Word {
    var fz := On(fpscr, 24);
    var o := Order(NumberOf(f, Flushed(f, a, fz)), NumberOf(f, Flushed(f, b, fz)));
    var idc := Or(InputDenormal(f, a, fpscr), InputDenormal(f, b, fpscr));
    var ioc := if Signalling(f, a) || Signalling(f, b) || (always && o == Unordered) then 1 else 0;
    Or(Or(And(fpscr, 0x0fff_ffff), OrderFlags(o)), Or(idc, ioc))
  }

  /** A double from its fields. */
  function Packed(minus: bool, e: nat, g: nat): nat {
    (if minus then 0x8000_0000_0000_0000 else 0) + e * 0x10_0000_0000_0000 + g
  }

  /** A binary32 significand moved up until its leading bit is the hidden one, the exponent following it down, never as far as
      zero. */
  function Normalized(minus: bool, e: nat, g: nat): nat
    requires 0 < g < 0x100_0000
    decreases 0x100_0000 - g
  {
    if g >= 0x80_0000 || e == 0 then Packed(minus, e, g % 0x80_0000 * 0x2000_0000) else Normalized(minus, e - 1, 2 * g)
  }

  /** A binary32 encoding as the binary64 of the same number, with the exception bits reported. */
  function Widened(x: Word, fpscr: Word): (nat, Word) {
    var m, e, g := Minus(Single, x), Expo(Single, x), x % 0x80_0000;
    if e == 0xff && g != 0 then
      (if On(fpscr, 25) then DefaultNan(Double) else Packed(m, 0x7ff, (if g < 0x40_0000 then g + 0x40_0000 else g) * 0x2000_0000),
       if g < 0x40_0000 then 1 else 0)
    else if e == 0xff then (Packed(m, 0x7ff, 0), 0)
    else if e > 0 then (Packed(m, e + 896, g * 0x2000_0000), 0)
    else if g == 0 || On(fpscr, 24) then (Packed(m, 0, 0), InputDenormal(Single, x, fpscr))
    else (Normalized(m, 897, g), 0)
  }

  /** The other data-processing group, as far as the translator accepts it: VMOV, VABS, VNEG, VCMP, VCMPE and widening VCVT. */
  function OtherInsn(insn: Word, v: Vfp): (w: Option<Vfp>)
    requires |v.s| == 32
    ensures w.Some? ==> |w.value.s| == 32
  {
    var opc2, dbl, top := Field(insn, 16, 4), Bit(insn, 8), Bit(insn, 7);
    var f := if dbl then Double else Single;
    var rd, rm := Register(f, Field(insn, 12, 4), Field(insn, 22, 1)), Register(f, Field(insn, 0, 4), Field(insn, 5, 1));
    if ShortVectors(v.fpscr) then None
    else if opc2 == 0 || (opc2 == 1 && !top) then
      if dbl && (Bit(insn, 22) || Bit(insn, 5)) then None
      else
        var x := Get(f, v, rm);
        Some(Set(f, v, rd, if opc2 == 1 then Negate(f, x) else if top then Magnitude(f, x) else x))
    else if Trapping(v.fpscr) then None
    else if opc2 == 4 || opc2 == 5 then
      if (opc2 == 5 && (Field(insn, 0, 4) != 0 || Bit(insn, 5))) || (dbl && (Bit(insn, 22) || Bit(insn, 5))) then None
      else Some(v.(fpscr := Compared(f, Get(f, v, rd), if opc2 == 5 then 0 else Get(f, v, rm), top, v.fpscr)))
    else if opc2 == 7 && top && !dbl then
      if Bit(insn, 22) then None
      else
        var (r, exc) := Widened(v.s[rm], v.fpscr);
        Some(SetD(v, Field(insn, 12, 4), r).(fpscr := Or(v.fpscr, exc)))
    else None
  }

  function DataInsn(insn: Word, v: Vfp): (w: Option<Vfp>)
    requires |v.s| == 32
    ensures w.Some? ==> |w.value.s| == 32
  {
    if 4 * Field(insn, 23, 1) + 2 * Field(insn, 21, 1) + Field(insn, 20, 1) == 7 then (if Bit(insn, 6) then OtherInsn(insn, v) else None)
    else ArithmeticInsn(insn, v)
  }

  // ------------------------------------------------------------ Core register transfers

  /** FPSID, FPSCR and FPEXC; FPEXC always, and FPSID while the unit is off, to privileged code only. */
  function SystemInsn(insn: Word, s: State, priv: bool): (t: Option<State>)
    requires Wide(s)
    ensures t.Some? ==> Wide(t.value)
  {
    var vn, rt, v := Field(insn, 16, 4), Field(insn, 12, 4), s.vfp;
    if vn == 8 && !priv then None
    else if vn == 0 && !On(v.fpexc, 30) && !priv then None
    else if Bit(insn, 20) then
      if rt == 15 then
        if vn == 1 then Some(s.(f := Flags(On(v.fpscr, 31), On(v.fpscr, 30), On(v.fpscr, 29), On(v.fpscr, 28)))) else None
      else if vn == 0 then Some(s.(r := s.r[rt := 0x4101_20b4]))
      else if vn == 1 then Some(s.(r := s.r[rt := v.fpscr]))
      else if vn == 8 then Some(s.(r := s.r[rt := v.fpexc]))
      else None
    else if rt == 15 then None
    else if vn == 1 then Some(s.(vfp := v.(fpscr := And(s.r[rt], 0xf3f7_9f9f))))
    else if vn == 8 then Some(s.(vfp := v.(fpexc := s.r[rt])))
    else None
  }

  /** One core register to or from an S register or half of a D register, or a system register. */
  function CoreInsn(insn: Word, s: State, priv: bool): (t: Option<State>)
    requires Wide(s)
    ensures t.Some? ==> Wide(t.value)
  {
    var opc1, cp11, rt, v := Field(insn, 21, 3), Bit(insn, 8), Field(insn, 12, 4), s.vfp;
    var reserved := Field(insn, 5, 2) != 0 || Field(insn, 0, 4) != 0;
    if (!cp11 && opc1 == 0) || (cp11 && opc1 <= 1) then
      if reserved || rt == 15 || (cp11 && Bit(insn, 7)) then None
      else
        var sn := 2 * Field(insn, 16, 4) + if cp11 then opc1 else Field(insn, 7, 1);
        if Bit(insn, 20) then Some(s.(r := s.r[rt := v.s[sn]])) else Some(s.(vfp := v.(s := v.s[sn := s.r[rt]])))
    else if cp11 || opc1 != 7 || reserved || Bit(insn, 7) then None
    else SystemInsn(insn, s, priv)
  }

  /** Two core registers to or from a D register or two adjacent S registers. */
  function PairInsn(insn: Word, s: State): (t: Option<State>)
    requires Wide(s)
    ensures t.Some? ==> Wide(t.value)
  {
    var rt, rt2, vm, v := Field(insn, 12, 4), Field(insn, 16, 4), Field(insn, 0, 4), s.vfp;
    if Field(insn, 6, 2) != 0 || rt == 15 || rt2 == 15 || (Bit(insn, 8) && Bit(insn, 5)) then None
    else
      var sm := 2 * vm + Field(insn, 5, 1);
      if sm == 31 then None
      else if Bit(insn, 20) then Some(s.(r := s.r[rt := v.s[sm]][rt2 := v.s[sm + 1]]))
      else Some(s.(vfp := v.(s := v.s[sm := s.r[rt]][sm + 1 := s.r[rt2]])))
  }

  // ------------------------------------------------------------ Loads and stores

  /** Consecutive words stored in ascending order, each through its own translation. */
  function StoreWords(s: State, mmu: Mmu, priv: bool, va: Word, words: seq<Word>): (t: Option<State>)
    requires Wide(s)
    ensures t.Some? ==> Wide(t.value) && t.value.r == s.r && t.value.thumb == s.thumb
    decreases |words|
  {
    if words == [] then Some(s)
    else
      match WriteMemory(s, mmu, priv, va, 4, words[0])
      case None => None
      case Some(t) => StoreWords(t, mmu, priv, Wrap(va + 4), words[1..])
  }

  /** Consecutive words loaded into consecutive registers. */
  function LoadWords(s: State, mmu: Mmu, priv: bool, va: Word, first: nat, n: nat): (t: Option<State>)
    requires Wide(s) && first + n <= 32
    ensures t.Some? ==> Wide(t.value)
    decreases n
  {
    if n == 0 then Some(s)
    else
      match ReadMemory(s, mmu, priv, va, 4)
      case None => None
      case Some(w) =>
        LoadWords(s.(vfp := s.vfp.(s := s.vfp.s[first := w]), loads := s.loads + Num(mmu.counted)), mmu, priv, Wrap(va + 4), first + 1, n - 1)
  }

  /** VLDR, VSTR, VLDM and VSTM. The deprecated odd-length form of the double lists is left to the interpreter. */
  function LoadStoreInsn(insn: Word, addr: Word, s: State, mmu: Mmu, priv: bool): (t: Option<State>)
    requires Wide(s)
    ensures t.Some? ==> Wide(t.value)
  {
    var p, u, w, l := Bit(insn, 24), Bit(insn, 23), Bit(insn, 21), Bit(insn, 20);
    var dbl, rn, imm8 := Bit(insn, 8), Field(insn, 16, 4), Field(insn, 0, 8);
    var first := 2 * Field(insn, 12, 4) + Field(insn, 22, 1);
    if (!p && !u && !w) || (p && u && w) || (rn == 15 && (w || !p)) || (dbl && Bit(insn, 22)) then None
    else
      var base := if rn == 15 then Wrap(addr + 8) else s.r[rn];
      var moved := if u then Wrap(base + 4 * imm8) else Wrap(base - 4 * imm8);
      if p && !w then Moved(s, mmu, priv, moved, first, if dbl then 2 else 1, l)
      else if imm8 == 0 || (dbl && imm8 % 2 == 1) || first + imm8 > 32 then None
      else
        match Moved(s, mmu, priv, if u then base else moved, first, imm8, l)
        case None => None
        case Some(t) => Some(if w then t.(r := t.r[rn := moved]) else t)
  }

  /** A run of S registers to or from consecutive words. */
  function Moved(s: State, mmu: Mmu, priv: bool, va: Word, first: nat, n: nat, load: bool): (t: Option<State>)
    requires Wide(s)
    ensures t.Some? ==> Wide(t.value)
  {
    if first + n > 32 then None
    else if load then LoadWords(s, mmu, priv, va, first, n)
    else StoreWords(s, mmu, priv, va, s.vfp.s[first..first + n])
  }

  // ------------------------------------------------------------ The unit

  /** An instruction of the VFP space: the state after it, or none when the unit is off, traps or faults. */
  function Execute(insn: Word, addr: Word, s: State, mmu: Mmu, priv: bool): (t: Option<State>)
    requires Wide(s)
    ensures t.Some? ==> Wide(t.value)
  {
    var system := Field(insn, 24, 4) == 14 && Field(insn, 21, 3) == 7 && Field(insn, 8, 4) == 10 && Bit(insn, 4);
    if Field(insn, 9, 3) != 5 || !s.vfp.access then None
    else if !On(s.vfp.fpexc, 30) && !(system && (Field(insn, 16, 4) == 0 || Field(insn, 16, 4) == 8)) then None
    else if Field(insn, 24, 4) == 14 && Bit(insn, 4) then CoreInsn(insn, s, priv)
    else if Field(insn, 24, 4) == 14 then
      match DataInsn(insn, s.vfp)
      case None => None
      case Some(v) => Some(s.(vfp := v))
    else if Field(insn, 21, 7) == 0x62 then PairInsn(insn, s)
    else if Field(insn, 25, 3) == 6 then LoadStoreInsn(insn, addr, s, mmu, priv)
    else None
  }
}
