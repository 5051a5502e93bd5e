/** The ARMv6 architecture as the engine's reference: one instruction at a time, in the manual's own terms. */
module Arch {
  import opened Words
  import opened Machine
  import ArchVfp

  /** The state and program counter after an instruction, or a case left to the literal interpreter. */
  datatype Result = Done(s: State, pc: Word) | Undefined

  // ------------------------------------------------------------ Conditions and flags

  /** Condition field table, section A3.2 of ARM DDI 0100I. */
  predicate ConditionPassed(cond: nat, f: Flags) {
    match cond
    case 0 => f.z
    case 1 => !f.z
    case 2 => f.c
    case 3 => !f.c
    case 4 => f.n
    case 5 => !f.n
    case 6 => f.v
    case 7 => !f.v
    case 8 => f.c && !f.z
    case 9 => !f.c || f.z
    case 10 => f.n == f.v
    case 11 => f.n != f.v
    case 12 => !f.z && f.n == f.v
    case 13 => f.z || f.n != f.v
    case _ => true
  }

  predicate Negative(x: Word) { x >= 0x8000_0000 }

  /** Addition overflows when the operands agree in sign and the result does not. */
  predicate OverflowFromAdd(a: Word, b: Word, result: Word) {
    Negative(a) == Negative(b) && Negative(result) != Negative(a)
  }

  /** Subtraction overflows when the operands differ in sign and the result differs from the first. */
  predicate OverflowFromSub(a: Word, b: Word, result: Word) {
    Negative(a) != Negative(b) && Negative(result) != Negative(a)
  }

  function Plus(a: Word, b: Word, extra: nat): (Word, Flags)
    requires extra <= 1
  {
    var sum: int := a + b + extra;
    var result := Wrap(sum);
    (result, Flags(Negative(result), result == 0, sum > 0xffff_ffff, OverflowFromAdd(a, b, result)))
  }

  function Minus(a: Word, b: Word, borrow: nat): (Word, Flags)
    requires borrow <= 1
  {
    var difference: int := a as int - b - borrow;
    var result := Wrap(difference);
    (result, Flags(Negative(result), result == 0, difference >= 0, OverflowFromSub(a, b, result)))
  }

  function Bitwise(result: Word, carry: bool, f: Flags): (Word, Flags) {
    (result, Flags(Negative(result), result == 0, carry, f.v))
  }

  /** Result and flags of a data-processing opcode, section A4.1. */
  function Alu(opcode: nat, rn: Word, operand: Word, carry: bool, f: Flags): (Word, Flags) {
    match opcode
    case 0 => Bitwise(And(rn, operand), carry, f)
    case 1 => Bitwise(Xor(rn, operand), carry, f)
    case 2 => Minus(rn, operand, 0)
    case 3 => Minus(operand, rn, 0)
    case 4 => Plus(rn, operand, 0)
    case 5 => Plus(rn, operand, Num(f.c))
    case 6 => Minus(rn, operand, Num(!f.c))
    case 7 => Minus(operand, rn, Num(!f.c))
    case 8 => Bitwise(And(rn, operand), carry, f)
    case 9 => Bitwise(Xor(rn, operand), carry, f)
    case 10 => Minus(rn, operand, 0)
    case 11 => Plus(rn, operand, 0)
    case 12 => Bitwise(Or(rn, operand), carry, f)
    case 13 => Bitwise(operand, carry, f)
    case 14 => Bitwise(And(rn, Not(operand)), carry, f)
    case _ => Bitwise(Not(operand), carry, f)
  }

  // ------------------------------------------------------------ The barrel shifter, one position at a time

  /** One single-bit step of LSL, LSR, ASR or ROR: the new value and the bit shifted out. */
  function ShiftOnce(kind: nat, x: Word): (Word, bool) {
    match kind
    case 0 => (Wrap(2 * x as int), Negative(x))
    case 1 => (x / 2, x % 2 == 1)
    case 2 => (x / 2 + (if Negative(x) then 0x8000_0000 else 0), x % 2 == 1)
    case _ => (x / 2 + (x % 2) * 0x8000_0000, x % 2 == 1)
  }

  /** `n` single-bit steps; without a step the carry is the incoming one. */
  function Shifted(kind: nat, x: Word, n: nat, c: bool): (Word, bool) {
    if n == 0 then (x, c) else ShiftOnce(kind, Shifted(kind, x, n - 1, c).0)
  }

  /** Shifter operand with an immediate amount, section A5.1: zero means 32 for LSR and ASR, and RRX for ROR. */
  function ShiftByImmediate(kind: nat, x: Word, imm5: nat, c: bool): (Word, bool) {
    if imm5 != 0 || kind == 0 then Shifted(kind, x, imm5, c)
    else if kind == 1 || kind == 2 then Shifted(kind, x, 32, c)
    else (x / 2 + (if c then 0x8000_0000 else 0), x % 2 == 1)
  }

  // ------------------------------------------------------------ State

  function Reg(s: State, n: nat, pcv: Word): Word
    requires Wide(s)
  {
    if n == 15 then pcv else if n < 15 then s.r[n] else 0
  }

  function SetReg(s: State, n: nat, w: Word): (t: State)
    requires Wide(s)
    ensures Wide(t)
  {
    if n < 15 then s.(r := s.r[n := w]) else s
  }

  /** Data processing on given operands: destination and flags as the opcode and S bit say. */
  function DataProcessing(s: State, opcode: nat, sets: bool, rd: nat, rn: Word, operand: Word, carry: bool): State
    requires Wide(s)
  {
    var (result, f) := Alu(opcode, rn, operand, carry, s.f);
    var t := if 8 <= opcode <= 11 then s else SetReg(s, rd, result);
    if sets then t.(f := f) else t
  }

  // ------------------------------------------------------------ Memory

  function SizeOf(kind: nat): nat { match kind case 0 => 4 case 1 => 1 case 3 => 1 case _ => 2 }

  function SignExtended(kind: nat, w: Word): Word {
    match kind
    case 3 => if w >= 0x80 && w < 0x100 then 0xffff_ff00 + w else w
    case 4 => if w >= 0x8000 && w < 0x1_0000 then 0xffff_0000 + w else w
    case _ => w
  }

  function Load(s: State, mmu: Mmu, priv: bool, va: Word, kind: nat, rd: nat, next: Word): Result
    requires Wide(s)
  {
    match ReadMemory(s, mmu, priv, va, SizeOf(kind))
    case None => Undefined
    case Some(w) => if rd >= 15 then Undefined else Done(SetReg(s, rd, SignExtended(kind, w)).(loads := s.loads + Num(mmu.counted)), next)
  }

  function Store(s: State, mmu: Mmu, priv: bool, va: Word, kind: nat, w: Word, next: Word): Result {
    match WriteMemory(s, mmu, priv, va, SizeOf(kind), w)
    case None => Undefined
    case Some(t) => Done(t, next)
  }

  /** Word transfers of a register list in ascending order, each through its own translation. */
  function LoadRegisters(s: State, mmu: Mmu, priv: bool, va: Word, regs: seq<nat>): Option<State>
    requires Wide(s)
    decreases |regs|
  {
    if regs == [] then Some(s)
    else
      match ReadMemory(s, mmu, priv, va, 4)
      case None => None
      case Some(w) =>
        if regs[0] >= 15 then None
        else LoadRegisters(SetReg(s, regs[0], w).(loads := s.loads + Num(mmu.counted)), mmu, priv, Wrap(va + 4), regs[1..])
  }

  function StoreRegisters(s: State, mmu: Mmu, priv: bool, va: Word, regs: seq<nat>, pc12: Word): Option<State>
    requires Wide(s)
    decreases |regs|
  {
    if regs == [] then Some(s)
    else
      match WriteMemory(s, mmu, priv, va, 4, if regs[0] < 15 then s.r[regs[0]] else pc12)
      case None => None
      case Some(t) => StoreRegisters(t, mmu, priv, Wrap(va + 4), regs[1..], pc12)
  }

  /** Registers of a list in ascending order, counted up from register `i`. */
  function ListFrom(insn: Word, i: nat): seq<nat>
    requires i <= 16
    decreases 16 - i
  {
    if i == 16 then [] else (if Bit(insn, i) then [i] else []) + ListFrom(insn, i + 1)
  }

  // ------------------------------------------------------------ A32

  /** Addressing mode 1, section A5.1. */
  function ShifterOperand(insn: Word, s: State, pcv: Word): (Word, bool)
    requires Wide(s)
  {
    if Bit(insn, 25) then Shifted(3, Field(insn, 0, 8), 2 * Field(insn, 8, 4), s.f.c)
    else
      var rm := Reg(s, Field(insn, 0, 4), pcv);
      if Bit(insn, 4) then Shifted(Field(insn, 5, 2), rm, Reg(s, Field(insn, 8, 4), pcv) % 256, s.f.c)
      else ShiftByImmediate(Field(insn, 5, 2), rm, Field(insn, 7, 5), s.f.c)
  }

  function ArmDataProcessing(insn: Word, addr: Word, s: State): Result
    requires Wide(s)
  {
    var pcv := Wrap(addr + 8);
    var (operand, carry) := ShifterOperand(insn, s, pcv);
    Done(DataProcessing(s, Field(insn, 21, 4), Bit(insn, 20), Field(insn, 12, 4), Reg(s, Field(insn, 16, 4), pcv), operand, carry),
         Wrap(addr + 4))
  }

  /** Load and store word or unsigned byte, section A5.2. */
  function ArmLoadStore(insn: Word, addr: Word, s: State, mmu: Mmu, priv: bool): Result
    requires Wide(s)
  {
    var pcv := Wrap(addr + 8);
    var p, u, b, w, l := Bit(insn, 24), Bit(insn, 23), Bit(insn, 22), Bit(insn, 21), Bit(insn, 20);
    var rn, rd := Field(insn, 16, 4), Field(insn, 12, 4);
    var offset: int := if Bit(insn, 25) then ShiftByImmediate(Field(insn, 5, 2), Reg(s, Field(insn, 0, 4), pcv), Field(insn, 7, 5), s.f.c).0
                       else Field(insn, 0, 12);
    var base := Reg(s, rn, pcv);
    var moved := if u then Wrap(base + offset) else Wrap(base - offset);
    var va := if p then moved else base;
    var user := !p && w;
    var access := priv && !user;
    var kind := if b then 1 else 0;
    if l then
      match Load(s, mmu, access, va, kind, rd, Wrap(addr + 4))
      case Undefined => Undefined
      case Done(t, next) => if !Wide(t) then Undefined else Done(if !p || w then SetReg(t, rn, moved) else t, next)
    else
      match Store(s, mmu, access, va, kind, if rd == 15 then Wrap(addr + 12) else Reg(s, rd, pcv), Wrap(addr + 4))
      case Undefined => Undefined
      case Done(t, next) => if !Wide(t) then Undefined else Done(if !p || w then SetReg(t, rn, moved) else t, next)
  }

  /** Load and store multiple, section A5.4. */
  function ArmLoadStoreMultiple(insn: Word, addr: Word, s: State, mmu: Mmu, priv: bool): Result
    requires Wide(s)
  {
    var p, u, w, l := Bit(insn, 24), Bit(insn, 23), Bit(insn, 21), Bit(insn, 20);
    var rn := Field(insn, 16, 4);
    var regs := ListFrom(insn, 0);
    var n: int := |regs|;
    var base := Reg(s, rn, Wrap(addr + 8));
    var start := match (p, u)
      case (false, true) => base
      case (true, true) => Wrap(base + 4)
      case (false, false) => Wrap(base - 4 * n + 4)
      case (true, false) => Wrap(base - 4 * n);
    var after := if u then Wrap(base + 4 * n) else Wrap(base - 4 * n);
    var moved := if l then LoadRegisters(s, mmu, priv, start, regs) else StoreRegisters(s, mmu, priv, start, regs, Wrap(addr + 12));
    match moved
    case None => Undefined
    case Some(t) => if !Wide(t) then Undefined else Done(if w then SetReg(t, rn, after) else t, Wrap(addr + 4))
  }

  function SignedField(x: nat, bits: nat): int
    requires bits > 0
  {
    if x < Pow2(bits - 1) then x else x as int - Pow2(bits)
  }

  /** B and BL, section A4.1.5. */
  function ArmBranch(insn: Word, addr: Word, s: State): Result
    requires Wide(s)
  {
    var target := Wrap(addr + 8 + 4 * SignedField(Field(insn, 0, 24), 24));
    Done(if Bit(insn, 24) then SetReg(s, 14, Wrap(addr + 4)) else s, target)
  }

  /** BX and BLX to a register, sections A4.1.9 and A4.1.10; a halfword target in ARM state is unpredictable. */
  function BranchExchange(target: Word, link: Option<Word>, s: State): Result
    requires Wide(s)
  {
    if target % 4 == 2 then Undefined
    else
      var t := if link.Some? then SetReg(s, 14, link.value) else s;
      Done(t.(thumb := target % 2 == 1), if target % 2 == 1 then target - 1 else target)
  }

  /** The coprocessor space, as far as the VFP unit claims it. */
  function ArmVfp(insn: Word, addr: Word, s: State, mmu: Mmu, priv: bool): Result
    requires Wide(s)
  {
    match ArchVfp.Execute(insn, addr, s, mmu, priv)
    case None => Undefined
    case Some(t) => Done(t, Wrap(addr + 4))
  }

  function ArmInstruction(insn: Word, addr: Word, s: State, mmu: Mmu, priv: bool): Result
    requires Wide(s)
  {
    if Field(insn, 25, 3) == 5 then ArmBranch(insn, addr, s)
    else if Field(insn, 4, 24) == 0x12fff1 then BranchExchange(Reg(s, Field(insn, 0, 4), Wrap(addr + 8)), None, s)
    else if Field(insn, 4, 24) == 0x12fff3 then BranchExchange(Reg(s, Field(insn, 0, 4), Wrap(addr + 8)), Some(Wrap(addr + 4)), s)
    else if Field(insn, 25, 3) == 4 then ArmLoadStoreMultiple(insn, addr, s, mmu, priv)
    else if Field(insn, 26, 2) == 1 then ArmLoadStore(insn, addr, s, mmu, priv)
    else if Field(insn, 26, 2) == 0 then ArmDataProcessing(insn, addr, s)
    else ArmVfp(insn, addr, s, mmu, priv)
  }

  /** A conditional instruction has no effect but to advance when its condition fails. */
  function ArmStep(insn: Word, addr: Word, s: State, mmu: Mmu, priv: bool): Result
    requires Wide(s)
  {
    if ConditionPassed(Field(insn, 28, 4), s.f) then ArmInstruction(insn, addr, s, mmu, priv) else Done(s, Wrap(addr + 4))
  }

  // ------------------------------------------------------------ Thumb

  function ThumbRegisterAlu(op: nat, rd: nat, rm: nat, s: State): State
    requires Wide(s) && rd < 15 && rm < 15
  {
    var a, b := s.r[rd], s.r[rm];
    var amount := b % 256;
    match op
    case 0 => DataProcessing(s, 0, true, rd, a, b, s.f.c)
    case 1 => DataProcessing(s, 1, true, rd, a, b, s.f.c)
    case 2 => var (x, c) := Shifted(0, a, amount, s.f.c); DataProcessing(s, 13, true, rd, 0, x, c)
    case 3 => var (x, c) := Shifted(1, a, amount, s.f.c); DataProcessing(s, 13, true, rd, 0, x, c)
    case 4 => var (x, c) := Shifted(2, a, amount, s.f.c); DataProcessing(s, 13, true, rd, 0, x, c)
    case 5 => DataProcessing(s, 5, true, rd, a, b, s.f.c)
    case 6 => DataProcessing(s, 6, true, rd, a, b, s.f.c)
    case 7 => var (x, c) := Shifted(3, a, amount, s.f.c); DataProcessing(s, 13, true, rd, 0, x, c)
    case 8 => DataProcessing(s, 8, true, rd, a, b, s.f.c)
    case 9 => DataProcessing(s, 3, true, rd, b, 0, s.f.c)
    case 10 => DataProcessing(s, 10, true, rd, a, b, s.f.c)
    case 11 => DataProcessing(s, 11, true, rd, a, b, s.f.c)
    case 12 => DataProcessing(s, 12, true, rd, a, b, s.f.c)
    case 13 => var (x, f) := Bitwise(Wrap(b as int * a), s.f.c, s.f); SetReg(s, rd, x).(f := f)
    case 14 => DataProcessing(s, 14, true, rd, a, b, s.f.c)
    case _ => DataProcessing(s, 15, true, rd, a, b, s.f.c)
  }

  /** Access kind of a register-offset transfer: word, byte, half, signed byte, signed half. */
  function ThumbTransferKind(op: nat): nat {
    match op
    case 0 => 0
    case 1 => 2
    case 2 => 1
    case 3 => 3
    case 4 => 0
    case 5 => 2
    case 6 => 1
    case _ => 4
  }

  function ThumbTransfer(load: bool, kind: nat, rd: nat, va: Word, addr: Word, s: State, mmu: Mmu, priv: bool): Result
    requires Wide(s) && rd < 15
  {
    if load then Load(s, mmu, priv, va, kind, rd, Wrap(addr + 2)) else Store(s, mmu, priv, va, kind, s.r[rd], Wrap(addr + 2))
  }

  function AlignDown(x: Word): Word { x - x % 4 }

  /** Base register plus offset. */
  function Offset(s: State, rn: nat, offset: int): Word
    requires Wide(s) && rn < 15
  {
    Wrap(s.r[rn] + offset)
  }

  function ThumbMemory(insn: Word, addr: Word, s: State, mmu: Mmu, priv: bool): Result
    requires Wide(s)
  {
    var rd, rn, imm5 := Field(insn, 0, 3), Field(insn, 3, 3), Field(insn, 6, 5);
    if Field(insn, 11, 5) == 9 then
      Load(s, mmu, priv, Wrap(AlignDown(Wrap(addr + 4)) + 4 * Field(insn, 0, 8)), 0, Field(insn, 8, 3), Wrap(addr + 2))
    else if Field(insn, 12, 4) == 5 then
      var op := Field(insn, 9, 3);
      ThumbTransfer(op > 2, ThumbTransferKind(op), rd, Offset(s, rn, s.r[Field(insn, 6, 3)]), addr, s, mmu, priv)
    else if Field(insn, 13, 3) == 3 then
      var kind, scale := if Bit(insn, 12) then 1 else 0, if Bit(insn, 12) then 1 else 4;
      ThumbTransfer(Bit(insn, 11), kind, rd, Offset(s, rn, scale * imm5), addr, s, mmu, priv)
    else if Field(insn, 12, 4) == 8 then
      ThumbTransfer(Bit(insn, 11), 2, rd, Offset(s, rn, 2 * imm5), addr, s, mmu, priv)
    else if Field(insn, 12, 4) == 9 then
      ThumbTransfer(Bit(insn, 11), 0, Field(insn, 8, 3), Offset(s, 13, 4 * Field(insn, 0, 8)), addr, s, mmu, priv)
    else Undefined
  }

  function ThumbHighRegister(insn: Word, addr: Word, s: State): Result
    requires Wide(s)
  {
    var pcv := Wrap(addr + 4);
    var d, m := Field(insn, 7, 1) * 8 + Field(insn, 0, 3), Field(insn, 6, 1) * 8 + Field(insn, 3, 3);
    var next := Wrap(addr + 2);
    match Field(insn, 8, 2)
    case 0 => if d == 15 then Undefined else Done(SetReg(s, d, Wrap(Reg(s, d, pcv) + Reg(s, m, pcv))), next)
    case 1 => Done(DataProcessing(s, 10, true, 0, Reg(s, d, pcv), Reg(s, m, pcv), s.f.c), next)
    case 2 => if d == 15 then Undefined else Done(SetReg(s, d, Reg(s, m, pcv)), next)
    case _ => Undefined
  }

  function ThumbArithmetic(insn: Word, addr: Word, s: State): Result
    requires Wide(s)
  {
    var pcv, next := Wrap(addr + 4), Wrap(addr + 2);
    var rd, rn := Field(insn, 0, 3), Field(insn, 3, 3);
    if Field(insn, 11, 5) < 3 then
      var (x, c) := ShiftByImmediate(Field(insn, 11, 5), s.r[rn], Field(insn, 6, 5), s.f.c);
      Done(DataProcessing(s, 13, true, rd, 0, x, c), next)
    else if Field(insn, 11, 5) == 3 then
      var operand: Word := if Bit(insn, 10) then Field(insn, 6, 3) else s.r[Field(insn, 6, 3)];
      Done(DataProcessing(s, if Bit(insn, 9) then 2 else 4, true, rd, s.r[rn], operand, s.f.c), next)
    else if Field(insn, 13, 3) == 1 then
      var r, imm := Field(insn, 8, 3), Field(insn, 0, 8);
      var opcode := match Field(insn, 11, 2) case 0 => 13 case 1 => 10 case 2 => 4 case _ => 2;
      Done(DataProcessing(s, opcode, true, r, s.r[r], imm, s.f.c), next)
    else if Field(insn, 12, 4) == 10 then
      var base := if Bit(insn, 11) then s.r[13] else AlignDown(pcv);
      Done(SetReg(s, Field(insn, 8, 3), Wrap(base + 4 * Field(insn, 0, 8))), next)
    else
      var amount: int := 4 * Field(insn, 0, 7);
      Done(SetReg(s, 13, Wrap(if Bit(insn, 7) then s.r[13] - amount else s.r[13] + amount)), next)
  }

  function ThumbStep(insn: Word, addr: Word, s: State, mmu: Mmu, priv: bool): Result
    requires Wide(s)
  {
    var next := Wrap(addr + 2);
    if Field(insn, 12, 4) == 13 && Field(insn, 8, 4) < 14 then
      Done(s, if ConditionPassed(Field(insn, 8, 4), s.f) then Wrap(addr + 4 + 2 * SignedField(Field(insn, 0, 8), 8)) else next)
    else if Field(insn, 11, 5) == 0x1c then Done(s, Wrap(addr + 4 + 2 * SignedField(Field(insn, 0, 11), 11)))
    else if Field(insn, 8, 8) == 0x47 then
      BranchExchange(Reg(s, Field(insn, 3, 4), Wrap(addr + 4)), if Bit(insn, 7) then Some(Wrap(next + 1)) else None, s)
    else if Field(insn, 11, 5) <= 3 || Field(insn, 13, 3) == 1 then ThumbArithmetic(insn, addr, s)
    else if Field(insn, 10, 6) == 0x10 then
      Done(ThumbRegisterAlu(Field(insn, 6, 4), Field(insn, 0, 3), Field(insn, 3, 3), s), next)
    else if Field(insn, 10, 6) == 0x11 then ThumbHighRegister(insn, addr, s)
    else if Field(insn, 12, 4) == 10 || Field(insn, 8, 8) == 0xb0 then ThumbArithmetic(insn, addr, s)
    else ThumbMemory(insn, addr, s, mmu, priv)
  }

  /** One instruction in the current instruction set. */
  function Step(insn: Word, addr: Word, s: State, mmu: Mmu, priv: bool): Result
    requires Wide(s)
  {
    if s.thumb then ThumbStep(insn, addr, s, mmu, priv) else ArmStep(insn, addr, s, mmu, priv)
  }
}
