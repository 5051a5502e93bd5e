/** Decoding one A32 or Thumb instruction into handler records. */
module Decode {
  import opened Words
  import opened Handlers

  /** A sixteen-byte handler record: the handler its id stands for, immediate, program counter value and metadata. An illegal
      `op` in a record array stands for an id at or above the handler count. */
  datatype Uop = Uop(op: Op, imm: Word, pcv: Word, meta: Word)

  /** The three decoding contracts: flat RAM, read-cache records, and read- and write-cache records. */
  datatype Mode = Flat | ReadHits | MemoryHits

  predicate Reads(mode: Mode) { mode != Flat }

  predicate Writes(mode: Mode) { mode == MemoryHits }

  function Rec(op: Op): Uop { Uop(op, 0, 0, 0) }

  function Rotated(x: Word, amount: nat): Word
    requires amount < 32
  {
    var p := Pow2(amount);
    var q := Pow2(32 - amount);
    Wrap(x / p + (x % p) * q)
  }

  // ------------------------------------------------------------ A32

  function DecodeArmBranch(insn: Word, index: nat, insns: nat, pc: Word): Option<seq<Uop>>
    requires Field(insn, 28, 4) != 15
  {
    if index + 1 != insns then None
    else
      var condition, link := Field(insn, 28, 4), Bit(insn, 24);
      var displacement := Signed(Wrap(insn * 256)) / 64;
      var op := if !link && condition == 14 then Op(End, 0, 0, 0, 0)
                else if link then Op(BranchLink, 0, 0, 0, condition)
                else Op(BranchCond, 0, 0, 0, condition);
      Some([Uop(op, Wrap(pc + index * 4 + 8 + displacement), Wrap(pc + index * 4 + 4), 0)])
  }

  predicate IsArmBx(insn: Word) {
    Field(insn, 4, 24) == 0x12fff1 || Field(insn, 4, 24) == 0x12fff3
  }

  function DecodeArmBx(insn: Word, index: nat, insns: nat): Option<seq<Uop>> {
    var rm, link := Field(insn, 0, 4), Bit(insn, 5);
    if index + 1 != insns || (link && rm == 15) then None
    else Some([Rec(Op(if link then ArmBlx else ArmBx, 0, 0, 0, rm))])
  }

  /** Numbers below `i` whose bit is set in a register list, in ascending order. */
  function Regs(insn: Word, i: nat): (regs: seq<nat>)
    ensures |regs| <= i
    ensures forall k :: 0 <= k < |regs| ==> regs[k] < i && Bit(insn, regs[k])
    ensures forall j, k :: 0 <= j < k < |regs| ==> regs[j] < regs[k]
  {
    if i == 0 then [] else Regs(insn, i - 1) + (if Bit(insn, i - 1) then [i - 1] else [])
  }

  function Commits(f: Family, regs: seq<nat>): (r: seq<Uop>)
    ensures |r| == |regs| && forall k :: 0 <= k < |r| ==> r[k] == Rec(Op(f, 0, 0, 0, regs[k]))
  {
    seq(|regs|, k requires 0 <= k < |regs| => Rec(Op(f, 0, 0, 0, regs[k])))
  }

  function DecodeArmBlockTransfer(insn: Word, index: nat, insns: nat, mode: Mode): Option<seq<Uop>> {
    var pre, up, writeback, load := Bit(insn, 24), Bit(insn, 23), Bit(insn, 21), Bit(insn, 20);
    var rn := Field(insn, 16, 4);
    var regs := Regs(insn, 16);
    if !Reads(mode) || Bit(insn, 22) || rn == 15 || regs == [] || (writeback && Bit(insn, rn)) then None
    else if load && Bit(insn, 15) then None
    else if !load && (!Writes(mode) || index + 1 != insns) then None
    else if load then
      Some([Uop(Op(LdmPreflight, 0, Num(pre), Num(up), rn), |regs|, 0, 0)] + Commits(LdmCommit, regs)
           + [Uop(if writeback then Op(LdmFinishWb, 0, 0, 0, rn) else Op(LdmFinish, 0, 0, 0, 0), |regs|, 0, 0)])
    else
      Some([Uop(Op(StmPreflight, 0, Num(pre), Num(up), rn), |regs|, 0, 0)] + Commits(StmCommit, regs)
           + [Uop(if writeback then Op(StmFinishWb, 0, 0, 0, rn) else Op(StmFinish, 0, 0, 0, 0), |regs|, 0, 0)])
  }

  /** The record that moves the datum of a single load or store. */
  function TransferOp(load: bool, writeback: bool, unprivileged: bool, kind: nat, rd: nat, rn: nat): Op {
    if load then Op(DirectRead, 0, 0, kind, rd)
    else if !writeback then Op(DirectWrite, 0, 0, kind, rd)
    else if unprivileged then Op(DirectWriteWbUnpriv, 0, kind, rd, rn)
    else Op(DirectWriteWb, 0, kind, rd, rn)
  }

  function DecodeArmSingleTransfer(insn: Word, index: nat, insns: nat, pc: Word, mode: Mode): Option<seq<Uop>> {
    var rn, rd, offset := Field(insn, 16, 4), Field(insn, 12, 4), Field(insn, 0, 12);
    var load, up := Bit(insn, 20), Bit(insn, 23);
    var pcv := Wrap(pc + index * 4 + 8);
    if Reads(mode) then
      var kind, pre := Num(Bit(insn, 22)), Bit(insn, 24);
      var writeback := !pre || Bit(insn, 21);
      var unprivileged := !pre && Bit(insn, 21);
      if load && (!pre || writeback || rd == 15) then None
      else if !load && (!Writes(mode) || index + 1 != insns || (writeback && (rn == 15 || rn == rd)) || (kind == 1 && rd == 15))
      then None
      else
        var last := Uop(TransferOp(load, writeback, unprivileged, kind, rd, rn),
                        if !load && writeback && !pre then 1 else 0, 0, 0);
        if Bit(insn, 25) then
          var rm := Field(insn, 0, 4);
          if Bit(insn, 4) || rm == 15 then None
          else Some([Uop(Op(ShiftImm, 0, Field(insn, 5, 2), rm, Field(insn, 7, 5)), 0, pcv, 0),
                     Uop(Op(if pre then AddrReg else PostAddrReg, 0, 0, Num(up), rn), 0, pcv, 0),
                     last])
        else
          Some([Uop(Op(if pre then AddrImm else PostAddrImm, 0, 0, Num(up), rn), offset, pcv, 0), last])
    else if Bit(insn, 25) || !Bit(insn, 24) || Bit(insn, 22) || Bit(insn, 21) || rd > 7 || rn > 7 then None
    else Some([Uop(Op(FlatWord, 0, Num(!load), rd, rn), if up then offset else Wrap(0 - offset as int), 0, 0)])
  }

  predicate IsArmDp(insn: Word) {
    && Field(insn, 26, 2) == 0
    && !(Bit(insn, 24) && !Bit(insn, 23) && !Bit(insn, 20))
    && !(Field(insn, 25, 3) == 0 && Bit(insn, 7) && Bit(insn, 4))
  }

  predicate WritesResult(opcode: nat) { opcode < 8 || opcode >= 12 }

  predicate Logical(opcode: nat) { opcode == 0 || opcode == 1 || opcode == 8 || opcode == 9 || opcode >= 12 }

  /** Row of the compact three-register family, if the opcode has one. */
  function CompactRow(opcode: nat): Option<nat> {
    match opcode
    case 4 => Some(0)
    case 2 => Some(1)
    case 1 => Some(2)
    case 12 => Some(3)
    case _ => None
  }

  function DecodeArmDp(insn: Word, index: nat, pc: Word): Option<seq<Uop>> {
    var opcode, s := Field(insn, 21, 4), Bit(insn, 20);
    var rn, rd, rm := Field(insn, 16, 4), Field(insn, 12, 4), Field(insn, 0, 4);
    var writes := WritesResult(opcode);
    var hrd := if writes then rd else 0;
    var pcv := Wrap(pc + index * 4 + 8);
    if !writes && !s then None
    else if writes && rd == 15 then None
    else if Bit(insn, 25) then
      var rotate := 2 * Field(insn, 8, 4);
      var immediate := Rotated(Field(insn, 0, 8), rotate);
      Some([Uop(Op(DpImm, opcode, Num(s), hrd, rn), immediate, pcv,
                if rotate == 0 then 0 else if immediate >= 0x8000_0000 then 2 else 1)])
    else
      var carry := Num(Logical(opcode) && (s || !writes));
      if !s && rd <= 7 && rn <= 7 && rm <= 7 && Field(insn, 4, 8) == 0 && CompactRow(opcode).Some? then
        Some([Rec(Op(AluRRR, CompactRow(opcode).value, rd, rn, rm))])
      else if Bit(insn, 4) then
        var rs := Field(insn, 8, 4);
        if rd == 15 || rn == 15 || rm == 15 || rs == 15 then None
        else Some([Rec(Op(ShiftReg, carry, Field(insn, 5, 2), rm, rs)), Uop(Op(DpReg, opcode, Num(s), hrd, rn), 0, pcv, 0)])
      else
        Some([Uop(Op(ShiftImm, carry, Field(insn, 5, 2), rm, Field(insn, 7, 5)), 0, pcv, 0),
              Uop(Op(DpReg, opcode, Num(s), hrd, rn), 0, pcv, 0)])
  }

  // ------------------------------------------------------------ VFP

  function DecodeVfpCoreMove(insn: Word): Option<seq<Uop>> {
    var opc1, load, cp11 := Field(insn, 21, 3), Bit(insn, 20), Bit(insn, 8);
    var vn, rt := Field(insn, 16, 4), Field(insn, 12, 4);
    var low := Field(insn, 0, 4) != 0 || Field(insn, 5, 2) != 0;
    if !cp11 && opc1 == 0 then
      if low || rt == 15 then None
      else Some([Uop(Op(if load then VfpSToCore else VfpCoreToS, 0, 0, 0, rt), vn * 2 + Field(insn, 7, 1), 0, 0)])
    else if cp11 && opc1 <= 1 then
      if Bit(insn, 7) || low || rt == 15 then None
      else Some([Uop(Op(if load then VfpSToCore else VfpCoreToS, 0, 0, 0, rt), vn * 2 + opc1, 0, 0)])
    else if cp11 || opc1 != 7 || low || Bit(insn, 7) then None
    else if load then
      if vn == 1 && rt == 15 then Some([Rec(Op(VmrsApsr, 0, 0, 0, 0))])
      else if rt == 15 then None
      else if vn == 0 then Some([Rec(Op(Vmrs, 0, 0, 0, rt))])
      else if vn == 1 then Some([Rec(Op(Vmrs, 0, 0, 1, rt))])
      else if vn == 8 then Some([Rec(Op(Vmrs, 0, 0, 2, rt))])
      else None
    else if rt == 15 then None
    else if vn == 1 then Some([Rec(Op(Vmsr, 0, 0, 0, rt))])
    else if vn == 8 then Some([Rec(Op(Vmsr, 0, 0, 1, rt))])
    else None
  }

  function DecodeVfpPairMove(insn: Word): Option<seq<Uop>> {
    var load, dbl, m := Bit(insn, 20), Bit(insn, 8), Field(insn, 5, 1);
    var rt2, rt, vm := Field(insn, 16, 4), Field(insn, 12, 4), Field(insn, 0, 4);
    if Field(insn, 6, 2) != 0 || rt == 15 || rt2 == 15 then None
    else if dbl && m == 1 then None
    else if !dbl && vm * 2 + m == 31 then None
    else Some([Uop(Op(if load then VfpPairToCore else VfpCoreToPair, 0, 0, rt, rt2), vm * 2 + m, 0, 0)])
  }

  function DecodeVfpTransfer(insn: Word, pcv: Word, writes: bool): Option<seq<Uop>> {
    var pre, up, d, writeback, load := Bit(insn, 24), Bit(insn, 23), Field(insn, 22, 1), Bit(insn, 21), Bit(insn, 20);
    var dbl, rn, vd, imm8 := Bit(insn, 8), Field(insn, 16, 4), Field(insn, 12, 4), Field(insn, 0, 8);
    if pre && !writeback then
      if (!load && !writes) || (dbl && d == 1) then None
      else Some([Uop(Op(AddrImm, 0, 0, Num(up), rn), imm8 * 4, pcv, 0),
                 Uop(Op(if load then VfpRead else VfpWrite, 0, 0, 0, Num(dbl)), vd * 2 + d, 0, 0)])
    else if load || !writes || rn == 15 || imm8 == 0 then None
    else if !(!pre && up) && !(pre && !up && writeback) then None
    else
      var mode := if pre then 2 else if writeback then 1 else 0;
      if dbl then
        if d == 1 || imm8 % 2 != 0 || vd + imm8 / 2 > 16 then None
        else Some([Uop(Op(VstmWrite, 0, 0, mode, rn), vd * 2 + imm8 * 256, 0, 0)])
      else if vd * 2 + d + imm8 > 32 then None
      else Some([Uop(Op(VstmWrite, 0, 0, mode, rn), vd * 2 + d + imm8 * 256, 0, 0)])
  }

  /** The arithmetic operation a family and its alternate bit select. */
  function VfpOperation(family: nat, alt: bool): Option<nat> {
    match family
    case 0 => Some(if alt then 1 else 0)
    case 1 => Some(if alt then 3 else 2)
    case 2 => Some(if alt then 5 else 4)
    case 3 => Some(if alt then 7 else 6)
    case 4 => if alt then None else Some(8)
    case _ => None
  }

  function DecodeVfpData(insn: Word): Option<seq<Uop>> {
    var family := Field(insn, 23, 1) * 4 + Field(insn, 21, 1) * 2 + Field(insn, 20, 1);
    var opc2, top, dbl := Field(insn, 16, 4), Bit(insn, 7), Bit(insn, 8);
    var d, n, m := Field(insn, 22, 1), Field(insn, 7, 1), Field(insn, 5, 1);
    var rd := Field(insn, 12, 4) * 2 + (if dbl then 0 else d);
    var rm := Field(insn, 0, 4) * 2 + (if dbl then 0 else m);
    if family != 7 then
      match VfpOperation(family, Bit(insn, 6))
      case None => None
      case Some(operation) =>
        if dbl && (d == 1 || n == 1 || m == 1) then None
        else
          var rn := Field(insn, 16, 4) * 2 + (if dbl then 0 else n);
          Some([Uop(Op(VfpArith, 0, 0, Num(dbl), operation), rd + rn * 256 + rm * 0x1_0000, 0, 0)])
    else if !Bit(insn, 6) then None
    else if opc2 == 4 || opc2 == 5 then
      if opc2 == 5 && (Field(insn, 0, 4) != 0 || m == 1) then None
      else if dbl && (d == 1 || m == 1) then None
      else Some([Uop(Op(VfpCompare, 0, 0, 0, Num(dbl)),
                     rd + rm * 256 + Num(opc2 == 5) * 0x1_0000 + Num(top) * 0x2_0000, 0, 0)])
    else if opc2 == 7 && top && !dbl then
      if d == 1 then None
      else Some([Uop(Op(VfpWiden, 0, 0, 0, 0), Field(insn, 12, 4) * 2 + rm * 256, 0, 0)])
    else if opc2 > 1 || (opc2 == 1 && top) then None
    else if dbl && (d == 1 || m == 1) then None
    else Some([Uop(Op(VfpUnary, 0, 0, Num(dbl), if opc2 == 1 then 2 else if top then 1 else 0), rd + rm * 256, 0, 0)])
  }

  function DecodeVfp(insn: Word, pcv: Word, writes: bool): Option<seq<Uop>> {
    if Field(insn, 24, 4) == 14 && Field(insn, 9, 3) == 5 && Bit(insn, 4) then DecodeVfpCoreMove(insn)
    else if Field(insn, 21, 7) == 0x62 && Field(insn, 9, 3) == 5 then DecodeVfpPairMove(insn)
    else if Field(insn, 25, 3) == 6 && Field(insn, 9, 3) == 5 then DecodeVfpTransfer(insn, pcv, writes)
    else if Field(insn, 24, 4) == 14 && Field(insn, 9, 3) == 5 && !Bit(insn, 4) then DecodeVfpData(insn)
    else None
  }

  // ------------------------------------------------------------ A32, all classes

  function DecodeArmBody(insn: Word, index: nat, insns: nat, pc: Word, mode: Mode): (body: Option<seq<Uop>>)
    ensures body.Some? ==> 1 <= |body.value| <= 18
  {
    var vfp := if Reads(mode) then DecodeVfp(insn, Wrap(pc + index * 4 + 8), Writes(mode)) else None;
    if IsArmBx(insn) then DecodeArmBx(insn, index, insns)
    else if vfp.Some? then vfp
    else if Field(insn, 25, 3) == 4 then DecodeArmBlockTransfer(insn, index, insns, mode)
    else if Field(insn, 26, 2) == 1 then DecodeArmSingleTransfer(insn, index, insns, pc, mode)
    else if IsArmDp(insn) then DecodeArmDp(insn, index, pc)
    else None
  }

  /** A conditional body is preceded by a guard that knows how many records to skip. */
  function Guarded(condition: nat, body: seq<Uop>): seq<Uop>
    requires |body| < 0x1_0000_0000
  {
    if condition < 14 then [Uop(Op(Cond, 0, 0, 0, condition), 0, 0, |body|)] + body else body
  }

  function DecodeArm(insn: Word, index: nat, insns: nat, pc: Word, mode: Mode): Option<seq<Uop>> {
    if Field(insn, 28, 4) == 15 then None
    else if Field(insn, 25, 3) == 5 then DecodeArmBranch(insn, index, insns, pc)
    else
      match DecodeArmBody(insn, index, insns, pc, mode)
      case None => None
      case Some(body) => Some(Guarded(Field(insn, 28, 4), body))
  }

  // ------------------------------------------------------------ Thumb

  function ThumbDpReg(opcode: nat, s: bool, rd: nat, rn: nat, rm: nat, carry: bool, pcv: Word): seq<Uop> {
    [Uop(Op(ShiftImm, Num(carry), 0, rm, 0), 0, pcv, 0), Uop(Op(DpReg, opcode, Num(s), rd, rn), 0, pcv, 0)]
  }

  function ThumbShift(shifter: Op, rd: nat, pcv: Word): seq<Uop> {
    [Uop(shifter, 0, pcv, 0), Uop(Op(DpReg, 13, 1, rd, 0), 0, pcv, 0)]
  }

  function ThumbAccessImm(rn: nat, offset: Word, pcv: Word, access: Op): seq<Uop> {
    [Uop(Op(AddrImm, 0, 0, 1, rn), offset, pcv, 0), Rec(access)]
  }

  function ThumbAccessReg(rn: nat, rm: nat, pcv: Word, access: Op): seq<Uop> {
    [Uop(Op(ShiftImm, 0, 0, rm, 0), 0, pcv, 0), Uop(Op(AddrReg, 0, 0, 1, rn), 0, pcv, 0), Rec(access)]
  }

  predicate StoreAllowed(index: nat, insns: nat, mode: Mode) {
    Writes(mode) && index + 1 == insns
  }

  function ThumbAlu(insn: Word, pcv: Word): seq<Uop> {
    var rm, rd, opcode := Field(insn, 3, 3), Field(insn, 0, 3), Field(insn, 6, 4);
    match opcode
    case 1 => [Rec(Op(EorsRR, 0, 0, rd, rm))]
    case 2 => ThumbShift(Op(ShiftReg, 1, 0, rd, rm), rd, pcv)
    case 3 => ThumbShift(Op(ShiftReg, 1, 1, rd, rm), rd, pcv)
    case 4 => ThumbShift(Op(ShiftReg, 1, 2, rd, rm), rd, pcv)
    case 7 => ThumbShift(Op(ShiftReg, 1, 3, rd, rm), rd, pcv)
    case 9 => [Uop(Op(DpImm, 3, 1, rd, rm), 0, pcv, 0)]
    case 13 => [Rec(Op(MulsRR, 0, 0, rd, rm))]
    case _ =>
      var carry := opcode == 0 || opcode == 8 || opcode == 12 || opcode == 14 || opcode == 15;
      ThumbDpReg(opcode, true, if WritesResult(opcode) then rd else 0, if opcode == 15 then 0 else rd, rm, carry, pcv)
  }

  function ThumbHigh(insn: Word, pcv: Word): Option<seq<Uop>> {
    var operation := Field(insn, 8, 2);
    var rd := Field(insn, 0, 3) + 8 * Field(insn, 7, 1);
    var rm := Field(insn, 3, 3) + 8 * Field(insn, 6, 1);
    if operation == 3 || (operation != 1 && rd == 15) then None
    else
      var opcode := if operation == 0 then 4 else if operation == 1 then 10 else 13;
      Some(ThumbDpReg(opcode, operation == 1, if operation == 1 then 0 else rd, if operation == 2 then 0 else rd, rm, false, pcv))
  }

  /** Width and sign of a register-offset access; the first three are stores. */
  function ThumbKind(operation: nat): nat {
    match operation
    case 1 => 2
    case 2 => 1
    case 3 => 3
    case 5 => 2
    case 6 => 1
    case 7 => 4
    case _ => 0
  }

  function ThumbRegisterAccess(insn: Word, index: nat, insns: nat, pcv: Word, mode: Mode): Option<seq<Uop>> {
    var rd, rn, rm, operation := Field(insn, 0, 3), Field(insn, 3, 3), Field(insn, 6, 3), Field(insn, 9, 3);
    if !Reads(mode) || (operation <= 2 && !StoreAllowed(index, insns, mode)) then None
    else Some(ThumbAccessReg(rn, rm, pcv, Op(if operation <= 2 then DirectWrite else DirectRead, 0, 0, ThumbKind(operation), rd)))
  }

  function ThumbImmediateAccess(insn: Word, index: nat, insns: nat, pcv: Word, mode: Mode, kind: nat, scale: nat, load: bool)
      : Option<seq<Uop>>
    requires scale <= 4
  {
    var rd, rn, offset := Field(insn, 0, 3), Field(insn, 3, 3), Field(insn, 6, 5);
    if !Reads(mode) || (!load && !StoreAllowed(index, insns, mode)) then None
    else Some(ThumbAccessImm(rn, offset * scale, pcv, Op(if load then DirectRead else DirectWrite, 0, 0, kind, rd)))
  }

  function ThumbStackAccess(insn: Word, index: nat, insns: nat, pcv: Word, mode: Mode): Option<seq<Uop>> {
    var rd, load, offset := Field(insn, 8, 3), Bit(insn, 11), Field(insn, 0, 8) * 4;
    if Reads(mode) then
      if !load && !StoreAllowed(index, insns, mode) then None
      else Some(ThumbAccessImm(13, offset, pcv, Op(if load then DirectRead else DirectWrite, 0, 0, 0, rd)))
    else Some([Uop(Op(FlatSp, 0, 0, Num(!load), rd), offset, pcv, 0)])
  }

  function WordAligned(x: Word): Word { x - x % 4 }

  function DecodeThumb(insn: Word, index: nat, insns: nat, pc: Word, mode: Mode): Option<seq<Uop>>
    requires insn < 0x1_0000
  {
    var pcv := Wrap(pc + index * 2 + 4);
    if Field(insn, 12, 4) == 13 && Field(insn, 8, 4) < 14 then
      if index + 1 != insns then None
      else
        var displacement := Signed(Field(insn, 0, 8) * 0x100_0000) / 0x80_0000;
        Some([Uop(Op(BranchCond, 0, 0, 0, Field(insn, 8, 4)), Wrap(pcv + displacement), Wrap(pc + index * 2 + 2), 0)])
    else if Field(insn, 11, 5) == 0x1c then
      if index + 1 != insns then None
      else
        var displacement := Signed(Field(insn, 0, 11) * 0x20_0000) / 0x10_0000;
        Some([Uop(Op(End, 0, 0, 0, 0), Wrap(pc + index * 2 + 4 + displacement), 0, 0)])
    else if Field(insn, 8, 8) == 0x47 then
      var rm, link := Field(insn, 3, 4), Bit(insn, 7);
      if index + 1 != insns || (link && rm == 15) then None
      else Some([Rec(Op(if link then ThumbBlx else ThumbBx, 0, 0, 0, rm))])
    else if Field(insn, 11, 5) < 3 then
      Some(ThumbShift(Op(ShiftImm, 1, Field(insn, 11, 2), Field(insn, 3, 3), Field(insn, 6, 5)), Field(insn, 0, 3), pcv))
    else if Field(insn, 11, 5) == 3 then
      var rd, rn, operand, opcode := Field(insn, 0, 3), Field(insn, 3, 3), Field(insn, 6, 3), if Bit(insn, 9) then 2 else 4;
      if Bit(insn, 10) then Some([Uop(Op(DpImm, opcode, 1, rd, rn), operand, pcv, 0)])
      else Some(ThumbDpReg(opcode, true, rd, rn, operand, false, pcv))
    else if Field(insn, 13, 3) == 1 then
      var rd, operation := Field(insn, 8, 3), Field(insn, 11, 2);
      var op := if operation == 3 then Op(AluImm, 0, 4, rd, rd)
                else if operation == 2 then Op(AluImm, 0, 3, rd, rd)
                else if operation == 1 then Op(DpImm, 10, 1, 0, rd)
                else Op(DpImm, 13, 1, rd, 0);
      Some([Uop(op, Field(insn, 0, 8), pcv, 0)])
    else if Field(insn, 10, 6) == 0x10 then Some(ThumbAlu(insn, pcv))
    else if Field(insn, 10, 6) == 0x11 then ThumbHigh(insn, pcv)
    else if Field(insn, 11, 5) == 9 then
      if !Reads(mode) then None
      else Some(ThumbAccessImm(15, Field(insn, 0, 8) * 4, WordAligned(pcv), Op(DirectRead, 0, 0, 0, Field(insn, 8, 3))))
    else if Field(insn, 12, 4) == 5 then ThumbRegisterAccess(insn, index, insns, pcv, mode)
    else if Field(insn, 13, 3) == 3 then
      ThumbImmediateAccess(insn, index, insns, pcv, mode, Num(Bit(insn, 12)), if Bit(insn, 12) then 1 else 4, Bit(insn, 11))
    else if Field(insn, 12, 4) == 8 then ThumbImmediateAccess(insn, index, insns, pcv, mode, 2, 2, Bit(insn, 11))
    else if Field(insn, 12, 4) == 9 then ThumbStackAccess(insn, index, insns, pcv, mode)
    else if Field(insn, 12, 4) == 10 then
      var sp := Bit(insn, 11);
      Some([Uop(Op(DpImm, 4, 0, Field(insn, 8, 3), if sp then 13 else 15), Field(insn, 0, 8) * 4,
                if sp then pcv else WordAligned(pcv), 0)])
    else if Field(insn, 8, 8) == 0xb0 then
      Some([Uop(Op(DpImm, if Bit(insn, 7) then 2 else 4, 0, 13, 13), Field(insn, 0, 7) * 4, pcv, 0)])
    else None
  }
}
