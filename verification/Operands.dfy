/** The decoder forms no handler id from an operand outside its family's range. */
module Operands {
  import opened Words
  import opened Handlers
  import opened Decode
  import opened Program

  ghost predicate AllLegal(s: seq<Uop>) { forall k :: 0 <= k < |s| ==> Legal(s[k].op) }

  // ------------------------------------------------------------ A32

  lemma BranchLegal(insn: Word, i: nat, insns: nat, pc: Word)
    requires Field(insn, 28, 4) != 15 && DecodeArmBranch(insn, i, insns, pc).Some?
    ensures AllLegal(DecodeArmBranch(insn, i, insns, pc).value)
  {
    hide Field, Signed, Wrap;
  }

  lemma ExchangeLegal(insn: Word, i: nat, insns: nat)
    requires DecodeArmBx(insn, i, insns).Some?
    ensures AllLegal(DecodeArmBx(insn, i, insns).value)
  {
    hide Field;
  }

  lemma CommitsLegal(load: bool, regs: seq<nat>)
    requires forall k :: 0 <= k < |regs| ==> regs[k] < if load then 15 else 16
    ensures AllLegal(Commits(if load then LdmCommit else StmCommit, regs))
  {
  }

  lemma PreflightLegal(load: bool, pre: bool, up: bool, rn: nat)
    requires rn < 15
    ensures Legal(Op(if load then LdmPreflight else StmPreflight, 0, Num(pre), Num(up), rn))
  {
  }

  lemma FinishLegal(load: bool, writeback: bool, rn: nat)
    requires rn < 15
    ensures Legal(if load then (if writeback then Op(LdmFinishWb, 0, 0, 0, rn) else Op(LdmFinish, 0, 0, 0, 0))
                  else (if writeback then Op(StmFinishWb, 0, 0, 0, rn) else Op(StmFinish, 0, 0, 0, 0)))
  {
  }

  lemma BlockTransferLegal(insn: Word, i: nat, insns: nat, mode: Mode)
    requires DecodeArmBlockTransfer(insn, i, insns, mode).Some?
    ensures AllLegal(DecodeArmBlockTransfer(insn, i, insns, mode).value)
  {
    hide Field, Legal, Regs;
    var pre, up, writeback, load := Bit(insn, 24), Bit(insn, 23), Bit(insn, 21), Bit(insn, 20);
    var rn, regs := Field(insn, 16, 4), Regs(insn, 16);
    PreflightLegal(load, pre, up, rn);
    FinishLegal(load, writeback, rn);
    CommitsLegal(load, regs);
  }

  lemma AddressLegal(f: Family, up: bool, rn: nat)
    requires (IsAddrImm(f) || IsAddrReg(f)) && rn < 16
    ensures Legal(Op(f, 0, 0, Num(up), rn))
  {
  }

  lemma ShiftLegal(carry: bool, kind: nat, rm: nat, amount: nat)
    requires kind < 4 && rm < 16 && amount < 32
    ensures Legal(Op(ShiftImm, Num(carry), kind, rm, amount))
  {
  }

  lemma TransferLegal(load: bool, writeback: bool, unprivileged: bool, kind: nat, rd: nat, rn: nat)
    requires kind < 2 && rd < 16 && rn < 16 && (load ==> rd < 15) && (!load && writeback ==> rn < 15)
    ensures Legal(TransferOp(load, writeback, unprivileged, kind, rd, rn))
  {
  }

  lemma SingleTransferLegal(insn: Word, i: nat, insns: nat, pc: Word, mode: Mode)
    requires DecodeArmSingleTransfer(insn, i, insns, pc, mode).Some?
    ensures AllLegal(DecodeArmSingleTransfer(insn, i, insns, pc, mode).value)
  {
    hide Field, Legal, Wrap, TransferOp;
    var rn, rd, up := Field(insn, 16, 4), Field(insn, 12, 4), Bit(insn, 23);
    var load, pre := Bit(insn, 20), Bit(insn, 24);
    var writeback := !pre || Bit(insn, 21);
    if Reads(mode) {
      TransferLegal(load, writeback, !pre && Bit(insn, 21), Num(Bit(insn, 22)), rd, rn);
      AddressLegal(if pre then AddrReg else PostAddrReg, up, rn);
      AddressLegal(if pre then AddrImm else PostAddrImm, up, rn);
      ShiftLegal(false, Field(insn, 5, 2), Field(insn, 0, 4), Field(insn, 7, 5));
    } else {
      FlatWordLegal(load, rd, rn);
    }
  }

  lemma FlatWordLegal(load: bool, rd: nat, rn: nat)
    requires rd < 8 && rn < 8
    ensures Legal(Op(FlatWord, 0, Num(!load), rd, rn))
  {
  }

  lemma DataProcessingLegal(f: Family, opcode: nat, sets: bool, rd: nat, rn: nat)
    requires (f == DpImm || f == DpReg) && opcode < 16 && rd < 15 && rn < 16
    ensures Legal(Op(f, opcode, Num(sets), rd, rn))
  {
  }

  lemma ShiftRegLegal(carry: nat, kind: nat, rm: nat, rs: nat)
    requires carry < 2 && kind < 4 && rm < 15 && rs < 15
    ensures Legal(Op(ShiftReg, carry, kind, rm, rs))
  {
  }

  lemma CompactLegal(row: nat, rd: nat, rn: nat, rm: nat)
    requires row < 4 && rd < 8 && rn < 8 && rm < 8
    ensures Legal(Op(AluRRR, row, rd, rn, rm))
  {
  }

  lemma ArmDpLegal(insn: Word, i: nat, pc: Word)
    requires DecodeArmDp(insn, i, pc).Some?
    ensures AllLegal(DecodeArmDp(insn, i, pc).value)
  {
    hide Field, Legal, Wrap, Rotated, Logical;
    var opcode, sets := Field(insn, 21, 4), Bit(insn, 20);
    var rn, rd, rm := Field(insn, 16, 4), Field(insn, 12, 4), Field(insn, 0, 4);
    var writes := WritesResult(opcode);
    var carry := Logical(opcode) && (sets || !writes);
    DataProcessingLegal(DpImm, opcode, sets, if writes then rd else 0, rn);
    DataProcessingLegal(DpReg, opcode, sets, if writes then rd else 0, rn);
    ShiftLegal(carry, Field(insn, 5, 2), rm, Field(insn, 7, 5));
    if rm < 15 && Field(insn, 8, 4) < 15 {
      ShiftRegLegal(Num(carry), Field(insn, 5, 2), rm, Field(insn, 8, 4));
    }
    if CompactRow(opcode).Some? && rd < 8 && rn < 8 && rm < 8 {
      CompactLegal(CompactRow(opcode).value, rd, rn, rm);
    }
  }

  // ------------------------------------------------------------ VFP

  lemma CoreMoveLegal(insn: Word)
    requires DecodeVfpCoreMove(insn).Some?
    ensures AllLegal(DecodeVfpCoreMove(insn).value)
  {
    hide Field;
  }

  lemma PairMoveLegal(insn: Word)
    requires DecodeVfpPairMove(insn).Some?
    ensures AllLegal(DecodeVfpPairMove(insn).value)
  {
    hide Field;
  }

  lemma VfpTransferLegal(insn: Word, pcv: Word, writes: bool)
    requires DecodeVfpTransfer(insn, pcv, writes).Some?
    ensures AllLegal(DecodeVfpTransfer(insn, pcv, writes).value)
  {
    hide Field;
  }

  lemma VfpDataLegal(insn: Word)
    requires DecodeVfpData(insn).Some?
    ensures AllLegal(DecodeVfpData(insn).value)
  {
    hide Field;
  }

  lemma VfpLegal(insn: Word, pcv: Word, writes: bool)
    requires DecodeVfp(insn, pcv, writes).Some?
    ensures AllLegal(DecodeVfp(insn, pcv, writes).value)
  {
    hide Field, AllLegal, DecodeVfpCoreMove, DecodeVfpPairMove, DecodeVfpTransfer, DecodeVfpData;
    if DecodeVfpCoreMove(insn).Some? {
      CoreMoveLegal(insn);
    }
    if DecodeVfpPairMove(insn).Some? {
      PairMoveLegal(insn);
    }
    if DecodeVfpTransfer(insn, pcv, writes).Some? {
      VfpTransferLegal(insn, pcv, writes);
    }
    if DecodeVfpData(insn).Some? {
      VfpDataLegal(insn);
    }
  }

  // ------------------------------------------------------------ A32, all classes

  lemma BodyLegal(insn: Word, i: nat, insns: nat, pc: Word, mode: Mode)
    requires DecodeArmBody(insn, i, insns, pc, mode).Some?
    ensures AllLegal(DecodeArmBody(insn, i, insns, pc, mode).value)
  {
    hide Field, AllLegal, IsArmBx, IsArmDp, DecodeVfp, DecodeArmBx, DecodeArmBlockTransfer, DecodeArmSingleTransfer, DecodeArmDp, Wrap;
    var pcv := Wrap(pc + i * 4 + 8);
    if IsArmBx(insn) {
      ExchangeLegal(insn, i, insns);
    } else if Reads(mode) && DecodeVfp(insn, pcv, Writes(mode)).Some? {
      VfpLegal(insn, pcv, Writes(mode));
    } else if Field(insn, 25, 3) == 4 {
      BlockTransferLegal(insn, i, insns, mode);
    } else if Field(insn, 26, 2) == 1 {
      SingleTransferLegal(insn, i, insns, pc, mode);
    } else {
      ArmDpLegal(insn, i, pc);
    }
  }

  lemma GuardLegal(condition: nat, body: seq<Uop>)
    requires |body| < 0x1_0000_0000 && AllLegal(body)
    ensures AllLegal(Guarded(condition, body))
  {
    var s := Guarded(condition, body);
    forall k | 0 <= k < |s|
      ensures Legal(s[k].op)
    {
      if condition < 14 && k > 0 {
        assert s[k] == body[k - 1];
      }
    }
  }

  lemma ArmLegal(insn: Word, i: nat, insns: nat, pc: Word, mode: Mode)
    requires DecodeArm(insn, i, insns, pc, mode).Some?
    ensures AllLegal(DecodeArm(insn, i, insns, pc, mode).value)
  {
    hide Field, AllLegal, DecodeArmBody, DecodeArmBranch, Guarded;
    if Field(insn, 25, 3) == 5 {
      BranchLegal(insn, i, insns, pc);
    } else {
      BodyLegal(insn, i, insns, pc, mode);
      GuardLegal(Field(insn, 28, 4), DecodeArmBody(insn, i, insns, pc, mode).value);
    }
  }

  // ------------------------------------------------------------ Thumb

  lemma ThumbShiftLegal(shifter: Op, rd: nat, pcv: Word)
    requires Legal(shifter) && rd < 15
    ensures AllLegal(ThumbShift(shifter, rd, pcv))
  {
    DataProcessingLegal(DpReg, 13, true, rd, 0);
  }

  lemma ThumbDpRegLegal(opcode: nat, sets: bool, rd: nat, rn: nat, rm: nat, carry: bool, pcv: Word)
    requires opcode < 16 && rd < 15 && rn < 16 && rm < 16
    ensures AllLegal(ThumbDpReg(opcode, sets, rd, rn, rm, carry, pcv))
  {
    hide Legal;
    ShiftLegal(carry, 0, rm, 0);
    DataProcessingLegal(DpReg, opcode, sets, rd, rn);
  }

  lemma AccessLegal(load: bool, kind: nat, rd: nat)
    requires kind < 5 && (load || kind < 3) && rd < 15
    ensures Legal(Op(if load then DirectRead else DirectWrite, 0, 0, kind, rd))
  {
  }

  lemma ThumbAccessImmLegal(load: bool, kind: nat, rd: nat, rn: nat, offset: Word, pcv: Word)
    requires kind < 5 && (load || kind < 3) && rd < 15 && rn < 16
    ensures AllLegal(ThumbAccessImm(rn, offset, pcv, Op(if load then DirectRead else DirectWrite, 0, 0, kind, rd)))
  {
    hide Legal;
    AccessLegal(load, kind, rd);
    AddressLegal(AddrImm, true, rn);
  }

  lemma RegisterAccessLegal(insn: Word, i: nat, insns: nat, pcv: Word, mode: Mode)
    requires ThumbRegisterAccess(insn, i, insns, pcv, mode).Some?
    ensures AllLegal(ThumbRegisterAccess(insn, i, insns, pcv, mode).value)
  {
    hide Field, Legal;
    var rd, rn, rm, operation := Field(insn, 0, 3), Field(insn, 3, 3), Field(insn, 6, 3), Field(insn, 9, 3);
    AccessLegal(operation > 2, ThumbKind(operation), rd);
    ShiftLegal(false, 0, rm, 0);
    AddressLegal(AddrReg, true, rn);
  }

  lemma StackAccessLegal(insn: Word, i: nat, insns: nat, pcv: Word, mode: Mode)
    requires ThumbStackAccess(insn, i, insns, pcv, mode).Some?
    ensures AllLegal(ThumbStackAccess(insn, i, insns, pcv, mode).value)
  {
    hide Field, Legal, ThumbAccessImm;
    var rd, load, offset: Word := Field(insn, 8, 3), Bit(insn, 11), Field(insn, 0, 8) * 4;
    if Reads(mode) {
      ThumbAccessImmLegal(load, 0, rd, 13, offset, pcv);
    } else {
      FlatSpLegal(load, rd);
    }
  }

  lemma FlatSpLegal(load: bool, rd: nat)
    requires rd < 8
    ensures Legal(Op(FlatSp, 0, 0, Num(!load), rd))
  {
  }

  lemma ThumbAluLegal(insn: Word, pcv: Word)
    ensures AllLegal(ThumbAlu(insn, pcv))
  {
    hide Field, Legal, ThumbShift, ThumbDpReg;
    var rm, rd, opcode := Field(insn, 3, 3), Field(insn, 0, 3), Field(insn, 6, 4);
    PairLegal(rd, rm);
    if opcode == 2 || opcode == 3 || opcode == 4 || opcode == 7 {
      var kind := if opcode == 7 then 3 else opcode - 2;
      ShiftRegLegal(1, kind, rd, rm);
      ThumbShiftLegal(Op(ShiftReg, 1, kind, rd, rm), rd, pcv);
    } else {
      DataProcessingLegal(DpImm, 3, true, rd, rm);
      var carry := opcode == 0 || opcode == 8 || opcode == 12 || opcode == 14 || opcode == 15;
      ThumbDpRegLegal(opcode, true, if WritesResult(opcode) then rd else 0, if opcode == 15 then 0 else rd, rm, carry, pcv);
    }
  }

  lemma PairLegal(rd: nat, rm: nat)
    requires rd < 8 && rm < 8
    ensures Legal(Op(EorsRR, 0, 0, rd, rm)) && Legal(Op(MulsRR, 0, 0, rd, rm))
  {
  }

  lemma ThumbHighLegal(insn: Word, pcv: Word)
    requires ThumbHigh(insn, pcv).Some?
    ensures AllLegal(ThumbHigh(insn, pcv).value)
  {
    hide Field, ThumbDpReg, AllLegal;
    var operation := Field(insn, 8, 2);
    var rd := Field(insn, 0, 3) + 8 * Field(insn, 7, 1);
    var rm := Field(insn, 3, 3) + 8 * Field(insn, 6, 1);
    var opcode := if operation == 0 then 4 else if operation == 1 then 10 else 13;
    ThumbDpRegLegal(opcode, operation == 1, if operation == 1 then 0 else rd, if operation == 2 then 0 else rd, rm, false, pcv);
  }

  lemma StackArithmeticLegal(opcode: nat, rd: nat, rn: nat, u: Uop)
    requires opcode < 16 && rd < 15 && rn < 16 && u.op == Op(DpImm, opcode, 0, rd, rn)
    ensures AllLegal([u])
  {
  }

  lemma ThumbLegal(insn: Word, i: nat, insns: nat, pc: Word, mode: Mode)
    requires insn < 0x1_0000 && DecodeThumb(insn, i, insns, pc, mode).Some?
    ensures AllLegal(DecodeThumb(insn, i, insns, pc, mode).value)
  {
    hide Field, AllLegal, Wrap, Signed, WordAligned, ThumbAlu, ThumbHigh, ThumbRegisterAccess, ThumbStackAccess, ThumbAccessImm, ThumbShift, ThumbDpReg;
    var pcv := Wrap(pc + i * 2 + 4);
    if Field(insn, 12, 4) == 13 && Field(insn, 8, 4) < 14 {
      LowLegal(insn, i, insns, pc, mode);
    } else if Field(insn, 11, 5) == 0x1c || Field(insn, 8, 8) == 0x47 {
      LowLegal(insn, i, insns, pc, mode);
    } else if Field(insn, 11, 5) < 3 {
      ShiftLegal(true, Field(insn, 11, 2), Field(insn, 3, 3), Field(insn, 6, 5));
      ThumbShiftLegal(Op(ShiftImm, 1, Field(insn, 11, 2), Field(insn, 3, 3), Field(insn, 6, 5)), Field(insn, 0, 3), pcv);
    } else if Field(insn, 11, 5) == 3 {
      if Bit(insn, 10) {
        LowLegal(insn, i, insns, pc, mode);
      } else {
        ThumbDpRegLegal(if Bit(insn, 9) then 2 else 4, true, Field(insn, 0, 3), Field(insn, 3, 3), Field(insn, 6, 3), false, pcv);
      }
    } else if Field(insn, 13, 3) == 1 {
      LowLegal(insn, i, insns, pc, mode);
    } else if Field(insn, 10, 6) == 0x10 {
      ThumbAluLegal(insn, pcv);
    } else if Field(insn, 10, 6) == 0x11 {
      ThumbHighLegal(insn, pcv);
    } else {
      UpperLegal(insn, i, insns, pc, mode);
    }
  }

  /** Single records whose operands are fields of the halfword. */
  lemma LowLegal(insn: Word, i: nat, insns: nat, pc: Word, mode: Mode)
    requires insn < 0x1_0000 && DecodeThumb(insn, i, insns, pc, mode).Some?
    requires (Field(insn, 12, 4) == 13 && Field(insn, 8, 4) < 14) || Field(insn, 11, 5) == 0x1c || Field(insn, 8, 8) == 0x47
             || (Field(insn, 11, 5) >= 3 && ((Field(insn, 11, 5) == 3 && Bit(insn, 10)) || (Field(insn, 11, 5) != 3 && Field(insn, 13, 3) == 1)))
    ensures AllLegal(DecodeThumb(insn, i, insns, pc, mode).value)
  {
    hide Field, Wrap, Signed;
  }

  lemma UpperLegal(insn: Word, i: nat, insns: nat, pc: Word, mode: Mode)
    requires insn < 0x1_0000 && DecodeThumb(insn, i, insns, pc, mode).Some?
    requires !(Field(insn, 12, 4) == 13 && Field(insn, 8, 4) < 14) && Field(insn, 11, 5) != 0x1c && Field(insn, 8, 8) != 0x47
    requires Field(insn, 11, 5) > 3 && Field(insn, 13, 3) != 1 && Field(insn, 10, 6) != 0x10 && Field(insn, 10, 6) != 0x11
    ensures AllLegal(DecodeThumb(insn, i, insns, pc, mode).value)
  {
    hide Field, AllLegal, Wrap, Signed, WordAligned, ThumbRegisterAccess, ThumbStackAccess, ThumbAccessImm, ThumbShift, ThumbDpReg, ThumbAlu, ThumbHigh;
    var pcv := Wrap(pc + i * 2 + 4);
    if Field(insn, 11, 5) == 9 {
      ThumbAccessImmLegal(true, 0, Field(insn, 8, 3), 15, Field(insn, 0, 8) * 4, WordAligned(pcv));
    } else if Field(insn, 12, 4) == 5 {
      RegisterAccessLegal(insn, i, insns, pcv, mode);
    } else if Field(insn, 13, 3) == 3 {
      var scale := if Bit(insn, 12) then 1 else 4;
      ThumbAccessImmLegal(Bit(insn, 11), Num(Bit(insn, 12)), Field(insn, 0, 3), Field(insn, 3, 3), Field(insn, 6, 5) * scale, pcv);
    } else if Field(insn, 12, 4) == 8 {
      ThumbAccessImmLegal(Bit(insn, 11), 2, Field(insn, 0, 3), Field(insn, 3, 3), Field(insn, 6, 5) * 2, pcv);
    } else if Field(insn, 12, 4) == 9 {
      StackAccessLegal(insn, i, insns, pcv, mode);
    } else {
      var u := DecodeThumb(insn, i, insns, pc, mode).value[0];
      StackArithmeticLegal(u.op.a, u.op.c, u.op.d, u);
    }
  }

  // ------------------------------------------------------------ Main result

  /** For every word, place, length and mode, every record the decoder emits names a handler of the table with operands in
      their ranges; so its id stands for exactly that handler, and testing the id against the handler count refuses nothing. */
  lemma DecodedLegal(insn: Word, i: nat, insns: nat, thumb: bool, pc: Word, mode: Mode)
    requires (thumb ==> insn < 0x1_0000) && DecodeOne(insn, i, insns, thumb, pc, mode).Some?
    ensures var s := DecodeOne(insn, i, insns, thumb, pc, mode).value;
            forall k :: 0 <= k < |s| ==> Legal(s[k].op) && Id(s[k].op) < HANDLER_COUNT && At(Id(s[k].op)) == s[k].op
  {
    hide Legal, Id, At, DecodeThumb, DecodeArm;
    if thumb {
      ThumbLegal(insn, i, insns, pc, mode);
    } else {
      ArmLegal(insn, i, insns, pc, mode);
    }
    var s := DecodeOne(insn, i, insns, thumb, pc, mode).value;
    forall k | 0 <= k < |s|
      ensures Legal(s[k].op) && Id(s[k].op) < HANDLER_COUNT && At(Id(s[k].op)) == s[k].op
    {
      AtId(s[k].op);
    }
  }
}
