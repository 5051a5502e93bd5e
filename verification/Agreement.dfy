/** Every block the decoder returns is one the validators accept. */
module Agreement {
  import opened Words
  import opened Handlers
  import opened Decode
  import opened Program
  import opened Operands
  import opened Validate

  /** Where an instruction stands: its index, the block length and start, the instruction set and the contract. */
  datatype Place = Place(i: nat, insns: nat, pc: Word, thumb: bool, mode: Mode)

  ghost predicate TerminalForm(u: Uop, p: Place) {
    && p.i + 1 == p.insns
    && if IsIndirectBranch(u.op.f) then u.imm == 0
       else u.pcv == InsnPc(p.pc, p.insns, p.thumb) && u.meta == 0 && u.imm % Width(p.thumb) == 0
            && (p.thumb ==> u.op.f == BranchCond)
  }

  /** What holds of each record an instruction decodes to, before guard metadata is filled in. */
  ghost predicate RecordForm(u: Uop, last: bool, p: Place) {
    var f := u.op.f;
    && KindAllows(f, p.mode)
    && (IsDirectWrite(f) ==> last && StoreImmediate(u))
    && (f == VfpArith ==> VfpArithImmediate(u))
    && (f == DpImm ==> u.meta <= 2)
    && (IsTerminalBranch(f) ==> last && TerminalForm(u, p))
  }

  /** A decoded instruction: a bare fixed exit, or exactly one semantic instruction behind its guard. */
  ghost predicate Formed(s: seq<Uop>, p: Place) {
    && s != []
    && (if s[0].op.f == End then |s| == 1 && p.i + 1 == p.insns else Stride(s, 0, |s|) == |s|)
    && (forall j :: 0 <= j < |s| ==> RecordForm(s[j], j + 1 == |s|, p) && (s[j].op.f == End ==> j == 0))
  }

  /** Families whose record is a whole semantic instruction by itself. */
  predicate Alone(f: Family) {
    || f == AluRRR || f == AluImm || f == EorsRR || f == MulsRR || f == FlatWord || f == FlatSp || f == DpImm || f == VstmWrite
    || (IsVfp(f) && f != VfpRead && f != VfpWrite) || IsTerminalBranch(f)
  }

  lemma FormedOne(u: Uop, p: Place)
    requires Alone(u.op.f) && RecordForm(u, true, p)
    ensures Formed([u], p)
  {
    hide RecordForm;
    assert Span([u], 0, 1) == 1;
  }

  lemma FormedEnd(u: Uop, p: Place)
    requires u.op.f == End && p.i + 1 == p.insns
    ensures Formed([u], p)
  {
  }

  lemma FormedTwo(a: Uop, b: Uop, p: Place)
    requires (IsShift(a.op.f) && b.op.f == DpReg) || (IsAddrImm(a.op.f) && (IsDirectRead(b.op.f) || IsDirectWrite(b.op.f)))
    requires RecordForm(b, true, p)
    ensures Formed([a, b], p)
  {
    var s := [a, b];
    assert Span(s, 0, 2) == 2;
    assert RecordForm(a, false, p);
  }

  lemma ShiftForm(a: Uop, p: Place)
    requires IsShift(a.op.f)
    ensures RecordForm(a, false, p)
  {
  }

  lemma AddressForm(b: Uop, p: Place)
    requires IsAddrReg(b.op.f)
    ensures RecordForm(b, false, p)
  {
  }

  lemma FormedThree(a: Uop, b: Uop, c: Uop, p: Place)
    requires IsShift(a.op.f) && IsAddrReg(b.op.f) && (IsDirectRead(c.op.f) || IsDirectWrite(c.op.f)) && RecordForm(c, true, p)
    ensures Formed([a, b, c], p)
  {
    hide RecordForm;
    var s := [a, b, c];
    assert Span(s, 0, 3) == 3;
    ShiftForm(a, p);
    AddressForm(b, p);
  }

  lemma Displacement(insn: Word)
    ensures Signed(Wrap(insn * 256)) / 64 % 4 == 0
  {
    var x := Wrap(insn * 256);
    var k: int := x / 256;
    assert x == 256 * k;
    assert Signed(x) == 256 * (if x < 0x8000_0000 then k else k - 0x100_0000);
  }

  lemma WordAlignedSum(pc: Word, index: nat, displacement: int)
    requires pc % 4 == 0 && displacement % 4 == 0
    ensures Wrap(pc + index * 4 + 8 + displacement) % 4 == 0
  {
    var x := pc + index * 4 + 8 + displacement;
    var k: int := pc / 4 + index + 2 + displacement / 4;
    assert x == 4 * k;
    assert Wrap(x) == 4 * (k - 0x4000_0000 * (x / 0x1_0000_0000));
  }

  lemma BranchRecordForm(u: Uop, p: Place)
    requires u.op.f == BranchCond || (u.op.f == BranchLink && !p.thumb)
    requires p.i + 1 == p.insns && u.imm % Width(p.thumb) == 0 && u.pcv == InsnPc(p.pc, p.insns, p.thumb) && u.meta == 0
    ensures RecordForm(u, true, p)
  {
  }

  lemma ArmBranchFormed(insn: Word, p: Place)
    requires !p.thumb && p.pc % 4 == 0 && Field(insn, 28, 4) != 15
    requires DecodeArmBranch(insn, p.i, p.insns, p.pc).Some?
    ensures Formed(DecodeArmBranch(insn, p.i, p.insns, p.pc).value, p)
  {
    hide Field, Formed, RecordForm, Signed, Wrap;
    Displacement(insn);
    WordAlignedSum(p.pc, p.i, Signed(Wrap(insn * 256)) / 64);
    var u := DecodeArmBranch(insn, p.i, p.insns, p.pc).value[0];
    if u.op.f == End {
      FormedEnd(u, p);
    } else {
      BranchRecordForm(u, p);
      FormedOne(u, p);
    }
  }

  lemma ArmBxFormed(insn: Word, p: Place)
    requires !p.thumb && DecodeArmBx(insn, p.i, p.insns).Some?
    ensures Formed(DecodeArmBx(insn, p.i, p.insns).value, p)
  {
    hide Field, Formed;
    FormedOne(DecodeArmBx(insn, p.i, p.insns).value[0], p);
  }

  lemma TransferRecordForm(load: bool, writeback: bool, pre: bool, unprivileged: bool, kind: nat, rd: nat, rn: nat, p: Place)
    requires Reads(p.mode) && (!load ==> Writes(p.mode)) && (unprivileged ==> !pre)
    ensures RecordForm(Uop(TransferOp(load, writeback, unprivileged, kind, rd, rn),
                           if !load && writeback && !pre then 1 else 0, 0, 0), true, p)
  {
  }

  lemma ArmSingleTransferFormed(insn: Word, p: Place)
    requires !p.thumb && DecodeArmSingleTransfer(insn, p.i, p.insns, p.pc, p.mode).Some?
    ensures Formed(DecodeArmSingleTransfer(insn, p.i, p.insns, p.pc, p.mode).value, p)
  {
    hide Field, Formed, RecordForm;
    var s := DecodeArmSingleTransfer(insn, p.i, p.insns, p.pc, p.mode).value;
    if Reads(p.mode) {
      var load, pre := Bit(insn, 20), Bit(insn, 24);
      TransferRecordForm(load, !pre || Bit(insn, 21), pre, !pre && Bit(insn, 21), Num(Bit(insn, 22)),
                         Field(insn, 12, 4), Field(insn, 16, 4), p);
      if Bit(insn, 25) {
        FormedThree(s[0], s[1], s[2], p);
      } else {
        FormedTwo(s[0], s[1], p);
      }
    } else {
      FlatRecordForm(s[0], p);
      FormedOne(s[0], p);
    }
  }

  lemma FlatRecordForm(u: Uop, p: Place)
    requires u.op.f == FlatWord || u.op.f == FlatSp
    requires p.mode == Flat
    ensures RecordForm(u, true, p)
  {
  }

  lemma AluRecordForm(u: Uop, p: Place)
    requires u.op.f == AluRRR || u.op.f == AluImm || u.op.f == EorsRR || u.op.f == MulsRR || u.op.f == DpReg
             || (u.op.f == DpImm && u.meta <= 2)
    ensures RecordForm(u, true, p)
  {
  }

  lemma ArmDpFormed(insn: Word, p: Place)
    requires !p.thumb && DecodeArmDp(insn, p.i, p.pc).Some?
    ensures Formed(DecodeArmDp(insn, p.i, p.pc).value, p)
  {
    hide Field, Formed, RecordForm, Rotated;
    var s := DecodeArmDp(insn, p.i, p.pc).value;
    AluRecordForm(s[|s| - 1], p);
    if |s| == 1 {
      FormedOne(s[0], p);
    } else {
      FormedTwo(s[0], s[1], p);
    }
  }

  lemma BlockTransferSpan(s: seq<Uop>, regs: seq<nat>, load: bool)
    requires |s| == |regs| + 2 && 0 < |regs| <= (if load then 15 else 16)
    requires s[0].op.f == PreflightFamily(load) && s[0].imm == |regs|
    requires s[1..|regs| + 1] == Commits(CommitFamily(load), regs)
    requires forall j, k :: 0 <= j < k < |regs| ==> regs[j] < regs[k]
    requires FinishRecord(s[|regs| + 1], |regs|, load)
    requires IsFinishWb(s[|regs| + 1].op.f, load) ==> s[|regs| + 1].op.d == s[0].op.d && s[0].op.d !in regs
    ensures Stride(s, 0, |s|) == |s|
  {
    hide IsFinish, IsFinishWb;
    var commits := s[1..|regs| + 1];
    assert CommitList(commits, load);
    assert s[0].op.d !in regs ==> s[0].op.d !in Registers(commits);
    assert BlockSpan(s, 0, |s|, load) == |s|;
  }

  lemma BlockRecordForms(s: seq<Uop>, regs: seq<nat>, load: bool, p: Place)
    requires |s| == |regs| + 2 && 0 < |regs| <= 16 && Reads(p.mode) && (!load ==> Writes(p.mode))
    requires s[0].op.f == PreflightFamily(load)
    requires s[1..|regs| + 1] == Commits(CommitFamily(load), regs)
    requires FinishRecord(s[|regs| + 1], |regs|, load)
    ensures forall j :: 0 <= j < |s| ==> RecordForm(s[j], j + 1 == |s|, p) && s[j].op.f != End
  {
    forall j | 0 <= j < |s|
      ensures RecordForm(s[j], j + 1 == |s|, p) && s[j].op.f != End
    {
      if 0 < j <= |regs| {
        assert s[j] == s[1..|regs| + 1][j - 1];
      }
    }
  }

  lemma ArmBlockTransferFormed(insn: Word, p: Place)
    requires !p.thumb && DecodeArmBlockTransfer(insn, p.i, p.insns, p.mode).Some?
    ensures Formed(DecodeArmBlockTransfer(insn, p.i, p.insns, p.mode).value, p)
  {
    hide Field, Stride, RecordForm;
    var s := DecodeArmBlockTransfer(insn, p.i, p.insns, p.mode).value;
    var regs := Regs(insn, 16);
    var load := Bit(insn, 20);
    assert s[1..|regs| + 1] == Commits(CommitFamily(load), regs);
    if load && |regs| == 16 {
      AllSixteen(regs);
      assert false;
    }
    BlockTransferSpan(s, regs, load);
    BlockRecordForms(s, regs, load, p);
  }

  /** Sixteen ascending numbers below sixteen end with fifteen. */
  lemma AllSixteen(regs: seq<nat>)
    requires |regs| == 16 && (forall k :: 0 <= k < 16 ==> regs[k] < 16) && forall j, k :: 0 <= j < k < 16 ==> regs[j] < regs[k]
    ensures regs[15] == 15
  {
    assert regs[0] < regs[1] < regs[2] < regs[3] < regs[4] < regs[5] < regs[6] < regs[7];
    assert regs[7] < regs[8] < regs[9] < regs[10] < regs[11] < regs[12] < regs[13] < regs[14] < regs[15];
  }

  // ------------------------------------------------------------ VFP

  lemma VfpPlainForm(u: Uop, p: Place)
    requires IsVfp(u.op.f) && Reads(p.mode)
    requires u.op.f == VfpWrite || u.op.f == VstmWrite ==> Writes(p.mode) && StoreImmediate(u)
    requires u.op.f == VfpArith ==> VfpArithImmediate(u)
    ensures RecordForm(u, true, p)
  {
  }

  lemma VfpCoreMoveFormed(insn: Word, p: Place)
    requires Reads(p.mode) && DecodeVfpCoreMove(insn).Some?
    ensures Formed(DecodeVfpCoreMove(insn).value, p)
  {
    hide Field, Formed, RecordForm;
    var u := DecodeVfpCoreMove(insn).value[0];
    VfpPlainForm(u, p);
    FormedOne(u, p);
  }

  lemma VfpPairMoveFormed(insn: Word, p: Place)
    requires Reads(p.mode) && DecodeVfpPairMove(insn).Some?
    ensures Formed(DecodeVfpPairMove(insn).value, p)
  {
    hide Field, Formed, RecordForm;
    var u := DecodeVfpPairMove(insn).value[0];
    VfpPlainForm(u, p);
    FormedOne(u, p);
  }

  lemma VstmForm(u: Uop, first: nat, words: nat)
    requires u.op.f == VstmWrite && 0 < words <= 32 && first + words <= 32 && u.imm == first + words * 256
    ensures StoreImmediate(u)
  {
    assert u.imm % 64 == first && u.imm / 256 == words;
  }

  lemma VfpWriteForm(u: Uop, vd: nat, d: nat)
    requires u.op.f == VfpWrite && u.op.d <= 1 && vd < 16 && d < 2 && (u.op.d == 1 ==> d == 0) && u.imm == vd * 2 + d
    ensures StoreImmediate(u)
  {
  }

  lemma VfpTransferFormed(insn: Word, pcv: Word, p: Place)
    requires Reads(p.mode) && DecodeVfpTransfer(insn, pcv, Writes(p.mode)).Some?
    ensures Formed(DecodeVfpTransfer(insn, pcv, Writes(p.mode)).value, p)
  {
    hide Field, Formed, RecordForm, StoreImmediate;
    var s := DecodeVfpTransfer(insn, pcv, Writes(p.mode)).value;
    var vd, d, imm8 := Field(insn, 12, 4), Field(insn, 22, 1), Field(insn, 0, 8);
    if Bit(insn, 24) && !Bit(insn, 21) {
      if s[1].op.f == VfpWrite {
        VfpWriteForm(s[1], vd, d);
      }
      VfpPlainForm(s[1], p);
      FormedTwo(s[0], s[1], p);
    } else {
      VstmForm(s[0], if Bit(insn, 8) then vd * 2 else vd * 2 + d, imm8);
      VfpPlainForm(s[0], p);
      FormedOne(s[0], p);
    }
  }

  lemma VfpArithForm(u: Uop, rd: nat, rn: nat, rm: nat)
    requires rd < 32 && rn < 32 && rm < 32 && u.imm == rd + rn * 256 + rm * 0x1_0000
    requires u.op.c != 0 ==> rd % 2 == 0 && rn % 2 == 0 && rm % 2 == 0
    ensures VfpArithImmediate(u)
  {
    assert u.imm % 256 == rd && u.imm / 256 == rn + rm * 256;
    assert u.imm / 256 % 256 == rn && u.imm / 0x1_0000 == rm;
  }

  lemma VfpDataFormed(insn: Word, p: Place)
    requires Reads(p.mode) && DecodeVfpData(insn).Some?
    ensures Formed(DecodeVfpData(insn).value, p)
  {
    hide Field, Formed, RecordForm, VfpArithImmediate;
    var u := DecodeVfpData(insn).value[0];
    var dbl, d, n, m := Bit(insn, 8), Field(insn, 22, 1), Field(insn, 7, 1), Field(insn, 5, 1);
    if u.op.f == VfpArith {
      VfpArithForm(u, Field(insn, 12, 4) * 2 + (if dbl then 0 else d), Field(insn, 16, 4) * 2 + (if dbl then 0 else n),
                   Field(insn, 0, 4) * 2 + (if dbl then 0 else m));
    }
    VfpPlainForm(u, p);
    FormedOne(u, p);
  }

  lemma VfpFormed(insn: Word, pcv: Word, p: Place)
    requires Reads(p.mode) && DecodeVfp(insn, pcv, Writes(p.mode)).Some?
    ensures Formed(DecodeVfp(insn, pcv, Writes(p.mode)).value, p)
  {
    hide Field, Formed, DecodeVfpCoreMove, DecodeVfpPairMove, DecodeVfpTransfer, DecodeVfpData;
    if Field(insn, 24, 4) == 14 && Field(insn, 9, 3) == 5 && Bit(insn, 4) {
      VfpCoreMoveFormed(insn, p);
    } else if Field(insn, 21, 7) == 0x62 && Field(insn, 9, 3) == 5 {
      VfpPairMoveFormed(insn, p);
    } else if Field(insn, 25, 3) == 6 && Field(insn, 9, 3) == 5 {
      VfpTransferFormed(insn, pcv, p);
    } else {
      VfpDataFormed(insn, p);
    }
  }

  // ------------------------------------------------------------ Whole instructions

  /** A guard in front of one semantic instruction makes one guarded instruction. */
  lemma GuardedFormed(condition: nat, body: seq<Uop>, p: Place)
    requires 1 <= |body| <= 18 && Formed(body, p) && body[0].op.f != Cond && body[0].op.f != End
    ensures Formed(Guarded(condition, body), p)
  {
    hide Span, RecordForm;
    if condition < 14 {
      var s := Guarded(condition, body);
      BehindFirst(s[0], body);
      assert Span(s, 1, |s|) == |body| by {
        SpanMoves(s, 1, |s|, body);
      }
      GuardForm(s[0], p);
      assert forall j :: 0 < j < |s| ==> s[j] == body[j - 1];
    }
  }

  lemma BehindFirst(u: Uop, body: seq<Uop>)
    ensures ([u] + body)[1..1 + |body|] == body
  {
  }

  lemma GuardForm(u: Uop, p: Place)
    requires u.op.f == Cond
    ensures RecordForm(u, false, p)
  {
  }

  /** A semantic instruction keeps its length wherever it stands. */
  lemma SpanMoves(uops: seq<Uop>, at: nat, end: nat, s: seq<Uop>)
    requires 0 < |s| && at + |s| <= end <= |uops| && uops[at..at + |s|] == s && Span(s, 0, |s|) == |s|
    ensures Span(uops, at, end) == |s|
  {
    hide IsLdmFinish, IsStmFinish, IsDirectRead, IsDirectWrite;
    assert forall k :: 0 <= k < |s| ==> s[k] == uops[at + k];
    var f := s[0].op.f;
    if f == StmPreflight || f == LdmPreflight {
      var load := f == LdmPreflight;
      BlockSpanMoves(uops, at, end, s, load);
    }
  }

  lemma BlockSpanMoves(uops: seq<Uop>, at: nat, end: nat, s: seq<Uop>, load: bool)
    requires 0 < |s| && at + |s| <= end <= |uops| && uops[at..at + |s|] == s && BlockSpan(s, 0, |s|, load) == |s|
    ensures BlockSpan(uops, at, end, load) == |s|
  {
    hide IsFinish, IsFinishWb, CommitList, Registers;
    var n := s[0].imm;
    assert uops[at] == s[0];
    assert n + 2 == |s|;
    SliceOfSlice(uops, at, |s|, 1, n + 1);
    assert uops[at..at + |s|][n + 1] == uops[at + n + 1];
  }

  lemma BxHead(insn: Word, p: Place)
    requires DecodeArmBx(insn, p.i, p.insns).Some?
    ensures var s := DecodeArmBx(insn, p.i, p.insns).value; s != [] && s[0].op.f != Cond && s[0].op.f != End
  {
    hide Field, Rotated;
  }

  lemma BlockTransferHead(insn: Word, p: Place)
    requires DecodeArmBlockTransfer(insn, p.i, p.insns, p.mode).Some?
    ensures var s := DecodeArmBlockTransfer(insn, p.i, p.insns, p.mode).value; s != [] && s[0].op.f != Cond && s[0].op.f != End
  {
    hide Field, Rotated;
  }

  lemma SingleTransferHead(insn: Word, p: Place)
    requires DecodeArmSingleTransfer(insn, p.i, p.insns, p.pc, p.mode).Some?
    ensures var s := DecodeArmSingleTransfer(insn, p.i, p.insns, p.pc, p.mode).value; s != [] && s[0].op.f != Cond && s[0].op.f != End
  {
    hide Field, Rotated;
  }

  lemma DpHead(insn: Word, p: Place)
    requires DecodeArmDp(insn, p.i, p.pc).Some?
    ensures var s := DecodeArmDp(insn, p.i, p.pc).value; s != [] && s[0].op.f != Cond && s[0].op.f != End
  {
    hide Field, Rotated;
  }

  lemma ArmBodyFormed(insn: Word, p: Place)
    requires !p.thumb && DecodeArmBody(insn, p.i, p.insns, p.pc, p.mode).Some?
    ensures var body := DecodeArmBody(insn, p.i, p.insns, p.pc, p.mode).value;
            Formed(body, p) && body[0].op.f != Cond && body[0].op.f != End
  {
    hide Field, Formed, DecodeVfp, DecodeArmBx, DecodeArmBlockTransfer, DecodeArmSingleTransfer, DecodeArmDp;
    if IsArmBx(insn) {
      ArmBxFormed(insn, p);
      BxHead(insn, p);
    } else if Reads(p.mode) && DecodeVfp(insn, Wrap(p.pc + p.i * 4 + 8), Writes(p.mode)).Some? {
      VfpFormed(insn, Wrap(p.pc + p.i * 4 + 8), p);
      VfpHead(insn, Wrap(p.pc + p.i * 4 + 8), Writes(p.mode));
    } else if Field(insn, 25, 3) == 4 {
      ArmBlockTransferFormed(insn, p);
      BlockTransferHead(insn, p);
    } else if Field(insn, 26, 2) == 1 {
      ArmSingleTransferFormed(insn, p);
      SingleTransferHead(insn, p);
    } else {
      ArmDpFormed(insn, p);
      DpHead(insn, p);
    }
  }

  lemma VfpHead(insn: Word, pcv: Word, writes: bool)
    requires DecodeVfp(insn, pcv, writes).Some?
    ensures var s := DecodeVfp(insn, pcv, writes).value; |s| >= 1 && (s[0].op.f == AddrImm || IsVfp(s[0].op.f))
  {
    hide Field;
  }

  lemma ArmFormed(insn: Word, p: Place)
    requires !p.thumb && p.pc % 4 == 0 && DecodeArm(insn, p.i, p.insns, p.pc, p.mode).Some?
    ensures Formed(DecodeArm(insn, p.i, p.insns, p.pc, p.mode).value, p)
  {
    hide Field, Formed, DecodeArmBody, DecodeArmBranch, Guarded;
    if Field(insn, 25, 3) == 5 {
      ArmBranchFormed(insn, p);
    } else {
      ArmBodyFormed(insn, p);
      GuardedFormed(Field(insn, 28, 4), DecodeArmBody(insn, p.i, p.insns, p.pc, p.mode).value, p);
    }
  }

  // ------------------------------------------------------------ Thumb

  lemma ThumbAccessForm(access: Op, p: Place)
    requires access.f == DirectRead || access.f == DirectWrite
    requires Reads(p.mode) && (access.f == DirectWrite ==> Writes(p.mode))
    ensures RecordForm(Rec(access), true, p)
  {
  }

  lemma ThumbAccessImmFormed(rn: nat, offset: Word, pcv: Word, access: Op, p: Place)
    requires access.f == DirectRead || access.f == DirectWrite
    requires Reads(p.mode) && (access.f == DirectWrite ==> Writes(p.mode))
    ensures Formed(ThumbAccessImm(rn, offset, pcv, access), p)
  {
    hide Formed, RecordForm;
    ThumbAccessForm(access, p);
    var s := ThumbAccessImm(rn, offset, pcv, access);
    FormedTwo(s[0], s[1], p);
  }

  lemma ThumbAccessRegFormed(rn: nat, rm: nat, pcv: Word, access: Op, p: Place)
    requires access.f == DirectRead || access.f == DirectWrite
    requires Reads(p.mode) && (access.f == DirectWrite ==> Writes(p.mode))
    ensures Formed(ThumbAccessReg(rn, rm, pcv, access), p)
  {
    hide Formed, RecordForm;
    ThumbAccessForm(access, p);
    var s := ThumbAccessReg(rn, rm, pcv, access);
    FormedThree(s[0], s[1], s[2], p);
  }

  lemma ThumbPairFormed(shifter: Uop, alu: Uop, p: Place)
    requires IsShift(shifter.op.f) && alu.op.f == DpReg
    ensures Formed([shifter, alu], p)
  {
    hide Formed, RecordForm;
    AluRecordForm(alu, p);
    FormedTwo(shifter, alu, p);
  }

  lemma ThumbSingleFormed(u: Uop, p: Place)
    requires u.op.f == AluImm || u.op.f == EorsRR || u.op.f == MulsRR || (u.op.f == DpImm && u.meta <= 2)
    ensures Formed([u], p)
  {
    hide Formed, RecordForm;
    AluRecordForm(u, p);
    FormedOne(u, p);
  }

  lemma ThumbAluFormed(insn: Word, pcv: Word, p: Place)
    ensures Formed(ThumbAlu(insn, pcv), p)
  {
    hide Formed, Field;
    var s := ThumbAlu(insn, pcv);
    if |s| == 2 {
      ThumbPairFormed(s[0], s[1], p);
    } else {
      ThumbSingleFormed(s[0], p);
    }
  }

  lemma ThumbBranchFormed(insn: Word, p: Place)
    requires insn < 0x1_0000 && p.thumb && p.pc % 2 == 0
    requires Field(insn, 12, 4) == 13 && Field(insn, 8, 4) < 14
    requires DecodeThumb(insn, p.i, p.insns, p.pc, p.mode).Some?
    ensures Formed(DecodeThumb(insn, p.i, p.insns, p.pc, p.mode).value, p)
  {
    hide Formed, RecordForm, Field, Wrap;
    var f: int := Field(insn, 0, 8);
    var displacement: int := Signed(f * 0x100_0000) / 0x80_0000;
    var k: int := if f < 128 then f else f - 256;
    assert Signed(f * 0x100_0000) == 0x80_0000 * (2 * k);
    assert displacement == 2 * k;
    EvenSum(p.pc, p.i, k);
    var u := DecodeThumb(insn, p.i, p.insns, p.pc, p.mode).value[0];
    BranchRecordForm(u, p);
    FormedOne(u, p);
  }

  lemma EvenSum(pc: Word, index: nat, k: int)
    requires pc % 2 == 0
    ensures Wrap(Wrap(pc + index * 2 + 4) + 2 * k) % 2 == 0
  {
    var x := pc + index * 2 + 4;
    var h: int := pc / 2 + index + 2;
    assert x == 2 * h;
    var y := Wrap(x) + 2 * k;
    assert Wrap(x) == 2 * (h - 0x8000_0000 * (x / 0x1_0000_0000));
    var g: int := h - 0x8000_0000 * (x / 0x1_0000_0000) + k;
    assert y == 2 * g;
    assert Wrap(y) == 2 * (g - 0x8000_0000 * (y / 0x1_0000_0000));
  }

  lemma ThumbFormed(insn: Word, p: Place)
    requires insn < 0x1_0000 && p.thumb && p.pc % 2 == 0
    requires DecodeThumb(insn, p.i, p.insns, p.pc, p.mode).Some?
    ensures Formed(DecodeThumb(insn, p.i, p.insns, p.pc, p.mode).value, p)
  {
    hide Formed, RecordForm, Field, ThumbAlu, ThumbAccessImm, ThumbAccessReg, ThumbKind, Signed, Wrap;
    var s := DecodeThumb(insn, p.i, p.insns, p.pc, p.mode).value;
    if Field(insn, 12, 4) == 13 && Field(insn, 8, 4) < 14 {
      ThumbBranchFormed(insn, p);
    } else if Field(insn, 11, 5) == 0x1c {
      FormedEnd(s[0], p);
    } else if Field(insn, 8, 8) == 0x47 {
      IndirectForm(s[0], p);
      FormedOne(s[0], p);
    } else {
      if ThumbIsAlu(insn) {
        ThumbAluClassFormed(insn, p);
      } else {
        ThumbAccessClassFormed(insn, p);
      }
    }
  }

  lemma IndirectForm(u: Uop, p: Place)
    requires IsIndirectBranch(u.op.f) && u.imm == 0 && p.i + 1 == p.insns
    ensures RecordForm(u, true, p)
  {
  }

  predicate ThumbIsAlu(insn: Word) {
    || Field(insn, 11, 5) <= 3 || Field(insn, 13, 3) == 1 || Field(insn, 10, 6) == 0x10 || Field(insn, 10, 6) == 0x11
  }

  lemma ThumbAluClassFormed(insn: Word, p: Place)
    requires insn < 0x1_0000 && p.thumb && ThumbIsAlu(insn)
    requires !(Field(insn, 12, 4) == 13 && Field(insn, 8, 4) < 14) && Field(insn, 11, 5) != 0x1c && Field(insn, 8, 8) != 0x47
    requires DecodeThumb(insn, p.i, p.insns, p.pc, p.mode).Some?
    ensures Formed(DecodeThumb(insn, p.i, p.insns, p.pc, p.mode).value, p)
  {
    hide Formed, RecordForm, Field, ThumbAlu, Signed, Wrap;
    var s := DecodeThumb(insn, p.i, p.insns, p.pc, p.mode).value;
    if Field(insn, 11, 5) > 3 && Field(insn, 13, 3) != 1 && Field(insn, 10, 6) == 0x10 {
      ThumbAluFormed(insn, Wrap(p.pc + p.i * 2 + 4), p);
    } else if |s| == 2 {
      ThumbPairFormed(s[0], s[1], p);
    } else {
      ThumbSingleFormed(s[0], p);
    }
  }

  lemma ThumbAccessClassFormed(insn: Word, p: Place)
    requires insn < 0x1_0000 && p.thumb && !ThumbIsAlu(insn)
    requires !(Field(insn, 12, 4) == 13 && Field(insn, 8, 4) < 14) && Field(insn, 11, 5) != 0x1c && Field(insn, 8, 8) != 0x47
    requires DecodeThumb(insn, p.i, p.insns, p.pc, p.mode).Some?
    ensures Formed(DecodeThumb(insn, p.i, p.insns, p.pc, p.mode).value, p)
  {
    hide Formed, RecordForm, Field, ThumbAccessImm, ThumbAccessReg, ThumbKind, Signed, Wrap;
    var s := DecodeThumb(insn, p.i, p.insns, p.pc, p.mode).value;
    var pcv := Wrap(p.pc + p.i * 2 + 4);
    if Field(insn, 11, 5) == 9 {
      ThumbAccessImmFormed(15, Field(insn, 0, 8) * 4, WordAligned(pcv), Op(DirectRead, 0, 0, 0, Field(insn, 8, 3)), p);
    } else if Field(insn, 12, 4) == 5 {
      ThumbRegisterAccessFormed(insn, pcv, p);
    } else if Field(insn, 13, 3) == 3 {
      ThumbImmediateAccessFormed(insn, pcv, Num(Bit(insn, 12)), if Bit(insn, 12) then 1 else 4, Bit(insn, 11), p);
    } else if Field(insn, 12, 4) == 8 {
      ThumbImmediateAccessFormed(insn, pcv, 2, 2, Bit(insn, 11), p);
    } else if Field(insn, 12, 4) == 9 {
      ThumbStackAccessFormed(insn, pcv, p);
    } else {
      ThumbSingleFormed(s[0], p);
    }
  }

  lemma ThumbRegisterAccessFormed(insn: Word, pcv: Word, p: Place)
    requires ThumbRegisterAccess(insn, p.i, p.insns, pcv, p.mode).Some?
    ensures Formed(ThumbRegisterAccess(insn, p.i, p.insns, pcv, p.mode).value, p)
  {
    hide Formed, Field, ThumbAccessReg, ThumbKind;
    var operation := Field(insn, 9, 3);
    ThumbAccessRegFormed(Field(insn, 3, 3), Field(insn, 6, 3), pcv,
                         Op(if operation <= 2 then DirectWrite else DirectRead, 0, 0, ThumbKind(operation), Field(insn, 0, 3)), p);
  }

  lemma ThumbImmediateAccessFormed(insn: Word, pcv: Word, kind: nat, scale: nat, load: bool, p: Place)
    requires scale <= 4 && ThumbImmediateAccess(insn, p.i, p.insns, pcv, p.mode, kind, scale, load).Some?
    ensures Formed(ThumbImmediateAccess(insn, p.i, p.insns, pcv, p.mode, kind, scale, load).value, p)
  {
    hide Formed, Field, ThumbAccessImm;
    ThumbAccessImmFormed(Field(insn, 3, 3), Field(insn, 6, 5) * scale, pcv,
                         Op(if load then DirectRead else DirectWrite, 0, 0, kind, Field(insn, 0, 3)), p);
  }

  lemma ThumbStackAccessFormed(insn: Word, pcv: Word, p: Place)
    requires ThumbStackAccess(insn, p.i, p.insns, pcv, p.mode).Some?
    ensures Formed(ThumbStackAccess(insn, p.i, p.insns, pcv, p.mode).value, p)
  {
    hide Formed, RecordForm, Field, ThumbAccessImm;
    if Reads(p.mode) {
      var access := Op(if Bit(insn, 11) then DirectRead else DirectWrite, 0, 0, 0, Field(insn, 8, 3));
      ThumbAccessImmFormed(13, Field(insn, 0, 8) * 4, pcv, access, p);
    } else {
      var u := ThumbStackAccess(insn, p.i, p.insns, pcv, p.mode).value[0];
      FlatRecordForm(u, p);
      FormedOne(u, p);
    }
  }

  lemma DecodedFormed(insn: Word, p: Place)
    requires p.pc % Width(p.thumb) == 0 && (p.thumb ==> insn < 0x1_0000)
    requires DecodeOne(insn, p.i, p.insns, p.thumb, p.pc, p.mode).Some?
    ensures Formed(DecodeOne(insn, p.i, p.insns, p.thumb, p.pc, p.mode).value, p)
  {
    hide Formed, DecodeArm, DecodeThumb;
    if p.thumb {
      ThumbFormed(insn, p);
    } else {
      ArmFormed(insn, p);
    }
  }

  // ------------------------------------------------------------ Blocks

  /** A finished segment: guard metadata filled in, every record where it may stand. */
  ghost predicate Segmented(s: seq<Uop>, p: Place)
    requires p.i < p.insns <= MAX_INSNS
  {
    && s != []
    && (if s[0].op.f == End then |s| == 1 && p.i + 1 == p.insns else Stride(s, 0, |s|) == |s|)
    && forall j :: 0 <= j < |s| ==> RecordFinal(s[j], j + 1 == |s|, p) && (s[j].op.f == End ==> j == 0)
  }

  ghost predicate RecordFinal(u: Uop, last: bool, p: Place)
    requires p.i < p.insns <= MAX_INSNS
  {
    var f := u.op.f;
    && Legal(u.op)
    && KindAllows(f, p.mode)
    && (IsRuntimeGuarded(f) ==> u.pcv == InsnPc(p.pc, p.i, p.thumb) && u.meta == (p.i + 1) * 256 + (p.insns - p.i))
    && (IsDirectWrite(f) ==> last && p.i + 1 == p.insns && StoreImmediate(u))
    && (f == VfpArith ==> VfpArithImmediate(u))
    && (f == DpImm ==> u.meta <= 2)
    && (IsTerminalBranch(f) ==> last && p.i + 1 == p.insns && (IsIndirectBranch(f) || TerminalForm(u, p)) && (IsIndirectBranch(f) ==> u.imm == 0))
  }

  /** Filling in guard metadata does not change how records group into semantic instructions. */
  lemma PatchKeepsStride(s: seq<Uop>, i: nat, insns: nat, pc: Word, thumb: bool)
    requires i < insns <= MAX_INSNS && s != []
    ensures Stride(PatchedAll(s, i, insns, pc, thumb), 0, |s|) == Stride(s, 0, |s|)
  {
    var t := PatchedAll(s, i, insns, pc, thumb);
    PatchKeepsSpan(s, t, 0);
    if |s| > 1 {
      PatchKeepsSpan(s, t, 1);
    }
  }

  /** The records agree except for the address and metadata of guarded ones. */
  ghost predicate SameShape(u: Uop, t: Uop) {
    u.op == t.op && u.imm == t.imm && (!IsRuntimeGuarded(u.op.f) ==> u == t)
  }

  lemma PatchKeepsSpan(s: seq<Uop>, t: seq<Uop>, at: nat)
    requires |s| == |t| && at < |s| && forall k :: 0 <= k < |s| ==> SameShape(s[k], t[k])
    ensures Span(t, at, |s|) == Span(s, at, |s|)
  {
    hide IsLdmFinish, IsStmFinish, IsDirectRead, IsDirectWrite, IsRuntimeGuarded;
    if s[at].op.f == StmPreflight || s[at].op.f == LdmPreflight {
      PatchKeepsBlockSpan(s, t, at, s[at].op.f == LdmPreflight);
    } else {
      assert at + 1 < |s| ==> SameShape(s[at + 1], t[at + 1]);
      assert at + 2 < |s| ==> SameShape(s[at + 2], t[at + 2]);
    }
  }

  lemma PatchKeepsBlockSpan(s: seq<Uop>, t: seq<Uop>, at: nat, load: bool)
    requires |s| == |t| && at < |s| && forall k :: 0 <= k < |s| ==> SameShape(s[k], t[k])
    ensures BlockSpan(t, at, |s|, load) == BlockSpan(s, at, |s|, load)
  {
    hide IsRuntimeGuarded, CommitList, Registers;
    var n := s[at].imm;
    if 0 < n && at + n + 1 < |s| {
      PatchKeepsCommits(s, t, at, n, load);
      assert SameShape(s[at + n + 1], t[at + n + 1]);
      CommitUnguarded(s[at + n + 1], load);
    }
  }

  lemma PatchKeepsCommits(s: seq<Uop>, t: seq<Uop>, at: nat, n: nat, load: bool)
    requires |s| == |t| && at + n < |s| && forall k :: 0 <= k < |s| ==> SameShape(s[k], t[k])
    ensures var cs, ct := s[at + 1..at + n + 1], t[at + 1..at + n + 1];
            CommitList(cs, load) == CommitList(ct, load) && (CommitList(cs, load) ==> cs == ct)
  {
    hide IsRuntimeGuarded;
    var cs, ct := s[at + 1..at + n + 1], t[at + 1..at + n + 1];
    forall k | 0 <= k < n
      ensures SameShape(cs[k], ct[k]) && (CommitRecord(cs[k], load) <==> CommitRecord(ct[k], load))
      ensures CommitRecord(cs[k], load) ==> cs[k] == ct[k]
    {
      assert SameShape(s[at + 1 + k], t[at + 1 + k]);
      CommitUnguarded(cs[k], load);
      CommitUnguarded(ct[k], load);
    }
    assert CommitList(cs, load) ==> cs == ct;
    assert CommitList(ct, load) ==> cs == ct;
  }

  lemma CommitUnguarded(u: Uop, load: bool)
    ensures u.op.f == CommitFamily(load) || IsFinish(u.op.f, load) ==> !IsRuntimeGuarded(u.op.f)
  {
  }

  lemma SegmentSegmented(insn: Word, p: Place)
    requires p.i < p.insns <= MAX_INSNS && p.pc % Width(p.thumb) == 0 && (p.thumb ==> insn < 0x1_0000)
    requires Segment(insn, p.i, p.insns, p.thumb, p.pc, p.mode).Some?
    ensures Segmented(Segment(insn, p.i, p.insns, p.thumb, p.pc, p.mode).value, p)
  {
    hide Stride, DecodeOne, Legal, RecordForm, RecordFinal;
    DecodedFormed(insn, p);
    DecodedLegal(insn, p.i, p.insns, p.thumb, p.pc, p.mode);
    var s := DecodeOne(insn, p.i, p.insns, p.thumb, p.pc, p.mode).value;
    var t := Segment(insn, p.i, p.insns, p.thumb, p.pc, p.mode).value;
    PatchKeepsStride(s, p.i, p.insns, p.pc, p.thumb);
    forall j | 0 <= j < |t|
      ensures RecordFinal(t[j], j + 1 == |t|, p) && t[j].op == s[j].op
    {
      assert Placed(s, j, p.i, p.insns);
      assert RecordForm(s[j], j + 1 == |s|, p);
      PatchedFinal(s[j], t[j], j + 1 == |s|, p);
    }
  }

  lemma PatchedFinal(u: Uop, t: Uop, last: bool, p: Place)
    requires p.i < p.insns <= MAX_INSNS && t == Patched(u, p.i, p.insns, p.pc, p.thumb)
    requires Legal(u.op) && RecordForm(u, last, p)
    requires IsTerminalBranch(u.op.f) || IsDirectWrite(u.op.f) ==> p.i + 1 == p.insns
    ensures RecordFinal(t, last, p)
  {
    hide Legal, VfpArithImmediate, StoreImmediate, KindAllows, IsRuntimeGuarded, IsDirectWrite;
    if u.op.f == DpImm || u.op.f == BranchCond || u.op.f == BranchLink {
      AluUnguarded(u.op.f);
    }
    SameArith(u, t);
    SameStore(u, t);
  }

  lemma AluUnguarded(f: Family)
    requires f == DpImm || f == BranchCond || f == BranchLink
    ensures !IsRuntimeGuarded(f)
  {
  }

  lemma SameStore(u: Uop, t: Uop)
    requires u.op == t.op && u.imm == t.imm
    ensures StoreImmediate(u) <==> StoreImmediate(t)
  {
  }

  lemma SameArith(u: Uop, t: Uop)
    requires u.op == t.op && u.imm == t.imm
    ensures VfpArithImmediate(u) <==> VfpArithImmediate(t)
  {
  }

  /** A record of a block of `k` decoded instructions out of `|insns|`. */
  ghost predicate InBlock(u: Uop, last: bool, k: nat, p: Place)
    requires k <= p.insns <= MAX_INSNS
  {
    && (exists i :: 0 <= i < k && RecordFinal(u, last, p.(i := i)))
    && (IsDirectWrite(u.op.f) || IsTerminalBranch(u.op.f) || u.op.f == End ==> last && k == p.insns)
  }

  lemma SegmentInBlock(insn: Word, p: Place, j: nat)
    requires p.i < p.insns <= MAX_INSNS && p.pc % Width(p.thumb) == 0 && (p.thumb ==> insn < 0x1_0000)
    requires Segment(insn, p.i, p.insns, p.thumb, p.pc, p.mode).Some?
    requires j < |Segment(insn, p.i, p.insns, p.thumb, p.pc, p.mode).value|
    ensures var s := Segment(insn, p.i, p.insns, p.thumb, p.pc, p.mode).value;
            InBlock(s[j], j + 1 == |s|, p.i + 1, p)
  {
    hide Stride, Segment, Legal, StoreImmediate, TerminalForm;
    SegmentSegmented(insn, p);
    var s := Segment(insn, p.i, p.insns, p.thumb, p.pc, p.mode).value;
    assert p.(i := p.i) == p;
    assert RecordFinal(s[j], j + 1 == |s|, p.(i := p.i));
  }

  lemma LastOfLess(u: Uop, k: nat, p: Place)
    requires k < p.insns <= MAX_INSNS && InBlock(u, true, k, p)
    ensures InBlock(u, false, k + 1, p)
  {
    hide RecordFinal;
    var i :| 0 <= i < k && RecordFinal(u, true, p.(i := i));
    UnlastFinal(u, p.(i := i));
  }

  lemma UnlastFinal(u: Uop, p: Place)
    requires p.i < p.insns <= MAX_INSNS && RecordFinal(u, true, p) && !IsDirectWrite(u.op.f) && !IsTerminalBranch(u.op.f)
    ensures RecordFinal(u, false, p)
  {
  }

  lemma {:induction false} RecordsInBlock(insns: seq<Word>, k: nat, p: Place)
    requires k <= |insns| == p.insns <= MAX_INSNS && Halfwords(insns, p.thumb) && p.pc % Width(p.thumb) == 0
    requires Records(insns, k, p.thumb, p.pc, p.mode).Some?
    ensures var uops := Records(insns, k, p.thumb, p.pc, p.mode).value;
            forall j :: 0 <= j < |uops| ==> InBlock(uops[j], j + 1 == |uops|, k, p)
  {
    hide InBlock, Segment;
    if k > 0 {
      RecordsInBlock(insns, k - 1, p);
      var uops := Records(insns, k, p.thumb, p.pc, p.mode).value;
      var before := Records(insns, k - 1, p.thumb, p.pc, p.mode).value;
      var s := Segment(insns[k - 1], k - 1, |insns|, p.thumb, p.pc, p.mode).value;
      assert uops == before + s;
      forall j | 0 <= j < |uops|
        ensures InBlock(uops[j], j + 1 == |uops|, k, p)
      {
        if j < |before| {
          EarlierInBlock(before[j], j + 1 == |before|, k - 1, p);
        } else {
          SegmentInBlock(insns[k - 1], p.(i := k - 1), j - |before|);
          SamePlace(s[j - |before|], j + 1 == |uops|, k, p, k - 1);
        }
      }
    }
  }

  lemma EarlierInBlock(u: Uop, last: bool, k: nat, p: Place)
    requires k < p.insns <= MAX_INSNS && InBlock(u, last, k, p)
    ensures InBlock(u, false, k + 1, p)
  {
    hide RecordFinal;
    if last {
      LastOfLess(u, k, p);
    }
  }

  lemma SamePlace(u: Uop, last: bool, k: nat, p: Place, i: nat)
    requires k <= p.insns <= MAX_INSNS && InBlock(u, last, k, p.(i := i))
    ensures InBlock(u, last, k, p)
  {
    hide RecordFinal;
    var m :| 0 <= m < k && RecordFinal(u, last, p.(i := i).(i := m));
    assert p.(i := i).(i := m) == p.(i := m);
  }

  lemma StrideMoves(uops: seq<Uop>, at: nat, end: nat, s: seq<Uop>)
    requires 0 < |s| && at + |s| <= end <= |uops| && uops[at..at + |s|] == s && Stride(s, 0, |s|) == |s|
    ensures Stride(uops, at, end) == |s|
  {
    hide Span;
    assert s[0] == uops[at];
    if s[0].op.f == Cond {
      var body := s[1..];
      assert Span(s, 1, |s|) == |s| - 1;
      SpanDrops(s);
      SliceOfSlice(uops, at, |s|, 1, |s|);
      SpanMoves(uops, at + 1, end, body);
    } else {
      SpanMoves(uops, at, end, s);
    }
  }

  lemma SpanDrops(s: seq<Uop>)
    requires |s| > 1 && Span(s, 1, |s|) == |s| - 1
    ensures Span(s[1..], 0, |s| - 1) == |s| - 1
  {
    hide IsLdmFinish, IsStmFinish, IsDirectRead, IsDirectWrite;
    var t := s[1..];
    assert t[0] == s[1];
    if s[1].op.f == StmPreflight || s[1].op.f == LdmPreflight {
      BlockSpanDrops(s, s[1].op.f == LdmPreflight);
    } else {
      assert |s| > 2 ==> t[1] == s[2];
      assert |s| > 3 ==> t[2] == s[3];
    }
  }

  lemma BlockSpanDrops(s: seq<Uop>, load: bool)
    requires |s| > 1 && BlockSpan(s, 1, |s|, load) == |s| - 1
    ensures BlockSpan(s[1..], 0, |s| - 1, load) == |s| - 1
  {
    hide CommitList, FinishRecord, Registers;
    var t := s[1..];
    var n := s[1].imm;
    assert n + 2 == |s| - 1;
    assert t[1..n + 1] == s[2..n + 2];
  }

  function Plus(count: Option<nat>, k: nat): Option<nat> {
    match count case None => None case Some(n) => Some(n + k)
  }

  /** The last of `k` decoded instructions is one step of the walk. */
  lemma WalkLast(before: seq<Uop>, s: seq<Uop>, p: Place, uops: seq<Uop>, end: nat)
    requires p.i < p.insns <= MAX_INSNS && Segmented(s, p) && s[|s| - 1].op.f != End
    requires |before + s| <= end <= |uops| && before + s == uops[..|before + s|]
    ensures before == uops[..|before|]
    ensures Walk(uops, |before|, end) == Plus(Walk(uops, |before| + |s|, end), 1)
  {
    hide Stride, RecordFinal;
    SliceOfSlice(uops, 0, |before + s|, |before|, |before + s|);
    StrideMoves(uops, |before|, end, s);
    WalkSplits(uops, |before|, end);
    assert uops[..|before|] == (before + s)[..|before|];
  }

  /** The walk over a block passes each decoded instruction in one step. */
  lemma {:induction false} WalkRecords(insns: seq<Word>, k: nat, p: Place, uops: seq<Uop>, end: nat)
    requires k <= |insns| == p.insns <= MAX_INSNS && Halfwords(insns, p.thumb) && p.pc % Width(p.thumb) == 0
    requires Records(insns, k, p.thumb, p.pc, p.mode).Some?
    requires var r := Records(insns, k, p.thumb, p.pc, p.mode).value;
             |r| <= end <= |uops| && r == uops[..|r|] && (|r| > 0 ==> r[|r| - 1].op.f != End)
    ensures var r := Records(insns, k, p.thumb, p.pc, p.mode).value;
            Walk(uops, 0, end) == Plus(Walk(uops, |r|, end), k)
  {
    hide Segment, Stride, Segmented, Walk, InBlock;
    if k > 0 {
      var r := Records(insns, k, p.thumb, p.pc, p.mode).value;
      var before := Records(insns, k - 1, p.thumb, p.pc, p.mode).value;
      var s := Segment(insns[k - 1], k - 1, |insns|, p.thumb, p.pc, p.mode).value;
      assert r == before + s;
      SegmentSegmented(insns[k - 1], p.(i := k - 1));
      assert s[|s| - 1] == r[|r| - 1];
      WalkLast(before, s, p.(i := k - 1), uops, end);
      if before != [] {
        RecordsInBlock(insns, k - 1, p);
        NotEndYet(before[|before| - 1], k - 1, p);
      }
      WalkRecords(insns, k - 1, p, uops, end);
    }
  }

  lemma MetadataReads(b: Block, u: Uop, i: nat)
    requires i < b.insnCount <= MAX_INSNS
    requires u.pcv == InsnPc(b.startPc, i, b.thumb) && u.meta == (i + 1) * 256 + (b.insnCount - i)
    ensures GuardMetadata(b, u)
  {
    hide InsnPc;
    var low, high := b.insnCount - i, i + 1;
    assert u.meta % 256 == low && u.meta / 256 == high;
    assert u.meta / 0x1_0000 == 0;
  }

  lemma TerminalFinal(b: Block, u: Uop, p: Place)
    requires p.i + 1 == p.insns == b.insnCount <= MAX_INSNS && p.pc == b.startPc && p.thumb == b.thumb
    requires IsTerminalBranch(u.op.f) && RecordFinal(u, true, p) && b.exitPc == InsnPc(p.pc, p.insns, p.thumb)
    ensures TerminalShape(b, u)
  {
    hide Legal, KindAllows, InsnPc;
  }

  lemma RecordFinalIsOk(b: Block, j: nat, p: Place)
    requires j + 1 < |b.uops| && p.insns == b.insnCount <= MAX_INSNS && p.pc == b.startPc && p.thumb == b.thumb
    requires InBlock(b.uops[j], j + 2 == |b.uops|, p.insns, p) && b.uops[j].op.f != End
    requires IsTerminalBranch(b.uops[j].op.f) ==> b.exitPc == InsnPc(p.pc, p.insns, p.thumb)
    ensures RecordOk(b, j)
  {
    hide Legal, StoreImmediate, VfpArithImmediate, KindAllows, GuardMetadata, TerminalShape, TerminalForm, InsnPc;
    var u := b.uops[j];
    var i :| 0 <= i < p.insns && RecordFinal(u, j + 2 == |b.uops|, p.(i := i));
    if IsRuntimeGuarded(u.op.f) {
      MetadataReads(b, u, i);
    }
    if IsTerminalBranch(u.op.f) {
      TerminalFinal(b, u, p.(i := i));
    }
  }

  lemma InBlockKind(u: Uop, last: bool, k: nat, p: Place)
    requires k <= p.insns <= MAX_INSNS && InBlock(u, last, k, p)
    ensures KindAllows(u.op.f, p.mode)
  {
    hide KindAllows;
  }

  /** The records of a block's instructions come first; an END follows unless they end in one. */
  lemma BlockRecords(insns: seq<Word>, b: Block, p: Place)
    requires Halfwords(insns, p.thumb) && DecodeProgram(insns, p.thumb, p.pc, p.mode) == Some(b) && p.insns == |insns|
    ensures 0 < |insns| <= MAX_INSNS && p.pc % Width(p.thumb) == 0 && b.insnCount == |insns| && b.uops != []
    ensures b.startPc == p.pc && b.thumb == p.thumb
    ensures Records(insns, |insns|, p.thumb, p.pc, p.mode).Some?
    ensures var r := Records(insns, |insns|, p.thumb, p.pc, p.mode).value;
            && r != [] && (r[|r| - 1].op.f == End ==> b.uops == r)
            && (r[|r| - 1].op.f != End ==> |b.uops| == |r| + 1 && b.uops[..|r|] == r && b.uops[|r|].op.f == End
                                           && b.exitPc == InsnPc(p.pc, |insns|, p.thumb))
  {
    hide Records, TraitsOf;
  }

  lemma BlockCount(insns: seq<Word>, b: Block, p: Place)
    requires Halfwords(insns, p.thumb) && DecodeProgram(insns, p.thumb, p.pc, p.mode) == Some(b) && p.insns == |insns|
    ensures CountOk(b)
  {
    hide Records, DecodeProgram;
    var n := |insns|;
    BlockRecords(insns, b, p);
    var r := Records(insns, n, p.thumb, p.pc, p.mode).value;
    var uops, end := b.uops, |b.uops| - 1;
    if r[|r| - 1].op.f == End {
      BeforeLast(insns, p);
      EndAlone(insns, p);
      var before := Records(insns, n - 1, p.thumb, p.pc, p.mode).value;
      assert uops[..end] == before;
      WalkRecords(insns, n - 1, p, uops, end);
    } else {
      assert uops[..end] == r;
      WalkRecords(insns, n, p, uops, end);
    }
  }

  lemma BeforeLast(insns: seq<Word>, p: Place)
    requires 0 < |insns| <= MAX_INSNS && Halfwords(insns, p.thumb) && Records(insns, |insns|, p.thumb, p.pc, p.mode).Some?
    ensures Records(insns, |insns| - 1, p.thumb, p.pc, p.mode).Some?
  {
    hide Segment;
  }

  lemma BlockTraits(insns: seq<Word>, b: Block, p: Place)
    requires Halfwords(insns, p.thumb) && DecodeProgram(insns, p.thumb, p.pc, p.mode) == Some(b) && p.insns == |insns|
    ensures b.traits == TraitsOf(b.uops[..|b.uops| - 1], b.thumb)
  {
    hide TraitsOf, Segment, Marks;
    var r := Records(insns, |insns|, p.thumb, p.pc, p.mode).value;
    var end := |b.uops| - 1;
    if r[|r| - 1].op.f == End {
      TraitsStep(r[..end], r[end], p.thumb);
      assert r == r[..end] + [r[end]];
      EndMarksNothing(p.thumb);
    } else {
      assert b.uops[..end] == r;
    }
  }

  lemma EndIsLegal(insns: seq<Word>, b: Block, p: Place)
    requires Halfwords(insns, p.thumb) && DecodeProgram(insns, p.thumb, p.pc, p.mode) == Some(b) && p.insns == |insns|
    ensures b.uops != [] && Legal(b.uops[|b.uops| - 1].op)
  {
    hide InBlock, Segment, TraitsOf, Legal;
    var r := Records(insns, |insns|, p.thumb, p.pc, p.mode).value;
    RecordsInBlock(insns, |insns|, p);
    if r[|r| - 1].op.f == End {
      InBlockLegal(r[|r| - 1], |insns|, p);
    } else {
      PlainEndLegal();
    }
  }

  lemma InBlockLegal(u: Uop, k: nat, p: Place)
    requires k <= p.insns <= MAX_INSNS && InBlock(u, true, k, p)
    ensures Legal(u.op)
  {
    hide Legal, KindAllows, StoreImmediate, VfpArithImmediate, TerminalForm;
  }

  lemma PlainEndLegal()
    ensures Legal(Op(End, 0, 0, 0, 0))
  {
  }

  /** The records of a decoded block without its closing END. */
  lemma BodyOfBlock(insns: seq<Word>, b: Block, p: Place)
    requires Halfwords(insns, p.thumb) && DecodeProgram(insns, p.thumb, p.pc, p.mode) == Some(b) && p.insns == |insns|
    ensures 0 < p.insns <= MAX_INSNS && p.pc % Width(p.thumb) == 0
    ensures b.insnCount == p.insns <= |b.uops| <= MAX_UOPS && b.startPc == p.pc && b.thumb == p.thumb
    ensures b.uops[|b.uops| - 1].op.f == End && Legal(b.uops[|b.uops| - 1].op) && b.uops[|b.uops| - 1].imm == b.exitPc
    ensures b.traits == TraitsOf(b.uops[..|b.uops| - 1], b.thumb)
    ensures forall j :: 0 <= j < |b.uops| - 1 ==> RecordOk(b, j)
    ensures KindOk(b.uops[..|b.uops| - 1], p.mode)
    ensures CountOk(b)
  {
    hide InBlock, RecordOk, TraitsOf, Segment, KindAllows, CountOk, Legal;
    BlockCount(insns, b, p);
    EndIsLegal(insns, b, p);
    BlockTraits(insns, b, p);
    forall j | 0 <= j < |b.uops| - 1
      ensures RecordOk(b, j) && KindAllows(b.uops[j].op.f, p.mode)
    {
      BodyRecord(insns, b, p, j);
    }
  }

  lemma InnerIsPlain(u: Uop, n: nat, p: Place)
    requires n <= p.insns <= MAX_INSNS && InBlock(u, false, n, p)
    ensures u.op.f != End && !IsTerminalBranch(u.op.f)
  {
    hide KindAllows, StoreImmediate, VfpArithImmediate;
  }

  lemma BodyRecord(insns: seq<Word>, b: Block, p: Place, j: nat)
    requires Halfwords(insns, p.thumb) && DecodeProgram(insns, p.thumb, p.pc, p.mode) == Some(b) && p.insns == |insns|
    requires j < |b.uops| - 1
    ensures RecordOk(b, j) && KindAllows(b.uops[j].op.f, p.mode)
  {
    hide *;
    var n := |insns|;
    BlockRecords(insns, b, p);
    var r := Records(insns, n, p.thumb, p.pc, p.mode).value;
    RecordsInBlock(insns, n, p);
    var last := j + 1 == |r|;
    assert r[j] == b.uops[j] && InBlock(r[j], last, n, p);
    InBlockKind(r[j], last, n, p);
    if !last {
      InnerIsPlain(r[j], n, p);
      if r[|r| - 1].op.f == End {
        UnlastInBlock(r[j], n, p);
      }
    }
    RecordFinalIsOk(b, j, p);
  }

  lemma UnlastInBlock(u: Uop, n: nat, p: Place)
    requires n <= p.insns <= MAX_INSNS && InBlock(u, false, n, p)
    ensures InBlock(u, true, n, p)
  {
    hide RecordFinal;
    var i :| 0 <= i < n && RecordFinal(u, false, p.(i := i));
    FinalAnywhere(u, p.(i := i));
  }

  lemma FinalAnywhere(u: Uop, p: Place)
    requires p.i < p.insns <= MAX_INSNS && RecordFinal(u, false, p)
    ensures RecordFinal(u, true, p)
  {
  }

  lemma EndMarksNothing(thumb: bool)
    ensures Marks(End, thumb) == {}
  {
  }

  /** A fixed exit is the whole of the last instruction. */
  lemma EndAlone(insns: seq<Word>, p: Place)
    requires 0 < |insns| == p.insns <= MAX_INSNS && Halfwords(insns, p.thumb) && p.pc % Width(p.thumb) == 0
    requires Records(insns, |insns|, p.thumb, p.pc, p.mode).Some?
    requires var r := Records(insns, |insns|, p.thumb, p.pc, p.mode).value; r[|r| - 1].op.f == End
    ensures var r := Records(insns, |insns|, p.thumb, p.pc, p.mode).value;
            var before := Records(insns, |insns| - 1, p.thumb, p.pc, p.mode).value;
            r == before + [r[|r| - 1]] && (before != [] ==> before[|before| - 1].op.f != End)
  {
    hide Segment, Stride, RecordFinal, InBlock;
    var n := |insns|;
    SegmentSegmented(insns[n - 1], p.(i := n - 1));
    RecordsInBlock(insns, n - 1, p);
    var before := Records(insns, n - 1, p.thumb, p.pc, p.mode).value;
    if before != [] {
      NotEndYet(before[|before| - 1], n - 1, p);
    }
  }

  lemma NotEndYet(u: Uop, k: nat, p: Place)
    requires k < p.insns <= MAX_INSNS && InBlock(u, true, k, p)
    ensures u.op.f != End
  {
    hide RecordFinal;
  }

  /** How often a block may be run: once, or under the flat contract any number of times if it is a fixed loop to its start. */
  ghost predicate Repeats(b: Block, blocks: nat, mode: Mode) {
    blocks == 1 || (blocks > 1 && mode == Flat && DynamicExit !in b.traits && b.exitPc == b.startPc)
  }

  /** Every block the decoder returns, in each of its three contracts, is accepted by the full validator from the state it was
      decoded for, as often as it may be run, and from no other. */
  lemma DecodedIsValid(insns: seq<Word>, thumb: bool, pc: Word, mode: Mode, e: Entry)
    requires Halfwords(insns, thumb) && DecodeProgram(insns, thumb, pc, mode).Some?
    ensures var b := DecodeProgram(insns, thumb, pc, mode).value;
            ValidRun(b, e, mode)
            <==> e.pc == pc && e.thumb == thumb && Repeats(b, e.blocks, mode) && PowerOfTwo(e.ramSize) && e.ramSize <= 0x1_0000_0000
  {
    hide RecordOk, KindOk, CountOk, TraitsOf, DecodeProgram, PowerOfTwo;
    BodyOfBlock(insns, DecodeProgram(insns, thumb, pc, mode).value, Place(0, |insns|, pc, thumb, mode));
  }

  /** A record that sets one of the closing flags is the last of its block. */
  lemma ClosingIsLast(b: Block, j: nat, x: Trait)
    requires j < |b.uops| - 1 && RecordOk(b, j) && Closing(x) && Marked(x, b.uops[j].op.f, b.thumb)
    ensures j == |b.uops| - 2
  {
    hide Legal, StoreImmediate, VfpArithImmediate, GuardMetadata, TerminalShape;
  }

  lemma MarksIsMarked(x: Trait, f: Family, thumb: bool)
    ensures x in Marks(f, thumb) <==> Marked(x, f, thumb)
  {
    hide Marked;
  }

  /** A closing trait is that of the record before the END. */
  lemma ClosingMarked(b: Block, e: Entry, kind: Mode, x: Trait)
    requires ValidRun(b, e, kind) && Closing(x)
    ensures x in b.traits <==> |b.uops| > 1 && Marked(x, b.uops[|b.uops| - 2].op.f, b.thumb)
  {
    hide Marked, RecordOk, KindAllows, Marks, CountOk, PowerOfTwo, TraitsOf, TerminalShape;
    var end := |b.uops| - 1;
    var body := b.uops[..end];
    TraitWitness(x, body, b.thumb);
    if x in b.traits {
      var k :| 0 <= k < |body| && x in Marks(body[k].op.f, b.thumb);
      MarksIsMarked(x, body[k].op.f, b.thumb);
      ClosingIsLast(b, k, x);
    }
    if |b.uops| > 1 {
      MarksIsMarked(x, body[end - 1].op.f, b.thumb);
    }
  }

  /** The cheap recheck accepts whatever the full validator accepts for a cached, hit-mode block. */
  lemma ValidIsValidDecoded(b: Block, e: Entry, kind: Mode, remaining: nat)
    requires ValidRun(b, e, kind) && kind != Flat && b.insnCount <= remaining
    ensures ValidDecodedHits(b, e.pc, e.thumb, remaining, kind == MemoryHits)
  {
    hide Marked, RecordOk, KindAllows, CountOk, PowerOfTwo, TraitsOf, TerminalShape;
    forall x: Trait | Closing(x)
      ensures x in b.traits <==> |b.uops| > 1 && Marked(x, b.uops[|b.uops| - 2].op.f, b.thumb)
    {
      ClosingMarked(b, e, kind, x);
    }
    if |b.uops| > 1 {
      LastTerminal(b);
    }
    OnlyDirectAccesses(b.uops[..|b.uops| - 1], b.thumb, kind);
  }

  lemma LastTerminal(b: Block)
    requires |b.uops| > 1 && RecordOk(b, |b.uops| - 2)
    ensures IsTerminalBranch(b.uops[|b.uops| - 2].op.f) ==> TerminalShape(b, b.uops[|b.uops| - 2])
  {
  }

  lemma OnlyDirectAccesses(body: seq<Uop>, thumb: bool, kind: Mode)
    requires KindOk(body, kind) && kind != Flat
    ensures TouchesMemory in TraitsOf(body, thumb) ==> DirectReads in TraitsOf(body, thumb) || DirectWrites in TraitsOf(body, thumb)
    ensures DirectWrites in TraitsOf(body, thumb) ==> kind == MemoryHits
  {
    hide Marks, TraitsOf;
    TraitWitness(TouchesMemory, body, thumb);
    TraitWitness(DirectReads, body, thumb);
    TraitWitness(DirectWrites, body, thumb);
    forall k | 0 <= k < |body|
      ensures TouchesMemory in Marks(body[k].op.f, thumb) ==> DirectReads in Marks(body[k].op.f, thumb) || DirectWrites in Marks(body[k].op.f, thumb)
      ensures DirectWrites in Marks(body[k].op.f, thumb) ==> kind == MemoryHits
    {
      AccessMarks(body[k].op.f, thumb, kind);
    }
  }

  lemma AccessMarks(f: Family, thumb: bool, kind: Mode)
    requires KindAllows(f, kind) && kind != Flat
    ensures TouchesMemory in Marks(f, thumb) ==> DirectReads in Marks(f, thumb) || DirectWrites in Marks(f, thumb)
    ensures DirectWrites in Marks(f, thumb) ==> kind == MemoryHits
  {
    MarksIsMarked(TouchesMemory, f, thumb);
    MarksIsMarked(DirectReads, f, thumb);
    MarksIsMarked(DirectWrites, f, thumb);
  }

  /** So a cached block may be run after the cheap recheck alone: the decoder already met the full contract. */
  lemma CachedRecheckSuffices(insns: seq<Word>, thumb: bool, pc: Word, mode: Mode, remaining: nat)
    requires Halfwords(insns, thumb) && mode != Flat && |insns| <= remaining
    requires DecodeProgram(insns, thumb, pc, mode).Some?
    ensures ValidDecodedHits(DecodeProgram(insns, thumb, pc, mode).value, pc, thumb, remaining, mode == MemoryHits)
  {
    hide ValidRun, ValidDecodedHits;
    var b := DecodeProgram(insns, thumb, pc, mode).value;
    var e := Entry(pc, thumb, 1, 1);
    assert PowerOfTwo(1) by {
      AndNothing(1, 64);
    }
    DecodedIsValid(insns, thumb, pc, mode, e);
    ValidIsValidDecoded(b, e, mode, remaining);
  }
}
