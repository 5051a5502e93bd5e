/** Every decoded instruction, run as its patched records, is the architectural instruction. */
module RefineInsn {
  import opened Words
  import opened Handlers
  import opened Decode
  import opened Program
  import opened Machine
  import opened ExecVfp
  import opened Exec
  import opened Fields
  import opened RefineAlu
  import opened RefineMemory
  import opened RefineBlock
  import opened RefineVfp
  import opened VfpTransfer
  import opened Operands
  import Arch
  import ArchVfp

  // ------------------------------------------------------------ Runs inside longer arrays

  /** Only guarded records refuse, and a refusal leaves the machine as it was. */
  lemma MissIsGuarded(u: Uop, m: M, env: Env)
    requires Ready(m, env) && Step(u, m, env).Miss?
    ensures IsRuntimeGuarded(u.op.f) && Step(u, m, env) == Miss(m)
  {
    hide AluStep, MemoryStep, BranchStep, VfpStep, Legal;
    if IsVfp(u.op.f) {
      VfpMiss(u, m, env);
    } else if IsAlu(u.op.f) {
      AluNeverMisses(u, m);
    } else if u.op.f == End || IsTerminalBranch(u.op.f) {
      BranchMiss(u, m);
    } else {
      MemoryMiss(u, m, env);
    }
  }

  lemma AluNeverMisses(u: Uop, m: M)
    requires Wide(m.s) && Legal(u.op)
    ensures !AluStep(u, m).Miss?
  {
    hide HostShiftImm, HostShiftReg, HostDp;
  }

  lemma BranchMiss(u: Uop, m: M)
    requires Wide(m.s) && Legal(u.op) && BranchStep(u, m).Miss?
    ensures IsRuntimeGuarded(u.op.f) && BranchStep(u, m) == Miss(m)
  {
  }

  lemma MemoryMiss(u: Uop, m: M, env: Env)
    requires Ready(m, env) && Legal(u.op) && MemoryStep(u, m, env).Miss?
    ensures IsRuntimeGuarded(u.op.f) && MemoryStep(u, m, env) == Miss(m)
  {
    hide Lookup, StoreBytes, LoadBytes, BlockAddresses, Extended;
  }

  lemma VfpMiss(u: Uop, m: M, env: Env)
    requires Ready(m, env) && Legal(u.op) && VfpStep(u, m, env).Miss?
    ensures VfpStep(u, m, env) == Miss(m)
  {
    hide Lookup, StoreBytes, LoadBytes, VstmAddresses, Spread, MoveRecord, SystemRecord, DataRecord, InFile, Enabled;
  }

  /** Dispatch over an instruction's records goes the same way wherever they stand. */
  lemma {:induction false} RunWithin(pre: seq<Uop>, seg: seq<Uop>, post: seq<Uop>, i: nat, m: M, env: Env)
    requires Ready(m, env) && i <= |seg| && !Run(seg, i, m, env).Unmodelled?
    ensures match Run(seg, i, m, env)
            case Fell(m1) => Ready(m1, env) && Run(pre + seg + post, |pre| + i, m, env) == Run(pre + seg + post, |pre| + |seg|, m1, env)
            case Left(m1, pc) => Run(pre + seg + post, |pre| + i, m, env) == Left(m1, pc)
            case Missed(m1, at) => at < |seg| && IsRuntimeGuarded(seg[at].op.f)
                                   && Run(pre + seg + post, |pre| + i, m, env) == Missed(m1, |pre| + at)
            case Unmodelled => true
    decreases |seg| - i
  {
    hide Step, IsRuntimeGuarded;
    if i < |seg| {
      assert (pre + seg + post)[|pre| + i] == seg[i];
      var o := Step(seg[i], m, env);
      if o.Next? {
        RunWithin(pre, seg, post, i + 1, o.m, env);
      } else if o.Skip? {
        RunWithin(pre, seg, post, i + 1 + o.n, o.m, env);
      } else if o.Miss? {
        MissIsGuarded(seg[i], m, env);
      }
    }
  }

  // ------------------------------------------------------------ Branches

  lemma BranchTarget(insn: Word, x: int)
    ensures Wrap(x + 8 + Signed(Wrap(insn * 256)) / 64) == Wrap(Wrap(x) + 8 + 4 * Arch.SignedField(Field(insn, 0, 24), 24))
  {
    Pow2Small();
    var f: int := insn % 0x100_0000;
    assert Pow2(24) == 2 * Pow2(23);
    assert Field(insn, 0, 24) == f;
    Shifted24(insn);
    var d: int := 4 * Arch.SignedField(f, 24);
    assert Signed(Wrap(insn * 256)) == 64 * d;
    assert Signed(Wrap(insn * 256)) / 64 == d;
    WrapWrap(x, 8 + d);
  }

  lemma Shifted24(insn: Word)
    ensures Wrap(insn * 256) == 256 * (insn % 0x100_0000)
  {
    var k: int, f: int := insn / 0x100_0000, insn % 0x100_0000;
    assert insn * 256 == 0x1_0000_0000 * k + 256 * f;
  }

  lemma LastRun(u: Uop, m: M, env: Env)
    requires Ready(m, env) && (Step(u, m, env).Exit? || Step(u, m, env).Miss?)
    ensures var o := Step(u, m, env);
            Run([u], 0, m, env) == if o.Exit? then Left(o.m, o.pc) else Missed(o.m, 0)
  {
    hide Step;
  }

  lemma ImmediateStep(u: Uop, m: M, env: Env)
    requires Ready(m, env) && Legal(u.op)
    ensures u.op.f == BranchCond ==> Step(u, m, env) == Exit(m, if HostCondition(u.op.d, m.s.f) then u.imm else u.pcv)
    ensures u.op.f == End ==> Step(u, m, env) == Exit(m, u.imm)
    ensures u.op.f == BranchLink ==>
              Step(u, m, env) == if HostCondition(u.op.d, m.s.f) then Exit(m.(s := Set(m.s, 14, u.pcv)), u.imm) else Exit(m, u.pcv)
  {
    hide HostCondition, Step, Legal;
    if u.op.f == BranchCond || u.op.f == End || u.op.f == BranchLink {
      BranchDispatch(u, m, env);
    }
  }

  lemma BranchDecoded(insn: Word, i: nat, insns: nat, pc: Word)
    requires Field(insn, 28, 4) != 15 && DecodeArmBranch(insn, i, insns, pc).Some?
    ensures var condition, link := Field(insn, 28, 4), Bit(insn, 24);
            var s := DecodeArmBranch(insn, i, insns, pc).value;
            && s == [Uop(if !link && condition == 14 then Op(End, 0, 0, 0, 0)
                         else if link then Op(BranchLink, 0, 0, 0, condition) else Op(BranchCond, 0, 0, 0, condition),
                         Wrap(pc + i * 4 + 8 + Signed(Wrap(insn * 256)) / 64), Wrap(pc + i * 4 + 4), 0)]
            && Legal(s[0].op)
  {
    hide Field, Signed, Wrap;
  }

  lemma ArmIsBranch(insn: Word, addr: Word, s: State, mmu: Mmu, priv: bool)
    requires Wide(s) && Field(insn, 25, 3) == 5
    ensures Arch.ArmInstruction(insn, addr, s, mmu, priv) == Arch.ArmBranch(insn, addr, s)
  {
    hide Field, Arch.ArmBranch;
  }

  lemma ArmIsExchange(insn: Word, addr: Word, s: State, mmu: Mmu, priv: bool)
    requires Wide(s) && Field(insn, 25, 3) != 5 && IsArmBx(insn)
    ensures Arch.ArmInstruction(insn, addr, s, mmu, priv)
            == Arch.BranchExchange(Arch.Reg(s, Field(insn, 0, 4), Wrap(addr + 8)), if Bit(insn, 5) then Some(Wrap(addr + 4)) else None, s)
  {
    LinkBit(insn);
    hide Field, Arch.BranchExchange, Arch.Reg;
  }

  /** A direct branch record with its target and return address is the architectural branch under its condition. */
  lemma BranchRecord(u: Uop, condition: nat, link: bool, m: M, env: Env, target: Word, back: Word)
    requires Ready(m, env) && Legal(u.op) && condition < 15 && u.imm == target && u.pcv == back
    requires u.op == if !link && condition == 14 then Op(End, 0, 0, 0, 0)
                     else if link then Op(BranchLink, 0, 0, 0, condition) else Op(BranchCond, 0, 0, 0, condition)
    ensures var taken := Arch.Done(if link then Arch.SetReg(m.s, 14, back) else m.s, target);
            Agrees(Run([u], 0, m, env), if Arch.ConditionPassed(condition, m.s.f) then taken else Arch.Done(m.s, back), m.s, back)
  {
    hide HostCondition, Arch.ConditionPassed, Run, Step, Legal;
    ConditionAgrees(condition, m.s.f);
    Always(m.s.f);
    ImmediateStep(u, m, env);
    LastRun(u, m, env);
  }

  function BranchTargetOf(insn: Word, addr: Word): Word { Wrap(addr + 8 + 4 * Arch.SignedField(Field(insn, 0, 24), 24)) }

  /** The decoded record holds the architectural target and return address. */
  lemma BranchDecodedAt(insn: Word, i: nat, insns: nat, pc: Word, addr: Word)
    requires Field(insn, 28, 4) != 15 && DecodeArmBranch(insn, i, insns, pc).Some? && addr == Wrap(pc + i * 4)
    ensures var condition, link := Field(insn, 28, 4), Bit(insn, 24);
            var s := DecodeArmBranch(insn, i, insns, pc).value;
            && |s| == 1 && Legal(s[0].op) && s[0].imm == BranchTargetOf(insn, addr) && s[0].pcv == Wrap(addr + 4)
            && s[0].op == if !link && condition == 14 then Op(End, 0, 0, 0, 0)
                          else if link then Op(BranchLink, 0, 0, 0, condition) else Op(BranchCond, 0, 0, 0, condition)
  {
    BranchTarget(insn, pc + i * 4);
    hide Field, Signed, Wrap, Arch.SignedField, DecodeArmBranch, Legal;
    WrapWrap(pc + i * 4, 4);
    BranchDecoded(insn, i, insns, pc);
  }

  /** B and BL under any condition. */
  lemma ArmBranchRefines(insn: Word, i: nat, insns: nat, pc: Word, m: M, env: Env)
    requires Ready(m, env) && Field(insn, 28, 4) != 15 && Field(insn, 25, 3) == 5
    requires DecodeArmBranch(insn, i, insns, pc).Some?
    ensures Agrees(Run(DecodeArmBranch(insn, i, insns, pc).value, 0, m, env),
                   Arch.ArmStep(insn, Wrap(pc + i * 4), m.s, env.mmu, env.priv), m.s, Wrap(Wrap(pc + i * 4) + 4))
  {
    ReadyIsWide(m, env);
    hide *;
    var addr := Wrap(pc + i * 4);
    BranchDecodedAt(insn, i, insns, pc, addr);
    var s := DecodeArmBranch(insn, i, insns, pc).value;
    assert s == [s[0]];
    BranchRecord(s[0], Field(insn, 28, 4), Bit(insn, 24), m, env, BranchTargetOf(insn, addr), Wrap(addr as int + 4));
    ArmBranchStep(insn, addr, m.s, env.mmu, env.priv);
  }

  lemma ReadyIsWide(m: M, env: Env)
    requires Ready(m, env)
    ensures Wide(m.s)
  {
  }

  lemma ArmBranchStep(insn: Word, addr: Word, s: State, mmu: Mmu, priv: bool)
    requires Wide(s) && Field(insn, 25, 3) == 5
    ensures var taken := Arch.Done(if Bit(insn, 24) then Arch.SetReg(s, 14, Wrap(addr + 4)) else s, BranchTargetOf(insn, addr));
            Arch.ArmStep(insn, addr, s, mmu, priv) == if Arch.ConditionPassed(Field(insn, 28, 4), s.f) then taken else Arch.Done(s, Wrap(addr + 4))
  {
    hide Field, Arch.SignedField, Arch.ConditionPassed, Wrap, Arch.ArmInstruction;
    ArmIsBranch(insn, addr, s, mmu, priv);
  }

  lemma Always(f: Flags)
    ensures Arch.ConditionPassed(14, f)
  {
  }

  /** BX and BLX with the instruction's address filled in by the guard metadata. */
  lemma ArmBxRefines(insn: Word, i: nat, insns: nat, t: seq<Uop>, addr: Word, m: M, env: Env)
    requires Ready(m, env) && IsArmBx(insn) && Field(insn, 25, 3) != 5 && DecodeArmBx(insn, i, insns).Some?
    requires |t| == 1 && t[0].op == DecodeArmBx(insn, i, insns).value[0].op && t[0].pcv == addr
    ensures Agrees(Run(t, 0, m, env), Arch.ArmInstruction(insn, addr, m.s, env.mmu, env.priv), m.s, Wrap(addr + 4))
  {
    hide Field, Run, Step, HostIndirect, Arch.BranchExchange, Arch.Reg, Arch.ArmInstruction, Legal, DecodeArmBx, IsArmBx, Wrap;
    ArmIsExchange(insn, addr, m.s, env.mmu, env.priv);
    ExchangeRecord(insn, i, insns);
    IndirectStep(t[0], m, env);
    IndirectRefines(m, t[0], Field(insn, 0, 4), Bit(insn, 5), false, Wrap(addr + 4));
    assert t == [t[0]];
    LastRun(t[0], m, env);
  }

  lemma ExchangeRecord(insn: Word, i: nat, insns: nat)
    requires DecodeArmBx(insn, i, insns).Some?
    ensures var s := DecodeArmBx(insn, i, insns).value;
            |s| == 1 && Legal(s[0].op) && s[0].op == Op(if Bit(insn, 5) then ArmBlx else ArmBx, 0, 0, 0, Field(insn, 0, 4))
  {
    hide Field, Legal;
    ExchangeLegal(insn, i, insns);
    assert Legal(DecodeArmBx(insn, i, insns).value[0].op);
  }

  lemma LinkBit(insn: Word)
    ensures Field(insn, 4, 24) == 0x12fff1 ==> !Bit(insn, 5)
    ensures Field(insn, 4, 24) == 0x12fff3 ==> Bit(insn, 5)
  {
    SubField(insn, 4, 24, 1, 1);
    Pow2Small();
    hide Field;
  }

  lemma IndirectStep(u: Uop, m: M, env: Env)
    requires Ready(m, env) && Legal(u.op) && IsIndirectBranch(u.op.f)
    ensures Step(u, m, env) == HostIndirect(m, u, u.op.d, u.op.f == ArmBlx || u.op.f == ThumbBlx, u.op.f == ThumbBx || u.op.f == ThumbBlx)
  {
    hide HostIndirect, Step, Legal;
    BranchDispatch(u, m, env);
  }

  lemma IndirectRefines(m: M, u: Uop, rm: nat, link: bool, thumb: bool, back: Word)
    requires Wide(m.s) && rm < 16
    requires back == if thumb then Or(Wrap(u.pcv + 2), 1) else Wrap(u.pcv + 4)
    ensures var o := HostIndirect(m, u, rm, link, thumb);
            var r := Arch.BranchExchange(Arch.Reg(m.s, rm, Wrap(u.pcv + (if thumb then 4 else 8))), if link then Some(back) else None, m.s);
            o == Miss(m) || (o.Exit? && r == Arch.Done(o.m.s, o.pc))
  {
    hide Or;
  }

  lemma {:induction false} OrZero(x: nat, n: nat)
    requires x < Pow2(n)
    ensures Logic(OR, x, 0, n) == x
  {
    if n > 0 {
      OrZero(x / 2, n - 1);
    }
  }

  /** Setting the Thumb bit of a halfword address adds one. */
  lemma ThumbBitAdds(x: Word)
    requires x % 2 == 0
    ensures Or(x, 1) == x + 1
  {
    Pow2Of32();
    assert Pow2(32) == 2 * Pow2(31);
    OrZero(x / 2, 31);
    assert Logic(OR, x, 1, 32) == 2 * Logic(OR, x / 2, 0, 31) + 1;
  }

  // ------------------------------------------------------------ A32

  /** Records of instruction `i` with guard metadata. */
  ghost predicate Ours(t: seq<Uop>, s: seq<Uop>, i: nat, insns: nat, pc: Word, thumb: bool) {
    i < insns <= MAX_INSNS && t == PatchedAll(s, i, insns, pc, thumb)
  }

  lemma OursAt(t: seq<Uop>, s: seq<Uop>, i: nat, insns: nat, pc: Word, thumb: bool, k: nat)
    requires Ours(t, s, i, insns, pc, thumb) && k < |s|
    ensures |t| == |s|
    ensures if IsRuntimeGuarded(s[k].op.f) then t[k].op == s[k].op && t[k].imm == s[k].imm && t[k].pcv == Wrap(pc + i * Width(thumb))
            else t[k] == s[k]
  {
    hide IsRuntimeGuarded;
  }

  lemma DpUnguarded(insn: Word, i: nat, pc: Word)
    requires DecodeArmDp(insn, i, pc).Some?
    ensures var s := DecodeArmDp(insn, i, pc).value; forall k :: 0 <= k < |s| ==> !IsRuntimeGuarded(s[k].op.f)
  {
    hide Field, Rotated;
  }

  lemma ArmDpOurs(insn: Word, i: nat, insns: nat, pc: Word, t: seq<Uop>, m: M, env: Env)
    requires Ready(m, env) && DecodeArmDp(insn, i, pc).Some? && Ours(t, DecodeArmDp(insn, i, pc).value, i, insns, pc, false)
    ensures Agrees(Run(t, 0, m, env), Arch.ArmDataProcessing(insn, Wrap(pc + i * 4), m.s), m.s, Wrap(Wrap(pc + i * 4) + 4))
  {
    hide DecodeArmDp, Run, Ours, Arch.ArmDataProcessing, IsRuntimeGuarded;
    var s := DecodeArmDp(insn, i, pc).value;
    DpUnguarded(insn, i, pc);
    OursLength(t, s, i, insns, pc, false);
    forall k | 0 <= k < |s|
      ensures t[k] == s[k]
    {
      OursAt(t, s, i, insns, pc, false, k);
    }
    assert t == s;
    ArmDpRefines(insn, i, pc, m, env);
  }

  lemma OursLength(t: seq<Uop>, s: seq<Uop>, i: nat, insns: nat, pc: Word, thumb: bool)
    requires Ours(t, s, i, insns, pc, thumb)
    ensures |t| == |s|
  {
  }

  lemma SingleShape(insn: Word, i: nat, insns: nat, pc: Word, mode: Mode)
    requires DecodeArmSingleTransfer(insn, i, insns, pc, mode).Some?
    ensures var s := DecodeArmSingleTransfer(insn, i, insns, pc, mode).value;
            s != [] && (if Reads(mode) then IsRuntimeGuarded(s[|s| - 1].op.f) else |s| == 1 && !IsRuntimeGuarded(s[0].op.f))
            && forall k :: 0 <= k < |s| - 1 ==> !IsRuntimeGuarded(s[k].op.f)
  {
    hide *;
    SingleFamilies(insn, i, insns, pc, mode);
    var s := DecodeArmSingleTransfer(insn, i, insns, pc, mode).value;
    if Reads(mode) {
      AccessGuarded(s[|s| - 1].op.f);
      forall k | 0 <= k < |s| - 1
        ensures !IsRuntimeGuarded(s[k].op.f)
      {
        AddressUnguarded(s[k].op.f);
      }
    } else {
      AddressUnguarded(s[0].op.f);
    }
  }

  lemma SingleFamilies(insn: Word, i: nat, insns: nat, pc: Word, mode: Mode)
    requires DecodeArmSingleTransfer(insn, i, insns, pc, mode).Some?
    ensures var s := DecodeArmSingleTransfer(insn, i, insns, pc, mode).value;
            if Reads(mode) then
              && s != []
              && (s[|s| - 1].op.f == DirectRead || s[|s| - 1].op.f == DirectWrite || IsDirectWriteWb(s[|s| - 1].op.f))
              && forall k :: 0 <= k < |s| - 1 ==> s[k].op.f == ShiftImm || IsAddrImm(s[k].op.f) || IsAddrReg(s[k].op.f)
            else |s| == 1 && s[0].op.f == FlatWord
  {
    hide Field, Wrap;
  }

  lemma ArmSingleOurs(insn: Word, i: nat, insns: nat, pc: Word, mode: Mode, t: seq<Uop>, m: M, env: Env)
    requires Ready(m, env) && Suits(mode, env, |m.s.ram|) && DecodeArmSingleTransfer(insn, i, insns, pc, mode).Some?
    requires Ours(t, DecodeArmSingleTransfer(insn, i, insns, pc, mode).value, i, insns, pc, false)
    ensures Follows(mode, Run(t, 0, m, env), Arch.ArmLoadStore(insn, Wrap(pc + i * 4), m.s, env.mmu, env.priv), m.s, Wrap(Wrap(pc + i * 4) + 4))
  {
    hide Run, Ours, Arch.ArmLoadStore, Field, Sound, Folded, DecodeArmSingleTransfer, IsRuntimeGuarded, Reads, Agrees;
    SingleShape(insn, i, insns, pc, mode);
    var s := DecodeArmSingleTransfer(insn, i, insns, pc, mode).value;
    OursLength(t, s, i, insns, pc, false);
    forall k | 0 <= k < |s| - 1
      ensures t[k] == s[k]
    {
      OursAt(t, s, i, insns, pc, false, k);
    }
    OursAt(t, s, i, insns, pc, false, |s| - 1);
    if Reads(mode) {
      ArmSingleRefines(insn, i, insns, pc, mode, t, m, env);
    } else {
      assert t == s;
      ReadsNot(mode);
      ArmFlatRefines(insn, i, insns, pc, t, m, env);
    }
  }

  lemma ReadsNot(mode: Mode)
    requires !Reads(mode)
    ensures mode == Flat
  {
  }

  lemma ArmBlockOurs(insn: Word, i: nat, insns: nat, pc: Word, mode: Mode, t: seq<Uop>, m: M, env: Env)
    requires Ready(m, env) && Sound(env, |m.s.ram|) && DecodeArmBlockTransfer(insn, i, insns, mode).Some?
    requires Ours(t, DecodeArmBlockTransfer(insn, i, insns, mode).value, i, insns, pc, false)
    ensures Agrees(Run(t, 0, m, env), Arch.ArmLoadStoreMultiple(insn, Wrap(pc + i * 4), m.s, env.mmu, env.priv), m.s,
                   Wrap(Wrap(pc + i * 4) + 4))
  {
    hide Run, Ours, Arch.ArmLoadStoreMultiple, Field, Sound, Regs;
    var s := DecodeArmBlockTransfer(insn, i, insns, mode).value;
    OursLength(t, s, i, insns, pc, false);
    OursAt(t, s, i, insns, pc, false, 0);
    forall k | 0 < k < |s|
      ensures t[k] == s[k]
    {
      assert s[k].op.f == LdmCommit || s[k].op.f == StmCommit || s[k].op.f == LdmFinish || s[k].op.f == LdmFinishWb
             || s[k].op.f == StmFinish || s[k].op.f == StmFinishWb;
      OursAt(t, s, i, insns, pc, false, k);
    }
    ArmBlockRefines(insn, i, insns, mode, t, Wrap(pc + i * 4), m, env);
  }

  lemma ArmBxOurs(insn: Word, i: nat, insns: nat, pc: Word, t: seq<Uop>, m: M, env: Env)
    requires Ready(m, env) && IsArmBx(insn) && Field(insn, 25, 3) != 5 && DecodeArmBx(insn, i, insns).Some?
    requires Ours(t, DecodeArmBx(insn, i, insns).value, i, insns, pc, false)
    ensures Agrees(Run(t, 0, m, env), Arch.ArmInstruction(insn, Wrap(pc + i * 4), m.s, env.mmu, env.priv), m.s, Wrap(Wrap(pc + i * 4) + 4))
  {
    hide Run, Ours, Arch.ArmInstruction, Field;
    OursAt(t, DecodeArmBx(insn, i, insns).value, i, insns, pc, false, 0);
    ArmBxRefines(insn, i, insns, t, Wrap(pc + i * 4), m, env);
  }

  /** The four groups of the VFP space are apart. */
  lemma VfpClasses(insn: Word)
    ensures Field(insn, 24, 4) == 14 ==> Field(insn, 25, 3) == 7
    ensures Field(insn, 21, 7) == 0x62 ==> Field(insn, 24, 4) == 12
  {
    hide Field, Pow2;
    Pow2Small();
    SubField(insn, 24, 4, 1, 3);
    SubField(insn, 21, 7, 3, 4);
  }

  /** A single record keeps its operands when it is patched. */
  lemma OneOurs(t: seq<Uop>, s: seq<Uop>, i: nat, insns: nat, pc: Word)
    requires |s| == 1 && AllLegal(s) && Ours(t, s, i, insns, pc, false)
    ensures |t| == 1 && OneRecord(Some(s), t[0])
  {
    hide IsRuntimeGuarded, Legal;
    assert Legal(s[0].op);
  }

  lemma RegisterOurs(insn: Word, t: seq<Uop>, s: seq<Uop>, i: nat, insns: nat, pc: Word, addr: Word, m: M, env: Env)
    requires Ready(m, env) && Field(insn, 24, 4) == 14 && Field(insn, 9, 3) == 5
    requires Some(s) == (if Bit(insn, 4) then DecodeVfpCoreMove(insn) else DecodeVfpData(insn))
    requires AllLegal(s) && Ours(t, s, i, insns, pc, false)
    ensures Agrees(Run(t, 0, m, env), Arch.ArmVfp(insn, addr, m.s, env.mmu, env.priv), m.s, Wrap(addr + 4))
  {
    hide Run, Step, Ours, Field, Agrees, DecodeVfpCoreMove, DecodeVfpData, ArchVfp.Execute, AllLegal, Legal;
    if Bit(insn, 4) {
      CoreMoveShape(insn);
      OneOurs(t, s, i, insns, pc);
      CoreMoveRefines(insn, t[0], addr, m, env);
    } else {
      DataIsVfp(insn);
      OneOurs(t, s, i, insns, pc);
      DataRefines(insn, t[0], addr, m, env);
    }
    RefinesByLast(t, m, m, env, ArchVfp.Execute(insn, addr, m.s, env.mmu, env.priv), addr);
  }

  lemma TransferOurs(insn: Word, t: seq<Uop>, s: seq<Uop>, i: nat, insns: nat, pc: Word, writes: bool)
    requires DecodeVfpTransfer(insn, Wrap(Wrap(pc + i * 4) + 8), writes) == Some(s) && Ours(t, s, i, insns, pc, false)
    ensures TransferRecords(t, insn, Wrap(pc + i * 4), writes)
  {
    hide Field;
    OursLength(t, s, i, insns, pc, false);
    forall k | 0 <= k < |s|
      ensures t[k].op == s[k].op && t[k].imm == s[k].imm
    {
      OursAt(t, s, i, insns, pc, false, k);
    }
    OursAt(t, s, i, insns, pc, false, 0);
  }

  /** Every decoded VFP word. */
  lemma ArmVfpOurs(insn: Word, i: nat, insns: nat, pc: Word, writes: bool, t: seq<Uop>, m: M, env: Env)
    requires Ready(m, env) && Sound(env, |m.s.ram|) && DecodeVfp(insn, Wrap(pc + i * 4 + 8), writes).Some?
    requires Ours(t, DecodeVfp(insn, Wrap(pc + i * 4 + 8), writes).value, i, insns, pc, false)
    ensures Agrees(Run(t, 0, m, env), Arch.ArmVfp(insn, Wrap(pc + i * 4), m.s, env.mmu, env.priv), m.s, Wrap(Wrap(pc + i * 4) + 4))
  {
    hide Run, Step, Ours, ArchVfp.Execute, Field, Sound, Agrees, DecodeVfpCoreMove, DecodeVfpPairMove, DecodeVfpTransfer, DecodeVfpData,
         IsRuntimeGuarded, Legal, AllLegal, TransferRecords;
    VfpClasses(insn);
    var pcv, addr := Wrap(pc + i * 4 + 8), Wrap(pc + i * 4);
    WrapWrap(pc + i * 4, 8);
    VfpLegal(insn, pcv, writes);
    var s := DecodeVfp(insn, pcv, writes).value;
    OursLength(t, s, i, insns, pc, false);
    if Field(insn, 24, 4) == 14 && Field(insn, 9, 3) == 5 {
      RegisterOurs(insn, t, s, i, insns, pc, addr, m, env);
    } else if Field(insn, 21, 7) == 0x62 && Field(insn, 9, 3) == 5 {
      PairMoveShape(insn);
      OneOurs(t, s, i, insns, pc);
      PairMoveRefines(insn, t[0], addr, m, env);
      RefinesByLast(t, m, m, env, ArchVfp.Execute(insn, addr, m.s, env.mmu, env.priv), addr);
    } else {
      TransferOurs(insn, t, s, i, insns, pc, writes);
      if Bit(insn, 24) && !Bit(insn, 21) {
        ArmVfpSingleRefines(insn, addr, writes, t, m, env);
      } else {
        ArmVstmRefines(insn, addr, writes, t, m, env);
      }
    }
  }

  /** The unconditional part of an A32 instruction other than a branch. */
  lemma ArmBodyRefines(insn: Word, i: nat, insns: nat, pc: Word, mode: Mode, t: seq<Uop>, m: M, env: Env)
    requires Ready(m, env) && Suits(mode, env, |m.s.ram|) && Field(insn, 25, 3) != 5
    requires DecodeArmBody(insn, i, insns, pc, mode).Some?
    requires Ours(t, DecodeArmBody(insn, i, insns, pc, mode).value, i, insns, pc, false)
    ensures Follows(mode, Run(t, 0, m, env), Arch.ArmInstruction(insn, Wrap(pc + i * 4), m.s, env.mmu, env.priv), m.s,
                    Wrap(Wrap(pc + i * 4) + 4))
  {
    hide Run, Ours, Field, DecodeVfp, DecodeArmBx, DecodeArmDp, DecodeArmSingleTransfer, DecodeArmBlockTransfer, IsArmDp, Agrees, Sound, Folded,
         Arch.ArmBranch, Arch.BranchExchange, Arch.ArmLoadStoreMultiple, Arch.ArmLoadStore, Arch.ArmDataProcessing, Arch.ArmVfp;
    var vfp := if Reads(mode) then DecodeVfp(insn, Wrap(pc + i * 4 + 8), Writes(mode)) else None;
    if IsArmBx(insn) {
      ArmBxOurs(insn, i, insns, pc, t, m, env);
    } else if vfp.Some? {
      VfpSpace(insn, Wrap(pc + i * 4 + 8), Writes(mode));
      ArmVfpOurs(insn, i, insns, pc, Writes(mode), t, m, env);
    } else if Field(insn, 25, 3) == 4 {
      BlockNeedsReads(insn, i, insns, mode);
      ArmBlockOurs(insn, i, insns, pc, mode, t, m, env);
    } else if Field(insn, 26, 2) == 1 {
      ArmSingleOurs(insn, i, insns, pc, mode, t, m, env);
    } else {
      ArmDpOurs(insn, i, insns, pc, t, m, env);
      DpClass(insn);
    }
  }

  lemma BlockNeedsReads(insn: Word, i: nat, insns: nat, mode: Mode)
    requires DecodeArmBlockTransfer(insn, i, insns, mode).Some?
    ensures Reads(mode)
  {
    hide Field, Regs;
  }

  /** The VFP space is neither branch, block transfer, single transfer nor data processing. */
  lemma VfpSpace(insn: Word, pcv: Word, writes: bool)
    requires DecodeVfp(insn, pcv, writes).Some?
    ensures Field(insn, 26, 2) == 3 && Field(insn, 25, 3) != 5 && Field(insn, 25, 3) != 4
  {
    hide Field, Pow2, DecodeVfpCoreMove, DecodeVfpPairMove, DecodeVfpTransfer, DecodeVfpData;
    Pow2Small();
    SubField(insn, 24, 4, 1, 3);
    SubField(insn, 24, 4, 2, 2);
    SubField(insn, 21, 7, 3, 4);
    SubField(insn, 25, 3, 1, 2);
  }

  lemma DpClass(insn: Word)
    ensures IsArmDp(insn) ==> Field(insn, 26, 2) == 0
  {
    hide Field;
  }

  lemma GuardStep(u: Uop, condition: nat, m: M, env: Env)
    requires Ready(m, env) && u.op == Op(Cond, 0, 0, 0, condition) && condition < 14
    ensures Step(u, m, env) == if HostCondition(condition, m.s.f) then Next(m) else Skip(m, u.meta)
  {
    hide HostCondition;
  }

  /** A guard runs its body or skips the whole of it. */
  ghost predicate GuardOutcome(run: Stop, body: Stop, passed: bool, m: M) {
    if !passed then run == Fell(m)
    else match body
         case Missed(m1, at) => run == Missed(m1, 1 + at)
         case o => run == o
  }

  lemma GuardedRun(guard: Uop, body: seq<Uop>, condition: nat, m: M, env: Env)
    requires Ready(m, env) && guard.op == Op(Cond, 0, 0, 0, condition) && condition < 14 && guard.meta == |body|
    requires HostCondition(condition, m.s.f) ==> !Run(body, 0, m, env).Unmodelled?
    ensures GuardOutcome(Run([guard] + body, 0, m, env), Run(body, 0, m, env), HostCondition(condition, m.s.f), m)
  {
    hide Step, HostCondition;
    GuardStep(guard, condition, m, env);
    assert ([guard] + body)[0] == guard;
    if HostCondition(condition, m.s.f) {
      RunWithin([guard], body, [], 0, m, env);
      assert [guard] + body + [] == [guard] + body;
    }
  }

  /** A whole A32 instruction: when its condition fails nothing happens but the advance to the next. */
  lemma ArmRefines(insn: Word, i: nat, insns: nat, pc: Word, mode: Mode, t: seq<Uop>, m: M, env: Env)
    requires Ready(m, env) && Suits(mode, env, |m.s.ram|) && DecodeArm(insn, i, insns, pc, mode).Some?
    requires Ours(t, DecodeArm(insn, i, insns, pc, mode).value, i, insns, pc, false)
    ensures Follows(mode, Run(t, 0, m, env), Arch.ArmStep(insn, Wrap(pc + i * 4), m.s, env.mmu, env.priv), m.s, Wrap(Wrap(pc + i * 4) + 4))
  {
    hide Run, Ours, Field, DecodeArmBody, DecodeArmBranch, Arch.ArmInstruction, Arch.ConditionPassed, HostCondition, Sound, Folded;
    var condition := Field(insn, 28, 4);
    if Field(insn, 25, 3) == 5 {
      BranchOurs(insn, i, insns, pc, t);
      ArmBranchRefines(insn, i, insns, pc, m, env);
    } else {
      var body := DecodeArmBody(insn, i, insns, pc, mode).value;
      ConditionAgrees(condition, m.s.f);
      GuardSplits(body, condition, t, i, insns, pc);
      var tail := if condition < 14 then t[1..] else t;
      ArmBodyRefines(insn, i, insns, pc, mode, tail, m, env);
      if condition >= 14 {
        Always(m.s.f);
      } else if Agrees(Run(tail, 0, m, env), Arch.ArmInstruction(insn, Wrap(pc + i * 4), m.s, env.mmu, env.priv), m.s,
                       Wrap(Wrap(pc + i * 4) + 4)) || !HostCondition(condition, m.s.f) {
        GuardedRun(t[0], tail, condition, m, env);
      }
    }
  }

  lemma BranchOurs(insn: Word, i: nat, insns: nat, pc: Word, t: seq<Uop>)
    requires Field(insn, 28, 4) != 15 && DecodeArmBranch(insn, i, insns, pc).Some?
    requires Ours(t, DecodeArmBranch(insn, i, insns, pc).value, i, insns, pc, false)
    ensures t == DecodeArmBranch(insn, i, insns, pc).value
  {
    hide Field, Ours, Signed;
    OursAt(t, DecodeArmBranch(insn, i, insns, pc).value, i, insns, pc, false, 0);
  }

  lemma GuardSplits(body: seq<Uop>, condition: nat, t: seq<Uop>, i: nat, insns: nat, pc: Word)
    requires |body| < 0x1_0000_0000 && condition < 15 && Ours(t, Guarded(condition, body), i, insns, pc, false)
    ensures |t| == |Guarded(condition, body)|
    ensures condition < 14 ==> t == [t[0]] + t[1..] && t[0] == Guarded(condition, body)[0] && Ours(t[1..], body, i, insns, pc, false)
    ensures condition >= 14 ==> Ours(t, body, i, insns, pc, false)
  {
    hide Patched, Guarded;
    GuardedIs(condition, body);
    if condition < 14 {
      var g := Guarded(condition, body);
      GuardUnpatched(g[0], i, insns, pc);
      forall k | 0 <= k < |body|
        ensures t[1..][k] == Patched(body[k], i, insns, pc, false)
      {
        assert g[k + 1] == body[k];
      }
      assert t[1..] == PatchedAll(body, i, insns, pc, false);
    }
  }

  lemma GuardedIs(condition: nat, body: seq<Uop>)
    requires |body| < 0x1_0000_0000
    ensures var g := Guarded(condition, body);
            if condition < 14 then |g| == |body| + 1 && g[0].op.f == Cond && (forall k :: 0 <= k < |body| ==> g[k + 1] == body[k]) else g == body
  {
  }

  lemma GuardUnpatched(u: Uop, i: nat, insns: nat, pc: Word)
    requires i < insns <= MAX_INSNS && u.op.f == Cond
    ensures Patched(u, i, insns, pc, false) == u
  {
  }
}
