/** Every decoded Thumb instruction, run as its patched records, is the architectural instruction. */
module RefineThumb {
  import opened Words
  import opened Handlers
  import opened Decode
  import opened Machine
  import opened Exec
  import opened Fields
  import opened RefineAlu
  import opened RefineMemory
  import opened RefineInsn
  import opened Operands
  import Arch

  // ------------------------------------------------------------ Loads and stores

  lemma AccessStep(u: Uop, load: bool, kind: nat, rd: nat, m: M, env: Env)
    requires Ready(m, env) && rd < 8 && kind < 5 && (load || kind < 3)
    requires u.op == Op(if load then DirectRead else DirectWrite, 0, 0, kind, rd)
    ensures Step(u, m, env) == if load then HostRead(m, env, kind, rd) else HostWrite(m, u, env, kind, rd, None, false)
  {
    hide HostRead, HostWrite;
  }

  /** The access record after its address has been computed. */
  lemma AccessRefines(t: seq<Uop>, load: bool, kind: nat, rd: nat, va: Word, addr: Word, m: M, m1: M, env: Env)
    requires Ready(m, env) && Sound(env, |m.s.ram|) && rd < 8 && kind < 5 && (load || kind < 3)
    requires |t| > 0 && t[|t| - 1].op == Op(if load then DirectRead else DirectWrite, 0, 0, kind, rd)
    requires Ready(m1, env) && m1.s == m.s && m1.k.x17 == va && Run(t, 0, m, env) == Run(t, |t| - 1, m1, env)
    ensures Agrees(Run(t, 0, m, env), Arch.ThumbTransfer(load, kind, rd, va, addr, m.s, env.mmu, env.priv), m.s, Wrap(addr + 2))
  {
    hide Run, Step, HostRead, HostWrite, Arch.Load, Arch.Store, Sound;
    AccessStep(t[|t| - 1], load, kind, rd, m1, env);
    RunLast(t, m1, env);
    if load {
      ReadRefines(m1, env, kind, rd, Wrap(addr + 2));
    } else {
      WriteRefines(m1, t[|t| - 1], env, kind, rd, None, false, Wrap(addr + 2));
    }
  }

  lemma AccessFamilies(load: bool)
    ensures IsRuntimeGuarded(if load then DirectRead else DirectWrite)
    ensures !IsRuntimeGuarded(ShiftImm) && !IsRuntimeGuarded(AddrImm) && !IsRuntimeGuarded(AddrReg)
  {
    hide *;
    AccessGuarded(if load then DirectRead else DirectWrite);
    PlainAddress();
  }

  lemma PlainAddress()
    ensures !IsRuntimeGuarded(ShiftImm) && !IsRuntimeGuarded(AddrImm) && !IsRuntimeGuarded(AddrReg)
  {
    hide IsRuntimeGuarded;
    AddressUnguarded(ShiftImm);
    AddressUnguarded(AddrImm);
    AddressUnguarded(AddrReg);
  }

  /** Address from a register and an immediate. */
  lemma AccessImmRefines(t: seq<Uop>, load: bool, kind: nat, rd: nat, rn: nat, offset: Word, pcv: Word, i: nat, insns: nat, pc: Word,
                         m: M, env: Env)
    requires Ready(m, env) && Sound(env, |m.s.ram|) && rd < 8 && kind < 5 && (load || kind < 3) && rn < 16
    requires Ours(t, ThumbAccessImm(rn, offset, pcv, Op(if load then DirectRead else DirectWrite, 0, 0, kind, rd)), i, insns, pc, true)
    ensures var addr := Wrap(pc + i * 2);
            var va := Wrap(Arch.Reg(m.s, rn, pcv) + offset);
            Agrees(Run(t, 0, m, env), Arch.ThumbTransfer(load, kind, rd, va, addr, m.s, env.mmu, env.priv), m.s, Wrap(addr + 2))
  {
    hide Run, Ours, Arch.Reg, Arch.ThumbTransfer, Agrees, Sound, IsRuntimeGuarded;
    AccessFamilies(load);
    var s := ThumbAccessImm(rn, offset, pcv, Op(if load then DirectRead else DirectWrite, 0, 0, kind, rd));
    OursAt(t, s, i, insns, pc, true, 0);
    OursAt(t, s, i, insns, pc, true, 1);
    var m1 := ArmAddressImm(t, offset, true, true, rn, pcv, m, env);
    AccessRefines(t, load, kind, rd, Wrap(Arch.Reg(m.s, rn, pcv) + offset), Wrap(pc + i * 2), m, m1, env);
  }

  /** Address from two registers. */
  lemma AccessRegRefines(t: seq<Uop>, load: bool, kind: nat, rd: nat, rn: nat, rm: nat, pcv: Word, i: nat, insns: nat, pc: Word,
                         m: M, env: Env)
    requires Ready(m, env) && Sound(env, |m.s.ram|) && rd < 8 && kind < 5 && (load || kind < 3) && rn < 8 && rm < 8
    requires Ours(t, ThumbAccessReg(rn, rm, pcv, Op(if load then DirectRead else DirectWrite, 0, 0, kind, rd)), i, insns, pc, true)
    ensures var addr := Wrap(pc + i * 2);
            var va := Arch.Offset(m.s, rn, m.s.r[rm]);
            Agrees(Run(t, 0, m, env), Arch.ThumbTransfer(load, kind, rd, va, addr, m.s, env.mmu, env.priv), m.s, Wrap(addr + 2))
  {
    hide Run, Ours, Arch.ThumbTransfer, Agrees, Sound, Arch.ShiftByImmediate, IsRuntimeGuarded;
    AccessFamilies(load);
    var s := ThumbAccessReg(rn, rm, pcv, Op(if load then DirectRead else DirectWrite, 0, 0, kind, rd));
    OursAt(t, s, i, insns, pc, true, 0);
    OursAt(t, s, i, insns, pc, true, 1);
    OursAt(t, s, i, insns, pc, true, 2);
    var m1 := ArmAddressReg(t, 0, rm, 0, true, true, rn, pcv, m, env);
    Unshifted(m.s.r[rm], m.s.f.c);
    AccessRefines(t, load, kind, rd, Arch.Offset(m.s, rn, m.s.r[rm]), Wrap(pc + i * 2), m, m1, env);
  }

  lemma Unshifted(x: Word, c: bool)
    ensures Arch.ShiftByImmediate(0, x, 0, c) == (x, c)
  {
  }

  predicate ThumbIsMemory(insn: Word) {
    Field(insn, 11, 5) == 9 || Field(insn, 12, 4) == 5 || Field(insn, 13, 3) == 3 || Field(insn, 12, 4) == 8 || Field(insn, 12, 4) == 9
  }

  /** What each class of Thumb access decodes to: its record list in one of the two address forms. */
  lemma ImmediateAccessForm(insn: Word, i: nat, insns: nat, pcv: Word, mode: Mode, kind: nat, scale: nat, load: bool, t: seq<Uop>,
                            pc: Word, m: M, env: Env)
    requires Ready(m, env) && Sound(env, |m.s.ram|) && kind < 3 && (scale == 1 || scale == 2 || scale == 4)
    requires ThumbImmediateAccess(insn, i, insns, pcv, mode, kind, scale, load).Some?
    requires Ours(t, ThumbImmediateAccess(insn, i, insns, pcv, mode, kind, scale, load).value, i, insns, pc, true)
    ensures var addr := Wrap(pc + i * 2);
            var va := Arch.Offset(m.s, Field(insn, 3, 3), scale * Field(insn, 6, 5));
            Agrees(Run(t, 0, m, env), Arch.ThumbTransfer(load, kind, Field(insn, 0, 3), va, addr, m.s, env.mmu, env.priv), m.s, Wrap(addr + 2))
  {
    hide Run, Ours, Arch.ThumbTransfer, Agrees, Sound, Field, ThumbAccessImm;
    AccessImmRefines(t, load, kind, Field(insn, 0, 3), Field(insn, 3, 3), Field(insn, 6, 5) * scale, pcv, i, insns, pc, m, env);
  }

  lemma RegisterAccessRefines(insn: Word, i: nat, insns: nat, pcv: Word, mode: Mode, t: seq<Uop>, pc: Word, m: M, env: Env)
    requires Ready(m, env) && Sound(env, |m.s.ram|) && ThumbRegisterAccess(insn, i, insns, pcv, mode).Some?
    requires Ours(t, ThumbRegisterAccess(insn, i, insns, pcv, mode).value, i, insns, pc, true)
    ensures var addr, op := Wrap(pc + i * 2), Field(insn, 9, 3);
            var va := Arch.Offset(m.s, Field(insn, 3, 3), m.s.r[Field(insn, 6, 3)]);
            Agrees(Run(t, 0, m, env),
                   Arch.ThumbTransfer(op > 2, Arch.ThumbTransferKind(op), Field(insn, 0, 3), va, addr, m.s, env.mmu, env.priv),
                   m.s, Wrap(addr + 2))
  {
    hide Run, Ours, Arch.ThumbTransfer, Agrees, Sound, Field, ThumbAccessReg;
    var op := Field(insn, 9, 3);
    assert ThumbKind(op) == Arch.ThumbTransferKind(op);
    AccessRegRefines(t, op > 2, ThumbKind(op), Field(insn, 0, 3), Field(insn, 3, 3), Field(insn, 6, 3), pcv, i, insns, pc, m, env);
  }

  /** SP-relative accesses: through the caches, or flat. */
  lemma StackAccessRefines(insn: Word, i: nat, insns: nat, pcv: Word, mode: Mode, t: seq<Uop>, pc: Word, m: M, env: Env)
    requires Ready(m, env) && Suits(mode, env, |m.s.ram|) && ThumbStackAccess(insn, i, insns, pcv, mode).Some?
    requires Ours(t, ThumbStackAccess(insn, i, insns, pcv, mode).value, i, insns, pc, true)
    ensures var addr := Wrap(pc + i * 2);
            var va := Arch.Offset(m.s, 13, 4 * Field(insn, 0, 8));
            Follows(mode, Run(t, 0, m, env), Arch.ThumbTransfer(Bit(insn, 11), 0, Field(insn, 8, 3), va, addr, m.s, env.mmu, env.priv),
                    m.s, Wrap(addr + 2))
  {
    hide Run, Ours, Arch.ThumbTransfer, Agrees, Sound, Folded, Field, ThumbAccessImm;
    if Reads(mode) {
      AccessImmRefines(t, Bit(insn, 11), 0, Field(insn, 8, 3), 13, Field(insn, 0, 8) * 4, pcv, i, insns, pc, m, env);
    } else {
      FlatStackRefines(insn, i, insns, pcv, mode, t, pc, m, env);
    }
  }

  lemma FlatStackRefines(insn: Word, i: nat, insns: nat, pcv: Word, mode: Mode, t: seq<Uop>, pc: Word, m: M, env: Env)
    requires Ready(m, env) && Folded(env, |m.s.ram|) && mode == Flat && ThumbStackAccess(insn, i, insns, pcv, mode).Some?
    requires Ours(t, ThumbStackAccess(insn, i, insns, pcv, mode).value, i, insns, pc, true)
    ensures var addr := Wrap(pc + i * 2);
            var va := Arch.Offset(m.s, 13, 4 * Field(insn, 0, 8));
            Follows(Flat, Run(t, 0, m, env), Arch.ThumbTransfer(Bit(insn, 11), 0, Field(insn, 8, 3), va, addr, m.s, env.mmu, env.priv),
                    m.s, Wrap(addr + 2))
  {
    hide Run, Ours, Arch.ThumbTransfer, Arch.Offset, Agrees, Folded, Field, Follows;
    var s := ThumbStackAccess(insn, i, insns, pcv, mode).value;
    StackAccessLegal(insn, i, insns, pcv, mode);
    OursAt(t, s, i, insns, pc, true, 0);
    FlatStack(t, s, Bit(insn, 11), Field(insn, 8, 3), 4 * Field(insn, 0, 8), Wrap(pc + i * 2), m, env);
  }

  lemma FlatStack(t: seq<Uop>, s: seq<Uop>, load: bool, rd: nat, offset: nat, addr: Word, m: M, env: Env)
    requires Ready(m, env) && Folded(env, |m.s.ram|) && rd < 8 && offset < 0x1_0000_0000
    requires |t| == |s| == 1 && t[0] == s[0] && AllLegal(s) && s[0].op == Op(FlatSp, 0, 0, Num(!load), rd) && s[0].imm == offset
    ensures Follows(Flat, Run(t, 0, m, env), Arch.ThumbTransfer(load, 0, rd, Arch.Offset(m.s, 13, offset), addr, m.s, env.mmu, env.priv),
                    m.s, Wrap(addr + 2))
  {
    hide Run, Step, HostFlat, Arch.Load, Arch.Store, Folded, Follows;
    FlatDispatch(t[0], m, env);
    assert t == [t[0]];
    FlatRun(t[0], m, env, !load, rd, m.s.r[13], Arch.ThumbTransfer(load, 0, rd, Arch.Offset(m.s, 13, offset), addr, m.s, env.mmu, env.priv),
            Wrap(addr + 2));
  }

  lemma LiteralRefines(insn: Word, i: nat, insns: nat, pcv: Word, t: seq<Uop>, pc: Word, m: M, env: Env)
    requires Ready(m, env) && Sound(env, |m.s.ram|)
    requires Ours(t, ThumbAccessImm(15, Field(insn, 0, 8) * 4, WordAligned(pcv), Op(DirectRead, 0, 0, 0, Field(insn, 8, 3))),
                  i, insns, pc, true)
    ensures var addr := Wrap(pc + i * 2);
            Agrees(Run(t, 0, m, env),
                   Arch.Load(m.s, env.mmu, env.priv, Wrap(Arch.AlignDown(pcv) + 4 * Field(insn, 0, 8)), 0, Field(insn, 8, 3), Wrap(addr + 2)),
                   m.s, Wrap(addr + 2))
  {
    hide Run, Ours, Agrees, Sound, Field, ThumbAccessImm, Arch.Load;
    AccessImmRefines(t, true, 0, Field(insn, 8, 3), 15, Field(insn, 0, 8) * 4, WordAligned(pcv), i, insns, pc, m, env);
  }

  /** Only SP-relative accesses exist under the flat contract. */
  lemma FlatMemory(insn: Word, i: nat, insns: nat, pc: Word)
    requires insn < 0x1_0000 && ThumbIsMemory(insn) && DecodeThumb(insn, i, insns, pc, Flat).Some?
    ensures Field(insn, 11, 5) != 9 && Field(insn, 12, 4) != 5 && Field(insn, 13, 3) != 3 && Field(insn, 12, 4) != 8
  {
    ThumbFields(insn);
    hide Field, ThumbStackAccess;
  }

  lemma ThumbMemoryRefines(insn: Word, i: nat, insns: nat, pc: Word, mode: Mode, t: seq<Uop>, m: M, env: Env)
    requires Ready(m, env) && Suits(mode, env, |m.s.ram|) && insn < 0x1_0000 && ThumbIsMemory(insn)
    requires DecodeThumb(insn, i, insns, pc, mode).Some?
    requires Ours(t, DecodeThumb(insn, i, insns, pc, mode).value, i, insns, pc, true)
    ensures var addr := Wrap(pc + i * 2);
            Follows(mode, Run(t, 0, m, env), Arch.ThumbMemory(insn, addr, m.s, env.mmu, env.priv), m.s, Wrap(addr + 2))
  {
    hide Run, Ours, Arch.ThumbTransfer, Agrees, Sound, Folded, ThumbAccessImm, Arch.Load, ThumbRegisterAccess, ThumbImmediateAccess,
         ThumbStackAccess, Arch.Offset, Arch.AlignDown, WordAligned;
    ThumbFields(insn);
    hide Field;
    WrapWrap(pc + i * 2, 4);
    var pcv := Wrap(pc + i * 2 + 4);
    if mode == Flat {
      FlatMemory(insn, i, insns, pc);
    }
    if Field(insn, 11, 5) == 9 {
      LiteralRefines(insn, i, insns, pcv, t, pc, m, env);
    } else if Field(insn, 12, 4) == 5 {
      RegisterAccessRefines(insn, i, insns, pcv, mode, t, pc, m, env);
    } else if Field(insn, 13, 3) == 3 {
      ImmediateAccessForm(insn, i, insns, pcv, mode, Num(Bit(insn, 12)), if Bit(insn, 12) then 1 else 4, Bit(insn, 11), t, pc, m, env);
    } else if Field(insn, 12, 4) == 8 {
      ImmediateAccessForm(insn, i, insns, pcv, mode, 2, 2, Bit(insn, 11), t, pc, m, env);
    } else {
      StackAccessRefines(insn, i, insns, pcv, mode, t, pc, m, env);
    }
  }

  // ------------------------------------------------------------ Branches

  lemma ThumbDisplacements(insn: Word)
    ensures Signed(Field(insn, 0, 8) * 0x100_0000) / 0x80_0000 == 2 * Arch.SignedField(Field(insn, 0, 8), 8)
    ensures Signed(Field(insn, 0, 11) * 0x20_0000) / 0x10_0000 == 2 * Arch.SignedField(Field(insn, 0, 11), 11)
  {
    Pow2Small();
    hide Field;
    assert Pow2(10) == 4 * Pow2(8);
  }

  predicate ThumbIsBranch(insn: Word) {
    (Field(insn, 12, 4) == 13 && Field(insn, 8, 4) < 14) || Field(insn, 11, 5) == 0x1c || Field(insn, 8, 8) == 0x47
  }

  lemma EvenAddress(pc: Word, i: nat)
    requires pc % 2 == 0
    ensures Wrap(pc + i * 2) % 2 == 0 && Wrap(Wrap(pc + i * 2) + 2) % 2 == 0
  {
    var k: int, q: int := pc / 2 + i, (pc + i * 2) / 0x1_0000_0000;
    assert pc + i * 2 == 2 * k;
    assert Wrap(pc + i * 2) == 2 * (k - 0x8000_0000 * q);
  }

  lemma DirectDecoded(insn: Word, i: nat, insns: nat, pc: Word, mode: Mode)
    requires insn < 0x1_0000 && DecodeThumb(insn, i, insns, pc, mode).Some?
    ensures Field(insn, 12, 4) == 13 && Field(insn, 8, 4) < 14 ==>
              DecodeThumb(insn, i, insns, pc, mode).value
              == [Uop(Op(BranchCond, 0, 0, 0, Field(insn, 8, 4)),
                      Wrap(Wrap(pc + i * 2 + 4) + Signed(Field(insn, 0, 8) * 0x100_0000) / 0x80_0000), Wrap(pc + i * 2 + 2), 0)]
    ensures !(Field(insn, 12, 4) == 13 && Field(insn, 8, 4) < 14) && Field(insn, 11, 5) == 0x1c ==>
              DecodeThumb(insn, i, insns, pc, mode).value
              == [Uop(Op(End, 0, 0, 0, 0), Wrap(pc + i * 2 + 4 + Signed(Field(insn, 0, 11) * 0x20_0000) / 0x10_0000), 0, 0)]
  {
    hide Field, Signed, Wrap,
         ThumbAlu, ThumbHigh, ThumbRegisterAccess, ThumbImmediateAccess, ThumbStackAccess, ThumbShift, ThumbDpReg, ThumbAccessImm,
         WordAligned;
  }

  lemma WrapTargets(x: int, d: int)
    ensures Wrap(Wrap(x) + 2) == Wrap(x + 2)
    ensures Wrap(x + 4 + d) == Wrap(Wrap(x) + 4 + d) == Wrap(Wrap(x + 4) + d)
  {
    WrapWrap(x, 2);
    WrapWrap(x, 4 + d);
    WrapWrap(x + 4, d);
  }

  lemma DirectUnguarded(t: seq<Uop>, s: seq<Uop>, i: nat, insns: nat, pc: Word)
    requires |s| == 1 && (s[0].op.f == BranchCond || s[0].op.f == End) && Ours(t, s, i, insns, pc, true)
    ensures t == s
  {
    hide Ours;
    OursAt(t, s, i, insns, pc, true, 0);
  }

  /** A conditional branch record holds the target and the next address. */
  lemma ConditionalDecoded(insn: Word, i: nat, insns: nat, pc: Word, mode: Mode, t: seq<Uop>)
    requires insn < 0x1_0000 && Field(insn, 12, 4) == 13 && Field(insn, 8, 4) < 14
    requires DecodeThumb(insn, i, insns, pc, mode).Some?
    requires Ours(t, DecodeThumb(insn, i, insns, pc, mode).value, i, insns, pc, true)
    ensures var addr := Wrap(pc + i * 2);
            t == [Uop(Op(BranchCond, 0, 0, 0, Field(insn, 8, 4)), Wrap(addr + 4 + 2 * Arch.SignedField(Field(insn, 0, 8), 8)), Wrap(addr + 2), 0)]
  {
    ThumbDisplacements(insn);
    hide Field, Signed, Arch.SignedField, Ours, DecodeThumb, Wrap;
    DirectDecoded(insn, i, insns, pc, mode);
    DirectUnguarded(t, DecodeThumb(insn, i, insns, pc, mode).value, i, insns, pc);
    WrapTargets(pc + i * 2, 2 * Arch.SignedField(Field(insn, 0, 8), 8));
  }

  lemma ThumbConditionalRefines(insn: Word, i: nat, insns: nat, pc: Word, mode: Mode, t: seq<Uop>, m: M, env: Env)
    requires Ready(m, env) && insn < 0x1_0000
    requires Field(insn, 12, 4) == 13 && Field(insn, 8, 4) < 14
    requires DecodeThumb(insn, i, insns, pc, mode).Some?
    requires Ours(t, DecodeThumb(insn, i, insns, pc, mode).value, i, insns, pc, true)
    ensures Agrees(Run(t, 0, m, env), Arch.ThumbStep(insn, Wrap(pc + i * 2), m.s, env.mmu, env.priv), m.s, Wrap(Wrap(pc + i * 2) + 2))
  {
    hide Field, Arch.SignedField, HostCondition, Arch.ConditionPassed, Run, Step, Ours, DecodeThumb, Wrap;
    ConditionalDecoded(insn, i, insns, pc, mode, t);
    ConditionAgrees(Field(insn, 8, 4), m.s.f);
    ImmediateStep(t[0], m, env);
    LastRun(t[0], m, env);
  }

  lemma JumpDecoded(insn: Word, i: nat, insns: nat, pc: Word, mode: Mode, t: seq<Uop>)
    requires insn < 0x1_0000 && Field(insn, 11, 5) == 0x1c && !(Field(insn, 12, 4) == 13 && Field(insn, 8, 4) < 14)
    requires DecodeThumb(insn, i, insns, pc, mode).Some?
    requires Ours(t, DecodeThumb(insn, i, insns, pc, mode).value, i, insns, pc, true)
    ensures t == [Uop(Op(End, 0, 0, 0, 0), Wrap(Wrap(pc + i * 2) + 4 + 2 * Arch.SignedField(Field(insn, 0, 11), 11)), 0, 0)]
  {
    ThumbDisplacements(insn);
    hide Field, Signed, Arch.SignedField, Ours, DecodeThumb, Wrap;
    DirectDecoded(insn, i, insns, pc, mode);
    DirectUnguarded(t, DecodeThumb(insn, i, insns, pc, mode).value, i, insns, pc);
    WrapTargets(pc + i * 2, 2 * Arch.SignedField(Field(insn, 0, 11), 11));
  }

  lemma ThumbJumpRefines(insn: Word, i: nat, insns: nat, pc: Word, mode: Mode, t: seq<Uop>, m: M, env: Env)
    requires Ready(m, env) && insn < 0x1_0000 && Field(insn, 11, 5) == 0x1c && !(Field(insn, 12, 4) == 13 && Field(insn, 8, 4) < 14)
    requires DecodeThumb(insn, i, insns, pc, mode).Some?
    requires Ours(t, DecodeThumb(insn, i, insns, pc, mode).value, i, insns, pc, true)
    ensures Agrees(Run(t, 0, m, env), Arch.ThumbStep(insn, Wrap(pc + i * 2), m.s, env.mmu, env.priv), m.s, Wrap(Wrap(pc + i * 2) + 2))
  {
    hide Field, Arch.SignedField, Run, Step, Ours, DecodeThumb, Wrap;
    JumpDecoded(insn, i, insns, pc, mode, t);
    ImmediateStep(t[0], m, env);
    LastRun(t[0], m, env);
  }

  lemma ThumbDirectBranchRefines(insn: Word, i: nat, insns: nat, pc: Word, mode: Mode, t: seq<Uop>, m: M, env: Env)
    requires Ready(m, env) && insn < 0x1_0000
    requires (Field(insn, 12, 4) == 13 && Field(insn, 8, 4) < 14) || Field(insn, 11, 5) == 0x1c
    requires DecodeThumb(insn, i, insns, pc, mode).Some?
    requires Ours(t, DecodeThumb(insn, i, insns, pc, mode).value, i, insns, pc, true)
    ensures Agrees(Run(t, 0, m, env), Arch.ThumbStep(insn, Wrap(pc + i * 2), m.s, env.mmu, env.priv), m.s, Wrap(Wrap(pc + i * 2) + 2))
  {
    hide Field, Run, Ours, DecodeThumb, Agrees, Arch.ThumbStep;
    if Field(insn, 12, 4) == 13 && Field(insn, 8, 4) < 14 {
      ThumbConditionalRefines(insn, i, insns, pc, mode, t, m, env);
    } else {
      ThumbJumpRefines(insn, i, insns, pc, mode, t, m, env);
    }
  }

  lemma ExchangeDecoded(insn: Word, i: nat, insns: nat, pc: Word, mode: Mode)
    requires insn < 0x1_0000 && Field(insn, 8, 8) == 0x47 && DecodeThumb(insn, i, insns, pc, mode).Some?
    ensures DecodeThumb(insn, i, insns, pc, mode).value == [Rec(Op(if Bit(insn, 7) then ThumbBlx else ThumbBx, 0, 0, 0, Field(insn, 3, 4)))]
    ensures Bit(insn, 7) ==> Field(insn, 3, 4) != 15
  {
    ThumbFields(insn);
    hide Field, Signed,
         ThumbAlu, ThumbHigh, ThumbRegisterAccess, ThumbImmediateAccess, ThumbStackAccess, ThumbShift, ThumbDpReg, ThumbAccessImm,
         WordAligned;
  }

  lemma ExchangeStep(insn: Word, addr: Word, s: State, mmu: Mmu, priv: bool)
    requires Wide(s) && Field(insn, 8, 8) == 0x47
    ensures Arch.ThumbStep(insn, addr, s, mmu, priv)
            == Arch.BranchExchange(Arch.Reg(s, Field(insn, 3, 4), Wrap(addr + 4)),
                                   if Bit(insn, 7) then Some(Wrap(Wrap(addr + 2) + 1)) else None, s)
  {
    ThumbFields(insn);
    hide Field, Arch.ThumbArithmetic, Arch.ThumbMemory, Arch.ThumbHighRegister, Arch.ThumbRegisterAlu, Arch.BranchExchange,
         Arch.SignedField, Arch.ConditionPassed;
  }

  lemma AgreesExit(run: Stop, o: Outcome, m: M, r: Arch.Result, next: Word)
    requires o == Miss(m) || (o.Exit? && r == Arch.Done(o.m.s, o.pc))
    requires run == if o.Exit? then Left(o.m, o.pc) else Missed(m, 0)
    ensures Agrees(run, r, m.s, next)
  {
  }

  lemma EvenNext(x: Word)
    requires x % 2 == 0
    ensures Wrap(x as int + 1) == x + 1
  {
  }

  /** The link value of a Thumb exchange: the next address with the Thumb bit. */
  lemma ThumbBack(pc: Word, i: nat, addr: Word)
    requires pc % 2 == 0 && addr == Wrap(pc + i * 2)
    ensures Or(Wrap(addr as int + 2), 1) == Wrap(Wrap(addr as int + 2) as int + 1)
  {
    EvenAddress(pc, i);
    hide Wrap, Or;
    EvenNext(Wrap(addr as int + 2));
    ThumbBitAdds(Wrap(addr as int + 2));
  }

  /** An exchange record is the architectural exchange. */
  lemma ExchangeRun(u: Uop, rm: nat, link: bool, addr: Word, m: M, env: Env)
    requires Ready(m, env) && Legal(u.op) && rm < 16 && u.op == Op(if link then ThumbBlx else ThumbBx, 0, 0, 0, rm) && u.pcv == addr
    ensures var back := Or(Wrap(addr as int + 2), 1);
            Agrees(Run([u], 0, m, env), Arch.BranchExchange(Arch.Reg(m.s, rm, Wrap(addr + 4)), if link then Some(back) else None, m.s), m.s,
                   Wrap(addr + 2))
  {
    hide Run, Step, HostIndirect, Arch.BranchExchange, Arch.Reg, Or, Agrees, Legal, Wrap;
    var back := Or(Wrap(addr as int + 2), 1);
    IndirectStep(u, m, env);
    IndirectRefines(m, u, rm, link, true, back);
    LastRun(u, m, env);
    AgreesExit(Run([u], 0, m, env), Step(u, m, env), m,
               Arch.BranchExchange(Arch.Reg(m.s, rm, Wrap(addr as int + 4)), if link then Some(back) else None, m.s), Wrap(addr as int + 2));
  }

  lemma ThumbExchangeRefines(insn: Word, i: nat, insns: nat, pc: Word, mode: Mode, t: seq<Uop>, m: M, env: Env)
    requires Ready(m, env) && insn < 0x1_0000 && Field(insn, 8, 8) == 0x47 && pc % 2 == 0
    requires DecodeThumb(insn, i, insns, pc, mode).Some?
    requires Ours(t, DecodeThumb(insn, i, insns, pc, mode).value, i, insns, pc, true)
    ensures Agrees(Run(t, 0, m, env), Arch.ThumbStep(insn, Wrap(pc + i * 2), m.s, env.mmu, env.priv), m.s, Wrap(Wrap(pc + i * 2) + 2))
  {
    hide Run, Step, HostIndirect, Arch.BranchExchange, Arch.Reg, Ours, Or, DecodeThumb, Agrees, Arch.ThumbStep, Legal, Wrap, Field;
    var addr := Wrap(pc + i * 2);
    ExchangeDecoded(insn, i, insns, pc, mode);
    ThumbExchangeLegal(Field(insn, 3, 4), Bit(insn, 7));
    ExchangeStep(insn, addr, m.s, env.mmu, env.priv);
    OursAt(t, DecodeThumb(insn, i, insns, pc, mode).value, i, insns, pc, true, 0);
    assert t == [t[0]];
    ThumbBack(pc, i, addr);
    ExchangeRun(t[0], Field(insn, 3, 4), Bit(insn, 7), addr, m, env);
  }

  lemma ThumbExchangeLegal(rm: nat, link: bool)
    requires rm < 16 && (link ==> rm != 15)
    ensures Legal(Op(if link then ThumbBlx else ThumbBx, 0, 0, 0, rm))
  {
  }

  // ------------------------------------------------------------ All classes

  lemma AluOurs(t: seq<Uop>, s: seq<Uop>, i: nat, insns: nat, pc: Word, thumb: bool)
    requires Ours(t, s, i, insns, pc, thumb) && forall k :: 0 <= k < |s| ==> !IsRuntimeGuarded(s[k].op.f)
    ensures t == s
  {
    hide IsRuntimeGuarded;
  }

  lemma ThumbAluUnguarded(insn: Word, pcv: Word)
    ensures var s := ThumbAlu(insn, pcv); forall k :: 0 <= k < |s| ==> !IsRuntimeGuarded(s[k].op.f)
    ensures ThumbHigh(insn, pcv).Some? ==> forall k :: 0 <= k < |ThumbHigh(insn, pcv).value| ==> !IsRuntimeGuarded(ThumbHigh(insn, pcv).value[k].op.f)
  {
    hide Field;
  }

  predicate ThumbIsPlain(insn: Word) {
    ThumbIsArithmetic(insn) || Field(insn, 12, 4) == 10 || Field(insn, 8, 8) == 0xb0
  }

  lemma ThumbPlainUnguarded(insn: Word, i: nat, insns: nat, pc: Word, mode: Mode)
    requires insn < 0x1_0000 && ThumbIsPlain(insn) && DecodeThumb(insn, i, insns, pc, mode).Some?
    ensures var s := DecodeThumb(insn, i, insns, pc, mode).value; forall k :: 0 <= k < |s| ==> !IsRuntimeGuarded(s[k].op.f)
  {
    ThumbFields(insn);
    hide Field, Signed;
  }

  lemma ThumbPlainRefines(insn: Word, i: nat, insns: nat, pc: Word, mode: Mode, t: seq<Uop>, m: M, env: Env)
    requires Ready(m, env) && insn < 0x1_0000 && ThumbIsPlain(insn)
    requires DecodeThumb(insn, i, insns, pc, mode).Some?
    requires Ours(t, DecodeThumb(insn, i, insns, pc, mode).value, i, insns, pc, true)
    ensures Agrees(Run(t, 0, m, env), Arch.ThumbStep(insn, Wrap(pc + i * 2), m.s, env.mmu, env.priv), m.s, Wrap(Wrap(pc + i * 2) + 2))
  {
    hide Run, Ours, DecodeThumb, Arch.ThumbArithmetic, Arch.ThumbMemory, Arch.ThumbHighRegister, Arch.ThumbRegisterAlu, Arch.BranchExchange,
         Arch.SignedField, Arch.ConditionPassed, IsRuntimeGuarded;
    ThumbFields(insn);
    hide Field;
    ThumbPlainUnguarded(insn, i, insns, pc, mode);
    AluOurs(t, DecodeThumb(insn, i, insns, pc, mode).value, i, insns, pc, true);
    if ThumbIsArithmetic(insn) {
      ThumbArithmeticRefines(insn, i, insns, pc, mode, m, env);
    } else {
      ThumbAddressRefines(insn, i, insns, pc, mode, m, env);
    }
  }

  lemma ThumbRegisterRefines(insn: Word, i: nat, insns: nat, pc: Word, mode: Mode, t: seq<Uop>, m: M, env: Env)
    requires Ready(m, env) && insn < 0x1_0000 && (Field(insn, 10, 6) == 0x10 || Field(insn, 10, 6) == 0x11) && Field(insn, 8, 8) != 0x47
    requires DecodeThumb(insn, i, insns, pc, mode).Some?
    requires Ours(t, DecodeThumb(insn, i, insns, pc, mode).value, i, insns, pc, true)
    ensures Agrees(Run(t, 0, m, env), Arch.ThumbStep(insn, Wrap(pc + i * 2), m.s, env.mmu, env.priv), m.s, Wrap(Wrap(pc + i * 2) + 2))
  {
    hide Run, Ours, ThumbAlu, ThumbHigh, Arch.ThumbArithmetic, Arch.ThumbMemory, Arch.ThumbHighRegister, Arch.ThumbRegisterAlu,
         Arch.BranchExchange, Arch.SignedField, Arch.ConditionPassed, IsRuntimeGuarded, Signed;
    ThumbFields(insn);
    hide Field;
    var addr := Wrap(pc + i * 2);
    var pcv := Wrap(pc + i * 2 + 4);
    WrapWrap(pc + i * 2, 4);
    ThumbAluUnguarded(insn, pcv);
    AluOurs(t, DecodeThumb(insn, i, insns, pc, mode).value, i, insns, pc, true);
    if Field(insn, 10, 6) == 0x10 {
      ThumbAluRefines(insn, pcv, m, env);
    } else {
      ThumbHighRefines(insn, addr, m, env);
    }
  }

  lemma ThumbClasses(insn: Word, i: nat, insns: nat, pc: Word, mode: Mode)
    requires insn < 0x1_0000 && DecodeThumb(insn, i, insns, pc, mode).Some? && !ThumbIsBranch(insn)
    ensures ThumbIsPlain(insn) || Field(insn, 10, 6) == 0x10 || Field(insn, 10, 6) == 0x11 || ThumbIsMemory(insn)
  {
    hide Field, Signed, ThumbAlu, ThumbHigh, ThumbRegisterAccess, ThumbImmediateAccess, ThumbStackAccess;
  }

  lemma ThumbMemoryStep(insn: Word, addr: Word, s: State, mmu: Mmu, priv: bool)
    requires Wide(s) && ThumbIsMemory(insn)
    ensures Arch.ThumbStep(insn, addr, s, mmu, priv) == Arch.ThumbMemory(insn, addr, s, mmu, priv)
  {
    hide Arch.ThumbArithmetic, Arch.ThumbMemory, Arch.ThumbHighRegister, Arch.ThumbRegisterAlu,
         Arch.BranchExchange, Arch.SignedField, Arch.ConditionPassed;
    ThumbFields(insn);
    hide Field;
  }

  /** A whole Thumb instruction. */
  lemma ThumbRefines(insn: Word, i: nat, insns: nat, pc: Word, mode: Mode, t: seq<Uop>, m: M, env: Env)
    requires Ready(m, env) && Suits(mode, env, |m.s.ram|) && insn < 0x1_0000 && pc % 2 == 0
    requires DecodeThumb(insn, i, insns, pc, mode).Some?
    requires Ours(t, DecodeThumb(insn, i, insns, pc, mode).value, i, insns, pc, true)
    ensures Follows(mode, Run(t, 0, m, env), Arch.ThumbStep(insn, Wrap(pc + i * 2), m.s, env.mmu, env.priv), m.s, Wrap(Wrap(pc + i * 2) + 2))
  {
    hide Run, Ours, DecodeThumb, Arch.ThumbStep, Arch.ThumbMemory, Agrees, Field, ThumbIsPlain, ThumbIsMemory, Suits;
    if Field(insn, 8, 8) == 0x47 {
      ThumbExchangeRefines(insn, i, insns, pc, mode, t, m, env);
    } else if ThumbIsBranch(insn) {
      ThumbDirectBranchRefines(insn, i, insns, pc, mode, t, m, env);
    } else {
      ThumbClasses(insn, i, insns, pc, mode);
      if ThumbIsPlain(insn) {
        ThumbPlainRefines(insn, i, insns, pc, mode, t, m, env);
      } else if Field(insn, 10, 6) == 0x10 || Field(insn, 10, 6) == 0x11 {
        ThumbRegisterRefines(insn, i, insns, pc, mode, t, m, env);
      } else {
        ThumbMemoryRefines(insn, i, insns, pc, mode, t, m, env);
        ThumbMemoryStep(insn, Wrap(pc + i * 2), m.s, env.mmu, env.priv);
      }
    }
  }
}
