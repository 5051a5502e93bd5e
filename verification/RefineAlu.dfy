/** Data-processing records mean what the architecture says of the instruction they were decoded from. */
module RefineAlu {
  import opened Words
  import opened Handlers
  import opened Decode
  import opened Machine
  import opened Exec
  import opened Shifter
  import opened Fields
  import Arch

  // ------------------------------------------------------------ Conditions, adder, ALU

  lemma ConditionAgrees(c: nat, f: Flags)
    requires c <= 14
    ensures HostCondition(c, f) == Arch.ConditionPassed(c, f)
  {
  }

  /** The host adder gives the architecture's sum, carry and overflow. */
  lemma AddAgrees(a: Word, b: Word, c: bool)
    ensures AddWithCarry(a, b, c) == Arch.Plus(a, b, Num(c))
  {
  }

  /** Adding the complement is subtraction, with carry as not-borrow. */
  lemma SubAgrees(a: Word, b: Word, c: bool)
    ensures AddWithCarry(a, Not(b), c) == Arch.Minus(a, b, Num(!c))
  {
  }

  lemma AluAgrees(opcode: nat, a: Word, b: Word, carry: bool, f: Flags)
    requires opcode < 16
    ensures HostAlu(opcode, a, b, f.c).0 == Arch.Alu(opcode, a, b, carry, f).0
    ensures Logical(opcode) ==> LogicFlags(HostAlu(opcode, a, b, f.c).0, carry, f.v) == Arch.Alu(opcode, a, b, carry, f).1
    ensures !Logical(opcode) ==> HostAlu(opcode, a, b, f.c).1 == Arch.Alu(opcode, a, b, carry, f).1
  {
    hide AddWithCarry, Arch.Plus, Arch.Minus, And, Or, Xor, Not;
    AddAgrees(a, b, false);
    AddAgrees(a, b, f.c);
    SubAgrees(a, b, true);
    SubAgrees(a, b, f.c);
    SubAgrees(b, a, true);
    SubAgrees(b, a, f.c);
  }

  /** A data-processing handler does what the opcode and S bit say, whenever its operands are the architecture's. */
  lemma DpAgrees(s: State, u: Uop, opcode: nat, sets: bool, rd: nat, rn: nat, operand: Word, hostCarry: bool, carry: bool)
    requires Wide(s) && opcode < 16 && rd < 15 && rn < 16 && (WritesResult(opcode) || sets)
    requires Logical(opcode) && sets ==> hostCarry == carry
    ensures HostDp(s, u, opcode, sets, rd, rn, operand, hostCarry)
         == Arch.DataProcessing(s, opcode, sets, rd, Arch.Reg(s, rn, u.pcv), operand, carry)
  {
    hide HostAlu, Arch.Alu;
    AluAgrees(opcode, Guest(s, u, rn), operand, carry, s.f);
  }

  // ------------------------------------------------------------ Runs of one and two records

  lemma RunOne(u: Uop, m: M, env: Env)
    requires Ready(m, env) && Step(u, m, env).Next?
    ensures Run([u], 0, m, env) == Fell(Step(u, m, env).m)
  {
    hide Step;
  }

  lemma RunTwo(a: Uop, b: Uop, m: M, env: Env)
    requires Ready(m, env) && Step(a, m, env).Next? && Step(b, Step(a, m, env).m, env).Next?
    ensures Run([a, b], 0, m, env) == Fell(Step(b, Step(a, m, env).m, env).m)
  {
    hide Step;
    var m1 := Step(a, m, env).m;
    assert Run([a, b], 1, m1, env) == Run([a, b], 2, Step(b, m1, env).m, env);
  }

  // ------------------------------------------------------------ A32 data processing

  /** The pair of records for a register operand: shifter, then ALU. */
  lemma PairRefines(shifter: Uop, alu: Uop, operand: Word, carry: bool, m: M, env: Env)
    requires Ready(m, env) && alu.op.f == DpReg && Legal(alu.op)
    requires WritesResult(alu.op.a) || alu.op.b == 1
    requires Step(shifter, m, env).Next?
    requires var m1 := Step(shifter, m, env).m;
             m1.s == m.s && m1.k.x17 == operand && (Logical(alu.op.a) && alu.op.b == 1 ==> m1.k.w6 == carry)
    ensures Run([shifter, alu], 0, m, env).Fell?
    ensures Run([shifter, alu], 0, m, env).m.s
         == Arch.DataProcessing(m.s, alu.op.a, alu.op.b == 1, alu.op.c, Arch.Reg(m.s, alu.op.d, alu.pcv), operand, carry)
  {
    hide HostDp, Arch.DataProcessing, Step, Legal;
    var m1 := Step(shifter, m, env).m;
    DpRecord(alu, m1, env);
    DpAgrees(m.s, alu, alu.op.a, alu.op.b == 1, alu.op.c, alu.op.d, operand, m1.k.w6, carry);
    RunTwo(shifter, alu, m, env);
  }

  lemma DpRecord(u: Uop, m: M, env: Env)
    requires Ready(m, env) && u.op.f == DpReg && Legal(u.op)
    ensures u.op.a < 16 && u.op.c < 15 && u.op.d < 16
    ensures Step(u, m, env) == Next(m.(s := HostDp(m.s, u, u.op.a, u.op.b == 1, u.op.c, u.op.d, Wrap(m.k.x17), m.k.w6)))
  {
    hide Step, HostDp;
    AluDispatch(u, m, env);
  }

  lemma ShiftImmStep(u: Uop, m: M, env: Env)
    requires Ready(m, env) && u.op.f == ShiftImm && Legal(u.op)
    ensures Step(u, m, env).Next?
    ensures var x := Arch.ShiftByImmediate(u.op.b, Arch.Reg(m.s, u.op.c, u.pcv), u.op.d, m.s.f.c);
            var m1 := Step(u, m, env).m;
            m1.s == m.s && m1.k.x17 == x.0 && (u.op.a == 1 ==> m1.k.w6 == x.1)
  {
    hide HostShiftImm, Arch.ShiftByImmediate, HostDp, Step;
    AluDispatch(u, m, env);
    ShiftImmIsShifted(u.op.b, Guest(m.s, u, u.op.c), u.op.d, m.s.f.c);
  }

  lemma ShiftRegStep(u: Uop, m: M, env: Env)
    requires Ready(m, env) && u.op.f == ShiftReg && Legal(u.op)
    ensures Step(u, m, env).Next?
    ensures var x := Arch.Shifted(u.op.b, m.s.r[u.op.c], m.s.r[u.op.d] % 256, m.s.f.c);
            var m1 := Step(u, m, env).m;
            m1.s == m.s && m1.k.x17 == x.0 && (u.op.a == 1 ==> m1.k.w6 == x.1)
  {
    hide HostShiftReg, Arch.Shifted, HostDp, Step;
    AluDispatch(u, m, env);
    ShiftRegIsShifted(u.op.b, m.s.r[u.op.c], m.s.r[u.op.d] % 256, m.s.f.c);
  }

  /** Eight zero bits above Rm mean a shift by zero. */
  lemma CompactOperand(insn: Word, s: State, pcv: Word)
    requires Wide(s) && !Bit(insn, 25) && Field(insn, 4, 8) == 0 && Field(insn, 0, 4) <= 7
    ensures Arch.ShifterOperand(insn, s, pcv) == (s.r[Field(insn, 0, 4)], s.f.c)
  {
    hide Field;
    ZeroField(insn, 4, 8, 0, 1);
    ZeroField(insn, 4, 8, 1, 2);
    ZeroField(insn, 4, 8, 3, 5);
  }

  lemma CompactStep(row: nat, opcode: nat, rd: nat, rn: nat, rm: nat, m: M, env: Env)
    requires Ready(m, env) && CompactRow(opcode) == Some(row) && rd < 8 && rn < 8 && rm < 8
    ensures Run([Rec(Op(AluRRR, row, rd, rn, rm))], 0, m, env).Fell?
    ensures Run([Rec(Op(AluRRR, row, rd, rn, rm))], 0, m, env).m.s
         == Arch.DataProcessing(m.s, opcode, false, rd, m.s.r[rn], m.s.r[rm], m.s.f.c)
  {
    hide And, Or, Xor, Not, Step;
    AluDispatch(Rec(Op(AluRRR, row, rd, rn, rm)), m, env);
    RunOne(Rec(Op(AluRRR, row, rd, rn, rm)), m, env);
  }

  /** The compact record: a shift by zero folded into a three-register operation. */
  lemma CompactRefines(insn: Word, addr: Word, opcode: nat, m: M, env: Env)
    requires Ready(m, env) && opcode == Field(insn, 21, 4) && CompactRow(opcode).Some?
    requires !Bit(insn, 20) && !Bit(insn, 25) && Field(insn, 4, 8) == 0
    requires Field(insn, 12, 4) <= 7 && Field(insn, 16, 4) <= 7 && Field(insn, 0, 4) <= 7
    ensures var u := Rec(Op(AluRRR, CompactRow(opcode).value, Field(insn, 12, 4), Field(insn, 16, 4), Field(insn, 0, 4)));
            Run([u], 0, m, env).Fell?
            && Arch.ArmDataProcessing(insn, addr, m.s) == Arch.Done(Run([u], 0, m, env).m.s, Wrap(addr + 4))
  {
    hide Field, Run, Step, Arch.DataProcessing;
    CompactOperand(insn, m.s, Wrap(addr + 8));
    CompactStep(CompactRow(opcode).value, opcode, Field(insn, 12, 4), Field(insn, 16, 4), Field(insn, 0, 4), m, env);
  }

  /** Every data-processing word the decoder accepts, run as its records, is the architectural instruction. */
  lemma ArmDpRefines(insn: Word, i: nat, pc: Word, m: M, env: Env)
    requires Ready(m, env) && DecodeArmDp(insn, i, pc).Some?
    ensures var run := Run(DecodeArmDp(insn, i, pc).value, 0, m, env);
            var addr := Wrap(pc + i * 4);
            run.Fell? && Arch.ArmDataProcessing(insn, addr, m.s) == Arch.Done(run.m.s, Wrap(addr + 4))
  {
    hide Field, Run, Step, Arch.DataProcessing, Arch.Shifted, Arch.ShiftByImmediate, Rotated, Wrap;
    var addr := Wrap(pc + i * 4);
    WrapWrap(pc + i * 4, 8);
    var s := DecodeArmDp(insn, i, pc).value;
    var opcode, sets := Field(insn, 21, 4), Bit(insn, 20);
    if Bit(insn, 25) {
      ImmediateRefines(insn, addr, s[0], m, env);
    } else if |s| == 1 {
      CompactRefines(insn, addr, opcode, m, env);
    } else {
      var (operand, carry) := Arch.ShifterOperand(insn, m.s, s[1].pcv);
      if Bit(insn, 4) {
        ShiftRegStep(s[0], m, env);
      } else {
        ShiftImmStep(s[0], m, env);
      }
      PairRefines(s[0], s[1], operand, carry, m, env);
      TestsWriteNothing(m.s, opcode, Field(insn, 12, 4), Arch.Reg(m.s, Field(insn, 16, 4), s[1].pcv), operand, carry);
    }
  }

  /** The destination field of a test or compare is ignored. */
  lemma TestsWriteNothing(s: State, opcode: nat, rd: nat, rn: Word, operand: Word, carry: bool)
    requires Wide(s)
    ensures !WritesResult(opcode) ==> Arch.DataProcessing(s, opcode, true, rd, rn, operand, carry)
                                      == Arch.DataProcessing(s, opcode, true, 0, rn, operand, carry)
  {
    hide Arch.Alu;
  }

  lemma ImmediateRefines(insn: Word, addr: Word, u: Uop, m: M, env: Env)
    requires Ready(m, env) && Bit(insn, 25) && u.pcv == Wrap(addr + 8)
    requires var opcode, sets, rotate := Field(insn, 21, 4), Bit(insn, 20), 2 * Field(insn, 8, 4);
             && (WritesResult(opcode) || sets)
             && (WritesResult(opcode) ==> Field(insn, 12, 4) < 15)
             && u.op == Op(DpImm, opcode, Num(sets), if WritesResult(opcode) then Field(insn, 12, 4) else 0, Field(insn, 16, 4))
             && u.imm == Rotated(Field(insn, 0, 8), rotate)
             && u.meta == (if rotate == 0 then 0 else if u.imm >= 0x8000_0000 then 2 else 1)
    ensures var run := Run([u], 0, m, env);
            run.Fell? && Arch.ArmDataProcessing(insn, addr, m.s) == Arch.Done(run.m.s, Wrap(addr + 4))
  {
    hide Field, Rotated, Arch.Shifted, HostDp, Arch.DataProcessing, Step;
    var opcode, sets, rotate := Field(insn, 21, 4), Bit(insn, 20), 2 * Field(insn, 8, 4);
    RotatedImmediate(Field(insn, 0, 8), rotate, m.s.f.c);
    var carry := Arch.ShifterOperand(insn, m.s, u.pcv).1;
    DpAgrees(m.s, u, opcode, sets, u.op.c, u.op.d, u.imm, carry, carry);
    TestsWriteNothing(m.s, opcode, Field(insn, 12, 4), Arch.Reg(m.s, u.op.d, u.pcv), u.imm, carry);
    AluDispatch(u, m, env);
    RunOne(u, m, env);
  }

  // ------------------------------------------------------------ Thumb data processing

  ghost predicate FellTo(run: Stop, s: State) {
    run.Fell? && run.m.s == s
  }

  lemma ThumbPairRefines(shifter: Uop, opcode: nat, sets: bool, rd: nat, rn: nat, pcv: Word, operand: Word, carry: bool, m: M, env: Env)
    requires Ready(m, env) && opcode < 16 && rd < 15 && rn < 16 && (WritesResult(opcode) || sets)
    requires Step(shifter, m, env).Next?
    requires var m1 := Step(shifter, m, env).m;
             m1.s == m.s && m1.k.x17 == operand && (Logical(opcode) && sets ==> m1.k.w6 == carry)
    ensures FellTo(Run([shifter, Uop(Op(DpReg, opcode, Num(sets), rd, rn), 0, pcv, 0)], 0, m, env),
                   Arch.DataProcessing(m.s, opcode, sets, rd, Arch.Reg(m.s, rn, pcv), operand, carry))
  {
    hide Run, Step, Arch.DataProcessing;
    PairRefines(shifter, Uop(Op(DpReg, opcode, Num(sets), rd, rn), 0, pcv, 0), operand, carry, m, env);
  }

  /** A register operand goes through a shift by zero. */
  lemma ThumbDpRegRefines(opcode: nat, sets: bool, rd: nat, rn: nat, rm: nat, carry: bool, pcv: Word, m: M, env: Env)
    requires Ready(m, env) && opcode < 16 && rd < 15 && rn < 16 && rm < 16 && (WritesResult(opcode) || sets)
    requires Logical(opcode) && sets ==> carry
    ensures FellTo(Run(ThumbDpReg(opcode, sets, rd, rn, rm, carry, pcv), 0, m, env),
                   Arch.DataProcessing(m.s, opcode, sets, rd, Arch.Reg(m.s, rn, pcv), Arch.Reg(m.s, rm, pcv), m.s.f.c))
  {
    hide Run, Step, Arch.DataProcessing;
    var shifter := Uop(Op(ShiftImm, Num(carry), 0, rm, 0), 0, pcv, 0);
    ShiftImmStep(shifter, m, env);
    assert Arch.ShiftByImmediate(0, Arch.Reg(m.s, rm, pcv), 0, m.s.f.c) == (Arch.Reg(m.s, rm, pcv), m.s.f.c);
    ThumbPairRefines(shifter, opcode, sets, rd, rn, pcv, Arch.Reg(m.s, rm, pcv), m.s.f.c, m, env);
  }

  /** One immediate record. */
  lemma ThumbDpImmRefines(u: Uop, m: M, env: Env)
    requires Ready(m, env) && u.op.f == DpImm && Legal(u.op) && u.meta == 0 && (WritesResult(u.op.a) || u.op.b == 1)
    ensures FellTo(Run([u], 0, m, env),
                   Arch.DataProcessing(m.s, u.op.a, u.op.b == 1, u.op.c, Arch.Reg(m.s, u.op.d, u.pcv), u.imm, m.s.f.c))
  {
    hide HostDp, Arch.DataProcessing, Step;
    AluDispatch(u, m, env);
    DpAgrees(m.s, u, u.op.a, u.op.b == 1, u.op.c, u.op.d, u.imm, m.s.f.c, m.s.f.c);
    RunOne(u, m, env);
  }

  lemma AluImmRefines(row: nat, rd: nat, imm: Word, pcv: Word, m: M, env: Env)
    requires Ready(m, env) && (row == 3 || row == 4) && rd < 8
    ensures FellTo(Run([Uop(Op(AluImm, 0, row, rd, rd), imm, pcv, 0)], 0, m, env),
                   Arch.DataProcessing(m.s, if row == 4 then 2 else 4, true, rd, m.s.r[rd], imm, m.s.f.c))
  {
    hide AddWithCarry, Arch.Plus, Arch.Minus, Not, Step;
    AluDispatch(Uop(Op(AluImm, 0, row, rd, rd), imm, pcv, 0), m, env);
    AddAgrees(m.s.r[rd], imm, false);
    SubAgrees(m.s.r[rd], imm, true);
    RunOne(Uop(Op(AluImm, 0, row, rd, rd), imm, pcv, 0), m, env);
  }

  lemma EorsRefines(op: Op, m: M, env: Env)
    requires Ready(m, env) && op.f == EorsRR && Legal(op)
    ensures FellTo(Run([Rec(op)], 0, m, env), Arch.ThumbRegisterAlu(1, op.c, op.d, m.s))
  {
    hide Xor, Step;
    AluDispatch(Rec(op), m, env);
    RunOne(Rec(op), m, env);
  }

  lemma MulsRefines(op: Op, m: M, env: Env)
    requires Ready(m, env) && op.f == MulsRR && Legal(op)
    ensures FellTo(Run([Rec(op)], 0, m, env), Arch.ThumbRegisterAlu(13, op.c, op.d, m.s))
  {
    hide Wrap, Xor, Step;
    AluDispatch(Rec(op), m, env);
    Commutes(m.s.r[op.c], m.s.r[op.d]);
    RunOne(Rec(op), m, env);
  }

  lemma Commutes(a: int, b: int)
    ensures a * b == b * a
  {
  }

  lemma ThumbAluRefines(insn: Word, pcv: Word, m: M, env: Env)
    requires Ready(m, env)
    ensures FellTo(Run(ThumbAlu(insn, pcv), 0, m, env),
                   Arch.ThumbRegisterAlu(Field(insn, 6, 4), Field(insn, 0, 3), Field(insn, 3, 3), m.s))
  {
    hide Field, Run, Step, Arch.DataProcessing, Arch.Shifted;
    var rm, rd, opcode := Field(insn, 3, 3), Field(insn, 0, 3), Field(insn, 6, 4);
    if opcode == 1 {
      EorsRefines(Op(EorsRR, 0, 0, rd, rm), m, env);
    } else if opcode == 13 {
      MulsRefines(Op(MulsRR, 0, 0, rd, rm), m, env);
    } else if opcode == 2 || opcode == 3 || opcode == 4 || opcode == 7 {
      ThumbShiftRegRefines(if opcode == 7 then 3 else opcode - 2, rd, rm, pcv, m, env);
    } else if opcode == 9 {
      ThumbDpImmRefines(Uop(Op(DpImm, 3, 1, rd, rm), 0, pcv, 0), m, env);
    } else {
      var carry := opcode == 0 || opcode == 8 || opcode == 12 || opcode == 14 || opcode == 15;
      ThumbDpRegRefines(opcode, true, if WritesResult(opcode) then rd else 0, if opcode == 15 then 0 else rd, rm, carry, pcv, m, env);
      TestsWriteNothing(m.s, opcode, rd, m.s.r[rd], m.s.r[rm], m.s.f.c);
      MvnIgnoresRn(m.s, rd, m.s.r[0], m.s.r[rd], m.s.r[rm], m.s.f.c);
    }
  }

  /** MOV and MVN have no first operand. */
  lemma MvnIgnoresRn(s: State, rd: nat, a: Word, b: Word, operand: Word, carry: bool)
    requires Wide(s)
    ensures Arch.DataProcessing(s, 15, true, rd, a, operand, carry) == Arch.DataProcessing(s, 15, true, rd, b, operand, carry)
    ensures Arch.DataProcessing(s, 13, true, rd, a, operand, carry) == Arch.DataProcessing(s, 13, true, rd, b, operand, carry)
  {
  }

  lemma ThumbShiftRegRefines(kind: nat, rd: nat, rm: nat, pcv: Word, m: M, env: Env)
    requires Ready(m, env) && kind < 4 && rd < 8 && rm < 8
    ensures var x := Arch.Shifted(kind, m.s.r[rd], m.s.r[rm] % 256, m.s.f.c);
            FellTo(Run(ThumbShift(Op(ShiftReg, 1, kind, rd, rm), rd, pcv), 0, m, env),
                   Arch.DataProcessing(m.s, 13, true, rd, 0, x.0, x.1))
  {
    hide Run, Step, Arch.DataProcessing, Arch.Shifted;
    var shifter := Uop(Op(ShiftReg, 1, kind, rd, rm), 0, pcv, 0);
    ShiftRegStep(shifter, m, env);
    var x := Arch.Shifted(kind, m.s.r[rd], m.s.r[rm] % 256, m.s.f.c);
    ThumbPairRefines(shifter, 13, true, rd, 0, pcv, x.0, x.1, m, env);
    MvnIgnoresRn(m.s, rd, m.s.r[0], 0, x.0, x.1);
  }

  lemma ThumbShiftImmRefines(kind: nat, rd: nat, rm: nat, amount: nat, pcv: Word, m: M, env: Env)
    requires Ready(m, env) && kind < 4 && rd < 8 && rm < 8 && amount < 32
    ensures var x := Arch.ShiftByImmediate(kind, m.s.r[rm], amount, m.s.f.c);
            FellTo(Run(ThumbShift(Op(ShiftImm, 1, kind, rm, amount), rd, pcv), 0, m, env),
                   Arch.DataProcessing(m.s, 13, true, rd, 0, x.0, x.1))
  {
    hide Run, Step, Arch.DataProcessing, Arch.ShiftByImmediate;
    var shifter := Uop(Op(ShiftImm, 1, kind, rm, amount), 0, pcv, 0);
    ShiftImmStep(shifter, m, env);
    var x := Arch.ShiftByImmediate(kind, m.s.r[rm], amount, m.s.f.c);
    ThumbPairRefines(shifter, 13, true, rd, 0, pcv, x.0, x.1, m, env);
    MvnIgnoresRn(m.s, rd, m.s.r[0], 0, x.0, x.1);
  }

  lemma AddSubNoFlags(s: State, rd: nat, a: Word, b: Word)
    requires Wide(s) && rd < 15
    ensures Arch.DataProcessing(s, 4, false, rd, a, b, s.f.c) == Arch.SetReg(s, rd, Wrap(a + b))
    ensures Arch.DataProcessing(s, 2, false, rd, a, b, s.f.c) == Arch.SetReg(s, rd, Wrap(a as int - b))
    ensures Arch.DataProcessing(s, 13, false, rd, a, b, s.f.c) == Arch.SetReg(s, rd, b)
  {
  }

  lemma ThumbHighRefines(insn: Word, addr: Word, m: M, env: Env)
    requires Ready(m, env) && ThumbHigh(insn, Wrap(addr + 4)).Some?
    ensures Arch.ThumbHighRegister(insn, addr, m.s).Done?
    ensures FellTo(Run(ThumbHigh(insn, Wrap(addr + 4)).value, 0, m, env), Arch.ThumbHighRegister(insn, addr, m.s).s)
    ensures Arch.ThumbHighRegister(insn, addr, m.s).pc == Wrap(addr + 2)
  {
    hide Field, Run, Step, Arch.DataProcessing;
    var pcv := Wrap(addr + 4);
    var operation := Field(insn, 8, 2);
    var rd := Field(insn, 0, 3) + 8 * Field(insn, 7, 1);
    var rm := Field(insn, 3, 3) + 8 * Field(insn, 6, 1);
    var opcode := if operation == 0 then 4 else if operation == 1 then 10 else 13;
    var hrd, rn := if operation == 1 then 0 else rd, if operation == 2 then 0 else rd;
    ThumbDpRegRefines(opcode, operation == 1, hrd, rn, rm, false, pcv, m, env);
    AddSubNoFlags(m.s, hrd, Arch.Reg(m.s, rn, pcv), Arch.Reg(m.s, rm, pcv));
  }

  predicate ThumbIsArithmetic(insn: Word) {
    Field(insn, 11, 5) <= 3 || Field(insn, 13, 3) == 1
  }

  /** Shift by immediate, add and subtract, and the immediate operations. */
  lemma ThumbArithmeticRefines(insn: Word, i: nat, insns: nat, pc: Word, mode: Mode, m: M, env: Env)
    requires Ready(m, env) && insn < 0x1_0000 && ThumbIsArithmetic(insn) && Field(insn, 12, 4) != 13 && Field(insn, 11, 5) != 0x1c
    requires Field(insn, 8, 8) != 0x47
    ensures var s, addr := DecodeThumb(insn, i, insns, pc, mode), Wrap(pc + i * 2);
            && s.Some?
            && Arch.ThumbArithmetic(insn, addr, m.s).Done?
            && FellTo(Run(s.value, 0, m, env), Arch.ThumbArithmetic(insn, addr, m.s).s)
            && Arch.ThumbArithmetic(insn, addr, m.s).pc == Wrap(addr + 2)
  {
    var addr := Wrap(pc + i * 2);
    WrapWrap(pc + i * 2, 4);
    var pcv := Wrap(pc + i * 2 + 4);
    ShiftKind(insn);
    hide Field, Run, Step, Arch.DataProcessing, Pow2, Wrap, ThumbAlu, ThumbHigh, ThumbRegisterAccess, ThumbImmediateAccess, ThumbStackAccess;
    var rd, rn := Field(insn, 0, 3), Field(insn, 3, 3);
    if Field(insn, 11, 5) < 3 {
      ThumbShiftImmRefines(Field(insn, 11, 2), rd, rn, Field(insn, 6, 5), pcv, m, env);
    } else if Field(insn, 11, 5) == 3 {
      var opcode := if Bit(insn, 9) then 2 else 4;
      if Bit(insn, 10) {
        ThumbDpImmRefines(Uop(Op(DpImm, opcode, 1, rd, rn), Field(insn, 6, 3), pcv, 0), m, env);
      } else {
        ThumbDpRegRefines(opcode, true, rd, rn, Field(insn, 6, 3), false, pcv, m, env);
      }
    } else {
      ThumbImmediateRefines(Field(insn, 8, 3), Field(insn, 11, 2), Field(insn, 0, 8), pcv, m, env);
    }
  }

  lemma ShiftKind(insn: Word)
    ensures Field(insn, 11, 5) < 3 ==> Field(insn, 11, 2) == Field(insn, 11, 5)
  {
    hide Field, Pow2;
    SubField(insn, 11, 5, 0, 2);
    Pow2Small();
  }

  lemma ThumbImmediateRefines(rd: nat, operation: nat, imm: Word, pcv: Word, m: M, env: Env)
    requires Ready(m, env) && rd < 8 && operation < 4
    ensures var op := if operation == 3 then Op(AluImm, 0, 4, rd, rd)
                else if operation == 2 then Op(AluImm, 0, 3, rd, rd)
                else if operation == 1 then Op(DpImm, 10, 1, 0, rd)
                else Op(DpImm, 13, 1, rd, 0);
            var opcode := match operation case 0 => 13 case 1 => 10 case 2 => 4 case _ => 2;
            FellTo(Run([Uop(op, imm, pcv, 0)], 0, m, env), Arch.DataProcessing(m.s, opcode, true, rd, m.s.r[rd], imm, m.s.f.c))
  {
    hide Run, Arch.DataProcessing;
    if operation >= 2 {
      AluImmRefines(if operation == 3 then 4 else 3, rd, imm, pcv, m, env);
    } else if operation == 1 {
      ThumbDpImmRefines(Uop(Op(DpImm, 10, 1, 0, rd), imm, pcv, 0), m, env);
      TestsWriteNothing(m.s, 10, rd, m.s.r[rd], imm, m.s.f.c);
    } else {
      ThumbDpImmRefines(Uop(Op(DpImm, 13, 1, rd, 0), imm, pcv, 0), m, env);
      MvnIgnoresRn(m.s, rd, m.s.r[0], m.s.r[rd], imm, m.s.f.c);
    }
  }

  /** The one record of address generation and SP adjustment. */
  function AddressRecord(insn: Word, pcv: Word): Uop {
    if Field(insn, 12, 4) == 10 then
      Uop(Op(DpImm, 4, 0, Field(insn, 8, 3), if Bit(insn, 11) then 13 else 15), Field(insn, 0, 8) * 4,
          if Bit(insn, 11) then pcv else WordAligned(pcv), 0)
    else Uop(Op(DpImm, if Bit(insn, 7) then 2 else 4, 0, 13, 13), Field(insn, 0, 7) * 4, pcv, 0)
  }

  lemma ThumbAddressDecoded(insn: Word, i: nat, insns: nat, pc: Word, mode: Mode)
    requires insn < 0x1_0000 && (Field(insn, 12, 4) == 10 || Field(insn, 8, 8) == 0xb0)
    requires DecodeThumb(insn, i, insns, pc, mode).Some?
    ensures DecodeThumb(insn, i, insns, pc, mode) == Some([AddressRecord(insn, Wrap(pc + i * 2 + 4))])
  {
    ThumbFields(insn);
    hide Field, Signed, Wrap, ThumbAlu, ThumbHigh, ThumbRegisterAccess, ThumbImmediateAccess, ThumbStackAccess;
  }

  lemma AddressRecordRefines(insn: Word, pcv: Word, m: M, env: Env)
    requires Ready(m, env)
    ensures var u := AddressRecord(insn, pcv);
            var base, x := Arch.Reg(m.s, u.op.d, u.pcv), u.imm;
            FellTo(Run([u], 0, m, env), Arch.SetReg(m.s, u.op.c, if u.op.a == 2 then Wrap(base - x) else Wrap(base + x)))
  {
    hide Field, Run, Step, Arch.DataProcessing, Arch.Reg, Wrap;
    var u := AddressRecord(insn, pcv);
    ThumbDpImmRefines(u, m, env);
    AddSubNoFlags(m.s, u.op.c, Arch.Reg(m.s, u.op.d, u.pcv), u.imm);
  }

  lemma ArchAddress(insn: Word, addr: Word, s: State)
    requires Wide(s) && insn < 0x1_0000 && (Field(insn, 12, 4) == 10 || Field(insn, 8, 8) == 0xb0)
    ensures var u := AddressRecord(insn, Wrap(addr + 4));
            var base, x := Arch.Reg(s, u.op.d, u.pcv), u.imm;
            Arch.ThumbArithmetic(insn, addr, s)
            == Arch.Done(Arch.SetReg(s, u.op.c, if u.op.a == 2 then Wrap(base - x) else Wrap(base + x)), Wrap(addr + 2))
  {
    ThumbFields(insn);
    hide Field, Wrap;
  }

  /** Address generation from PC or SP, and SP adjustment. */
  lemma ThumbAddressRefines(insn: Word, i: nat, insns: nat, pc: Word, mode: Mode, m: M, env: Env)
    requires Ready(m, env) && insn < 0x1_0000 && (Field(insn, 12, 4) == 10 || Field(insn, 8, 8) == 0xb0)
    requires DecodeThumb(insn, i, insns, pc, mode).Some?
    ensures var s, addr := DecodeThumb(insn, i, insns, pc, mode), Wrap(pc + i * 2);
            && Arch.ThumbArithmetic(insn, addr, m.s).Done?
            && FellTo(Run(s.value, 0, m, env), Arch.ThumbArithmetic(insn, addr, m.s).s)
            && Arch.ThumbArithmetic(insn, addr, m.s).pc == Wrap(addr + 2)
  {
    hide Run, Step, DecodeThumb, Arch.ThumbArithmetic, Arch.Reg, Field, Wrap, AddressRecord, FellTo;
    WrapWrap(pc + i * 2, 4);
    ThumbAddressDecoded(insn, i, insns, pc, mode);
    AddressRecordRefines(insn, Wrap(pc + i * 2 + 4), m, env);
    ArchAddress(insn, Wrap(pc + i * 2), m.s);
  }
}
