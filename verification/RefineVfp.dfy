/** VFP register instructions: each decoded word's record refuses, or does what the literal interpreter does. */
module RefineVfp {
  import opened Words
  import opened Encodings
  import opened VfpHost
  import opened Handlers
  import opened Decode
  import opened Machine
  import opened ExecVfp
  import opened Exec
  import opened Shifter
  import opened Fields
  import opened VfpFormat
  import Compare = VfpCompare
  import Widen = VfpWiden
  import RefineArith
  import ArchVfp

  // ------------------------------------------------------------ Records and outcomes

  /** A record refuses without a trace, or leaves the given state. */
  ghost predicate Commits(o: Outcome, m: M, t: Option<State>) {
    o == Miss(m) || (o.Next? && o.m == m.(s := o.m.s) && t == Some(o.m.s))
  }

  /** The patched record of an instruction that decodes to one. */
  ghost predicate OneRecord(s: Option<seq<Uop>>, u: Uop) {
    s.Some? && |s.value| == 1 && u.op == s.value[0].op && u.imm == s.value[0].imm && Legal(u.op)
  }

  lemma MoveStep(u: Uop, m: M, env: Env)
    requires Ready(m, env) && Legal(u.op) && IsVfpMove(u.op.f) && InFile(u)
    ensures u.op.c < 15 && u.op.d < 15 && Step(u, m, env) == Committed(m, MoveRecord(u, m.s))
  {
    hide MoveRecord, InFile;
  }

  lemma SystemStep(u: Uop, m: M, env: Env)
    requires Ready(m, env) && Legal(u.op) && IsVfpSystem(u.op.f)
    ensures u.op.c < 3 && u.op.d < 15 && Step(u, m, env) == Committed(m, SystemRecord(u, m.s, env.priv))
  {
    hide SystemRecord;
  }

  lemma DataStep(u: Uop, m: M, env: Env)
    requires Ready(m, env) && Legal(u.op) && IsVfpData(u.op.f) && InFile(u)
    ensures Step(u, m, env) == match DataRecord(u, m.s.vfp) case None => Miss(m) case Some(v) => Next(m.(s := m.s.(vfp := v)))
  {
    hide DataRecord, InFile;
  }

  /** An enabled unit executes by class. */
  lemma Dispatch(insn: Word, addr: Word, s: State, mmu: Mmu, priv: bool)
    requires Wide(s) && Field(insn, 9, 3) == 5 && Enabled(s.vfp)
    ensures Field(insn, 24, 4) == 14 && Bit(insn, 4) ==> ArchVfp.Execute(insn, addr, s, mmu, priv) == ArchVfp.CoreInsn(insn, s, priv)
    ensures Field(insn, 24, 4) == 14 && !Bit(insn, 4) ==>
              ArchVfp.Execute(insn, addr, s, mmu, priv)
              == match ArchVfp.DataInsn(insn, s.vfp) case None => None case Some(v) => Some(s.(vfp := v))
    ensures Field(insn, 24, 4) != 14 && Field(insn, 21, 7) == 0x62 ==>
              ArchVfp.Execute(insn, addr, s, mmu, priv) == ArchVfp.PairInsn(insn, s)
    ensures Field(insn, 24, 4) != 14 && Field(insn, 21, 7) != 0x62 && Field(insn, 25, 3) == 6 ==>
              ArchVfp.Execute(insn, addr, s, mmu, priv) == ArchVfp.LoadStoreInsn(insn, addr, s, mmu, priv)
  {
    hide Field, On, ArchVfp.CoreInsn, ArchVfp.DataInsn, ArchVfp.PairInsn, ArchVfp.LoadStoreInsn;
  }

  // ------------------------------------------------------------ Core register moves

  lemma CoreMoveShape(insn: Word)
    requires DecodeVfpCoreMove(insn).Some?
    ensures var s := DecodeVfpCoreMove(insn).value; |s| == 1 && (IsVfpMove(s[0].op.f) || IsVfpSystem(s[0].op.f)) && InFile(s[0])
  {
    hide Field;
  }

  /** Between a core register and an S register or half a D register. */
  lemma WordMoveAgrees(insn: Word, u: Uop, s: State, priv: bool)
    requires Wide(s) && OneRecord(DecodeVfpCoreMove(insn), u) && IsVfpMove(u.op.f) && u.op.c < 15 && u.op.d < 15 && Enabled(s.vfp)
    ensures InFile(u) && MoveRecord(u, s) == ArchVfp.CoreInsn(insn, s, priv)
  {
    hide Field, On, ArchVfp.SystemInsn;
  }

  lemma SystemWord(insn: Word)
    requires Field(insn, 9, 3) == 5 && !Bit(insn, 8)
    ensures Field(insn, 8, 4) == 10
  {
    hide Field, Pow2;
    var x: nat := insn / Pow2(8);
    FieldOf(insn, 8, 4);
    FieldOf(insn, 8, 1);
    FieldAbove(insn, 8, 1, 3);
    HalfRemainder(x, 8);
    Pow2Small();
  }

  /** The handler's availability test is the interpreter's, with the unit off or on. */
  lemma SystemAgrees(insn: Word, u: Uop, addr: Word, s: State, mmu: Mmu, priv: bool)
    requires Wide(s) && OneRecord(DecodeVfpCoreMove(insn), u) && IsVfpSystem(u.op.f) && u.op.c < 3 && u.op.d < 15
    requires Field(insn, 24, 4) == 14 && Field(insn, 9, 3) == 5 && Bit(insn, 4)
    ensures SystemRecord(u, s, priv).Some? ==> ArchVfp.Execute(insn, addr, s, mmu, priv) == SystemRecord(u, s, priv)
  {
    hide Field, On, And;
    if !Bit(insn, 8) {
      SystemWord(insn);
    }
  }

  lemma CoreMoveRefines(insn: Word, u: Uop, addr: Word, m: M, env: Env)
    requires Ready(m, env) && OneRecord(DecodeVfpCoreMove(insn), u)
    requires Field(insn, 24, 4) == 14 && Field(insn, 9, 3) == 5 && Bit(insn, 4)
    ensures Commits(Step(u, m, env), m, ArchVfp.Execute(insn, addr, m.s, env.mmu, env.priv))
  {
    hide Field, Step, DecodeVfpCoreMove, MoveRecord, SystemRecord, ArchVfp.Execute, ArchVfp.CoreInsn, InFile, Enabled, Legal;
    CoreMoveShape(insn);
    if IsVfpMove(u.op.f) {
      SameIndices(DecodeVfpCoreMove(insn).value[0], u);
      MoveStep(u, m, env);
      if Enabled(m.s.vfp) {
        WordMoveAgrees(insn, u, m.s, env.priv);
        Dispatch(insn, addr, m.s, env.mmu, env.priv);
      } else {
        MoveGated(u, m.s);
      }
    } else {
      SystemStep(u, m, env);
      SystemAgrees(insn, u, addr, m.s, env.mmu, env.priv);
    }
  }

  lemma MoveGated(u: Uop, s: State)
    requires Wide(s) && u.op.c < 15 && u.op.d < 15 && InFile(u) && IsVfpMove(u.op.f) && !Enabled(s.vfp)
    ensures MoveRecord(u, s) == None
  {
  }

  lemma SameIndices(s: Uop, u: Uop)
    requires s.op == u.op && s.imm == u.imm && InFile(s)
    ensures InFile(u)
  {
  }

  // ------------------------------------------------------------ Pairs

  lemma PairMoveAgrees(insn: Word, u: Uop, s: State)
    requires Wide(s) && OneRecord(DecodeVfpPairMove(insn), u) && Enabled(s.vfp)
    ensures IsVfpMove(u.op.f) && InFile(u) && u.op.c < 15 && u.op.d < 15
    ensures MoveRecord(u, s) == ArchVfp.PairInsn(insn, s)
  {
    hide Field, On;
  }

  lemma PairMoveShape(insn: Word)
    requires DecodeVfpPairMove(insn).Some?
    ensures var s := DecodeVfpPairMove(insn).value; |s| == 1 && IsVfpMove(s[0].op.f) && InFile(s[0])
  {
    hide Field;
  }

  lemma PairMoveRefines(insn: Word, u: Uop, addr: Word, m: M, env: Env)
    requires Ready(m, env) && OneRecord(DecodeVfpPairMove(insn), u)
    requires Field(insn, 24, 4) != 14 && Field(insn, 21, 7) == 0x62 && Field(insn, 9, 3) == 5
    ensures Commits(Step(u, m, env), m, ArchVfp.Execute(insn, addr, m.s, env.mmu, env.priv))
  {
    hide Field, Step, DecodeVfpPairMove, MoveRecord, ArchVfp.Execute, ArchVfp.PairInsn, InFile, Enabled, Legal;
    PairMoveShape(insn);
    SameIndices(DecodeVfpPairMove(insn).value[0], u);
    MoveStep(u, m, env);
    if Enabled(m.s.vfp) {
      PairMoveAgrees(insn, u, m.s);
      Dispatch(insn, addr, m.s, env.mmu, env.priv);
    } else {
      MoveGated(u, m.s);
    }
  }

  // ------------------------------------------------------------ Data processing

  function FormatBit(insn: Word): Format { if Bit(insn, 8) then Double else Single }

  /** Sd, or the first half of Dd; and the same for the other operands. */
  function DIndex(insn: Word): nat { 2 * Field(insn, 12, 4) + if Bit(insn, 8) then 0 else Field(insn, 22, 1) }

  function NIndex(insn: Word): nat { 2 * Field(insn, 16, 4) + if Bit(insn, 8) then 0 else Field(insn, 7, 1) }

  function MIndex(insn: Word): nat { 2 * Field(insn, 0, 4) + if Bit(insn, 8) then 0 else Field(insn, 5, 1) }

  /** The packed immediate of a data record reads back as its indices. */
  lemma Unpacked(rd: nat, rn: nat, rm: nat)
    requires rd < 256 && rn < 256 && rm < 256
    ensures var imm := rd + rn * 256 + rm * 0x1_0000; imm < 0x1_0000_0000 && Rd(imm) == rd && Rn(imm) == rn && Rm(imm) == rm
  {
    var imm: int := rd + rn * 256 + rm * 0x1_0000;
    assert imm == 256 * (rn + 256 * rm) + rd;
    assert imm / 256 == rn + 256 * rm;
    assert imm / 0x1_0000 == rm;
  }

  lemma UnpackedCompare(rd: nat, rm: nat, zero: bool, always: bool)
    requires rd < 256 && rm < 256
    ensures var imm := rd + rm * 256 + Num(zero) * 0x1_0000 + Num(always) * 0x2_0000;
            && imm < 0x1_0000_0000 && Rd(imm) == rd && Rn(imm) == rm
            && (imm / 0x1_0000 % 2 == 1 <==> zero) && (imm / 0x2_0000 % 2 == 1 <==> always)
  {
  }

  lemma RegisterIs(f: Format, v: Vfp, high: nat, low: nat)
    requires |v.s| == 32 && high < 16 && low < 2
    ensures var i := 2 * high + if f == Double then 0 else low;
            && Holds(f, i)
            && Operand(f, v, i) == ArchVfp.Get(f, v, ArchVfp.Register(f, high, low))
            && Encoding(f, Operand(f, v, i))
  {
    Pow2Of32();
    Pow2Sum(32, 32);
    hide Pow2;
    assert Bits(Single) == 32 && Bits(Double) == 64;
  }

  lemma PutIs(f: Format, v: Vfp, high: nat, low: nat, x: nat)
    requires |v.s| == 32 && high < 16 && low < 2
    ensures var i := 2 * high + if f == Double then 0 else low;
            Holds(f, i) && Put(f, v, i, x) == ArchVfp.Set(f, v, ArchVfp.Register(f, high, low), x)
  {
  }

  /** What each class of data word decodes to. */
  lemma ArithShape(insn: Word)
    requires DecodeVfpData(insn).Some? && DecodeVfpData(insn).value[0].op.f == VfpArith
    ensures var group := 4 * Field(insn, 23, 1) + 2 * Field(insn, 21, 1) + Field(insn, 20, 1);
            var u := DecodeVfpData(insn).value[0];
            && |DecodeVfpData(insn).value| == 1
            && group != 7 && u.op.d < 9 && FormatOf(u.op.c) == FormatBit(insn)
            && ArchVfp.OperationOf(group, Bit(insn, 6)) == Some(RefineArith.OperationAt(u.op.d))
            && u.imm == DIndex(insn) + NIndex(insn) * 256 + MIndex(insn) * 0x1_0000
            && (Bit(insn, 8) ==> !Bit(insn, 22) && !Bit(insn, 7) && !Bit(insn, 5))
  {
    hide Field;
  }

  lemma OtherShape(insn: Word)
    requires DecodeVfpData(insn).Some? && DecodeVfpData(insn).value[0].op.f != VfpArith
    ensures var u, opc2, top := DecodeVfpData(insn).value[0], Field(insn, 16, 4), Bit(insn, 7);
            && |DecodeVfpData(insn).value| == 1
            && 4 * Field(insn, 23, 1) + 2 * Field(insn, 21, 1) + Field(insn, 20, 1) == 7 && Bit(insn, 6)
            && (u.op.f == VfpUnary || u.op.f == VfpCompare || u.op.f == VfpWiden)
            && (u.op.f == VfpUnary ==>
                  && (opc2 == 0 || (opc2 == 1 && !top)) && u.op.d == (if opc2 == 1 then 2 else if top then 1 else 0)
                  && u.imm == DIndex(insn) + MIndex(insn) * 256 && FormatOf(u.op.c) == FormatBit(insn))
            && (u.op.f == VfpCompare ==>
                  && (opc2 == 4 || opc2 == 5) && (opc2 == 5 ==> Field(insn, 0, 4) == 0 && !Bit(insn, 5))
                  && FormatOf(u.op.d) == FormatBit(insn)
                  && u.imm == DIndex(insn) + MIndex(insn) * 256 + Num(opc2 == 5) * 0x1_0000 + Num(top) * 0x2_0000)
            && (u.op.f == VfpWiden ==>
                  && opc2 == 7 && top && !Bit(insn, 8) && !Bit(insn, 22)
                  && u.imm == 2 * Field(insn, 12, 4) + MIndex(insn) * 256)
            && (u.op.f != VfpWiden && Bit(insn, 8) ==> !Bit(insn, 22) && !Bit(insn, 5))
  {
    hide Field, VfpOperation;
  }

  ghost predicate IsData(insn: Word, f: Family) {
    DecodeVfpData(insn).Some? && DecodeVfpData(insn).value[0].op.f == f
  }

  /** VMLA to VDIV: a committed record is the interpreter's two roundings, whatever the arithmetic unit computes. */
  lemma VfpArithRefines(insn: Word, u: Uop, v: Vfp)
    requires |v.s| == 32 && IsData(insn, VfpArith) && OneRecord(DecodeVfpData(insn), u)
    ensures InFile(u) && (ArithRecord(u, v).Some? ==> ArchVfp.DataInsn(insn, v) == ArithRecord(u, v))
  {
    hide Field, On, Or, And, ArithGate, HostArith, ArchVfp.Arithmetic, Encoding, Put, Operand, Holds, ArchVfp.Get, ArchVfp.Set, Rd, Rn, Rm,
         ArchVfp.ShortVectors, ArchVfp.Trapping, ArchVfp.OtherInsn, DecodeVfpData, ArchVfp.Register, Legal;
    var f := FormatBit(insn);
    ArithShape(insn);
    Unpacked(DIndex(insn), NIndex(insn), MIndex(insn));
    RegisterIs(f, v, Field(insn, 12, 4), Field(insn, 22, 1));
    RegisterIs(f, v, Field(insn, 16, 4), Field(insn, 7, 1));
    RegisterIs(f, v, Field(insn, 0, 4), Field(insn, 5, 1));
    if ArithRecord(u, v).Some? {
      RefineArith.ArithGateOpens(v);
      var d, n, m := Operand(f, v, DIndex(insn)), Operand(f, v, NIndex(insn)), Operand(f, v, MIndex(insn));
      RefineArith.ArithAgrees(v.unit, u.op.d, f, d, n, m, v.fpscr);
      PutIs(f, v, Field(insn, 12, 4), Field(insn, 22, 1), HostArith(v.unit, u.op.d, f, d, n, m).value);
    }
  }

  /** Clearing and flipping the sign bit are VABS and VNEG. */
  lemma UnaryAgrees(f: Format, x: nat)
    requires Encoding(f, x)
    ensures UnaryResult(f, 0, x) == x
    ensures UnaryResult(f, 1, x) == ArchVfp.Magnitude(f, x)
    ensures UnaryResult(f, 2, x) == ArchVfp.Negate(f, x)
  {
    hide Flip, Logic, Encoding, Pow2, ArchVfp.Negate, ArchVfp.Magnitude;
    RefineArith.MagnitudeMask(f, x);
    RefineArith.FlipNegates(f, x);
  }

  /** VMOV, VABS and VNEG between registers of one width. */
  lemma VfpUnaryRefines(insn: Word, u: Uop, v: Vfp)
    requires |v.s| == 32 && IsData(insn, VfpUnary) && OneRecord(DecodeVfpData(insn), u)
    ensures InFile(u) && (UnaryRecord(u, v).Some? ==> ArchVfp.DataInsn(insn, v) == UnaryRecord(u, v))
  {
    hide Field, On, Or, And, ExactGate, Encoding, Put, Operand, Holds, ArchVfp.Get, ArchVfp.Set, Rd, Rn, UnaryResult,
         ArchVfp.ShortVectors, ArchVfp.Trapping, ArchVfp.ArithmeticInsn, DecodeVfpData, ArchVfp.Register, ArchVfp.Negate, ArchVfp.Magnitude, Legal;
    var f := FormatBit(insn);
    OtherShape(insn);
    Unpacked(DIndex(insn), MIndex(insn), 0);
    RegisterIs(f, v, Field(insn, 12, 4), Field(insn, 22, 1));
    RegisterIs(f, v, Field(insn, 0, 4), Field(insn, 5, 1));
    if UnaryRecord(u, v).Some? {
      RefineArith.ExactGateOpens(v);
      var x := Operand(f, v, MIndex(insn));
      UnaryAgrees(f, x);
      PutIs(f, v, Field(insn, 12, 4), Field(insn, 22, 1), UnaryResult(f, u.op.d, x));
    }
  }

  lemma ZeroEncodes(f: Format)
    ensures Encoding(f, 0)
  {
  }

  /** VCMP and VCMPE, register and zero forms, single and double: the record commits exactly behind its gate, and leaves in FPSCR
      what comparing the two numbers does. */
  lemma VcmpRefines(insn: Word, u: Uop, v: Vfp)
    requires |v.s| == 32 && IsData(insn, VfpCompare) && OneRecord(DecodeVfpData(insn), u)
    ensures InFile(u) && (CompareRecord(u, v).Some? <==> ValuesGate(v))
    ensures CompareRecord(u, v).Some? ==> ArchVfp.DataInsn(insn, v) == CompareRecord(u, v)
  {
    hide Field, On, Or, And, ValuesGate, Encoding, Operand, Holds, ArchVfp.Get, Rd, Rn, HostCompare, ArchVfp.Compared,
         ArchVfp.ShortVectors, ArchVfp.Trapping, ArchVfp.ArithmeticInsn, DecodeVfpData, ArchVfp.Register, Legal;
    var f := FormatBit(insn);
    OtherShape(insn);
    UnpackedCompare(DIndex(insn), MIndex(insn), Field(insn, 16, 4) == 5, Bit(insn, 7));
    RegisterIs(f, v, Field(insn, 12, 4), Field(insn, 22, 1));
    RegisterIs(f, v, Field(insn, 0, 4), Field(insn, 5, 1));
    ZeroEncodes(f);
    if CompareRecord(u, v).Some? {
      RefineArith.ValuesGateOpens(v);
      var b := if Field(insn, 16, 4) == 5 then 0 else Operand(f, v, MIndex(insn));
      Compare.CompareAgrees(f, Operand(f, v, DIndex(insn)), b, Bit(insn, 7), v.fpscr);
    }
  }

  /** VCVT.F64.F32: the record commits exactly behind its gate, with the interpreter's number and status. */
  lemma VcvtRefines(insn: Word, u: Uop, v: Vfp)
    requires |v.s| == 32 && IsData(insn, VfpWiden) && OneRecord(DecodeVfpData(insn), u)
    ensures InFile(u) && (WidenRecord(u, v).Some? <==> ValuesGate(v))
    ensures WidenRecord(u, v).Some? ==> ArchVfp.DataInsn(insn, v) == WidenRecord(u, v)
  {
    hide Field, On, Or, And, ValuesGate, Encoding, Rd, Rn, HostWiden, ArchVfp.Widened, Put, ArchVfp.SetD,
         ArchVfp.ShortVectors, ArchVfp.Trapping, ArchVfp.ArithmeticInsn, DecodeVfpData, Legal;
    OtherShape(insn);
    Unpacked(2 * Field(insn, 12, 4), MIndex(insn), 0);
    if WidenRecord(u, v).Some? {
      RefineArith.ValuesGateOpens(v);
      Widen.WidenAgrees(v.s[MIndex(insn)], v.fpscr);
      SetDIs(v, Field(insn, 12, 4), HostWiden(v.s[MIndex(insn)], v.fpscr).0);
    }
  }

  lemma SetDIs(v: Vfp, n: nat, x: nat)
    requires |v.s| == 32 && n < 16
    ensures Holds(Double, 2 * n) && Put(Double, v, 2 * n, x) == ArchVfp.SetD(v, n, x)
  {
  }

  lemma DataIsVfp(insn: Word)
    requires DecodeVfpData(insn).Some?
    ensures |DecodeVfpData(insn).value| == 1 && IsVfpData(DecodeVfpData(insn).value[0].op.f)
  {
    hide Field, VfpOperation;
  }

  /** All data processing. */
  lemma DataAgrees(insn: Word, u: Uop, v: Vfp)
    requires |v.s| == 32 && OneRecord(DecodeVfpData(insn), u)
    ensures InFile(u) && IsVfpData(u.op.f)
    ensures DataRecord(u, v).Some? ==> Enabled(v) && ArchVfp.DataInsn(insn, v) == DataRecord(u, v)
  {
    hide DecodeVfpData, ArchVfp.DataInsn, On, And, Holds, Put, Operand, HostArith, HostCompare, HostWiden, UnaryResult, Legal, Rd, Rn, Rm;
    DataIsVfp(insn);
    if u.op.f == VfpUnary {
      VfpUnaryRefines(insn, u, v);
    } else if u.op.f == VfpCompare {
      VcmpRefines(insn, u, v);
    } else if u.op.f == VfpWiden {
      VcvtRefines(insn, u, v);
    } else {
      VfpArithRefines(insn, u, v);
    }
  }

  lemma DataRefines(insn: Word, u: Uop, addr: Word, m: M, env: Env)
    requires Ready(m, env) && OneRecord(DecodeVfpData(insn), u)
    requires Field(insn, 24, 4) == 14 && Field(insn, 9, 3) == 5 && !Bit(insn, 4)
    ensures Commits(Step(u, m, env), m, ArchVfp.Execute(insn, addr, m.s, env.mmu, env.priv))
  {
    hide Field, Step, DecodeVfpData, DataRecord, ArchVfp.Execute, ArchVfp.DataInsn, InFile, Enabled, Legal;
    DataAgrees(insn, u, m.s.vfp);
    DataStep(u, m, env);
    if Enabled(m.s.vfp) {
      Dispatch(insn, addr, m.s, env.mmu, env.priv);
    }
  }
}
