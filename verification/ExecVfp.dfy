/** Meaning of the generated VFP register handlers: a gate that refuses before any change, then one host sequence. */
module ExecVfp {
  import opened Words
  import opened Encodings
  import opened VfpHost
  import opened Handlers
  import opened Decode
  import opened Machine

  // ------------------------------------------------------------ Gates

  /** Access granted and FPEXC.EN set; read again by every record, since VMSR may change it inside a block. */
  predicate Enabled(v: Vfp) { v.access && On(v.fpexc, 30) }

  /** Scalar length. */
  predicate ExactGate(v: Vfp) { Enabled(v) && And(v.fpscr, 0x7_0000) == 0 }

  /** Scalar length and no exception traps. */
  predicate ValuesGate(v: Vfp) { Enabled(v) && And(v.fpscr, 0x7_9f00) == 0 }

  /** RunFast: FZ and DN set, nearest rounding, scalar, no traps; of the cumulative flags exactly IXC. */
  predicate ArithGate(v: Vfp) {
    Enabled(v) && And(v.fpscr, 0x3c7_9f00) == 0x300_0000 && And(v.fpscr, 0x9f) == 0x10
  }

  // ------------------------------------------------------------ Register file

  /** Does an operand of the format start at S register `i`? */
  predicate Holds(f: Format, i: nat) { if f == Single then i < 32 else i < 31 }

  /** A single register, or a pair as one double. */
  function Operand(f: Format, v: Vfp, i: nat): nat
    requires |v.s| == 32 && Holds(f, i)
  {
    if f == Single then v.s[i] else v.s[i] as int + 0x1_0000_0000 * v.s[i + 1] as int
  }

  function Put(f: Format, v: Vfp, i: nat, x: nat): (w: Vfp)
    requires |v.s| == 32 && Holds(f, i)
    ensures |w.s| == 32 && w == v.(s := w.s)
  {
    if f == Single then v.(s := v.s[i := x % 0x1_0000_0000])
    else v.(s := v.s[i := x % 0x1_0000_0000][i + 1 := x / 0x1_0000_0000 % 0x1_0000_0000])
  }

  function FormatOf(width: nat): Format { if width == 1 then Double else Single }

  // ------------------------------------------------------------ Arithmetic

  /** UBFX of the exponent; a zero exponent must be a signed zero, the top one is refused. */
  predicate Simple(f: Format, x: nat) {
    if Expo(f, x) == 0 then 2 * x % Pow2(Bits(f)) == 0 else Expo(f, x) != ExpCodes(f) - 1
  }

  /** FPSR after one operation: nothing or IXC alone, and not an inexact least normal. */
  predicate Invisible(f: Format, x: nat, e: Raised) {
    var w := And(FlagBits(e), 0x9f);
    && (w == 0x10 || w == 0)
    && !(Logic(AND, x, SignUnit(f) - 1, Bits(f)) == ExpUnit(f) && On(w, 4))
  }

  /** FNEG. */
  function Flip(f: Format, x: nat): nat { Logic(XOR, x, SignUnit(f), Bits(f)) }

  /** One operation under nearest rounding, classified. */
  function HostOperation(unit: Unit, op: FpOp, f: Format, negate: bool, a: nat, b: nat): Option<nat> {
    var (x, e) := Compute(unit, op, f, 0, a, b);
    var r := if negate then Flip(f, x) else x;
    if Simple(f, r) && Invisible(f, r, e) then Some(r) else None
  }

  /** The nine operations: VMLA, VMLS, VNMLS, VNMLA, VMUL, VNMUL, VADD, VSUB, VDIV. The first four round twice. */
  function HostArith(unit: Unit, k: nat, f: Format, d: nat, n: nat, m: nat): Option<nat> {
    if !Simple(f, n) || !Simple(f, m) then None
    else if k < 4 then
      if !Simple(f, d) then None
      else
        match HostOperation(unit, FpMul, f, false, n, m)
        case None => None
        case Some(p) =>
          HostOperation(unit, FpAdd, f, false, if k == 2 || k == 3 then Flip(f, d) else d, if k == 1 || k == 3 then Flip(f, p) else p)
    else if k == 4 || k == 5 then HostOperation(unit, FpMul, f, k == 5, n, m)
    else HostOperation(unit, if k == 6 then FpAdd else if k == 7 then FpSub else FpDiv, f, false, n, m)
  }

  // ------------------------------------------------------------ Records

  /** Register indices a record's immediate packs. */
  function Rd(imm: Word): nat { imm % 256 }

  function Rn(imm: Word): nat { imm / 256 % 256 }

  function Rm(imm: Word): nat { imm / 0x1_0000 % 256 }

  /** Do the indices name registers of the file? The decoder's always do; what lies behind the file is not modelled. */
  predicate InFile(u: Uop) {
    match u.op.f
    case VfpCoreToS | VfpSToCore => u.imm < 32
    case VfpCoreToPair | VfpPairToCore => u.imm < 31
    case VfpUnary => Holds(FormatOf(u.op.c), Rd(u.imm)) && Holds(FormatOf(u.op.c), Rn(u.imm))
    case VfpCompare =>
      Holds(FormatOf(u.op.d), Rd(u.imm)) && (u.imm / 0x1_0000 % 2 == 1 || Holds(FormatOf(u.op.d), Rn(u.imm)))
    case VfpWiden => Holds(Double, Rd(u.imm)) && Rn(u.imm) < 32
    case VfpArith =>
      Holds(FormatOf(u.op.c), Rd(u.imm)) && Holds(FormatOf(u.op.c), Rn(u.imm)) && Holds(FormatOf(u.op.c), Rm(u.imm))
    case VfpRead | VfpWrite => Holds(FormatOf(u.op.d), u.imm)
    case _ => true
  }

  /** The three system registers a core register can be exchanged with. */
  function SystemRegister(v: Vfp, which: nat): Word {
    if which == 0 then 0x4101_20b4 else if which == 1 then v.fpscr else v.fpexc
  }

  function UnaryResult(f: Format, which: nat, x: nat): nat {
    if which == 0 then x else if which == 1 then Logic(AND, x, SignUnit(f) - 1, Bits(f)) else Flip(f, x)
  }

  predicate IsVfpMove(f: Family) { f == VfpCoreToS || f == VfpSToCore || f == VfpCoreToPair || f == VfpPairToCore }

  predicate IsVfpSystem(f: Family) { f == Vmrs || f == VmrsApsr || f == Vmsr }

  predicate IsVfpData(f: Family) { f == VfpUnary || f == VfpCompare || f == VfpWiden || f == VfpArith }

  /** Moves between core and VFP registers. */
  function MoveRecord(u: Uop, s: State): (t: Option<State>)
    requires Wide(s) && u.op.c < 15 && u.op.d < 15 && InFile(u) && IsVfpMove(u.op.f)
    ensures t.Some? ==> Wide(t.value)
  {
    var op, v := u.op, s.vfp;
    if !Enabled(v) then None
    else
      match op.f
      case VfpCoreToS => Some(s.(vfp := v.(s := v.s[u.imm := s.r[op.d]])))
      case VfpSToCore => Some(s.(r := s.r[op.d := v.s[u.imm]]))
      case VfpCoreToPair => Some(s.(vfp := v.(s := v.s[u.imm := s.r[op.c]][u.imm + 1 := s.r[op.d]])))
      case VfpPairToCore => Some(s.(r := s.r[op.c := v.s[u.imm]][op.d := v.s[u.imm + 1]]))
  }

  /** Moves from and to the system registers. */
  function SystemRecord(u: Uop, s: State, priv: bool): (t: Option<State>)
    requires Wide(s) && u.op.c < 3 && u.op.d < 15 && IsVfpSystem(u.op.f)
    ensures t.Some? ==> Wide(t.value)
  {
    var op, v := u.op, s.vfp;
    match op.f
    case Vmrs =>
      var open := if op.c == 0 then v.access && (On(v.fpexc, 30) || priv) else if op.c == 1 then Enabled(v) else v.access && priv;
      if open then Some(s.(r := s.r[op.d := SystemRegister(v, op.c)])) else None
    case VmrsApsr =>
      if Enabled(v) then Some(s.(f := Flags(On(v.fpscr, 31), On(v.fpscr, 30), On(v.fpscr, 29), On(v.fpscr, 28)))) else None
    case Vmsr =>
      if op.c == 0 then (if Enabled(v) then Some(s.(vfp := v.(fpscr := And(s.r[op.d], 0xf3f7_9f9f)))) else None)
      else if v.access && priv then Some(s.(vfp := v.(fpexc := s.r[op.d]))) else None
  }

  /** VMOV, VABS and VNEG on the bits. */
  function UnaryRecord(u: Uop, v: Vfp): (w: Option<Vfp>)
    requires |v.s| == 32 && Holds(FormatOf(u.op.c), Rd(u.imm)) && Holds(FormatOf(u.op.c), Rn(u.imm))
    ensures w.Some? ==> |w.value.s| == 32
  {
    var f := FormatOf(u.op.c);
    if ExactGate(v) then Some(Put(f, v, Rd(u.imm), UnaryResult(f, u.op.d, Operand(f, v, Rn(u.imm))))) else None
  }

  /** VCMP and VCMPE write FPSCR only. */
  function CompareRecord(u: Uop, v: Vfp): (w: Option<Vfp>)
    requires |v.s| == 32 && Holds(FormatOf(u.op.d), Rd(u.imm)) && (u.imm / 0x1_0000 % 2 == 1 || Holds(FormatOf(u.op.d), Rn(u.imm)))
    ensures w.Some? ==> |w.value.s| == 32
  {
    var f := FormatOf(u.op.d);
    if ValuesGate(v) then
      var b := if u.imm / 0x1_0000 % 2 == 1 then 0 else Operand(f, v, Rn(u.imm));
      Some(v.(fpscr := HostCompare(f, Operand(f, v, Rd(u.imm)), b, u.imm / 0x2_0000 % 2 == 1, v.fpscr)))
    else None
  }

  /** VCVT.F64.F32 writes a register pair and FPSCR. */
  function WidenRecord(u: Uop, v: Vfp): (w: Option<Vfp>)
    requires |v.s| == 32 && Holds(Double, Rd(u.imm)) && Rn(u.imm) < 32
    ensures w.Some? ==> |w.value.s| == 32
  {
    if ValuesGate(v) then
      var (r, w) := HostWiden(v.s[Rn(u.imm)], v.fpscr);
      Some(Put(Double, v, Rd(u.imm), r).(fpscr := w))
    else None
  }

  /** Arithmetic writes its destination; FPSCR already holds the one flag it may raise. */
  function ArithRecord(u: Uop, v: Vfp): (w: Option<Vfp>)
    requires |v.s| == 32 && Holds(FormatOf(u.op.c), Rd(u.imm)) && Holds(FormatOf(u.op.c), Rn(u.imm)) && Holds(FormatOf(u.op.c), Rm(u.imm))
    ensures w.Some? ==> |w.value.s| == 32
  {
    var f := FormatOf(u.op.c);
    if ArithGate(v) then
      match HostArith(v.unit, u.op.d, f, Operand(f, v, Rd(u.imm)), Operand(f, v, Rn(u.imm)), Operand(f, v, Rm(u.imm)))
      case None => None
      case Some(r) => Some(Put(f, v, Rd(u.imm), r))
    else None
  }

  function DataRecord(u: Uop, v: Vfp): (w: Option<Vfp>)
    requires |v.s| == 32 && InFile(u) && IsVfpData(u.op.f)
    ensures w.Some? ==> |w.value.s| == 32
  {
    match u.op.f
    case VfpUnary => UnaryRecord(u, v)
    case VfpCompare => CompareRecord(u, v)
    case VfpWiden => WidenRecord(u, v)
    case VfpArith => ArithRecord(u, v)
  }
}
