/** The handler table: the id arithmetic of the decoder against the nested loops of the table generator. */
module Handlers {
  // The first id of every block, as the decoder's enumeration lays them out.
  const END: nat := 0
  const ADD_RRR: nat := 1
  const SUB_RRR: nat := 513
  const EOR_RRR: nat := 1025
  const ORR_RRR: nat := 1537
  const ADD_IMM: nat := 2049
  const SUB_IMM: nat := 2113
  const EOR_IMM: nat := 2177
  const ADDS_IMM: nat := 2241
  const SUBS_IMM: nat := 2305
  const EORS_RR: nat := 2369
  const MULS_RR: nat := 2433
  const LDR: nat := 2497
  const STR: nat := 2561
  const LDR_SP: nat := 2625
  const STR_SP: nat := 2633
  const COND: nat := 2641
  const DP_IMM: nat := 2655
  const SHIFT_IMM: nat := 10335
  const SHIFT_REG: nat := 14431
  const DP_REG: nat := 16231
  const ADDR_IMM: nat := 23911
  const ADDR_REG: nat := 23943
  const POST_ADDR_IMM: nat := 23975
  const POST_ADDR_REG: nat := 24007
  const DIRECT_READ: nat := 24039
  const DIRECT_WRITE: nat := 24114
  const DIRECT_WRITE_WB: nat := 24162
  const DIRECT_WRITE_WB_UNPRIV: nat := 24882
  const STM_PREFLIGHT: nat := 25602
  const STM_COMMIT: nat := 25662
  const STM_FINISH: nat := 25678
  const STM_FINISH_WB: nat := 25679
  const LDM_PREFLIGHT: nat := 25694
  const LDM_COMMIT: nat := 25754
  const LDM_FINISH: nat := 25769
  const LDM_FINISH_WB: nat := 25770
  const VFP_CORE_TO_S: nat := 25785
  const VFP_S_TO_CORE: nat := 25800
  const VFP_CORE_TO_PAIR: nat := 25815
  const VFP_PAIR_TO_CORE: nat := 26040
  const VFP_VMRS_FPSID: nat := 26265
  const VFP_VMRS_FPSCR: nat := 26280
  const VFP_VMRS_FPEXC: nat := 26295
  const VFP_VMRS_APSR: nat := 26310
  const VFP_VMSR_FPSCR: nat := 26311
  const VFP_VMSR_FPEXC: nat := 26326
  const VFP_UNARY32: nat := 26341
  const VFP_UNARY64: nat := 26344
  const VFP_COMPARE32: nat := 26347
  const VFP_WIDEN32: nat := 26349
  const VFP_ARITH32: nat := 26350
  const VFP_ARITH64: nat := 26359
  const VFP_DIRECT_READ32: nat := 26368
  const VFP_DIRECT_READ64: nat := 26369
  const VFP_DIRECT_WRITE32: nat := 26370
  const VSTM_DIRECT_WRITE: nat := 26372
  const BRANCH_COND: nat := 26417
  const BRANCH_LINK: nat := 26431
  const ARM_BX: nat := 26446
  const ARM_BLX: nat := 26462
  const THUMB_BX: nat := 26477
  const THUMB_BLX: nat := 26493
  const HANDLER_COUNT: nat := 26508

  /** One family per loop nest of the table generator. */
  datatype Family =
    | End | AluRRR | AluImm | EorsRR | MulsRR | FlatWord | FlatSp | Cond | DpImm | ShiftImm | ShiftReg | DpReg
    | AddrImm | AddrReg | PostAddrImm | PostAddrReg | DirectRead | DirectWrite | DirectWriteWb
    | DirectWriteWbUnpriv | StmPreflight | StmCommit | StmFinish | StmFinishWb | LdmPreflight | LdmCommit
    | LdmFinish | LdmFinishWb | VfpCoreToS | VfpSToCore | VfpCoreToPair | VfpPairToCore | Vmrs | VmrsApsr | Vmsr
    | VfpUnary | VfpCompare | VfpWiden | VfpArith | VfpRead | VfpWrite | VstmWrite | BranchCond | BranchLink
    | ArmBx | ArmBlx | ThumbBx | ThumbBlx

  /** A handler with its operands; a family uses the trailing operands and leaves the leading ones zero. */
  datatype Op = Op(f: Family, a: nat, b: nat, c: nat, d: nat)

  /** Loop bounds of a family, outermost first. */
  datatype Dims = Dims(n0: nat, n1: nat, n2: nat, n3: nat)

  function Shape(f: Family): Dims {
    match f
    case End | StmFinish | LdmFinish | VmrsApsr | VfpWiden => Dims(1, 1, 1, 1)
    case AluRRR => Dims(4, 8, 8, 8)
    case AluImm => Dims(1, 5, 8, 8)
    case EorsRR | MulsRR => Dims(1, 1, 8, 8)
    case FlatWord => Dims(1, 2, 8, 8)
    case FlatSp => Dims(1, 1, 2, 8)
    case Cond | BranchCond => Dims(1, 1, 1, 14)
    case DpImm | DpReg => Dims(16, 2, 15, 16)
    case ShiftImm => Dims(2, 4, 16, 32)
    case ShiftReg => Dims(2, 4, 15, 15)
    case AddrImm | AddrReg | PostAddrImm | PostAddrReg => Dims(1, 1, 2, 16)
    case DirectRead => Dims(1, 1, 5, 15)
    case DirectWrite => Dims(1, 1, 3, 16)
    case DirectWriteWb | DirectWriteWbUnpriv => Dims(1, 3, 16, 15)
    case StmPreflight | LdmPreflight => Dims(1, 2, 2, 15)
    case StmCommit | ArmBx | ThumbBx => Dims(1, 1, 1, 16)
    case StmFinishWb | LdmCommit | LdmFinishWb | VfpCoreToS | VfpSToCore | BranchLink | ArmBlx | ThumbBlx => Dims(1, 1, 1, 15)
    case VfpCoreToPair | VfpPairToCore => Dims(1, 1, 15, 15)
    case Vmrs | VstmWrite => Dims(1, 1, 3, 15)
    case Vmsr => Dims(1, 1, 2, 15)
    case VfpUnary => Dims(1, 1, 2, 3)
    case VfpCompare | VfpRead | VfpWrite => Dims(1, 1, 1, 2)
    case VfpArith => Dims(1, 1, 2, 9)
  }

  /** How many handlers a family has. */
  function Size(f: Family): nat {
    match f
    case End | StmFinish | LdmFinish | VmrsApsr | VfpWiden => 1
    case AluRRR => 2048
    case AluImm => 320
    case EorsRR | MulsRR => 64
    case FlatWord => 128
    case FlatSp | StmCommit | ArmBx | ThumbBx => 16
    case Cond | BranchCond => 14
    case DpImm | DpReg => 7680
    case ShiftImm => 4096
    case ShiftReg => 1800
    case AddrImm | AddrReg | PostAddrImm | PostAddrReg => 32
    case DirectRead => 75
    case DirectWrite => 48
    case DirectWriteWb | DirectWriteWbUnpriv => 720
    case StmPreflight | LdmPreflight => 60
    case StmFinishWb | LdmCommit | LdmFinishWb | VfpCoreToS | VfpSToCore | BranchLink | ArmBlx | ThumbBlx => 15
    case VfpCoreToPair | VfpPairToCore => 225
    case Vmrs | VstmWrite => 45
    case Vmsr => 30
    case VfpUnary => 6
    case VfpCompare | VfpRead | VfpWrite => 2
    case VfpArith => 18
  }

  function Base(f: Family): nat {
    match f
    case End => END
    case AluRRR => ADD_RRR
    case AluImm => ADD_IMM
    case EorsRR => EORS_RR
    case MulsRR => MULS_RR
    case FlatWord => LDR
    case FlatSp => LDR_SP
    case Cond => COND
    case DpImm => DP_IMM
    case ShiftImm => SHIFT_IMM
    case ShiftReg => SHIFT_REG
    case DpReg => DP_REG
    case AddrImm => ADDR_IMM
    case AddrReg => ADDR_REG
    case PostAddrImm => POST_ADDR_IMM
    case PostAddrReg => POST_ADDR_REG
    case DirectRead => DIRECT_READ
    case DirectWrite => DIRECT_WRITE
    case DirectWriteWb => DIRECT_WRITE_WB
    case DirectWriteWbUnpriv => DIRECT_WRITE_WB_UNPRIV
    case StmPreflight => STM_PREFLIGHT
    case StmCommit => STM_COMMIT
    case StmFinish => STM_FINISH
    case StmFinishWb => STM_FINISH_WB
    case LdmPreflight => LDM_PREFLIGHT
    case LdmCommit => LDM_COMMIT
    case LdmFinish => LDM_FINISH
    case LdmFinishWb => LDM_FINISH_WB
    case VfpCoreToS => VFP_CORE_TO_S
    case VfpSToCore => VFP_S_TO_CORE
    case VfpCoreToPair => VFP_CORE_TO_PAIR
    case VfpPairToCore => VFP_PAIR_TO_CORE
    case Vmrs => VFP_VMRS_FPSID
    case VmrsApsr => VFP_VMRS_APSR
    case Vmsr => VFP_VMSR_FPSCR
    case VfpUnary => VFP_UNARY32
    case VfpCompare => VFP_COMPARE32
    case VfpWiden => VFP_WIDEN32
    case VfpArith => VFP_ARITH32
    case VfpRead => VFP_DIRECT_READ32
    case VfpWrite => VFP_DIRECT_WRITE32
    case VstmWrite => VSTM_DIRECT_WRITE
    case BranchCond => BRANCH_COND
    case BranchLink => BRANCH_LINK
    case ArmBx => ARM_BX
    case ArmBlx => ARM_BLX
    case ThumbBx => THUMB_BX
    case ThumbBlx => THUMB_BLX
  }

  function AluFamily(id: nat): (f: Family)
    requires 0 <= id < ADDR_IMM
    ensures Base(f) <= id < Base(f) + Size(f)
  {
    if id < ADD_RRR then End
    else if id < ADD_IMM then AluRRR
    else if id < EORS_RR then AluImm
    else if id < MULS_RR then EorsRR
    else if id < LDR then MulsRR
    else if id < LDR_SP then FlatWord
    else if id < COND then FlatSp
    else if id < DP_IMM then Cond
    else if id < SHIFT_IMM then DpImm
    else if id < SHIFT_REG then ShiftImm
    else if id < DP_REG then ShiftReg
    else DpReg
  }

  function MemoryFamily(id: nat): (f: Family)
    requires ADDR_IMM <= id < VFP_CORE_TO_S
    ensures Base(f) <= id < Base(f) + Size(f)
  {
    if id < ADDR_REG then AddrImm
    else if id < POST_ADDR_IMM then AddrReg
    else if id < POST_ADDR_REG then PostAddrImm
    else if id < DIRECT_READ then PostAddrReg
    else if id < DIRECT_WRITE then DirectRead
    else if id < DIRECT_WRITE_WB then DirectWrite
    else if id < DIRECT_WRITE_WB_UNPRIV then DirectWriteWb
    else if id < STM_PREFLIGHT then DirectWriteWbUnpriv
    else if id < STM_COMMIT then StmPreflight
    else if id < STM_FINISH then StmCommit
    else if id < STM_FINISH_WB then StmFinish
    else if id < LDM_PREFLIGHT then StmFinishWb
    else if id < LDM_COMMIT then LdmPreflight
    else if id < LDM_FINISH then LdmCommit
    else if id < LDM_FINISH_WB then LdmFinish
    else LdmFinishWb
  }

  function VfpTransferFamily(id: nat): (f: Family)
    requires VFP_CORE_TO_S <= id < VFP_UNARY32
    ensures Base(f) <= id < Base(f) + Size(f)
  {
    if id < VFP_S_TO_CORE then VfpCoreToS
    else if id < VFP_CORE_TO_PAIR then VfpSToCore
    else if id < VFP_PAIR_TO_CORE then VfpCoreToPair
    else if id < VFP_VMRS_FPSID then VfpPairToCore
    else if id < VFP_VMRS_APSR then Vmrs
    else if id < VFP_VMSR_FPSCR then VmrsApsr
    else Vmsr
  }

  function VfpDataFamily(id: nat): (f: Family)
    requires VFP_UNARY32 <= id < BRANCH_COND
    ensures Base(f) <= id < Base(f) + Size(f)
  {
    if id < VFP_COMPARE32 then VfpUnary
    else if id < VFP_WIDEN32 then VfpCompare
    else if id < VFP_ARITH32 then VfpWiden
    else if id < VFP_DIRECT_READ32 then VfpArith
    else if id < VFP_DIRECT_WRITE32 then VfpRead
    else if id < VSTM_DIRECT_WRITE then VfpWrite
    else VstmWrite
  }

  function BranchFamily(id: nat): (f: Family)
    requires BRANCH_COND <= id < HANDLER_COUNT
    ensures Base(f) <= id < Base(f) + Size(f)
  {
    if id < BRANCH_LINK then BranchCond
    else if id < ARM_BX then BranchLink
    else if id < ARM_BLX then ArmBx
    else if id < THUMB_BX then ArmBlx
    else if id < THUMB_BLX then ThumbBx
    else ThumbBlx
  }

  /** The family of an id; the table order is the order of the bases. */
  function FamilyAt(id: nat): (f: Family)
    requires id < HANDLER_COUNT
    ensures Base(f) <= id < Base(f) + Size(f)
  {
    if id < ADDR_IMM then AluFamily(id)
    else if id < VFP_CORE_TO_S then MemoryFamily(id)
    else if id < VFP_UNARY32 then VfpTransferFamily(id)
    else if id < BRANCH_COND then VfpDataFamily(id)
    else BranchFamily(id)
  }

  function Volume(s: Dims): nat {
    s.n0 * s.n1 * s.n2 * s.n3
  }

  predicate Within(op: Op, s: Dims) {
    op.a < s.n0 && op.b < s.n1 && op.c < s.n2 && op.d < s.n3
  }

  predicate Legal(op: Op) {
    Within(op, Shape(op.f))
  }

  /** Position of an operand tuple in a loop nest with bounds `s`. */
  function Index(op: Op, s: Dims): nat {
    ((op.a * s.n1 + op.b) * s.n2 + op.c) * s.n3 + op.d
  }

  function Over(k: nat, n: nat): nat
    requires n > 0
  {
    k / n
  }

  function Left(k: nat, n: nat): nat
    requires n > 0
  {
    k % n
  }

  /** The operand tuple at a position of a loop nest. */
  function Tuple(f: Family, s: Dims, k: nat): Op
    requires k < Volume(s)
  {
    NonEmpty(s, k);
    var p := Over(k, s.n3);
    var q := Over(p, s.n2);
    Op(f, Over(q, s.n1), Left(q, s.n1), Left(p, s.n2), Left(k, s.n3))
  }

  lemma NonEmpty(s: Dims, k: nat)
    requires k < Volume(s)
    ensures s.n3 > 0 && s.n2 > 0 && s.n1 > 0 && s.n0 > 0
  {
    assert s.n3 == 0 || s.n2 == 0 || s.n1 == 0 || s.n0 == 0 ==> Volume(s) == 0;
  }

  /** The id of a handler: its family's base plus the operands as mixed-radix digits. */
  function Id(op: Op): nat {
    Base(op.f) + Index(op, Shape(op.f))
  }

  /** The handler the generated table holds at an id. */
  function At(id: nat): Op
    requires id < HANDLER_COUNT
  {
    var f := FamilyAt(id);
    SizeIsVolume(f);
    Tuple(f, Shape(f), id - Base(f))
  }

  lemma SmallMultiple(k: int, n: int)
    requires -n < k * n < n
    ensures k == 0
  {
    assert k >= 1 ==> k * n >= n;
    assert k <= -1 ==> k * n <= -n;
  }

  lemma DivMod(q: nat, n: nat, r: nat)
    requires r < n
    ensures (q * n + r) / n == q && (q * n + r) % n == r
  {
    var x := q * n + r;
    assert x == n * (x / n) + x % n;
    assert (x / n - q) * n == r - x % n;
    SmallMultiple(x / n - q, n);
  }

  lemma Nest(q: nat, m: nat, n: nat, r: nat)
    requires q < m && r < n
    ensures q * n + r < m * n
  {
    assert (q + 1) * n <= m * n;
  }

  /** Mixed-radix digits are read back exactly. */
  lemma TupleOfIndex(op: Op, s: Dims)
    requires Within(op, s)
    ensures Index(op, s) < Volume(s) && Tuple(op.f, s, Index(op, s)) == op
  {
    var p := op.a * s.n1 + op.b;
    var q := p * s.n2 + op.c;
    var m1 := s.n0 * s.n1;
    var m2 := m1 * s.n2;
    DivMod(q, s.n3, op.d);
    DivMod(p, s.n2, op.c);
    DivMod(op.a, s.n1, op.b);
    Nest(op.a, s.n0, s.n1, op.b);
    Nest(p, m1, s.n2, op.c);
    Nest(q, m2, s.n3, op.d);
  }

  lemma Below(k: nat, m: nat, n: nat)
    requires k < m * n
    ensures n > 0 && k / n < m && k / n * n + k % n == k
  {
    assert n > 0 by {
      assert n == 0 ==> m * n == 0;
    }
    assert k == n * (k / n) + k % n;
    var q := k / n;
    assert q >= m ==> q * n >= m * n;
  }

  lemma IndexOfTuple(f: Family, s: Dims, k: nat)
    requires k < Volume(s)
    ensures Within(Tuple(f, s, k), s) && Index(Tuple(f, s, k), s) == k
  {
    var m1 := s.n0 * s.n1;
    var m2 := m1 * s.n2;
    Below(k, m2, s.n3);
    Below(k / s.n3, m1, s.n2);
    Below(k / s.n3 / s.n2, s.n0, s.n1);
  }

  lemma SizeIsVolume(f: Family)
    ensures Size(f) == Volume(Shape(f))
  {
  }

  lemma AluSpan(f: Family, id: nat)
    requires END <= Base(f) < ADDR_IMM && Base(f) <= id < Base(f) + Size(f)
    ensures id < ADDR_IMM && AluFamily(id) == f
  {
  }

  lemma MemorySpan(f: Family, id: nat)
    requires ADDR_IMM <= Base(f) < VFP_CORE_TO_S && Base(f) <= id < Base(f) + Size(f)
    ensures id < VFP_CORE_TO_S && MemoryFamily(id) == f
  {
  }

  lemma VfpTransferSpan(f: Family, id: nat)
    requires VFP_CORE_TO_S <= Base(f) < VFP_UNARY32 && Base(f) <= id < Base(f) + Size(f)
    ensures id < VFP_UNARY32 && VfpTransferFamily(id) == f
  {
  }

  lemma VfpDataSpan(f: Family, id: nat)
    requires VFP_UNARY32 <= Base(f) < BRANCH_COND && Base(f) <= id < Base(f) + Size(f)
    ensures id < BRANCH_COND && VfpDataFamily(id) == f
  {
  }

  lemma BranchSpan(f: Family, id: nat)
    requires BRANCH_COND <= Base(f) < HANDLER_COUNT && Base(f) <= id < Base(f) + Size(f)
    ensures id < HANDLER_COUNT && BranchFamily(id) == f
  {
  }

  lemma BaseInTable(f: Family)
    ensures Base(f) < HANDLER_COUNT
  {
  }

  /** The families tile the table: the ids of a block belong to that family alone. */
  lemma FamilySpan(f: Family, id: nat)
    requires Base(f) <= id < Base(f) + Size(f)
    ensures id < HANDLER_COUNT && FamilyAt(id) == f
  {
    hide Base, Size, AluFamily, MemoryFamily, VfpTransferFamily, VfpDataFamily, BranchFamily;
    BaseInTable(f);
    if Base(f) < ADDR_IMM {
      AluSpan(f, id);
    } else if Base(f) < VFP_CORE_TO_S {
      MemorySpan(f, id);
    } else if Base(f) < VFP_UNARY32 {
      VfpTransferSpan(f, id);
    } else if Base(f) < BRANCH_COND {
      VfpDataSpan(f, id);
    } else {
      BranchSpan(f, id);
    }
  }

  /** Looking up the id of a legal handler gives that handler back. */
  lemma AtId(op: Op)
    requires Legal(op)
    ensures Id(op) < HANDLER_COUNT && At(Id(op)) == op
  {
    SizeIsVolume(op.f);
    TupleOfIndex(op, Shape(op.f));
    FamilySpan(op.f, Id(op));
  }

  /** Every id below the handler count is the id of the legal handler stored there. */
  lemma IdAt(id: nat)
    requires id < HANDLER_COUNT
    ensures Legal(At(id)) && Id(At(id)) == id
  {
    var f := FamilyAt(id);
    SizeIsVolume(f);
    IndexOfTuple(f, Shape(f), id - Base(f));
  }

  /** The decoder's id functions, formula by formula, are this numbering. */
  lemma DecoderAluIds(a: nat, b: nat, c: nat, d: nat)
    ensures a < 4 ==> Id(Op(AluRRR, a, b, c, d)) == [ADD_RRR, SUB_RRR, EOR_RRR, ORR_RRR][a] + b * 64 + c * 8 + d
    ensures b < 5 ==> Id(Op(AluImm, 0, b, c, d)) == [ADD_IMM, SUB_IMM, EOR_IMM, ADDS_IMM, SUBS_IMM][b] + c * 8 + d
    ensures Id(Op(EorsRR, 0, 0, c, d)) == EORS_RR + c * 8 + d && Id(Op(MulsRR, 0, 0, c, d)) == MULS_RR + c * 8 + d
    ensures b < 2 ==> Id(Op(FlatWord, 0, b, c, d)) == [LDR, STR][b] + c * 8 + d
    ensures c < 2 ==> Id(Op(FlatSp, 0, 0, c, d)) == [LDR_SP, STR_SP][c] + d
    ensures Id(Op(DpImm, a, b, c, d)) == DP_IMM + (((a * 2 + b) * 15 + c) * 16 + d)
    ensures Id(Op(ShiftImm, a, b, c, d)) == SHIFT_IMM + (((a * 4 + b) * 16 + c) * 32 + d)
    ensures Id(Op(ShiftReg, a, b, c, d)) == SHIFT_REG + (((a * 4 + b) * 15 + c) * 15 + d)
    ensures Id(Op(DpReg, a, b, c, d)) == DP_REG + (((a * 2 + b) * 15 + c) * 16 + d)
  {
  }

  lemma DecoderAddressIds(c: nat, d: nat)
    ensures Id(Op(AddrImm, 0, 0, c, d)) == ADDR_IMM + c * 16 + d && Id(Op(AddrReg, 0, 0, c, d)) == ADDR_REG + c * 16 + d
    ensures Id(Op(PostAddrImm, 0, 0, c, d)) == POST_ADDR_IMM + c * 16 + d
    ensures Id(Op(PostAddrReg, 0, 0, c, d)) == POST_ADDR_REG + c * 16 + d
  {
  }

  lemma DecoderAccessIds(b: nat, c: nat, d: nat)
    ensures Id(Op(DirectRead, 0, 0, c, d)) == DIRECT_READ + c * 15 + d
    ensures Id(Op(DirectWrite, 0, 0, c, d)) == DIRECT_WRITE + c * 16 + d
    ensures Id(Op(DirectWriteWb, 0, b, c, d)) == DIRECT_WRITE_WB + (b * 16 + c) * 15 + d
    ensures Id(Op(DirectWriteWbUnpriv, 0, b, c, d)) == DIRECT_WRITE_WB_UNPRIV + (b * 16 + c) * 15 + d
  {
  }

  lemma DecoderBlockIds(b: nat, c: nat, d: nat)
    ensures Id(Op(StmPreflight, 0, b, c, d)) == STM_PREFLIGHT + ((b * 2 + c) * 15 + d)
    ensures Id(Op(LdmPreflight, 0, b, c, d)) == LDM_PREFLIGHT + ((b * 2 + c) * 15 + d)
  {
  }

  lemma DecoderVfpIds(c: nat, d: nat)
    ensures Id(Op(VfpCoreToPair, 0, 0, c, d)) == VFP_CORE_TO_PAIR + c * 15 + d
    ensures Id(Op(VfpPairToCore, 0, 0, c, d)) == VFP_PAIR_TO_CORE + c * 15 + d
  {
  }

  lemma DecoderVfpSystemIds(c: nat, d: nat)
    ensures c < 3 ==> Id(Op(Vmrs, 0, 0, c, d)) == [VFP_VMRS_FPSID, VFP_VMRS_FPSCR, VFP_VMRS_FPEXC][c] + d
    ensures c < 2 ==> Id(Op(Vmsr, 0, 0, c, d)) == [VFP_VMSR_FPSCR, VFP_VMSR_FPEXC][c] + d
  {
  }

  lemma DecoderVfpDataIds(c: nat, d: nat)
    ensures c < 2 ==> Id(Op(VfpUnary, 0, 0, c, d)) == [VFP_UNARY32, VFP_UNARY64][c] + d
    ensures c < 2 ==> Id(Op(VfpArith, 0, 0, c, d)) == [VFP_ARITH32, VFP_ARITH64][c] + d
    ensures Id(Op(VstmWrite, 0, 0, c, d)) == VSTM_DIRECT_WRITE + c * 15 + d
  {
  }

  // The decoder classifies handlers by id ranges; the families below are those ranges.

  predicate IsTouchingFlat(f: Family) { f == FlatWord || f == FlatSp }

  predicate IsShift(f: Family) { f == ShiftImm || f == ShiftReg }

  predicate IsAddrImm(f: Family) { f == AddrImm || f == PostAddrImm }

  predicate IsAddrReg(f: Family) { f == AddrReg || f == PostAddrReg }

  predicate IsDirectRead(f: Family) { f == DirectRead || f == LdmPreflight || f == VfpRead }

  predicate IsDirectWriteWb(f: Family) { f == DirectWriteWb || f == DirectWriteWbUnpriv }

  predicate IsStmFinish(f: Family) { f == StmFinish || f == StmFinishWb }

  predicate IsLdmFinish(f: Family) { f == LdmFinish || f == LdmFinishWb }

  predicate IsDirectWrite(f: Family) {
    f == DirectWrite || IsDirectWriteWb(f) || IsStmFinish(f) || f == VfpWrite || f == VstmWrite
  }

  predicate IsVfp(f: Family) {
    match f
    case VfpCoreToS | VfpSToCore | VfpCoreToPair | VfpPairToCore | Vmrs | VmrsApsr | Vmsr => true
    case VfpUnary | VfpCompare | VfpWiden | VfpArith | VfpRead | VfpWrite | VstmWrite => true
    case _ => false
  }

  predicate IsIndirectBranch(f: Family) { f == ArmBx || f == ArmBlx || f == ThumbBx || f == ThumbBlx }

  predicate IsTerminalBranch(f: Family) { f == BranchCond || f == BranchLink || IsIndirectBranch(f) }

  predicate IsRuntimeGuarded(f: Family) {
    IsDirectRead(f) || f == StmPreflight || (IsDirectWrite(f) && !IsStmFinish(f)) || IsVfp(f) || IsIndirectBranch(f)
  }

  lemma AccessGuarded(f: Family)
    requires f == DirectRead || f == DirectWrite || IsDirectWriteWb(f)
    ensures IsRuntimeGuarded(f)
  {
  }

  lemma AddressUnguarded(f: Family)
    requires f == ShiftImm || f == FlatWord || IsAddrImm(f) || IsAddrReg(f)
    ensures !IsRuntimeGuarded(f)
  {
  }

  // An id lies in its family's block, so a range test on it is a test on the family.

  lemma AluRanges(f: Family, id: nat)
    requires Base(f) <= id < Base(f) + Size(f)
    ensures (id == END <==> f == End)
    ensures (IsTouchingFlat(f) <==> LDR <= id < COND)
    ensures (f == Cond <==> COND <= id < DP_IMM)
  {
    hide Base, Size;
    FamilySpan(f, id);
  }

  lemma ShiftRanges(f: Family, id: nat)
    requires Base(f) <= id < Base(f) + Size(f)
    ensures (f == DpImm <==> DP_IMM <= id < SHIFT_IMM)
    ensures (IsShift(f) <==> SHIFT_IMM <= id < DP_REG)
    ensures (f == DpReg <==> DP_REG <= id < ADDR_IMM)
  {
    hide Base, Size;
    FamilySpan(f, id);
  }

  lemma AddressRanges(f: Family, id: nat)
    requires Base(f) <= id < Base(f) + Size(f)
    ensures (IsAddrImm(f) <==> ADDR_IMM <= id < ADDR_REG || POST_ADDR_IMM <= id < POST_ADDR_REG)
    ensures (IsAddrReg(f) <==> ADDR_REG <= id < POST_ADDR_IMM || POST_ADDR_REG <= id < DIRECT_READ)
  {
    hide Base, Size;
    FamilySpan(f, id);
  }

  lemma FlatRanges(f: Family, id: nat)
    requires Base(f) <= id < Base(f) + Size(f)
    ensures (id == END <==> f == End)
    ensures (IsTouchingFlat(f) <==> LDR <= id < COND)
    ensures (f == Cond <==> COND <= id < DP_IMM)
    ensures (f == DpImm <==> DP_IMM <= id < SHIFT_IMM)
    ensures (IsShift(f) <==> SHIFT_IMM <= id < DP_REG)
    ensures (f == DpReg <==> DP_REG <= id < ADDR_IMM)
    ensures (IsAddrImm(f) <==> ADDR_IMM <= id < ADDR_REG || POST_ADDR_IMM <= id < POST_ADDR_REG)
    ensures (IsAddrReg(f) <==> ADDR_REG <= id < POST_ADDR_IMM || POST_ADDR_REG <= id < DIRECT_READ)
  {
    hide *;
    AluRanges(f, id);
    ShiftRanges(f, id);
    AddressRanges(f, id);
  }

  lemma MemoryRanges(f: Family, id: nat)
    requires Base(f) <= id < Base(f) + Size(f)
    ensures (IsDirectWriteWb(f) <==> DIRECT_WRITE_WB <= id < STM_PREFLIGHT)
    ensures (f == DirectWriteWbUnpriv <==> DIRECT_WRITE_WB_UNPRIV <= id < STM_PREFLIGHT)
    ensures (f == StmPreflight <==> STM_PREFLIGHT <= id < STM_COMMIT)
    ensures (f == StmCommit <==> STM_COMMIT <= id < STM_FINISH)
    ensures (IsStmFinish(f) <==> STM_FINISH <= id < LDM_PREFLIGHT)
    ensures (f == LdmPreflight <==> LDM_PREFLIGHT <= id < LDM_COMMIT)
    ensures (f == LdmCommit <==> LDM_COMMIT <= id < LDM_FINISH)
    ensures (IsLdmFinish(f) <==> LDM_FINISH <= id < VFP_CORE_TO_S)
  {
    hide Base, Size;
    FamilySpan(f, id);
  }

  lemma GuardRanges(f: Family, id: nat)
    requires Base(f) <= id < Base(f) + Size(f)
    ensures (IsDirectRead(f) <==> DIRECT_READ <= id < DIRECT_WRITE || LDM_PREFLIGHT <= id < LDM_COMMIT
                                      || VFP_DIRECT_READ32 <= id <= VFP_DIRECT_READ64)
    ensures (IsDirectWrite(f) <==> DIRECT_WRITE <= id < STM_PREFLIGHT || STM_FINISH <= id < LDM_PREFLIGHT
                                       || VFP_DIRECT_WRITE32 <= id < BRANCH_COND)
  {
    hide Base, Size;
    FamilySpan(f, id);
  }

  lemma VfpAndBranchRanges(f: Family, id: nat)
    requires Base(f) <= id < Base(f) + Size(f)
    ensures (IsVfp(f) <==> VFP_CORE_TO_S <= id < BRANCH_COND)
    ensures (f == VfpArith <==> VFP_ARITH32 <= id < VFP_DIRECT_READ32)
    ensures (f == VstmWrite <==> VSTM_DIRECT_WRITE <= id < BRANCH_COND)
    ensures (IsTerminalBranch(f) <==> BRANCH_COND <= id < HANDLER_COUNT)
    ensures (IsIndirectBranch(f) <==> ARM_BX <= id < HANDLER_COUNT)
  {
    hide Base, Size;
    FamilySpan(f, id);
  }

  /** `handlers` is `before` followed by the first `k` handlers of a family's loop nest. */
  ghost predicate Grown(before: seq<Op>, f: Family, s: Dims, handlers: seq<Op>, k: nat) {
    && k <= Volume(s)
    && |handlers| == |before| + k
    && handlers[..|before|] == before
    && forall j :: 0 <= j < k ==> handlers[|before| + j] == Tuple(f, s, j)
  }

  lemma Grow(before: seq<Op>, f: Family, s: Dims, handlers: seq<Op>, op: Op)
    requires op.f == f && Within(op, s) && Grown(before, f, s, handlers, Index(op, s))
    ensures Grown(before, f, s, handlers + [op], Index(op.(d := op.d + 1), s))
  {
    TupleOfIndex(op, s);
  }

  lemma Carry(f: Family, s: Dims, a: nat, b: nat, c: nat)
    ensures Index(Op(f, a, b, c, s.n3), s) == Index(Op(f, a, b, c + 1, 0), s)
    ensures Index(Op(f, a, b, s.n2, 0), s) == Index(Op(f, a, b + 1, 0, 0), s)
    ensures Index(Op(f, a, s.n1, 0, 0), s) == Index(Op(f, a + 1, 0, 0, 0), s)
    ensures Index(Op(f, s.n0, 0, 0, 0), s) == Volume(s) && Index(Op(f, 0, 0, 0, 0), s) == 0
  {
  }

  method AppendInner(ghost before: seq<Op>, f: Family, s: Dims, a: nat, b: nat, start: seq<Op>) returns (handlers: seq<Op>)
    requires a < s.n0 && b < s.n1 && Grown(before, f, s, start, Index(Op(f, a, b, 0, 0), s))
    ensures Grown(before, f, s, handlers, Index(Op(f, a, b + 1, 0, 0), s))
  {
    handlers := start;
    for c := 0 to s.n2
      invariant Grown(before, f, s, handlers, Index(Op(f, a, b, c, 0), s))
    {
      for d := 0 to s.n3
        invariant Grown(before, f, s, handlers, Index(Op(f, a, b, c, d), s))
      {
        Grow(before, f, s, handlers, Op(f, a, b, c, d));
        handlers := handlers + [Op(f, a, b, c, d)];
      }
      Carry(f, s, a, b, c);
    }
    Carry(f, s, a, b, 0);
  }

  /** One loop nest of the generator, for any bounds. */
  method AppendNest(before: seq<Op>, f: Family, s: Dims) returns (handlers: seq<Op>)
    ensures Grown(before, f, s, handlers, Volume(s))
  {
    Carry(f, s, 0, 0, 0);
    handlers := before;
    for a := 0 to s.n0
      invariant Grown(before, f, s, handlers, Index(Op(f, a, 0, 0, 0), s))
    {
      for b := 0 to s.n1
        invariant Grown(before, f, s, handlers, Index(Op(f, a, b, 0, 0), s))
      {
        handlers := AppendInner(before, f, s, a, b, handlers);
      }
      Carry(f, s, a, 0, 0);
    }
  }

  /** The list so far is the table up to `n`: each handler was appended at its own id. */
  ghost predicate Built(handlers: seq<Op>, n: nat) {
    n <= HANDLER_COUNT && |handlers| == n && forall id :: 0 <= id < n ==> handlers[id] == At(id)
  }

  lemma SizePositive(f: Family)
    ensures Size(f) > 0
  {
  }

  lemma BuiltFamily(before: seq<Op>, f: Family, handlers: seq<Op>)
    requires Built(before, Base(f)) && Grown(before, f, Shape(f), handlers, Size(f))
    ensures Built(handlers, Base(f) + Size(f))
  {
    hide Base, Size, FamilyAt, Shape, Tuple, Volume;
    SizeIsVolume(f);
    SizePositive(f);
    FamilySpan(f, Base(f) + Size(f) - 1);
    forall id | 0 <= id < |handlers|
      ensures handlers[id] == At(id)
    {
      if id < |before| {
        assert handlers[id] == handlers[..|before|][id];
      } else {
        FamilySpan(f, id);
        assert handlers[|before| + (id - |before|)] == Tuple(f, Shape(f), id - |before|);
      }
    }
  }

  method AppendFamily(before: seq<Op>, f: Family) returns (handlers: seq<Op>)
    requires Built(before, Base(f))
    ensures Built(handlers, Base(f) + Size(f))
  {
    SizeIsVolume(f);
    handlers := AppendNest(before, f, Shape(f));
    BuiltFamily(before, f, handlers);
  }

  method BuildAlu() returns (handlers: seq<Op>)
    ensures Built(handlers, ADDR_IMM)
  {
    handlers := [];
    handlers := AppendFamily(handlers, End);
    handlers := AppendFamily(handlers, AluRRR);
    handlers := AppendFamily(handlers, AluImm);
    handlers := AppendFamily(handlers, EorsRR);
    handlers := AppendFamily(handlers, MulsRR);
    handlers := AppendFamily(handlers, FlatWord);
    handlers := AppendFamily(handlers, FlatSp);
    handlers := AppendFamily(handlers, Cond);
    handlers := AppendFamily(handlers, DpImm);
    handlers := AppendFamily(handlers, ShiftImm);
    handlers := AppendFamily(handlers, ShiftReg);
    handlers := AppendFamily(handlers, DpReg);
  }

  method BuildSingleAccesses(before: seq<Op>) returns (handlers: seq<Op>)
    requires Built(before, ADDR_IMM)
    ensures Built(handlers, STM_PREFLIGHT)
  {
    handlers := AppendFamily(before, AddrImm);
    handlers := AppendFamily(handlers, AddrReg);
    handlers := AppendFamily(handlers, PostAddrImm);
    handlers := AppendFamily(handlers, PostAddrReg);
    handlers := AppendFamily(handlers, DirectRead);
    handlers := AppendFamily(handlers, DirectWrite);
    handlers := AppendFamily(handlers, DirectWriteWb);
    handlers := AppendFamily(handlers, DirectWriteWbUnpriv);
  }

  method BuildBlockTransfers(before: seq<Op>) returns (handlers: seq<Op>)
    requires Built(before, STM_PREFLIGHT)
    ensures Built(handlers, VFP_CORE_TO_S)
  {
    handlers := AppendFamily(before, StmPreflight);
    handlers := AppendFamily(handlers, StmCommit);
    handlers := AppendFamily(handlers, StmFinish);
    handlers := AppendFamily(handlers, StmFinishWb);
    handlers := AppendFamily(handlers, LdmPreflight);
    handlers := AppendFamily(handlers, LdmCommit);
    handlers := AppendFamily(handlers, LdmFinish);
    handlers := AppendFamily(handlers, LdmFinishWb);
  }

  method BuildVfpTransfers(before: seq<Op>) returns (handlers: seq<Op>)
    requires Built(before, VFP_CORE_TO_S)
    ensures Built(handlers, VFP_UNARY32)
  {
    handlers := AppendFamily(before, VfpCoreToS);
    handlers := AppendFamily(handlers, VfpSToCore);
    handlers := AppendFamily(handlers, VfpCoreToPair);
    handlers := AppendFamily(handlers, VfpPairToCore);
    handlers := AppendFamily(handlers, Vmrs);
    handlers := AppendFamily(handlers, VmrsApsr);
    handlers := AppendFamily(handlers, Vmsr);
  }

  method BuildVfpData(before: seq<Op>) returns (handlers: seq<Op>)
    requires Built(before, VFP_UNARY32)
    ensures Built(handlers, BRANCH_COND)
  {
    handlers := AppendFamily(before, VfpUnary);
    handlers := AppendFamily(handlers, VfpCompare);
    handlers := AppendFamily(handlers, VfpWiden);
    handlers := AppendFamily(handlers, VfpArith);
    handlers := AppendFamily(handlers, VfpRead);
    handlers := AppendFamily(handlers, VfpWrite);
    handlers := AppendFamily(handlers, VstmWrite);
  }

  method BuildBranches(before: seq<Op>) returns (handlers: seq<Op>)
    requires Built(before, BRANCH_COND)
    ensures Built(handlers, ARM_BX)
  {
    handlers := AppendFamily(before, BranchCond);
    handlers := AppendFamily(handlers, BranchLink);
  }

  method BuildIndirectBranches(before: seq<Op>) returns (handlers: seq<Op>)
    requires Built(before, ARM_BX)
    ensures Built(handlers, HANDLER_COUNT)
  {
    handlers := AppendFamily(before, ArmBx);
    handlers := AppendFamily(handlers, ArmBlx);
    handlers := AppendFamily(handlers, ThumbBx);
    handlers := AppendFamily(handlers, ThumbBlx);
  }

  /** The generator's whole list, loop nest after loop nest. */
  method BuildHandlers() returns (handlers: seq<Op>)
    ensures |handlers| == HANDLER_COUNT
    ensures forall id :: 0 <= id < HANDLER_COUNT ==> handlers[id] == At(id)
  {
    handlers := BuildAlu();
    handlers := BuildSingleAccesses(handlers);
    handlers := BuildBlockTransfers(handlers);
    handlers := BuildVfpTransfers(handlers);
    handlers := BuildVfpData(handlers);
    handlers := BuildBranches(handlers);
    handlers := BuildIndirectBranches(handlers);
  }
}
