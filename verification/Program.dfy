/** Decoding a whole block of instructions into one record array. */
module Program {
  import opened Words
  import opened Handlers
  import opened Decode

  const MAX_INSNS: nat := 16
  const MAX_UOPS: nat := 80

  /** What the records of a block do; a block keeps the set beside its records. */
  datatype Trait =
    | DynamicExit | IndirectExit | ThumbConditionalExit | TouchesMemory | DirectReads | DirectWrites | RuntimeGuards
    | UsesVfp | VfpArithmetic | VfpDirectWrites | StmDirectWrites | LdmDirectReads | VstmDirectWrites

  datatype Block = Block(uops: seq<Uop>, insnCount: nat, startPc: Word, exitPc: Word, thumb: bool, traits: set<Trait>)

  function Width(thumb: bool): nat { if thumb then 2 else 4 }

  predicate Marked(x: Trait, f: Family, thumb: bool) {
    match x
    case DynamicExit => IsTerminalBranch(f)
    case IndirectExit => IsIndirectBranch(f)
    case ThumbConditionalExit => thumb && f == BranchCond
    case TouchesMemory => IsTouchingFlat(f) || IsDirectRead(f) || IsDirectWrite(f)
    case DirectReads => IsDirectRead(f)
    case DirectWrites => IsDirectWrite(f)
    case RuntimeGuards => IsRuntimeGuarded(f)
    case UsesVfp => IsVfp(f)
    case VfpArithmetic => f == VfpArith
    case VfpDirectWrites => f == VfpWrite
    case StmDirectWrites => IsStmFinish(f)
    case LdmDirectReads => f == LdmPreflight
    case VstmDirectWrites => f == VstmWrite
  }

  function Marks(f: Family, thumb: bool): set<Trait> {
    set x: Trait | Marked(x, f, thumb)
  }

  /** The flags of a record array. */
  function TraitsOf(uops: seq<Uop>, thumb: bool): set<Trait> {
    if uops == [] then {} else TraitsOf(uops[..|uops| - 1], thumb) + Marks(uops[|uops| - 1].op.f, thumb)
  }

  /** Guarded records carry their instruction's address and the retired and unretired counts. */
  function Patched(u: Uop, i: nat, insns: nat, pc: Word, thumb: bool): Uop
    requires i < insns <= MAX_INSNS
  {
    if IsRuntimeGuarded(u.op.f) then u.(pcv := Wrap(pc + i * Width(thumb)), meta := (i + 1) * 256 + (insns - i)) else u
  }

  function PatchedAll(s: seq<Uop>, i: nat, insns: nat, pc: Word, thumb: bool): (r: seq<Uop>)
    requires i < insns <= MAX_INSNS
    ensures |r| == |s| && forall k :: 0 <= k < |s| ==> r[k] == Patched(s[k], i, insns, pc, thumb)
  {
    seq(|s|, k requires 0 <= k < |s| => Patched(s[k], i, insns, pc, thumb))
  }

  function DecodeOne(insn: Word, i: nat, insns: nat, thumb: bool, pc: Word, mode: Mode): Option<seq<Uop>>
    requires thumb ==> insn < 0x1_0000
  {
    if thumb then DecodeThumb(insn, i, insns, pc, mode) else DecodeArm(insn, i, insns, pc, mode)
  }

  /** May record `j` of instruction `i` stand where it does? */
  predicate Placed(s: seq<Uop>, j: nat, i: nat, insns: nat)
    requires j < |s|
  {
    var f := s[j].op.f;
    && Id(s[j].op) < HANDLER_COUNT
    && (f == End ==> i + 1 == insns)
    && (IsTerminalBranch(f) ==> i + 1 == insns && forall k :: 0 <= k < j ==> !IsTerminalBranch(s[k].op.f))
    && (IsDirectWrite(f) ==> i + 1 == insns)
  }

  /** The records of instruction `i`, or refusal. */
  function Segment(insn: Word, i: nat, insns: nat, thumb: bool, pc: Word, mode: Mode): Option<seq<Uop>>
    requires i < insns <= MAX_INSNS && (thumb ==> insn < 0x1_0000)
  {
    match DecodeOne(insn, i, insns, thumb, pc, mode)
    case None => None
    case Some(s) =>
      if s == [] || |s| > 19 then None
      else if thumb && Reads(mode) && exists j :: 0 <= j < |s| && IsTouchingFlat(s[j].op.f) then None
      else if exists j :: 0 <= j < |s| && !Placed(s, j, i, insns) then None
      else Some(PatchedAll(s, i, insns, pc, thumb))
  }

  ghost predicate Halfwords(insns: seq<Word>, thumb: bool) {
    thumb ==> forall k :: 0 <= k < |insns| ==> insns[k] < 0x1_0000
  }

  /** The records of the first `i` instructions. */
  function Records(insns: seq<Word>, i: nat, thumb: bool, pc: Word, mode: Mode): (r: Option<seq<Uop>>)
    requires i <= |insns| <= MAX_INSNS && Halfwords(insns, thumb)
    ensures r.Some? ==> |r.value| <= MAX_UOPS && i <= |r.value|
  {
    if i == 0 then Some([])
    else
      match Records(insns, i - 1, thumb, pc, mode)
      case None => None
      case Some(before) => Appended(before, Segment(insns[i - 1], i - 1, |insns|, thumb, pc, mode))
  }

  function Appended(before: seq<Uop>, segment: Option<seq<Uop>>): (r: Option<seq<Uop>>)
    ensures r.Some? <==> segment.Some? && segment.value != [] && |segment.value| <= MAX_UOPS - |before|
    ensures r.Some? ==> r.value == before + segment.value
  {
    if segment.None? || segment.value == [] || |segment.value| > MAX_UOPS - |before| then None
    else Some(before + segment.value)
  }

  /** The block a program decodes to. */
  function DecodeProgram(insns: seq<Word>, thumb: bool, pc: Word, mode: Mode): Option<Block>
    requires Halfwords(insns, thumb)
  {
    if |insns| == 0 || |insns| > MAX_INSNS || pc % Width(thumb) != 0 then None
    else
      match Records(insns, |insns|, thumb, pc, mode)
      case None => None
      case Some(uops) =>
        var fallthrough := Wrap(pc + |insns| * Width(thumb));
        if uops[|uops| - 1].op.f == End then
          Some(Block(uops, |insns|, pc, uops[|uops| - 1].imm, thumb, TraitsOf(uops, thumb)))
        else if |uops| == MAX_UOPS then None
        else Some(Block(uops + [Uop(Op(End, 0, 0, 0, 0), fallthrough, 0, 0)], |insns|, pc, fallthrough, thumb, TraitsOf(uops, thumb)))
  }

  function ReadLe(bytes: seq<Byte>, at: nat, thumb: bool): (w: Word)
    requires at + Width(thumb) <= |bytes|
    ensures thumb ==> w < 0x1_0000
  {
    var low := bytes[at] as int + 0x100 * bytes[at + 1] as int;
    if thumb then low else low + 0x1_0000 * bytes[at + 2] as int + 0x100_0000 * bytes[at + 3] as int
  }

  /** The instruction stream of a little-endian byte array. */
  function Fetched(bytes: seq<Byte>, insns: nat, thumb: bool): (w: seq<Word>)
    requires insns * Width(thumb) <= |bytes|
    ensures |w| == insns && Halfwords(w, thumb)
    ensures forall k :: 0 <= k < insns ==> k * Width(thumb) + Width(thumb) <= |bytes| && w[k] == ReadLe(bytes, k * Width(thumb), thumb)
  {
    if insns == 0 then [] else Fetched(bytes, insns - 1, thumb) + [ReadLe(bytes, (insns - 1) * Width(thumb), thumb)]
  }

  lemma TraitsStep(uops: seq<Uop>, u: Uop, thumb: bool)
    ensures TraitsOf(uops + [u], thumb) == TraitsOf(uops, thumb) + Marks(u.op.f, thumb)
  {
    assert (uops + [u])[..|uops|] == uops;
  }

  /** A flag is set exactly when some record sets it. */
  lemma {:induction false} TraitWitness(x: Trait, uops: seq<Uop>, thumb: bool)
    ensures x in TraitsOf(uops, thumb) <==> exists k :: 0 <= k < |uops| && x in Marks(uops[k].op.f, thumb)
  {
    hide Marks;
    if uops != [] {
      var n := |uops| - 1;
      TraitWitness(x, uops[..n], thumb);
      if x in TraitsOf(uops[..n], thumb) {
        var k :| 0 <= k < n && x in Marks(uops[..n][k].op.f, thumb);
        assert x in Marks(uops[k].op.f, thumb);
      }
    }
  }

  lemma ExitMark(f: Family, thumb: bool)
    ensures DynamicExit in Marks(f, thumb) <==> IsTerminalBranch(f)
  {
  }

  /** The loop's tests on one record, given whether a terminal branch came before it. */
  lemma PlacedNow(s: seq<Uop>, j: nat, i: nat, insns: nat, exited: bool)
    requires j < |s| && (exited <==> exists k :: 0 <= k < j && IsTerminalBranch(s[k].op.f))
    ensures Placed(s, j, i, insns) <==>
              && Id(s[j].op) < HANDLER_COUNT
              && (s[j].op.f == End ==> i + 1 == insns)
              && (IsTerminalBranch(s[j].op.f) ==> i + 1 == insns && !exited)
              && (IsDirectWrite(s[j].op.f) ==> i + 1 == insns)
  {
    hide Id, IsTerminalBranch, IsDirectWrite;
  }

  /** Appends the records of one instruction, updating the flags record by record. */
  method AppendRecords(uops: seq<Uop>, traits: set<Trait>, decoded: seq<Uop>, i: nat, insns: nat, thumb: bool, pc: Word)
    returns (ok: bool, grown: seq<Uop>, now: set<Trait>)
    requires i < insns <= MAX_INSNS && traits == TraitsOf(uops, thumb) && DynamicExit !in traits
    ensures ok <==> forall j :: 0 <= j < |decoded| ==> Placed(decoded, j, i, insns)
    ensures ok ==> grown == uops + PatchedAll(decoded, i, insns, pc, thumb) && now == TraitsOf(grown, thumb)
  {
    hide Id, IsTerminalBranch, IsDirectWrite, IsRuntimeGuarded, Marks, Placed, TraitsOf;
    ok, grown, now := true, uops, traits;
    for j := 0 to |decoded|
      invariant ok
      invariant forall k :: 0 <= k < j ==> Placed(decoded, k, i, insns)
      invariant now == TraitsOf(grown, thumb)
      invariant DynamicExit in now <==> exists k :: 0 <= k < j && IsTerminalBranch(decoded[k].op.f)
      invariant grown == uops + PatchedAll(decoded, i, insns, pc, thumb)[..j]
    {
      var u := decoded[j];
      var exited := DynamicExit in now;
      PlacedNow(decoded, j, i, insns, exited);
      if Id(u.op) >= HANDLER_COUNT || (i + 1 != insns && u.op.f == End) {
        return false, grown, now;
      }
      if IsTerminalBranch(u.op.f) && (i + 1 != insns || DynamicExit in now) {
        return false, grown, now;
      }
      if IsDirectWrite(u.op.f) && i + 1 != insns {
        return false, grown, now;
      }
      if IsRuntimeGuarded(u.op.f) {
        u := u.(pcv := Wrap(pc + i * Width(thumb)), meta := (i + 1) * 256 + (insns - i));
      }
      TraitsStep(grown, u, thumb);
      ExitMark(u.op.f, thumb);
      grown, now := grown + [u], now + Marks(u.op.f, thumb);
    }
    assert PatchedAll(decoded, i, insns, pc, thumb)[..|decoded|] == PatchedAll(decoded, i, insns, pc, thumb);
  }

  /** Only the last instruction of a block may leave it through a terminal branch. */
  lemma NoEarlyExit(before: seq<Uop>, decoded: seq<Uop>, i: nat, insns: nat, thumb: bool, pc: Word)
    requires i + 1 < insns <= MAX_INSNS && DynamicExit !in TraitsOf(before, thumb)
    requires forall j :: 0 <= j < |decoded| ==> Placed(decoded, j, i, insns)
    ensures DynamicExit !in TraitsOf(before + PatchedAll(decoded, i, insns, pc, thumb), thumb)
  {
    hide IsTerminalBranch, IsDirectWrite, Id, Marks, IsRuntimeGuarded;
    var all := before + PatchedAll(decoded, i, insns, pc, thumb);
    TraitWitness(DynamicExit, all, thumb);
    TraitWitness(DynamicExit, before, thumb);
    forall k | 0 <= k < |all|
      ensures DynamicExit !in Marks(all[k].op.f, thumb)
    {
      ExitMark(all[k].op.f, thumb);
      if k < |before| {
        assert all[k] == before[k];
      } else {
        assert Placed(decoded, k - |before|, i, insns);
      }
    }
  }

  /** Once an instruction is refused the whole program is. */
  lemma {:induction false} RefusedOnce(insns: seq<Word>, i: nat, n: nat, thumb: bool, pc: Word, mode: Mode)
    requires i <= n <= |insns| <= MAX_INSNS && Halfwords(insns, thumb)
    requires Records(insns, i, thumb, pc, mode) == None
    ensures Records(insns, n, thumb, pc, mode) == None
  {
    if i < n {
      RefusedOnce(insns, i, n - 1, thumb, pc, mode);
    }
  }

  /** Decodes instruction `i` into its own records and moves them behind those of the instructions before it. */
  method DecodeInto(uops: seq<Uop>, traits: set<Trait>, insn: Word, i: nat, insns: nat, thumb: bool, pc: Word, mode: Mode)
    returns (ok: bool, grown: seq<Uop>, now: set<Trait>)
    requires i < insns <= MAX_INSNS && |uops| <= MAX_UOPS && (thumb ==> insn < 0x1_0000)
    requires traits == TraitsOf(uops, thumb) && DynamicExit !in traits
    ensures Appended(uops, Segment(insn, i, insns, thumb, pc, mode)) == if ok then Some(grown) else None
    ensures ok ==> now == TraitsOf(grown, thumb) && (i + 1 < insns ==> DynamicExit !in now)
  {
    hide Placed, Id, IsTouchingFlat, Marks, DecodeOne, Patched, TraitsOf;
    ok, grown, now := false, uops, traits;
    var decoded := DecodeOne(insn, i, insns, thumb, pc, mode);
    if decoded == None || decoded.value == [] || |decoded.value| > 19 || |decoded.value| > MAX_UOPS - |uops| {
      return;
    }
    if thumb && Reads(mode) && exists j :: 0 <= j < |decoded.value| && IsTouchingFlat(decoded.value[j].op.f) {
      return;
    }
    ok, grown, now := AppendRecords(uops, traits, decoded.value, i, insns, thumb, pc);
    if ok && i + 1 < insns {
      NoEarlyExit(uops, decoded.value, i, insns, thumb, pc);
    }
  }

  lemma RecordsStep(insns: seq<Word>, i: nat, before: seq<Uop>, thumb: bool, pc: Word, mode: Mode)
    requires i < |insns| <= MAX_INSNS && Halfwords(insns, thumb) && Records(insns, i, thumb, pc, mode) == Some(before)
    ensures Records(insns, i + 1, thumb, pc, mode) == Appended(before, Segment(insns[i], i, |insns|, thumb, pc, mode))
    ensures |before| <= MAX_UOPS
  {
    hide Segment, Appended;
  }

  /** The block decoder: one pass over the instruction bytes, refusing at the first instruction outside the contract. */
  method DecodeProgramAt(program: seq<Byte>, insns: nat, thumb: bool, pc: Word, mode: Mode) returns (out: Option<Block>)
    requires insns * Width(thumb) <= |program|
    ensures out == DecodeProgram(Fetched(program, insns, thumb), thumb, pc, mode)
  {
    hide Fetched, ReadLe, Segment, TraitsOf, Appended, Records;
    ghost var words := Fetched(program, insns, thumb);
    if insns == 0 || insns > MAX_INSNS || pc % Width(thumb) != 0 {
      return None;
    }
    var uops: seq<Uop>, traits: set<Trait> := [], TraitsOf([], thumb);
    NoTraits(thumb);
    NoRecords(words, thumb, pc, mode);
    for i := 0 to insns
      invariant Records(words, i, thumb, pc, mode) == Some(uops)
      invariant traits == TraitsOf(uops, thumb)
      invariant i < insns ==> DynamicExit !in traits
    {
      assert i * Width(thumb) + Width(thumb) <= |program|;
      RecordsStep(words, i, uops, thumb, pc, mode);
      var ok;
      ok, uops, traits := DecodeInto(uops, traits, ReadLe(program, i * Width(thumb), thumb), i, insns, thumb, pc, mode);
      if !ok {
        RefusedOnce(words, i + 1, insns, thumb, pc, mode);
        return None;
      }
    }
    var fallthrough := Wrap(pc + insns * Width(thumb));
    if uops[|uops| - 1].op.f == End {
      return Some(Block(uops, insns, pc, uops[|uops| - 1].imm, thumb, traits));
    }
    if |uops| == MAX_UOPS {
      return None;
    }
    return Some(Block(uops + [Uop(Op(End, 0, 0, 0, 0), fallthrough, 0, 0)], insns, pc, fallthrough, thumb, traits));
  }

  lemma NoRecords(insns: seq<Word>, thumb: bool, pc: Word, mode: Mode)
    requires |insns| <= MAX_INSNS && Halfwords(insns, thumb)
    ensures Records(insns, 0, thumb, pc, mode) == Some([])
  {
  }

  lemma NoTraits(thumb: bool)
    ensures TraitsOf([], thumb) == {}
  {
  }
}
