/** Structural validation of a record array, and the cheap recheck of a cached one. */
module Validate {
  import opened Words
  import opened Handlers
  import opened Decode
  import opened Program

  // ------------------------------------------------------------ Semantic spans

  function PreflightFamily(load: bool): Family { if load then LdmPreflight else StmPreflight }

  function CommitFamily(load: bool): Family { if load then LdmCommit else StmCommit }

  predicate IsFinish(f: Family, load: bool) { if load then IsLdmFinish(f) else IsStmFinish(f) }

  predicate IsFinishWb(f: Family, load: bool) { if load then f == LdmFinishWb else f == StmFinishWb }

  /** One register record of a block transfer. */
  predicate CommitRecord(u: Uop, load: bool) {
    u.op.f == CommitFamily(load) && u.imm == 0 && u.pcv == 0 && u.meta == 0
  }

  /** Register records in strictly ascending register order. */
  predicate CommitList(commits: seq<Uop>, load: bool) {
    && (forall j :: 0 <= j < |commits| ==> CommitRecord(commits[j], load))
    && (forall j :: 0 < j < |commits| ==> commits[j - 1].op.d < commits[j].op.d)
  }

  function Registers(commits: seq<Uop>): set<nat> {
    set u | u in commits :: u.op.d
  }

  /** The finish record closing a transfer of `n` registers with base `rn`. */
  predicate FinishRecord(u: Uop, n: nat, load: bool) {
    IsFinish(u.op.f, load) && u.imm == n && u.pcv == 0 && u.meta == 0
  }

  /** A preflight, its registers in ascending order and its finish: the length of the whole transfer, or zero. */
  function BlockSpan(uops: seq<Uop>, i: nat, end: nat, load: bool): (span: nat)
    requires i < end <= |uops|
    ensures span != 0 ==> i + span <= end
  {
    var n, rn := uops[i].imm, uops[i].op.d;
    if uops[i].op.f != PreflightFamily(load) || n == 0 || n > (if load then 15 else 16) || i + n + 1 >= end then 0
    else
      var commits, finish := uops[i + 1..i + n + 1], uops[i + n + 1];
      if CommitList(commits, load)
         && FinishRecord(finish, n, load)
         && (IsFinishWb(finish.op.f, load) ==> finish.op.d == rn && rn !in Registers(commits))
      then n + 2 else 0
  }

  /** How many records the semantic instruction starting at `i` takes; zero if none starts there. */
  function Span(uops: seq<Uop>, i: nat, end: nat): (span: nat)
    requires end <= |uops|
    ensures span != 0 ==> i + span <= end
  {
    if i >= end then 0
    else
      var f := uops[i].op.f;
      if IsTerminalBranch(f) then 1
      else if f == Cond || f == End then 0
      else if f == StmPreflight then BlockSpan(uops, i, end, false)
      else if f == LdmPreflight then BlockSpan(uops, i, end, true)
      else if IsShift(f) then
        if i + 1 < end && uops[i + 1].op.f == DpReg then 2
        else if i + 2 < end && IsAddrReg(uops[i + 1].op.f) && (IsDirectRead(uops[i + 2].op.f) || IsDirectWrite(uops[i + 2].op.f)) then 3
        else 0
      else if IsAddrImm(f) then
        if i + 1 < end && (IsDirectRead(uops[i + 1].op.f) || IsDirectWrite(uops[i + 1].op.f)) then 2 else 0
      else if f == VstmWrite then 1
      else if f == DpReg || IsAddrReg(f) || IsDirectRead(f) || IsDirectWrite(f) || f == StmCommit || f == LdmCommit || IsLdmFinish(f) then 0
      else 1
  }

  /** Records taken by the instruction at `i` together with the condition guard in front of it, if any. */
  function Stride(uops: seq<Uop>, i: nat, end: nat): (n: nat)
    requires i < end <= |uops|
    ensures n != 0 ==> i + n <= end
  {
    if uops[i].op.f == Cond then
      var span := Span(uops, i + 1, end);
      if span == 0 || uops[i].meta != span then 0 else span + 1
    else Span(uops, i, end)
  }

  /** Number of semantic instructions from `i` to `end`, if the records divide into whole ones. */
  function Walk(uops: seq<Uop>, i: nat, end: nat): Option<nat>
    requires i <= end <= |uops|
    decreases end - i
  {
    if i == end then Some(0)
    else if Stride(uops, i, end) == 0 then None
    else
      match Walk(uops, i + Stride(uops, i, end), end)
      case None => None
      case Some(n) => Some(n + 1)
  }

  // ------------------------------------------------------------ Records

  function InsnPc(start: Word, k: nat, thumb: bool): Word { Wrap(start + k * Width(thumb)) }

  /** Shape of the record that leaves a block through a branch. */
  predicate TerminalShape(b: Block, u: Uop) {
    && b.insnCount > 0
    && b.exitPc == InsnPc(b.startPc, b.insnCount, b.thumb)
    && if IsIndirectBranch(u.op.f) then
         u.imm == 0 && u.pcv == InsnPc(b.startPc, b.insnCount - 1, b.thumb) && u.meta == b.insnCount * 256 + 1
       else if b.thumb && u.op.f == BranchCond then
         u.imm % 2 == 0 && u.pcv == b.exitPc && u.meta == 0
       else
         !b.thumb && u.imm % 4 == 0 && u.pcv == b.exitPc && u.meta == 0
  }

  predicate GuardMetadata(b: Block, u: Uop) {
    var remaining, completedPlusOne := u.meta % 256, u.meta / 256 % 256;
    && u.meta / 0x1_0000 == 0
    && remaining != 0
    && completedPlusOne != 0
    && completedPlusOne - 1 < b.insnCount
    && remaining == b.insnCount - (completedPlusOne - 1)
    && u.pcv == InsnPc(b.startPc, completedPlusOne - 1, b.thumb)
  }

  predicate VstmImmediate(imm: Word) {
    var first, words := imm % 64, imm / 256 % 64;
    imm == first + words * 256 && 0 < words <= 32 && first + words <= 32
  }

  predicate StoreImmediate(u: Uop) {
    && (if IsStmFinish(u.op.f) then 0 < u.imm <= 16
        else if u.op.f == VstmWrite then VstmImmediate(u.imm)
        else if u.op.f == VfpWrite then (if u.op.d == 0 then u.imm <= 31 else u.imm <= 30 && u.imm % 2 == 0)
        else if IsDirectWriteWb(u.op.f) then u.imm <= 1
        else u.imm == 0)
    && (u.op.f == DirectWriteWbUnpriv ==> u.imm == 1)
  }

  predicate VfpArithImmediate(u: Uop) {
    var rd, rn, rm := u.imm % 256, u.imm / 256 % 256, u.imm / 0x1_0000 % 256;
    && u.imm / 0x100_0000 == 0
    && if u.op.c == 0 then rd <= 31 && rn <= 31 && rm <= 31
       else rd <= 30 && rn <= 30 && rm <= 30 && rd % 2 == 0 && rn % 2 == 0 && rm % 2 == 0
  }

  predicate RecordOk(b: Block, j: nat)
    requires j < |b.uops| - 1
  {
    var u := b.uops[j];
    var f := u.op.f;
    && Legal(u.op)
    && f != End
    && (IsRuntimeGuarded(f) ==> GuardMetadata(b, u))
    && (IsDirectWrite(f) ==> j + 2 == |b.uops| && StoreImmediate(u))
    && (f == VfpArith ==> VfpArithImmediate(u))
    && (IsTerminalBranch(f) ==> j + 2 == |b.uops| && TerminalShape(b, u))
    && (f == DpImm ==> u.meta <= 2)
  }

  // ------------------------------------------------------------ Whole blocks

  /** The state a run starts from: program counter and instruction set of the guest, repetitions, RAM size. */
  datatype Entry = Entry(pc: Word, thumb: bool, blocks: nat, ramSize: nat)

  /** The usual test: no bit in common with its predecessor. */
  predicate PowerOfTwo(n: nat) {
    n != 0 && Logic(AND, n, n - 1, 64) == 0
  }

  ghost predicate EntryOk(b: Block, e: Entry, kind: Mode) {
    && e.blocks > 0
    && 0 < b.insnCount <= MAX_INSNS
    && b.insnCount <= |b.uops| <= MAX_UOPS
    && b.uops[|b.uops| - 1].op.f == End && Legal(b.uops[|b.uops| - 1].op)
    && b.uops[|b.uops| - 1].imm == b.exitPc
    && e.pc == b.startPc
    && e.thumb == b.thumb
    && !(e.blocks > 1 && (DynamicExit in b.traits || b.exitPc != b.startPc))
    && !(Reads(kind) && e.blocks != 1)
    && PowerOfTwo(e.ramSize)
    && e.ramSize <= 0x1_0000_0000
  }

  predicate KindAllows(f: Family, kind: Mode) {
    match kind
    case Flat => !IsDirectRead(f) && !IsDirectWrite(f) && !IsVfp(f)
    case ReadHits => !IsTouchingFlat(f) && !IsDirectWrite(f)
    case MemoryHits => !IsTouchingFlat(f)
  }

  ghost predicate KindOk(uops: seq<Uop>, kind: Mode) {
    forall j :: 0 <= j < |uops| ==> KindAllows(uops[j].op.f, kind)
  }

  ghost predicate CountOk(b: Block)
    requires |b.uops| > 0
  {
    var n := Walk(b.uops, 0, |b.uops| - 1);
    n.Some? && (n.value == b.insnCount || n.value + 1 == b.insnCount)
  }

  /** What the full validator accepts. */
  ghost predicate ValidRun(b: Block, e: Entry, kind: Mode) {
    && EntryOk(b, e, kind)
    && (forall j :: 0 <= j < |b.uops| - 1 ==> RecordOk(b, j))
    && b.traits == TraitsOf(b.uops[..|b.uops| - 1], b.thumb)
    && KindOk(b.uops[..|b.uops| - 1], kind)
    && CountOk(b)
  }

  /** Flags only the last record of a block may set. */
  predicate Closing(x: Trait) {
    match x
    case DirectWrites | VfpDirectWrites | StmDirectWrites | VstmDirectWrites => true
    case DynamicExit | IndirectExit | ThumbConditionalExit => true
    case _ => false
  }

  /** What the cheap recheck of a cached block accepts. */
  predicate ValidDecodedHits(b: Block, pc: Word, thumb: bool, remaining: nat, memoryHits: bool) {
    && 0 < b.insnCount <= remaining
    && b.insnCount <= MAX_INSNS
    && 0 < |b.uops| <= MAX_UOPS
    && b.uops[|b.uops| - 1].op.f == End
    && b.uops[|b.uops| - 1].imm == b.exitPc
    && pc == b.startPc
    && thumb == b.thumb
    && (DirectWrites in b.traits ==> memoryHits)
    && (TouchesMemory in b.traits ==> DirectReads in b.traits || DirectWrites in b.traits)
    && (forall x: Trait :: Closing(x) ==> (x in b.traits <==> |b.uops| > 1 && Marked(x, b.uops[|b.uops| - 2].op.f, b.thumb)))
    && (|b.uops| > 1 && IsTerminalBranch(b.uops[|b.uops| - 2].op.f) ==> TerminalShape(b, b.uops[|b.uops| - 2]))
  }

  // ------------------------------------------------------------ The validators as loops

  /** Scans the register records of a transfer, remembering the previous register and the register mask. */
  method ScanCommits(uops: seq<Uop>, first: nat, n: nat, load: bool) returns (ok: bool, mask: set<nat>)
    requires first + n <= |uops|
    ensures ok <==> CommitList(uops[first..first + n], load)
    ensures ok ==> mask == Registers(uops[first..first + n])
  {
    hide CommitRecord;
    ghost var commits := uops[first..first + n];
    var previous: nat;
    ok, mask, previous := true, {}, 0;
    for j := 0 to n
      invariant ok && CommitList(commits[..j], load)
      invariant mask == Registers(commits[..j])
      invariant j > 0 ==> previous == commits[j - 1].op.d
    {
      var u := uops[first + j];
      assert u == commits[j] && commits[..j + 1] == commits[..j] + [u];
      if !CommitRecord(u, load) || (j > 0 && u.op.d <= previous) {
        return false, mask;
      }
      previous, mask := u.op.d, mask + {u.op.d};
    }
    assert commits[..n] == commits;
  }

  method ScanBlock(uops: seq<Uop>, i: nat, end: nat, load: bool) returns (span: nat)
    requires i < end <= |uops|
    ensures span == BlockSpan(uops, i, end, load)
  {
    hide IsFinish, IsFinishWb, CommitList, Registers;
    var n, rn := uops[i].imm, uops[i].op.d;
    if uops[i].op.f != PreflightFamily(load) || n == 0 || n > (if load then 15 else 16) || i + n + 1 >= end {
      return 0;
    }
    var ok, mask := ScanCommits(uops, i + 1, n, load);
    var finish := uops[i + n + 1];
    if !ok || !FinishRecord(finish, n, load) || (IsFinishWb(finish.op.f, load) && (finish.op.d != rn || rn in mask)) {
      return 0;
    }
    return n + 2;
  }

  method ScanSpan(uops: seq<Uop>, i: nat, end: nat) returns (span: nat)
    requires end <= |uops|
    ensures span == Span(uops, i, end)
  {
    hide IsTerminalBranch, IsShift, IsAddrReg, IsDirectRead, IsDirectWrite, IsAddrImm, IsLdmFinish, BlockSpan;
    if i >= end {
      return 0;
    }
    var f := uops[i].op.f;
    if IsTerminalBranch(f) {
      return 1;
    }
    if f == Cond || f == End {
      return 0;
    }
    if f == StmPreflight {
      span := ScanBlock(uops, i, end, false);
      return;
    }
    if f == LdmPreflight {
      span := ScanBlock(uops, i, end, true);
      return;
    }
    if IsShift(f) {
      if i + 1 < end && uops[i + 1].op.f == DpReg {
        return 2;
      }
      if i + 2 < end && IsAddrReg(uops[i + 1].op.f) && (IsDirectRead(uops[i + 2].op.f) || IsDirectWrite(uops[i + 2].op.f)) {
        return 3;
      }
      return 0;
    }
    if IsAddrImm(f) {
      var pair := i + 1 < end && (IsDirectRead(uops[i + 1].op.f) || IsDirectWrite(uops[i + 1].op.f));
      return if pair then 2 else 0;
    }
    if f == VstmWrite {
      return 1;
    }
    if f == DpReg || IsAddrReg(f) || IsDirectRead(f) || IsDirectWrite(f) || f == StmCommit || f == LdmCommit || IsLdmFinish(f) {
      return 0;
    }
    return 1;
  }

  lemma {:induction false} WalkSplits(uops: seq<Uop>, i: nat, end: nat)
    requires i < end <= |uops|
    ensures Walk(uops, i, end) == if Stride(uops, i, end) == 0 || Walk(uops, i + Stride(uops, i, end), end) == None then None
                                  else Some(Walk(uops, i + Stride(uops, i, end), end).value + 1)
  {
  }

  /** The full validator: one scan of the records, then one walk over the semantic instructions. */
  method ValidateRun(b: Block, e: Entry, kind: Mode) returns (ok: bool)
    ensures ok <==> ValidRun(b, e, kind)
  {
    hide RecordOk, KindAllows, Marks, Stride, PowerOfTwo, Span, TraitsOf, Legal;
    if e.blocks == 0 || b.insnCount == 0 || b.insnCount > MAX_INSNS || |b.uops| < b.insnCount || |b.uops| > MAX_UOPS
       || b.uops[|b.uops| - 1].op.f != End || !Legal(b.uops[|b.uops| - 1].op)
       || b.uops[|b.uops| - 1].imm != b.exitPc || e.pc != b.startPc || e.thumb != b.thumb
       || (e.blocks > 1 && (DynamicExit in b.traits || b.exitPc != b.startPc)) || (Reads(kind) && e.blocks != 1)
       || !PowerOfTwo(e.ramSize) || e.ramSize > 0x1_0000_0000 {
      return false;
    }
    var end := |b.uops| - 1;
    var seen: set<Trait>, allowed := TraitsOf([], b.thumb), true;
    assert b.uops[..0] == [];
    for j := 0 to end
      invariant forall k :: 0 <= k < j ==> RecordOk(b, k)
      invariant seen == TraitsOf(b.uops[..j], b.thumb)
      invariant allowed <==> KindOk(b.uops[..j], kind)
    {
      if !RecordOk(b, j) {
        return false;
      }
      TraitsStep(b.uops[..j], b.uops[j], b.thumb);
      assert b.uops[..j + 1] == b.uops[..j] + [b.uops[j]];
      assert KindOk(b.uops[..j + 1], kind) <==> KindOk(b.uops[..j], kind) && KindAllows(b.uops[j].op.f, kind) by {
        assert b.uops[..j + 1][j] == b.uops[j];
        assert forall k :: 0 <= k < j ==> b.uops[..j + 1][k] == b.uops[..j][k];
      }
      seen := seen + Marks(b.uops[j].op.f, b.thumb);
      allowed := allowed && KindAllows(b.uops[j].op.f, kind);
    }
    if b.traits != seen || !allowed {
      return false;
    }
    var i, semantic := 0, 0;
    while i < end
      invariant i <= end
      invariant Walk(b.uops, 0, end) == if Walk(b.uops, i, end) == None then None else Some(Walk(b.uops, i, end).value + semantic)
    {
      var stride := ScanStride(b.uops, i, end);
      WalkSplits(b.uops, i, end);
      if stride == 0 {
        return false;
      }
      i, semantic := i + stride, semantic + 1;
    }
    return semantic == b.insnCount || semantic + 1 == b.insnCount;
  }

  method ScanStride(uops: seq<Uop>, i: nat, end: nat) returns (stride: nat)
    requires i < end <= |uops|
    ensures stride == Stride(uops, i, end)
  {
    if uops[i].op.f == Cond {
      var span := ScanSpan(uops, i + 1, end);
      stride := if span == 0 || uops[i].meta != span then 0 else span + 1;
    } else {
      stride := ScanSpan(uops, i, end);
    }
  }
}
