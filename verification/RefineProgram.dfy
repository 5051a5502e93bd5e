/** A decoded block, run by threaded dispatch, is the architecture executing live memory. */
module RefineProgram {
  import opened Words
  import opened Handlers
  import opened Decode
  import opened Program
  import opened Validate
  import opened Agreement
  import opened Encodings
  import opened Machine
  import opened ExecVfp
  import opened Exec
  import opened RefineMemory
  import opened Fields
  import opened Shifter
  import opened RefineInsn
  import opened RefineThumb
  import Arch

  // ------------------------------------------------------------ What the architecture does

  /** The architecture executing the first `k` of a list of instructions, each at its own address. */
  function Straight(insns: seq<Word>, k: nat, thumb: bool, pc: Word, s: State, env: Env): (r: Arch.Result)
    requires k <= |insns|
  {
    if k == 0 then Arch.Done(s, pc)
    else
      match Straight(insns, k - 1, thumb, pc, s, env)
      case Undefined => Arch.Undefined
      case Done(t, at) =>
        if Wide(t) && t.thumb == thumb && at == InsnPc(pc, k - 1, thumb) then Arch.Step(insns[k - 1], at, t, env.mmu, env.priv)
        else Arch.Undefined
  }

  lemma LastInside(k: nat, thumb: bool, room: int)
    requires k > 0 && k * Width(thumb) <= room
    ensures 0 <= (k - 1) * Width(thumb) <= room - Width(thumb)
  {
    assert k * Width(thumb) == (k - 1) * Width(thumb) + Width(thumb);
  }

  /** The architecture fetching each instruction from RAM as it is at that moment, code at `code`. */
  function Live(code: nat, k: nat, thumb: bool, pc: Word, s: State, env: Env): (r: Arch.Result) {
    if k == 0 then Arch.Done(s, pc)
    else
      match Live(code, k - 1, thumb, pc, s, env)
      case Undefined => Arch.Undefined
      case Done(t, at) =>
        if Wide(t) && t.thumb == thumb && at == InsnPc(pc, k - 1, thumb) && code + k * Width(thumb) <= |t.ram|
        then
          LastInside(k, thumb, |t.ram| - code);
          Arch.Step(ReadLe(t.ram[code..], (k - 1) * Width(thumb), thumb), at, t, env.mmu, env.priv)
        else Arch.Undefined
  }

  // ------------------------------------------------------------ What a falling run keeps

  /** A record that may change RAM. */
  predicate Storing(u: Uop) { IsDirectWrite(u.op.f) || u.op.f == StmCommit || FlatStore(u) }

  /** Flat stores, which may stand anywhere in a block. */
  predicate FlatStore(u: Uop) { (u.op.f == FlatWord && u.op.b == 1) || (u.op.f == FlatSp && u.op.c == 1) }

  ghost predicate Kept(u: Uop, m: M, o: Outcome) {
    o.Next? || o.Skip? ==>
      o.m.s.thumb == m.s.thumb && |o.m.s.ram| == |m.s.ram| && (!Storing(u) ==> o.m.s.ram == m.s.ram)
  }

  lemma AluKeeps(u: Uop, m: M)
    requires Wide(m.s) && Legal(u.op)
    ensures Kept(u, m, AluStep(u, m))
  {
    hide HostShiftImm, HostShiftReg, HostAlu, AddWithCarry, And, Or, Xor, Not, HostCondition, IsDirectWrite;
  }

  lemma TransferKeeps(u: Uop, m: M, env: Env, kind: nat, rd: nat, wb: Option<nat>, unprivileged: bool)
    requires Ready(m, env) && (wb.Some? ==> wb.value < 15)
    ensures IsDirectWrite(u.op.f) ==> Kept(u, m, HostWrite(m, u, env, kind, rd, wb, unprivileged))
    ensures rd < 15 ==> Kept(u, m, HostRead(m, env, kind, rd))
    ensures Kept(u, m, HostFinish(m, u, wb, true)) && Kept(u, m, HostFinish(m, u, wb, false))
    ensures u.op.f == StmCommit ==> Kept(u, m, HostStmCommit(m, rd))
    ensures rd < 15 ==> Kept(u, m, HostLdmCommit(m, rd))
  {
    hide Lookup, LoadBytes, Extended, StoreBytes, IsDirectWrite;
  }

  lemma PreflightKeeps(u: Uop, m: M, env: Env, load: bool, pre: bool, up: bool, rn: nat)
    requires Ready(m, env) && rn < 15
    ensures Kept(u, m, HostPreflight(m, u, env, if load then Some(env.dread) else env.dwrite, load, pre, up, rn))
  {
    hide Lookup, BlockAddresses, IsDirectWrite;
  }

  lemma FlatKeeps(u: Uop, m: M, store: bool, rd: nat, base: Word)
    requires Wide(m.s) && rd < 15 && (store ==> FlatStore(u))
    ensures Kept(u, m, HostFlat(m, u, store, rd, base))
  {
    hide LoadBytes, StoreBytes, And, IsDirectWrite;
  }

  lemma VfpReadKeeps(u: Uop, m: M, env: Env, first: nat, dbl: bool)
    requires Ready(m, env) && first + WordsOf(dbl) <= 32
    ensures Kept(u, m, HostVfpRead(m, env, first, dbl))
  {
    hide Lookup, LoadBytes, Enabled, IsDirectWrite;
  }

  lemma VfpWriteKeeps(u: Uop, m: M, env: Env, first: nat, dbl: bool)
    requires Ready(m, env) && first + WordsOf(dbl) <= 32 && IsDirectWrite(u.op.f)
    ensures Kept(u, m, HostVfpWrite(m, env, first, dbl))
  {
    hide Lookup, StoreBytes, Enabled;
  }

  lemma VstmKeeps(u: Uop, m: M, env: Env, imm: Word, mode: nat, rn: nat)
    requires Ready(m, env) && rn < 15 && IsDirectWrite(u.op.f)
    ensures Kept(u, m, HostVstm(m, env, imm, mode, rn))
  {
    hide Lookup, Spread, VstmAddresses, Enabled;
  }

  lemma MoveKeeps(u: Uop, s: State)
    requires Wide(s) && u.op.c < 15 && u.op.d < 15 && InFile(u) && IsVfpMove(u.op.f)
    ensures var t := MoveRecord(u, s); t.Some? ==> t.value.thumb == s.thumb && t.value.ram == s.ram
  {
    hide Enabled;
  }

  lemma SystemKeeps(u: Uop, s: State, priv: bool)
    requires Wide(s) && u.op.c < 3 && u.op.d < 15 && IsVfpSystem(u.op.f)
    ensures var t := SystemRecord(u, s, priv); t.Some? ==> t.value.thumb == s.thumb && t.value.ram == s.ram
  {
    hide Enabled, On, And;
  }

  lemma VfpKeeps(u: Uop, m: M, env: Env)
    requires Ready(m, env) && Legal(u.op)
    ensures Kept(u, m, VfpStep(u, m, env))
  {
    hide MoveRecord, SystemRecord, DataRecord, HostVfpRead, HostVfpWrite, HostVstm;
    if InFile(u) {
      if IsVfpMove(u.op.f) {
        MoveKeeps(u, m.s);
      } else if IsVfpSystem(u.op.f) {
        SystemKeeps(u, m.s, env.priv);
      } else if u.op.f == VfpRead {
        VfpReadKeeps(u, m, env, u.imm, u.op.d == 1);
      } else if u.op.f == VfpWrite {
        VfpWriteKeeps(u, m, env, u.imm, u.op.d == 1);
      } else if u.op.f == VstmWrite {
        VstmKeeps(u, m, env, u.imm, u.op.c, u.op.d);
      }
    }
  }

  lemma MemoryKeeps(u: Uop, m: M, env: Env)
    requires Ready(m, env) && Legal(u.op)
    ensures Kept(u, m, MemoryStep(u, m, env))
  {
    hide HostWrite, HostRead, HostFinish, HostStmCommit, HostLdmCommit, HostPreflight, HostFlat;
    var op := u.op;
    match op.f
    case DirectRead | DirectWrite => TransferKeeps(u, m, env, op.c, op.d, None, false);
    case DirectWriteWb => TransferKeeps(u, m, env, op.b, op.c, Some(op.d), false);
    case DirectWriteWbUnpriv => TransferKeeps(u, m, env, op.b, op.c, Some(op.d), true);
    case StmPreflight => PreflightKeeps(u, m, env, false, op.b == 1, op.c == 1, op.d);
    case LdmPreflight => PreflightKeeps(u, m, env, true, op.b == 1, op.c == 1, op.d);
    case StmFinish | LdmFinish => TransferKeeps(u, m, env, 0, op.d, None, false);
    case StmFinishWb | LdmFinishWb => TransferKeeps(u, m, env, 0, op.d, Some(op.d), false);
    case StmCommit | LdmCommit => TransferKeeps(u, m, env, 0, op.d, None, false);
    case FlatWord => FlatKeeps(u, m, op.b == 1, op.c, m.s.r[op.d]);
    case FlatSp => FlatKeeps(u, m, op.c == 1, op.d, m.s.r[13]);
    case _ =>
  }

  lemma KeptOther(u: Uop, m: M)
    ensures Kept(u, m, Other)
  {
  }

  lemma BranchKeeps(u: Uop, m: M)
    requires Wide(m.s) && Legal(u.op)
    ensures Kept(u, m, BranchStep(u, m))
  {
  }

  /** Only a store record changes RAM, and only an exit changes the instruction set. */
  lemma StepKeeps(u: Uop, m: M, env: Env)
    requires Ready(m, env)
    ensures Kept(u, m, Step(u, m, env))
  {
    hide AluStep, MemoryStep, VfpStep, BranchStep, Kept;
    KeptOther(u, m);
    if Legal(u.op) {
      AluKeeps(u, m);
      MemoryKeeps(u, m, env);
      VfpKeeps(u, m, env);
      BranchKeeps(u, m);
    }
  }

  lemma StepLeaves(u: Uop, m: M, env: Env)
    requires Ready(m, env)
    ensures var o := Step(u, m, env);
            o.Exit? ==> (IsTerminalBranch(u.op.f) || u.op.f == End) && Ready(o.m, env) && |o.m.s.ram| == |m.s.ram|
  {
    hide AluStep, MemoryStep, VfpStep, BranchStep;
    if Legal(u.op) {
      AluStays(u, m);
      MemoryStays(u, m, env);
      VfpStays(u, m, env);
      BranchLeaves(u, m);
    }
  }

  lemma AluStays(u: Uop, m: M)
    requires Wide(m.s) && Legal(u.op)
    ensures !AluStep(u, m).Exit?
  {
    hide HostShiftImm, HostShiftReg, HostDp;
  }

  lemma MemoryStays(u: Uop, m: M, env: Env)
    requires Ready(m, env) && Legal(u.op)
    ensures !MemoryStep(u, m, env).Exit?
  {
    hide Lookup, StoreBytes, LoadBytes, BlockAddresses, Extended, And;
  }

  lemma VfpStays(u: Uop, m: M, env: Env)
    requires Ready(m, env) && Legal(u.op)
    ensures !VfpStep(u, m, env).Exit?
  {
    hide Lookup, StoreBytes, LoadBytes, VstmAddresses, Spread, MoveRecord, SystemRecord, DataRecord, InFile, Enabled;
  }

  lemma BranchLeaves(u: Uop, m: M)
    requires Wide(m.s) && Legal(u.op)
    ensures var o := BranchStep(u, m);
            o.Exit? ==> (IsTerminalBranch(u.op.f) || u.op.f == End) && Wide(o.m.s) && |o.m.s.ram| == |m.s.ram|
  {
    hide Or, HostCondition;
  }

  ghost predicate Leaving(u: Uop) { IsTerminalBranch(u.op.f) || u.op.f == End }

  lemma {:induction false} RunKeeps(t: seq<Uop>, i: nat, m: M, env: Env)
    requires Ready(m, env) && i <= |t|
    ensures Run(t, i, m, env).Fell? ==>
              var s := Run(t, i, m, env).m.s;
              && s.thumb == m.s.thumb && |s.ram| == |m.s.ram|
              && ((forall k :: i <= k < |t| ==> !Storing(t[k])) ==> s.ram == m.s.ram)
    ensures Run(t, i, m, env).Left? ==> exists k :: i <= k < |t| && Leaving(t[k])
    ensures Run(t, i, m, env).Left? ==> Ready(Run(t, i, m, env).m, env) && |Run(t, i, m, env).m.s.ram| == |m.s.ram|
    decreases |t| - i
  {
    hide Step, Leaving, Storing;
    if i < |t| {
      StepKeeps2(t[i], m, env);
      var o := Step(t[i], m, env);
      if o.Next? {
        RunKeeps(t, i + 1, o.m, env);
      } else if o.Skip? && i + 1 + o.n <= |t| {
        RunKeeps(t, i + 1 + o.n, o.m, env);
      }
    }
  }

  lemma StepKeeps2(u: Uop, m: M, env: Env)
    requires Ready(m, env)
    ensures var o := Step(u, m, env);
            && (o.Next? || o.Skip? ==>
                  o.m.s.thumb == m.s.thumb && |o.m.s.ram| == |m.s.ram| && (!Storing(u) ==> o.m.s.ram == m.s.ram))
            && (o.Exit? ==> Leaving(u) && Ready(o.m, env) && |o.m.s.ram| == |m.s.ram|)
  {
    hide Step;
    StepKeeps(u, m, env);
    StepLeaves(u, m, env);
  }

  // ------------------------------------------------------------ Where stores and exits may stand

  /** Inside a block transfer only register records, and its finish last. */
  lemma BlockRecordsOnly(s: seq<Uop>, i: nat, k: nat, load: bool)
    requires i < |s| && BlockSpan(s, i, |s|, load) != 0 && i < k < i + BlockSpan(s, i, |s|, load)
    ensures k < i + BlockSpan(s, i, |s|, load) - 1 ==> s[k].op.f == CommitFamily(load)
    ensures IsFinish(s[i + BlockSpan(s, i, |s|, load) - 1].op.f, load)
  {
    hide Registers;
    var n := s[i].imm;
    if k < i + n + 1 {
      var commits := s[i + 1..i + n + 1];
      assert commits[k - i - 1] == s[k];
      assert CommitRecord(commits[k - i - 1], load);
    }
  }

  /** A block-store register record is followed by the finish that closes its transfer. */
  lemma CommitNeedsFinish(s: seq<Uop>, i: nat, k: nat)
    requires i <= k < i + Span(s, i, |s|) && s[k].op.f == StmCommit
    ensures IsStmFinish(s[i + Span(s, i, |s|) - 1].op.f)
  {
    hide BlockSpan;
    if s[i].op.f == StmPreflight || s[i].op.f == LdmPreflight {
      BlockRecordsOnly(s, i, k, s[i].op.f == LdmPreflight);
    }
  }

  /** Stores and exits belong to the last instruction of a block, flat stores excepted. */
  lemma OnlyLastStores(t: seq<Uop>, p: Place, k: nat)
    requires p.i < p.insns <= MAX_INSNS && Segmented(t, p) && k < |t| && (Storing(t[k]) || Leaving(t[k]))
    ensures p.i + 1 == p.insns || (!Reads(p.mode) && FlatStore(t[k]))
  {
    hide Stride, RecordFinal, IsDirectWrite, IsTerminalBranch;
    PlacedLast(t[k], k + 1 == |t|, p);
    if t[k].op.f == StmCommit {
      StrideFinish(t, k);
      PlacedLast(t[|t| - 1], true, p);
      FinishStores(t[|t| - 1].op.f);
    }
  }

  lemma StrideFinish(t: seq<Uop>, k: nat)
    requires 0 < |t| && Stride(t, 0, |t|) == |t| && k < |t| && t[k].op.f == StmCommit
    ensures IsStmFinish(t[|t| - 1].op.f)
  {
    hide Span;
    CommitNeedsFinish(t, if t[0].op.f == Cond then 1 else 0, k);
  }

  lemma FinishStores(f: Family)
    ensures IsStmFinish(f) ==> IsDirectWrite(f)
  {
  }

  lemma PlacedLast(u: Uop, last: bool, p: Place)
    requires p.i < p.insns <= MAX_INSNS && RecordFinal(u, last, p)
    ensures IsDirectWrite(u.op.f) || IsTerminalBranch(u.op.f) ==> p.i + 1 == p.insns
    ensures FlatStore(u) ==> !Reads(p.mode)
  {
    hide IsDirectWrite, IsTerminalBranch, Legal, KindAllows;
    FlatKind(u, p.mode);
  }

  lemma FlatKind(u: Uop, mode: Mode)
    ensures FlatStore(u) && KindAllows(u.op.f, mode) ==> !Reads(mode)
  {
  }

  // ------------------------------------------------------------ One instruction of a block

  lemma SegmentRefines(insn: Word, p: Place, m: M, env: Env)
    requires p.i < p.insns <= MAX_INSNS && p.pc % Width(p.thumb) == 0 && (p.thumb ==> insn < 0x1_0000)
    requires Segment(insn, p.i, p.insns, p.thumb, p.pc, p.mode).Some?
    requires Ready(m, env) && Suits(p.mode, env, |m.s.ram|) && m.s.thumb == p.thumb
    ensures Follows(p.mode, Run(Segment(insn, p.i, p.insns, p.thumb, p.pc, p.mode).value, 0, m, env),
                    Arch.Step(insn, InsnPc(p.pc, p.i, p.thumb), m.s, env.mmu, env.priv), m.s, InsnPc(p.pc, p.i + 1, p.thumb))
  {
    hide Run, Arch.ThumbStep, Arch.ArmStep, Follows, DecodeArm, DecodeThumb, Placed, Suits;
    var t := Segment(insn, p.i, p.insns, p.thumb, p.pc, p.mode).value;
    WrapWrap(p.pc + p.i * Width(p.thumb), Width(p.thumb));
    if p.thumb {
      ThumbRefines(insn, p.i, p.insns, p.pc, p.mode, t, m, env);
    } else {
      ArmRefines(insn, p.i, p.insns, p.pc, p.mode, t, m, env);
    }
  }

  /** None of the first `k` instructions is fetched from memory a previous one of them has written. */
  ghost predicate Quiet(k: nat, insns: seq<Word>, thumb: bool, pc: Word, s: State, env: Env) {
    && k <= |insns|
    && forall j :: 0 <= j < k ==> Straight(insns, j, thumb, pc, s, env).Done? && Straight(insns, j, thumb, pc, s, env).s.ram == s.ram
  }

  /** Records none of which stores but in the last instruction: any accepted under the cache-hit contracts. */
  ghost predicate StoresLast(uops: seq<Uop>, mode: Mode) {
    Reads(mode) || forall k :: 0 <= k < |uops| ==> !FlatStore(uops[k])
  }

  /** The run has left or refused with an exact architectural prefix; flat runs only where the architecture defines every access. */
  ghost predicate Settled(run: Stop, insns: seq<Word>, uops: seq<Uop>, p: Place, s: State, env: Env) {
    || (!Reads(p.mode) && Straight(insns, |insns|, p.thumb, p.pc, s, env).Undefined?)
    || match run
       case Left(m, at) =>
         && Straight(insns, |insns|, p.thumb, p.pc, s, env) == Arch.Done(m.s, at)
         && (StoresLast(uops, p.mode) ==> Quiet(|insns|, insns, p.thumb, p.pc, s, env))
       case Missed(m, j) => j < |uops| && exists k :: Refused(k, uops[j], m.s, insns, uops, p, s, env)
       case _ => false
  }

  /** A refusing record names the instruction it belongs to; everything before it has retired and nothing else has happened. */
  ghost predicate Refused(k: nat, u: Uop, now: State, insns: seq<Word>, uops: seq<Uop>, p: Place, s: State, env: Env) {
    && k < |insns|
    && u.pcv == InsnPc(p.pc, k, p.thumb)
    && u.meta == (k + 1) * 256 + (|insns| - k)
    && Straight(insns, k, p.thumb, p.pc, s, env) == Arch.Done(now, u.pcv)
    && (StoresLast(uops, p.mode) ==> Quiet(k, insns, p.thumb, p.pc, s, env))
  }

  /** The run stands before instruction `k` with everything earlier retired. */
  ghost predicate Standing(mk: M, k: nat, insns: seq<Word>, uops: seq<Uop>, p: Place, s: State, env: Env) {
    && Ready(mk, env) && k <= |insns|
    && Straight(insns, k, p.thumb, p.pc, s, env) == Arch.Done(mk.s, InsnPc(p.pc, k, p.thumb))
    && mk.s.thumb == p.thumb && |mk.s.ram| == |s.ram|
    && (StoresLast(uops, p.mode) ==> Quiet(k, insns, p.thumb, p.pc, s, env) && (k < |insns| ==> mk.s.ram == s.ram))
  }

  /** Once undefined, the architecture stays so. */
  lemma {:induction false} UndefinedOn(insns: seq<Word>, j: nat, k: nat, thumb: bool, pc: Word, s: State, env: Env)
    requires j <= k <= |insns| && Straight(insns, j, thumb, pc, s, env).Undefined?
    ensures Straight(insns, k, thumb, pc, s, env).Undefined?
  {
    hide Arch.Step;
    if j < k {
      UndefinedOn(insns, j, k - 1, thumb, pc, s, env);
    }
  }

  /** The next architectural step from a standing run. */
  lemma NextStep(insns: seq<Word>, p: Place, uops: seq<Uop>, mk: M, s: State, env: Env)
    requires p.i < p.insns == |insns| && Standing(mk, p.i, insns, uops, p, s, env)
    ensures Straight(insns, p.i + 1, p.thumb, p.pc, s, env) == Arch.Step(insns[p.i], InsnPc(p.pc, p.i, p.thumb), mk.s, env.mmu, env.priv)
    ensures StoresLast(uops, p.mode) ==> Quiet(p.i + 1, insns, p.thumb, p.pc, s, env)
  {
    hide Arch.Step, StoresLast;
  }

  lemma OneMore(insns: seq<Word>, p: Place, before: seq<Uop>, rest: seq<Uop>, mk: M, s: State, env: Env)
      returns (settled: bool, next: M)
    requires p.i < p.insns == |insns| <= MAX_INSNS && p.pc % Width(p.thumb) == 0 && Halfwords(insns, p.thumb)
    requires Segment(insns[p.i], p.i, p.insns, p.thumb, p.pc, p.mode).Some?
    requires var t := Segment(insns[p.i], p.i, p.insns, p.thumb, p.pc, p.mode).value;
             Standing(mk, p.i, insns, before + t + rest, p, s, env)
    requires Suits(p.mode, env, |s.ram|)
    ensures var t := Segment(insns[p.i], p.i, p.insns, p.thumb, p.pc, p.mode).value;
            var uops := before + t + rest;
            if settled then Settled(Run(uops, |before|, mk, env), insns, uops, p, s, env)
            else Standing(next, p.i + 1, insns, uops, p, s, env)
                 && Run(uops, |before|, mk, env) == Run(uops, |before| + |t|, next, env) && t[|t| - 1].op.f != End
  {
    hide Run, Segment, Straight, Arch.Step, Suits, Segmented, Storing, Leaving, FlatStore, StoresLast, Quiet;
    var t := Segment(insns[p.i], p.i, p.insns, p.thumb, p.pc, p.mode).value;
    var uops := before + t + rest;
    SegmentRefines(insns[p.i], p, mk, env);
    NextStep(insns, p, uops, mk, s, env);
    settled, next := true, mk;
    var run := Run(t, 0, mk, env);
    if !Agrees(run, Arch.Step(insns[p.i], InsnPc(p.pc, p.i, p.thumb), mk.s, env.mmu, env.priv), mk.s, InsnPc(p.pc, p.i + 1, p.thumb)) {
      UndefinedOn(insns, p.i + 1, |insns|, p.thumb, p.pc, s, env);
      return;
    }
    SegmentSegmented(insns[p.i], p);
    RunWithin(before, t, rest, 0, mk, env);
    RunKeeps(t, 0, mk, env);
    match run
    case Fell(m1) =>
      settled, next := false, m1;
      EndLeaves(t, p, mk, env);
      if p.i + 1 < |insns| && StoresLast(uops, p.mode) {
        NothingStored(t, p, before, rest);
      }
    case Left(m1, at) =>
      var k :| 0 <= k < |t| && Leaving(t[k]);
      OnlyLastStores(t, p, k);
      LeavingStores(t[k]);
    case Missed(m1, at) =>
      GuardNames(t, p, at);
      assert uops[|before| + at] == t[at];
      assert Refused(p.i, t[at], m1.s, insns, uops, p, s, env);
  }

  lemma LeavingStores(u: Uop)
    requires Leaving(u)
    ensures !FlatStore(u)
  {
  }

  lemma NothingStored(t: seq<Uop>, p: Place, before: seq<Uop>, rest: seq<Uop>)
    requires p.i + 1 < p.insns <= MAX_INSNS && Segmented(t, p) && StoresLast(before + t + rest, p.mode)
    ensures forall k :: 0 <= k < |t| ==> !Storing(t[k])
  {
    hide Segmented, Storing, FlatStore;
    forall k | 0 <= k < |t|
      ensures !Storing(t[k])
    {
      assert (before + t + rest)[|before| + k] == t[k];
      if Storing(t[k]) {
        OnlyLastStores(t, p, k);
      }
    }
  }

  /** An instruction that is a bare fixed exit leaves. */
  lemma EndLeaves(t: seq<Uop>, p: Place, m: M, env: Env)
    requires p.i < p.insns <= MAX_INSNS && Segmented(t, p) && Ready(m, env) && Run(t, 0, m, env).Fell?
    ensures t[|t| - 1].op.f != End
  {
    hide Step, Stride, IsRuntimeGuarded, IsDirectWrite, IsTerminalBranch, KindAllows, StoreImmediate;
    if t[|t| - 1].op.f == End {
      FixedExit(t[0], m, env);
    }
  }

  lemma FixedExit(u: Uop, m: M, env: Env)
    requires Ready(m, env) && u.op.f == End && Legal(u.op)
    ensures Step(u, m, env) == Exit(m, u.imm)
  {
  }

  lemma GuardNames(t: seq<Uop>, p: Place, at: nat)
    requires p.i < p.insns <= MAX_INSNS && Segmented(t, p) && at < |t| && IsRuntimeGuarded(t[at].op.f)
    ensures t[at].pcv == InsnPc(p.pc, p.i, p.thumb) && t[at].meta == (p.i + 1) * 256 + (p.insns - p.i)
  {
    hide Stride, IsRuntimeGuarded, IsDirectWrite, IsTerminalBranch, Legal, KindAllows, StoreImmediate;
    assert RecordFinal(t[at], at + 1 == |t|, p);
  }

  // ------------------------------------------------------------ Whole blocks

  lemma {:induction false} Upto(insns: seq<Word>, k: nat, p: Place, uops: seq<Uop>, m: M, env: Env) returns (settled: bool, mk: M)
    requires k <= |insns| == p.insns <= MAX_INSNS && p.pc % Width(p.thumb) == 0 && Halfwords(insns, p.thumb)
    requires Records(insns, k, p.thumb, p.pc, p.mode).Some?
    requires var r := Records(insns, k, p.thumb, p.pc, p.mode).value; |r| <= |uops| && r == uops[..|r|]
    requires Ready(m, env) && Suits(p.mode, env, |m.s.ram|) && m.s.thumb == p.thumb
    ensures var r := Records(insns, k, p.thumb, p.pc, p.mode).value;
            if settled then Settled(Run(uops, 0, m, env), insns, uops, p, m.s, env)
            else Standing(mk, k, insns, uops, p, m.s, env) && Run(uops, 0, m, env) == Run(uops, |r|, mk, env)
                 && (k > 0 ==> r[|r| - 1].op.f != End)
  {
    hide Run, Segment, Appended, Suits, Settled, Standing, Records;
    if k == 0 {
      settled, mk := false, m;
      StandsAtStart(insns, p, uops, m, env);
    } else {
      RecordsGrow(insns, k, p);
      var r := Records(insns, k, p.thumb, p.pc, p.mode).value;
      var before := Records(insns, k - 1, p.thumb, p.pc, p.mode).value;
      var t := Segment(insns[k - 1], k - 1, |insns|, p.thumb, p.pc, p.mode).value;
      assert before == uops[..|before|] by {
        assert r[..|before|] == before;
      }
      settled, mk := Upto(insns, k - 1, p, uops, m, env);
      if !settled {
        var rest := uops[|r|..];
        assert uops == before + t + rest;
        PlaceOnly(mk, k - 1, insns, uops, p, m.s, env);
        settled, mk := OneMore(insns, p.(i := k - 1), before, rest, mk, m.s, env);
        PlaceOnly(mk, k, insns, uops, p, m.s, env);
        SettledPlace(Run(uops, 0, m, env), insns, uops, p, k - 1, m.s, env);
        assert r[|r| - 1] == t[|t| - 1];
      }
    }
  }

  /** The index of a place says nothing about where a run stands or ends. */
  lemma PlaceOnly(mk: M, k: nat, insns: seq<Word>, uops: seq<Uop>, p: Place, s: State, env: Env)
    ensures forall i :: Standing(mk, k, insns, uops, p.(i := i), s, env) <==> Standing(mk, k, insns, uops, p, s, env)
  {
    hide Straight, StoresLast, Quiet;
  }

  lemma SettledPlace(run: Stop, insns: seq<Word>, uops: seq<Uop>, p: Place, i: nat, s: State, env: Env)
    ensures Settled(run, insns, uops, p.(i := i), s, env) ==> Settled(run, insns, uops, p, s, env)
  {
    hide Straight, StoresLast, Quiet;
    if run.Missed? && run.at < |uops| {
      forall k | Refused(k, uops[run.at], run.m.s, insns, uops, p.(i := i), s, env)
        ensures Refused(k, uops[run.at], run.m.s, insns, uops, p, s, env)
      {
      }
    }
  }

  lemma StandsAtStart(insns: seq<Word>, p: Place, uops: seq<Uop>, m: M, env: Env)
    requires |insns| <= MAX_INSNS && Halfwords(insns, p.thumb) && Ready(m, env) && m.s.thumb == p.thumb
    ensures Records(insns, 0, p.thumb, p.pc, p.mode) == Some([]) && Standing(m, 0, insns, uops, p, m.s, env)
  {
    hide StoresLast;
  }

  lemma RecordsGrow(insns: seq<Word>, k: nat, p: Place)
    requires 0 < k <= |insns| <= MAX_INSNS && Halfwords(insns, p.thumb) && Records(insns, k, p.thumb, p.pc, p.mode).Some?
    ensures Records(insns, k - 1, p.thumb, p.pc, p.mode).Some?
    ensures var t := Segment(insns[k - 1], k - 1, |insns|, p.thumb, p.pc, p.mode);
            t.Some? && t.value != [] && Records(insns, k, p.thumb, p.pc, p.mode).value == Records(insns, k - 1, p.thumb, p.pc, p.mode).value + t.value
  {
    hide Segment;
  }

  /** Block refinement. A decoded block either leaves with all its instructions retired, in the architecture's state and at its
      program counter, or refuses at a record whose metadata names the first unretired instruction, in the architecture's
      state before that instruction. */
  lemma BlockRefines(insns: seq<Word>, p: Place, b: Block, m: M, env: Env)
    requires |insns| == p.insns && Halfwords(insns, p.thumb) && DecodeProgram(insns, p.thumb, p.pc, p.mode) == Some(b)
    requires Ready(m, env) && Suits(p.mode, env, |m.s.ram|) && m.s.thumb == p.thumb
    ensures Settled(Run(b.uops, 0, m, env), insns, b.uops, p, m.s, env)
  {
    hide Run, Suits, Segment, Settled, Standing, TraitsOf, Appended;
    var n := |insns|;
    var r := Records(insns, n, p.thumb, p.pc, p.mode).value;
    assert r == b.uops[..|r|];
    var settled, mk := Upto(insns, n, p, b.uops, m, env);
    if !settled {
      Closed(insns, p, b, m, mk, env);
    }
  }

  /** A VFP unit that is off. */
  function NoVfp(): Vfp { Vfp(seq(32, i => 0), 0, 0, false, (op, f, mode, a, b) => (0, Raised(false, false, false, false, false))) }

  /** The theorem speaks about something: the Thumb branch to itself, on a machine with empty caches. */
  lemma BlockRefinesApplies()
    ensures var insns: seq<Word> := [0xe7fe];
            var m := M(State(seq(15, i => 0), Flags(false, false, false, false), true, NoVfp(), [], 0, 0),
                       Scratch(false, 0, 0, 0, Flags(false, false, false, false)));
            var env := Env(seq(64, i => CacheEntry(None, 0, 0)), None, 0, true, Mmu(map[], map[], true));
            && Halfwords(insns, true) && DecodeProgram(insns, true, 0x1000, MemoryHits).Some?
            && Ready(m, env) && Suits(MemoryHits, env, |m.s.ram|) && m.s.thumb
  {
    var insns: seq<Word> := [0xe7fe];
    SelfBranchFields();
    SelfBranchRecords(insns);
  }

  /** Folding translation of every block. */
  ghost function Folding(size: nat): map<(Word, bool), nat>
    requires size > 0
  {
    map va: Word, priv: bool | va % BLOCK == 0 :: (va, priv) := va % size
  }

  /** So do its flat cases: every RAM size of a power of two from one block up has the folding translation they assume. */
  lemma FlatApplies(n: nat, empty: seq<CacheEntry>, gen: Word, priv: bool)
    requires 10 <= n <= 32 && |empty| == 64
    ensures Folded(Env(empty, None, gen, priv, Mmu(Folding(Pow2(n)), Folding(Pow2(n)), false)), Pow2(n))
  {
    hide Pow2, BlockBase;
    var size := Pow2(n);
    forall va: Word, p: bool
      ensures Translate(Folding(size), va, p) == Some(va % size)
    {
      FoldedBlock(va, n);
    }
  }

  lemma FoldedBlock(va: Word, n: nat)
    requires n >= 10
    ensures 0 <= BlockBase(va) < 0x1_0000_0000 && BlockBase(va) % BLOCK == 0 && BlockBase(va) % Pow2(n) + va % BLOCK == va % Pow2(n)
  {
    Pow2Small();
    assert Pow2(10) == 4 * Pow2(8);
    Pow2Sum(10, n - 10);
    hide Pow2;
    var q: int, r: int := va / BLOCK, va % BLOCK;
    var p := Pow2(n - 10);
    var a, b := q / p, q % p;
    DivModFacts(q, p);
    assert q == p * a + b;
    Grouped(p, a, b, r);
    var base: int := BlockBase(va);
    assert base == BLOCK * q;
    Unique(base, BLOCK * p, a, BLOCK * b);
    Unique(va, BLOCK * p, a, BLOCK * b + r);
    Unique(base, BLOCK, q, 0);
  }

  lemma Grouped(p: int, a: int, b: int, r: int)
    requires 0 <= b < p && 0 <= r < 1024
    ensures 1024 * (p * a + b) + r == 1024 * p * a + (1024 * b + r)
    ensures 1024 * (p * a + b) == 1024 * p * a + 1024 * b
    ensures 0 <= 1024 * b + r < 1024 * p
  {
  }

  lemma SelfBranchFields()
    ensures Field(0xe7fe, 8, 8) == 0xe7 && Field(0xe7fe, 12, 4) == 14 && Field(0xe7fe, 11, 5) == 28
  {
    Pow2Small();
    ThumbFields(0xe7fe);
    FieldOf(0xe7fe, 8, 8);
  }

  lemma SelfBranchSegment() returns (u: Uop)
    requires Field(0xe7fe, 12, 4) == 14 && Field(0xe7fe, 11, 5) == 28
    ensures u.op == Op(End, 0, 0, 0, 0) && Segment(0xe7fe, 0, 1, true, 0x1000, MemoryHits) == Some([u])
  {
    hide Field, Signed, Wrap;
    var s := DecodeThumb(0xe7fe, 0, 1, 0x1000, MemoryHits);
    assert s.Some? && |s.value| == 1 && s.value[0].op == Op(End, 0, 0, 0, 0);
    u := s.value[0];
    OneEndSegment(u);
  }

  lemma OneEndSegment(u: Uop)
    requires u.op == Op(End, 0, 0, 0, 0) && DecodeThumb(0xe7fe, 0, 1, 0x1000, MemoryHits) == Some([u])
    ensures Segment(0xe7fe, 0, 1, true, 0x1000, MemoryHits) == Some([u])
  {
    hide DecodeThumb, Id;
    AtId(u.op);
    assert PatchedAll([u], 0, 1, 0x1000, true) == [u];
  }

  lemma SelfBranchRecords(insns: seq<Word>)
    requires insns == [0xe7fe] && Field(0xe7fe, 12, 4) == 14 && Field(0xe7fe, 11, 5) == 28
    ensures Halfwords(insns, true)
    ensures DecodeProgram(insns, true, 0x1000, MemoryHits).Some?
  {
    hide Field, Segment, Marks;
    var u := SelfBranchSegment();
    assert Records(insns, 0, true, 0x1000, MemoryHits) == Some([]);
    assert insns[0] == 0xe7fe && [] + [u] == [u];
    assert Appended([], Some([u])) == Some([u]);
    assert Records(insns, 1, true, 0x1000, MemoryHits) == Appended([], Segment(insns[0], 0, |insns|, true, 0x1000, MemoryHits));
  }

  /** Behind the last instruction stands an END with the next address, unless the block already ends in one. */
  lemma Closed(insns: seq<Word>, p: Place, b: Block, m: M, mk: M, env: Env)
    requires |insns| == p.insns && Halfwords(insns, p.thumb) && DecodeProgram(insns, p.thumb, p.pc, p.mode) == Some(b)
    requires Ready(m, env) && Standing(mk, |insns|, insns, b.uops, p, m.s, env)
    requires var r := Records(insns, |insns|, p.thumb, p.pc, p.mode).value;
             |r| <= |b.uops| && Run(b.uops, 0, m, env) == Run(b.uops, |r|, mk, env)
    requires var r := Records(insns, |insns|, p.thumb, p.pc, p.mode).value; r[|r| - 1].op.f != End
    ensures Settled(Run(b.uops, 0, m, env), insns, b.uops, p, m.s, env)
  {
    hide Step, Records, TraitsOf, Straight, StoresLast;
    var r := Records(insns, |insns|, p.thumb, p.pc, p.mode).value;
    if |b.uops| > |r| {
      assert b.uops[|r|].op == Op(End, 0, 0, 0, 0);
      FixedExit(b.uops[|r|], mk, env);
    }
  }

  // ------------------------------------------------------------ Live memory

  /** When each of the first `k` instructions is reached, RAM still holds it as it was decoded. */
  ghost predicate CodeKept(k: nat, code: nat, insns: seq<Word>, thumb: bool, pc: Word, s: State, env: Env) {
    k <= |insns| && forall j :: 0 <= j < k ==> StillThere(j, code, insns, thumb, pc, s, env)
  }

  ghost predicate StillThere(j: nat, code: nat, insns: seq<Word>, thumb: bool, pc: Word, s: State, env: Env)
    requires j < |insns|
  {
    var r := Straight(insns, j, thumb, pc, s, env);
    r.Done? ==> code + j * Width(thumb) + Width(thumb) <= |r.s.ram| && ReadLe(r.s.ram[code..], j * Width(thumb), thumb) == insns[j]
  }

  /** Fetching live comes to the decoded instructions as long as they are still there when reached. */
  lemma {:induction false} LiveIsStraight(code: nat, insns: seq<Word>, k: nat, thumb: bool, pc: Word, s: State, env: Env)
    requires CodeKept(k, code, insns, thumb, pc, s, env)
    ensures Live(code, k, thumb, pc, s, env) == Straight(insns, k, thumb, pc, s, env)
  {
    hide Arch.Step, ReadLe;
    if k > 0 {
      LiveIsStraight(code, insns, k - 1, thumb, pc, s, env);
      assert StillThere(k - 1, code, insns, thumb, pc, s, env);
      assert (k - 1) * Width(thumb) + Width(thumb) == k * Width(thumb);
    }
  }

  /** Where RAM has not changed, the code is still there. */
  lemma QuietKeepsCode(k: nat, code: nat, insns: seq<Word>, thumb: bool, pc: Word, s: State, env: Env)
    requires code + |insns| * Width(thumb) <= |s.ram| && insns == Fetched(s.ram[code..], |insns|, thumb)
    requires Quiet(k, insns, thumb, pc, s, env)
    ensures CodeKept(k, code, insns, thumb, pc, s, env)
  {
    hide Straight, ReadLe, Fetched;
    forall j | 0 <= j < k
      ensures StillThere(j, code, insns, thumb, pc, s, env)
    {
      assert j * Width(thumb) + Width(thumb) <= |insns| * Width(thumb) by {
        MulMono(Width(thumb), j + 1, |insns|);
      }
    }
  }

  lemma KeptEarlier(j: nat, k: nat, code: nat, insns: seq<Word>, thumb: bool, pc: Word, s: State, env: Env)
    requires j <= k && CodeKept(k, code, insns, thumb, pc, s, env)
    ensures CodeKept(j, code, insns, thumb, pc, s, env)
  {
    hide StillThere;
  }

  /** The words the architecture fetches live in its first `k` steps. */
  function LiveFetches(code: nat, k: nat, thumb: bool, pc: Word, s: State, env: Env): Option<seq<Word>> {
    if k == 0 then Some([])
    else
      match (LiveFetches(code, k - 1, thumb, pc, s, env), Live(code, k - 1, thumb, pc, s, env))
      case (Some(w), Done(t, at)) =>
        if code + k * Width(thumb) <= |t.ram| then
          LastInside(k, thumb, |t.ram| - code);
          Some(w + [ReadLe(t.ram[code..], (k - 1) * Width(thumb), thumb)])
        else None
      case _ => None
  }

  lemma FetchStep(code: nat, insns: seq<Word>, k: nat, thumb: bool, pc: Word, s: State, env: Env)
    requires 0 < k <= |insns|
    ensures LiveFetches(code, k, thumb, pc, s, env) == Some(insns[..k])
            <==> && LiveFetches(code, k - 1, thumb, pc, s, env) == Some(insns[..k - 1])
                 && var r := Live(code, k - 1, thumb, pc, s, env);
                    && r.Done? && code + (k - 1) * Width(thumb) + Width(thumb) <= |r.s.ram|
                    && ReadLe(r.s.ram[code..], (k - 1) * Width(thumb), thumb) == insns[k - 1]
  {
    hide Live, ReadLe;
    assert (k - 1) * Width(thumb) + Width(thumb) == k * Width(thumb);
    assert insns[..k][..k - 1] == insns[..k - 1] && insns[..k - 1] + [insns[k - 1]] == insns[..k];
    var before, after := LiveFetches(code, k - 1, thumb, pc, s, env), LiveFetches(code, k, thumb, pc, s, env);
    if after == Some(insns[..k]) {
      assert after.value[..|after.value| - 1] == before.value;
    }
  }

  /** The architecture fetches exactly the decoded instructions exactly if each of them is still there when it is reached. */
  lemma {:induction false} LiveFetchesDecoded(code: nat, insns: seq<Word>, k: nat, thumb: bool, pc: Word, s: State, env: Env)
    requires k <= |insns| && Straight(insns, k, thumb, pc, s, env).Done?
    ensures LiveFetches(code, k, thumb, pc, s, env) == Some(insns[..k]) <==> CodeKept(k, code, insns, thumb, pc, s, env)
  {
    hide Arch.Step, ReadLe, Live, LiveFetches;
    if k == 0 {
      NoFetches(code, insns, thumb, pc, s, env);
    } else {
      LiveFetchesDecoded(code, insns, k - 1, thumb, pc, s, env);
      FetchStep(code, insns, k, thumb, pc, s, env);
      if CodeKept(k - 1, code, insns, thumb, pc, s, env) {
        LiveIsStraight(code, insns, k - 1, thumb, pc, s, env);
        assert StillThere(k - 1, code, insns, thumb, pc, s, env) ==> CodeKept(k, code, insns, thumb, pc, s, env);
      }
    }
  }

  lemma NoFetches(code: nat, insns: seq<Word>, thumb: bool, pc: Word, s: State, env: Env)
    ensures LiveFetches(code, 0, thumb, pc, s, env) == Some(insns[..0])
  {
  }

  /** A left or refused run against the architecture fetching from RAM as it is at each step. */
  ghost predicate SettledLive(run: Stop, n: nat, uops: seq<Uop>, code: nat, thumb: bool, pc: Word, s: State, env: Env) {
    match run
    case Left(m, at) => Live(code, n, thumb, pc, s, env) == Arch.Done(m.s, at)
    case Missed(m, j) => j < |uops| && exists k :: RefusedLive(k, n, uops[j], m.s, code, thumb, pc, s, env)
    case _ => false
  }

  ghost predicate RefusedLive(k: nat, n: nat, u: Uop, now: State, code: nat, thumb: bool, pc: Word, s: State, env: Env) {
    && k < n
    && u.pcv == InsnPc(pc, k, thumb)
    && u.meta == (k + 1) * 256 + (n - k)
    && Live(code, k, thumb, pc, s, env) == Arch.Done(now, u.pcv)
  }

  /** A block decoded from RAM runs as the architecture fetching from RAM at every instruction would, even when its own
      stores overwrite its code: a store is always the last instruction of its block. Flat blocks may store earlier; they run
      live too as long as they have not overwritten an instruction before reaching it. */
  lemma BlockRunsLiveCode(code: nat, n: nat, p: Place, b: Block, m: M, env: Env)
    requires code + n * Width(p.thumb) <= |m.s.ram| && n == p.insns
    requires DecodeProgram(Fetched(m.s.ram[code..], n, p.thumb), p.thumb, p.pc, p.mode) == Some(b)
    requires StoresLast(b.uops, p.mode) || CodeKept(n, code, Fetched(m.s.ram[code..], n, p.thumb), p.thumb, p.pc, m.s, env)
    requires Ready(m, env) && Suits(p.mode, env, |m.s.ram|) && m.s.thumb == p.thumb
    ensures || SettledLive(Run(b.uops, 0, m, env), n, b.uops, code, p.thumb, p.pc, m.s, env)
            || (!Reads(p.mode) && Straight(Fetched(m.s.ram[code..], n, p.thumb), n, p.thumb, p.pc, m.s, env).Undefined?)
  {
    hide Run, Suits, Straight, Live, Fetched, DecodeProgram, Quiet, StoresLast, Reads, CodeKept;
    var insns := Fetched(m.s.ram[code..], n, p.thumb);
    BlockRefines(insns, p, b, m, env);
    if Straight(insns, n, p.thumb, p.pc, m.s, env).Done? || Reads(p.mode) {
      match Run(b.uops, 0, m, env)
      case Left(mn, at) =>
        if StoresLast(b.uops, p.mode) {
          QuietKeepsCode(n, code, insns, p.thumb, p.pc, m.s, env);
        }
        LiveIsStraight(code, insns, n, p.thumb, p.pc, m.s, env);
      case Missed(mk, j) =>
        var k :| Refused(k, b.uops[j], mk.s, insns, b.uops, p, m.s, env);
        if StoresLast(b.uops, p.mode) {
          QuietKeepsCode(k, code, insns, p.thumb, p.pc, m.s, env);
        } else {
          KeptEarlier(k, n, code, insns, p.thumb, p.pc, m.s, env);
        }
        LiveIsStraight(code, insns, k, p.thumb, p.pc, m.s, env);
        assert RefusedLive(k, n, b.uops[j], mk.s, code, p.thumb, p.pc, m.s, env);
      case _ =>
    }
  }
}
