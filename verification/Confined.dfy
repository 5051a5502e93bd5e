/** What the full validator promises about registers and refusals, and what it leaves to the decoder. */
module Confined {
  import opened Words
  import opened Handlers
  import opened Decode
  import opened Program
  import opened Validate
  import opened Machine
  import opened ExecVfp
  import opened Exec
  import opened RefineInsn
  import opened Recheck

  /** The record names VFP registers that exist: 32 single registers, doubles in pairs of them, and a whole run of them for a
      multiple store. */
  predicate WithinFile(u: Uop) {
    if u.op.f == VstmWrite then u.imm % 64 + u.imm / 256 % 64 <= 32 else InFile(u)
  }

  /** Handlers whose register numbers the validator looks at: arithmetic and stores. */
  predicate Inspected(f: Family) { f == VfpArith || f == VfpWrite || f == VstmWrite }

  /** Handlers whose register numbers it takes as they are. */
  predicate Trusted(f: Family) { IsVfp(f) && !Inspected(f) }

  /** In an accepted array every arithmetic and store record stays inside the register file. */
  lemma InspectedWithin(b: Block, e: Entry, kind: Mode, j: nat)
    requires ValidRun(b, e, kind) && j < |b.uops| && Inspected(b.uops[j].op.f)
    ensures WithinFile(b.uops[j])
  {
    hide KindOk, CountOk, PowerOfTwo, TraitsOf, TerminalShape, GuardMetadata;
    assert RecordOk(b, j);
    RecordWithin(b.uops[j]);
  }

  lemma RecordWithin(u: Uop)
    requires Legal(u.op) && Inspected(u.op.f)
    requires (u.op.f == VfpArith ==> VfpArithImmediate(u)) && (IsDirectWrite(u.op.f) ==> StoreImmediate(u))
    ensures WithinFile(u)
  {
  }

  /** So an accepted array stays inside the register file exactly if its VFP moves, comparisons, conversions and loads do. */
  lemma WithinFileIff(b: Block, e: Entry, kind: Mode)
    requires ValidRun(b, e, kind)
    ensures (forall j :: 0 <= j < |b.uops| ==> WithinFile(b.uops[j]))
            <==> forall j :: 0 <= j < |b.uops| && Trusted(b.uops[j].op.f) ==> WithinFile(b.uops[j])
  {
    hide ValidRun, WithinFile;
    forall j | 0 <= j < |b.uops|
      ensures !Trusted(b.uops[j].op.f) ==> WithinFile(b.uops[j])
    {
      if Inspected(b.uops[j].op.f) {
        InspectedWithin(b, e, kind, j);
      } else if !IsVfp(b.uops[j].op.f) {
        OthersWithin(b.uops[j]);
      }
    }
  }

  lemma OthersWithin(u: Uop)
    requires !IsVfp(u.op.f)
    ensures WithinFile(u)
  {
  }

  /** A move from single register 32, which there is not. */
  function Stray(): Block {
    Block([Uop(Op(VfpSToCore, 0, 0, 0, 0), 32, 0, 0x101), Uop(Op(End, 0, 0, 0, 0), 4, 0, 0)], 1, 0, 4, false, {RuntimeGuards, UsesVfp})
  }

  /** And that does happen: the validator accepts an array that names a register outside the file. */
  lemma StrayAccepted()
    ensures ValidRun(Stray(), Entry(0, false, 1, 1), MemoryHits) && !WithinFile(Stray().uops[0])
  {
    hide RecordOk, KindOk, CountOk, TraitsOf, PowerOfTwo, Walk;
    var b := Stray();
    assert PowerOfTwo(1) by {
      PowerOne();
    }
    StrayTraits(b.uops[..1]);
    StrayRecord(b);
    StrayKind(b.uops[..1]);
    StrayCount(b);
  }

  lemma StrayRecord(b: Block)
    requires b == Stray()
    ensures RecordOk(b, 0)
  {
    hide Legal, StoreImmediate, VfpArithImmediate, TerminalShape, GuardMetadata;
    StrayLegal();
    StrayGuard(b);
  }

  lemma StrayGuard(b: Block)
    requires b == Stray()
    ensures GuardMetadata(b, b.uops[0])
  {
  }

  lemma StrayKind(body: seq<Uop>)
    requires body == [Uop(Op(VfpSToCore, 0, 0, 0, 0), 32, 0, 0x101)]
    ensures KindOk(body, MemoryHits)
  {
  }

  lemma StrayCount(b: Block)
    requires b == Stray()
    ensures CountOk(b)
  {
    StraySpan(b.uops);
    hide Stride;
    assert Walk(b.uops, 1, 1) == Some(0);
    assert Walk(b.uops, 0, 1) == Some(1);
  }

  lemma StraySpan(uops: seq<Uop>)
    requires |uops| == 2 && uops[0].op.f == VfpSToCore
    ensures Stride(uops, 0, 1) == 1
  {
    hide BlockSpan;
  }

  lemma StrayLegal()
    ensures Legal(Op(VfpSToCore, 0, 0, 0, 0))
  {
  }

  lemma StrayTraits(body: seq<Uop>)
    requires body == [Uop(Op(VfpSToCore, 0, 0, 0, 0), 32, 0, 0x101)]
    ensures TraitsOf(body, false) == {RuntimeGuards, UsesVfp}
  {
    assert body[..0] == [];
    assert TraitsOf([], false) == {};
  }

  /** A refusal in an accepted array names an instruction of the block and counts the ones before it and from it on. */
  lemma RefusalNamesPrefix(b: Block, e: Entry, kind: Mode, m: M, env: Env, j: nat, now: M) returns (k: nat)
    requires ValidRun(b, e, kind) && Ready(m, env) && Run(b.uops, 0, m, env) == Missed(now, j)
    ensures j < |b.uops| && k < b.insnCount
    ensures b.uops[j].pcv == Wrap(b.startPc + k * Width(b.thumb))
    ensures b.uops[j].meta / 256 == k + 1 && b.uops[j].meta % 256 == b.insnCount - k
  {
    hide Run, RecordOk, KindOk, CountOk, PowerOfTwo, TraitsOf, IsRuntimeGuarded;
    assert [] + b.uops + [] == b.uops;
    RunWithin([], b.uops, [], 0, m, env);
    EndUnguarded();
    assert RecordOk(b, j);
    k := GuardCounts(b, j);
  }

  lemma GuardCounts(b: Block, j: nat) returns (k: nat)
    requires j < |b.uops| - 1 && RecordOk(b, j) && IsRuntimeGuarded(b.uops[j].op.f)
    ensures k < b.insnCount && b.uops[j].pcv == Wrap(b.startPc + k * Width(b.thumb))
    ensures b.uops[j].meta / 256 == k + 1 && b.uops[j].meta % 256 == b.insnCount - k
  {
    hide *;
    var u := GuardedMetadata(b, j);
    k := MetadataCounts(b, u);
  }

  lemma GuardedMetadata(b: Block, j: nat) returns (u: Uop)
    requires j < |b.uops| - 1 && RecordOk(b, j) && IsRuntimeGuarded(b.uops[j].op.f)
    ensures u == b.uops[j] && GuardMetadata(b, u)
  {
    hide TerminalShape, Legal, StoreImmediate, VfpArithImmediate, IsRuntimeGuarded, GuardMetadata;
    u := b.uops[j];
  }

  lemma MetadataCounts(b: Block, u: Uop) returns (k: nat)
    requires GuardMetadata(b, u)
    ensures k < b.insnCount && u.pcv == Wrap(b.startPc + k * Width(b.thumb))
    ensures u.meta / 256 == k + 1 && u.meta % 256 == b.insnCount - k
  {
    k := u.meta / 256 % 256 - 1;
  }

  lemma EndUnguarded()
    ensures !IsRuntimeGuarded(End)
  {
  }

  /** A direct branch that ends an accepted array goes to its target, which stands on an instruction boundary, or to the
      instruction behind the block, and links to the latter. */
  lemma BranchLeaves(b: Block, e: Entry, kind: Mode, j: nat, m: M, env: Env)
    requires ValidRun(b, e, kind) && j < |b.uops| && Ready(m, env)
    requires b.uops[j].op.f == BranchCond || b.uops[j].op.f == BranchLink
    ensures j + 2 == |b.uops| && Step(b.uops[j], m, env).Exit?
    ensures var behind, width := Wrap(b.startPc + b.insnCount * Width(b.thumb)), Width(b.thumb);
            var u, o := b.uops[j], Step(b.uops[j], m, env);
            && b.exitPc == behind
            && (o.pc == behind || (o.pc == u.imm && u.imm % width == 0))
            && o.m == if u.op.f == BranchLink && HostCondition(u.op.d, m.s.f) then m.(s := Set(m.s, 14, behind)) else m
  {
    hide KindOk, CountOk, PowerOfTwo, TraitsOf, Step, BranchStep, Legal, TerminalShape, GuardMetadata, StoreImmediate, VfpArithImmediate;
    assert RecordOk(b, j);
    BranchShape(b, b.uops[j]);
    BranchDispatch(b.uops[j], m, env);
    BranchGoes(b.uops[j], m);
  }

  lemma BranchShape(b: Block, u: Uop)
    requires TerminalShape(b, u) && (u.op.f == BranchCond || u.op.f == BranchLink)
    ensures u.imm % Width(b.thumb) == 0 && u.pcv == b.exitPc == Wrap(b.startPc + b.insnCount * Width(b.thumb))
  {
  }

  lemma BranchGoes(u: Uop, m: M)
    requires Wide(m.s) && Legal(u.op) && (u.op.f == BranchCond || u.op.f == BranchLink)
    ensures BranchStep(u, m) == if !HostCondition(u.op.d, m.s.f) then Exit(m, u.pcv)
                                else if u.op.f == BranchLink then Exit(m.(s := Set(m.s, 14, u.pcv)), u.imm) else Exit(m, u.imm)
  {
    hide HostCondition;
  }
}
