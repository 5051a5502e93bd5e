/** LDM and STM: one proof before the first change, then the architectural word-by-word transfer. */
module RefineBlock {
  import opened Words
  import opened Handlers
  import opened Decode
  import opened Validate
  import opened Machine
  import opened Exec
  import opened RefineMemory
  import Arch

  // ------------------------------------------------------------ Register lists

  /** Counting the list up gives the list the decoder collects. */
  lemma {:induction false} SameList(insn: Word, i: nat)
    requires i <= 16
    ensures Regs(insn, i) + Arch.ListFrom(insn, i) == Regs(insn, 16)
    decreases 16 - i
  {
    hide Bit;
    if i < 16 {
      SameList(insn, i + 1);
      var here := if Bit(insn, i) then [i] else [];
      assert Regs(insn, i + 1) == Regs(insn, i) + here;
      assert Regs(insn, i) + (here + Arch.ListFrom(insn, i + 1)) == (Regs(insn, i) + here) + Arch.ListFrom(insn, i + 1);
    }
  }

  lemma Listed(insn: Word)
    ensures Arch.ListFrom(insn, 0) == Regs(insn, 16)
  {
    SameList(insn, 0);
    assert Regs(insn, 0) == [];
  }

  // ------------------------------------------------------------ Addresses inside one block

  /** A run of words that fits its 1 KiB block never leaves it, never wraps, and stays aligned. */
  lemma InSameBlock(first: Word, j: nat, n: nat)
    requires first % 4 == 0 && first % BLOCK + 4 * n <= BLOCK && j < n
    ensures var va := Wrap(first + 4 * j);
            va % BLOCK == first % BLOCK + 4 * j && BlockBase(va) == BlockBase(first) && va % 4 == 0
  {
    var k: int, r: int := first / BLOCK, first % BLOCK;
    assert first == BLOCK * k + r;
    var va := first + 4 * j;
    assert va == BLOCK * k + (r + 4 * j) && r + 4 * j < BLOCK;
    assert k < 0x40_0000;
    assert va / BLOCK == k && va % BLOCK == r + 4 * j;
    var q: int := first / 4;
    assert va == 4 * (q + j);
  }

  /** Where a proved transfer stands: its block translates to `host`, wholly inside RAM. */
  ghost predicate Proved(m: map<(Word, bool), nat>, priv: bool, first: Word, host: nat, n: nat, size: nat) {
    && first % 4 == 0
    && first % BLOCK + 4 * n <= BLOCK
    && Translate(m, first, priv) == Some(host)
    && host + (BLOCK - first % BLOCK) <= size
  }

  lemma WordTranslates(m: map<(Word, bool), nat>, priv: bool, first: Word, host: nat, n: nat, size: nat, j: nat)
    requires Proved(m, priv, first, host, n, size) && j < n
    ensures var va := Wrap(first + 4 * j);
            Translate(m, va, priv) == Some(host + 4 * j) && va % 4 == 0 && host + 4 * j + 4 <= size
  {
    InSameBlock(first, j, n);
  }

  // ------------------------------------------------------------ Transfers

  /** The architectural state while `j` words of a block transfer are done and the rest are pending. */
  function Counted(m: M, load: bool, j: nat): State {
    if load then m.s.(f := m.k.x7, loads := m.s.loads + j) else m.s.(f := m.k.x7, stores := m.s.stores + j)
  }

  ghost predicate CommitsAt(t: seq<Uop>, regs: seq<nat>, load: bool) {
    |t| == |regs| + 2 && forall j :: 0 <= j < |regs| ==> t[1 + j] == Rec(Op(CommitFamily(load), 0, 0, 0, regs[j]))
  }

  lemma WrapNext(first: Word, j: nat)
    ensures Wrap(Wrap(first + 4 * j) as int + 4) == Wrap(first + 4 * (j + 1))
  {
    WrapWrap(first + 4 * j, 4);
  }

  lemma LdmCommitStep(rd: nat, m: M, env: Env)
    requires Ready(m, env) && rd < 15
    ensures Step(Rec(Op(LdmCommit, 0, 0, 0, rd)), m, env) == HostLdmCommit(m, rd)
  {
  }

  lemma StmCommitStep(rd: nat, m: M, env: Env)
    requires Ready(m, env) && rd < 16
    ensures Step(Rec(Op(StmCommit, 0, 0, 0, rd)), m, env) == HostStmCommit(m, rd)
  {
  }

  /** The destination records perform the architectural loads one by one. */
  lemma {:induction false} LoadsRun(t: seq<Uop>, regs: seq<nat>, j: nat, m: M, env: Env, first: Word, host: nat) returns (mn: M)
    requires j <= |regs| && CommitsAt(t, regs, true) && (forall k :: 0 <= k < |regs| ==> regs[k] < 15)
    requires Ready(m, env) && env.mmu.counted && Proved(env.mmu.readable, env.priv, first, host, |regs|, |m.s.ram|) && m.k.x17 == host + 4 * j
    ensures Ready(mn, env) && mn.k == m.k.(x17 := mn.k.x17) && mn.s == m.s.(r := mn.s.r)
    ensures Run(t, 1 + j, m, env) == Run(t, 1 + |regs|, mn, env)
    ensures Arch.LoadRegisters(Counted(m, true, j), env.mmu, env.priv, Wrap(first + 4 * j), regs[j..]) == Some(Counted(mn, true, |regs|))
    decreases |regs| - j
  {
    hide Run, Step, LoadBytes, Proved;
    if j == |regs| {
      mn := m;
    } else {
      WordTranslates(env.mmu.readable, env.priv, first, host, |regs|, |m.s.ram|, j);
      LdmCommitStep(regs[j], m, env);
      var m1 := Step(t[1 + j], m, env).m;
      RunNext(t, 1 + j, m, env);
      WrapNext(first, j);
      mn := LoadsRun(t, regs, j + 1, m1, env, first, host);
      assert regs[j..][1..] == regs[j + 1..];
    }
  }

  /** The source records perform the architectural stores one by one. */
  /** One source record and the architectural store it performs. */
  lemma StoreOne(m: M, env: Env, rd: nat, va: Word, host: nat, j: nat, pc12: Word)
    requires Ready(m, env) && env.mmu.counted && rd < 16 && m.k.x17 == host && m.k.w10 == pc12
    requires Translate(env.mmu.writable, va, env.priv) == Some(host) && va % 4 == 0 && host + 4 <= |m.s.ram|
    ensures var o := HostStmCommit(m, rd);
            && o.Next? && Ready(o.m, env) && o.m.k == m.k.(x17 := host + 4) && o.m.s == m.s.(ram := o.m.s.ram) && |o.m.s.ram| == |m.s.ram|
            && WriteMemory(Counted(m, false, j), env.mmu, env.priv, va, 4, if rd < 15 then m.s.r[rd] else pc12) == Some(Counted(o.m, false, j + 1))
  {
    hide StoreBytes, Translate;
  }

  lemma {:induction false} StoresRun(t: seq<Uop>, regs: seq<nat>, j: nat, m: M, env: Env, first: Word, host: nat) returns (mn: M)
    requires j <= |regs| && CommitsAt(t, regs, false) && (forall k :: 0 <= k < |regs| ==> regs[k] < 16)
    requires Ready(m, env) && env.mmu.counted && Proved(env.mmu.writable, env.priv, first, host, |regs|, |m.s.ram|) && m.k.x17 == host + 4 * j
    ensures Ready(mn, env) && mn.k == m.k.(x17 := mn.k.x17) && mn.s == m.s.(ram := mn.s.ram)
    ensures Run(t, 1 + j, m, env) == Run(t, 1 + |regs|, mn, env)
    ensures Arch.StoreRegisters(Counted(m, false, j), env.mmu, env.priv, Wrap(first + 4 * j), regs[j..], m.k.w10)
            == Some(Counted(mn, false, |regs|))
    decreases |regs| - j
  {
    hide Run, Step, StoreBytes, Proved, HostStmCommit, WriteMemory, Translate;
    if j == |regs| {
      mn := m;
    } else {
      WordTranslates(env.mmu.writable, env.priv, first, host, |regs|, |m.s.ram|, j);
      StmCommitStep(regs[j], m, env);
      StoreOne(m, env, regs[j], Wrap(first + 4 * j), host + 4 * j, j, m.k.w10);
      var m1 := Step(t[1 + j], m, env).m;
      RunNext(t, 1 + j, m, env);
      WrapNext(first, j);
      mn := StoresRun(t, regs, j + 1, m1, env, first, host);
      assert regs[j..][1..] == regs[j + 1..];
    }
  }

  // ------------------------------------------------------------ Whole transfers

  /** The records of a decoded block transfer, with the preflight carrying its instruction's address. */
  ghost predicate BlockRecords(t: seq<Uop>, regs: seq<nat>, load: bool, pre: bool, up: bool, writeback: bool, rn: nat, addr: Word) {
    && 0 < |regs| <= (if load then 15 else 16) && rn < 15
    && CommitsAt(t, regs, load)
    && t[0].op == Op(PreflightFamily(load), 0, Num(pre), Num(up), rn) && t[0].imm == |regs| && t[0].pcv == addr
    && t[|regs| + 1].imm == |regs|
    && t[|regs| + 1].op == if load then (if writeback then Op(LdmFinishWb, 0, 0, 0, rn) else Op(LdmFinish, 0, 0, 0, 0))
                           else (if writeback then Op(StmFinishWb, 0, 0, 0, rn) else Op(StmFinish, 0, 0, 0, 0))
  }

  lemma PreflightStep(u: Uop, load: bool, pre: bool, up: bool, rn: nat, m: M, env: Env)
    requires Ready(m, env) && rn < 15 && u.op == Op(PreflightFamily(load), 0, Num(pre), Num(up), rn)
    ensures Step(u, m, env) == HostPreflight(m, u, env, if load then Some(env.dread) else env.dwrite, load, pre, up, rn)
  {
    hide HostPreflight;
  }

  lemma FinishStep(u: Uop, load: bool, writeback: bool, rn: nat, m: M, env: Env)
    requires Ready(m, env) && rn < 15
    requires u.op == if load then (if writeback then Op(LdmFinishWb, 0, 0, 0, rn) else Op(LdmFinish, 0, 0, 0, 0))
                     else (if writeback then Op(StmFinishWb, 0, 0, 0, rn) else Op(StmFinish, 0, 0, 0, 0))
    ensures Step(u, m, env) == HostFinish(m, u, if writeback then Some(rn) else None, load)
  {
    hide HostFinish;
  }

  /** The whole range is aligned, inside one block, and that block is cached. */
  predicate BlockHit(table: Option<seq<CacheEntry>>, first: Word, n: nat, env: Env)
    requires table.Some? ==> |table.value| == 64
  {
    table.Some? && first % 4 == 0 && first % BLOCK + 4 * n <= BLOCK && Lookup(table.value, first, env.priv, env.gen).Some?
  }

  function Table(env: Env, load: bool): Option<seq<CacheEntry>> { if load then Some(env.dread) else env.dwrite }

  /** A preflight either refuses without a trace or has proved the whole transfer and changed scratch state only. */
  lemma PreflightProves(u: Uop, load: bool, pre: bool, up: bool, rn: nat, m: M, env: Env)
    requires Ready(m, env) && Sound(env, |m.s.ram|) && rn < 15
    ensures env.mmu.counted
    ensures Table(env, load).Some? ==> |Table(env, load).value| == 64
    ensures var o := HostPreflight(m, u, env, if load then Some(env.dread) else env.dwrite, load, pre, up, rn);
            var (first, last) := BlockAddresses(pre, up, m.s.r[rn], u.imm);
            if u.imm == 0 || u.imm > (if load then 15 else 16) || !BlockHit(Table(env, load), first, u.imm, env) then o == Miss(m)
            else
              && o.Next?
              && Proved(if load then env.mmu.readable else env.mmu.writable, env.priv, first, o.m.k.x17, u.imm, |m.s.ram|)
              && o.m.s == m.s.(f := o.m.s.f) && o.m.k.x7 == m.s.f && o.m.k.w9 == last
              && (!load ==> o.m.k.w10 == Wrap(u.pcv + 12))
  {
    hide Lookup, Translate, Faithful, Mapped;
    var (first, last) := BlockAddresses(pre, up, m.s.r[rn], u.imm);
    if load && Lookup(env.dread, first, env.priv, env.gen).Some? {
      HitIsTranslation(env.dread, first, env.priv, env.gen, env.mmu.readable, |m.s.ram|);
    }
    if !load && env.dwrite.Some? && Lookup(env.dwrite.value, first, env.priv, env.gen).Some? {
      HitIsTranslation(env.dwrite.value, first, env.priv, env.gen, env.mmu.writable, |m.s.ram|);
    }
  }

  /** The architecture's word-by-word transfer with its writeback. */
  function Transferred(s: State, mmu: Mmu, priv: bool, load: bool, first: Word, last: Word, regs: seq<nat>, writeback: bool, rn: nat, addr: Word)
      : Option<State>
    requires Wide(s)
  {
    var moved := if load then Arch.LoadRegisters(s, mmu, priv, first, regs) else Arch.StoreRegisters(s, mmu, priv, first, regs, Wrap(addr + 12));
    match moved
    case None => None
    case Some(t) => if !Wide(t) then None else Some(if writeback then Arch.SetReg(t, rn, last) else t)
  }

  /** A block transfer is all or nothing: with its whole range in one cached block it ends in exactly the state of the
      architectural transfer, flags and counters included; otherwise it refuses at the preflight with the state untouched. */
  lemma BlockRefines(t: seq<Uop>, regs: seq<nat>, load: bool, pre: bool, up: bool, writeback: bool, rn: nat, addr: Word, m: M, env: Env)
    requires BlockRecords(t, regs, load, pre, up, writeback, rn, addr)
    requires forall k :: 0 <= k < |regs| ==> regs[k] < if load then 15 else 16
    requires Ready(m, env) && Sound(env, |m.s.ram|)
    ensures Table(env, load).Some? ==> |Table(env, load).value| == 64
    ensures var run := Run(t, 0, m, env);
            var (first, last) := BlockAddresses(pre, up, m.s.r[rn], |regs|);
            if BlockHit(Table(env, load), first, |regs|, env)
            then run.Fell? && Transferred(m.s, env.mmu, env.priv, load, first, last, regs, writeback, rn, addr) == Some(run.m.s)
            else run == Missed(m, 0)
  {
    hide Run, Step, HostPreflight, Sound, BlockAddresses, Arch.LoadRegisters, Arch.StoreRegisters, Proved, BlockHit;
    PreflightStep(t[0], load, pre, up, rn, m, env);
    PreflightProves(t[0], load, pre, up, rn, m, env);
    var (first, last) := BlockAddresses(pre, up, m.s.r[rn], |regs|);
    if Step(t[0], m, env) == Miss(m) {
      RunMiss(t, m, env);
    } else {
      var m0 := Step(t[0], m, env).m;
      RunNext(t, 0, m, env);
      var mn: M;
      assert Wrap(first + 4 * 0) == first && regs[0..] == regs;
      assert Counted(m0, load, 0) == m.s;
      if load {
        mn := LoadsRun(t, regs, 0, m0, env, first, m0.k.x17);
      } else {
        mn := StoresRun(t, regs, 0, m0, env, first, m0.k.x17);
      }
      FinishStep(t[|regs| + 1], load, writeback, rn, mn, env);
      RunLast(t, mn, env);
    }
  }

  lemma RunMiss(t: seq<Uop>, m: M, env: Env)
    requires Ready(m, env) && |t| > 0 && Step(t[0], m, env) == Miss(m)
    ensures Run(t, 0, m, env) == Missed(m, 0)
  {
    hide Step;
  }

  /** Addressing mode 4: the first address and the writeback value of each mode. */
  lemma BlockAddressesAgree(pre: bool, up: bool, base: Word, n: nat)
    ensures var (first, last) := BlockAddresses(pre, up, base, n);
            && first == (match (pre, up)
                         case (false, true) => base
                         case (true, true) => Wrap(base + 4)
                         case (false, false) => Wrap(base - 4 * n + 4)
                         case (true, false) => Wrap(base - 4 * n))
            && last == if up then Wrap(base + 4 * n) else Wrap(base - 4 * n)
  {
    WrapWrap(base - 4 * n, 4);
  }

  /** The patched records of an LDM or STM. */
  ghost predicate BlockPatched(t: seq<Uop>, s: seq<Uop>, addr: Word) {
    && |t| == |s| && |s| > 0
    && t[0].op == s[0].op && t[0].imm == s[0].imm && t[0].pcv == addr
    && forall k :: 0 < k < |s| ==> t[k] == s[k]
  }

  lemma ArmBlockRefines(insn: Word, index: nat, insns: nat, mode: Mode, t: seq<Uop>, addr: Word, m: M, env: Env)
    requires DecodeArmBlockTransfer(insn, index, insns, mode).Some?
    requires BlockPatched(t, DecodeArmBlockTransfer(insn, index, insns, mode).value, addr)
    requires Ready(m, env) && Sound(env, |m.s.ram|)
    ensures Agrees(Run(t, 0, m, env), Arch.ArmLoadStoreMultiple(insn, addr, m.s, env.mmu, env.priv), m.s, Wrap(addr + 4))
  {
    hide Field, Run, Sound, BlockAddresses, Arch.LoadRegisters, Arch.StoreRegisters, BlockRecords, BlockPatched, Arch.ListFrom, Regs;
    var regs := Regs(insn, 16);
    Listed(insn);
    var load, pre, up, writeback, rn := Bit(insn, 20), Bit(insn, 24), Bit(insn, 23), Bit(insn, 21), Field(insn, 16, 4);
    ArmBlockRecords(insn, index, insns, mode, t, addr);
    BlockRefines(t, regs, load, pre, up, writeback, rn, addr, m, env);
    BlockAddressesAgree(pre, up, m.s.r[rn], |regs|);
  }

  lemma ArmBlockRecords(insn: Word, index: nat, insns: nat, mode: Mode, t: seq<Uop>, addr: Word)
    requires DecodeArmBlockTransfer(insn, index, insns, mode).Some?
    requires BlockPatched(t, DecodeArmBlockTransfer(insn, index, insns, mode).value, addr)
    ensures BlockRecords(t, Regs(insn, 16), Bit(insn, 20), Bit(insn, 24), Bit(insn, 23), Bit(insn, 21), Field(insn, 16, 4), addr)
    ensures forall k :: 0 <= k < |Regs(insn, 16)| ==> Regs(insn, 16)[k] < if Bit(insn, 20) then 15 else 16
  {
    hide Field, Regs;
    var regs := Regs(insn, 16);
    var load := Bit(insn, 20);
    var s := DecodeArmBlockTransfer(insn, index, insns, mode).value;
    forall k | 0 <= k < |regs|
      ensures t[1 + k] == Rec(Op(CommitFamily(load), 0, 0, 0, regs[k]))
      ensures regs[k] < if load then 15 else 16
    {
      assert s[1 + k] == Commits(CommitFamily(load), regs)[k];
      assert Bit(insn, regs[k]);
    }
    if load {
      WithoutPc(insn);
    }
  }

  /** A list without r15 has at most fifteen registers. */
  lemma WithoutPc(insn: Word)
    requires !Bit(insn, 15)
    ensures |Regs(insn, 16)| <= 15
  {
    hide Bit;
    assert Regs(insn, 16) == Regs(insn, 15);
  }
}
