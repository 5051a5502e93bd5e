/** Loads, stores and block transfers: all or nothing, and on a hit the architectural transfer. */
module RefineMemory {
  import opened Words
  import opened Handlers
  import opened Decode
  import opened Machine
  import opened Exec
  import opened RefineAlu
  import opened Operands
  import opened Shifter
  import opened VfpFormat
  import Arch

  /** A run of an instruction's records agrees with the architecture, or refused with the guest state untouched. */
  ghost predicate Agrees(run: Stop, r: Arch.Result, s: State, next: Word) {
    match run
    case Fell(m) => r == Arch.Done(m.s, next)
    case Left(m, pc) => r == Arch.Done(m.s, pc)
    case Missed(m, at) => m.s == s
    case Unmodelled => false
  }

  /** What a run under a decoding contract relies on. */
  ghost predicate Suits(mode: Mode, env: Env, size: nat) {
    if Reads(mode) then Sound(env, size) else Folded(env, size)
  }

  /** Agreement under a contract: flat records test no alignment, so there the architecture must define the access. */
  ghost predicate Follows(mode: Mode, run: Stop, r: Arch.Result, s: State, next: Word) {
    Agrees(run, r, s, next) || (!Reads(mode) && r.Undefined?)
  }

  // ------------------------------------------------------------ Single accesses

  lemma ExtendedAgrees(kind: nat, w: Word)
    requires kind < 5 && (kind == 3 ==> w < 0x100) && (kind == 4 ==> w < 0x1_0000)
    ensures Extended(kind, w) == Arch.SignExtended(kind, w)
  {
  }

  lemma AlignedInBlock(va: Word, width: nat)
    requires (width == 1 || width == 2 || width == 4) && va % width == 0
    ensures va % BLOCK + width <= BLOCK
  {
    if width == 4 {
      var k: int := va / 4;
      assert va == 1024 * (k / 256) + 4 * (k % 256);
      assert va % BLOCK == 4 * (k % 256);
    } else if width == 2 {
      var k: int := va / 2;
      assert va == 1024 * (k / 512) + 2 * (k % 512);
      assert va % BLOCK == 2 * (k % 512);
    }
  }

  lemma LoadedRange(ram: seq<Byte>, a: nat, width: nat)
    requires a + width <= |ram| && (width == 1 || width == 2)
    ensures LoadBytes(ram, a, width) < if width == 1 then 0x100 else 0x1_0000
  {
  }

  /** A direct read hits with the architectural load or leaves everything as it was; it hits exactly when the address is
      aligned and its block is cached. */
  lemma ReadRefines(m: M, env: Env, kind: nat, rd: nat, next: Word)
    requires Ready(m, env) && Sound(env, |m.s.ram|) && kind < 5 && rd < 15 && m.k.x17 < 0x1_0000_0000
    ensures var o := HostRead(m, env, kind, rd);
            if m.k.x17 % KindWidth(kind) == 0 && Lookup(env.dread, m.k.x17, env.priv, env.gen).Some?
            then o.Next? && Arch.Load(m.s, env.mmu, env.priv, m.k.x17, kind, rd, next) == Arch.Done(o.m.s, next)
            else o == Miss(m)
  {
    hide LoadBytes, Lookup, Translate, Faithful, Mapped, Extended, Arch.SignExtended;
    var va: Word := m.k.x17;
    var width := KindWidth(kind);
    if va % width == 0 && Lookup(env.dread, va, env.priv, env.gen).Some? {
      HitIsTranslation(env.dread, va, env.priv, env.gen, env.mmu.readable, |m.s.ram|);
      AlignedInBlock(va, width);
      var a := Lookup(env.dread, va, env.priv, env.gen).value;
      if width < 4 {
        LoadedRange(m.s.ram, a, width);
      }
      ExtendedAgrees(kind, LoadBytes(m.s.ram, a, width));
    }
  }

  /** What an architectural store with optional writeback leaves. */
  function StoredBack(s: State, mmu: Mmu, priv: bool, va: Word, kind: nat, w: Word, wb: Option<nat>, moved: Word, next: Word): Arch.Result
    requires Wide(s)
  {
    match Arch.Store(s, mmu, priv, va, kind, w, next)
    case Undefined => Arch.Undefined
    case Done(t, pc) => if !Wide(t) then Arch.Undefined else Arch.Done(if wb.Some? then Arch.SetReg(t, wb.value, moved) else t, pc)
  }

  lemma WriteRefines(m: M, u: Uop, env: Env, kind: nat, rd: nat, wb: Option<nat>, unprivileged: bool, next: Word)
    requires Ready(m, env) && Sound(env, |m.s.ram|) && kind < 3 && m.k.x17 < 0x1_0000_0000 && (wb.Some? ==> wb.value < 15)
    ensures var o := HostWrite(m, u, env, kind, rd, wb, unprivileged);
            var w := if rd >= 15 then Wrap(u.pcv + 12) else m.s.r[rd];
            var moved := if u.imm == 0 then m.k.x17 else m.k.w9;
            if m.k.x17 % KindWidth(kind) == 0 && env.dwrite.Some?
               && Lookup(env.dwrite.value, m.k.x17, env.priv && !unprivileged, env.gen).Some?
            then o.Next? && StoredBack(m.s, env.mmu, env.priv && !unprivileged, m.k.x17, kind, w, wb, moved, next) == Arch.Done(o.m.s, next)
            else o == Miss(m)
  {
    hide StoreBytes, Lookup, Translate, Faithful, Mapped;
    var va: Word := m.k.x17;
    var width := KindWidth(kind);
    var priv := env.priv && !unprivileged;
    if va % width == 0 && env.dwrite.Some? && Lookup(env.dwrite.value, va, priv, env.gen).Some? {
      HitIsTranslation(env.dwrite.value, va, priv, env.gen, env.mmu.writable, |m.s.ram|);
      AlignedInBlock(va, width);
    }
  }

  // ------------------------------------------------------------ Runs ending in an access

  /** One step of dispatch that continues. */
  lemma RunNext(uops: seq<Uop>, i: nat, m: M, env: Env)
    requires Ready(m, env) && i < |uops| && Step(uops[i], m, env).Next?
    ensures Run(uops, i, m, env) == Run(uops, i + 1, Step(uops[i], m, env).m, env)
  {
    hide Step;
  }

  /** The last record either completes the run or refuses. */
  lemma RunLast(uops: seq<Uop>, m: M, env: Env)
    requires Ready(m, env) && |uops| > 0
    ensures var o := Step(uops[|uops| - 1], m, env);
            && (o.Next? ==> Run(uops, |uops| - 1, m, env) == Fell(o.m))
            && (o == Miss(m) ==> Run(uops, |uops| - 1, m, env) == Missed(m, |uops| - 1))
  {
    hide Step;
    var n := |uops| - 1;
    var o := Step(uops[n], m, env);
    if o.Next? {
      assert Run(uops, n + 1, o.m, env) == Fell(o.m);
    }
  }

  ghost predicate MovesAddress(u: Uop, m: M, o: Outcome, offset: int, pre: bool)
    requires Wide(m.s)
  {
    var base := Arch.Reg(m.s, u.op.d, u.pcv);
    var moved := if u.op.c == 1 then Wrap(base + offset) else Wrap(base - offset);
    && o.Next? && o.m.s == m.s
    && (if pre then o.m.k.x17 == moved else o.m.k.x17 == base && o.m.k.w9 == moved)
  }

  lemma AddrImmStep(u: Uop, m: M, env: Env)
    requires Ready(m, env) && IsAddrImm(u.op.f) && Legal(u.op)
    ensures MovesAddress(u, m, Step(u, m, env), u.imm, u.op.f == AddrImm)
  {
    hide Step, Legal;
    AddressDispatch(u, m, env);
  }

  lemma AddrRegStep(u: Uop, m: M, env: Env)
    requires Ready(m, env) && IsAddrReg(u.op.f) && Legal(u.op) && m.k.x17 < 0x1_0000_0000
    ensures MovesAddress(u, m, Step(u, m, env), m.k.x17, u.op.f == AddrReg)
  {
    hide Step, Legal;
    AddressDispatch(u, m, env);
  }

  /** Address records move values between scratch registers only. */
  lemma AddressStep(u: Uop, m: M, env: Env)
    requires Ready(m, env) && (IsAddrImm(u.op.f) || IsAddrReg(u.op.f)) && Legal(u.op) && m.k.x17 < 0x1_0000_0000
    ensures Step(u, m, env).Next?
    ensures var offset: int := if IsAddrImm(u.op.f) then u.imm else m.k.x17;
            var base := Arch.Reg(m.s, u.op.d, u.pcv);
            var moved := if u.op.c == 1 then Wrap(base + offset) else Wrap(base - offset);
            var m1 := Step(u, m, env).m;
            && m1.s == m.s
            && (u.op.f == AddrImm || u.op.f == AddrReg ==> m1.k.x17 == moved)
            && (u.op.f == PostAddrImm || u.op.f == PostAddrReg ==> m1.k.x17 == base && m1.k.w9 == moved)
  {
    hide Step, Arch.Reg, Wrap, Legal;
    if IsAddrImm(u.op.f) {
      AddrImmStep(u, m, env);
    } else {
      AddrRegStep(u, m, env);
    }
  }

  /** The scratch state an address computation should leave: transfer address, and the moved base if it is written back. */
  ghost predicate Addressed(m: M, m1: M, env: Env, base: Word, offset: int, up: bool, pre: bool) {
    var moved := if up then Wrap(base + offset) else Wrap(base - offset);
    && Ready(m1, env) && m1.s == m.s
    && m1.k.x17 == (if pre then moved else base)
    && (!pre ==> m1.k.w9 == moved)
  }

  lemma ArmAddressReg(s: seq<Uop>, kind: nat, rm: nat, amount: nat, pre: bool, up: bool, rn: nat, pcv: Word, m: M, env: Env)
      returns (m1: M)
    requires Ready(m, env) && |s| == 3 && kind < 4 && rm < 16 && amount < 32 && rn < 16
    requires s[0] == Uop(Op(ShiftImm, 0, kind, rm, amount), 0, pcv, 0)
    requires s[1] == Uop(Op(if pre then AddrReg else PostAddrReg, 0, 0, Num(up), rn), 0, pcv, 0)
    ensures Addressed(m, m1, env, Arch.Reg(m.s, rn, pcv), Arch.ShiftByImmediate(kind, Arch.Reg(m.s, rm, pcv), amount, m.s.f.c).0, up, pre)
    ensures Run(s, 0, m, env) == Run(s, 2, m1, env)
  {
    hide Run, Step, Arch.ShiftByImmediate, Arch.Reg, Wrap;
    ShiftImmStep(s[0], m, env);
    var m0 := Step(s[0], m, env).m;
    RunNext(s, 0, m, env);
    AddressStep(s[1], m0, env);
    RunNext(s, 1, m0, env);
    m1 := Step(s[1], m0, env).m;
  }

  lemma ArmAddressImm(s: seq<Uop>, offset: Word, pre: bool, up: bool, rn: nat, pcv: Word, m: M, env: Env) returns (m1: M)
    requires Ready(m, env) && |s| == 2 && rn < 16
    requires s[0] == Uop(Op(if pre then AddrImm else PostAddrImm, 0, 0, Num(up), rn), offset, pcv, 0)
    ensures Addressed(m, m1, env, Arch.Reg(m.s, rn, pcv), offset, up, pre)
    ensures Run(s, 0, m, env) == Run(s, 1, m1, env)
  {
    hide Run, Step, Arch.Reg;
    var m0 := m.(k := m.k.(x17 := 0));
    AddressScratch(s[0], m, env);
    AddressStep(s[0], m0, env);
    RunNext(s, 0, m, env);
    m1 := Step(s[0], m, env).m;
  }

  /** An immediate address record does not look at the scratch address. */
  lemma AddressScratch(u: Uop, m: M, env: Env)
    requires Ready(m, env) && IsAddrImm(u.op.f) && Legal(u.op)
    ensures Step(u, m, env) == Step(u, m.(k := m.k.(x17 := 0)), env)
  {
    hide Step, Legal;
    AddressDispatch(u, m, env);
    AddressDispatch(u, m.(k := m.k.(x17 := 0)), env);
  }

  /** The decoded records of a single transfer, with the last one carrying its instruction's address. */
  ghost predicate SingleRecords(t: seq<Uop>, insn: Word, i: nat, insns: nat, pc: Word, mode: Mode) {
    && Reads(mode)
    && DecodeArmSingleTransfer(insn, i, insns, pc, mode).Some?
    && var s := DecodeArmSingleTransfer(insn, i, insns, pc, mode).value;
       && |t| == |s|
       && (forall k :: 0 <= k < |s| - 1 ==> t[k] == s[k])
       && t[|t| - 1].op == s[|t| - 1].op && t[|t| - 1].imm == s[|t| - 1].imm && t[|t| - 1].pcv == Wrap(pc + i * 4)
  }

  function SingleOffset(insn: Word, s: State, pcv: Word): int
    requires Wide(s)
  {
    if Bit(insn, 25) then Arch.ShiftByImmediate(Field(insn, 5, 2), Arch.Reg(s, Field(insn, 0, 4), pcv), Field(insn, 7, 5), s.f.c).0
    else Field(insn, 0, 12)
  }

  lemma ArmSingleHead(insn: Word, i: nat, insns: nat, pc: Word, mode: Mode, t: seq<Uop>, m: M, env: Env) returns (m1: M)
    requires Ready(m, env) && SingleRecords(t, insn, i, insns, pc, mode)
    ensures var pcv := Wrap(pc + i * 4 + 8);
            Addressed(m, m1, env, Arch.Reg(m.s, Field(insn, 16, 4), pcv), SingleOffset(insn, m.s, pcv), Bit(insn, 23), Bit(insn, 24))
    ensures |t| > 0 && Run(t, 0, m, env) == Run(t, |t| - 1, m1, env)
  {
    hide Field, Run, Arch.ShiftByImmediate, Addressed;
    var rn, pre, up, pcv := Field(insn, 16, 4), Bit(insn, 24), Bit(insn, 23), Wrap(pc + i * 4 + 8);
    if Bit(insn, 25) {
      m1 := ArmAddressReg(t, Field(insn, 5, 2), Field(insn, 0, 4), Field(insn, 7, 5), pre, up, rn, pcv, m, env);
    } else {
      m1 := ArmAddressImm(t, Field(insn, 0, 12), pre, up, rn, pcv, m, env);
    }
  }

  lemma TransferStep(u: Uop, load: bool, writeback: bool, unprivileged: bool, kind: nat, rd: nat, rn: nat, m: M, env: Env)
    requires Ready(m, env) && u.op == TransferOp(load, writeback, unprivileged, kind, rd, rn)
    requires kind < 3 && rd < 16 && (load ==> rd < 15) && (!load && writeback ==> rn < 15) && rn < 16
    ensures Step(u, m, env) == if load then HostRead(m, env, kind, rd)
                               else HostWrite(m, u, env, kind, rd, if writeback then Some(rn) else None, writeback && unprivileged)
  {
    hide HostRead, HostWrite;
  }

  /** Single load and store records against section A5.2, for every form accepted under the cache-hit contracts. */
  lemma ArmSingleRefines(insn: Word, i: nat, insns: nat, pc: Word, mode: Mode, t: seq<Uop>, m: M, env: Env)
    requires Ready(m, env) && Sound(env, |m.s.ram|) && SingleRecords(t, insn, i, insns, pc, mode)
    ensures Agrees(Run(t, 0, m, env), Arch.ArmLoadStore(insn, Wrap(pc + i * 4), m.s, env.mmu, env.priv), m.s, Wrap(Wrap(pc + i * 4) + 4))
  {
    hide Field, Run, Step, HostRead, HostWrite, Arch.Load, Arch.Store, Arch.ShiftByImmediate, Sound;
    WrapWrap(pc + i * 4, 8);
    var m1 := ArmSingleHead(insn, i, insns, pc, mode, t, m, env);
    RunLast(t, m1, env);
    var rd, rn, kind, pre := Field(insn, 12, 4), Field(insn, 16, 4), Num(Bit(insn, 22)), Bit(insn, 24);
    var next := Wrap(Wrap(pc + i * 4) as int + 4);
    var writeback := !pre || Bit(insn, 21);
    TransferStep(t[|t| - 1], Bit(insn, 20), writeback, !pre && Bit(insn, 21), kind, rd, rn, m1, env);
    if Bit(insn, 20) {
      ReadRefines(m1, env, kind, rd, next);
    } else {
      ArmStoreRefines(insn, i, insns, pc, mode, t, m, m1, env);
    }
  }

  lemma ArmStoreRefines(insn: Word, i: nat, insns: nat, pc: Word, mode: Mode, t: seq<Uop>, m: M, m1: M, env: Env)
    requires Ready(m, env) && Sound(env, |m.s.ram|) && SingleRecords(t, insn, i, insns, pc, mode) && !Bit(insn, 20)
    requires var pcv := Wrap(pc + i * 4 + 8);
             Addressed(m, m1, env, Arch.Reg(m.s, Field(insn, 16, 4), pcv), SingleOffset(insn, m.s, pcv), Bit(insn, 23), Bit(insn, 24))
    requires |t| > 0
    ensures var rd, rn, kind, pre := Field(insn, 12, 4), Field(insn, 16, 4), Num(Bit(insn, 22)), Bit(insn, 24);
            var o := HostWrite(m1, t[|t| - 1], env, kind, rd, if !pre || Bit(insn, 21) then Some(rn) else None, !pre && Bit(insn, 21));
            || o == Miss(m1)
            || (o.Next? && Arch.ArmLoadStore(insn, Wrap(pc + i * 4), m.s, env.mmu, env.priv)
                           == Arch.Done(o.m.s, Wrap(Wrap(pc + i * 4) + 4)))
  {
    hide Field, Run, Step, HostWrite, Arch.Store, Arch.ShiftByImmediate, Sound;
    WrapWrap(pc + i * 4, 8);
    WrapWrap(pc + i * 4, 12);
    hide Wrap;
    var rd, rn, kind, pre := Field(insn, 12, 4), Field(insn, 16, 4), Num(Bit(insn, 22)), Bit(insn, 24);
    var wb := if !pre || Bit(insn, 21) then Some(rn) else None;
    WriteRefines(m1, t[|t| - 1], env, kind, rd, wb, !pre && Bit(insn, 21), Wrap(Wrap(pc + i * 4) as int + 4));
  }

  // ------------------------------------------------------------ Flat accesses

  /** Masking to a power of two is a remainder; an aligned word lies inside. */
  lemma FoldedAddress(va: Word, size: nat)
    requires exists n: nat :: 10 <= n <= 32 && size == Pow2(n)
    ensures 0 < size <= 0x1_0000_0000 && And(va, Wrap(size - 1)) == va % size
    ensures va % 4 == 0 ==> va % size + 4 <= size
  {
    hide And, Pow2;
    var n: nat :| 10 <= n <= 32 && size == Pow2(n);
    Pow2Of32();
    Pow2Grows(n, 32);
    MaskIsRemainder(va, n);
    QuarterPower(n);
    FourInside(va, Pow2(n - 2));
  }

  lemma MaskIsRemainder(va: Word, n: nat)
    requires n <= 32 && Pow2(n) <= 0x1_0000_0000
    ensures And(va, Wrap(Pow2(n) - 1)) == va % Pow2(n)
  {
    hide Pow2, Logic;
    Pow2Of32();
    AndLow(va, n, 32);
  }

  lemma QuarterPower(n: nat)
    requires n >= 2
    ensures Pow2(n) == 4 * Pow2(n - 2)
  {
  }

  lemma FourInside(va: nat, p: nat)
    requires p > 0
    ensures va % 4 == 0 ==> va % (4 * p) + 4 <= 4 * p
  {
    if va % 4 == 0 {
      var k: int := va / 4;
      var q: int, r: int := k / p, k % p;
      DivModFacts(k, p);
      assert va == 4 * p * q + 4 * r by {
        assert 4 * (p * q) == 4 * p * q;
      }
      Unique(va, 4 * p, q, 4 * r);
    }
  }

  /** A flat access is the architectural word access wherever that is defined. */
  lemma FlatRefines(m: M, u: Uop, env: Env, store: bool, rd: nat, base: Word, priv: bool, next: Word)
    requires Ready(m, env) && Folded(env, |m.s.ram|) && rd < 15
    ensures var o, va := HostFlat(m, u, store, rd, base), Wrap(base + u.imm);
            var r := if store then Arch.Store(m.s, env.mmu, priv, va, 0, m.s.r[rd], next) else Arch.Load(m.s, env.mmu, priv, va, 0, rd, next);
            (r.Done? <==> va % 4 == 0) && (r.Done? ==> o.Next? && r == Arch.Done(o.m.s, next))
  {
    hide LoadBytes, StoreBytes, Translate, And;
    var va := Wrap(base + u.imm);
    FoldedAddress(va, |m.s.ram|);
    assert Translate(env.mmu.readable, va, priv) == Translate(env.mmu.writable, va, priv) == Some(va % |m.s.ram|);
  }

  lemma FlatDispatch(u: Uop, m: M, env: Env)
    requires Ready(m, env) && Legal(u.op) && (u.op.f == FlatWord || u.op.f == FlatSp)
    ensures u.op.d < 8 && u.op.c < 8
    ensures Step(u, m, env) == if u.op.f == FlatWord then HostFlat(m, u, u.op.b == 1, u.op.c, m.s.r[u.op.d])
                               else HostFlat(m, u, u.op.c == 1, u.op.d, m.s.r[13])
  {
    hide HostFlat;
  }

  /** The one record of a flat access, given the architectural access of its instruction. */
  lemma FlatRun(u: Uop, m: M, env: Env, store: bool, rd: nat, base: Word, r: Arch.Result, next: Word)
    requires Ready(m, env) && Folded(env, |m.s.ram|) && rd < 15 && Step(u, m, env) == HostFlat(m, u, store, rd, base)
    requires var va := Wrap(base + u.imm);
             r == if store then Arch.Store(m.s, env.mmu, env.priv, va, 0, m.s.r[rd], next)
                  else Arch.Load(m.s, env.mmu, env.priv, va, 0, rd, next)
    ensures Follows(Flat, Run([u], 0, m, env), r, m.s, next)
  {
    hide Step, HostFlat, Arch.Load, Arch.Store, Folded;
    FlatRefines(m, u, env, store, rd, base, env.priv, next);
    if r.Done? {
      RunLast([u], m, env);
    }
  }

  /** A word whose offset the decoder took modulo the word. */
  lemma FlatOffset(base: Word, offset: nat, up: bool)
    requires offset < 0x1000
    ensures Wrap(base + if up then offset else Wrap(0 - offset as int)) == if up then Wrap(base + offset) else Wrap(base - offset)
  {
    WrapWrap(0 - offset as int, base);
  }

  lemma AccessKeeps(s: State, mmu: Mmu, priv: bool, va: Word, kind: nat, rd: nat, w: Word, next: Word)
    requires Wide(s)
    ensures var r := Arch.Load(s, mmu, priv, va, kind, rd, next); r.Done? ==> Wide(r.s) && r.pc == next
    ensures var r := Arch.Store(s, mmu, priv, va, kind, w, next); r.Done? ==> Wide(r.s) && r.pc == next
  {
    hide Translate, LoadBytes, StoreBytes, Arch.SignExtended;
  }

  /** Word loads and stores under the flat contract. */
  lemma ArmFlatRefines(insn: Word, i: nat, insns: nat, pc: Word, t: seq<Uop>, m: M, env: Env)
    requires Ready(m, env) && Folded(env, |m.s.ram|) && DecodeArmSingleTransfer(insn, i, insns, pc, Flat) == Some(t)
    ensures Follows(Flat, Run(t, 0, m, env), Arch.ArmLoadStore(insn, Wrap(pc + i * 4), m.s, env.mmu, env.priv), m.s, Wrap(Wrap(pc + i * 4) + 4))
  {
    hide Field, Run, Step, HostFlat, Arch.Load, Arch.Store, Folded, Follows;
    var rd, rn, offset, up := Field(insn, 12, 4), Field(insn, 16, 4), Field(insn, 0, 12), Bit(insn, 23);
    SingleTransferLegal(insn, i, insns, pc, Flat);
    assert t == [t[0]];
    FlatDispatch(t[0], m, env);
    FlatOffset(m.s.r[rn], offset, up);
    AccessKeeps(m.s, env.mmu, env.priv, Wrap(m.s.r[rn] + t[0].imm), 0, rd, m.s.r[rd], Wrap(Wrap(pc + i * 4) as int + 4));
    FlatRun(t[0], m, env, !Bit(insn, 20), rd, m.s.r[rn], Arch.ArmLoadStore(insn, Wrap(pc + i * 4), m.s, env.mmu, env.priv),
            Wrap(Wrap(pc + i * 4) as int + 4));
  }
}
