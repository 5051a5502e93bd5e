/** The machine's dispatch over any accepted record array, tied to the walk the validator makes. */
module Dispatch {
  import opened Words
  import opened Handlers
  import opened Decode
  import opened Program
  import opened Validate
  import opened Machine
  import opened ExecVfp
  import opened Exec
  import opened RefineInsn
  import opened RefineProgram
  import opened Confined
  import opened Soundness

  /** Dispatch goes where the walk over an array says: to the next record, over those a failed condition skips, or out. */
  lemma DispatchIsControl(u: Uop, i: nat, m: M, env: Env)
    requires Ready(m, env)
    ensures var c := Control(u, i, HostCondition(u.op.d, m.s.f), !Step(u, m, env).Miss?);
            match Step(u, m, env)
            case Next(_) => c == Goto(i + 1)
            case Skip(_, n) => c == Goto(i + 1 + n)
            case Exit(_, _) => c == Leave
            case Miss(_) => c == Leave
            case Other => true
  {
    hide AluStep, MemoryStep, BranchStep, VfpStep, Legal, HostCondition, IsRuntimeGuarded, IsTerminalBranch;
    if Step(u, m, env).Miss? {
      MissIsGuarded(u, m, env);
      GuardsGoOn(u.op.f);
    } else if Legal(u.op) && u.op.f == Cond {
      CondGoes(u, m);
      PlainFamilies();
    } else if Legal(u.op) && (u.op.f == End || IsTerminalBranch(u.op.f)) {
      BranchDispatch(u, m, env);
      BranchStepLeaves(u, m);
    } else if Legal(u.op) {
      OthersGoOn(u, m, env);
    }
  }

  lemma GuardsGoOn(f: Family)
    requires IsRuntimeGuarded(f)
    ensures f != Cond && f != End
  {
  }

  lemma PlainFamilies()
    ensures !IsTerminalBranch(Cond) && !IsRuntimeGuarded(Cond)
  {
  }

  lemma CondGoes(u: Uop, m: M)
    requires Wide(m.s) && Legal(u.op) && u.op.f == Cond
    ensures AluStep(u, m) == if HostCondition(u.op.d, m.s.f) then Next(m) else Skip(m, u.meta)
  {
    hide HostCondition;
  }

  lemma BranchStepLeaves(u: Uop, m: M)
    requires Wide(m.s) && Legal(u.op) && (u.op.f == End || IsTerminalBranch(u.op.f))
    ensures !BranchStep(u, m).Next? && !BranchStep(u, m).Skip?
  {
  }

  lemma OthersGoOn(u: Uop, m: M, env: Env)
    requires Ready(m, env) && Legal(u.op) && u.op.f != Cond && u.op.f != End && !IsTerminalBranch(u.op.f)
    ensures !Step(u, m, env).Exit? && !Step(u, m, env).Skip?
  {
    hide AluStep, MemoryStep, VfpStep, Legal;
    if IsVfp(u.op.f) {
      VfpGoesOn(u, m, env);
    } else if IsAlu(u.op.f) {
      AluGoesOn(u, m);
    } else {
      MemoryGoesOn(u, m, env);
    }
  }

  lemma VfpGoesOn(u: Uop, m: M, env: Env)
    requires Ready(m, env) && Legal(u.op)
    ensures !VfpStep(u, m, env).Exit? && !VfpStep(u, m, env).Skip?
  {
    hide MoveRecord, SystemRecord, DataRecord, InFile, HostVfpRead, HostVfpWrite, HostVstm;
    if !InFile(u) {
    } else if u.op.f == VfpRead {
      InFileFits(u);
      VfpReadGoesOn(m, env, u.imm, u.op.d == 1);
    } else if u.op.f == VfpWrite {
      InFileFits(u);
      VfpWriteGoesOn(m, env, u.imm, u.op.d == 1);
    } else if u.op.f == VstmWrite {
      VstmGoesOn(m, env, u.imm, u.op.c, u.op.d);
    }
  }

  lemma InFileFits(u: Uop)
    requires InFile(u) && (u.op.f == VfpRead || u.op.f == VfpWrite)
    ensures u.imm + WordsOf(u.op.d == 1) <= 32
  {
  }

  lemma VfpReadGoesOn(m: M, env: Env, first: nat, dbl: bool)
    requires Wide(m.s) && first + WordsOf(dbl) <= 32 && |env.dread| == 64
    ensures !HostVfpRead(m, env, first, dbl).Exit? && !HostVfpRead(m, env, first, dbl).Skip?
  {
    hide Enabled, Lookup, LoadBytes;
  }

  lemma VfpWriteGoesOn(m: M, env: Env, first: nat, dbl: bool)
    requires Wide(m.s) && first + WordsOf(dbl) <= 32 && (env.dwrite.Some? ==> |env.dwrite.value| == 64)
    ensures !HostVfpWrite(m, env, first, dbl).Exit? && !HostVfpWrite(m, env, first, dbl).Skip?
  {
    hide Enabled, Lookup, StoreBytes;
  }

  lemma VstmGoesOn(m: M, env: Env, imm: Word, mode: nat, rn: nat)
    requires Wide(m.s) && rn < 15 && (env.dwrite.Some? ==> |env.dwrite.value| == 64)
    ensures !HostVstm(m, env, imm, mode, rn).Exit? && !HostVstm(m, env, imm, mode, rn).Skip?
  {
    hide Enabled, Lookup, StoreBytes, Spread, VstmAddresses;
  }

  lemma AluGoesOn(u: Uop, m: M)
    requires Wide(m.s) && Legal(u.op) && u.op.f != Cond
    ensures !AluStep(u, m).Exit? && !AluStep(u, m).Skip?
  {
    hide HostShiftImm, HostShiftReg, HostDp;
  }

  lemma MemoryGoesOn(u: Uop, m: M, env: Env)
    requires Ready(m, env) && Legal(u.op)
    ensures !MemoryStep(u, m, env).Exit? && !MemoryStep(u, m, env).Skip?
  {
    hide Lookup, LoadBytes, StoreBytes, BlockAddresses, Extended;
  }

  // ------------------------------------------------------------ Whole runs

  /** The records a run dispatches, in order; an index behind the array stands for a run that left it. */
  function Trail(uops: seq<Uop>, i: nat, m: M, env: Env): (t: seq<nat>)
    requires Ready(m, env) && i <= |uops|
    ensures t != [] && t[0] == i
    decreases |uops| - i
  {
    if i == |uops| then [i]
    else
      match Step(uops[i], m, env)
      case Next(m1) => [i] + Trail(uops, i + 1, m1, env)
      case Skip(m1, n) => [i] + if i + 1 + n <= |uops| then Trail(uops, i + 1 + n, m1, env) else [i + 1 + n]
      case _ => [i]
  }

  /** Does a run reach a record that goes outside what is modelled? */
  predicate Escapes(uops: seq<Uop>, i: nat, m: M, env: Env)
    requires Ready(m, env) && i <= |uops|
    decreases |uops| - i
  {
    && i < |uops|
    && match Step(uops[i], m, env)
       case Next(m1) => Escapes(uops, i + 1, m1, env)
       case Skip(m1, n) => i + 1 + n <= |uops| && Escapes(uops, i + 1 + n, m1, env)
       case Other => true
       case _ => false
  }

  /** Do `pass` and `hit` say of every record a run dispatches whether its condition holds and whether it goes through? */
  ghost predicate Told(uops: seq<Uop>, i: nat, m: M, env: Env, pass: nat -> bool, hit: nat -> bool)
    requires Ready(m, env) && i <= |uops|
    decreases |uops| - i
  {
    i < |uops| ==>
      && pass(i) == HostCondition(uops[i].op.d, m.s.f) && hit(i) == !Step(uops[i], m, env).Miss?
      && match Step(uops[i], m, env)
         case Next(m1) => Told(uops, i + 1, m1, env, pass, hit)
         case Skip(m1, n) => i + 1 + n <= |uops| ==> Told(uops, i + 1 + n, m1, env, pass, hit)
         case _ => true
  }

  lemma {:induction false} ToldFrom(uops: seq<Uop>, i: nat, m: M, env: Env, pass: nat -> bool, hit: nat -> bool, q: nat -> bool, h: nat -> bool)
    requires Ready(m, env) && i <= |uops| && Told(uops, i, m, env, pass, hit)
    requires forall k: nat :: i <= k ==> q(k) == pass(k) && h(k) == hit(k)
    ensures Told(uops, i, m, env, q, h)
    decreases |uops| - i
  {
    hide Step, HostCondition;
    if i < |uops| {
      match Step(uops[i], m, env)
      case Next(m1) => ToldFrom(uops, i + 1, m1, env, pass, hit, q, h);
      case Skip(m1, n) =>
        if i + 1 + n <= |uops| {
          ToldFrom(uops, i + 1 + n, m1, env, pass, hit, q, h);
        }
      case _ =>
    }
  }

  /** A run visits no record twice, so there are such functions. */
  lemma {:induction false} Telling(uops: seq<Uop>, i: nat, m: M, env: Env) returns (pass: nat -> bool, hit: nat -> bool)
    requires Ready(m, env) && i <= |uops|
    ensures Told(uops, i, m, env, pass, hit)
    decreases |uops| - i
  {
    hide Step, HostCondition;
    pass, hit := (k: nat) => true, (k: nat) => true;
    if i < |uops| {
      var p, h := pass, hit;
      var o := Step(uops[i], m, env);
      match o {
        case Next(m1) => p, h := Telling(uops, i + 1, m1, env);
        case Skip(m1, n) =>
          if i + 1 + n <= |uops| {
            p, h := Telling(uops, i + 1 + n, m1, env);
          }
        case _ =>
      }
      var holds, through := HostCondition(uops[i].op.d, m.s.f), !o.Miss?;
      pass, hit := (k: nat) => if k == i then holds else p(k), (k: nat) => if k == i then through else h(k);
      match o {
        case Next(m1) => ToldFrom(uops, i + 1, m1, env, p, h, pass, hit);
        case Skip(m1, n) =>
          if i + 1 + n <= |uops| {
            ToldFrom(uops, i + 1 + n, m1, env, p, h, pass, hit);
          }
        case _ =>
      }
    }
  }

  /** A run stops at the last record of its trail. */
  lemma {:induction false} RunEnds(uops: seq<Uop>, i: nat, m: M, env: Env)
    requires Ready(m, env) && i <= |uops| && !Escapes(uops, i, m, env)
    ensures var t := Trail(uops, i, m, env);
            match Run(uops, i, m, env)
            case Missed(_, j) => t[|t| - 1] == j
            case Left(_, _) => true
            case _ => t[|t| - 1] >= |uops|
    decreases |uops| - i
  {
    hide Step;
    if i < |uops| {
      match Step(uops[i], m, env)
      case Next(m1) => RunEnds(uops, i + 1, m1, env);
      case Skip(m1, n) =>
        if i + 1 + n <= |uops| {
          RunEnds(uops, i + 1 + n, m1, env);
        }
      case _ =>
    }
  }

  /** The run is the walk. */
  lemma {:induction false} TrailIsVisits(uops: seq<Uop>, i: nat, m: M, env: Env, pass: nat -> bool, hit: nat -> bool)
    requires Ready(m, env) && i <= |uops| && Told(uops, i, m, env, pass, hit) && !Escapes(uops, i, m, env)
    ensures Trail(uops, i, m, env) == Visits(uops, i, pass, hit)
    decreases |uops| - i
  {
    hide Step, HostCondition, Control, Visits;
    if i == |uops| {
      VisitsNothing(uops, i, pass, hit);
    } else {
      VisitsStep(uops, i, pass, hit);
      DispatchIsControl(uops[i], i, m, env);
      match Step(uops[i], m, env)
      case Next(m1) => TrailIsVisits(uops, i + 1, m1, env, pass, hit);
      case Skip(m1, n) =>
        if i + 1 + n <= |uops| {
          TrailIsVisits(uops, i + 1 + n, m1, env, pass, hit);
        } else {
          VisitsNothing(uops, i + 1 + n, pass, hit);
        }
      case _ =>
    }
  }

  lemma VisitsNothing(uops: seq<Uop>, i: nat, pass: nat -> bool, hit: nat -> bool)
    requires i >= |uops|
    ensures Visits(uops, i, pass, hit) == [i]
  {
  }

  /** Whatever record array the validator accepts and whatever the machine, dispatch from the first record stays inside the array,
      visits each record at most once, skips exactly one whole semantic instruction at a failed condition, and ends at a record
      that leaves the block or refuses; or it reaches one that goes outside what is modelled. */
  lemma AcceptedRuns(b: Block, e: Entry, kind: Mode, m: M, env: Env)
    requires ValidRun(b, e, kind) && Ready(m, env) && !Escapes(b.uops, 0, m, env)
    ensures var t, run := Trail(b.uops, 0, m, env), Run(b.uops, 0, m, env);
            && (forall k :: 0 <= k < |t| ==> t[k] < |b.uops|) && |t| <= |b.uops|
            && (run.Left? || (run.Missed? && run.at == t[|t| - 1]))
    ensures exists pass, hit :: Told(b.uops, 0, m, env, pass, hit)
                                && Orderly(b.uops, Trail(b.uops, 0, m, env), pass, hit, Boundaries(b.uops, 0, |b.uops| - 1))
  {
    hide ValidRun, Trail, Run, Told, Orderly, Visits, Escapes, Boundaries;
    var pass, hit := Telling(b.uops, 0, m, env);
    TrailIsVisits(b.uops, 0, m, env, pass, hit);
    RunEnds(b.uops, 0, m, env);
    ValidatorIsSound(b, e, kind, pass, hit);
  }

  // ------------------------------------------------------------ Runs behind the caches stay inside memory

  predicate IsCommit(f: Family) { f == StmCommit || f == LdmCommit }

  /** A record a hit mode may run. */
  predicate Fit(u: Uop) { Legal(u.op) && WithinFile(u) && !IsTouchingFlat(u.op.f) }

  lemma LookupInside(table: seq<CacheEntry>, va: Word, priv: bool, gen: Word, map0: map<(Word, bool), nat>, size: nat, n: nat)
    requires Faithful(table, gen, map0) && Mapped(map0, size) && va % BLOCK + n <= BLOCK
    ensures |table| == 64 && (Lookup(table, va, priv, gen).Some? ==> Lookup(table, va, priv, gen).value + n <= size)
  {
    assert |table| == 64;
    hide Faithful, Mapped, Lookup;
    if Lookup(table, va, priv, gen).Some? {
      HitIsTranslation(table, va, priv, gen, map0, size);
    }
  }

  /** An aligned access stays in its block. */
  lemma AlignedInBlock(va: Word, w: nat)
    requires (w == 1 || w == 2 || w == 4) && va % w == 0
    ensures va % BLOCK + w <= BLOCK
  {
    if w == 2 {
      assert va % 1024 % 2 == 0;
    } else if w == 4 {
      assert va % 1024 % 4 == 0;
    }
  }

  lemma ReadInside(m: M, env: Env, kind: nat, rd: nat)
    requires Wide(m.s) && rd < 15 && Sound(env, |m.s.ram|)
    ensures !HostRead(m, env, kind, rd).Other?
  {
    hide Lookup, LoadBytes, Extended, Faithful, Mapped;
    var va, w := Wrap(m.k.x17), KindWidth(kind);
    if va % w == 0 {
      AlignedInBlock(va, w);
      LookupInside(env.dread, va, env.priv, env.gen, env.mmu.readable, |m.s.ram|, w);
    }
  }

  lemma WriteInside(m: M, u: Uop, env: Env, kind: nat, rd: nat, wb: Option<nat>, unprivileged: bool)
    requires Wide(m.s) && (wb.Some? ==> wb.value < 15) && Sound(env, |m.s.ram|)
    ensures env.dwrite.Some? ==> |env.dwrite.value| == 64
    ensures !HostWrite(m, u, env, kind, rd, wb, unprivileged).Other?
  {
    hide Lookup, StoreBytes, Mapped;
    var va, w := Wrap(m.k.x17), KindWidth(kind);
    if va % w == 0 && env.dwrite.Some? {
      AlignedInBlock(va, w);
      LookupInside(env.dwrite.value, va, env.priv && !unprivileged, env.gen, env.mmu.writable, |m.s.ram|, w);
    }
  }

  /** A preflight that passes leaves the host address of a range that lies in RAM. */
  lemma PreflightInside(m: M, u: Uop, env: Env, load: bool, pre: bool, up: bool, rn: nat)
    requires Wide(m.s) && rn < 15 && Sound(env, |m.s.ram|)
    ensures env.dwrite.Some? ==> |env.dwrite.value| == 64
    ensures var o := HostPreflight(m, u, env, if load then Some(env.dread) else env.dwrite, load, pre, up, rn);
            !o.Other? && (o.Next? ==> o.m.k.x17 + 4 * u.imm <= |m.s.ram|)
  {
    hide Lookup, Mapped, BlockAddresses;
    var table := if load then Some(env.dread) else env.dwrite;
    var first := BlockAddresses(pre, up, m.s.r[rn], u.imm).0;
    if table.Some? && first % BLOCK + 4 * u.imm <= BLOCK {
      LookupInside(table.value, first, env.priv, env.gen, if load then env.mmu.readable else env.mmu.writable, |m.s.ram|, 4 * u.imm);
    }
  }

  lemma CommitsInside(m: M, rd: nat)
    requires Wide(m.s) && rd < 15 && m.k.x17 + 4 <= |m.s.ram|
    ensures HostLdmCommit(m, rd).Next? && HostLdmCommit(m, rd).m.k.x17 == m.k.x17 + 4
  {
    hide LoadBytes;
  }

  lemma StoresInside(m: M, rd: nat)
    requires Wide(m.s) && m.k.x17 + 4 <= |m.s.ram|
    ensures HostStmCommit(m, rd).Next? && HostStmCommit(m, rd).m.k.x17 == m.k.x17 + 4
  {
    hide StoreBytes;
  }

  lemma VfpReadInside(m: M, env: Env, first: nat, dbl: bool)
    requires Wide(m.s) && first + WordsOf(dbl) <= 32 && Sound(env, |m.s.ram|)
    ensures !HostVfpRead(m, env, first, dbl).Other?
  {
    hide Lookup, LoadBytes, Mapped, Enabled, Faithful;
    var va := Wrap(m.k.x17);
    if va % 4 == 0 && !(dbl && va % BLOCK > 1016) {
      AlignedInBlock(va, 4);
      LookupInside(env.dread, va, env.priv, env.gen, env.mmu.readable, |m.s.ram|, 4 * WordsOf(dbl));
    }
  }

  lemma VfpWriteInside(m: M, env: Env, first: nat, dbl: bool)
    requires Wide(m.s) && first + WordsOf(dbl) <= 32 && Sound(env, |m.s.ram|)
    ensures env.dwrite.Some? ==> |env.dwrite.value| == 64
    ensures !HostVfpWrite(m, env, first, dbl).Other?
  {
    SoundReady(env, |m.s.ram|);
    hide Lookup, StoreBytes, Mapped, Enabled, Faithful, Sound;
    var va := Wrap(m.k.x17);
    if va % 4 == 0 && env.dwrite.Some? {
      NextAligned(va);
      WordInside(env, va, |m.s.ram|);
      WordInside(env, Wrap(va as int + 4), |m.s.ram|);
    }
  }

  lemma NextAligned(va: Word)
    requires va % 4 == 0
    ensures Wrap(va as int + 4) % 4 == 0
  {
  }

  lemma WordInside(env: Env, va: Word, size: nat)
    requires Sound(env, size) && env.dwrite.Some? && va % 4 == 0
    ensures |env.dwrite.value| == 64
    ensures Lookup(env.dwrite.value, va, env.priv, env.gen).Some? ==> Lookup(env.dwrite.value, va, env.priv, env.gen).value + 4 <= size
  {
    hide Lookup, Mapped, Faithful;
    AlignedInBlock(va, 4);
    LookupInside(env.dwrite.value, va, env.priv, env.gen, env.mmu.writable, size, 4);
  }

  lemma VstmInside(m: M, env: Env, imm: Word, mode: nat, rn: nat)
    requires Wide(m.s) && rn < 15 && Sound(env, |m.s.ram|)
    ensures env.dwrite.Some? ==> |env.dwrite.value| == 64
    ensures !HostVstm(m, env, imm, mode, rn).Other?
  {
    hide Lookup, StoreBytes, Mapped, Enabled, Spread, VstmAddresses;
    var n := imm / 256 % 64;
    var va := VstmAddresses(mode, m.s.r[rn], n).0;
    if env.dwrite.Some? && va % BLOCK + 4 * n <= BLOCK {
      LookupInside(env.dwrite.value, va, env.priv, env.gen, env.mmu.writable, |m.s.ram|, 4 * n);
    }
  }

  lemma SoundReady(env: Env, size: nat)
    requires Sound(env, size)
    ensures |env.dread| == 64 && (env.dwrite.Some? ==> |env.dwrite.value| == 64)
  {
  }

  lemma VfpInside(u: Uop, m: M, env: Env)
    requires Ready(m, env) && Fit(u) && IsVfp(u.op.f) && Sound(env, |m.s.ram|)
    ensures !VfpStep(u, m, env).Other?
  {
    hide MoveRecord, SystemRecord, DataRecord, HostVfpRead, HostVfpWrite, HostVstm, Sound, InFile;
    WithinIsIn(u);
    if u.op.f == VfpRead {
      InFileFits(u);
      VfpReadInside(m, env, u.imm, u.op.d == 1);
    } else if u.op.f == VfpWrite {
      InFileFits(u);
      VfpWriteInside(m, env, u.imm, u.op.d == 1);
    } else if u.op.f == VstmWrite {
      VstmInside(m, env, u.imm, u.op.c, u.op.d);
    }
  }

  lemma WithinIsIn(u: Uop)
    requires WithinFile(u)
    ensures InFile(u)
  {
  }

  lemma MemoryInside(u: Uop, m: M, env: Env)
    requires Ready(m, env) && Fit(u) && Sound(env, |m.s.ram|)
    requires !IsVfp(u.op.f) && !IsAlu(u.op.f) && u.op.f != End && !IsTerminalBranch(u.op.f)
    requires IsCommit(u.op.f) ==> m.k.x17 + 4 <= |m.s.ram|
    ensures var o := MemoryStep(u, m, env);
            && !o.Other? && (IsCommit(u.op.f) && o.Next? ==> o.m.k.x17 == m.k.x17 + 4)
            && ((u.op.f == StmPreflight || u.op.f == LdmPreflight) && o.Next? ==> o.m.k.x17 + 4 * u.imm <= |m.s.ram|)
  {
    hide HostRead, HostWrite, HostPreflight, HostLdmCommit, HostStmCommit, HostFinish, Sound, WithinFile;
    var op := u.op;
    match op.f
    case DirectRead => ReadInside(m, env, op.c, op.d);
    case DirectWrite => WriteInside(m, u, env, op.c, op.d, None, false);
    case DirectWriteWb => WriteInside(m, u, env, op.b, op.c, Some(op.d), false);
    case DirectWriteWbUnpriv => WriteInside(m, u, env, op.b, op.c, Some(op.d), true);
    case StmPreflight => PreflightInside(m, u, env, false, op.b == 1, op.c == 1, op.d);
    case LdmPreflight => PreflightInside(m, u, env, true, op.b == 1, op.c == 1, op.d);
    case StmCommit => StoresInside(m, op.d);
    case LdmCommit => CommitsInside(m, op.d);
    case StmFinish | StmFinishWb | LdmFinish | LdmFinishWb => FinishInside(m, u, if op.f == StmFinishWb || op.f == LdmFinishWb then Some(op.d) else None);
    case _ =>
  }

  lemma FinishInside(m: M, u: Uop, wb: Option<nat>)
    requires Wide(m.s) && (wb.Some? ==> wb.value < 15)
    ensures HostFinish(m, u, wb, true).Next? && HostFinish(m, u, wb, false).Next?
  {
  }

  /** One record behind sound caches stays inside memory; a commit needs the room its preflight proved. */
  lemma StepInside(u: Uop, m: M, env: Env)
    requires Ready(m, env) && Fit(u) && Sound(env, |m.s.ram|)
    requires IsCommit(u.op.f) ==> m.k.x17 + 4 <= |m.s.ram|
    ensures var o := Step(u, m, env);
            && !o.Other?
            && (o.Next? || o.Skip? ==> |o.m.s.ram| == |m.s.ram|)
            && (IsCommit(u.op.f) && o.Next? ==> o.m.k.x17 == m.k.x17 + 4)
            && ((u.op.f == StmPreflight || u.op.f == LdmPreflight) && o.Next? ==> o.m.k.x17 + 4 * u.imm <= |m.s.ram|)
  {
    hide AluStep, MemoryStep, BranchStep, VfpStep, Sound, WithinFile, Legal;
    StepKeeps(u, m, env);
    NotBlockWork(u.op.f);
    if IsVfp(u.op.f) {
      VfpInside(u, m, env);
    } else if IsAlu(u.op.f) {
      AluInside(u, m);
    } else if u.op.f == End || IsTerminalBranch(u.op.f) {
      BranchDispatch(u, m, env);
      BranchInside(u, m);
    } else {
      MemoryInside(u, m, env);
    }
  }

  lemma NotBlockWork(f: Family)
    ensures IsVfp(f) || IsAlu(f) || f == End || IsTerminalBranch(f) ==> !IsCommit(f) && f != StmPreflight && f != LdmPreflight
  {
  }

  lemma AluInside(u: Uop, m: M)
    requires Wide(m.s) && Legal(u.op) && IsAlu(u.op.f)
    ensures !AluStep(u, m).Other?
  {
    hide HostShiftImm, HostShiftReg, HostDp, HostCondition;
  }

  lemma BranchInside(u: Uop, m: M)
    requires Wide(m.s) && Legal(u.op) && (u.op.f == End || IsTerminalBranch(u.op.f))
    ensures !BranchStep(u, m).Other?
  {
    hide HostCondition;
  }

  // ------------------------------------------------------------ Whole arrays

  /** A commit inside a semantic instruction stands between the preflight that starts it and its finish. */
  lemma CommitOfBlock(uops: seq<Uop>, i: nat, end: nat, k: nat)
    requires end <= |uops| && i <= k < i + Span(uops, i, end) && IsCommit(uops[k].op.f)
    ensures (uops[i].op.f == StmPreflight || uops[i].op.f == LdmPreflight) && i < k < i + uops[i].imm + 1
  {
    hide BlockSpan, Span, IsCommit;
    if uops[i].op.f == StmPreflight || uops[i].op.f == LdmPreflight {
      PreflightSpan(uops, i, end);
      CommitBeforeFinish(uops, i, end, uops[i].op.f == LdmPreflight, k);
    } else if k == i {
      SpanHead(uops, i, end);
    } else {
      SpanTail(uops, i, end, k);
    }
  }

  lemma PreflightSpan(uops: seq<Uop>, i: nat, end: nat)
    requires i < end <= |uops| && (uops[i].op.f == StmPreflight || uops[i].op.f == LdmPreflight)
    ensures Span(uops, i, end) == BlockSpan(uops, i, end, uops[i].op.f == LdmPreflight)
  {
    hide BlockSpan;
  }

  lemma SpanHead(uops: seq<Uop>, i: nat, end: nat)
    requires end <= |uops| && Span(uops, i, end) != 0
    ensures i < end && !IsCommit(uops[i].op.f)
  {
    hide BlockSpan;
  }

  lemma SpanTail(uops: seq<Uop>, i: nat, end: nat, k: nat)
    requires end <= |uops| && i < k < i + Span(uops, i, end) && uops[i].op.f != StmPreflight && uops[i].op.f != LdmPreflight
    ensures !IsCommit(uops[k].op.f)
  {
    hide BlockSpan, IsTerminalBranch, IsShift, IsAddrImm, IsLdmFinish;
  }

  lemma CommitBeforeFinish(uops: seq<Uop>, i: nat, end: nat, load: bool, k: nat)
    requires i < end <= |uops| && i <= k < i + BlockSpan(uops, i, end, load) && IsCommit(uops[k].op.f)
    ensures i < k < i + uops[i].imm + 1
  {
  }

  /** Room for the commits still to come. */
  predicate Room(uops: seq<Uop>, i: nat, k: nat, m: M)
    requires i < |uops|
  {
    (uops[i].op.f == StmPreflight || uops[i].op.f == LdmPreflight) && i < k < i + uops[i].imm + 1
    ==> m.k.x17 + 4 * (uops[i].imm - (k - i - 1)) <= |m.s.ram|
  }

  ghost predicate AllFit(uops: seq<Uop>) { forall j :: 0 <= j < |uops| ==> Fit(uops[j]) }

  lemma {:induction false} BoundaryStays(uops: seq<Uop>, i: nat, m: M, env: Env)
    requires Accepted(uops) && AllFit(uops) && i in Boundaries(uops, 0, |uops| - 1) && i <= |uops|
    requires Ready(m, env) && Sound(env, |m.s.ram|)
    ensures !Escapes(uops, i, m, env)
    decreases |uops| - i, 1
  {
    hide Span, Walk, Boundaries, Stride, Step, Sound, Fit, IsCommit, Accepted;
    var end := AcceptedEnd(uops);
    NextBoundary(uops, 0, end, i);
    assert Fit(uops[i]);
    if i == end {
      EndLeaves(uops[i], m, env);
    } else if uops[i].op.f != Cond {
      StrideStep(uops, i, end);
      SpanStays(uops, i, i, m, env);
    } else {
      StrideStep(uops, i, end);
      NotBlockWork(Cond);
      StepInside(uops[i], m, env);
      CondSteps(uops[i], m, env);
      match Step(uops[i], m, env)
      case Next(m1) => SpanStays(uops, i + 1, i + 1, m1, env);
      case Skip(m1, n) => BoundaryStays(uops, i + 1 + n, m1, env);
      case _ =>
    }
  }

  lemma AcceptedEnd(uops: seq<Uop>) returns (end: nat)
    requires Accepted(uops)
    ensures end == |uops| - 1 && uops[end].op.f == End && Walk(uops, 0, end).Some?
  {
    end := |uops| - 1;
  }

  lemma EndLeaves(u: Uop, m: M, env: Env)
    requires Ready(m, env) && Fit(u) && u.op.f == End
    ensures Step(u, m, env).Exit?
  {
    hide WithinFile;
  }

  lemma CondSteps(u: Uop, m: M, env: Env)
    requires Ready(m, env) && Fit(u) && u.op.f == Cond
    ensures Step(u, m, env) == Next(m) || Step(u, m, env) == Skip(m, u.meta)
  {
    hide WithinFile, HostCondition;
  }

  lemma {:induction false} SpanStays(uops: seq<Uop>, i: nat, k: nat, m: M, env: Env)
    requires Accepted(uops) && AllFit(uops) && i <= k < i + Span(uops, i, |uops| - 1)
    requires i + Span(uops, i, |uops| - 1) in Boundaries(uops, 0, |uops| - 1)
    requires Ready(m, env) && Sound(env, |m.s.ram|) && Room(uops, i, k, m)
    ensures !Escapes(uops, k, m, env)
    decreases |uops| - k, 0
  {
    hide Span, Walk, Boundaries, Step, Sound, Fit, IsCommit;
    assert Fit(uops[k]);
    SpanIsPlain(uops, i, |uops| - 1, k);
    if IsCommit(uops[k].op.f) {
      CommitOfBlock(uops, i, |uops| - 1, k);
    }
    StepInside(uops[k], m, env);
    PlainNext(uops[k], m, env);
    if Step(uops[k], m, env).Next? {
      var m1 := Step(uops[k], m, env).m;
      if k + 1 == i + Span(uops, i, |uops| - 1) {
        BoundaryStays(uops, k + 1, m1, env);
      } else {
        RoomStays(uops, i, k, |uops| - 1, m, m1);
        SpanStays(uops, i, k + 1, m1, env);
      }
    }
  }

  lemma PlainNext(u: Uop, m: M, env: Env)
    requires Ready(m, env) && Fit(u) && u.op.f != Cond
    ensures !Step(u, m, env).Skip?
  {
    hide *;
    DispatchIsControl(u, 0, m, env);
    NoSkip(u, m, env);
  }

  lemma NoSkip(u: Uop, m: M, env: Env)
    requires Ready(m, env) && Fit(u) && u.op.f != Cond
    ensures !Step(u, m, env).Skip?
  {
    hide AluStep, MemoryStep, BranchStep, VfpStep, Legal, WithinFile;
    if u.op.f == End || IsTerminalBranch(u.op.f) {
      BranchDispatch(u, m, env);
      BranchStepLeaves(u, m);
    } else {
      OthersGoOn(u, m, env);
    }
  }

  /** A passed preflight gives room for all commits, and each commit uses four bytes of it. */
  lemma RoomStays(uops: seq<Uop>, i: nat, k: nat, end: nat, m: M, m1: M)
    requires end <= |uops| && i <= k && k + 1 < i + Span(uops, i, end) && Room(uops, i, k, m) && |m1.s.ram| == |m.s.ram|
    requires IsCommit(uops[k].op.f) ==> m1.k.x17 == m.k.x17 + 4
    requires uops[k].op.f == StmPreflight || uops[k].op.f == LdmPreflight ==> m1.k.x17 + 4 * uops[k].imm <= |m.s.ram|
    ensures Room(uops, i, k + 1, m1)
  {
    hide BlockSpan;
    if (uops[i].op.f == StmPreflight || uops[i].op.f == LdmPreflight) && i < k < i + uops[i].imm + 1 {
      CommitsInBlock(uops, i, end, uops[i].op.f == LdmPreflight, k);
    }
  }

  lemma CommitsInBlock(uops: seq<Uop>, i: nat, end: nat, load: bool, k: nat)
    requires i < end <= |uops| && BlockSpan(uops, i, end, load) != 0 && i < k < i + uops[i].imm + 1
    ensures IsCommit(uops[k].op.f)
  {
    var n := uops[i].imm;
    var commits := uops[i + 1..i + n + 1];
    assert commits[k - i - 1] == uops[k];
  }

  /** An array accepted for a hit mode whose records name VFP registers that exist never goes outside RAM or the register file
      while the caches are sound. */
  lemma AcceptedStays(b: Block, e: Entry, kind: Mode, m: M, env: Env)
    requires ValidRun(b, e, kind) && Reads(kind) && (forall j :: 0 <= j < |b.uops| && Trusted(b.uops[j].op.f) ==> WithinFile(b.uops[j]))
    requires Ready(m, env) && Sound(env, |m.s.ram|)
    ensures !Escapes(b.uops, 0, m, env) && !Run(b.uops, 0, m, env).Unmodelled?
  {
    hide RecordOk, KindAllows, TraitsOf, Run, Escapes, Boundaries, Walk, WithinFile, Sound, Told, Visits, Orderly, Trail, Legal, PowerOfTwo;
    WithinFileIff(b, e, kind);
    forall j | 0 <= j < |b.uops|
      ensures Fit(b.uops[j])
    {
      FitAccepted(b, e, kind, j);
    }
    StartsAtZero(b.uops);
    BoundaryStays(b.uops, 0, m, env);
    AcceptedRuns(b, e, kind, m, env);
  }

  lemma FitAccepted(b: Block, e: Entry, kind: Mode, j: nat)
    requires ValidRun(b, e, kind) && Reads(kind) && j < |b.uops| && WithinFile(b.uops[j])
    ensures Fit(b.uops[j])
  {
    hide CountOk, TraitsOf, WithinFile, PowerOfTwo, Legal, TerminalShape, GuardMetadata, StoreImmediate, VfpArithImmediate;
    var body := b.uops[..|b.uops| - 1];
    if j < |body| {
      assert RecordOk(b, j) && KindAllows(body[j].op.f, kind);
    }
  }

  lemma StartsAtZero(uops: seq<Uop>)
    requires |uops| > 0
    ensures 0 in Boundaries(uops, 0, |uops| - 1)
  {
  }

  // ------------------------------------------------------------ What the modes promise

  /** Every record before the end belongs to a semantic instruction. */
  lemma {:induction false} InStride(uops: seq<Uop>, s: nat, end: nat, j: nat) returns (i: nat)
    requires s <= j < end <= |uops| && Walk(uops, s, end).Some?
    ensures s <= i < end && Stride(uops, i, end) != 0 && i <= j < i + Stride(uops, i, end)
    decreases end - s
  {
    hide Stride;
    if j < s + Stride(uops, s, end) {
      i := s;
    } else {
      i := InStride(uops, s + Stride(uops, s, end), end, j);
    }
  }

  /** A record that prepares or makes a block store has a finish of a block store behind it. */
  lemma FinishBehind(uops: seq<Uop>, end: nat, j: nat) returns (k: nat)
    requires j < end <= |uops| && Walk(uops, 0, end).Some? && (uops[j].op.f == StmPreflight || uops[j].op.f == StmCommit)
    ensures k < end && IsStmFinish(uops[k].op.f)
  {
    hide Stride, Span, Walk, IsCommit, IsStmFinish;
    var i := InStride(uops, 0, end, j);
    StrideStep(uops, i, end);
    var start := if uops[i].op.f == Cond then i + 1 else i;
    StmIsCommit(uops[j].op.f);
    if uops[j].op.f == StmCommit {
      CommitOfBlock(uops, start, end, j);
    } else {
      PreflightStarts(uops, start, end, j);
    }
    PreflightSpan(uops, start, end);
    k := BlockFinish(uops, start, end, uops[start].op.f == LdmPreflight, j);
  }

  lemma StmIsCommit(f: Family)
    ensures f == StmCommit ==> IsCommit(f)
  {
  }

  lemma PreflightStarts(uops: seq<Uop>, i: nat, end: nat, j: nat)
    requires end <= |uops| && i <= j < i + Span(uops, i, end) && uops[j].op.f == StmPreflight
    ensures j == i
  {
    hide BlockSpan, IsTerminalBranch, IsShift, IsAddrImm, IsLdmFinish;
    if i < j && (uops[i].op.f == StmPreflight || uops[i].op.f == LdmPreflight) {
      PreflightSpan(uops, i, end);
      NoPreflightInside(uops, i, end, uops[i].op.f == LdmPreflight, j);
    }
  }

  lemma NoPreflightInside(uops: seq<Uop>, i: nat, end: nat, load: bool, j: nat)
    requires i < end <= |uops| && i < j < i + BlockSpan(uops, i, end, load)
    ensures uops[j].op.f != StmPreflight
  {
    var n := uops[i].imm;
    var commits := uops[i + 1..i + n + 1];
    if j < i + n + 1 {
      assert commits[j - i - 1] == uops[j];
    }
  }

  lemma BlockFinish(uops: seq<Uop>, i: nat, end: nat, load: bool, j: nat) returns (k: nat)
    requires i < end <= |uops| && i <= j < i + BlockSpan(uops, i, end, load)
    requires uops[j].op.f == StmPreflight || uops[j].op.f == StmCommit
    ensures k < end && IsStmFinish(uops[k].op.f)
  {
    var n := uops[i].imm;
    var commits := uops[i + 1..i + n + 1];
    k := i + n + 1;
    if i < j < k {
      assert commits[j - i - 1] == uops[j];
    }
  }

  lemma NoBlockStore(b: Block, e: Entry, kind: Mode, j: nat)
    requires ValidRun(b, e, kind) && kind != MemoryHits && j < |b.uops| - 1
    ensures b.uops[j].op.f != StmPreflight && b.uops[j].op.f != StmCommit
  {
    hide RecordOk, TraitsOf, PowerOfTwo, Walk, IsStmFinish;
    if b.uops[j].op.f == StmPreflight || b.uops[j].op.f == StmCommit {
      var k := FinishBehind(b.uops, |b.uops| - 1, j);
      assert KindAllows(b.uops[..|b.uops| - 1][k].op.f, kind);
      FinishStores(b.uops[k].op.f, kind);
    }
  }

  lemma FinishStores(f: Family, kind: Mode)
    requires IsStmFinish(f) && kind != MemoryHits
    ensures !KindAllows(f, kind)
  {
  }

  lemma ExitKeeps(u: Uop, m: M, env: Env)
    requires Ready(m, env) && Step(u, m, env).Exit?
    ensures Step(u, m, env).m.s.ram == m.s.ram
  {
    hide AluStep, MemoryStep, BranchStep, VfpStep, Legal;
    if u.op.f == Cond {
      CondGoes(u, m);
    } else if u.op.f == End || IsTerminalBranch(u.op.f) {
      BranchDispatch(u, m, env);
      BranchKeepsRam(u, m);
    } else {
      OthersGoOn(u, m, env);
    }
  }

  lemma BranchKeepsRam(u: Uop, m: M)
    requires Wide(m.s) && Legal(u.op) && BranchStep(u, m).Exit?
    ensures BranchStep(u, m).m.s.ram == m.s.ram
  {
    hide HostCondition;
  }

  predicate Unwritten(run: Stop, ram: seq<Byte>) {
    match run
    case Fell(m) => m.s.ram == ram
    case Left(m, _) => m.s.ram == ram
    case Missed(m, _) => m.s.ram == ram
    case Unmodelled => true
  }

  lemma {:induction false} RunUnwritten(uops: seq<Uop>, i: nat, m: M, env: Env)
    requires Ready(m, env) && i <= |uops| && forall j :: 0 <= j < |uops| ==> !Storing(uops[j])
    ensures Unwritten(Run(uops, i, m, env), m.s.ram)
    decreases |uops| - i
  {
    hide Step, Storing;
    if i < |uops| {
      StepKeeps(uops[i], m, env);
      match Step(uops[i], m, env)
      case Next(m1) => RunUnwritten(uops, i + 1, m1, env);
      case Skip(m1, n) =>
        if i + 1 + n <= |uops| {
          RunUnwritten(uops, i + 1 + n, m1, env);
        }
      case Exit(_, _) => ExitKeeps(uops[i], m, env);
      case Miss(_) => MissIsGuarded(uops[i], m, env);
      case Other =>
    }
  }

  /** An array accepted for cached reads only never writes memory, however it was built. */
  lemma ReadHitsUnwritten(b: Block, e: Entry, m: M, env: Env)
    requires ValidRun(b, e, ReadHits) && Ready(m, env)
    ensures Unwritten(Run(b.uops, 0, m, env), m.s.ram)
  {
    hide Run, RecordOk, TraitsOf, PowerOfTwo, CountOk, Unwritten;
    forall j | 0 <= j < |b.uops|
      ensures !Storing(b.uops[j])
    {
      if j < |b.uops| - 1 {
        NoBlockStore(b, e, ReadHits, j);
        assert KindAllows(b.uops[..|b.uops| - 1][j].op.f, ReadHits);
      }
    }
    RunUnwritten(b.uops, 0, m, env);
  }

  /** An array accepted for flat memory refuses nowhere but at an indirect branch closing it. */
  lemma FlatRefusesLast(b: Block, e: Entry, m: M, env: Env, j: nat, now: M)
    requires ValidRun(b, e, Flat) && Ready(m, env) && Run(b.uops, 0, m, env) == Missed(now, j)
    ensures j + 2 == |b.uops| && IsIndirectBranch(b.uops[j].op.f)
  {
    hide Run, RecordOk, TraitsOf, PowerOfTwo, CountOk, IsRuntimeGuarded;
    assert [] + b.uops + [] == b.uops;
    RunWithin([], b.uops, [], 0, m, env);
    EndUnguarded();
    NoBlockStore(b, e, Flat, j);
    assert KindAllows(b.uops[..|b.uops| - 1][j].op.f, Flat);
    FlatGuards(b.uops[j].op.f);
    BranchLast(b, j);
  }

  lemma FlatGuards(f: Family)
    requires KindAllows(f, Flat) && f != StmPreflight && IsRuntimeGuarded(f)
    ensures IsIndirectBranch(f)
  {
  }

  lemma BranchLast(b: Block, j: nat)
    requires j < |b.uops| - 1 && RecordOk(b, j) && IsIndirectBranch(b.uops[j].op.f)
    ensures j + 2 == |b.uops|
  {
    hide Legal, TerminalShape, GuardMetadata, StoreImmediate, VfpArithImmediate;
  }
}
