/** Meaning of the generated handlers, written with the host instructions they are made of. */
module Exec {
  import opened Words
  import opened Handlers
  import opened Decode
  import opened Machine
  import opened ExecVfp

  /** Host registers that carry values from one record to the next. */
  datatype Scratch = Scratch(w6: bool, w9: Word, w10: Word, x17: nat, x7: Flags)

  datatype M = M(s: State, k: Scratch)

  /** What a handler does: continue, skip records, leave the block, refuse before any change, or reach outside what is modelled:
      an id behind the table, or host memory that is neither RAM nor register file. */
  datatype Outcome = Next(m: M) | Skip(m: M, n: nat) | Exit(m: M, pc: Word) | Miss(m: M) | Other

  // ------------------------------------------------------------ Host primitives

  function Lsl(x: Word, n: nat): Word { Wrap(x * Pow2(n)) }

  function Lsr(x: Word, n: nat): Word {
    QuotientBelow(x, Pow2(n));
    x / Pow2(n)
  }

  lemma QuotientBelow(x: nat, p: nat)
    requires p > 0
    ensures 0 <= x / p <= x
  {
    DivModFacts(x, p);
    AtLeastOnce(p, x / p);
  }

  function Asr(x: Word, n: nat): Word { Wrap(Signed(x) / Pow2(n)) }

  /** UBFX of one bit. */
  predicate BitAt(x: Word, i: nat) { x / Pow2(i) % 2 == 1 }

  /** The host's own condition decoding: a base test and an inverting low bit. */
  predicate HostCondition(c: nat, f: Flags) {
    var base := match c / 2
      case 0 => f.z
      case 1 => f.c
      case 2 => f.n
      case 3 => f.v
      case 4 => f.c && !f.z
      case 5 => f.n == f.v
      case 6 => f.n == f.v && !f.z
      case _ => true;
    if c % 2 == 1 && c != 15 then !base else base
  }

  // ------------------------------------------------------------ Registers

  /** r15 reads the record's pc operand. */
  function Guest(s: State, u: Uop, reg: nat): Word
    requires Wide(s)
  {
    if reg < 15 then s.r[reg] else u.pcv
  }

  function Set(s: State, reg: nat, w: Word): (t: State)
    requires Wide(s) && reg < 15
    ensures Wide(t) && t.ram == s.ram
  {
    s.(r := s.r[reg := w])
  }

  // ------------------------------------------------------------ Data processing

  /** N and Z of a result beside given C and V. */
  function LogicFlags(result: Word, c: bool, v: bool): Flags {
    Flags(result >= 0x8000_0000, result == 0, c, v)
  }

  /** The ALU instruction a data-processing handler is built around: its result and the flags ADDS and the like would set. */
  function HostAlu(opcode: nat, a: Word, b: Word, c: bool): (Word, Flags) {
    var add := AddWithCarry(a, b, false);
    var sub := AddWithCarry(a, Not(b), true);
    match opcode
    case 0 | 8 => (And(a, b), LogicFlags(0, c, false))
    case 1 | 9 => (Xor(a, b), LogicFlags(0, c, false))
    case 2 | 10 => sub
    case 3 => AddWithCarry(b, Not(a), true)
    case 4 | 11 => add
    case 5 => AddWithCarry(a, b, c)
    case 6 => AddWithCarry(a, Not(b), c)
    case 7 => AddWithCarry(b, Not(a), c)
    case 12 => (Or(a, b), LogicFlags(0, c, false))
    case 13 => (b, LogicFlags(0, c, false))
    case 14 => (And(a, Not(b)), LogicFlags(0, c, false))
    case _ => (Not(b), LogicFlags(0, c, false))
  }

  /** A data-processing handler given its second operand and the carry a logical instruction should set. */
  function HostDp(s: State, u: Uop, opcode: nat, sets: bool, rd: nat, rn: nat, operand: Word, carry: bool): State
    requires Wide(s) && rd < 15
  {
    var (result, arith) := HostAlu(opcode, Guest(s, u, rn), operand, s.f.c);
    var logic := LogicFlags(result, carry, s.f.v);
    var f := if Logical(opcode) then (if sets || !WritesResult(opcode) then logic else s.f)
             else if opcode == 10 || opcode == 11 || sets then arith else s.f;
    (if WritesResult(opcode) then Set(s, rd, result) else s).(f := f)
  }

  // ------------------------------------------------------------ Shifter

  /** Shifter record with a constant amount: operand, and the carry it leaves in w6. */
  function HostShiftImm(kind: nat, x: Word, amount: nat, c: bool): (Word, bool)
    requires amount < 32
  {
    match kind
    case 0 => if amount == 0 then (x, c) else (Lsl(x, amount), BitAt(x, 32 - amount))
    case 1 => if amount == 0 then (0, BitAt(x, 31)) else (Lsr(x, amount), BitAt(x, amount - 1))
    case 2 => (Asr(x, if amount == 0 then 31 else amount), BitAt(x, if amount == 0 then 31 else amount - 1))
    case _ => if amount == 0 then (x / 2 + Num(c) * 0x8000_0000, BitAt(x, 0)) else (Rotated(x, amount), BitAt(x, amount - 1))
  }

  /** Shifter record with a register amount, branch by branch. */
  function HostShiftReg(kind: nat, x: Word, w9: nat, c: bool): (Word, bool)
    requires w9 < 256
  {
    match kind
    case 0 => if w9 == 0 then (x, c)
              else if w9 / 32 == 0 then (Lsl(x, w9 % 32), BitAt(x, (32 - w9) % 32))
              else if w9 == 32 then (0, BitAt(x, 0))
              else (0, false)
    case 1 => if w9 == 0 then (x, c)
              else if w9 / 32 == 0 then (Lsr(x, w9 % 32), BitAt(x, (w9 - 1) % 32))
              else if w9 == 32 then (0, BitAt(x, 31))
              else (0, false)
    case 2 => if w9 == 0 then (x, c)
              else if w9 / 32 == 0 then (Asr(x, w9 % 32), BitAt(x, (w9 - 1) % 32))
              else (Asr(x, 31), BitAt(x, 31))
    case _ => if w9 == 0 then (x, c)
              else if w9 % 32 == 0 then (x, BitAt(x, 31))
              else (Rotated(x, w9 % 32), BitAt(x, w9 % 32 - 1))
  }

  // ------------------------------------------------------------ Memory

  function KindWidth(kind: nat): nat { if kind == 0 then 4 else if kind == 1 || kind == 3 then 1 else 2 }

  function Extended(kind: nat, w: Word): Word {
    if kind == 3 && w % 256 >= 128 then Wrap(w % 256 - 256)
    else if kind == 4 && w % 0x1_0000 >= 0x8000 then Wrap(w % 0x1_0000 - 0x1_0000)
    else w
  }

  function HostRead(m: M, env: Env, kind: nat, rd: nat): Outcome
    requires Wide(m.s) && rd < 15 && |env.dread| == 64
  {
    var va := Wrap(m.k.x17);
    var width := KindWidth(kind);
    if va % width != 0 then Miss(m)
    else
      match Lookup(env.dread, va, env.priv, env.gen)
      case None => Miss(m)
      case Some(a) =>
        if a + width > |m.s.ram| then Other
        else
          var s := Set(m.s, rd, Extended(kind, LoadBytes(m.s.ram, a, width)));
          Next(m.(s := s.(loads := s.loads + 1)))
  }

  /** `wb` names the base register to write back, if any; the record's immediate selects x17 or w9 for it. */
  function HostWrite(m: M, u: Uop, env: Env, kind: nat, rd: nat, wb: Option<nat>, unprivileged: bool): Outcome
    requires Wide(m.s) && (wb.Some? ==> wb.value < 15) && (env.dwrite.Some? ==> |env.dwrite.value| == 64)
  {
    var va := Wrap(m.k.x17);
    var width := KindWidth(kind);
    if va % width != 0 || env.dwrite.None? then Miss(m)
    else
      match Lookup(env.dwrite.value, va, env.priv && !unprivileged, env.gen)
      case None => Miss(m)
      case Some(a) =>
        if a + width > |m.s.ram| then Other
        else
          var source := if rd >= 15 then Wrap(u.pcv + 12) else m.s.r[rd];
          var s := m.s.(ram := StoreBytes(m.s.ram, a, width, source), stores := m.s.stores + 1);
          Next(m.(s := if wb.Some? then Set(s, wb.value, if u.imm == 0 then va else m.k.w9) else s))
  }

  /** First transfer address and writeback value of a block transfer. */
  function BlockAddresses(pre: bool, up: bool, base: Word, n: nat): (Word, Word) {
    if up then (if pre then Wrap(base + 4) else base, Wrap(base + 4 * n))
    else
      var low := Wrap(base - 4 * n);
      (if pre then low else Wrap(low + 4), low)
  }

  /** Proves a whole block transfer inside one cached block before anything changes. */
  function HostPreflight(m: M, u: Uop, env: Env, table: Option<seq<CacheEntry>>, load: bool, pre: bool, up: bool, rn: nat): Outcome
    requires Wide(m.s) && rn < 15 && (table.Some? ==> |table.value| == 64)
  {
    var n := u.imm;
    var (first, last) := BlockAddresses(pre, up, m.s.r[rn], n);
    if n == 0 || n > (if load then 15 else 16) || first % 4 != 0 || first % BLOCK + 4 * n > BLOCK || table.None? then Miss(m)
    else
      match Lookup(table.value, first, env.priv, env.gen)
      case None => Miss(m)
      case Some(a) =>
        Next(M(m.s.(f := Flags(false, true, true, false)), m.k.(w9 := last, w10 := if load then m.k.w10 else Wrap(u.pcv + 12), x17 := a, x7 := m.s.f)))
  }

  function HostLdmCommit(m: M, rd: nat): Outcome
    requires Wide(m.s) && rd < 15
  {
    if m.k.x17 + 4 > |m.s.ram| then Other
    else Next(M(Set(m.s, rd, LoadBytes(m.s.ram, m.k.x17, 4)), m.k.(x17 := m.k.x17 + 4)))
  }

  function HostStmCommit(m: M, rd: nat): Outcome
    requires Wide(m.s)
  {
    if m.k.x17 + 4 > |m.s.ram| then Other
    else
      var source := if rd >= 15 then m.k.w10 else m.s.r[rd];
      Next(M(m.s.(ram := StoreBytes(m.s.ram, m.k.x17, 4, source)), m.k.(x17 := m.k.x17 + 4)))
  }

  function HostFinish(m: M, u: Uop, wb: Option<nat>, load: bool): Outcome
    requires Wide(m.s) && (wb.Some? ==> wb.value < 15)
  {
    var s := if wb.Some? then Set(m.s, wb.value, m.k.w9) else m.s;
    var t := if load then s.(loads := s.loads + u.imm) else s.(stores := s.stores + u.imm);
    Next(m.(s := t.(f := m.k.x7)))
  }

  // ------------------------------------------------------------ Flat RAM

  /** A flat access: base plus immediate, masked to the RAM, without translation, alignment test or counting. */
  function HostFlat(m: M, u: Uop, store: bool, rd: nat, base: Word): Outcome
    requires Wide(m.s) && rd < 15
  {
    var a := And(Wrap(base + u.imm), Wrap(|m.s.ram| - 1));
    if a + 4 > |m.s.ram| then Other
    else Next(m.(s := if store then m.s.(ram := StoreBytes(m.s.ram, a, 4, m.s.r[rd])) else Set(m.s, rd, LoadBytes(m.s.ram, a, 4))))
  }

  // ------------------------------------------------------------ VFP memory

  function WordsOf(dbl: bool): nat { if dbl then 2 else 1 }

  /** VLDR: a double must lie in one cached block. */
  function HostVfpRead(m: M, env: Env, first: nat, dbl: bool): Outcome
    requires Wide(m.s) && first + WordsOf(dbl) <= 32 && |env.dread| == 64
  {
    var va, v := Wrap(m.k.x17), m.s.vfp;
    if !Enabled(v) || va % 4 != 0 || (dbl && va % BLOCK > 1016) then Miss(m)
    else
      match Lookup(env.dread, va, env.priv, env.gen)
      case None => Miss(m)
      case Some(a) =>
        if a + 4 * WordsOf(dbl) > |m.s.ram| then Other
        else
          var one := v.s[first := LoadBytes(m.s.ram, a, 4)];
          var two := if dbl then one[first + 1 := LoadBytes(m.s.ram, a + 4, 4)] else one;
          Next(m.(s := m.s.(vfp := v.(s := two), loads := m.s.loads + WordsOf(dbl))))
  }

  /** VSTR: every word's cache entry is proved before the first is stored; a double may span two blocks. */
  function HostVfpWrite(m: M, env: Env, first: nat, dbl: bool): Outcome
    requires Wide(m.s) && first + WordsOf(dbl) <= 32 && (env.dwrite.Some? ==> |env.dwrite.value| == 64)
  {
    var va, v := Wrap(m.k.x17), m.s.vfp;
    if !Enabled(v) || va % 4 != 0 || env.dwrite.None? then Miss(m)
    else
      var a := Lookup(env.dwrite.value, va, env.priv, env.gen);
      var b := if dbl then Lookup(env.dwrite.value, Wrap(va + 4), env.priv, env.gen) else a;
      if a.None? || b.None? then Miss(m)
      else if a.value + 4 > |m.s.ram| || b.value + 4 > |m.s.ram| then Other
      else
        var one := StoreBytes(m.s.ram, a.value, 4, v.s[first]);
        var two := if dbl then StoreBytes(one, b.value, 4, v.s[first + 1]) else one;
        Next(m.(s := m.s.(ram := two, stores := m.s.stores + WordsOf(dbl))))
  }

  /** Words stored one behind the other. */
  function Spread(ram: seq<Byte>, a: nat, words: seq<Word>): (r: seq<Byte>)
    requires a + 4 * |words| <= |ram|
    ensures |r| == |ram|
    decreases |words|
  {
    if words == [] then ram else Spread(StoreBytes(ram, a, 4, words[0]), a + 4, words[1..])
  }

  /** The transfer address and written-back base of the three modes. */
  function VstmAddresses(mode: nat, base: Word, n: nat): (Word, Word) {
    var low := Wrap(base - 4 * n);
    if mode == 0 then (base, base) else if mode == 1 then (base, Wrap(base + 4 * n)) else (low, low)
  }

  /** VSTM: malformed data, misalignment, a block boundary or a cache miss refuse before the first store. */
  function HostVstm(m: M, env: Env, imm: Word, mode: nat, rn: nat): Outcome
    requires Wide(m.s) && rn < 15 && (env.dwrite.Some? ==> |env.dwrite.value| == 64)
  {
    var first, n := imm % 64, imm / 256 % 64;
    if !Enabled(m.s.vfp) || first + 256 * n != imm || n == 0 || n > 32 || first + n > 32 then Miss(m)
    else
      var (va, back) := VstmAddresses(mode, m.s.r[rn], n);
      if va % 4 != 0 || va % BLOCK + 4 * n > BLOCK || env.dwrite.None? then Miss(m)
      else
        match Lookup(env.dwrite.value, va, env.priv, env.gen)
        case None => Miss(m)
        case Some(a) =>
          if a + 4 * n > |m.s.ram| then Other
          else
            var s := m.s.(ram := Spread(m.s.ram, a, m.s.vfp.s[first..first + n]), stores := m.s.stores + n);
            Next(m.(s := if mode == 0 then s else Set(s, rn, back)))
  }

  function Committed(m: M, t: Option<State>): Outcome {
    match t case None => Miss(m) case Some(s) => Next(m.(s := s))
  }

  /** A record of the VFP register file, or one that moves words between it and memory. */
  function VfpStep(u: Uop, m: M, env: Env): (o: Outcome)
    requires Wide(m.s) && Legal(u.op) && |env.dread| == 64 && (env.dwrite.Some? ==> |env.dwrite.value| == 64)
    ensures o.Next? || o.Skip? ==> Wide(o.m.s)
  {
    if !InFile(u) then Other
    else if IsVfpMove(u.op.f) then Committed(m, MoveRecord(u, m.s))
    else if IsVfpSystem(u.op.f) then Committed(m, SystemRecord(u, m.s, env.priv))
    else if IsVfpData(u.op.f) then
      match DataRecord(u, m.s.vfp)
      case None => Miss(m)
      case Some(v) => Next(m.(s := m.s.(vfp := v)))
    else
      match u.op.f
      case VfpRead => HostVfpRead(m, env, u.imm, u.op.d == 1)
      case VfpWrite => HostVfpWrite(m, env, u.imm, u.op.d == 1)
      case VstmWrite => HostVstm(m, env, u.imm, u.op.c, u.op.d)
      case _ => Other
  }

  // ------------------------------------------------------------ Branches

  function HostIndirect(m: M, u: Uop, rm: nat, link: bool, thumb: bool): Outcome
    requires Wide(m.s)
  {
    var target: Word := if rm >= 15 then Wrap(u.pcv + (if thumb then 4 else 8)) else m.s.r[rm];
    if target % 4 == 2 then Miss(m)
    else
      var back: Word := if thumb then Or(Wrap(u.pcv + 2), 1) else Wrap(u.pcv + 4);
      var s := if link then Set(m.s, 14, back) else m.s;
      Exit(m.(s := s.(thumb := target % 2 == 1)), if target % 2 == 1 then target - 1 else target)
  }

  // ------------------------------------------------------------ One record

  function AluStep(u: Uop, m: M): (o: Outcome)
    requires Wide(m.s) && Legal(u.op)
    ensures o.Next? || o.Skip? ==> Wide(o.m.s)
  {
    var op, s := u.op, m.s;
    match op.f
    case AluRRR =>
      var a: int, b: int := s.r[op.c], s.r[op.d];
      Next(m.(s := Set(s, op.b, match op.a case 0 => Wrap(a + b) case 1 => Wrap(a - b) case 2 => Xor(a, b) case _ => Or(a, b))))
    case AluImm =>
      var a := s.r[op.d];
      Next(m.(s := match op.b
                   case 0 => Set(s, op.c, Wrap(a + u.imm))
                   case 1 => Set(s, op.c, Wrap(a - u.imm))
                   case 2 => Set(s, op.c, Xor(a, u.imm))
                   case 3 => var x := AddWithCarry(a, u.imm, false); Set(s, op.c, x.0).(f := x.1)
                   case _ => var x := AddWithCarry(a, Not(u.imm), true); Set(s, op.c, x.0).(f := x.1)))
    case EorsRR =>
      var x := Xor(s.r[op.c], s.r[op.d]);
      Next(m.(s := Set(s, op.c, x).(f := LogicFlags(x, s.f.c, s.f.v))))
    case MulsRR =>
      var a: int := s.r[op.c];
      var x := Wrap(a * s.r[op.d]);
      Next(m.(s := Set(s, op.c, x).(f := LogicFlags(x, s.f.c, s.f.v))))
    case DpImm =>
      var carry := if u.meta == 0 then s.f.c else u.meta == 2;
      Next(m.(s := HostDp(s, u, op.a, op.b == 1, op.c, op.d, u.imm, carry)))
    case DpReg => Next(m.(s := HostDp(s, u, op.a, op.b == 1, op.c, op.d, Wrap(m.k.x17), m.k.w6)))
    case ShiftImm =>
      var (x, c) := HostShiftImm(op.b, Guest(s, u, op.c), op.d, s.f.c);
      Next(m.(k := m.k.(x17 := x, w6 := if op.a == 1 then c else m.k.w6)))
    case ShiftReg =>
      var w9 := s.r[op.d] % 256;
      var (x, c) := HostShiftReg(op.b, s.r[op.c], w9, s.f.c);
      Next(m.(k := m.k.(x17 := x, w9 := w9, w6 := if op.a == 1 then c else m.k.w6)))
    case Cond => if HostCondition(op.d, s.f) then Next(m) else Skip(m, u.meta)
    case _ => Other
  }

  function MemoryStep(u: Uop, m: M, env: Env): (o: Outcome)
    requires Wide(m.s) && Legal(u.op) && |env.dread| == 64 && (env.dwrite.Some? ==> |env.dwrite.value| == 64)
    ensures o.Next? || o.Skip? ==> Wide(o.m.s)
  {
    var op, s := u.op, m.s;
    match op.f
    case AddrImm =>
      var a := Guest(s, u, op.d);
      Next(m.(k := m.k.(w9 := u.imm, x17 := if op.c == 1 then Wrap(a + u.imm) else Wrap(a - u.imm))))
    case AddrReg =>
      var a, b := Guest(s, u, op.d), Wrap(m.k.x17);
      Next(m.(k := m.k.(x17 := if op.c == 1 then Wrap(a + b) else Wrap(a - b))))
    case PostAddrImm =>
      var a := Guest(s, u, op.d);
      Next(m.(k := m.k.(w9 := if op.c == 1 then Wrap(a + u.imm) else Wrap(a - u.imm), x17 := a)))
    case PostAddrReg =>
      var a, b := Guest(s, u, op.d), Wrap(m.k.x17);
      Next(m.(k := m.k.(w9 := if op.c == 1 then Wrap(a + b) else Wrap(a - b), x17 := a)))
    case DirectRead => HostRead(m, env, op.c, op.d)
    case DirectWrite => HostWrite(m, u, env, op.c, op.d, None, false)
    case DirectWriteWb => HostWrite(m, u, env, op.b, op.c, Some(op.d), false)
    case DirectWriteWbUnpriv => HostWrite(m, u, env, op.b, op.c, Some(op.d), true)
    case StmPreflight => HostPreflight(m, u, env, env.dwrite, false, op.b == 1, op.c == 1, op.d)
    case StmCommit => HostStmCommit(m, op.d)
    case StmFinish => HostFinish(m, u, None, false)
    case StmFinishWb => HostFinish(m, u, Some(op.d), false)
    case LdmPreflight => HostPreflight(m, u, env, Some(env.dread), true, op.b == 1, op.c == 1, op.d)
    case LdmCommit => HostLdmCommit(m, op.d)
    case LdmFinish => HostFinish(m, u, None, true)
    case LdmFinishWb => HostFinish(m, u, Some(op.d), true)
    case FlatWord => HostFlat(m, u, op.b == 1, op.c, s.r[op.d])
    case FlatSp => HostFlat(m, u, op.c == 1, op.d, s.r[13])
    case _ => Other
  }

  function BranchStep(u: Uop, m: M): (o: Outcome)
    requires Wide(m.s) && Legal(u.op)
    ensures !o.Next? && !o.Skip?
  {
    var op, s := u.op, m.s;
    match op.f
    case End => Exit(m, u.imm)
    case BranchCond => Exit(m, if HostCondition(op.d, s.f) then u.imm else u.pcv)
    case BranchLink => if HostCondition(op.d, s.f) then Exit(m.(s := Set(s, 14, u.pcv)), u.imm) else Exit(m, u.pcv)
    case ArmBx => HostIndirect(m, u, op.d, false, false)
    case ArmBlx => HostIndirect(m, u, op.d, true, false)
    case ThumbBx => HostIndirect(m, u, op.d, false, true)
    case ThumbBlx => HostIndirect(m, u, op.d, true, true)
    case _ => Other
  }

  predicate Ready(m: M, env: Env) {
    Wide(m.s) && |env.dread| == 64 && (env.dwrite.Some? ==> |env.dwrite.value| == 64)
  }

  /** The handler the table dispatches to for a record. */
  function Step(u: Uop, m: M, env: Env): (o: Outcome)
    requires Ready(m, env)
    ensures o.Next? || o.Skip? ==> Ready(o.m, env)
  {
    if !Legal(u.op) then Other
    else
      match u.op.f
      case AluRRR | AluImm | EorsRR | MulsRR | DpImm | DpReg | ShiftImm | ShiftReg | Cond => AluStep(u, m)
      case End | BranchCond | BranchLink | ArmBx | ArmBlx | ThumbBx | ThumbBlx => BranchStep(u, m)
      case VfpCoreToS | VfpSToCore | VfpCoreToPair | VfpPairToCore | Vmrs | VmrsApsr | Vmsr
        | VfpUnary | VfpCompare | VfpWiden | VfpArith | VfpRead | VfpWrite | VstmWrite => VfpStep(u, m, env)
      case _ => MemoryStep(u, m, env)
  }

  predicate IsAlu(f: Family) {
    || f == AluRRR || f == AluImm || f == EorsRR || f == MulsRR || f == DpImm || f == DpReg || f == ShiftImm || f == ShiftReg || f == Cond
  }

  lemma AluDispatch(u: Uop, m: M, env: Env)
    requires Ready(m, env) && Legal(u.op) && IsAlu(u.op.f)
    ensures Step(u, m, env) == AluStep(u, m)
  {
    hide AluStep, Legal;
  }

  lemma BranchDispatch(u: Uop, m: M, env: Env)
    requires Ready(m, env) && Legal(u.op) && (IsTerminalBranch(u.op.f) || u.op.f == End)
    ensures Step(u, m, env) == BranchStep(u, m)
  {
    hide BranchStep, Legal;
  }

  lemma AddressDispatch(u: Uop, m: M, env: Env)
    requires Ready(m, env) && (IsAddrImm(u.op.f) || IsAddrReg(u.op.f)) && Legal(u.op)
    ensures Step(u, m, env) == MemoryStep(u, m, env) && u.op.c < 2 && u.op.d < 16
  {
    hide MemoryStep;
  }

  /** Where threaded dispatch stops: behind the last record, at a branch, at a refusing guard, or outside this model. */
  datatype Stop = Fell(m: M) | Left(m: M, pc: Word) | Missed(m: M, at: nat) | Unmodelled

  /** Threaded dispatch over a record array. */
  function Run(uops: seq<Uop>, i: nat, m: M, env: Env): (o: Stop)
    requires Ready(m, env) && i <= |uops|
    decreases |uops| - i
  {
    if i == |uops| then Fell(m)
    else
      match Step(uops[i], m, env)
      case Next(m1) => Run(uops, i + 1, m1, env)
      case Skip(m1, n) => if i + 1 + n <= |uops| then Run(uops, i + 1 + n, m1, env) else Unmodelled
      case Exit(m1, pc) => Left(m1, pc)
      case Miss(m1) => Missed(m1, i)
      case Other => Unmodelled
  }
}
