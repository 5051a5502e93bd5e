/** VFP loads and stores through the translated-block caches: all or nothing, and word by word on a hit; and every decoded VFP
    instruction against the literal interpreter. */
module VfpTransfer {
  import opened Words
  import opened Handlers
  import opened Decode
  import opened Machine
  import opened ExecVfp
  import opened Exec
  import opened RefineMemory
  import opened RefineBlock
  import opened RefineVfp
  import Arch
  import ArchVfp

  // ------------------------------------------------------------ Hits

  lemma NextWordAligned(va: Word)
    requires va % 4 == 0
    ensures Wrap(va + 4) % 4 == 0
  {
    var k: int := va / 4;
    assert Wrap(va + 4) == if va + 4 < 0x1_0000_0000 then 4 * (k + 1) else 0;
  }

  /** A write hit is the architectural store of a word. */
  lemma HitWrites(env: Env, va: Word, s: State, w: Word)
    requires Sound(env, |s.ram|) && env.dwrite.Some? && va % 4 == 0
    requires Lookup(env.dwrite.value, va, env.priv, env.gen).Some?
    ensures var a := Lookup(env.dwrite.value, va, env.priv, env.gen).value;
            a + 4 <= |s.ram|
            && WriteMemory(s, env.mmu, env.priv, va, 4, w) == Some(s.(ram := StoreBytes(s.ram, a, 4, w), stores := s.stores + 1))
  {
    hide StoreBytes, Lookup, Translate, Faithful, Mapped;
    HitIsTranslation(env.dwrite.value, va, env.priv, env.gen, env.mmu.writable, |s.ram|);
    AlignedInBlock(va, 4);
  }

  // ------------------------------------------------------------ VSTR and VLDR

  predicate StoreHit(env: Env, va: Word)
    requires env.dwrite.Some? ==> |env.dwrite.value| == 64
  {
    env.dwrite.Some? && Lookup(env.dwrite.value, va, env.priv, env.gen).Some?
  }

  lemma OneWord(s: State, mmu: Mmu, priv: bool, va: Word, w: Word)
    requires Wide(s)
    ensures ArchVfp.StoreWords(s, mmu, priv, va, [w]) == WriteMemory(s, mmu, priv, va, 4, w)
  {
    hide WriteMemory;
    assert [w][1..] == [];
  }

  lemma TwoWords(s: State, mmu: Mmu, priv: bool, va: Word, w: Word, x: Word)
    requires Wide(s)
    ensures var one := WriteMemory(s, mmu, priv, va, 4, w);
            one.Some? ==> ArchVfp.StoreWords(s, mmu, priv, va, [w, x]) == WriteMemory(one.value, mmu, priv, Wrap(va + 4), 4, x)
  {
    hide WriteMemory;
    assert [w, x][1..] == [x];
    if WriteMemory(s, mmu, priv, va, 4, w).Some? {
      WriteKeeps(s, mmu, priv, va, w);
      OneWord(WriteMemory(s, mmu, priv, va, 4, w).value, mmu, priv, Wrap(va + 4), x);
    }
  }

  lemma WriteKeeps(s: State, mmu: Mmu, priv: bool, va: Word, w: Word)
    requires Wide(s) && WriteMemory(s, mmu, priv, va, 4, w).Some?
    ensures Wide(WriteMemory(s, mmu, priv, va, 4, w).value)
  {
    hide Translate, StoreBytes;
  }

  /** VSTR, single or double: nothing, or exactly the architectural word stores; it stores exactly when the unit is enabled, the
      address aligned and every word's block cached for writing. */
  lemma VstrRefines(m: M, env: Env, first: nat, dbl: bool)
    requires Ready(m, env) && Sound(env, |m.s.ram|) && m.k.x17 < 0x1_0000_0000 && first + WordsOf(dbl) <= 32
    ensures var va, o := m.k.x17, HostVfpWrite(m, env, first, dbl);
            if Enabled(m.s.vfp) && va % 4 == 0 && StoreHit(env, va) && (dbl ==> StoreHit(env, Wrap(va + 4)))
            then o.Next? && o.m == m.(s := o.m.s)
                 && ArchVfp.StoreWords(m.s, env.mmu, env.priv, va, m.s.vfp.s[first..first + WordsOf(dbl)]) == Some(o.m.s)
            else o == Miss(m)
  {
    hide StoreBytes, Lookup, WriteMemory, Sound, Enabled, ArchVfp.StoreWords;
    var va: Word, s := m.k.x17, m.s;
    if Enabled(s.vfp) && va % 4 == 0 && StoreHit(env, va) && (dbl ==> StoreHit(env, Wrap(va + 4))) {
      var words := s.vfp.s[first..first + WordsOf(dbl)];
      HitWrites(env, va, s, words[0]);
      if dbl {
        var t := WriteMemory(s, env.mmu, env.priv, va, 4, words[0]).value;
        NextWordAligned(va);
        HitWrites(env, Wrap(va + 4), t, words[1]);
        HitWrites(env, Wrap(va + 4), s, words[1]);
        TwoWords(s, env.mmu, env.priv, va, words[0], words[1]);
        assert words == [words[0], words[1]];
      } else {
        OneWord(s, env.mmu, env.priv, va, words[0]);
        assert words == [words[0]];
      }
    }
  }

  /** VLDR, single or double: nothing, or exactly the architectural word loads; a double also needs one block for both words. */
  lemma VldrRefines(m: M, env: Env, first: nat, dbl: bool)
    requires Ready(m, env) && Sound(env, |m.s.ram|) && m.k.x17 < 0x1_0000_0000 && first + WordsOf(dbl) <= 32
    ensures var va, o := m.k.x17, HostVfpRead(m, env, first, dbl);
            if Enabled(m.s.vfp) && va % 4 == 0 && (dbl ==> va % BLOCK + 8 <= BLOCK) && Lookup(env.dread, va, env.priv, env.gen).Some?
            then o.Next? && o.m == m.(s := o.m.s)
                 && ArchVfp.LoadWords(m.s, env.mmu, env.priv, va, first, WordsOf(dbl)) == Some(o.m.s)
            else o == Miss(m)
  {
    hide LoadBytes, Lookup, Translate, Faithful, Mapped, Enabled;
    var va: Word := m.k.x17;
    if Enabled(m.s.vfp) && va % 4 == 0 && !(dbl && va % BLOCK > 1016) && Lookup(env.dread, va, env.priv, env.gen).Some? {
      HitIsTranslation(env.dread, va, env.priv, env.gen, env.mmu.readable, |m.s.ram|);
      AlignedInBlock(va, 4);
      if dbl {
        var a := Lookup(env.dread, va, env.priv, env.gen).value;
        WordTranslates(env.mmu.readable, env.priv, va, a, 2, |m.s.ram|, 1);
      }
    }
  }

  // ------------------------------------------------------------ VSTM

  lemma {:induction false} SpreadLast(ram: seq<Byte>, a: nat, words: seq<Word>, w: Word)
    requires a + 4 * (|words| + 1) <= |ram|
    ensures Spread(ram, a, words + [w]) == StoreBytes(Spread(ram, a, words), a + 4 * |words|, 4, w)
    decreases |words|
  {
    hide StoreBytes;
    if words == [] {
      assert ([] + [w])[1..] == [];
    } else {
      assert (words + [w])[1..] == words[1..] + [w];
      SpreadLast(StoreBytes(ram, a, 4, words[0]), a + 4, words[1..], w);
    }
  }

  /** Inside one proved block the architectural stores are consecutive RAM words. */
  lemma {:induction false} SpreadIsStores(s: State, m: Mmu, priv: bool, first: Word, host: nat, n: nat, j: nat, words: seq<Word>)
    requires Wide(s) && m.counted && Proved(m.writable, priv, first, host, n, |s.ram|) && j + |words| == n
    ensures host + 4 * n <= |s.ram|
    ensures ArchVfp.StoreWords(s, m, priv, Wrap(first + 4 * j), words)
            == Some(s.(ram := Spread(s.ram, host + 4 * j, words), stores := s.stores + |words|))
    decreases |words|
  {
    hide StoreBytes, Proved, Translate;
    Room(m.writable, priv, first, host, n, |s.ram|);
    if words != [] {
      WordTranslates(m.writable, priv, first, host, n, |s.ram|, j);
      WrapNext(first, j);
      var t := s.(ram := StoreBytes(s.ram, host + 4 * j, 4, words[0]), stores := s.stores + 1);
      SpreadIsStores(t, m, priv, first, host, n, j + 1, words[1..]);
    }
  }

  lemma Room(m: map<(Word, bool), nat>, priv: bool, first: Word, host: nat, n: nat, size: nat)
    requires Proved(m, priv, first, host, n, size)
    ensures host + 4 * n <= size
  {
  }

  /** VSTM with well-formed data: nothing, or exactly the architectural word stores and the written-back base; it stores exactly
      when the unit is enabled and the whole range is aligned inside one block cached for writing. */
  lemma VstmRefines(m: M, env: Env, first: nat, n: nat, mode: nat, rn: nat)
    requires Ready(m, env) && Sound(env, |m.s.ram|) && rn < 15 && mode < 3 && 0 < n && first + n <= 32
    ensures var (va, back) := VstmAddresses(mode, m.s.r[rn], n);
            var o := HostVstm(m, env, first + 256 * n, mode, rn);
            if Enabled(m.s.vfp) && va % 4 == 0 && va % BLOCK + 4 * n <= BLOCK && StoreHit(env, va)
            then && o.Next? && o.m == m.(s := o.m.s)
                 && var t := ArchVfp.StoreWords(m.s, env.mmu, env.priv, va, m.s.vfp.s[first..first + n]);
                    t.Some? && o.m.s == if mode == 0 then t.value else t.value.(r := t.value.r[rn := back])
            else o == Miss(m)
  {
    hide StoreBytes, Lookup, Translate, Faithful, Mapped, ArchVfp.StoreWords, Enabled, VstmAddresses, Spread;
    PackedVstm(first, n);
    var (va, back) := VstmAddresses(mode, m.s.r[rn], n);
    if va % 4 == 0 && va % BLOCK + 4 * n <= BLOCK && StoreHit(env, va) {
      HitIsTranslation(env.dwrite.value, va, env.priv, env.gen, env.mmu.writable, |m.s.ram|);
      assert Wrap(va + 4 * 0) == va;
      var a := Lookup(env.dwrite.value, va, env.priv, env.gen).value;
      SpreadIsStores(m.s, env.mmu, env.priv, va, a, n, 0, m.s.vfp.s[first..first + n]);
    }
  }

  /** The VSTM handler: everything is proved before its loop stores register after register. */
  method VstmRecord(m: M, env: Env, imm: Word, mode: nat, rn: nat) returns (o: Outcome)
    requires Ready(m, env) && rn < 15
    ensures o == HostVstm(m, env, imm, mode, rn)
  {
    hide StoreBytes, Lookup, Enabled;
    var first, n := imm % 64, imm / 256 % 64;
    if !Enabled(m.s.vfp) || first + 256 * n != imm || n == 0 || n > 32 || first + n > 32 {
      return Miss(m);
    }
    var (va, back) := VstmAddresses(mode, m.s.r[rn], n);
    if va % 4 != 0 || va % BLOCK + 4 * n > BLOCK || env.dwrite.None? {
      return Miss(m);
    }
    var hit := Lookup(env.dwrite.value, va, env.priv, env.gen);
    if hit.None? {
      return Miss(m);
    }
    if hit.value + 4 * n > |m.s.ram| {
      return Other;
    }
    var a, ram, v, k := hit.value, m.s.ram, m.s.vfp.s, 0;
    ghost var words := v[first..first + n];
    while k < n
      invariant 0 <= k <= n && |ram| == |m.s.ram| && ram == Spread(m.s.ram, a, words[..k])
    {
      SpreadLast(m.s.ram, a, words[..k], v[first + k]);
      assert words[..k + 1] == words[..k] + [v[first + k]];
      ram := StoreBytes(ram, a + 4 * k, 4, v[first + k]);
      k := k + 1;
    }
    assert words[..n] == words;
    var s := m.s.(ram := ram, stores := m.s.stores + n);
    o := Next(m.(s := if mode == 0 then s else Set(s, rn, back)));
  }

  // ------------------------------------------------------------ Decoded transfers

  /** The S register a transfer starts at. */
  function FirstOf(insn: Word): nat { 2 * Field(insn, 12, 4) + Field(insn, 22, 1) }

  /** VLDR and VSTR decode to an address record and a transfer record. */
  lemma SingleDecodes(insn: Word, pcv: Word, writes: bool)
    requires DecodeVfpTransfer(insn, pcv, writes).Some? && Bit(insn, 24) && !Bit(insn, 21)
    ensures var s, dbl := DecodeVfpTransfer(insn, pcv, writes).value, Bit(insn, 8);
            && |s| == 2 && s[0] == Uop(Op(AddrImm, 0, 0, Num(Bit(insn, 23)), Field(insn, 16, 4)), Field(insn, 0, 8) * 4, pcv, 0)
            && s[1].op == Op(if Bit(insn, 20) then VfpRead else VfpWrite, 0, 0, 0, Num(dbl)) && s[1].imm == FirstOf(insn)
            && FirstOf(insn) + WordsOf(dbl) <= 32 && (dbl ==> !Bit(insn, 22))
  {
    hide Field;
  }

  /** VSTM decodes to one record naming its register range, address mode and base. */
  lemma VstmDecodes(insn: Word, pcv: Word, writes: bool)
    requires DecodeVfpTransfer(insn, pcv, writes).Some? && !(Bit(insn, 24) && !Bit(insn, 21))
    ensures var s, n, dbl := DecodeVfpTransfer(insn, pcv, writes).value, Field(insn, 0, 8), Bit(insn, 8);
            && |s| == 1 && Field(insn, 16, 4) < 15
            && s[0].op == Op(VstmWrite, 0, 0, if Bit(insn, 24) then 2 else if Bit(insn, 21) then 1 else 0, Field(insn, 16, 4))
            && s[0].imm == FirstOf(insn) + 256 * n
            && 0 < n && FirstOf(insn) + n <= 32
            && (dbl ==> !Bit(insn, 22) && n % 2 == 0)
            && Bit(insn, 23) == !Bit(insn, 24) && (Bit(insn, 24) ==> Bit(insn, 21)) && !Bit(insn, 20)
  {
    hide Field;
  }

  lemma PackedVstm(first: nat, n: nat)
    requires first < 64 && n < 64
    ensures (first + 256 * n) % 64 == first && (first + 256 * n) / 256 % 64 == n
  {
  }

  lemma TransferRecordStep(u: Uop, load: bool, first: nat, dbl: bool, m: M, env: Env)
    requires Ready(m, env) && first + WordsOf(dbl) <= 32
    requires u.op == Op(if load then VfpRead else VfpWrite, 0, 0, 0, Num(dbl)) && u.imm == first
    ensures Step(u, m, env) == if load then HostVfpRead(m, env, first, dbl) else HostVfpWrite(m, env, first, dbl)
  {
    hide HostVfpRead, HostVfpWrite;
  }

  lemma VstmStep(u: Uop, mode: nat, rn: nat, m: M, env: Env)
    requires Ready(m, env) && mode < 3 && rn < 15 && u.op == Op(VstmWrite, 0, 0, mode, rn)
    ensures Step(u, m, env) == HostVstm(m, env, u.imm, mode, rn)
  {
    hide HostVstm;
  }

  /** The architectural transfer of a VLDR or VSTR word: Rn plus or minus four times imm8. */
  lemma SingleInsn(insn: Word, addr: Word, s: State, mmu: Mmu, priv: bool)
    requires Wide(s) && Bit(insn, 24) && !Bit(insn, 21) && (Bit(insn, 8) ==> !Bit(insn, 22))
    requires FirstOf(insn) + WordsOf(Bit(insn, 8)) <= 32
    ensures var base, offset := Arch.Reg(s, Field(insn, 16, 4), Wrap(addr + 8)), 4 * Field(insn, 0, 8);
            var va := if Bit(insn, 23) then Wrap(base + offset) else Wrap(base - offset);
            var first, n := FirstOf(insn), WordsOf(Bit(insn, 8));
            ArchVfp.LoadStoreInsn(insn, addr, s, mmu, priv)
            == if Bit(insn, 20) then ArchVfp.LoadWords(s, mmu, priv, va, first, n)
               else ArchVfp.StoreWords(s, mmu, priv, va, s.vfp.s[first..first + n])
  {
    hide Field, ArchVfp.LoadWords, ArchVfp.StoreWords;
  }

  /** The architectural transfer of a VSTM word in its three forms. */
  lemma VstmInsn(insn: Word, addr: Word, s: State, mmu: Mmu, priv: bool)
    requires Wide(s) && !(Bit(insn, 24) && !Bit(insn, 21)) && Field(insn, 16, 4) < 15
    requires var n := Field(insn, 0, 8); 0 < n && FirstOf(insn) + n <= 32 && (Bit(insn, 8) ==> !Bit(insn, 22) && n % 2 == 0)
    requires Bit(insn, 23) == !Bit(insn, 24) && (Bit(insn, 24) ==> Bit(insn, 21)) && !Bit(insn, 20)
    ensures var mode := if Bit(insn, 24) then 2 else if Bit(insn, 21) then 1 else 0;
            var first, n, rn := FirstOf(insn), Field(insn, 0, 8), Field(insn, 16, 4);
            var (va, back) := VstmAddresses(mode, s.r[rn], n);
            ArchVfp.LoadStoreInsn(insn, addr, s, mmu, priv)
            == match ArchVfp.StoreWords(s, mmu, priv, va, s.vfp.s[first..first + n])
               case None => None
               case Some(t) => Some(if mode == 0 then t else t.(r := t.r[rn := back]))
  {
    hide Field, ArchVfp.LoadWords, ArchVfp.StoreWords;
  }

  /** The patched records of a decoded transfer. */
  ghost predicate TransferRecords(t: seq<Uop>, insn: Word, addr: Word, writes: bool) {
    && DecodeVfpTransfer(insn, Wrap(addr + 8), writes).Some?
    && var s := DecodeVfpTransfer(insn, Wrap(addr + 8), writes).value;
       && |t| == |s| > 0
       && (|s| == 2 ==> t[0] == s[0])
       && t[|t| - 1].op == s[|t| - 1].op && t[|t| - 1].imm == s[|t| - 1].imm
  }

  ghost predicate InTransferSpace(insn: Word) {
    Field(insn, 24, 4) != 14 && Field(insn, 21, 7) != 0x62 && Field(insn, 25, 3) == 6 && Field(insn, 9, 3) == 5
  }

  lemma RefinesByLast(t: seq<Uop>, m: M, m1: M, env: Env, r: Option<State>, addr: Word)
    requires Ready(m, env) && Ready(m1, env) && |t| > 0 && m1.s == m.s && Run(t, 0, m, env) == Run(t, |t| - 1, m1, env)
    requires var o := Step(t[|t| - 1], m1, env); o == Miss(m1) || (o.Next? && r == Some(o.m.s))
    ensures Agrees(Run(t, 0, m, env), match r case None => Arch.Undefined case Some(x) => Arch.Done(x, Wrap(addr + 4)), m.s, Wrap(addr + 4))
  {
    hide Run, Step;
    RunLast(t, m1, env);
  }

  /** Every decoded VLDR and VSTR, single and double. */
  lemma ArmVfpSingleRefines(insn: Word, addr: Word, writes: bool, t: seq<Uop>, m: M, env: Env)
    requires Ready(m, env) && Sound(env, |m.s.ram|) && TransferRecords(t, insn, addr, writes) && InTransferSpace(insn)
    requires Bit(insn, 24) && !Bit(insn, 21)
    ensures Agrees(Run(t, 0, m, env), Arch.ArmVfp(insn, addr, m.s, env.mmu, env.priv), m.s, Wrap(addr + 4))
  {
    hide Field, Run, Step, HostVfpRead, HostVfpWrite, ArchVfp.LoadWords, ArchVfp.StoreWords, ArchVfp.Execute, ArchVfp.LoadStoreInsn,
         Sound, Enabled, DecodeVfpTransfer, Agrees, Arch.Reg;
    SingleDecodes(insn, Wrap(addr + 8), writes);
    var load, dbl, up, rn := Bit(insn, 20), Bit(insn, 8), Bit(insn, 23), Field(insn, 16, 4);
    var m1 := ArmAddressImm(t, Field(insn, 0, 8) * 4, true, up, rn, Wrap(addr + 8), m, env);
    TransferRecordStep(t[1], load, FirstOf(insn), dbl, m1, env);
    SingleInsn(insn, addr, m.s, env.mmu, env.priv);
    if load {
      VldrRefines(m1, env, FirstOf(insn), dbl);
    } else {
      VstrRefines(m1, env, FirstOf(insn), dbl);
    }
    var r := ArchVfp.Execute(insn, addr, m.s, env.mmu, env.priv);
    if Enabled(m.s.vfp) {
      Dispatch(insn, addr, m.s, env.mmu, env.priv);
    }
    RefinesByLast(t, m, m1, env, r, addr);
  }

  /** Every decoded VSTM. */
  lemma ArmVstmRefines(insn: Word, addr: Word, writes: bool, t: seq<Uop>, m: M, env: Env)
    requires Ready(m, env) && Sound(env, |m.s.ram|) && TransferRecords(t, insn, addr, writes) && InTransferSpace(insn)
    requires !(Bit(insn, 24) && !Bit(insn, 21))
    ensures Agrees(Run(t, 0, m, env), Arch.ArmVfp(insn, addr, m.s, env.mmu, env.priv), m.s, Wrap(addr + 4))
  {
    hide Field, Run, Step, HostVstm, ArchVfp.LoadWords, ArchVfp.StoreWords, ArchVfp.Execute, ArchVfp.LoadStoreInsn,
         Sound, Enabled, DecodeVfpTransfer, Agrees, VstmAddresses;
    VstmDecodes(insn, Wrap(addr + 8), writes);
    var mode := if Bit(insn, 24) then 2 else if Bit(insn, 21) then 1 else 0;
    VstmStep(t[0], mode, Field(insn, 16, 4), m, env);
    VstmRefines(m, env, FirstOf(insn), Field(insn, 0, 8), mode, Field(insn, 16, 4));
    VstmInsn(insn, addr, m.s, env.mmu, env.priv);
    if Enabled(m.s.vfp) {
      Dispatch(insn, addr, m.s, env.mmu, env.priv);
    }
    RefinesByLast(t, m, m, env, ArchVfp.Execute(insn, addr, m.s, env.mmu, env.priv), addr);
  }
}
