/** Guest-visible state, guest memory behind translation, and the translated-block caches over it. */
module Machine {
  import opened Words
  import opened Encodings

  /** The VFP unit: S registers, FPEXC and FPSCR, whether CPACR grants the current privilege access, and how it computes. */
  datatype Vfp = Vfp(s: seq<Word>, fpexc: Word, fpscr: Word, access: bool, unit: Unit)

  /** Guest r0 to r14, flags, instruction-set bit, VFP unit, physical RAM, and the counters of direct data accesses. */
  datatype State = State(r: seq<Word>, f: Flags, thumb: bool, vfp: Vfp, ram: seq<Byte>, loads: nat, stores: nat)

  predicate Wide(s: State) { |s.r| == 15 && |s.vfp.s| == 32 }

  /** A cache slot: where a translated 1 KiB block starts in RAM, its tag, and the generation that proved it. */
  datatype CacheEntry = CacheEntry(host: Option<nat>, tag: Word, gen: Word)

  /** Translation of 1 KiB virtual blocks, per privilege, as the memory-management unit would give it, and whether accesses
      are counted as served by the data caches. */
  datatype Mmu = Mmu(readable: map<(Word, bool), nat>, writable: map<(Word, bool), nat>, counted: bool)

  /** The live context of one run. `dwrite` is absent without the front end's write consent. */
  datatype Env = Env(dread: seq<CacheEntry>, dwrite: Option<seq<CacheEntry>>, gen: Word, priv: bool, mmu: Mmu)

  const BLOCK: nat := 1024

  function BlockBase(va: Word): Word { va - va % BLOCK }

  function Translate(m: map<(Word, bool), nat>, va: Word, priv: bool): Option<nat> {
    if (BlockBase(va), priv) in m then Some(m[(BlockBase(va), priv)] + va % BLOCK) else None
  }

  function Slot(va: Word, priv: bool): nat { (va / BLOCK + Num(priv) * 32) % 64 }

  /** The tag test of the handlers: host pointer present, tag equal to block and privilege, generation current. */
  function Lookup(table: seq<CacheEntry>, va: Word, priv: bool, gen: Word): Option<nat>
    requires |table| == 64
  {
    var e := table[Slot(va, priv)];
    if e.host.Some? && e.tag == BlockBase(va) + Num(priv) && e.gen == gen then Some(e.host.value + va % BLOCK) else None
  }

  /** Live entries hold what the translation says of the block they are tagged with. */
  ghost predicate Faithful(table: seq<CacheEntry>, gen: Word, m: map<(Word, bool), nat>) {
    && |table| == 64
    && forall i :: 0 <= i < 64 && table[i].host.Some? && table[i].gen == gen ==> Backed(table[i], m)
  }

  ghost predicate Backed(e: CacheEntry, m: map<(Word, bool), nat>)
    requires e.host.Some?
  {
    var key := (BlockBase(e.tag), e.tag % BLOCK == 1);
    e.tag % BLOCK <= 1 ==> key in m && m[key] == e.host.value
  }

  ghost predicate Mapped(m: map<(Word, bool), nat>, size: nat) {
    forall key :: key in m ==> m[key] + BLOCK <= size
  }

  /** What a run relies on: faithful caches and block translations inside RAM. */
  ghost predicate Sound(env: Env, size: nat) {
    && env.mmu.counted
    && Faithful(env.dread, env.gen, env.mmu.readable)
    && (env.dwrite.Some? ==> Faithful(env.dwrite.value, env.gen, env.mmu.writable))
    && Mapped(env.mmu.readable, size)
    && Mapped(env.mmu.writable, size)
  }

  /** What a flat run relies on: RAM a power of two, and an address translating to itself folded into it. */
  ghost predicate Folded(env: Env, size: nat) {
    && !env.mmu.counted
    && (exists n: nat :: 10 <= n <= 32 && size == Pow2(n))
    && forall va: Word, priv: bool :: Translate(env.mmu.readable, va, priv) == Translate(env.mmu.writable, va, priv) == Some(va % size)
  }

  /** A hit is the translation. */
  lemma HitIsTranslation(table: seq<CacheEntry>, va: Word, priv: bool, gen: Word, m: map<(Word, bool), nat>, size: nat)
    requires Faithful(table, gen, m) && Mapped(m, size) && Lookup(table, va, priv, gen).Some?
    ensures Translate(m, va, priv) == Lookup(table, va, priv, gen)
    ensures Lookup(table, va, priv, gen).value + (BLOCK - va % BLOCK) <= size
  {
    hide BlockBase;
    var e := table[Slot(va, priv)];
    TagSplits(va, priv, e.tag);
    assert Backed(e, m);
  }

  lemma TagSplits(va: Word, priv: bool, tag: Word)
    requires tag == BlockBase(va) + Num(priv)
    ensures tag % BLOCK == Num(priv) && BlockBase(tag) == BlockBase(va)
  {
    var k: int := va / BLOCK;
    assert BlockBase(va) == k * BLOCK;
  }

  // ------------------------------------------------------------ Bytes of RAM

  function LoadBytes(ram: seq<Byte>, a: nat, width: nat): Word
    requires a + width <= |ram| && (width == 1 || width == 2 || width == 4)
  {
    var b0: int := ram[a];
    if width == 1 then b0
    else
      var b1: int := ram[a + 1];
      if width == 2 then b0 + 0x100 * b1
      else
        var b2: int, b3: int := ram[a + 2], ram[a + 3];
        b0 + 0x100 * b1 + 0x1_0000 * b2 + 0x100_0000 * b3
  }

  function StoreBytes(ram: seq<Byte>, a: nat, width: nat, w: Word): (r: seq<Byte>)
    requires a + width <= |ram| && (width == 1 || width == 2 || width == 4)
    ensures |r| == |ram|
    ensures forall k :: 0 <= k < |ram| && !(a <= k < a + width) ==> r[k] == ram[k]
  {
    var r1 := ram[a := w % 0x100];
    if width == 1 then r1
    else
      var r2 := r1[a + 1 := w / 0x100 % 0x100];
      if width == 2 then r2
      else r2[a + 2 := w / 0x1_0000 % 0x100][a + 3 := w / 0x100_0000]
  }

  // ------------------------------------------------------------ Architectural accesses

  function ReadMemory(s: State, mmu: Mmu, priv: bool, va: Word, size: nat): Option<Word>
    requires size == 1 || size == 2 || size == 4
  {
    match Translate(mmu.readable, va, priv)
    case None => None
    case Some(a) => if va % size != 0 || a + size > |s.ram| then None else Some(LoadBytes(s.ram, a, size))
  }

  function WriteMemory(s: State, mmu: Mmu, priv: bool, va: Word, size: nat, w: Word): Option<State>
    requires size == 1 || size == 2 || size == 4
  {
    match Translate(mmu.writable, va, priv)
    case None => None
    case Some(a) => if va % size != 0 || a + size > |s.ram| then None
                    else Some(s.(ram := StoreBytes(s.ram, a, size, w), stores := s.stores + Num(mmu.counted)))
  }
}
