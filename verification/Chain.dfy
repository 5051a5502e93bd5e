/** Chaining heads under an instruction budget: the accounting, and the byte witness of cached graph nodes. */
module Chain {
  import opened Words
  import opened Handlers
  import opened Decode
  import opened Program
  import opened Validate
  import opened Recheck

  type Count64 = x: int | 0 <= x < 0x1_0000_0000_0000_0000

  function Wrap64(x: int): Count64 { x % 0x1_0000_0000_0000_0000 }

  const MAX_CHAIN_INSNS: nat := 256
  const GRAPH_SLOTS: nat := 512
  const FETCH_BLOCK: nat := 1024

  /** A cached head: where its code was fetched from, the bytes it was decoded from, and its records. */
  datatype Node = Node(host: nat, uops: Option<seq<Uop>>, pc: Word, gen: Word, insns: nat, rawLen: nat, raw: seq<Byte>,
                       priv: bool, thumb: bool, valid: bool, supported: bool)

  /** The fetch block proved by the outer entry: its place in RAM, its address, generation and privilege. */
  datatype Fetch = Fetch(host: nat, base: Word, gen: Word, priv: bool)

  ghost predicate FetchOk(f: Fetch, ram: seq<Byte>) {
    f.base % FETCH_BLOCK == 0 && f.host + FETCH_BLOCK <= |ram|
  }

  /** What publishing a node establishes: its bytes lie in its fetch block, one width per instruction. */
  ghost predicate NodeShaped(n: Node) {
    && |n.raw| == 64
    && (n.valid && n.supported ==>
          n.rawLen == n.insns * Width(n.thumb) && n.rawLen <= 64 && n.pc % FETCH_BLOCK + n.rawLen <= FETCH_BLOCK)
  }

  function GraphSlot(pc: Word, base: Word, thumb: bool): nat
    requires base <= pc
  {
    (pc - base) / Width(thumb)
  }

  predicate SameIdentity(n: Node, f: Fetch, pc: Word, thumb: bool) {
    n.valid && n.supported && n.host == f.host && n.pc == pc && n.gen == f.gen && n.priv == f.priv && n.thumb == thumb
  }

  /** A node the graph may continue with: it is the identity asked for, fits the budget, and its witness is what memory holds now. */
  ghost predicate Accepts(n: Node, f: Fetch, pc: Word, thumb: bool, remaining: nat, ram: seq<Byte>) {
    && |n.raw| == 64
    && SameIdentity(n, f, pc, thumb)
    && 0 < n.insns <= remaining
    && 0 < n.rawLen <= 64 && n.rawLen % 2 == 0
    && f.base <= pc && f.host + (pc - f.base) + n.rawLen <= |ram|
    && ram[f.host + (pc - f.base)..f.host + (pc - f.base) + n.rawLen] == n.raw[..n.rawLen]
    && n.uops.Some?
  }

  // ------------------------------------------------------------ The raw-byte witness

  /** A little-endian host load of `n` bytes. */
  function LoadLe(s: seq<Byte>, at: nat, n: nat): nat
    requires at + n <= |s|
    decreases n
  {
    if n == 0 then 0 else s[at] as int + 0x100 * LoadLe(s, at + 1, n - 1)
  }

  lemma FirstByte(s: seq<Byte>, a: nat, t: seq<Byte>, b: nat, n: nat)
    requires 0 < n && a + n <= |s| && b + n <= |t|
    ensures s[a..a + n] == t[b..b + n] <==> s[a] == t[b] && s[a + 1..a + n] == t[b + 1..b + n]
  {
    var x, y := s[a..a + n], t[b..b + n];
    assert x[0] == s[a] && x[1..] == s[a + 1..a + n];
    assert y[0] == t[b] && y[1..] == t[b + 1..b + n];
    assert x == [x[0]] + x[1..] && y == [y[0]] + y[1..];
  }

  /** Equal loads are equal bytes. */
  lemma {:induction false} LoadInjective(s: seq<Byte>, a: nat, t: seq<Byte>, b: nat, n: nat)
    requires a + n <= |s| && b + n <= |t|
    ensures LoadLe(s, a, n) == LoadLe(t, b, n) <==> s[a..a + n] == t[b..b + n]
    decreases n
  {
    if n > 0 {
      LoadInjective(s, a + 1, t, b + 1, n - 1);
      var x: int, y: int := s[a], t[b];
      var u: int, v: int := LoadLe(s, a + 1, n - 1), LoadLe(t, b + 1, n - 1);
      assert x + 0x100 * u == y + 0x100 * v ==> x == y && u == v by {
        LowByte(x, u);
        LowByte(y, v);
      }
      FirstByte(s, a, t, b, n);
    } else {
      assert s[a..a + n] == [] && t[b..b + n] == [];
    }
  }

  lemma LowByte(x: int, u: int)
    requires 0 <= x < 0x100
    ensures (x + 0x100 * u) % 0x100 == x
  {
  }

  lemma SliceExtends(s: seq<Byte>, a: nat, t: seq<Byte>, b: nat, k: nat, n: nat)
    requires a + k + n <= |s| && b + k + n <= |t|
    ensures s[a..a + k + n] == t[b..b + k + n] <==> s[a..a + k] == t[b..b + k] && s[a + k..a + k + n] == t[b + k..b + k + n]
  {
    var x, y := s[a..a + k + n], t[b..b + k + n];
    assert x[..k] == s[a..a + k] && x[k..] == s[a + k..a + k + n];
    assert y[..k] == t[b..b + k] && y[k..] == t[b + k..b + k + n];
    assert x == x[..k] + x[k..] && y == y[..k] + y[k..];
  }

  /** One wide comparison of the witness, behind `k` bytes known equal: a difference settles the whole. */
  method SameLoad(s: seq<Byte>, a: nat, t: seq<Byte>, k: nat, n: nat, len: nat) returns (same: bool)
    requires k + n <= len && a + len <= |s| && len <= |t| && s[a..a + k] == t[0..0 + k]
    ensures same ==> s[a..a + (k + n)] == t[0..0 + (k + n)]
    ensures !same ==> s[a..a + len] != t[..len]
  {
    LoadInjective(s, a + k, t, k, n);
    SliceExtends(s, a, t, 0, k, n);
    SliceExtends(s, a, t, 0, k + n, len - (k + n));
    same := LoadLe(s, a + k, n) == LoadLe(t, k, n);
  }

  /** The witness comparison: eight bytes at a time, then a word and a halfword as the length's bits say. */
  method RawMatches(ram: seq<Byte>, at: nat, raw: seq<Byte>, len: nat) returns (same: bool)
    requires len % 2 == 0 && at + len <= |ram| && len <= |raw|
    ensures same <==> ram[at..at + len] == raw[..len]
  {
    var done, left := 0, len;
    while left >= 8
      invariant done + left == len && left % 2 == 0 && ram[at..at + done] == raw[0..0 + done]
    {
      same := SameLoad(ram, at, raw, done, 8, len);
      if !same {
        return;
      }
      done, left := done + 8, left - 8;
    }
    if left / 4 % 2 == 1 {
      same := SameLoad(ram, at, raw, done, 4, len);
      if !same {
        return;
      }
      done, left := done + 4, left - 4;
    }
    if left / 2 % 2 == 1 {
      same := SameLoad(ram, at, raw, done, 2, len);
      if !same {
        return;
      }
      done, left := done + 2, left - 2;
    }
    assert done == len;
    return true;
  }

  // ------------------------------------------------------------ The context

  class ChainContext {
    var uops: seq<Uop>
    var insns: nat
    var cycles: Count64
    var completed: nat
    var blocks: nat
    var finalPc: Word
    var thumb: bool
    const budget: nat
    const memoryHits: bool
    const nodes: seq<Node>
    const fetch: Fetch
    ghost const began: Count64

    /** A head is open: it fits what is left of the budget and its cycles have been paid in advance. */
    ghost predicate Open()
      reads this
    {
      && budget <= MAX_CHAIN_INSNS
      && 0 < insns <= budget - completed
      && cycles == Wrap64(began + completed + insns)
    }

    constructor (first: Block, budget: nat, memoryHits: bool, nodes: seq<Node>, fetch: Fetch, cycles: Count64)
      requires budget <= MAX_CHAIN_INSNS && 0 < first.insnCount <= budget
      ensures Open() && completed == 0 && blocks == 0 && finalPc == first.startPc && thumb == first.thumb
      ensures uops == first.uops && insns == first.insnCount && began == cycles
      ensures this.budget == budget && this.memoryHits == memoryHits && this.nodes == nodes && this.fetch == fetch
    {
      this.uops, this.insns := first.uops, first.insnCount;
      this.cycles := Wrap64(cycles + first.insnCount);
      this.began := cycles;
      this.completed, this.blocks, this.finalPc, this.thumb := 0, 0, first.startPc, first.thumb;
      this.budget, this.memoryHits, this.nodes, this.fetch := budget, memoryHits, nodes, fetch;
    }

    /** The open head has retired all its instructions and left to `pc`; `next` is the selector's answer.
        The count always rises: the over-budget returns are never taken. */
    method Advance(pc: Word, next: Option<Block>) returns (go: bool)
      requires Open()
      modifies this
      ensures finalPc == pc && completed == old(completed + insns) && blocks == old(blocks) + 1 && thumb == old(thumb)
      ensures go <==> completed < budget && next.Some?
                      && ValidDecodedHits(next.value, pc, thumb, budget - completed, memoryHits)
      ensures next.Some? && Made(next.value)
              ==> (go <==> completed < budget && Continues(next.value, pc, thumb, budget - completed, memoryHits))
      ensures go ==> Open() && uops == next.value.uops && insns == next.value.insnCount
      ensures !go ==> cycles == Wrap64(began + completed)
    {
      hide ValidDecodedHits, Made, Continues;
      var current := insns;
      finalPc := pc;
      if current == 0 || completed > budget || current > budget - completed {
        return false;
      }
      completed, blocks := completed + current, blocks + 1;
      var remaining := budget - completed;
      if remaining == 0 || next.None? {
        return false;
      }
      if Made(next.value) {
        RecheckExact(next.value, pc, thumb, remaining, memoryHits);
      }
      if !ValidDecodedHits(next.value, pc, thumb, remaining, memoryHits) {
        return false;
      }
      ValidFits(next.value, pc, thumb, remaining, memoryHits);
      uops, insns := next.value.uops, next.value.insnCount;
      cycles := Wrap64(cycles + next.value.insnCount);
      assert cycles == Wrap64(began + completed + insns) by {
        Wrap64Wrap(began + completed, insns);
      }
      return true;
    }

    /** A record refused: its metadata pays back the unretired cycles and publishes the retired prefix. */
    method Miss(u: Uop)
      requires Open()
      requires var remaining, plusOne := u.meta % 256, u.meta / 256 % 256;
               0 < plusOne <= insns && remaining == insns - (plusOne - 1)
      modifies this
      ensures var k := u.meta / 256 % 256 - 1;
              completed == old(completed) + k && blocks == old(blocks) + (if k > 0 then 1 else 0)
      ensures finalPc == u.pcv && thumb == old(thumb) && cycles == Wrap64(began + completed)
    {
      var unretired: int := u.meta % 256;
      assert Wrap64(cycles - unretired) == Wrap64(began + completed + insns - unretired) by {
        Wrap64Wrap(began + completed + insns, -unretired);
      }
      cycles := Wrap64(cycles - unretired);
      Partial(u.meta / 256 % 256 - 1, u.pcv);
    }

    /** Publishes a partial head. */
    method Partial(k: nat, pc: Word)
      requires 0 < insns <= budget - completed
      modifies this`completed, this`blocks, this`finalPc
      ensures finalPc == pc
      ensures completed == old(completed) + if k <= insns then k else 0
      ensures blocks == old(blocks) + if 0 < k <= insns then 1 else 0
    {
      finalPc := pc;
      if k > insns || k > budget - completed {
        return;
      }
      completed := completed + k;
      if k > 0 {
        blocks := blocks + 1;
      }
    }

    /** The open head has left to `pc`: account for it and continue with the cached node for `pc`, if its bytes are still there. */
    method GraphAdvance(pc: Word, ram: seq<Byte>) returns (go: bool)
      requires Open() && FetchOk(fetch, ram)
      requires |nodes| == GRAPH_SLOTS && forall k :: 0 <= k < GRAPH_SLOTS ==> NodeShaped(nodes[k])
      modifies this
      ensures finalPc == pc && completed == old(completed + insns) && blocks == old(blocks) + 1 && thumb == old(thumb)
      ensures go <==> && completed < budget && fetch.base <= pc < fetch.base + FETCH_BLOCK
                      && Accepts(nodes[GraphSlot(pc, fetch.base, thumb)], fetch, pc, thumb, budget - completed, ram)
      ensures go ==> Open() && var n := nodes[GraphSlot(pc, fetch.base, thumb)]; uops == n.uops.value && insns == n.insns
      ensures !go ==> cycles == Wrap64(began + completed)
    {
      finalPc := pc;
      if insns == 0 || completed >= budget {
        return false;
      }
      var room := budget - completed;
      if insns > room {
        return false;
      }
      completed, blocks := completed + insns, blocks + 1;
      var remaining := room - insns;
      if remaining == 0 {
        return false;
      }
      SameBlock(pc, fetch.base);
      if pc / FETCH_BLOCK != fetch.base / FETCH_BLOCK {
        return false;
      }
      SlotBelow(pc, fetch.base, thumb);
      var n := nodes[GraphSlot(pc, fetch.base, thumb)];
      var ok := Witness(n, fetch, pc, thumb, remaining, ram);
      if !ok {
        return false;
      }
      uops, insns := n.uops.value, n.insns;
      assert Wrap64(cycles + n.insns) == Wrap64(began + completed + n.insns) by {
        Wrap64Wrap(began + completed, n.insns);
      }
      cycles := Wrap64(cycles + n.insns);
      return true;
    }
  }

  /** The checks on a candidate node, in order. */
  method Witness(n: Node, f: Fetch, pc: Word, thumb: bool, remaining: nat, ram: seq<Byte>) returns (ok: bool)
    requires FetchOk(f, ram) && NodeShaped(n) && f.base <= pc < f.base + FETCH_BLOCK
    ensures ok <==> Accepts(n, f, pc, thumb, remaining, ram)
  {
    SameBlock(pc, f.base);
    if !SameIdentity(n, f, pc, thumb) || n.insns == 0 || n.insns > remaining {
      return false;
    }
    if n.rawLen == 0 || n.rawLen > 64 || n.rawLen % 2 != 0 {
      return false;
    }
    var same := RawMatches(ram, f.host + (pc - f.base), n.raw, n.rawLen);
    return same && n.uops.Some?;
  }

  lemma SlotBelow(pc: Word, base: Word, thumb: bool)
    requires base <= pc < base + FETCH_BLOCK
    ensures GraphSlot(pc, base, thumb) < GRAPH_SLOTS
  {
  }

  lemma Wrap64Wrap(x: int, a: int)
    ensures Wrap64(Wrap64(x) + a) == Wrap64(x + a)
  {
  }

  lemma SameBlock(pc: Word, base: Word)
    requires base % FETCH_BLOCK == 0
    ensures pc / FETCH_BLOCK == base / FETCH_BLOCK <==> base <= pc < base + FETCH_BLOCK
    ensures base <= pc < base + FETCH_BLOCK ==> pc % FETCH_BLOCK == pc - base
  {
    var k: int := base / FETCH_BLOCK;
    assert base == FETCH_BLOCK * k;
  }

  // ------------------------------------------------------------ Whole chains

  /** How a head's dispatch ends: it leaves with everything retired, or one of its guarded records refuses. */
  datatype Ending = Finished(pc: Word, thumb: bool) | StoppedAt(at: nat)

  /** One head of a chain: where it started, its length, how much of it retired, where and in which instruction set execution
      stands afterwards, and its records. */
  datatype Visit = Visit(start: Word, thumb: bool, insns: nat, retired: nat, after: Word, isa: bool, uops: seq<Uop>)

  /** Heads whose guards name their own instruction, as decoded blocks' do. */
  ghost predicate Guards(b: Block) {
    forall j :: 0 <= j < |b.uops| && IsRuntimeGuarded(b.uops[j].op.f) ==> GuardMetadata(b, b.uops[j])
  }

  ghost predicate EndingOk(b: Block, e: Ending) {
    e.StoppedAt? ==> e.at < |b.uops| && IsRuntimeGuarded(b.uops[e.at].op.f)
  }

  function VisitOf(b: Block, e: Ending): Visit {
    match e
    case Finished(pc, thumb) => Visit(b.startPc, b.thumb, b.insnCount, b.insnCount, pc, thumb, b.uops)
    case StoppedAt(at) =>
      if at < |b.uops| && b.uops[at].meta / 256 % 256 > 0
      then Visit(b.startPc, b.thumb, b.insnCount, b.uops[at].meta / 256 % 256 - 1, b.uops[at].pcv, b.thumb, b.uops)
      else Visit(b.startPc, b.thumb, b.insnCount, 0, b.startPc, b.thumb, b.uops)
  }

  /** What the selector answers the `i`-th time, given the program counter and the remaining budget. */
  type Selector = (nat, Word, nat) -> Option<Block>

  /** How the `i`-th head ends. */
  type Outcomes = (nat, Block) -> Ending

  /** The heads of a chain from head `b`, the `i`-th, with `remaining` budget. */
  function Follow(i: nat, b: Block, remaining: nat, hits: bool, ends: Outcomes, next: Selector): seq<Visit>
    decreases remaining
  {
    var here := [VisitOf(b, ends(i, b))];
    match ends(i, b)
    case StoppedAt(_) => here
    case Finished(pc, thumb) =>
      if b.insnCount == 0 || b.insnCount >= remaining then here
      else
        var left := remaining - b.insnCount;
        match next(i, pc, left)
        case None => here
        case Some(c) => if ValidDecodedHits(c, pc, thumb, left, hits) then here + Follow(i + 1, c, left, hits, ends, next) else here
  }

  function Retired(v: seq<Visit>): nat {
    if v == [] then 0 else v[0].retired + Retired(v[1..])
  }

  function Entered(v: seq<Visit>): nat {
    if v == [] then 0 else (if v[0].retired > 0 then 1 else 0) + Entered(v[1..])
  }

  /** Heads follow each other: all but the last retire completely, and each starts where and in the instruction set in which
      the one before it left. */
  ghost predicate Linked(v: seq<Visit>) {
    && (forall i :: 0 <= i < |v| ==> v[i].retired <= v[i].insns)
    && (forall i :: 0 <= i < |v| - 1 ==> v[i].retired == v[i].insns && v[i].after == v[i + 1].start && v[i].isa == v[i + 1].thumb)
    && (forall i :: 0 <= i < |v| && v[i].retired < v[i].insns ==> v[i].after == InsnPc(v[i].start, v[i].retired, v[i].thumb))
  }

  ghost predicate WorldOk(hits: bool, ends: Outcomes, next: Selector) {
    && (forall i: nat, b: Block :: EndingOk(b, ends(i, b)))
    && (forall i: nat, pc: Word, left: nat :: next(i, pc, left).Some? ==> Guards(next(i, pc, left).value))
  }

  lemma VisitFits(b: Block, e: Ending)
    requires EndingOk(b, e) && Guards(b)
    ensures var v := VisitOf(b, e);
            && v.retired <= v.insns
            && (e.StoppedAt? ==> v.retired < v.insns && v.after == InsnPc(v.start, v.retired, v.thumb))
            && (e.Finished? ==> v.retired == v.insns)
  {
    hide IsRuntimeGuarded, InsnPc;
    if e.StoppedAt? {
      assert GuardMetadata(b, b.uops[e.at]);
    }
  }

  /** Whatever the selector answers and wherever heads refuse: the chain stays within the budget, every head but the last
      retires completely, and execution stands at the first unretired instruction. */
  lemma {:induction false} ChainIsLinked(i: nat, b: Block, remaining: nat, hits: bool, ends: Outcomes, next: Selector)
    requires Guards(b) && 0 < b.insnCount <= remaining && WorldOk(hits, ends, next)
    ensures var v := Follow(i, b, remaining, hits, ends, next);
            v != [] && Linked(v) && v[0].start == b.startPc && v[0].thumb == b.thumb && Retired(v) <= remaining
    decreases remaining
  {
    hide ValidDecodedHits, Guards;
    var v := Follow(i, b, remaining, hits, ends, next);
    var e := ends(i, b);
    assert EndingOk(b, e);
    VisitFits(b, e);
    assert v[0] == VisitOf(b, e);
    if |v| > 1 {
      var left := remaining - b.insnCount;
      var c := next(i, e.pc, left).value;
      ValidFits(c, e.pc, e.thumb, left, hits);
      ChainIsLinked(i + 1, c, left, hits, ends, next);
      assert v[1..] == Follow(i + 1, c, left, hits, ends, next);
      LinkedPrepend(v);
    } else {
      assert v[1..] == [];
    }
  }

  lemma LinkedPrepend(v: seq<Visit>)
    requires |v| > 1 && Linked(v[1..]) && v[0].retired == v[0].insns && v[0].after == v[1].start && v[0].isa == v[1].thumb
    ensures Linked(v)
  {
    var w := v[1..];
    forall i | 1 <= i < |v|
      ensures v[i] == w[i - 1]
    {
    }
  }

  lemma ValidFits(c: Block, pc: Word, thumb: bool, left: nat, hits: bool)
    requires ValidDecodedHits(c, pc, thumb, left, hits)
    ensures 0 < c.insnCount <= left && c.startPc == pc && c.thumb == thumb
  {
  }

  /** A selector that offers only blocks some full validation has accepted. */
  ghost predicate OffersMade(next: Selector) {
    forall i: nat, pc: Word, left: nat :: next(i, pc, left).Some? ==> Made(next(i, pc, left).value)
  }

  ghost predicate AllRunnable(v: seq<Visit>, stores: bool) { forall x :: x in v ==> Runnable(x.uops, stores) }

  /** Every head of a chain holds only records its runner has licence for: without consent to store, no chain reaches a record
      that stores, wherever its heads end and whatever the selector offers. */
  lemma {:induction false} HeadsRunnable(i: nat, b: Block, remaining: nat, hits: bool, ends: Outcomes, next: Selector)
    requires Runnable(b.uops, hits) && OffersMade(next)
    ensures AllRunnable(Follow(i, b, remaining, hits, ends, next), hits)
    decreases remaining
  {
    hide ValidDecodedHits, Runnable, Made;
    var v := Follow(i, b, remaining, hits, ends, next);
    var e := ends(i, b);
    if |v| > 1 {
      var left := remaining - b.insnCount;
      var c := next(i, e.pc, left).value;
      RecheckExact(c, e.pc, e.thumb, left, hits);
      HeadsRunnable(i + 1, c, left, hits, ends, next);
      assert v == [VisitOf(b, e)] + Follow(i + 1, c, left, hits, ends, next);
    } else {
      assert v == [VisitOf(b, e)];
    }
  }

  /** The entry check, and what it then licenses. */
  lemma EntryDecides(b: Block, pc: Word, thumb: bool, budget: nat, hits: bool, ends: Outcomes, next: Selector)
    requires WorldOk(hits, ends, next)
    ensures Made(b) ==> (ValidDecodedHits(b, pc, thumb, budget, hits) <==> Continues(b, pc, thumb, budget, hits))
    ensures ValidDecodedHits(b, pc, thumb, budget, hits) && Made(b) && OffersMade(next) ==> AllRunnable(Follow(0, b, budget, hits, ends, next), hits)
  {
    hide ValidDecodedHits, Made, OffersMade, AllRunnable, Runnable, Follow, WorldOk;
    if Made(b) {
      RecheckExact(b, pc, thumb, budget, hits);
      if ValidDecodedHits(b, pc, thumb, budget, hits) && OffersMade(next) {
        HeadsRunnable(0, b, budget, hits, ends, next);
      }
    }
  }

  /** A run of the product chain: the entry checks, then one head after another. */
  method RunHitsChain(first: Block, pc: Word, thumb: bool, budget: nat, hits: bool, cycles: Count64, ends: Outcomes, next: Selector)
    returns (ok: bool, completed: nat, blocks: nat, finalPc: Word, now: Count64)
    requires Guards(first) && WorldOk(hits, ends, next)
    ensures ok <==> 0 < budget <= MAX_CHAIN_INSNS && ValidDecodedHits(first, pc, thumb, budget, hits)
    ensures Made(first) ==> (ok <==> 0 < budget <= MAX_CHAIN_INSNS && Continues(first, pc, thumb, budget, hits))
    ensures ok && Made(first) && OffersMade(next)
            ==> AllRunnable(Follow(0, first, budget, hits, ends, next), hits)
    ensures !ok ==> completed == 0 && blocks == 0 && now == cycles && finalPc == pc
    ensures ok ==> var v := Follow(0, first, budget, hits, ends, next);
                   && completed == Retired(v) <= budget
                   && blocks == Entered(v)
                   && v != [] && finalPc == v[|v| - 1].after
                   && now == Wrap64(cycles + completed)
  {
    hide ValidDecodedHits, Guards, Follow, Retired, Entered, Linked, WorldOk, Wrap64, Made, OffersMade, AllRunnable, Continues;
    ok, completed, blocks, finalPc, now := false, 0, 0, pc, cycles;
    EntryDecides(first, pc, thumb, budget, hits, ends, next);
    if budget == 0 || budget > MAX_CHAIN_INSNS || !ValidDecodedHits(first, pc, thumb, budget, hits) {
      return;
    }
    ValidFits(first, pc, thumb, budget, hits);
    ChainIsLinked(0, first, budget, hits, ends, next);
    var context := new ChainContext(first, budget, hits, [], Fetch(0, 0, 0, false), cycles);
    RunHeads(context, first, hits, ends, next);
    ok, completed, blocks, finalPc, now := true, context.completed, context.blocks, context.finalPc, context.cycles;
  }

  /** The heads of a chain, from an open context on. */
  method RunHeads(context: ChainContext, first: Block, hits: bool, ends: Outcomes, next: Selector)
    requires Opened(context, first) && WorldOk(hits, ends, next) && context.memoryHits == hits
    requires context.completed == context.blocks == 0
    modifies context
    ensures var v := Follow(0, first, context.budget, hits, ends, next);
            && context.completed == Retired(v) && context.blocks == Entered(v)
            && v != [] && context.finalPc == v[|v| - 1].after
            && context.cycles == Wrap64(context.began + context.completed)
  {
    hide Follow, Retired, Entered, VisitOf, WorldOk, Wrap64, Opened;
    ghost var all := Follow(0, first, context.budget, hits, ends, next);
    var head, i, go := first, 0, true;
    ghost var past: seq<Visit> := [];
    NothingYet();
    assert all == past + all;
    while go
      invariant context.completed == Retired(past) && context.blocks == Entered(past)
      invariant go ==> context.completed <= context.budget
      invariant go ==> && Opened(context, head)
                       && all == past + Follow(i, head, context.budget - context.completed, hits, ends, next)
      invariant !go ==> all == past && past != [] && context.finalPc == past[|past| - 1].after
                        && context.cycles == Wrap64(context.began + context.completed)
      decreases go, context.budget - context.completed
    {
      Sums(past, VisitOf(head, ends(i, head)));
      past := past + [VisitOf(head, ends(i, head))];
      go, head := OneHead(context, head, i, hits, ends, next);
      i := i + 1;
    }
  }

  ghost predicate Opened(context: ChainContext, head: Block)
    reads context
  {
    context.Open() && Guards(head) && context.uops == head.uops && context.insns == head.insnCount
  }

  /** Runs the open head to its end and selects the next. */
  method OneHead(context: ChainContext, head: Block, i: nat, hits: bool, ends: Outcomes, next: Selector) returns (go: bool, after: Block)
    requires Opened(context, head) && WorldOk(hits, ends, next) && context.memoryHits == hits
    modifies context
    ensures var v := VisitOf(head, ends(i, head));
            && context.completed == old(context.completed) + v.retired
            && context.blocks == old(context.blocks) + (if v.retired > 0 then 1 else 0)
            && context.finalPc == v.after
            && Follow(i, head, context.budget - old(context.completed), hits, ends, next)
               == if go then [v] + Follow(i + 1, after, context.budget - context.completed, hits, ends, next) else [v]
    ensures go ==> Opened(context, after) && old(context.completed) < context.completed <= context.budget
    ensures !go ==> context.cycles == Wrap64(context.began + context.completed)
  {
    hide ValidDecodedHits, Guards, GuardMetadata, Follow, VisitOf, WorldOk, Wrap64;
    go, after := false, head;
    HeadOk(i, head, context.budget - context.completed, hits, ends, next);
    match ends(i, head)
    case StoppedAt(at) =>
      GuardReads(head, at);
      context.Miss(context.uops[at]);
    case Finished(target, mode) =>
      context.thumb := mode;
      var answer := next(i, target, context.budget - context.completed - context.insns);
      go := context.Advance(target, answer);
      if go {
        after := answer.value;
      }
  }

  lemma NothingYet()
    ensures Retired([]) == 0 && Entered([]) == 0
  {
  }

  /** One head of a chain: what it contributes, and where the chain goes on. */
  lemma HeadOk(i: nat, b: Block, left: nat, hits: bool, ends: Outcomes, next: Selector)
    requires Guards(b) && 0 < b.insnCount <= left && WorldOk(hits, ends, next)
    ensures var e := ends(i, b);
            var v := VisitOf(b, e);
            match e
            case StoppedAt(at) => at < |b.uops| && IsRuntimeGuarded(b.uops[at].op.f) && Follow(i, b, left, hits, ends, next) == [v]
            case Finished(pc, thumb) =>
              var rest := left - b.insnCount;
              var c := next(i, pc, rest);
              && v.retired == b.insnCount && v.after == pc
              && (c.Some? ==> Guards(c.value))
              && Follow(i, b, left, hits, ends, next)
                 == if rest > 0 && c.Some? && ValidDecodedHits(c.value, pc, thumb, rest, hits)
                    then [v] + Follow(i + 1, c.value, rest, hits, ends, next) else [v]
  {
    hide ValidDecodedHits, Guards, IsRuntimeGuarded;
    assert EndingOk(b, ends(i, b));
  }

  lemma {:induction false} Sums(v: seq<Visit>, x: Visit)
    ensures Retired(v + [x]) == Retired(v) + x.retired
    ensures Entered(v + [x]) == Entered(v) + if x.retired > 0 then 1 else 0
  {
    if v != [] {
      Sums(v[1..], x);
      assert (v + [x])[1..] == v[1..] + [x];
    } else {
      assert v + [x] == [x] && [x][1..] == [];
    }
  }

  lemma GuardReads(b: Block, at: nat)
    requires Guards(b) && at < |b.uops| && IsRuntimeGuarded(b.uops[at].op.f)
    ensures var u := b.uops[at];
            && 0 < u.meta / 256 % 256 <= b.insnCount && u.meta % 256 == b.insnCount - (u.meta / 256 % 256 - 1)
            && VisitOf(b, StoppedAt(at)) == Visit(b.startPc, b.thumb, b.insnCount, u.meta / 256 % 256 - 1, u.pcv, b.thumb, b.uops)
  {
    hide IsRuntimeGuarded;
    assert GuardMetadata(b, b.uops[at]);
  }
}
