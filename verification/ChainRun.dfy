/** A graph-chained run is the architecture executing live memory, instruction by instruction. */
module ChainRun {
  import opened Words
  import opened Handlers
  import opened Decode
  import opened Program
  import opened Validate
  import opened Agreement
  import opened Machine
  import opened Exec
  import opened RefineProgram
  import opened Chain
  import Arch

  // ------------------------------------------------------------ The reference: fetch, execute, repeat

  /** May the architecture fetch at `pc` from the fetch block? */
  predicate Fetchable(f: Fetch, pc: Word, thumb: bool, ram: seq<Byte>) {
    f.base <= pc && pc + Width(thumb) <= f.base + FETCH_BLOCK && f.host + FETCH_BLOCK <= |ram|
  }

  /** `n` architectural instructions from `pc`, each fetched from RAM as it is at that moment. */
  function LiveRun(n: nat, s: State, pc: Word, f: Fetch, env: Env): Arch.Result {
    if n == 0 then Arch.Done(s, pc)
    else
      match LiveRun(n - 1, s, pc, f, env)
      case Undefined => Arch.Undefined
      case Done(t, at) =>
        if Wide(t) && Fetchable(f, at, t.thumb, t.ram)
        then Arch.Step(ReadLe(t.ram[f.host + (at - f.base)..], 0, t.thumb), at, t, env.mmu, env.priv)
        else Arch.Undefined
  }

  lemma {:induction false} LiveRunJoin(a: nat, b: nat, s: State, pc: Word, f: Fetch, env: Env)
    requires LiveRun(a, s, pc, f, env).Done?
    ensures LiveRun(a + b, s, pc, f, env) == LiveRun(b, LiveRun(a, s, pc, f, env).s, LiveRun(a, s, pc, f, env).pc, f, env)
  {
    hide Arch.Step, ReadLe, Fetchable;
    if b > 0 {
      LiveRunJoin(a, b - 1, s, pc, f, env);
    }
  }

  /** A step of the live reference, seen from its end. */
  lemma LiveStep(code: nat, k: nat, thumb: bool, pc: Word, s: State, env: Env)
    requires k > 0 && Live(code, k, thumb, pc, s, env).Done?
    ensures Live(code, k - 1, thumb, pc, s, env).Done?
    ensures var t := Live(code, k - 1, thumb, pc, s, env).s;
            && Live(code, k - 1, thumb, pc, s, env).pc == InsnPc(pc, k - 1, thumb)
            && Wide(t) && t.thumb == thumb && code + (k - 1) * Width(thumb) + Width(thumb) <= |t.ram|
            && Live(code, k, thumb, pc, s, env)
               == Arch.Step(ReadLe(t.ram[code..], (k - 1) * Width(thumb), thumb), InsnPc(pc, k - 1, thumb), t, env.mmu, env.priv)
  {
    hide Arch.Step, ReadLe, InsnPc;
    assert (k - 1) * Width(thumb) + Width(thumb) == k * Width(thumb);
  }

  /** What holds along a head: it is executed live, from RAM that holds its fetch block. */
  ghost predicate LiveAt(j: nat, thumb: bool, pc: Word, s: State, f: Fetch, env: Env)
    requires f.base <= pc
  {
    var r := Live(f.host + (pc - f.base), j, thumb, pc, s, env);
    r.Done? && |r.s.ram| >= f.host + FETCH_BLOCK
  }

  /** Execution of a head at consecutive addresses is execution from live memory. */
  lemma {:induction false} LiveIsLiveRun(k: nat, n: nat, s: State, pc: Word, f: Fetch, env: Env)
    requires k <= n && f.base <= pc && pc + n * Width(s.thumb) <= f.base + FETCH_BLOCK && f.base % FETCH_BLOCK == 0
    requires Live(f.host + (pc - f.base), k, s.thumb, pc, s, env).Done?
    requires forall j :: 0 <= j < k ==> LiveAt(j, s.thumb, pc, s, f, env)
    ensures LiveRun(k, s, pc, f, env) == Live(f.host + (pc - f.base), k, s.thumb, pc, s, env)
  {
    hide Arch.Step, ReadLe, Live, InsnPc;
    var code := f.host + (pc - f.base);
    if k == 0 {
      NoSteps(code, s.thumb, pc, s, env);
    } else {
      LiveStep(code, k, s.thumb, pc, s, env);
      LiveIsLiveRun(k - 1, n, s, pc, f, env);
      assert LiveAt(k - 1, s.thumb, pc, s, f, env);
      var t := Live(code, k - 1, s.thumb, pc, s, env).s;
      NextFits(pc, k, n, s.thumb, f.base);
      SameFetch(t.ram, code, (k - 1) * Width(s.thumb), s.thumb);
    }
  }

  lemma NoSteps(code: nat, thumb: bool, pc: Word, s: State, env: Env)
    ensures Live(code, 0, thumb, pc, s, env) == Arch.Done(s, pc)
  {
  }

  lemma NextFits(pc: Word, k: nat, n: nat, thumb: bool, base: Word)
    requires 0 < k <= n && pc + n * Width(thumb) <= base + FETCH_BLOCK && base % FETCH_BLOCK == 0
    ensures pc + (k - 1) * Width(thumb) + Width(thumb) <= base + FETCH_BLOCK
    ensures InsnPc(pc, k - 1, thumb) == pc + (k - 1) * Width(thumb)
  {
    var w := Width(thumb);
    MulMono(w, k, n);
    assert (k - 1) * w + w == k * w;
    var q: int := base / FETCH_BLOCK;
    assert base == FETCH_BLOCK * q && q < 0x40_0000;
  }

  lemma SameFetch(ram: seq<Byte>, code: nat, offset: nat, thumb: bool)
    requires code + offset + Width(thumb) <= |ram|
    ensures ReadLe(ram[code..], offset, thumb) == ReadLe(ram[code + offset..], 0, thumb)
  {
  }

  // ------------------------------------------------------------ Heads and nodes

  /** A head that is the decode of live memory at `pc`. */
  ghost predicate LiveHead(uops: seq<Uop>, insns: nat, pc: Word, s: State, f: Fetch, mode: Mode) {
    var w := Width(s.thumb);
    && FetchOk(f, s.ram) && f.base <= pc && pc + insns * w <= f.base + FETCH_BLOCK
    && exists b :: DecodedFrom(b, s.ram[f.host + (pc - f.base)..], insns, s.thumb, pc, mode) && b.uops == uops
  }

  /** A block decoded from bytes. */
  ghost predicate DecodedFrom(b: Block, bytes: seq<Byte>, insns: nat, thumb: bool, pc: Word, mode: Mode) {
    && insns * Width(thumb) <= |bytes|
    && DecodeProgram(Fetched(bytes, insns, thumb), thumb, pc, mode) == Some(b)
  }

  /** What publishing a node establishes: its records are the decode of its raw bytes. */
  ghost predicate NodeOk(n: Node, mode: Mode) {
    && NodeShaped(n)
    && (n.valid && n.supported && n.uops.Some? ==>
          exists b :: DecodedFrom(b, n.raw, n.insns, n.thumb, n.pc, mode) && b.uops == n.uops.value)
  }

  lemma {:induction false} FetchedSame(s: seq<Byte>, t: seq<Byte>, n: nat, thumb: bool)
    requires n * Width(thumb) <= |s| && n * Width(thumb) <= |t| && s[..n * Width(thumb)] == t[..n * Width(thumb)]
    ensures Fetched(s, n, thumb) == Fetched(t, n, thumb)
  {
    if n > 0 {
      hide ReadLe;
      var w, k := Width(thumb), (n - 1) * Width(thumb);
      assert k + w == n * w;
      assert s[..k] == s[..n * w][..k] && t[..k] == t[..n * w][..k];
      FetchedSame(s, t, n - 1, thumb);
      SameRead(s, t, k, thumb);
    }
  }

  lemma SameRead(s: seq<Byte>, t: seq<Byte>, k: nat, thumb: bool)
    requires k + Width(thumb) <= |s| && k + Width(thumb) <= |t| && s[..k + Width(thumb)] == t[..k + Width(thumb)]
    ensures ReadLe(s, k, thumb) == ReadLe(t, k, thumb)
  {
    forall j | k <= j < k + Width(thumb)
      ensures s[j] == t[j]
    {
      assert s[..k + Width(thumb)][j] == t[..k + Width(thumb)][j];
    }
  }

  /** A node whose witness matches is the decode of memory as it stands. */
  lemma AcceptedIsLive(n: Node, f: Fetch, pc: Word, remaining: nat, s: State, mode: Mode)
    requires NodeOk(n, mode) && FetchOk(f, s.ram) && Accepts(n, f, pc, s.thumb, remaining, s.ram) && f.base <= pc < f.base + FETCH_BLOCK
    ensures LiveHead(n.uops.value, n.insns, pc, s, f, mode)
  {
    hide Fetched, DecodeProgram;
    SameBlock(pc, f.base);
    var at := f.host + (pc - f.base);
    var b :| DecodedFrom(b, n.raw, n.insns, n.thumb, n.pc, mode) && b.uops == n.uops.value;
    assert s.ram[at..][..n.rawLen] == s.ram[at..at + n.rawLen];
    FetchedSame(n.raw, s.ram[at..], n.insns, s.thumb);
    assert DecodedFrom(b, s.ram[at..], n.insns, s.thumb, pc, mode);
  }

  // ------------------------------------------------------------ One head

  /** Live execution of a head up to `k` keeps RAM up to its last instruction. */
  lemma {:induction false} QuietLive(code: nat, insns: seq<Word>, k: nat, thumb: bool, pc: Word, s: State, env: Env, j: nat)
    requires k <= |insns| && j < k && code + |insns| * Width(thumb) <= |s.ram| && insns == Fetched(s.ram[code..], |insns|, thumb)
    requires Quiet(k, insns, thumb, pc, s, env)
    ensures Live(code, j, thumb, pc, s, env).Done? && Live(code, j, thumb, pc, s, env).s.ram == s.ram
  {
    hide Straight, Live, CodeKept;
    assert Quiet(j, insns, thumb, pc, s, env);
    QuietKeepsCode(j, code, insns, thumb, pc, s, env);
    LiveIsStraight(code, insns, j, thumb, pc, s, env);
  }

  lemma HeadPrefix(uops: seq<Uop>, b: Block, k: nat, n: nat, pc: Word, s: State, f: Fetch, env: Env, t: State, at: Word)
    requires FetchOk(f, s.ram) && f.base <= pc && pc + n * Width(s.thumb) <= f.base + FETCH_BLOCK && k <= n
    requires var insns := Fetched(s.ram[f.host + (pc - f.base)..], n, s.thumb);
             && Quiet(k, insns, s.thumb, pc, s, env)
             && Straight(insns, k, s.thumb, pc, s, env) == Arch.Done(t, at)
    ensures LiveRun(k, s, pc, f, env) == Arch.Done(t, at)
  {
    hide Straight, Live, LiveRun, Quiet, Fetched, CodeKept;
    var code := f.host + (pc - f.base);
    var insns := Fetched(s.ram[code..], n, s.thumb);
    QuietKeepsCode(k, code, insns, s.thumb, pc, s, env);
    LiveIsStraight(code, insns, k, s.thumb, pc, s, env);
    forall j | 0 <= j < k
      ensures LiveAt(j, s.thumb, pc, s, f, env)
    {
      QuietLive(code, insns, k, s.thumb, pc, s, env, j);
    }
    LiveIsLiveRun(k, n, s, pc, f, env);
  }

  /** A live head either leaves with all its instructions retired, or refuses at a record naming the first unretired one;
      either way the state is that of the architecture executing live memory. */
  lemma HeadIsLive(uops: seq<Uop>, n: nat, pc: Word, m: M, f: Fetch, env: Env, mode: Mode)
    requires Ready(m, env) && Sound(env, |m.s.ram|) && Reads(mode) && LiveHead(uops, n, pc, m.s, f, mode)
    ensures match Run(uops, 0, m, env)
            case Left(m1, at) => Ready(m1, env) && |m1.s.ram| == |m.s.ram| && LiveRun(n, m.s, pc, f, env) == Arch.Done(m1.s, at)
            case Missed(m1, j) =>
              && j < |uops|
              && var k := uops[j].meta / 256 % 256 - 1;
                 && 0 <= k < n && uops[j].meta % 256 == n - k && uops[j].pcv == InsnPc(pc, k, m.s.thumb)
                 && LiveRun(k, m.s, pc, f, env) == Arch.Done(m1.s, uops[j].pcv)
            case _ => false
  {
    hide Run, Sound, Straight, LiveRun, Fetched, DecodeProgram, Quiet, InsnPc, Live, Storing, Leaving;
    var bytes := m.s.ram[f.host + (pc - f.base)..];
    var b :| DecodedFrom(b, bytes, n, m.s.thumb, pc, mode) && b.uops == uops;
    var insns := Fetched(bytes, n, m.s.thumb);
    var p := Place(0, n, pc, m.s.thumb, mode);
    BlockRefines(insns, p, b, m, env);
    RunKeeps(uops, 0, m, env);
    match Run(uops, 0, m, env)
    case Left(m1, at) => HeadPrefix(uops, b, n, n, pc, m.s, f, env, m1.s, at);
    case Missed(m1, j) =>
      var k :| Refused(k, uops[j], m1.s, insns, uops, p, m.s, env);
      DecodedSize(insns, m.s.thumb, pc, b, mode);
      MetadataFields(k, n, uops[j].meta);
      HeadPrefix(uops, b, k, n, pc, m.s, f, env, m1.s, uops[j].pcv);
    case _ =>
  }

  lemma DecodedSize(insns: seq<Word>, thumb: bool, pc: Word, b: Block, mode: Mode)
    requires Halfwords(insns, thumb) && DecodeProgram(insns, thumb, pc, mode) == Some(b)
    ensures 0 < |insns| <= MAX_INSNS && b.insnCount == |insns|
  {
    hide Records;
  }

  lemma MetadataFields(k: nat, n: nat, meta: Word)
    requires k < n <= MAX_INSNS && meta == (k + 1) * 256 + (n - k)
    ensures meta / 256 % 256 == k + 1 && meta % 256 == n - k
  {
    var low := n - k;
    assert meta == 256 * (k + 1) + low && low < 256;
  }

  // ------------------------------------------------------------ The whole graph run

  /** Why a graph run stopped: a record refused, the budget is spent, or no cached node may continue. */
  datatype Halt = Refusal | BudgetSpent | NoNode

  /** Some record with this address refused in state `m`. */
  ghost predicate RefusedAt(m: M, pc: Word, env: Env) {
    exists uops, before, j :: IsRefusal(uops, before, j, m, pc, env)
  }

  ghost predicate IsRefusal(uops: seq<Uop>, before: M, j: nat, m: M, pc: Word, env: Env) {
    Ready(before, env) && j < |uops| && Run(uops, 0, before, env) == Missed(m, j) && uops[j].pcv == pc
  }

  /** No node of the graph continues from here. */
  ghost predicate NoneAccepts(nodes: seq<Node>, f: Fetch, pc: Word, m: M, remaining: nat)
    requires |nodes| == GRAPH_SLOTS
  {
    !(f.base <= pc < f.base + FETCH_BLOCK
      && var slot := GraphSlot(pc, f.base, m.s.thumb); slot < GRAPH_SLOTS && Accepts(nodes[slot], f, pc, m.s.thumb, remaining, m.s.ram))
  }

  ghost predicate HaltOk(why: Halt, nodes: seq<Node>, f: Fetch, pc: Word, m: M, remaining: nat, env: Env)
    requires |nodes| == GRAPH_SLOTS
  {
    match why
    case Refusal => remaining > 0 && RefusedAt(m, pc, env)
    case BudgetSpent => remaining == 0
    case NoNode => remaining > 0 && NoneAccepts(nodes, f, pc, m, remaining)
  }

  /** The callback-free runner: heads are chosen from the cached graph alone. When it stops, the guest is exactly where the
      architecture would be after `completed` instructions fetched from live memory, self-modified code included; and it has
      stopped for a reason. */
  method RunGraph(first: Block, m0: M, env: Env, budget: nat, nodes: seq<Node>, f: Fetch, cycles: Count64, mode: Mode)
    returns (m: M, completed: nat, blocks: nat, pc: Word, now: Count64, why: Halt, ghost visits: seq<Visit>)
    requires Reads(mode) && Ready(m0, env) && Sound(env, |m0.s.ram|) && LiveHead(first.uops, first.insnCount, first.startPc, m0.s, f, mode)
    requires first.thumb == m0.s.thumb && 0 < first.insnCount <= budget <= MAX_CHAIN_INSNS
    requires |nodes| == GRAPH_SLOTS && forall k :: 0 <= k < GRAPH_SLOTS ==> NodeOk(nodes[k], mode)
    ensures LiveRun(completed, m0.s, first.startPc, f, env) == Arch.Done(m.s, pc)
    ensures completed <= budget && now == Wrap64(cycles + completed)
    ensures HaltOk(why, nodes, f, pc, m, budget - completed, env)
    ensures Linked(visits) && visits != [] && visits[0].start == first.startPc && visits[|visits| - 1].after == pc
    ensures completed == Retired(visits) && blocks == Entered(visits)
  {
    hide Run, Sound, LiveRun, LiveHead, Accepts, Wrap64, NodeOk, HaltOk, Linked, Retired, Entered, InsnPc;
    var context := new ChainContext(first, budget, Writes(mode), nodes, f, cycles);
    m, why, visits := m0, BudgetSpent, [];
    var go := true;
    Started(m0.s, first.startPc, f, env);
    NothingYet();
    NoneLinked();
    while go
      invariant fresh(context) && context.began == cycles && context.nodes == nodes && context.fetch == f && context.budget == budget
      invariant context.completed <= budget
      invariant LiveRun(context.completed, m0.s, first.startPc, f, env) == Arch.Done(m.s, context.finalPc)
      invariant go ==> LiveContext(context, m, env, mode) && |m.s.ram| == |m0.s.ram|
      invariant !go ==> context.cycles == Wrap64(cycles + context.completed) && HaltOk(why, nodes, f, context.finalPc, m, budget - context.completed, env)
      invariant Linked(visits) && context.completed == Retired(visits) && context.blocks == Entered(visits)
      invariant if visits == [] then go && context.finalPc == first.startPc
                else visits[0].start == first.startPc && visits[|visits| - 1].after == context.finalPc
                     && visits[|visits| - 1].isa == context.thumb
      invariant go && visits != [] ==> visits[|visits| - 1].retired == visits[|visits| - 1].insns
      decreases go, budget - context.completed
    {
      ghost var done, v := context.completed, visits;
      ghost var visit;
      go, m, why, visit := GraphHead(context, m, env, mode);
      LiveRunJoin(done, visit.retired, m0.s, first.startPc, f, env);
      Sums(v, visit);
      LinkedAppend(v, visit);
      visits := v + [visit];
    }
    completed, blocks, pc, now := context.completed, context.blocks, context.finalPc, context.cycles;
  }

  lemma NoneLinked()
    ensures Linked([])
  {
  }

  lemma LinkedAppend(v: seq<Visit>, x: Visit)
    requires Linked(v) && x.retired <= x.insns && (x.retired < x.insns ==> x.after == InsnPc(x.start, x.retired, x.thumb))
    requires v != [] ==> v[|v| - 1].retired == v[|v| - 1].insns && v[|v| - 1].after == x.start && v[|v| - 1].isa == x.thumb
    ensures Linked(v + [x])
  {
    hide InsnPc;
  }

  /** The context's open head is the decode of live memory at the program counter. */
  ghost predicate LiveContext(c: ChainContext, m: M, env: Env, mode: Mode)
    reads c
  {
    c.Open() && c.thumb == m.s.thumb && Ready(m, env) && LiveHead(c.uops, c.insns, c.finalPc, m.s, c.fetch, mode)
  }

  /** Dispatches the open head and follows the graph. */
  method GraphHead(c: ChainContext, m: M, env: Env, mode: Mode) returns (go: bool, mn: M, why: Halt, ghost visit: Visit)
    requires Reads(mode) && LiveContext(c, m, env, mode) && Sound(env, |m.s.ram|)
    requires |c.nodes| == GRAPH_SLOTS && forall k :: 0 <= k < GRAPH_SLOTS ==> NodeOk(c.nodes[k], mode)
    modifies c
    ensures c.completed == old(c.completed) + visit.retired <= c.budget
    ensures c.blocks == old(c.blocks) + if visit.retired > 0 then 1 else 0
    ensures LiveRun(visit.retired, m.s, old(c.finalPc), c.fetch, env) == Arch.Done(mn.s, c.finalPc)
    ensures visit.start == old(c.finalPc) && visit.after == c.finalPc && visit.retired <= visit.insns
    ensures visit.thumb == old(c.thumb) && visit.isa == c.thumb && visit.uops == old(c.uops)
    ensures visit.retired < visit.insns ==> visit.after == InsnPc(visit.start, visit.retired, visit.thumb)
    ensures go ==> LiveContext(c, mn, env, mode) && |mn.s.ram| == |m.s.ram| && visit.retired == visit.insns > 0
    ensures !go ==> c.cycles == Wrap64(c.began + c.completed)
                    && HaltOk(why, c.nodes, c.fetch, c.finalPc, mn, c.budget - c.completed, env)
  {
    hide Run, Sound, LiveRun, LiveHead, Accepts, Wrap64, NodeOk, NodeShaped, InsnPc, FetchOk, RefusedAt;
    HeadIsLive(c.uops, c.insns, c.finalPc, m, c.fetch, env, mode);
    Located(c.uops, c.insns, c.finalPc, m.s, c.fetch, mode);
    go, mn, why := false, m, Refusal;
    visit := Visit(c.finalPc, c.thumb, c.insns, 0, c.finalPc, c.thumb, c.uops);
    match Run(c.uops, 0, m, env)
    case Left(m1, target) =>
      mn, visit := m1, visit.(retired := c.insns, after := target, isa := m1.s.thumb);
      c.thumb := m1.s.thumb;
      Shaped(c.nodes, mode);
      SameRoom(c.fetch, m.s.ram, m1.s.ram);
      go := c.GraphAdvance(target, m1.s.ram);
      why := if c.completed == c.budget then BudgetSpent else NoNode;
      if go {
        SlotBelow(target, c.fetch.base, c.thumb);
        AcceptedIsLive(c.nodes[GraphSlot(target, c.fetch.base, c.thumb)], c.fetch, target, c.budget - c.completed, m1.s, mode);
      }
    case Missed(m1, j) =>
      var u := c.uops[j];
      Refuses(c.uops, m, j, m1, env);
      mn, visit := m1, visit.(retired := u.meta / 256 % 256 - 1, after := u.pcv);
      c.Miss(u);
    case _ => assert false;
  }

  lemma Refuses(uops: seq<Uop>, before: M, j: nat, m: M, env: Env)
    requires Ready(before, env) && j < |uops| && Run(uops, 0, before, env) == Missed(m, j)
    ensures RefusedAt(m, uops[j].pcv, env)
  {
    hide Run;
    assert IsRefusal(uops, before, j, m, uops[j].pcv, env);
  }

  lemma SameRoom(f: Fetch, ram: seq<Byte>, now: seq<Byte>)
    requires FetchOk(f, ram) && |now| == |ram|
    ensures FetchOk(f, now)
  {
  }

  lemma Started(s: State, pc: Word, f: Fetch, env: Env)
    ensures LiveRun(0, s, pc, f, env) == Arch.Done(s, pc)
  {
  }

  lemma Located(uops: seq<Uop>, n: nat, pc: Word, s: State, f: Fetch, mode: Mode)
    requires LiveHead(uops, n, pc, s, f, mode)
    ensures FetchOk(f, s.ram)
  {
  }

  lemma Shaped(nodes: seq<Node>, mode: Mode)
    requires forall k :: 0 <= k < |nodes| ==> NodeOk(nodes[k], mode)
    ensures forall k :: 0 <= k < |nodes| ==> NodeShaped(nodes[k])
  {
    hide NodeShaped;
  }

  /** The guards of a decoded block name their own instruction, as the chain accounting asks. */
  lemma DecodedGuards(insns: seq<Word>, thumb: bool, pc: Word, mode: Mode)
    requires Halfwords(insns, thumb) && DecodeProgram(insns, thumb, pc, mode).Some?
    ensures Guards(DecodeProgram(insns, thumb, pc, mode).value)
  {
    hide GuardMetadata, DecodeProgram, KindOk, CountOk, TraitsOf, StoreImmediate, VfpArithImmediate, TerminalShape, IsDirectWrite,
         IsTerminalBranch, Legal;
    var b := DecodeProgram(insns, thumb, pc, mode).value;
    BodyOfBlock(insns, b, Place(0, |insns|, pc, thumb, mode));
    forall j | 0 <= j < |b.uops| && IsRuntimeGuarded(b.uops[j].op.f)
      ensures GuardMetadata(b, b.uops[j])
    {
      EndUnguarded(b.uops[j].op.f);
      assert RecordOk(b, j);
    }
  }

  lemma EndUnguarded(f: Family)
    requires IsRuntimeGuarded(f)
    ensures f != End
  {
  }
}
