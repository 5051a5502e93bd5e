/** The rectangle root: rows rendered through a shadow of memory, published once. */
module RectRoot {
  import opened Words
  import opened Spans
  import opened Publish
  import opened RowShadow
  import opened LiveRows

  const MAX_WIDTH: nat := 320
  const MAX_HEIGHT: nat := 480

  // ------------------------------------------------------------ Geometry

  /** Half-open pixel bounds. */
  datatype Bounds = Bounds(xmin: int, ymin: int, xmax: int, ymax: int)

  predicate Inside(b: Bounds, x: int, y: int) { b.xmin <= x < b.xmax && b.ymin <= y < b.ymax }

  /** What of a shape a clip leaves to draw: exactly their common pixels, none of them off the display. */
  function Drawn(shape: Bounds, clip: Bounds): (d: Option<Bounds>)
    ensures d.Some? ==> 0 <= d.value.xmin < d.value.xmax <= MAX_WIDTH && 0 <= d.value.ymin < d.value.ymax <= MAX_HEIGHT
    ensures d.Some? ==> forall x, y :: Inside(d.value, x, y) <==> Inside(shape, x, y) && Inside(clip, x, y)
  {
    if clip.xmin < 0 || clip.ymin < 0 || clip.xmin >= clip.xmax || clip.ymin >= clip.ymax || clip.xmax > MAX_WIDTH || clip.ymax > MAX_HEIGHT
    then None
    else if shape.xmin < 0 || shape.xmax <= shape.xmin || shape.xmax > MAX_WIDTH || shape.ymin >= shape.ymax then None
    else
      var d := Bounds(if shape.xmin > clip.xmin then shape.xmin else clip.xmin, if shape.ymin > clip.ymin then shape.ymin else clip.ymin,
                      if shape.xmax < clip.xmax then shape.xmax else clip.xmax, if shape.ymax < clip.ymax then shape.ymax else clip.ymax);
      if d.xmin >= d.xmax || d.ymin >= d.ymax then None else Some(d)
  }

  /** A little-endian field of a guest structure, through the machine's own reader. */
  function FieldAt(s: Space, ram: seq<Byte>, base: nat, offset: nat, n: nat): Option<nat>
    requires |ram| == s.size
  {
    if base + offset >= ADDRESS_SPACE then None
    else match ReadSpace(s, ram, base + offset, n) case None => None case Some(b) => Some(Le(b))
  }

  function Le(b: seq<Byte>): nat { if b == [] then 0 else b[0] as int + 0x100 * Le(b[1..]) }

  const NEAREST_BGRA8: nat := 0x3122_b8bc
  const NEAREST_BGRX8: nat := 0x3122_b698
  const BILINEAR_BGRA8: nat := 0x3122_bad8

  /** Is a wide row rendered in two calls? The context, render and state structures decide, as they are in memory before
      anything is published. */
  predicate TexturedChunks(s: Space, ram: seq<Byte>, ctx: nat, mask: nat, count: nat)
    requires |ram| == s.size
  {
    var render, least, most := FieldAt(s, ram, ctx, 0x00, 4), FieldAt(s, ram, ctx, 0x14, 4), FieldAt(s, ram, ctx, 0x18, 4);
    var units := FieldAt(s, ram, ctx, 0x68, 4);
    if mask != 0x308 || count <= CHUNK_MAX || count > MAX_WIDTH || render.None? || least.None? || most.None? || units.None? then false
    else
      var state, aux := FieldAt(s, ram, render.value, 0x04, 4), FieldAt(s, ram, render.value, 0x100, 4);
      if state.None? || aux.None? then false
      else
        var mode, flags := FieldAt(s, ram, state.value, 0x08, 1), FieldAt(s, ram, state.value, 0x3c, 1);
        if mode.None? || flags.None? then false
        else
          && units.value == 1 && aux.value == 0 && flags.value == 0x12 && (mode.value == 1 || mode.value == 2)
          && least.value == most.value
          && (least.value == NEAREST_BGRA8 || least.value == NEAREST_BGRX8 || (mode.value == 1 && least.value == BILINEAR_BGRA8))
  }

  function ChunksOf(s: Space, ram: seq<Byte>, ctx: nat, mask: nat, width: nat): (n: nat)
    requires |ram| == s.size
    ensures n == 1 || n == 2
  {
    if width > CHUNK_MAX && TexturedChunks(s, ram, ctx, mask, width) then 2 else 1
  }

  // ------------------------------------------------------------ The root

  /** What the root was called with, once its vertices are integers: shape and clip, the row context and the frames. */
  datatype Request = Request(shape: Bounds, clip: Bounds, ctx: nat, mask: nat, frame: (nat, nat) -> Frame)

  function JobOf(q: Request, d: Bounds, chunks: nat): Job
    requires 0 <= d.xmin < d.xmax && 0 <= d.ymin < d.ymax
  {
    Job(d.xmin, d.ymin, d.xmax - d.xmin, d.ymax - d.ymin, chunks, q.frame)
  }

  /** Every row written to memory as it happens: the memory and the rows that result, unless something declines. */
  function Immediate(s: Space, ram: seq<Byte>, q: Request, r: Renderer, steps: nat): Option<(Memory, seq<Span>)>
    requires |ram| == s.size
  {
    match Drawn(q.shape, q.clip)
    case None => None
    case Some(d) =>
      var j := JobOf(q, d, ChunksOf(s, ram, q.ctx, q.mask, d.xmax - d.xmin));
      ImmediateRows(r, j, 0, steps, View(s, ram), [], Permits(s))
  }

  /** Every row written straight to RAM: the RAM and the rows that result, unless something declines. */
  function Directly(s: Space, ram: seq<Byte>, q: Request, r: Renderer, steps: nat): Option<(seq<Byte>, seq<Span>)>
    requires |ram| == s.size
  {
    match Drawn(q.shape, q.clip)
    case None => None
    case Some(d) => RowsLive(s, r, JobOf(q, d, ChunksOf(s, ram, q.ctx, q.mask, d.xmax - d.xmin)), 0, steps, ram, [])
  }

  /** The same rows captured and published together. */
  function Published(s: Space, ram: seq<Byte>, q: Request, r: Renderer, steps: nat): Option<(seq<Byte>, seq<Span>)>
    requires |ram| == s.size
  {
    match Immediate(s, ram, q, r, steps)
    case None => None
    case Some(done) =>
      if Publishable(s, done.1) then
        PublishableWritable(s, done.1);
        Some((StoreSpans(s, ram, done.1), done.1))
      else None
  }

  /** Rows none of whose bytes show at a second address are published exactly as they would have been written directly. */
  lemma PublishedDirectly(s: Space, ram: seq<Byte>, q: Request, r: Renderer, steps: nat, after: seq<Byte>, spans: seq<Span>)
    requires |ram| == s.size && Unaliased(s, spans)
    ensures Published(s, ram, q, r, steps) == Some((after, spans)) <==> Directly(s, ram, q, r, steps) == Some((after, spans))
  {
    hide ImmediateRows, RowsLive, TexturedChunks, View, Unaliased, StoreSpans, SpanOk;
    var d := Drawn(q.shape, q.clip);
    if d.Some? {
      var j := JobOf(q, d.value, ChunksOf(s, ram, q.ctx, q.mask, d.value.xmax - d.value.xmin));
      NothingStoredYet(s, ram);
      RowsGrow(r, j, 0, steps, View(s, ram), [], Permits(s));
      LiveRowsStore(s, ram, r, j, 0, steps, ram, []);
      if Storable(s, spans) {
        RowsAlike(s, ram, r, j, 0, steps, ram, [], spans);
      }
    }
  }

  lemma NothingStoredYet(s: Space, ram: seq<Byte>)
    requires |ram| == s.size
    ensures StoreSpans(s, ram, []) == ram
  {
  }

  /** Is every byte a pixel could be drawn to seen at one address only? */
  ghost predicate SeenOnce(s: Space) {
    forall va :: 0 < va && va + 4 <= REAL_LIMIT && AllWritable(s, va, 4) ==> UnaliasedRange(s, va, 4)
  }

  /** A translation that shows every pixel once shows every row once. */
  lemma RowsSeenOnce(s: Space, spans: seq<Span>)
    requires SeenOnce(s) && Storable(s, spans) && forall i :: 0 <= i < |spans| ==> |spans[i].src| >= 4
    ensures Unaliased(s, spans)
  {
    hide Place, Writable, UnaliasedRange, SeenOnce;
    forall i | 0 <= i < |spans|
      ensures UnaliasedRange(s, spans[i].va, |spans[i].src|)
    {
      RangeSeenOnce(s, spans[i].va, |spans[i].src|);
    }
  }

  lemma RangeSeenOnce(s: Space, va: nat, n: nat)
    requires SeenOnce(s) && 0 < va && va + n <= REAL_LIMIT && n >= 4 && AllWritable(s, va, n)
    ensures UnaliasedRange(s, va, n)
  {
    hide Place, Writable;
    forall k, j | va <= k < va + n && 0 < j < REAL_LIMIT && Place(s, k).Some? && Place(s, j) == Place(s, k)
      ensures j == k
    {
      var pixel := if k + 4 <= va + n then k else va + n - 4;
      assert AllWritable(s, pixel, 4);
      assert UnaliasedRange(s, pixel, 4);
    }
  }

  /** Under such a translation every request and every renderer come to the same, publishing or writing directly. */
  lemma SameIfSeenOnce(s: Space, ram: seq<Byte>, q: Request, r: Renderer, steps: nat)
    requires |ram| == s.size && SeenOnce(s)
    ensures Published(s, ram, q, r, steps) == Directly(s, ram, q, r, steps)
  {
    hide ImmediateRows, RowsLive, TexturedChunks, View, Unaliased, StoreSpans, SpanOk, SeenOnce, AllWritable;
    var d := Drawn(q.shape, q.clip);
    if d.Some? {
      var j := JobOf(q, d.value, ChunksOf(s, ram, q.ctx, q.mask, d.value.xmax - d.value.xmin));
      NothingStoredYet(s, ram);
      RowsGrow(r, j, 0, steps, View(s, ram), [], Permits(s));
      LiveRowsStore(s, ram, r, j, 0, steps, ram, []);
      var once, direct := Published(s, ram, q, r, steps), Directly(s, ram, q, r, steps);
      if once.Some? {
        RowsSeenOnce(s, once.value.1);
        PublishedDirectly(s, ram, q, r, steps, once.value.0, once.value.1);
      }
      if direct.Some? {
        RowsSeenOnce(s, direct.value.1);
        PublishedDirectly(s, ram, q, r, steps, direct.value.0, direct.value.1);
      }
    }
  }

  /** The processor as the root sees it. */
  class Guest {
    var pc: Word
    const lr: Word
    const machine: Machine

    constructor (machine: Machine, pc: Word, lr: Word)
      ensures this.machine == machine && this.pc == pc && this.lr == lr
    {
      this.machine, this.pc, this.lr := machine, pc, lr;
    }
  }

  /** The rectangle root: rows into scratch, one publication, then return to the caller. It succeeds exactly when immediate
      writing would and every row is writable. Unless a written byte shows at a second address, memory as the guest addresses
      it is then that of immediate writing, and RAM and rows are those of writing every row directly; where no pixel shows
      twice, direct writing declines exactly when the root does. Any decline leaves RAM and program counter as they were. */
  method RenderRect(g: Guest, q: Request, r: Renderer, steps: nat) returns (ok: bool)
    modifies g, g.machine.ram
    ensures var s, before := g.machine.Here(), old(g.machine.ram[..]);
            var all := Immediate(s, before, q, r, steps);
            && (ok <==> all.Some? && Publishable(s, all.value.1))
            && (ok ==> g.pc == g.lr && Fits(all.value.1) && g.machine.ram[..] == StoreSpans(s, before, all.value.1)
                       && all.value.0 == Written(View(s, before), all.value.1)
                       && (Unaliased(s, all.value.1)
                           ==> View(s, g.machine.ram[..]) == all.value.0
                               && Directly(s, before, q, r, steps) == Some((g.machine.ram[..], all.value.1))))
            && (SeenOnce(s) ==> Directly(s, before, q, r, steps) == if ok then Some((g.machine.ram[..], all.value.1)) else None)
            && (!ok ==> g.machine.ram[..] == before && g.pc == old(g.pc))
  {
    hide ImmediateRow, TexturedChunks, View, Publishable, Unaliased, Readable, StoreSpans;
    var d := Drawn(q.shape, q.clip);
    ghost var s, before := g.machine.Here(), g.machine.ram[..];
    if SeenOnce(s) {
      SameIfSeenOnce(s, before, q, r, steps);
    }
    if d.None? {
      return false;
    }
    var spans := RenderRows(g.machine, q, d.value, r, steps);
    if spans.None? {
      return false;
    }
    ok := g.machine.WriteV(spans.value);
    if ok {
      g.pc := g.lr;
      PublishableWritable(s, spans.value);
      if Unaliased(s, spans.value) {
        PublishedView(s, before, spans.value);
        PublishedDirectly(s, before, q, r, steps, g.machine.ram[..], spans.value);
      }
    }
  }

  lemma PublishableWritable(s: Space, spans: seq<Span>)
    requires Publishable(s, spans)
    ensures forall i :: 0 <= i < |spans| ==> AllWritable(s, spans[i].va, |spans[i].src|)
    ensures Fits(spans) ==> Storable(s, spans)
  {
    hide AllWritable;
  }

  /** All rows into scratch, memory untouched. */
  method RenderRows(machine: Machine, q: Request, d: Bounds, r: Renderer, steps: nat) returns (spans: Option<seq<Span>>)
    requires 0 <= d.xmin < d.xmax && 0 <= d.ymin < d.ymax
    ensures var s, ram := machine.Here(), machine.ram[..];
            var j := JobOf(q, d, ChunksOf(s, ram, q.ctx, q.mask, d.xmax - d.xmin));
            && (spans.Some? ==> Fits(spans.value))
            && ImmediateRows(r, j, 0, steps, View(s, ram), [], Permits(s))
               == if spans.Some? then Some((Written(View(s, ram), spans.value), spans.value)) else None
  {
    hide ImmediateRow, TexturedChunks, View, Readable;
    var s, guest := machine.Here(), View(machine.Here(), machine.ram[..]);
    var permit := Permits(s);
    var j := JobOf(q, d, ChunksOf(s, machine.ram[..], q.ctx, q.mask, d.xmax - d.xmin));
    var done: seq<Span> := [];
    ghost var all := ImmediateRows(r, j, 0, steps, guest, [], permit);
    var row := 0;
    while row < j.height
      invariant 0 <= row <= j.height && Fits(done) && Disjoint(done)
      invariant all == ImmediateRows(r, j, row, steps, Written(guest, done), done, permit)
    {
      var span := RenderRow(guest, permit, r, j, row, steps, done);
      if span.None? {
        return None;
      }
      done := done + [span.value];
      row := row + 1;
    }
    return Some(done);
  }
}
