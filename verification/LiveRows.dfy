/** Rows whose every access goes to the machine itself, and when rows published together come to the same RAM. */
module LiveRows {
  import opened Words
  import opened Spans
  import opened Publish
  import opened RowShadow

  // ------------------------------------------------------------ Writing at once

  /** The machine's own reader decides which ranges are served. */
  function Permits(s: Space): Permit {
    (va: nat, n: nat) => Readable(s, va, n)
  }

  /** What the row's code reads with nothing in between: its call frame, or RAM as it is now. */
  function LiveRead(s: Space, f: Frame, ram: seq<Byte>, va: nat, n: nat): Option<seq<Byte>>
    requires |ram| == s.size
  {
    if n == 0 then None
    else if FrameRead(f, va, n).Some? then FrameRead(f, va, n)
    else if va + n > REAL_LIMIT then None
    else ReadSpace(s, ram, va, n)
  }

  /** A row in progress: RAM as it is now, what the row has written, and how often. */
  datatype Live = Live(ram: seq<Byte>, span: Span, writes: nat)

  /** A renderer call of at most `steps` actions against RAM; a store to memory that cannot take it ends the rendering. */
  function LiveCall(s: Space, r: Renderer, c: Call, past: seq<Answer>, steps: nat, l: Live, expectedLen: nat, expectedWrites: nat)
    : (done: Option<Live>)
    requires |l.ram| == s.size
    ensures done.Some? ==> |done.value.ram| == s.size
    decreases steps
  {
    if steps == 0 then None
    else
      match r(c, past)
      case Finish(ok) => if ok then Some(l) else None
      case Load(va, n) =>
        LiveCall(s, r, c, past + [Loaded(LiveRead(s, c.frame, l.ram, va, n))], steps - 1, l, expectedLen, expectedWrites)
      case Store(va, bytes) =>
        if !WriteRule(l.span, l.writes, expectedLen, expectedWrites, va, |bytes|) then
          LiveCall(s, r, c, past + [Stored(false)], steps - 1, l, expectedLen, expectedWrites)
        else if !SpanOk(s, Span(va, bytes)) then None
        else
          LiveCall(s, r, c, past + [Stored(true)], steps - 1, LiveStore(s, l, va, bytes), expectedLen, expectedWrites)
  }

  function LiveStore(s: Space, l: Live, va: nat, bytes: seq<Byte>): (next: Live)
    requires |l.ram| == s.size && AllWritable(s, va, |bytes|)
    ensures |next.ram| == s.size
  {
    Live(StoreBytes(s, l.ram, va, bytes), Grown(l.span, l.writes, va, bytes), l.writes + 1)
  }

  function LiveChunks(s: Space, r: Renderer, j: Job, row: nat, offset: nat, steps: nat, l: Live): (done: Option<Live>)
    requires offset <= j.width && |l.ram| == s.size
    ensures done.Some? ==> |done.value.ram| == s.size
    decreases j.width - offset
  {
    if offset == j.width then Some(l)
    else
      match LiveCall(s, r, CallAt(j, row, offset), [], steps, l, j.width * 4, j.chunks)
      case None => None
      case Some(next) => LiveChunks(s, r, j, row, offset + ChunkAt(j, offset), steps, next)
  }

  /** One row: all its chunks, the expected number of writes and bytes, and no overlap with an earlier row. */
  function LiveRow(s: Space, r: Renderer, j: Job, row: nat, steps: nat, ram: seq<Byte>, prior: seq<Span>): (done: Option<Live>)
    requires |ram| == s.size
    ensures done.Some? ==> |done.value.ram| == s.size
  {
    match LiveChunks(s, r, j, row, 0, steps, Live(ram, Span(0, []), 0))
    case None => None
    case Some(done) =>
      if done.writes != j.chunks || |done.span.src| != j.width * 4 then None
      else if exists i :: 0 <= i < |prior| && Overlap(done.span.va, |done.span.src|, prior[i].va, |prior[i].src|) then None
      else Some(done)
  }

  /** All rows from `row` on: the final RAM and the spans written. */
  function RowsLive(s: Space, r: Renderer, j: Job, row: nat, steps: nat, ram: seq<Byte>, prior: seq<Span>): Option<(seq<Byte>, seq<Span>)>
    requires row <= j.height && |ram| == s.size
    decreases j.height - row
  {
    if row == j.height then Some((ram, prior))
    else
      match LiveRow(s, r, j, row, steps, ram, prior)
      case None => None
      case Some(done) => RowsLive(s, r, j, row + 1, steps, done.ram, prior + [done.span])
  }

  // ------------------------------------------------------------ Reads

  /** While everything captured can be stored, the facade serves exactly the reads the machine serves, with the same bytes. */
  lemma ReadRuleIsMachine(s: Space, ram: seq<Byte>, f: Frame, prior: seq<Span>, current: Span, va: nat, n: nat)
    requires |ram| == s.size && Storable(s, prior) && (current.src == [] || SpanOk(s, current))
    ensures ReadRule(f, prior, current, Permits(s), View(s, ram), va, n) == LiveRead(s, f, ram, va, n)
  {
    hide Place, View, SpanOk, FrameRead;
    if n != 0 && FrameRead(f, va, n).None? && va + n <= REAL_LIMIT {
      ReadIsView(s, ram, va, n);
      if current.src != [] && Contains(current, va, n) {
        ContainedReadable(s, current, va, n);
      }
      forall i | 0 <= i < |prior| && Contains(prior[i], va, n)
        ensures Readable(s, va, n)
      {
        ContainedReadable(s, prior[i], va, n);
      }
      assert Serves(prior, current, Permits(s), va, n) <==> Readable(s, va, n);
    }
  }

  lemma ContainedReadable(s: Space, p: Span, va: nat, n: nat)
    requires SpanOk(s, p) && Contains(p, va, n) && n > 0
    ensures Readable(s, va, n)
  {
    hide Place;
    forall k | va <= k < va + n
      ensures Place(s, k).Some?
    {
      assert Writable(s, k);
    }
  }

  // ------------------------------------------------------------ Growth

  /** Is a row `b` what a row `a` has grown into? */
  predicate Extends(a: Span, b: Span) { a.src == [] || (a.va == b.va && a.src <= b.src) }

  /** Nothing is written exactly before the first write, and real memory holds the row. */
  predicate Counted(p: Span, writes: nat) { (writes == 0 <==> p.src == []) && p.va + |p.src| <= REAL_LIMIT }

  lemma GrownExtends(p: Span, writes: nat, expectedLen: nat, expectedWrites: nat, va: nat, bytes: seq<Byte>)
    requires Counted(p, writes) && WriteRule(p, writes, expectedLen, expectedWrites, va, |bytes|)
    ensures var g := Grown(p, writes, va, bytes);
            Extends(p, g) && Counted(g, writes + 1) && g.src != [] && forall b :: Extends(g, b) ==> Extends(p, b)
  {
  }

  lemma {:induction false} CallGrows(r: Renderer, c: Call, past: seq<Answer>, steps: nat, row: Row, prior: seq<Span>, permit: Permit,
                                     expectedLen: nat, expectedWrites: nat)
    requires Counted(row.span, row.writes)
    ensures var done := ImmediateCall(r, c, past, steps, row, prior, permit, expectedLen, expectedWrites);
            done.Some? ==> Extends(row.span, done.value.span) && Counted(done.value.span, done.value.writes)
    decreases steps
  {
    hide Extends, Counted, WriteRule, ReadRule, Grown, Patch;
    ExtendsItself(row.span);
    if steps > 0 {
      match r(c, past)
      case Finish(ok) =>
      case Load(va, n) =>
        CallGrows(r, c, past + [Loaded(ReadRule(c.frame, prior, row.span, permit, row.now, va, n))], steps - 1, row, prior, permit,
                  expectedLen, expectedWrites);
      case Store(va, bytes) =>
        if WriteRule(row.span, row.writes, expectedLen, expectedWrites, va, |bytes|) {
          GrownExtends(row.span, row.writes, expectedLen, expectedWrites, va, bytes);
          WithinLimit(row.span, row.writes, expectedLen, expectedWrites, va, |bytes|);
          var next := Row(Patch(row.now, va, bytes), Grown(row.span, row.writes, va, bytes), row.writes + 1);
          CallGrows(r, c, past + [Stored(true)], steps - 1, next, prior, permit, expectedLen, expectedWrites);
        } else {
          CallGrows(r, c, past + [Stored(false)], steps - 1, row, prior, permit, expectedLen, expectedWrites);
        }
    }
  }

  lemma ExtendsItself(p: Span)
    ensures Extends(p, p)
  {
  }

  lemma WithinLimit(p: Span, writes: nat, expectedLen: nat, expectedWrites: nat, va: nat, n: nat)
    requires WriteRule(p, writes, expectedLen, expectedWrites, va, n)
    ensures va + n <= REAL_LIMIT && n > 0
  {
  }

  lemma ExtendsOn(a: Span, b: Span, c: Span)
    requires Extends(a, b) && Extends(b, c)
    ensures Extends(a, c)
  {
  }

  lemma {:induction false} ChunksGrow(r: Renderer, j: Job, row: nat, offset: nat, steps: nat, state: Row, prior: seq<Span>, permit: Permit)
    requires offset <= j.width && Counted(state.span, state.writes)
    ensures var done := ImmediateChunks(r, j, row, offset, steps, state, prior, permit);
            done.Some? ==> Extends(state.span, done.value.span) && Counted(done.value.span, done.value.writes)
    decreases j.width - offset
  {
    hide Extends, Counted, ImmediateCall;
    ExtendsItself(state.span);
    if offset < j.width {
      CallGrows(r, CallAt(j, row, offset), [], steps, state, prior, permit, j.width * 4, j.chunks);
      var next := ImmediateCall(r, CallAt(j, row, offset), [], steps, state, prior, permit, j.width * 4, j.chunks);
      if next.Some? {
        ChunksGrow(r, j, row, offset + ChunkAt(j, offset), steps, next.value, prior, permit);
        var done := ImmediateChunks(r, j, row, offset + ChunkAt(j, offset), steps, next.value, prior, permit);
        if done.Some? {
          ExtendsOn(state.span, next.value.span, done.value.span);
        }
      }
    }
  }

  /** One span for each row still to come, as wide as the rectangle. */
  predicate Sized(j: Job, row: nat, prior: seq<Span>, spans: seq<Span>) {
    && row <= j.height && |spans| == |prior| + (j.height - row)
    && forall i :: |prior| <= i < |spans| ==> |spans[i].src| == j.width * 4
  }

  /** The rows so far come first in the result, every row fits, and there is one span a row. */
  lemma {:induction false} RowsGrow(r: Renderer, j: Job, row: nat, steps: nat, now: Memory, prior: seq<Span>, permit: Permit)
    requires row <= j.height && Fits(prior)
    ensures var done := ImmediateRows(r, j, row, steps, now, prior, permit);
            done.Some? ==> prior <= done.value.1 && Fits(done.value.1) && Sized(j, row, prior, done.value.1)
    decreases j.height - row
  {
    hide ImmediateChunks, Overlap;
    if row < j.height {
      ChunksGrow(r, j, row, 0, steps, Row(now, Span(0, []), 0), prior, permit);
      var done := ImmediateRow(r, j, row, steps, now, prior, permit);
      if done.Some? {
        RowsGrow(r, j, row + 1, steps, done.value.now, prior + [done.value.span], permit);
      }
    }
  }

  /** What the row has written so far is stored, over the RAM it started from. */
  predicate Landed(s: Space, start: seq<Byte>, l: Live) {
    && |start| == s.size && |l.ram| == s.size && Counted(l.span, l.writes)
    && (l.span.src == [] || SpanOk(s, l.span)) && AllWritable(s, l.span.va, |l.span.src|)
    && l.ram == StoreBytes(s, start, l.span.va, l.span.src)
  }

  lemma StoreLands(s: Space, start: seq<Byte>, l: Live, expectedLen: nat, expectedWrites: nat, va: nat, bytes: seq<Byte>)
    requires Landed(s, start, l) && WriteRule(l.span, l.writes, expectedLen, expectedWrites, va, |bytes|) && SpanOk(s, Span(va, bytes))
    ensures Landed(s, start, LiveStore(s, l, va, bytes)) && Extends(l.span, LiveStore(s, l, va, bytes).span)
  {
    hide Writable, StoreBytes;
    if l.writes == 0 {
      assert l.span.src == [] && [] + bytes == bytes;
      NothingStored(s, start, l.span.va);
    } else {
      assert AllWritable(s, l.span.va, |l.span.src| + |bytes|);
      StoreJoin(s, start, l.span.va, l.span.src, bytes);
    }
  }

  lemma {:induction false} LiveGrows(s: Space, start: seq<Byte>, r: Renderer, c: Call, past: seq<Answer>, steps: nat, l: Live,
                                     expectedLen: nat, expectedWrites: nat)
    requires Landed(s, start, l)
    ensures var done := LiveCall(s, r, c, past, steps, l, expectedLen, expectedWrites);
            done.Some? ==> Landed(s, start, done.value) && Extends(l.span, done.value.span)
    decreases steps
  {
    hide Extends, WriteRule, LiveRead, LiveStore, SpanOk, AllWritable, StoreBytes, Counted;
    ExtendsItself(l.span);
    if steps > 0 {
      match r(c, past)
      case Finish(ok) =>
      case Load(va, n) =>
        LiveGrows(s, start, r, c, past + [Loaded(LiveRead(s, c.frame, l.ram, va, n))], steps - 1, l, expectedLen, expectedWrites);
      case Store(va, bytes) =>
        if !WriteRule(l.span, l.writes, expectedLen, expectedWrites, va, |bytes|) {
          LiveGrows(s, start, r, c, past + [Stored(false)], steps - 1, l, expectedLen, expectedWrites);
        } else if SpanOk(s, Span(va, bytes)) {
          SpanWritable(s, Span(va, bytes));
          StoreLands(s, start, l, expectedLen, expectedWrites, va, bytes);
          var next := LiveStore(s, l, va, bytes);
          LiveGrows(s, start, r, c, past + [Stored(true)], steps - 1, next, expectedLen, expectedWrites);
          var done := LiveCall(s, r, c, past + [Stored(true)], steps - 1, next, expectedLen, expectedWrites);
          if done.Some? {
            ExtendsOn(l.span, next.span, done.value.span);
          }
        }
    }
  }

  lemma SpanWritable(s: Space, p: Span)
    requires SpanOk(s, p)
    ensures AllWritable(s, p.va, |p.src|)
  {
  }

  lemma {:induction false} LiveChunksGrow(s: Space, start: seq<Byte>, r: Renderer, j: Job, row: nat, offset: nat, steps: nat, l: Live)
    requires offset <= j.width && Landed(s, start, l)
    ensures var done := LiveChunks(s, r, j, row, offset, steps, l);
            done.Some? ==> Landed(s, start, done.value) && Extends(l.span, done.value.span)
    decreases j.width - offset
  {
    hide Extends, Landed, LiveCall;
    LandedSized(s, start, l);
    ExtendsItself(l.span);
    if offset < j.width {
      LiveGrows(s, start, r, CallAt(j, row, offset), [], steps, l, j.width * 4, j.chunks);
      var next := LiveCall(s, r, CallAt(j, row, offset), [], steps, l, j.width * 4, j.chunks);
      if next.Some? {
        LiveChunksGrow(s, start, r, j, row, offset + ChunkAt(j, offset), steps, next.value);
        var done := LiveChunks(s, r, j, row, offset + ChunkAt(j, offset), steps, next.value);
        if done.Some? {
          ExtendsOn(l.span, next.value.span, done.value.span);
        }
      }
    }
  }

  lemma LandedSized(s: Space, start: seq<Byte>, l: Live)
    requires Landed(s, start, l)
    ensures |l.ram| == s.size
  {
  }

  lemma NothingLanded(s: Space, ram: seq<Byte>)
    requires |ram| == s.size
    ensures Landed(s, ram, Live(ram, Span(0, []), 0))
  {
  }

  /** Rows written at once leave RAM with all their spans stored in order. */
  lemma {:induction false} LiveRowsStore(s: Space, start: seq<Byte>, r: Renderer, j: Job, row: nat, steps: nat, ram: seq<Byte>, prior: seq<Span>)
    requires row <= j.height && j.width > 0 && |start| == s.size && |ram| == s.size && Storable(s, prior)
    requires (forall i :: 0 <= i < |prior| ==> AllWritable(s, prior[i].va, |prior[i].src|)) && ram == StoreSpans(s, start, prior)
    ensures var done := RowsLive(s, r, j, row, steps, ram, prior);
            done.Some? ==> && prior <= done.value.1 && Storable(s, done.value.1)
                           && (forall i :: 0 <= i < |done.value.1| ==> AllWritable(s, done.value.1[i].va, |done.value.1[i].src|))
                           && done.value.0 == StoreSpans(s, start, done.value.1) && Sized(j, row, prior, done.value.1)
    decreases j.height - row
  {
    hide LiveChunks, Overlap, SpanOk, AllWritable, StoreBytes;
    if row < j.height {
      NothingLanded(s, ram);
      LiveChunksGrow(s, ram, r, j, row, 0, steps, Live(ram, Span(0, []), 0));
      var done := LiveRow(s, r, j, row, steps, ram, prior);
      if done.Some? {
        var more := prior + [done.value.span];
        CountedFits(done.value.span, done.value.writes);
        assert more[..|more| - 1] == prior;
        LiveRowsStore(s, start, r, j, row + 1, steps, done.value.ram, more);
      }
    }
  }

  lemma CountedFits(p: Span, writes: nat)
    requires Counted(p, writes)
    ensures p.va + |p.src| <= REAL_LIMIT
  {
  }

  // ------------------------------------------------------------ Shadow and live rows side by side

  /** What a row has written can be stored, and shows at no second address. */
  ghost predicate Sound(s: Space, p: Span) {
    p.src == [] || (SpanOk(s, p) && p.va + |p.src| <= REAL_LIMIT && UnaliasedRange(s, p.va, |p.src|))
  }

  lemma SoundPrefix(s: Space, a: Span, b: Span)
    requires Extends(a, b) && Sound(s, b)
    ensures Sound(s, a)
  {
    hide Place, Writable;
  }

  /** A row stays sound exactly when its next chunk is. */
  lemma GrownSound(s: Space, p: Span, writes: nat, expectedLen: nat, expectedWrites: nat, va: nat, bytes: seq<Byte>)
    requires Sound(s, p) && Counted(p, writes) && WriteRule(p, writes, expectedLen, expectedWrites, va, |bytes|)
    ensures Sound(s, Grown(p, writes, va, bytes)) <==> Sound(s, Span(va, bytes))
  {
    hide Place, Writable;
    var g := Grown(p, writes, va, bytes);
    assert |g.src| == |p.src| + |bytes|;
    if writes == 0 {
      assert g == Span(va, bytes);
    }
  }

  /** The shadow's row and the live one, in step: same bytes written, and memory shows what RAM holds. */
  ghost predicate InStep(s: Space, row: Row, l: Live) {
    && |l.ram| == s.size && row.now == View(s, l.ram) && row.span == l.span && row.writes == l.writes
    && Counted(l.span, l.writes) && Sound(s, l.span)
  }

  lemma StoreInStep(s: Space, row: Row, l: Live, expectedLen: nat, expectedWrites: nat, va: nat, bytes: seq<Byte>)
    requires InStep(s, row, l) && WriteRule(l.span, l.writes, expectedLen, expectedWrites, va, |bytes|)
    requires Sound(s, Span(va, bytes))
    ensures va + |bytes| <= REAL_LIMIT && SpanOk(s, Span(va, bytes)) && AllWritable(s, va, |bytes|)
    ensures InStep(s, Row(Patch(row.now, va, bytes), Grown(row.span, row.writes, va, bytes), row.writes + 1), LiveStore(s, l, va, bytes))
  {
    hide View, Place, Writable, StoreBytes, UnaliasedRange;
    GrownSound(s, l.span, l.writes, expectedLen, expectedWrites, va, bytes);
    GrownExtends(l.span, l.writes, expectedLen, expectedWrites, va, bytes);
    StoredView(s, l.ram, va, bytes);
  }

  /** In step, the two answer a read alike. */
  lemma ReadInStep(s: Space, f: Frame, prior: seq<Span>, row: Row, l: Live, va: nat, n: nat)
    requires Storable(s, prior) && InStep(s, row, l)
    ensures |l.ram| == s.size && ReadRule(f, prior, row.span, Permits(s), row.now, va, n) == LiveRead(s, f, l.ram, va, n)
  {
    hide ReadRule, LiveRead, View;
    ReadRuleIsMachine(s, l.ram, f, prior, l.span, va, n);
  }

  /** Of two outcomes, either both are there and in step, or neither ends in a sound row. */
  ghost predicate Alike(s: Space, shadow: Option<Row>, live: Option<Live>) {
    (shadow.Some? && Sound(s, shadow.value.span)) || (live.Some? && Sound(s, live.value.span))
    ==> shadow.Some? && live.Some? && InStep(s, shadow.value, live.value)
  }

  lemma {:induction false} CallAlike(s: Space, start: seq<Byte>, r: Renderer, c: Call, past: seq<Answer>, steps: nat, row: Row, l: Live,
                                     prior: seq<Span>, expectedLen: nat, expectedWrites: nat)
    requires Storable(s, prior) && InStep(s, row, l) && Landed(s, start, l)
    ensures |l.ram| == s.size
    ensures Alike(s, ImmediateCall(r, c, past, steps, row, prior, Permits(s), expectedLen, expectedWrites),
                  LiveCall(s, r, c, past, steps, l, expectedLen, expectedWrites))
    decreases steps
  {
    hide WriteRule, ReadRule, LiveRead, LiveStore, SpanOk, AllWritable, Counted, Sound, Landed, Storable, View;
    if steps > 0 {
      match r(c, past)
      case Finish(ok) =>
      case Load(va, n) =>
        ReadInStep(s, c.frame, prior, row, l, va, n);
        CallAlike(s, start, r, c, past + [Loaded(LiveRead(s, c.frame, l.ram, va, n))], steps - 1, row, l, prior, expectedLen, expectedWrites);
      case Store(va, bytes) =>
        if !WriteRule(l.span, l.writes, expectedLen, expectedWrites, va, |bytes|) {
          CallAlike(s, start, r, c, past + [Stored(false)], steps - 1, row, l, prior, expectedLen, expectedWrites);
        } else if Sound(s, Span(va, bytes)) {
          StoreInStep(s, row, l, expectedLen, expectedWrites, va, bytes);
          StoreLands(s, start, l, expectedLen, expectedWrites, va, bytes);
          CallAlike(s, start, r, c, past + [Stored(true)], steps - 1,
                    Row(Patch(row.now, va, bytes), Grown(row.span, row.writes, va, bytes), row.writes + 1), LiveStore(s, l, va, bytes), prior,
                    expectedLen, expectedWrites);
        } else {
          UnsoundStore(s, start, r, c, past, steps, row, l, prior, expectedLen, expectedWrites, va, bytes);
        }
    }
  }

  /** After a store that is not sound, neither ends in a sound row. */
  lemma UnsoundStore(s: Space, start: seq<Byte>, r: Renderer, c: Call, past: seq<Answer>, steps: nat, row: Row, l: Live,
                     prior: seq<Span>, expectedLen: nat, expectedWrites: nat, va: nat, bytes: seq<Byte>)
    requires InStep(s, row, l) && Landed(s, start, l) && steps > 0 && r(c, past) == Store(va, bytes)
    requires WriteRule(l.span, l.writes, expectedLen, expectedWrites, va, |bytes|) && !Sound(s, Span(va, bytes))
    ensures |l.ram| == s.size
    ensures Alike(s, ImmediateCall(r, c, past, steps, row, prior, Permits(s), expectedLen, expectedWrites),
                  LiveCall(s, r, c, past, steps, l, expectedLen, expectedWrites))
  {
    hide WriteRule, ReadRule, LiveRead, SpanOk, AllWritable, Counted, Sound, Landed, View, Extends, StoreBytes;
    GrownSound(s, l.span, l.writes, expectedLen, expectedWrites, va, bytes);
    GrownExtends(l.span, l.writes, expectedLen, expectedWrites, va, bytes);
    WithinLimit(l.span, l.writes, expectedLen, expectedWrites, va, |bytes|);
    var g := Grown(l.span, l.writes, va, bytes);
    var shadow := Row(Patch(row.now, va, bytes), g, row.writes + 1);
    CallGrows(r, c, past + [Stored(true)], steps - 1, shadow, prior, Permits(s), expectedLen, expectedWrites);
    var a := ImmediateCall(r, c, past, steps, row, prior, Permits(s), expectedLen, expectedWrites);
    assert a == ImmediateCall(r, c, past + [Stored(true)], steps - 1, shadow, prior, Permits(s), expectedLen, expectedWrites);
    if a.Some? && Sound(s, a.value.span) {
      SoundPrefix(s, g, a.value.span);
    }
    if SpanOk(s, Span(va, bytes)) {
      SpanWritable(s, Span(va, bytes));
      StoreLands(s, start, l, expectedLen, expectedWrites, va, bytes);
      var next := LiveStore(s, l, va, bytes);
      LiveGrows(s, start, r, c, past + [Stored(true)], steps - 1, next, expectedLen, expectedWrites);
      var done := LiveCall(s, r, c, past + [Stored(true)], steps - 1, next, expectedLen, expectedWrites);
      if done.Some? && Sound(s, done.value.span) {
        SoundPrefix(s, g, done.value.span);
      }
    }
  }

  lemma {:induction false} ChunksAlike(s: Space, start: seq<Byte>, r: Renderer, j: Job, row: nat, offset: nat, steps: nat, state: Row, l: Live,
                                       prior: seq<Span>)
    requires offset <= j.width && Storable(s, prior) && InStep(s, state, l) && Landed(s, start, l)
    ensures |l.ram| == s.size
    ensures Alike(s, ImmediateChunks(r, j, row, offset, steps, state, prior, Permits(s)), LiveChunks(s, r, j, row, offset, steps, l))
    decreases j.width - offset
  {
    hide ImmediateCall, LiveCall, Counted, Sound, Landed, Storable, View, Extends;
    if offset < j.width {
      var c, next := CallAt(j, row, offset), offset + ChunkAt(j, offset);
      var a := ImmediateCall(r, c, [], steps, state, prior, Permits(s), j.width * 4, j.chunks);
      var b := LiveCall(s, r, c, [], steps, l, j.width * 4, j.chunks);
      CallAlike(s, start, r, c, [], steps, state, l, prior, j.width * 4, j.chunks);
      CallGrows(r, c, [], steps, state, prior, Permits(s), j.width * 4, j.chunks);
      LiveGrows(s, start, r, c, [], steps, l, j.width * 4, j.chunks);
      if a.Some? && b.Some? && InStep(s, a.value, b.value) {
        ChunksAlike(s, start, r, j, row, next, steps, a.value, b.value, prior);
      } else {
        if a.Some? {
          ChunksUnsound(s, r, j, row, next, steps, a.value, prior);
        }
        if b.Some? {
          LiveChunksUnsound(s, start, r, j, row, next, steps, b.value);
        }
      }
    }
  }

  lemma ChunksUnsound(s: Space, r: Renderer, j: Job, row: nat, offset: nat, steps: nat, state: Row, prior: seq<Span>)
    requires offset <= j.width && Counted(state.span, state.writes) && !Sound(s, state.span)
    ensures var done := ImmediateChunks(r, j, row, offset, steps, state, prior, Permits(s)); done.Some? ==> !Sound(s, done.value.span)
  {
    hide *;
    ChunksGrow(r, j, row, offset, steps, state, prior, Permits(s));
    var done := ImmediateChunks(r, j, row, offset, steps, state, prior, Permits(s));
    if done.Some? && Sound(s, done.value.span) {
      SoundPrefix(s, state.span, done.value.span);
    }
  }

  lemma LiveChunksUnsound(s: Space, start: seq<Byte>, r: Renderer, j: Job, row: nat, offset: nat, steps: nat, l: Live)
    requires offset <= j.width && |l.ram| == s.size && Landed(s, start, l) && !Sound(s, l.span)
    ensures var done := LiveChunks(s, r, j, row, offset, steps, l); done.Some? ==> !Sound(s, done.value.span)
  {
    hide *;
    LiveChunksGrow(s, start, r, j, row, offset, steps, l);
    var done := LiveChunks(s, r, j, row, offset, steps, l);
    if done.Some? && Sound(s, done.value.span) {
      SoundPrefix(s, l.span, done.value.span);
    }
  }

  /** One row, its count and its overlap check included. */
  lemma RowAlike(s: Space, r: Renderer, j: Job, row: nat, steps: nat, ram: seq<Byte>, prior: seq<Span>)
    requires |ram| == s.size && Storable(s, prior)
    ensures Alike(s, ImmediateRow(r, j, row, steps, View(s, ram), prior, Permits(s)), LiveRow(s, r, j, row, steps, ram, prior))
  {
    hide ImmediateChunks, LiveChunks, View, Landed, Overlap, Storable;
    NothingLanded(s, ram);
    var state, l := Row(View(s, ram), Span(0, []), 0), Live(ram, Span(0, []), 0);
    assert InStep(s, state, l);
    ChunksAlike(s, ram, r, j, row, 0, steps, state, l, prior);
  }

  /** All rows: one outcome is storable and unaliased exactly if the other is, and then they agree. */
  lemma {:induction false} RowsAlike(s: Space, start: seq<Byte>, r: Renderer, j: Job, row: nat, steps: nat, ram: seq<Byte>, prior: seq<Span>,
                                     spans: seq<Span>)
    requires row <= j.height && j.width > 0 && |start| == s.size && |ram| == s.size && Storable(s, prior)
    requires (forall i :: 0 <= i < |prior| ==> AllWritable(s, prior[i].va, |prior[i].src|)) && ram == StoreSpans(s, start, prior)
    requires Storable(s, spans) && Unaliased(s, spans)
    ensures var a, b := ImmediateRows(r, j, row, steps, View(s, ram), prior, Permits(s)), RowsLive(s, r, j, row, steps, ram, prior);
            (a.Some? && a.value.1 == spans) <==> (b.Some? && b.value.1 == spans)
    decreases j.height - row
  {
    hide ImmediateRow, LiveRow, View, AllWritable, UnaliasedRange, StoreSpans, SpanOk;
    if row < j.height {
      var a := ImmediateRow(r, j, row, steps, View(s, ram), prior, Permits(s));
      var b := LiveRow(s, r, j, row, steps, ram, prior);
      RowAlike(s, r, j, row, steps, ram, prior);
      StorableFits(s, prior);
      if a.Some? {
        RowFits(r, j, row, steps, View(s, ram), prior, Permits(s));
        RowsGrow(r, j, row + 1, steps, a.value.now, prior + [a.value.span], Permits(s));
        RowPart(s, spans, prior, a.value.span);
      }
      if b.Some? {
        LiveRowStored(s, start, r, j, row, steps, ram, prior);
        LiveRowsStore(s, start, r, j, row + 1, steps, b.value.ram, prior + [b.value.span]);
        RowPart(s, spans, prior, b.value.span);
      }
      if a.Some? && b.Some? && InStep(s, a.value, b.value) {
        RowsAlike(s, start, r, j, row + 1, steps, b.value.ram, prior + [b.value.span], spans);
      }
    }
  }

  lemma RowFits(r: Renderer, j: Job, row: nat, steps: nat, now: Memory, prior: seq<Span>, permit: Permit)
    ensures var done := ImmediateRow(r, j, row, steps, now, prior, permit);
            done.Some? ==> done.value.span.va + |done.value.span.src| <= REAL_LIMIT
  {
    hide ImmediateChunks, Overlap;
    ChunksGrow(r, j, row, 0, steps, Row(now, Span(0, []), 0), prior, permit);
  }

  lemma LiveRowStored(s: Space, start: seq<Byte>, r: Renderer, j: Job, row: nat, steps: nat, ram: seq<Byte>, prior: seq<Span>)
    requires j.width > 0 && |start| == s.size && |ram| == s.size && Storable(s, prior)
    requires (forall i :: 0 <= i < |prior| ==> AllWritable(s, prior[i].va, |prior[i].src|)) && ram == StoreSpans(s, start, prior)
    ensures var done := LiveRow(s, r, j, row, steps, ram, prior);
            done.Some? ==> var more := prior + [done.value.span];
                           && Storable(s, more) && (forall i :: 0 <= i < |more| ==> AllWritable(s, more[i].va, |more[i].src|))
                           && done.value.ram == StoreSpans(s, start, more)
  {
    hide LiveChunks, Overlap, SpanOk, AllWritable, StoreBytes;
    NothingLanded(s, ram);
    LiveChunksGrow(s, ram, r, j, row, 0, steps, Live(ram, Span(0, []), 0));
    var done := LiveRow(s, r, j, row, steps, ram, prior);
    if done.Some? {
      var more := prior + [done.value.span];
      CountedFits(done.value.span, done.value.writes);
      assert more[..|more| - 1] == prior;
    }
  }

  /** A row that is part of a good result is sound. */
  lemma RowPart(s: Space, spans: seq<Span>, prior: seq<Span>, p: Span)
    requires Storable(s, spans) && Unaliased(s, spans)
    ensures prior + [p] <= spans ==> Sound(s, p)
  {
    hide SpanOk, UnaliasedRange;
    if prior + [p] <= spans {
      assert spans[|prior|] == p;
    }
  }
}
