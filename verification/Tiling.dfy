/** Which calls the rectangle root makes: they tile what is to be drawn, and no others matter. */
module Tiling {
  import opened Words
  import opened Spans
  import opened Publish
  import opened RowShadow
  import opened LiveRows
  import opened RectRoot

  // ------------------------------------------------------------ The calls

  function RowCalls(j: Job, row: nat, offset: nat): seq<Call>
    requires offset <= j.width
    decreases j.width - offset
  {
    if offset == j.width then [] else [CallAt(j, row, offset)] + RowCalls(j, row, offset + ChunkAt(j, offset))
  }

  function CallsFrom(j: Job, row: nat): seq<Call>
    requires row <= j.height
    decreases j.height - row
  {
    if row == j.height then [] else RowCalls(j, row, 0) + CallsFrom(j, row + 1)
  }

  /** The calls of a request, in the order the root makes them while nothing declines. */
  function Calls(s: Space, ram: seq<Byte>, q: Request): seq<Call>
    requires |ram| == s.size
  {
    match Drawn(q.shape, q.clip)
    case None => []
    case Some(d) => CallsFrom(JobOf(q, d, ChunksOf(s, ram, q.ctx, q.mask, d.xmax - d.xmin)), 0)
  }

  // ------------------------------------------------------------ They tile

  predicate Draws(c: Call, x: int, y: int) { c.y == y && c.x <= x < c.x + c.count }

  /** One call before another: a higher row, or further left in the same one. */
  predicate Before(a: Call, b: Call) { a.y < b.y || (a.y == b.y && a.x + a.count <= b.x) }

  predicate Ascending(calls: seq<Call>) { forall k, l :: 0 <= k < l < |calls| ==> Before(calls[k], calls[l]) }

  /** Every call is nonempty and inside, and has the frame of its place; no row is wider than a call allows. */
  predicate Placed(c: Call, x: nat, y: nat, width: nat, height: nat, chunks: nat, frame: (nat, nat) -> Frame) {
    && x <= c.x && y <= c.y < y + height && 0 < c.count && c.x + c.count <= x + width
    && c.frame == frame(c.y - y, c.x - x)
    && (if chunks > 1 then c.count <= CHUNK_MAX else c.count == width)
  }

  ghost predicate AllPlaced(calls: seq<Call>, j: Job) {
    forall c :: c in calls ==> Placed(c, j.x, j.y, j.width, j.height, j.chunks, j.frame)
  }

  ghost predicate Reached(calls: seq<Call>, x: int, y: int) { exists k :: 0 <= k < |calls| && Draws(calls[k], x, y) }

  ghost predicate RowReached(calls: seq<Call>, from: int, to: int, y: int) { forall x :: from <= x < to ==> Reached(calls, x, y) }

  ghost predicate RowsReached(calls: seq<Call>, from: int, to: int, top: int, bottom: int) {
    forall y :: top <= y < bottom ==> RowReached(calls, from, to, y)
  }

  /** A job the root forms: a row of one call, or of two when it is wider than one call may be. */
  predicate Chunked(j: Job) { j.chunks == 1 || (j.chunks == 2 && CHUNK_MAX < j.width <= 2 * CHUNK_MAX) }

  lemma {:induction false} RowTiles(j: Job, row: nat, offset: nat)
    requires offset <= j.width && row < j.height && Chunked(j) && (j.chunks == 1 ==> offset == 0 || offset == j.width)
    ensures var calls := RowCalls(j, row, offset);
            && Ascending(calls) && AllPlaced(calls, j)
            && (forall c :: c in calls ==> c.y == j.y + row && j.x + offset <= c.x)
            && RowReached(calls, j.x + offset, j.x + j.width, j.y + row)
    decreases j.width - offset
  {
    if offset < j.width {
      var c, next := CallAt(j, row, offset), offset + ChunkAt(j, offset);
      RowTiles(j, row, next);
      var rest := RowCalls(j, row, next);
      var calls := RowCalls(j, row, offset);
      assert calls == [c] + rest;
      var y := j.y + row;
      forall x | j.x + offset <= x < j.x + j.width
        ensures Reached(calls, x, y)
      {
        if x < j.x + next {
          assert Draws(calls[0], x, y);
        } else {
          assert Reached(rest, x, y);
          var k :| 0 <= k < |rest| && Draws(rest[k], x, y);
          assert calls[k + 1] == rest[k];
        }
      }
    }
  }

  lemma {:induction false} RowsTile(j: Job, row: nat)
    requires row <= j.height && Chunked(j)
    ensures var calls := CallsFrom(j, row);
            && Ascending(calls) && AllPlaced(calls, j)
            && (forall c :: c in calls ==> j.y + row <= c.y)
            && RowsReached(calls, j.x, j.x + j.width, j.y + row, j.y + j.height)
    decreases j.height - row
  {
    hide Placed, Draws;
    if row < j.height {
      RowTiles(j, row, 0);
      RowsTile(j, row + 1);
      var here, rest := RowCalls(j, row, 0), CallsFrom(j, row + 1);
      var calls := CallsFrom(j, row);
      assert calls == here + rest;
      forall x, y | j.x <= x < j.x + j.width && j.y + row <= y < j.y + j.height
        ensures Reached(calls, x, y)
      {
        if y == j.y + row {
          assert Reached(here, x, y);
          var k :| 0 <= k < |here| && Draws(here[k], x, y);
          assert calls[k] == here[k];
        } else {
          assert RowReached(rest, j.x, j.x + j.width, y) && Reached(rest, x, y);
          var k :| 0 <= k < |rest| && Draws(rest[k], x, y);
          assert calls[|here| + k] == rest[k];
        }
      }
    }
  }

  /** A pixel is inside shape and clip exactly if one call draws it, and then only one does; rows go down, the chunks of a row
      to the right, and each call has the frame of its place. */
  lemma CallsTile(s: Space, ram: seq<Byte>, q: Request, x: int, y: int)
    requires |ram| == s.size && Drawn(q.shape, q.clip).Some?
    ensures var calls := Calls(s, ram, q);
            && (Inside(q.shape, x, y) && Inside(q.clip, x, y) <==> exists k :: 0 <= k < |calls| && Draws(calls[k], x, y))
            && (forall k, l :: 0 <= k < |calls| && 0 <= l < |calls| && Draws(calls[k], x, y) && Draws(calls[l], x, y) ==> k == l)
            && Ascending(calls)
    ensures var d, calls := Drawn(q.shape, q.clip).value, Calls(s, ram, q);
            forall c :: c in calls ==>
              Placed(c, d.xmin, d.ymin, d.xmax - d.xmin, d.ymax - d.ymin, ChunksOf(s, ram, q.ctx, q.mask, d.xmax - d.xmin), q.frame)
  {
    hide RowCalls, CallsFrom, TexturedChunks;
    var d := Drawn(q.shape, q.clip).value;
    var j := JobOf(q, d, ChunksOf(s, ram, q.ctx, q.mask, d.xmax - d.xmin));
    RowsTile(j, 0);
    var calls := Calls(s, ram, q);
    assert Inside(d, x, y) <==> Inside(q.shape, x, y) && Inside(q.clip, x, y);
    if Inside(d, x, y) {
      assert RowReached(calls, j.x, j.x + j.width, y) && Reached(calls, x, y);
    }
    if k :| 0 <= k < |calls| && Draws(calls[k], x, y) {
      assert calls[k] in calls;
    }
  }

  // ------------------------------------------------------------ Nothing else is asked

  /** Do two renderers answer a call alike, whatever it has been told so far? */
  ghost predicate SameOn(a: Renderer, b: Renderer, c: Call) { forall past: seq<Answer> :: a(c, past) == b(c, past) }

  lemma {:induction false} CallSame(a: Renderer, b: Renderer, c: Call, past: seq<Answer>, steps: nat, row: Row, prior: seq<Span>, permit: Permit,
                                    expectedLen: nat, expectedWrites: nat)
    requires SameOn(a, b, c)
    ensures ImmediateCall(a, c, past, steps, row, prior, permit, expectedLen, expectedWrites)
            == ImmediateCall(b, c, past, steps, row, prior, permit, expectedLen, expectedWrites)
    decreases steps
  {
    hide WriteRule, ReadRule, Patch;
    if steps > 0 {
      assert a(c, past) == b(c, past);
      match a(c, past)
      case Finish(_) =>
      case Load(va, n) =>
        CallSame(a, b, c, past + [Loaded(ReadRule(c.frame, prior, row.span, permit, row.now, va, n))], steps - 1, row, prior, permit,
                 expectedLen, expectedWrites);
      case Store(va, bytes) =>
        if WriteRule(row.span, row.writes, expectedLen, expectedWrites, va, |bytes|) {
          WithinLimit(row.span, row.writes, expectedLen, expectedWrites, va, |bytes|);
          CallSame(a, b, c, past + [Stored(true)], steps - 1,
                   Row(Patch(row.now, va, bytes), Grown(row.span, row.writes, va, bytes), row.writes + 1), prior, permit,
                   expectedLen, expectedWrites);
        } else {
          CallSame(a, b, c, past + [Stored(false)], steps - 1, row, prior, permit, expectedLen, expectedWrites);
        }
    }
  }

  lemma {:induction false} ChunksSame(a: Renderer, b: Renderer, j: Job, row: nat, offset: nat, steps: nat, state: Row, prior: seq<Span>,
                                      permit: Permit)
    requires offset <= j.width && forall c :: c in RowCalls(j, row, offset) ==> SameOn(a, b, c)
    ensures ImmediateChunks(a, j, row, offset, steps, state, prior, permit) == ImmediateChunks(b, j, row, offset, steps, state, prior, permit)
    decreases j.width - offset
  {
    hide ImmediateCall, SameOn;
    if offset < j.width {
      var c := CallAt(j, row, offset);
      assert RowCalls(j, row, offset)[0] == c;
      CallSame(a, b, c, [], steps, state, prior, permit, j.width * 4, j.chunks);
      var next := ImmediateCall(a, c, [], steps, state, prior, permit, j.width * 4, j.chunks);
      if next.Some? {
        ChunksSame(a, b, j, row, offset + ChunkAt(j, offset), steps, next.value, prior, permit);
      }
    }
  }

  lemma {:induction false} RowsSame(a: Renderer, b: Renderer, j: Job, row: nat, steps: nat, now: Memory, prior: seq<Span>, permit: Permit)
    requires row <= j.height && forall c :: c in CallsFrom(j, row) ==> SameOn(a, b, c)
    ensures ImmediateRows(a, j, row, steps, now, prior, permit) == ImmediateRows(b, j, row, steps, now, prior, permit)
    decreases j.height - row
  {
    hide ImmediateChunks, SameOn, Overlap;
    if row < j.height {
      ChunksSame(a, b, j, row, 0, steps, Row(now, Span(0, []), 0), prior, permit);
      var done := ImmediateRow(a, j, row, steps, now, prior, permit);
      if done.Some? {
        RowsSame(a, b, j, row + 1, steps, done.value.now, prior + [done.value.span], permit);
      }
    }
  }

  /** What comes out depends on the renderer's answers to those calls alone. */
  lemma OnlyTheseCalls(s: Space, ram: seq<Byte>, q: Request, a: Renderer, b: Renderer, steps: nat)
    requires |ram| == s.size && forall c :: c in Calls(s, ram, q) ==> SameOn(a, b, c)
    ensures Immediate(s, ram, q, a, steps) == Immediate(s, ram, q, b, steps)
    ensures Published(s, ram, q, a, steps) == Published(s, ram, q, b, steps)
  {
    hide ImmediateRows, CallsFrom, SameOn, TexturedChunks, View;
    var d := Drawn(q.shape, q.clip);
    if d.Some? {
      RowsSame(a, b, JobOf(q, d.value, ChunksOf(s, ram, q.ctx, q.mask, d.value.xmax - d.value.xmin)), 0, steps, View(s, ram), [], Permits(s));
    }
  }

  // ------------------------------------------------------------ And each of them is

  ghost predicate Refuses(r: Renderer, c: Call) { forall past: seq<Answer> :: r(c, past) == Finish(false) }

  lemma {:induction false} ChunkRefused(r: Renderer, j: Job, row: nat, offset: nat, steps: nat, state: Row, prior: seq<Span>, permit: Permit, c: Call)
    requires offset <= j.width && c in RowCalls(j, row, offset) && Refuses(r, c)
    ensures ImmediateChunks(r, j, row, offset, steps, state, prior, permit) == None
    decreases j.width - offset
  {
    hide WriteRule, ReadRule, Patch;
    assert r(c, []) == Finish(false);
    var next := ImmediateCall(r, CallAt(j, row, offset), [], steps, state, prior, permit, j.width * 4, j.chunks);
    if c != CallAt(j, row, offset) && next.Some? {
      ChunkRefused(r, j, row, offset + ChunkAt(j, offset), steps, next.value, prior, permit, c);
    }
  }

  lemma {:induction false} RowRefused(r: Renderer, j: Job, row: nat, steps: nat, now: Memory, prior: seq<Span>, permit: Permit, c: Call)
    requires row <= j.height && c in CallsFrom(j, row) && Refuses(r, c)
    ensures ImmediateRows(r, j, row, steps, now, prior, permit) == None
    decreases j.height - row
  {
    hide ImmediateChunks, Refuses, Overlap;
    if c in RowCalls(j, row, 0) {
      ChunkRefused(r, j, row, 0, steps, Row(now, Span(0, []), 0), prior, permit, c);
    } else {
      var done := ImmediateRow(r, j, row, steps, now, prior, permit);
      if done.Some? {
        RowRefused(r, j, row + 1, steps, done.value.now, prior + [done.value.span], permit, c);
      }
    }
  }

  /** A renderer that refuses any one of them makes the root decline. */
  lemma EachOfTheseCalls(s: Space, ram: seq<Byte>, q: Request, r: Renderer, steps: nat, c: Call)
    requires |ram| == s.size && c in Calls(s, ram, q) && Refuses(r, c)
    ensures Immediate(s, ram, q, r, steps) == None && Published(s, ram, q, r, steps) == None
  {
    hide ImmediateRows, CallsFrom, Refuses, TexturedChunks, View;
    var d := Drawn(q.shape, q.clip).value;
    RowRefused(r, JobOf(q, d, ChunksOf(s, ram, q.ctx, q.mask, d.xmax - d.xmin)), 0, steps, View(s, ram), [], Permits(s), c);
  }
}
