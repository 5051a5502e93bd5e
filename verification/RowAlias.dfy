/** When publishing rows together and writing them directly come to the same: exactly when no pixel shows at two addresses. */
module RowAlias {
  import opened Words
  import opened Spans
  import opened Publish
  import opened RowShadow
  import opened LiveRows
  import opened RectRoot

  /** A renderer that draws a pixel, reads back one byte and succeeds if that byte is as expected. */
  function Prober(va: nat, bytes: seq<Byte>, t: nat, wanted: Byte): Renderer {
    (c: Call, past: seq<Answer>) =>
      if |past| == 0 then Store(va, bytes)
      else if |past| == 1 then Load(t, 1)
      else Finish(past[1] == Loaded(Some([wanted])))
  }

  const NO_FRAME := Frame([], [], [])

  function NoFrame(row: nat, offset: nat): Frame { NO_FRAME }

  /** A rectangle of one pixel. */
  function OnePixel(): Request { Request(Bounds(0, 0, 1, 1), Bounds(0, 0, 1, 1), 0, 0, NoFrame) }

  function OneJob(): Job { Job(0, 0, 1, 1, 1, NoFrame) }

  lemma JobOfPixel(q: Request)
    ensures JobOf(q, Bounds(0, 0, 1, 1), 1) == Job(0, 0, 1, 1, 1, q.frame)
  {
  }

  /** One byte read back without a frame in the way. */
  lemma ReadsOne(s: Space, ram: seq<Byte>, t: nat)
    requires |ram| == s.size && 0 < t < REAL_LIMIT && Place(s, t).Some?
    ensures LiveRead(s, NO_FRAME, ram, t, 1) == Some([ram[Place(s, t).value]])
    ensures forall prior, current, m: Memory :: ReadRule(NO_FRAME, prior, current, Permits(s), m, t, 1) == Some(m[t..t + 1])
  {
    hide Place;
    assert Readable(s, t, 1);
    assert ReadSpace(s, ram, t, 1).value == [Shown(s, ram, t)];
  }

  /** The shadow's answer decides whether the pixel is drawn. */
  lemma ShadowProbe(m: Memory, permit: Permit, va: nat, bytes: seq<Byte>, t: nat, wanted: Byte)
    requires |bytes| == 4 && va + 4 <= REAL_LIMIT
    ensures ImmediateRows(Prober(va, bytes, t, wanted), OneJob(), 0, 3, m, [], permit)
            == if ReadRule(NO_FRAME, [], Span(va, bytes), permit, Patch(m, va, bytes), t, 1) == Some([wanted])
               then Some((Patch(m, va, bytes), [Span(va, bytes)])) else None
  {
    hide ReadRule, Patch;
    var r, c, start := Prober(va, bytes, t, wanted), CallAt(OneJob(), 0, 0), Row(m, Span(0, []), 0);
    var next := Row(Patch(m, va, bytes), Span(va, bytes), 1);
    var read := ReadRule(NO_FRAME, [], Span(va, bytes), permit, Patch(m, va, bytes), t, 1);
    assert [] + bytes == bytes;
    ProbeSteps(va, bytes, t, wanted, c, read);
    assert ImmediateCall(r, c, [Stored(true), Loaded(read)], 1, next, [], permit, 4, 1) == if read == Some([wanted]) then Some(next) else None;
    assert ImmediateCall(r, c, [Stored(true)], 2, next, [], permit, 4, 1)
        == ImmediateCall(r, c, [Stored(true)] + [Loaded(read)], 1, next, [], permit, 4, 1);
    assert ImmediateCall(r, c, [], 3, start, [], permit, 4, 1) == ImmediateCall(r, c, [] + [Stored(true)], 2, next, [], permit, 4, 1);
    assert ImmediateChunks(r, OneJob(), 0, 0, 3, start, [], permit) == ImmediateCall(r, c, [], 3, start, [], permit, 4, 1);
    assert [] + [Span(va, bytes)] == [Span(va, bytes)];
    if read == Some([wanted]) {
      assert ImmediateRow(r, OneJob(), 0, 3, m, [], permit) == Some(next);
      assert ImmediateRows(r, OneJob(), 0, 3, m, [], permit) == ImmediateRows(r, OneJob(), 1, 3, next.now, [Span(va, bytes)], permit);
    }
  }

  lemma ProbeSteps(va: nat, bytes: seq<Byte>, t: nat, wanted: Byte, c: Call, read: Option<seq<Byte>>)
    ensures var r := Prober(va, bytes, t, wanted);
            && r(c, []) == Store(va, bytes) && r(c, [Stored(true)]) == Load(t, 1)
            && r(c, [Stored(true), Loaded(read)]) == Finish(read == Some([wanted]))
            && [] + [Stored(true)] == [Stored(true)] && [Stored(true)] + [Loaded(read)] == [Stored(true), Loaded(read)]
            && c.frame == c.frame
  {
  }

  /** So does RAM's answer where the pixel is written directly. */
  lemma DirectProbe(s: Space, ram: seq<Byte>, va: nat, bytes: seq<Byte>, t: nat, wanted: Byte)
    requires |ram| == s.size && |bytes| == 4 && va + 4 <= REAL_LIMIT && SpanOk(s, Span(va, bytes))
    ensures AllWritable(s, va, |bytes|)
    ensures var after := StoreBytes(s, ram, va, bytes);
            LiveRead(s, NO_FRAME, after, t, 1) != Some([wanted])
            ==> RowsLive(s, Prober(va, bytes, t, wanted), OneJob(), 0, 3, ram, []) == None
  {
    hide LiveRead, StoreBytes, SpanOk, AllWritable;
    SpanWritable(s, Span(va, bytes));
    var r, c, start := Prober(va, bytes, t, wanted), CallAt(OneJob(), 0, 0), Live(ram, Span(0, []), 0);
    var next := LiveStore(s, start, va, bytes);
    var read := LiveRead(s, NO_FRAME, next.ram, t, 1);
    ProbeSteps(va, bytes, t, wanted, c, read);
    if read != Some([wanted]) {
      assert LiveCall(s, r, c, [Stored(true), Loaded(read)], 1, next, 4, 1) == None;
      assert LiveCall(s, r, c, [Stored(true)], 2, next, 4, 1) == LiveCall(s, r, c, [Stored(true)] + [Loaded(read)], 1, next, 4, 1);
      assert LiveCall(s, r, c, [], 3, start, 4, 1) == LiveCall(s, r, c, [] + [Stored(true)], 2, next, 4, 1);
      assert LiveChunks(s, r, OneJob(), 0, 0, 3, start) == None;
    }
  }

  /** What was stored last at a RAM byte is there. */
  lemma {:induction false} LastStored(s: Space, ram: seq<Byte>, va: nat, b: seq<Byte>, u: nat, x: Byte)
    requires |ram| == s.size && AllWritable(s, va, |b|) && va <= u < va + |b| && b[u - va] == x && Place(s, u).Some?
    requires forall w :: u < w < va + |b| && Place(s, w) == Place(s, u) ==> b[w - va] == x
    ensures StoreBytes(s, ram, va, b)[Place(s, u).value] == x
  {
    hide Place;
    var n := |b| - 1;
    assert Writable(s, va + n);
    if u < va + n {
      LastStored(s, ram, va, b[..n], u, x);
    }
  }

  /** A pixel's bytes: two everywhere but for a one at address `t`. */
  function Pixel(va: nat, t: nat): (b: seq<Byte>)
    ensures |b| == 4 && forall x :: 0 <= x < 4 ==> b[x] == if va + x == t then 1 else 2
  {
    seq(4, x => if va + x == t then 1 else 2)
  }

  /** A byte of a pixel that shows at a second address, not stored after it: reading there tells the two ways of writing apart. */
  lemma AliasTells(s: Space, va: nat, t: nat, u: nat)
    requires 0 < va && va + 4 <= REAL_LIMIT && AllWritable(s, va, 4) && va <= u < va + 4 && 0 < t < REAL_LIMIT
    requires Place(s, t) == Place(s, u) && (t < u || t >= va + 4)
    ensures exists ram: seq<Byte>, q, r, steps :: |ram| == s.size && Published(s, ram, q, r, steps) != Directly(s, ram, q, r, steps)
  {
    hide Place, StoreBytes, View, TexturedChunks, ImmediateRows, RowsLive;
    var zero: seq<Byte>, bytes := seq(s.size, o => 0), Pixel(va, t);
    var wanted: Byte := if va <= t then (if t < va + 4 then 1 else 0) else 0;
    var r := Prober(va, bytes, t, wanted);
    assert Writable(s, u);
    assert SpanOk(s, Span(va, bytes));
    LastStored(s, zero, va, bytes, u, 2);
    var after := StoreBytes(s, zero, va, bytes);
    ReadsOne(s, after, t);
    DirectProbe(s, zero, va, bytes, t, wanted);
    ZeroView(s, zero, t);
    var m := Patch(View(s, zero), va, bytes);
    assert m[t..t + 1] == [wanted];
    ShadowProbe(View(s, zero), Permits(s), va, bytes, t, wanted);
    ProbePublished(s, zero, va, bytes, t, wanted);
  }

  /** The two outcomes of a probe. */
  lemma ProbePublished(s: Space, ram: seq<Byte>, va: nat, bytes: seq<Byte>, t: nat, wanted: Byte)
    requires |ram| == s.size && |bytes| == 4 && va + 4 <= REAL_LIMIT && SpanOk(s, Span(va, bytes))
    requires ImmediateRows(Prober(va, bytes, t, wanted), OneJob(), 0, 3, View(s, ram), [], Permits(s)).Some?
    requires ImmediateRows(Prober(va, bytes, t, wanted), OneJob(), 0, 3, View(s, ram), [], Permits(s)).value.1 == [Span(va, bytes)]
    requires RowsLive(s, Prober(va, bytes, t, wanted), OneJob(), 0, 3, ram, []) == None
    ensures Published(s, ram, OnePixel(), Prober(va, bytes, t, wanted), 3).Some?
    ensures Directly(s, ram, OnePixel(), Prober(va, bytes, t, wanted), 3) == None
  {
    hide ImmediateRows, RowsLive, ChunksOf, View, SpanOk, Drawn, StoreSpans, JobOf, Prober;
    OnePixelJob(s, ram);
  }

  lemma ZeroView(s: Space, zero: seq<Byte>, t: nat)
    requires |zero| == s.size && (forall o :: 0 <= o < s.size ==> zero[o] == 0) && t < REAL_LIMIT
    ensures View(s, zero)[t] == 0
  {
  }

  lemma OnePixelJob(s: Space, ram: seq<Byte>)
    requires |ram| == s.size
    ensures Drawn(OnePixel().shape, OnePixel().clip) == Some(Bounds(0, 0, 1, 1))
    ensures JobOf(OnePixel(), Bounds(0, 0, 1, 1), ChunksOf(s, ram, OnePixel().ctx, OnePixel().mask, 1)) == OneJob()
  {
    hide *;
    OnePixelDrawn();
    OneChunk(s, ram, OnePixel().ctx, OnePixel().mask);
    JobOfPixel(OnePixel());
    OneFrame();
  }

  lemma OneChunk(s: Space, ram: seq<Byte>, ctx: nat, mask: nat)
    requires |ram| == s.size
    ensures ChunksOf(s, ram, ctx, mask, 1) == 1
  {
    hide TexturedChunks;
  }

  lemma OneFrame()
    ensures OneJob() == Job(0, 0, 1, 1, 1, OnePixel().frame)
  {
  }

  lemma OnePixelDrawn()
    ensures Drawn(OnePixel().shape, OnePixel().clip) == Some(Bounds(0, 0, 1, 1))
  {
  }

  /** Publishing rows together comes to the same RAM, rows and refusals as writing each where and when it is drawn, for every
      RAM, rectangle and renderer, exactly if no byte a pixel can be drawn to shows at a second address. */
  lemma SameIffSeenOnce(s: Space)
    ensures SeenOnce(s)
            <==> forall ram: seq<Byte>, q, r, steps: nat ::
                   |ram| == s.size ==> Published(s, ram, q, r, steps) == Directly(s, ram, q, r, steps)
  {
    hide Published, Directly, Place, AllWritable;
    if SeenOnce(s) {
      forall ram: seq<Byte>, q, r, steps: nat | |ram| == s.size
        ensures Published(s, ram, q, r, steps) == Directly(s, ram, q, r, steps)
      {
        SameIfSeenOnce(s, ram, q, r, steps);
      }
    } else {
      var va :| 0 < va && va + 4 <= REAL_LIMIT && AllWritable(s, va, 4) && !UnaliasedRange(s, va, 4);
      var k, j :| va <= k < va + 4 && 0 < j < REAL_LIMIT && Place(s, k).Some? && Place(s, j) == Place(s, k) && j != k;
      if va <= j < va + 4 && k < j {
        AliasTells(s, va, k, j);
      } else {
        AliasTells(s, va, j, k);
      }
    }
  }
}
