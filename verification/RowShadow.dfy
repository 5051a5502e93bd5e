/** Rows rendered through a shadow of memory, and rows whose every write lands in memory at once. */
module RowShadow {
  import opened Words
  import opened Spans

  const FAKE_STACK: nat := 0x7fff_d000
  const FAKE_START: nat := 0x7fff_d100
  const FAKE_DELTA: nat := 0x7fff_d200
  const CHUNK_MAX: nat := 256

  /** The synthetic call frame a row is rendered with. */
  datatype Frame = Frame(stack: seq<Byte>, start: seq<Byte>, delta: seq<Byte>)

  /** Which ranges the machine's own reader serves. */
  type Permit = (nat, nat) -> bool

  // ------------------------------------------------------------ Shadow reads

  /** OVERLAY: the part of a captured span that a request covers, copied over the requested bytes. */
  function Overlay(va: nat, request: seq<Byte>, s: Span): (r: seq<Byte>)
    ensures |r| == |request|
    ensures forall k :: 0 <= k < |request| ==>
              r[k] == if s.va <= va + k < s.va + |s.src| then s.src[va + k - s.va] else request[k]
  {
    seq(|request|, k requires 0 <= k < |request| => if s.va <= va + k < s.va + |s.src| then s.src[va + k - s.va] else request[k])
  }

  function Overlaid(va: nat, request: seq<Byte>, spans: seq<Span>): (r: seq<Byte>)
    ensures |r| == |request|
  {
    if spans == [] then request else Overlay(va, Overlaid(va, request, spans[..|spans| - 1]), spans[|spans| - 1])
  }

  /** Reading old bytes and overlaying every span in order is reading memory with the spans written. */
  lemma {:induction false} OverlaidIsWritten(m: Memory, spans: seq<Span>, va: nat, n: nat)
    requires Fits(spans) && va + n <= REAL_LIMIT
    ensures Overlaid(va, m[va..va + n], spans) == Written(m, spans)[va..va + n]
  {
    if spans != [] {
      OverlaidIsWritten(m, spans[..|spans| - 1], va, n);
    }
  }

  /** The part of the call frame a read falls into, if it lies wholly inside one of its three areas. */
  function FrameRead(f: Frame, va: nat, n: nat): Option<seq<Byte>> {
    if Contains(Span(FAKE_STACK, f.stack), va, n) then Some(f.stack[va - FAKE_STACK..va - FAKE_STACK + n])
    else if Contains(Span(FAKE_START, f.start), va, n) then Some(f.start[va - FAKE_START..va - FAKE_START + n])
    else if Contains(Span(FAKE_DELTA, f.delta), va, n) then Some(f.delta[va - FAKE_DELTA..va - FAKE_DELTA + n])
    else None
  }

  /** Which reads of real memory succeed: those captured whole, and those the machine's reader serves. */
  predicate Serves(prior: seq<Span>, current: Span, permit: Permit, va: nat, n: nat) {
    || (current.src != [] && Contains(current, va, n))
    || (!(current.src != [] && Overlap(current.va, |current.src|, va, n)) && exists i :: 0 <= i < |prior| && Contains(prior[i], va, n))
    || permit(va, n)
  }

  /** The reading rule of the row facade over a memory. */
  function ReadRule(f: Frame, prior: seq<Span>, current: Span, permit: Permit, now: Memory, va: nat, n: nat): Option<seq<Byte>> {
    if n == 0 then None
    else if FrameRead(f, va, n).Some? then FrameRead(f, va, n)
    else if va + n > REAL_LIMIT then None
    else if Serves(prior, current, permit, va, n) then Some(now[va..va + n])
    else None
  }

  /** The writing rule of the row facade: within the row's expected length and number of writes, contiguous. */
  predicate WriteRule(current: Span, writes: nat, expectedLen: nat, expectedWrites: nat, va: nat, n: nat) {
    && n > 0 && writes < expectedWrites
    && |current.src| <= expectedLen && n <= expectedLen - |current.src|
    && va + n <= REAL_LIMIT
    && (writes != 0 ==> va == current.va + |current.src|)
  }

  // ------------------------------------------------------------ Row renderers

  /** What a row renderer asks of its facade next, given the answers so far. */
  datatype Action = Load(va: nat, n: nat) | Store(va: nat, bytes: seq<Byte>) | Finish(ok: bool)

  datatype Answer = Loaded(data: Option<seq<Byte>>) | Stored(ok: bool)

  /** One call: position, length and frame. */
  datatype Call = Call(x: nat, y: nat, count: nat, frame: Frame)

  /** A deterministic renderer: any program over reads and writes. */
  type Renderer = (Call, seq<Answer>) -> Action

  // ------------------------------------------------------------ The reference: every write lands at once

  /** A row in progress under the reference: memory as it is now, what the row has written, and how often. */
  datatype Row = Row(now: Memory, span: Span, writes: nat)

  function Grown(s: Span, writes: nat, va: nat, bytes: seq<Byte>): Span {
    if writes == 0 then Span(va, s.src + bytes) else Span(s.va, s.src + bytes)
  }

  /** A renderer call of at most `steps` actions against live memory. */
  function ImmediateCall(r: Renderer, c: Call, past: seq<Answer>, steps: nat, row: Row, prior: seq<Span>, permit: Permit,
                         expectedLen: nat, expectedWrites: nat): Option<Row>
    decreases steps
  {
    if steps == 0 then None
    else
      match r(c, past)
      case Finish(ok) => if ok then Some(row) else None
      case Load(va, n) =>
        ImmediateCall(r, c, past + [Loaded(ReadRule(c.frame, prior, row.span, permit, row.now, va, n))], steps - 1, row, prior, permit,
                      expectedLen, expectedWrites)
      case Store(va, bytes) =>
        if WriteRule(row.span, row.writes, expectedLen, expectedWrites, va, |bytes|) then
          var next := Row(Patch(row.now, va, bytes), Grown(row.span, row.writes, va, bytes), row.writes + 1);
          ImmediateCall(r, c, past + [Stored(true)], steps - 1, next, prior, permit, expectedLen, expectedWrites)
        else ImmediateCall(r, c, past + [Stored(false)], steps - 1, row, prior, permit, expectedLen, expectedWrites)
  }

  /** A rectangle: where it starts, its size, in how many calls a row is rendered, and the frame of each call. */
  datatype Job = Job(x: nat, y: nat, width: nat, height: nat, chunks: nat, frame: (nat, nat) -> Frame)

  function ChunkAt(j: Job, offset: nat): nat
    requires offset <= j.width
  {
    if j.chunks > 1 && j.width - offset > CHUNK_MAX then CHUNK_MAX else j.width - offset
  }

  function CallAt(j: Job, row: nat, offset: nat): Call
    requires offset <= j.width
  {
    Call(j.x + offset, j.y + row, ChunkAt(j, offset), j.frame(row, offset))
  }

  function ImmediateChunks(r: Renderer, j: Job, row: nat, offset: nat, steps: nat, state: Row, prior: seq<Span>, permit: Permit): Option<Row>
    requires offset <= j.width
    decreases j.width - offset
  {
    if offset == j.width then Some(state)
    else
      match ImmediateCall(r, CallAt(j, row, offset), [], steps, state, prior, permit, j.width * 4, j.chunks)
      case None => None
      case Some(next) => ImmediateChunks(r, j, row, offset + ChunkAt(j, offset), steps, next, prior, permit)
  }

  /** One row: all its chunks, the expected number of writes and bytes, and no overlap with an earlier row. */
  function ImmediateRow(r: Renderer, j: Job, row: nat, steps: nat, now: Memory, prior: seq<Span>, permit: Permit): Option<Row> {
    match ImmediateChunks(r, j, row, 0, steps, Row(now, Span(0, []), 0), prior, permit)
    case None => None
    case Some(done) =>
      if done.writes != j.chunks || |done.span.src| != j.width * 4 then None
      else if exists i :: 0 <= i < |prior| && Overlap(done.span.va, |done.span.src|, prior[i].va, |prior[i].src|) then None
      else Some(done)
  }

  /** All rows from `row` on, each write landing in memory as it happens: the final memory and the spans written. */
  function ImmediateRows(r: Renderer, j: Job, row: nat, steps: nat, now: Memory, prior: seq<Span>, permit: Permit): Option<(Memory, seq<Span>)>
    requires row <= j.height
    decreases j.height - row
  {
    if row == j.height then Some((now, prior))
    else
      match ImmediateRow(r, j, row, steps, now, prior, permit)
      case None => None
      case Some(done) => ImmediateRows(r, j, row + 1, steps, done.now, prior + [done.span], permit)
  }

  // ------------------------------------------------------------ The shadow

  /** The row facade: completed rows and the current one in scratch, guest memory untouched behind it. */
  class Shadow {
    const guest: Memory
    const permit: Permit
    const prior: seq<Span>
    const expectedLen: nat
    const expectedWrites: nat
    var writeVa: nat
    var pixels: seq<Byte>
    var writes: nat

    ghost predicate Valid()
      reads this
    {
      && Fits(prior) && Disjoint(prior)
      && writeVa + |pixels| <= REAL_LIMIT
      && (writes == 0 <==> pixels == [])
    }

    function Current(): Span
      reads this
    {
      Span(writeVa, pixels)
    }

    /** Memory as the row sees it: earlier rows and the current row's finished chunks written. */
    ghost function Now(): Memory
      requires Valid()
      reads this
    {
      Written(guest, prior + [Current()])
    }

    constructor (guest: Memory, permit: Permit, prior: seq<Span>, expectedLen: nat, expectedWrites: nat)
      requires Fits(prior) && Disjoint(prior)
      ensures Valid() && writes == 0 && Current() == Span(0, [])
      ensures this.guest == guest && this.permit == permit && this.prior == prior
      ensures this.expectedLen == expectedLen && this.expectedWrites == expectedWrites
    {
      this.guest, this.permit, this.prior, this.expectedLen, this.expectedWrites := guest, permit, prior, expectedLen, expectedWrites;
      writeVa, pixels, writes := 0, [], 0;
    }

    /** Earlier rows, in order: one that holds the whole range before any that holds part of it. */
    method SearchPrior(va: nat, n: nat, current: bool) returns (found: Option<seq<Byte>>, overlaps: bool)
      requires Valid() && n > 0
      requires current <==> Touched(prior, Current(), 0, va, n)
      ensures found.Some? ==> va + n <= REAL_LIMIT && found.value == Now()[va..va + n] && Serves(prior, Current(), permit, va, n)
      ensures found.None? ==> (overlaps <==> Touched(prior, Current(), |prior|, va, n))
                              && forall k :: 0 <= k < |prior| && Contains(prior[k], va, n) ==> Touched(prior, Current(), k, va, n)
    {
      overlaps := current;
      for i := 0 to |prior|
        invariant overlaps <==> Touched(prior, Current(), i, va, n)
        invariant forall k :: 0 <= k < i && Contains(prior[k], va, n) ==> Touched(prior, Current(), k, va, n)
      {
        if !overlaps && Contains(prior[i], va, n) {
          PriorCovers(guest, prior, Current(), i, va, n);
          return Some(prior[i].src[va - prior[i].va..va - prior[i].va + n]), overlaps;
        }
        if Overlap(prior[i].va, |prior[i].src|, va, n) {
          overlaps := true;
        }
      }
      return None, overlaps;
    }

    /** A shadow read is a read of memory with everything captured so far written. */
    method Read(f: Frame, va: nat, n: nat) returns (data: Option<seq<Byte>>)
      requires Valid()
      ensures data == ReadRule(f, prior, Current(), permit, Now(), va, n)
    {
      if n == 0 {
        return None;
      }
      if FrameRead(f, va, n).Some? {
        return FrameRead(f, va, n);
      }
      if va + n > REAL_LIMIT {
        return None;
      }
      var overlaps := false;
      if pixels != [] {
        if Contains(Current(), va, n) {
          CurrentCovers(guest, prior, Current(), va, n);
          return Some(pixels[va - writeVa..va - writeVa + n]);
        }
        overlaps := Overlap(writeVa, |pixels|, va, n);
      }
      var found: Option<seq<Byte>>;
      found, overlaps := SearchPrior(va, n, overlaps);
      if found.Some? {
        return found;
      }
      NoneWhole(prior, Current(), va, n);
      if !permit(va, n) {
        return None;
      }
      var bytes := guest[va..va + n];
      if !overlaps {
        Untouched(guest, prior, Current(), va, n);
        return Some(bytes);
      }
      OverlaidIsWritten(guest, prior + [Current()], va, n);
      bytes := OverlayAll(va, bytes, prior);
      assert (prior + [Current()])[..|prior|] == prior;
      if pixels != [] {
        bytes := Overlay(va, bytes, Current());
      } else {
        assert Overlay(va, bytes, Current()) == bytes;
      }
      return Some(bytes);
    }

    /** A shadow write extends the row's captured bytes, or is refused without a change. */
    method Write(va: nat, bytes: seq<Byte>) returns (ok: bool)
      requires Valid()
      modifies this
      ensures Valid()
      ensures ok <==> WriteRule(old(Current()), old(writes), expectedLen, expectedWrites, va, |bytes|)
      ensures ok ==> Current() == Grown(old(Current()), old(writes), va, bytes) && writes == old(writes) + 1
                     && Now() == Patch(old(Now()), va, bytes)
      ensures !ok ==> Current() == old(Current()) && writes == old(writes)
    {
      if bytes == [] || writes >= expectedWrites || |pixels| > expectedLen || |bytes| > expectedLen - |pixels| || va + |bytes| > REAL_LIMIT {
        return false;
      }
      if writes != 0 && va != writeVa + |pixels| {
        return false;
      }
      GrowsLikePatch(guest, prior, Current(), writes, va, bytes);
      if writes == 0 {
        writeVa := va;
      }
      pixels := pixels + bytes;
      writes := writes + 1;
      return true;
    }
  }

  method OverlayAll(va: nat, request: seq<Byte>, spans: seq<Span>) returns (r: seq<Byte>)
    ensures r == Overlaid(va, request, spans)
  {
    r := request;
    for i := 0 to |spans|
      invariant r == Overlaid(va, request, spans[..i])
    {
      assert spans[..i + 1][..i] == spans[..i];
      r := Overlay(va, r, spans[i]);
    }
    assert spans[..|spans|] == spans;
  }

  lemma FitsMore(prior: seq<Span>, c: Span)
    requires Fits(prior) && c.va + |c.src| <= REAL_LIMIT
    ensures Fits(prior + [c])
  {
  }

  lemma CurrentCovers(m: Memory, prior: seq<Span>, c: Span, va: nat, n: nat)
    requires Fits(prior) && c.va + |c.src| <= REAL_LIMIT && Contains(c, va, n)
    ensures Fits(prior + [c]) && va + n <= REAL_LIMIT
    ensures Written(m, prior + [c])[va..va + n] == c.src[va - c.va..va - c.va + n]
  {
    FitsMore(prior, c);
    assert (prior + [c])[..|prior|] == prior;
    var w := Written(m, prior + [c]);
    forall k | va <= k < va + n
      ensures w[k] == c.src[k - c.va]
    {
    }
    assert w[va..va + n] == c.src[va - c.va..va - c.va + n];
  }

  /** No later row, nor the row in progress, holds a byte of a range that one earlier row holds. */
  lemma LaterMisses(prior: seq<Span>, c: Span, i: nat, va: nat, n: nat, k: nat)
    requires Disjoint(prior) && i < |prior| && Contains(prior[i], va, n) && va <= k < va + n
    requires c.src == [] || !Overlap(c.va, |c.src|, va, n)
    ensures var all := prior + [c];
            forall j :: i < j < |all| ==> !(all[j].va <= k < all[j].va + |all[j].src|)
  {
    var all := prior + [c];
    forall j | i < j < |all|
      ensures !(all[j].va <= k < all[j].va + |all[j].src|)
    {
      if j < |prior| {
        assert !Overlap(prior[j].va, |prior[j].src|, prior[i].va, |prior[i].src|);
      }
    }
  }

  lemma PriorCovers(m: Memory, prior: seq<Span>, c: Span, i: nat, va: nat, n: nat)
    requires Fits(prior) && Disjoint(prior) && c.va + |c.src| <= REAL_LIMIT && i < |prior| && Contains(prior[i], va, n)
    requires c.src == [] || !Overlap(c.va, |c.src|, va, n)
    ensures Fits(prior + [c]) && va + n <= REAL_LIMIT
    ensures Written(m, prior + [c])[va..va + n] == prior[i].src[va - prior[i].va..va - prior[i].va + n]
  {
    FitsMore(prior, c);
    var all := prior + [c];
    var w := Written(m, all);
    forall k | va <= k < va + n
      ensures w[k] == prior[i].src[k - prior[i].va]
    {
      LaterMisses(prior, c, i, va, n, k);
      CoveredByte(m, all, i, k);
    }
    assert w[va..va + n] == prior[i].src[va - prior[i].va..va - prior[i].va + n];
  }

  /** What the scan of earlier rows has found when it reaches row `i`: an overlap so far, with the range or by the row in progress. */
  ghost predicate Touched(prior: seq<Span>, c: Span, i: nat, va: nat, n: nat) {
    || (c.src != [] && Overlap(c.va, |c.src|, va, n))
    || exists k :: 0 <= k < i && k < |prior| && Overlap(prior[k].va, |prior[k].src|, va, n)
  }

  /** A range inside one row overlaps no other row, so once the scan has passed every row it was inside none of them. */
  lemma NoneWhole(prior: seq<Span>, c: Span, va: nat, n: nat)
    requires Disjoint(prior) && n > 0
    requires forall i :: 0 <= i < |prior| && Contains(prior[i], va, n) ==> Touched(prior, c, i, va, n)
    ensures !(c.src != [] && Overlap(c.va, |c.src|, va, n)) ==> forall i :: 0 <= i < |prior| ==> !Contains(prior[i], va, n)
  {
  }

  lemma Untouched(m: Memory, prior: seq<Span>, c: Span, va: nat, n: nat)
    requires Fits(prior) && c.va + |c.src| <= REAL_LIMIT && va + n <= REAL_LIMIT
    requires c.src == [] || !Overlap(c.va, |c.src|, va, n)
    requires forall k :: 0 <= k < |prior| ==> !Overlap(prior[k].va, |prior[k].src|, va, n)
    ensures Fits(prior + [c])
    ensures Written(m, prior + [c])[va..va + n] == m[va..va + n]
  {
    FitsMore(prior, c);
    var all := prior + [c];
    var w := Written(m, all);
    forall k | va <= k < va + n
      ensures w[k] == m[k]
    {
      UncoveredByte(m, all, k);
    }
    assert w[va..va + n] == m[va..va + n];
  }

  /** Capturing contiguous bytes is patching memory. */
  lemma GrowsLikePatch(m: Memory, prior: seq<Span>, c: Span, writes: nat, va: nat, bytes: seq<Byte>)
    requires Fits(prior) && c.va + |c.src| <= REAL_LIMIT && va + |bytes| <= REAL_LIMIT
    requires writes == 0 <==> c.src == []
    requires writes != 0 ==> va == c.va + |c.src|
    ensures Fits(prior + [c]) && Fits(prior + [Grown(c, writes, va, bytes)])
    ensures Written(m, prior + [Grown(c, writes, va, bytes)]) == Patch(Written(m, prior + [c]), va, bytes)
  {
    var g := Grown(c, writes, va, bytes);
    FitsMore(prior, c);
    FitsMore(prior, g);
    assert (prior + [c])[..|prior|] == prior && (prior + [g])[..|prior|] == prior;
    var w := Written(m, prior);
    assert Patch(w, g.va, g.src) == Patch(Patch(w, c.va, c.src), va, bytes);
  }

  // ------------------------------------------------------------ Rendering through the shadow

  /** One renderer call through the shadow goes as the same call against live memory. */
  method ShadowCall(s: Shadow, r: Renderer, c: Call, steps: nat) returns (ok: bool)
    requires s.Valid()
    modifies s
    ensures s.Valid()
    ensures ImmediateCall(r, c, [], steps, Row(old(s.Now()), old(s.Current()), old(s.writes)), s.prior, s.permit, s.expectedLen, s.expectedWrites)
            == if ok then Some(Row(s.Now(), s.Current(), s.writes)) else None
  {
    hide ReadRule, WriteRule, Written;
    ghost var all := ImmediateCall(r, c, [], steps, Row(s.Now(), s.Current(), s.writes), s.prior, s.permit, s.expectedLen, s.expectedWrites);
    var past: seq<Answer> := [];
    var left := steps;
    while left > 0
      invariant s.Valid()
      invariant all == ImmediateCall(r, c, past, left, Row(s.Now(), s.Current(), s.writes), s.prior, s.permit, s.expectedLen, s.expectedWrites)
      decreases left
    {
      match r(c, past) {
        case Finish(done) => return done;
        case Load(va, n) =>
          var data := s.Read(c.frame, va, n);
          past := past + [Loaded(data)];
        case Store(va, bytes) =>
          var stored := s.Write(va, bytes);
          past := past + [Stored(stored)];
      }
      left := left - 1;
    }
    return false;
  }

  /** One row into scratch. */
  method RenderRow(guest: Memory, permit: Permit, r: Renderer, j: Job, row: nat, steps: nat, prior: seq<Span>)
    returns (span: Option<Span>)
    requires Fits(prior) && Disjoint(prior)
    ensures span.Some? ==> Fits(prior + [span.value]) && Disjoint(prior + [span.value])
    ensures ImmediateRow(r, j, row, steps, Written(guest, prior), prior, permit)
            == match span
               case None => None
               case Some(p) => Some(Row(Written(guest, prior + [p]), p, j.chunks))
  {
    hide ImmediateCall;
    var s := new Shadow(guest, permit, prior, j.width * 4, j.chunks);
    NothingCaptured(guest, prior);
    ghost var all := ImmediateChunks(r, j, row, 0, steps, Row(Written(guest, prior), Span(0, []), 0), prior, permit);
    var offset := 0;
    while offset < j.width
      invariant 0 <= offset <= j.width && fresh(s) && s.Valid() && s.guest == guest && s.permit == permit && s.prior == prior
      invariant s.expectedLen == j.width * 4 && s.expectedWrites == j.chunks
      invariant all == ImmediateChunks(r, j, row, offset, steps, Row(s.Now(), s.Current(), s.writes), prior, permit)
    {
      var ok := ShadowCall(s, r, CallAt(j, row, offset), steps);
      if !ok {
        return None;
      }
      offset := offset + ChunkAt(j, offset);
    }
    if s.writes != j.chunks || |s.pixels| != j.width * 4 {
      return None;
    }
    var clash := Clashes(s.Current(), prior);
    if clash {
      return None;
    }
    return Some(s.Current());
  }

  lemma NothingCaptured(guest: Memory, prior: seq<Span>)
    requires Fits(prior)
    ensures Fits(prior + [Span(0, [])]) && Written(guest, prior + [Span(0, [])]) == Written(guest, prior)
  {
    assert (prior + [Span(0, [])])[..|prior|] == prior;
    var w := Written(guest, prior);
    assert Patch(w, 0, []) == w;
  }

  method Clashes(c: Span, prior: seq<Span>) returns (clash: bool)
    ensures clash <==> exists i :: 0 <= i < |prior| && Overlap(c.va, |c.src|, prior[i].va, |prior[i].src|)
  {
    for i := 0 to |prior|
      invariant forall k :: 0 <= k < i ==> !Overlap(c.va, |c.src|, prior[k].va, |prior[k].src|)
    {
      if Overlap(c.va, |c.src|, prior[i].va, |prior[i].src|) {
        return true;
      }
    }
    return false;
  }
}
