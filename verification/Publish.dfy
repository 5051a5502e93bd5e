/** The machine's user-memory reader and vectored writer, and the oracle that captures a vectored write instead. */
module Publish {
  import opened Words
  import opened Spans

  const MMU_CHUNK: nat := 1024
  const ADDRESS_SPACE: nat := 0x1_0000_0000
  const MAX_SPANS: nat := 480
  const MAX_BYTES: nat := 614400

  // ------------------------------------------------------------ Translation

  /** Where a one-kibibyte block of user addresses is mapped, and whether user mode may write it. */
  datatype Mapping = Mapping(pa: nat, writable: bool)

  /** User-mode translation of the readable blocks. */
  type Mmu = nat -> Option<Mapping>

  /** The guest's DRAM window and translation. */
  datatype Space = Space(mmu: Mmu, base: nat, size: nat)

  /** The RAM byte behind a user address. */
  function Place(s: Space, va: nat): (o: Option<nat>)
    ensures o.Some? ==> o.value < s.size
  {
    match s.mmu(va / MMU_CHUNK)
    case None => None
    case Some(m) =>
      var pa := m.pa + va % MMU_CHUNK;
      if pa < s.base || pa - s.base >= s.size then None else Some(pa - s.base)
  }

  predicate Writable(s: Space, va: nat) {
    Place(s, va).Some? && s.mmu(va / MMU_CHUNK).value.writable
  }

  predicate Readable(s: Space, va: nat, n: nat) {
    n > 0 && va != 0 && va + n <= ADDRESS_SPACE && forall k :: va <= k < va + n ==> Place(s, k).Some?
  }

  /** What a vectored write accepts. */
  predicate Publishable(s: Space, spans: seq<Span>) {
    && 0 < |spans| <= MAX_SPANS
    && forall i :: 0 <= i < |spans| ==> SpanOk(s, spans[i])
  }

  predicate SpanOk(s: Space, p: Span) {
    p.src != [] && p.va != 0 && p.va + |p.src| <= ADDRESS_SPACE && AllWritable(s, p.va, |p.src|)
  }

  predicate AllWritable(s: Space, va: nat, n: nat) { forall k :: va <= k < va + n ==> Writable(s, k) }

  function Shown(s: Space, ram: seq<Byte>, va: nat): Byte
    requires |ram| == s.size
  {
    match Place(s, va) case None => 0 case Some(o) => ram[o]
  }

  /** User memory as its addresses show it; address zero and an address without RAM are zero here and served by no reader. */
  function View(s: Space, ram: seq<Byte>): (m: Memory)
    requires |ram| == s.size
  {
    seq(REAL_LIMIT, va requires 0 <= va < REAL_LIMIT => if va == 0 then 0 else Shown(s, ram, va))
  }

  /** What a user read gives. */
  function ReadSpace(s: Space, ram: seq<Byte>, va: nat, n: nat): (data: Option<seq<Byte>>)
    requires |ram| == s.size
    ensures data.Some? ==> |data.value| == n && forall k :: 0 <= k < n ==> data.value[k] == Shown(s, ram, va + k)
  {
    if Readable(s, va, n) then
      Some(seq<Byte>(n, k requires 0 <= k < n => Shown(s, ram, va + k)))
    else None
  }

  /** A user read of real memory shows the view. */
  lemma ReadIsView(s: Space, ram: seq<Byte>, va: nat, n: nat)
    requires |ram| == s.size && va + n <= REAL_LIMIT
    ensures ReadSpace(s, ram, va, n) == if Readable(s, va, n) then Some(View(s, ram)[va..va + n]) else None
  {
    hide Place, Shown;
    if Readable(s, va, n) {
      assert ReadSpace(s, ram, va, n).value == View(s, ram)[va..va + n];
    }
  }

  // ------------------------------------------------------------ The meaning of a vectored write

  /** RAM after storing bytes one by one, each through its own translation. */
  function StoreBytes(s: Space, ram: seq<Byte>, va: nat, b: seq<Byte>): (r: seq<Byte>)
    requires |ram| == s.size && AllWritable(s, va, |b|)
    ensures |r| == |ram|
  {
    if b == [] then ram
    else
      var n := |b| - 1;
      assert Writable(s, va + n);
      StoreBytes(s, ram, va, b[..n])[Place(s, va + n).value := b[n]]
  }

  function StoreSpans(s: Space, ram: seq<Byte>, spans: seq<Span>): (r: seq<Byte>)
    requires |ram| == s.size && forall i :: 0 <= i < |spans| ==> AllWritable(s, spans[i].va, |spans[i].src|)
    ensures |r| == |ram|
  {
    if spans == [] then ram
    else
      var n := |spans| - 1;
      StoreBytes(s, StoreSpans(s, ram, spans[..n]), spans[n].va, spans[n].src)
  }

  /** No other address shows a byte of the range; address zero is never accessed. */
  ghost predicate UnaliasedRange(s: Space, va: nat, n: nat) {
    forall k, j :: va <= k < va + n && 0 < j < REAL_LIMIT && Place(s, k).Some? && Place(s, j) == Place(s, k) ==> j == k
  }

  ghost predicate Unaliased(s: Space, spans: seq<Span>) {
    forall i :: 0 <= i < |spans| ==> UnaliasedRange(s, spans[i].va, |spans[i].src|)
  }

  lemma {:induction false} StoredView(s: Space, ram: seq<Byte>, va: nat, b: seq<Byte>)
    requires |ram| == s.size && AllWritable(s, va, |b|) && UnaliasedRange(s, va, |b|) && 0 < va && va + |b| <= REAL_LIMIT
    ensures View(s, StoreBytes(s, ram, va, b)) == Patch(View(s, ram), va, b)
  {
    hide Place, View;
    if b == [] {
      assert Patch(View(s, ram), va, []) == View(s, ram);
    } else {
      var n := |b| - 1;
      assert Writable(s, va + n);
      StoredView(s, ram, va, b[..n]);
      StoredByte(s, StoreBytes(s, ram, va, b[..n]), va + n, b[n]);
      var m := View(s, ram);
      assert Patch(m, va, b) == Patch(m, va, b[..n])[va + n := b[n]];
    }
  }

  lemma StoredByte(s: Space, ram: seq<Byte>, va: nat, x: Byte)
    requires |ram| == s.size && Writable(s, va) && 0 < va < REAL_LIMIT
    requires forall j :: 0 < j < REAL_LIMIT && Place(s, j) == Place(s, va) ==> j == va
    ensures View(s, ram[Place(s, va).value := x]) == View(s, ram)[va := x]
  {
    hide Place;
  }

  /** Spans that a vectored write can store below the limit of real memory. */
  predicate Storable(s: Space, spans: seq<Span>) {
    forall i :: 0 <= i < |spans| ==> SpanOk(s, spans[i]) && spans[i].va + |spans[i].src| <= REAL_LIMIT
  }

  lemma StorableFits(s: Space, spans: seq<Span>)
    requires Storable(s, spans)
    ensures Fits(spans) && forall i :: 0 <= i < |spans| ==> AllWritable(s, spans[i].va, |spans[i].src|)
  {
    hide AllWritable;
  }

  /** Published spans show as memory with the spans written, provided no address outside them shows their bytes. */
  lemma {:induction false} PublishedView(s: Space, ram: seq<Byte>, spans: seq<Span>)
    requires |ram| == s.size && Storable(s, spans) && Unaliased(s, spans)
    ensures Fits(spans) && forall i :: 0 <= i < |spans| ==> AllWritable(s, spans[i].va, |spans[i].src|)
    ensures View(s, StoreSpans(s, ram, spans)) == Written(View(s, ram), spans)
  {
    hide View, AllWritable, UnaliasedRange;
    StorableFits(s, spans);
    if spans != [] {
      var n := |spans| - 1;
      PublishedView(s, ram, spans[..n]);
      StoredView(s, StoreSpans(s, ram, spans[..n]), spans[n].va, spans[n].src);
    }
  }

  /** The same addresses and lengths, whatever the bytes. */
  predicate SameShape(a: seq<Span>, b: seq<Span>) {
    |a| == |b| && forall i :: 0 <= i < |a| ==> a[i].va == b[i].va && |a[i].src| == |b[i].src|
  }

  lemma ShapeStorable(s: Space, a: seq<Span>, b: seq<Span>)
    requires SameShape(a, b) && Storable(s, a)
    ensures Storable(s, b) && (Unaliased(s, a) <==> Unaliased(s, b))
  {
    hide AllWritable, UnaliasedRange;
  }

  /** Does publishing spans show as flat memory with the spans written? */
  ghost predicate ShowsFlat(s: Space, ram: seq<Byte>, spans: seq<Span>)
    requires |ram| == s.size && Storable(s, spans)
  {
    StorableFits(s, spans);
    View(s, StoreSpans(s, ram, spans)) == Written(View(s, ram), spans)
  }

  /** Publishing shows as flat memory, whatever RAM and the bytes were, exactly if no written byte shows at a second address. */
  lemma PublishedIff(s: Space, spans: seq<Span>)
    requires Storable(s, spans)
    ensures Unaliased(s, spans)
            <==> forall ram, other :: |ram| == s.size && SameShape(spans, other) && Storable(s, other) ==> ShowsFlat(s, ram, other)
  {
    hide View, UnaliasedRange, AllWritable;
    if Unaliased(s, spans) {
      forall ram: seq<Byte>, other | |ram| == s.size && SameShape(spans, other) && Storable(s, other)
        ensures ShowsFlat(s, ram, other)
      {
        ShapeStorable(s, spans, other);
        PublishedView(s, ram, other);
      }
    } else {
      var i, k, j := Alias(s, spans);
      var zero: seq<Byte> := seq(s.size, o => 0);
      MarkedStorable(s, spans, k);
      AliasShows(s, zero, spans, i, k, j);
      assert SameShape(spans, Marked(spans, k));
    }
  }

  /** Where a written byte shows a second time. */
  lemma Alias(s: Space, spans: seq<Span>) returns (i: nat, k: nat, j: nat)
    requires Storable(s, spans) && !Unaliased(s, spans)
    ensures i < |spans| && spans[i].va <= k < spans[i].va + |spans[i].src| && 0 < j < REAL_LIMIT && j != k
    ensures 0 < k < REAL_LIMIT && Place(s, k).Some? && Place(s, j) == Place(s, k)
  {
    hide Place, AllWritable;
    i :| i < |spans| && !UnaliasedRange(s, spans[i].va, |spans[i].src|);
    assert SpanOk(s, spans[i]);
    k, j :| spans[i].va <= k < spans[i].va + |spans[i].src| && 0 < j < REAL_LIMIT && Place(s, k).Some?
            && Place(s, j) == Place(s, k) && j != k;
  }

  /** Spans of zeros but for a one at every byte for address `k`. */
  function Marked(spans: seq<Span>, k: nat): (r: seq<Span>)
    ensures SameShape(spans, r)
    ensures forall i, x :: 0 <= i < |r| && 0 <= x < |r[i].src| ==> r[i].src[x] == if r[i].va + x == k then 1 else 0
  {
    seq(|spans|, i requires 0 <= i < |spans| =>
          Span(spans[i].va, seq(|spans[i].src|, x requires 0 <= x < |spans[i].src| => if spans[i].va + x == k then 1 else 0)))
  }

  lemma MarkedStorable(s: Space, spans: seq<Span>, k: nat)
    requires Storable(s, spans)
    ensures Storable(s, Marked(spans, k))
  {
    ShapeStorable(s, spans, Marked(spans, k));
  }

  lemma MarkedFront(spans: seq<Span>, k: nat)
    requires spans != []
    ensures Marked(spans, k)[..|spans| - 1] == Marked(spans[..|spans| - 1], k)
  {
  }

  /** Written over zeros, marked spans give one at the marked address if they reach it, and zero elsewhere. */
  lemma {:induction false} MarkedWritten(m: Memory, spans: seq<Span>, k: nat, a: nat)
    requires Fits(spans) && a < REAL_LIMIT && m[a] == 0 && SameShape(Marked(spans, k), spans) && Fits(Marked(spans, k))
    ensures Written(m, Marked(spans, k))[a] == 1
            <==> a == k && exists i :: 0 <= i < |spans| && spans[i].va <= k < spans[i].va + |spans[i].src|
    ensures Written(m, Marked(spans, k))[a] in {0, 1}
  {
    hide Marked;
    if spans != [] {
      var n := |spans| - 1;
      MarkedFront(spans, k);
      MarkedWritten(m, spans[..n], k, a);
    }
  }

  /** A byte shown twice reads back alike at both addresses, where flat memory would keep them apart. */
  lemma AliasShows(s: Space, zero: seq<Byte>, spans: seq<Span>, i: nat, k: nat, j: nat)
    requires |zero| == s.size && (forall o :: 0 <= o < s.size ==> zero[o] == 0) && Storable(s, spans) && Storable(s, Marked(spans, k))
    requires i < |spans| && spans[i].va <= k < spans[i].va + |spans[i].src| && 0 < j < REAL_LIMIT && j != k
    requires 0 < k < REAL_LIMIT && Place(s, k).Some? && Place(s, j) == Place(s, k)
    ensures !ShowsFlat(s, zero, Marked(spans, k))
  {
    hide StoreSpans, Storable;
    var marked := Marked(spans, k);
    StorableFits(s, spans);
    StorableFits(s, marked);
    MarkedWritten(View(s, zero), spans, k, k);
    MarkedWritten(View(s, zero), spans, k, j);
    var after := View(s, StoreSpans(s, zero, marked));
    assert after[j] == after[k];
  }

  // ------------------------------------------------------------ Chunks

  function Chunk(va: nat, remaining: nat): (n: nat)
    ensures n <= remaining && va % MMU_CHUNK + n <= MMU_CHUNK && (remaining > 0 ==> n > 0)
  {
    if remaining < MMU_CHUNK - va % MMU_CHUNK then remaining else MMU_CHUNK - va % MMU_CHUNK
  }

  /** The bytes of a chunk are translated together: its first byte in RAM and its length decide for all. */
  lemma ChunkPlaced(s: Space, va: nat, n: nat)
    requires n > 0 && va % MMU_CHUNK + n <= MMU_CHUNK
    ensures forall k :: va <= k < va + n ==> k / MMU_CHUNK == va / MMU_CHUNK && k % MMU_CHUNK == va % MMU_CHUNK + (k - va)
    ensures (forall k :: va <= k < va + n ==> Place(s, k).Some?)
            <==> var m := s.mmu(va / MMU_CHUNK);
                 m.Some? && var pa := m.value.pa + va % MMU_CHUNK; pa >= s.base && pa - s.base + n <= s.size
    ensures Place(s, va).Some? ==> forall k :: va <= k < va + n && Place(s, k).Some? ==> Place(s, k).value == Place(s, va).value + (k - va)
  {
    forall k | va <= k < va + n
      ensures k / MMU_CHUNK == va / MMU_CHUNK && k % MMU_CHUNK == va % MMU_CHUNK + (k - va)
    {
      SameChunk(va, k);
    }
    if forall k :: va <= k < va + n ==> Place(s, k).Some? {
      assert Place(s, va).Some? && Place(s, va + n - 1).Some?;
    }
  }

  lemma SameChunk(va: nat, k: nat)
    requires va <= k && va % MMU_CHUNK + (k - va) < MMU_CHUNK
    ensures k / MMU_CHUNK == va / MMU_CHUNK && k % MMU_CHUNK == va % MMU_CHUNK + (k - va)
  {
    var q: int, r: int := va / 1024, va % 1024;
    assert k == 1024 * q + (r + (k - va));
  }

  /** Storing a chunk byte by byte is one copy. */
  lemma {:induction false} ChunkStored(s: Space, ram: seq<Byte>, va: nat, b: seq<Byte>, o: nat)
    requires |ram| == s.size && AllWritable(s, va, |b|) && o + |b| <= |ram|
    requires forall k :: va <= k < va + |b| ==> Place(s, k) == Some(o + (k - va))
    ensures StoreBytes(s, ram, va, b) == ram[..o] + b + ram[o + |b|..]
  {
    hide Writable, Place;
    if b == [] {
      assert ram[..o] + [] + ram[o..] == ram;
    } else {
      var n := |b| - 1;
      ChunkStored(s, ram, va, b[..n], o);
      assert Place(s, va + n) == Some(o + n);
    }
  }

  lemma {:induction false} StoreJoin(s: Space, ram: seq<Byte>, va: nat, a: seq<Byte>, b: seq<Byte>)
    requires |ram| == s.size && AllWritable(s, va, |a| + |b|)
    ensures AllWritable(s, va, |a|) && AllWritable(s, va + |a|, |b|) && AllWritable(s, va, |a + b|)
    ensures StoreBytes(s, ram, va, a + b) == StoreBytes(s, StoreBytes(s, ram, va, a), va + |a|, b)
  {
    hide Writable, Place;
    if b == [] {
      assert a + b == a;
    } else {
      var n := |b| - 1;
      StoreJoin(s, ram, va, a, b[..n]);
      assert (a + b)[..|a + b| - 1] == a + b[..n];
    }
  }

  // ------------------------------------------------------------ The machine

  class Machine {
    const ram: array<Byte>
    const base: nat
    const mmu: Mmu

    constructor (ram: array<Byte>, base: nat, mmu: Mmu)
      ensures this.ram == ram && this.base == base && this.mmu == mmu
    {
      this.ram, this.base, this.mmu := ram, base, mmu;
    }

    function Here(): Space { Space(mmu, base, ram.Length) }

    /** Reading user memory, one mapping interval at a time. */
    method Read(va: nat, n: nat) returns (data: Option<seq<Byte>>)
      ensures data == ReadSpace(Here(), ram[..], va, n)
    {
      if n == 0 || va == 0 || va + n > ADDRESS_SPACE {
        return None;
      }
      var out: seq<Byte> := [];
      while |out| < n
        invariant |out| <= n && forall k :: va <= k < va + |out| ==> Place(Here(), k).Some?
        invariant forall k :: 0 <= k < |out| ==> out[k] == Shown(Here(), ram[..], va + k)
        decreases n - |out|
      {
        var current := va + |out|;
        var chunk := Chunk(current, n - |out|);
        ChunkPlaced(Here(), current, chunk);
        var m := mmu(current / MMU_CHUNK);
        if m.None? {
          return None;
        }
        var pa := m.value.pa + current % MMU_CHUNK;
        if pa < base || pa - base + chunk > ram.Length {
          return None;
        }
        assert Place(Here(), current) == Some(pa - base);
        ghost var past := |out|;
        out := out + ram[pa - base..pa - base + chunk];
        forall k | past <= k < past + chunk
          ensures out[k] == Shown(Here(), ram[..], va + k)
        {
          assert Place(Here(), va + k) == Some(pa - base + (k - past));
        }
      }
      data := Some(out);
      assert out == ReadSpace(Here(), ram[..], va, n).value;
    }

    /** The first pass over one span: every interval must be writable RAM. */
    method Preflight(p: Span) returns (ok: bool)
      ensures ok <==> SpanOk(Here(), p)
    {
      if p.src == [] || p.va == 0 || p.va + |p.src| > ADDRESS_SPACE {
        return false;
      }
      var done: nat := 0;
      while done < |p.src|
        invariant done <= |p.src| && AllWritable(Here(), p.va, done)
      {
        var current := p.va + done;
        var chunk := Chunk(current, |p.src| - done);
        ChunkPlaced(Here(), current, chunk);
        var m := mmu(current / MMU_CHUNK);
        if m.None? || !m.value.writable {
          assert !Writable(Here(), current);
          return false;
        }
        var pa := m.value.pa + current % MMU_CHUNK;
        if pa < base || pa - base + chunk > ram.Length {
          var k :| current <= k < current + chunk && Place(Here(), k).None?;
          assert !Writable(Here(), k);
          return false;
        }
        done := done + chunk;
      }
      return true;
    }

    /** The second pass over one span. */
    method Store(p: Span)
      requires SpanOk(Here(), p)
      modifies ram
      ensures ram[..] == StoreBytes(Here(), old(ram[..]), p.va, p.src)
    {
      hide StoreBytes, Place;
      ghost var before := ram[..];
      var done: nat := 0;
      assert p.src[..0] == [];
      NothingStored(Here(), before, p.va);
      while done < |p.src|
        invariant done <= |p.src| && ram[..] == StoreBytes(Here(), before, p.va, p.src[..done])
      {
        var current := p.va + done;
        var chunk := Chunk(current, |p.src| - done);
        assert p.src[..done + chunk] == p.src[..done] + p.src[done..done + chunk];
        StoreJoin(Here(), before, p.va, p.src[..done], p.src[done..done + chunk]);
        Copy(current, p.src[done..done + chunk]);
        done := done + chunk;
      }
      assert p.src[..|p.src|] == p.src;
    }

    /** One copy inside a mapping interval. */
    method Copy(va: nat, b: seq<Byte>)
      requires b != [] && va % MMU_CHUNK + |b| <= MMU_CHUNK && AllWritable(Here(), va, |b|)
      modifies ram
      ensures ram[..] == StoreBytes(Here(), old(ram[..]), va, b)
    {
      hide StoreBytes, Place, AllWritable, Writable, Start;
      var o := Start(Here(), va, |b|);
      ghost var before := ram[..];
      ChunkStored(Here(), before, va, b, o);
      for i := 0 to |b|
        invariant ram[..] == before[..o] + b[..i] + before[o + i..]
      {
        ram[o + i] := b[i];
      }
      assert b[..|b|] == b;
    }

    /** Publishing: every span is translated before the first byte is stored, so it is all or nothing. */
    method WriteV(spans: seq<Span>) returns (ok: bool)
      modifies ram
      ensures ok <==> Publishable(Here(), spans)
      ensures ram[..] == if ok then StoreSpans(Here(), old(ram[..]), spans) else old(ram[..])
    {
      hide SpanOk;
      if spans == [] || |spans| > MAX_SPANS {
        return false;
      }
      for i := 0 to |spans|
        invariant ram[..] == old(ram[..]) && forall k :: 0 <= k < i ==> SpanOk(Here(), spans[k])
      {
        var fits := Preflight(spans[i]);
        if !fits {
          return false;
        }
      }
      AllOk(Here(), spans);
      ghost var before := ram[..];
      for i := 0 to |spans|
        invariant ram[..] == StoreSpans(Here(), before, spans[..i])
      {
        assert spans[..i + 1][..i] == spans[..i];
        Store(spans[i]);
      }
      assert spans[..|spans|] == spans;
      return true;
    }
  }

  /** Where a writable chunk starts in RAM. */
  function Start(s: Space, va: nat, n: nat): (o: nat)
    requires n > 0 && va % MMU_CHUNK + n <= MMU_CHUNK && AllWritable(s, va, n)
    ensures o + n <= s.size && forall k :: va <= k < va + n ==> Place(s, k) == Some(o + (k - va))
  {
    ChunkPlaced(s, va, n);
    assert Writable(s, va) && Writable(s, va + n - 1);
    assert forall k :: va <= k < va + n ==> Writable(s, k);
    s.mmu(va / MMU_CHUNK).value.pa + va % MMU_CHUNK - s.base
  }

  lemma NothingStored(s: Space, ram: seq<Byte>, va: nat)
    requires |ram| == s.size
    ensures StoreBytes(s, ram, va, []) == ram
  {
  }

  lemma AllOk(s: Space, spans: seq<Span>)
    requires forall i :: 0 <= i < |spans| ==> SpanOk(s, spans[i])
    ensures forall i :: 0 <= i < |spans| ==> AllWritable(s, spans[i].va, |spans[i].src|)
  {
    hide AllWritable;
  }

  // ------------------------------------------------------------ The oracle

  /** A captured range and where its bytes start in the expected ones. */
  datatype Captured = Captured(va: nat, len: nat, at: nat)

  /** What a handler would have published, kept for comparison with what the guest's own code writes. */
  class Oracle {
    const capacity: nat
    var spans: seq<Captured>
    var expected: seq<Byte>

    constructor (capacity: nat)
      ensures Valid() && Captures() == [] && this.capacity == capacity
    {
      this.capacity := capacity;
      spans, expected := [], [];
    }

    ghost predicate Valid()
      reads this
    {
      && |spans| <= MAX_SPANS && |expected| <= capacity && |expected| <= MAX_BYTES
      && (forall i :: 0 <= i < |spans| ==> spans[i].at + spans[i].len <= |expected|)
      && Disjoint(Captures())
    }

    /** The captured writes, in order. */
    function Captures(): (c: seq<Span>)
      requires forall i :: 0 <= i < |spans| ==> spans[i].at + spans[i].len <= |expected|
      reads this
    {
      seq(|spans|, i requires 0 <= i < |spans| reads this requires spans[i].at + spans[i].len <= |expected| =>
            Span(spans[i].va, expected[spans[i].at..spans[i].at + spans[i].len]))
    }

    /** Does span `i` fit behind `total` bytes, clear of everything captured and of the spans before it? */
    predicate Takes(more: seq<Span>, i: nat, total: nat)
      requires i < |more|
      reads this
    {
      TakesFrom(spans, capacity, more, i, total)
    }

    /** Checks one span against everything before it. */
    method CheckSpan(more: seq<Span>, i: nat, total: nat) returns (ok: bool)
      requires i < |more|
      ensures ok <==> Takes(more, i, total)
    {
      if more[i].src == [] || more[i].va + |more[i].src| > ADDRESS_SPACE || total + |more[i].src| > capacity
         || total + |more[i].src| > MAX_BYTES {
        return false;
      }
      for j := 0 to |spans|
        invariant forall k :: 0 <= k < j ==> !Overlap(more[i].va, |more[i].src|, spans[k].va, spans[k].len)
      {
        if Overlap(more[i].va, |more[i].src|, spans[j].va, spans[j].len) {
          return false;
        }
      }
      for j := 0 to i
        invariant forall k :: 0 <= k < j ==> !Overlap(more[i].va, |more[i].src|, more[k].va, |more[k].src|)
      {
        if Overlap(more[i].va, |more[i].src|, more[j].va, |more[j].src|) {
          return false;
        }
      }
      return true;
    }

    /** Captures all spans in order behind what is there, or changes nothing; everything captured is pairwise disjoint. */
    method CaptureV(more: seq<Span>) returns (ok: bool)
      requires Valid()
      modifies this
      ensures Valid()
      ensures ok <==> && more != [] && |more| <= MAX_SPANS - old(|spans|)
                      && forall i :: 0 <= i < |more| ==> old(Takes(more, i, |expected| + Length(more[..i])))
      ensures ok ==> Captures() == old(Captures()) + more && expected == old(expected) + Joined(more)
      ensures !ok ==> spans == old(spans) && expected == old(expected)
    {
      hide TakesFrom, Disjoint, Joined;
      if more == [] || |more| > MAX_SPANS - |spans| {
        return false;
      }
      ok := CheckAll(more);
      if ok {
        CaptureAll(more);
      }
    }

    /** The checking loop. */
    method CheckAll(more: seq<Span>) returns (ok: bool)
      ensures ok <==> forall i :: 0 <= i < |more| ==> Takes(more, i, |expected| + Length(more[..i]))
    {
      hide TakesFrom;
      var total := |expected|;
      for i := 0 to |more|
        invariant total == |expected| + Length(more[..i])
        invariant forall k :: 0 <= k < i ==> Takes(more, k, |expected| + Length(more[..k]))
      {
        var fits := CheckSpan(more, i, total);
        if !fits {
          return false;
        }
        assert more[..i + 1][..i] == more[..i];
        total := total + |more[i].src|;
      }
      return true;
    }

    /** The capture loop, once every span has passed. */
    method CaptureAll(more: seq<Span>)
      requires Valid() && more != [] && |more| <= MAX_SPANS - |spans|
      requires forall i :: 0 <= i < |more| ==> Takes(more, i, |expected| + Length(more[..i]))
      modifies this
      ensures Valid() && Captures() == old(Captures()) + more && expected == old(expected) + Joined(more)
    {
      hide TakesFrom, Disjoint, Overlap;
      ghost var held, was, taken := Captures(), expected, spans;
      assert more[..0] == [] && held + [] == held && was + [] == was;
      for i := 0 to |more|
        invariant |spans| == |taken| + i && Valid()
        invariant Captures() == held + more[..i] && expected == was + Joined(more[..i])
        invariant forall k :: 0 <= k < |more| ==> TakesFrom(taken, capacity, more, k, |was| + Length(more[..k]))
      {
        assert TakesFrom(taken, capacity, more, i, |was| + Length(more[..i]));
        FitsBehind(held, taken, capacity, more, i, |was| + Length(more[..i]));
        assert more[..i + 1][..i] == more[..i];
        assert held + more[..i + 1] == (held + more[..i]) + [more[i]];
        CaptureOne(more[i]);
      }
      assert more[..|more|] == more;
    }

    method CaptureOne(p: Span)
      requires Valid() && |spans| < MAX_SPANS && |expected| + |p.src| <= capacity && |expected| + |p.src| <= MAX_BYTES
      requires Disjoint(Captures() + [p])
      modifies this
      ensures Valid() && |spans| == |old(spans)| + 1
      ensures Captures() == old(Captures()) + [p] && expected == old(expected) + p.src
    {
      hide Disjoint;
      ghost var before := Captures();
      expected, spans := expected + p.src, spans + [Captured(p.va, |p.src|, |expected|)];
      forall k | 0 <= k < |spans|
        ensures spans[k].at + spans[k].len <= |expected| && Captures()[k] == (before + [p])[k]
      {
      }
      assert Captures() == before + [p];
    }
  }

  predicate TakesFrom(spans: seq<Captured>, capacity: nat, more: seq<Span>, i: nat, total: nat)
    requires i < |more|
  {
    && more[i].src != [] && more[i].va + |more[i].src| <= ADDRESS_SPACE
    && total + |more[i].src| <= capacity && total + |more[i].src| <= MAX_BYTES
    && (forall j :: 0 <= j < |spans| ==> !Overlap(more[i].va, |more[i].src|, spans[j].va, spans[j].len))
    && (forall j :: 0 <= j < i ==> !Overlap(more[i].va, |more[i].src|, more[j].va, |more[j].src|))
  }

  lemma FitsBehind(held: seq<Span>, taken: seq<Captured>, capacity: nat, more: seq<Span>, i: nat, total: nat)
    requires i < |more| && |held| == |taken| && Disjoint(held + more[..i])
    requires forall k :: 0 <= k < |taken| ==> held[k].va == taken[k].va && |held[k].src| == taken[k].len
    requires TakesFrom(taken, capacity, more, i, total)
    ensures Disjoint((held + more[..i]) + [more[i]])
    ensures total + |more[i].src| <= capacity && total + |more[i].src| <= MAX_BYTES
  {
    hide Overlap;
  }

  function Length(spans: seq<Span>): nat {
    if spans == [] then 0 else Length(spans[..|spans| - 1]) + |spans[|spans| - 1].src|
  }

  function Joined(spans: seq<Span>): (b: seq<Byte>)
    ensures |b| == Length(spans)
  {
    if spans == [] then [] else Joined(spans[..|spans| - 1]) + spans[|spans| - 1].src
  }
}
