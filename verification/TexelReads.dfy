/** The nearest sampler on the readers a row has: the row facade, and the machine itself. */
module TexelReads {
  import opened Words
  import opened Spans
  import opened Publish
  import opened RowShadow
  import opened LiveRows
  import S = Sampler

  const STACK_BYTES: nat := 20
  const START_BYTES: nat := 56

  /** The three areas of a call frame have fixed sizes. */
  predicate FrameSized(f: Frame) {
    |f.stack| == STACK_BYTES && |f.start| == START_BYTES && |f.delta| == START_BYTES
  }

  type Reader = (nat, nat) -> Option<seq<Byte>>

  function Facade(f: Frame, prior: seq<Span>, current: Span, permit: Permit, now: Memory): Reader {
    (va: nat, n: nat) => ReadRule(f, prior, current, permit, now, va, n)
  }

  /** The machine, with nothing in between. */
  function Direct(s: Space, f: Frame, ram: seq<Byte>): Reader
    requires |ram| == s.size
  {
    (va: nat, n: nat) => LiveRead(s, f, ram, va, n)
  }

  // ------------------------------------------------------------ Texels from bytes

  function WordOf(b: seq<Byte>): Word
    requires |b| == 4
  {
    b[0] as int + 0x100 * b[1] as int + 0x1_0000 * b[2] as int + 0x100_0000 * b[3] as int
  }

  /** One texel. */
  function ReadWord(read: Reader): S.Words32 {
    (a: Word) => match read(a, 4) case None => None case Some(b) => if |b| == 4 then Some(WordOf(b)) else None
  }

  /** A run of texels in one read. */
  function ReadWords(read: Reader): (Word, nat) -> Option<seq<Word>> {
    (a: Word, n: nat) => match read(a, 4 * n) case None => None case Some(b) => if |b| == 4 * n then Some(WordsOf(b, n)) else None
  }

  function WordsOf(b: seq<Byte>, n: nat): (p: seq<Word>)
    requires |b| == 4 * n
    ensures |p| == n && forall k :: 0 <= k < n ==> p[k] == WordOf(b[4 * k..4 * k + 4])
  {
    seq(n, k requires 0 <= k < n => WordOf(b[4 * k..4 * k + 4]))
  }

  // ------------------------------------------------------------ Readers that serve parts of what they serve

  /** The part of a served range is served, with the same bytes. */
  ghost predicate ServesPart(read: Reader, va: nat, n: nat, k: nat, m: nat) {
    read(va, n).Some? && m > 0 && k + m <= n
    ==> |read(va, n).value| == n && va + n <= 0x1_0000_0000 && read(va + k, m) == Some(read(va, n).value[k..k + m])
  }

  ghost predicate ServesParts(read: Reader) { forall va, n, k, m :: ServesPart(read, va, n, k, m) }

  /** A reader that serves parts gives the sampler consistent word and bulk reads. */
  lemma PartsConsistent(read: Reader)
    requires ServesParts(read) && forall va :: read(va, 0).None?
    ensures S.Consistent(ReadWord(read), ReadWords(read))
  {
    hide WordOf;
    var word, bulk := ReadWord(read), ReadWords(read);
    forall a: Word, n: nat | bulk(a, n).Some?
      ensures S.Agreeing(word, a, n, bulk(a, n).value)
    {
      var p, b := bulk(a, n).value, read(a, 4 * n).value;
      assert n > 0;
      assert ServesPart(read, a, 4 * n, 0, 4);
      forall k | 0 <= k < n
        ensures word(a + 4 * k) == Some(p[k])
      {
        assert ServesPart(read, a, 4 * n, 4 * k, 4);
      }
    }
  }

  /** The machine's own reader serves parts. */
  lemma PermitsPart(s: Space, va: nat, n: nat, k: nat, m: nat)
    requires Readable(s, va, n) && m > 0 && k + m <= n
    ensures Readable(s, va + k, m)
  {
    hide Place;
  }

  lemma Slices(b: seq<Byte>, o: nat, n: nat, k: nat, m: nat)
    requires o + n <= |b| && k + m <= n
    ensures b[o..o + n][k..k + m] == b[o + k..o + k + m]
  {
    var part, whole := b[o..o + n][k..k + m], b[o + k..o + k + m];
    assert forall i :: 0 <= i < m ==> part[i] == whole[i];
  }

  /** A read inside the call frame stays in its area. */
  lemma FramePart(f: Frame, va: nat, n: nat, k: nat, m: nat)
    requires FrameSized(f) && m > 0 && k + m <= n
    ensures FrameRead(f, va, n).Some?
            ==> && |FrameRead(f, va, n).value| == n && va + n <= 0x1_0000_0000
                && FrameRead(f, va + k, m) == Some(FrameRead(f, va, n).value[k..k + m])
    ensures va + n <= REAL_LIMIT ==> FrameRead(f, va + k, m) == None
  {
    if Contains(Span(FAKE_STACK, f.stack), va, n) {
      Slices(f.stack, va - FAKE_STACK, n, k, m);
    } else if Contains(Span(FAKE_START, f.start), va, n) {
      Slices(f.start, va - FAKE_START, n, k, m);
    } else if Contains(Span(FAKE_DELTA, f.delta), va, n) {
      Slices(f.delta, va - FAKE_DELTA, n, k, m);
    }
  }

  lemma ServesPartOf(s: Space, prior: seq<Span>, current: Span, va: nat, n: nat, k: nat, m: nat)
    requires Serves(prior, current, Permits(s), va, n) && m > 0 && k + m <= n
    ensures Serves(prior, current, Permits(s), va + k, m)
  {
    hide Readable;
    if Readable(s, va, n) {
      PermitsPart(s, va, n, k, m);
    } else if !(current.src != [] && Contains(current, va, n)) {
      var i :| 0 <= i < |prior| && Contains(prior[i], va, n);
      assert Contains(prior[i], va + k, m);
    }
  }

  /** So does the row facade, over any memory and any captured rows. */
  lemma FacadePart(f: Frame, prior: seq<Span>, current: Span, s: Space, now: Memory, va: nat, n: nat, k: nat, m: nat)
    requires FrameSized(f)
    ensures ServesPart(Facade(f, prior, current, Permits(s), now), va, n, k, m)
  {
    hide FrameRead, Serves;
    if m > 0 && k + m <= n {
      FramePart(f, va, n, k, m);
      if FrameRead(f, va, n).None? && va + n <= REAL_LIMIT && Serves(prior, current, Permits(s), va, n) {
        ServesPartOf(s, prior, current, va, n, k, m);
        Slices(now, va, n, k, m);
      }
    }
  }

  /** The row facade's reads are consistent, whatever rows it has captured. */
  lemma FacadeConsistent(f: Frame, prior: seq<Span>, current: Span, s: Space, now: Memory)
    requires FrameSized(f)
    ensures var read := Facade(f, prior, current, Permits(s), now); S.Consistent(ReadWord(read), ReadWords(read))
  {
    hide ServesPart;
    var read := Facade(f, prior, current, Permits(s), now);
    forall va, n, k, m
      ensures ServesPart(read, va, n, k, m)
    {
      FacadePart(f, prior, current, s, now, va, n, k, m);
    }
    PartsConsistent(read);
  }

  // ------------------------------------------------------------ Sampling a row

  /** Readers that agree word for word are sampled alike. */
  lemma {:induction false} SampledAlike(r: S.Row, k: nat, uk: S.I32, vk: S.I32, wk: S.Float, h: S.Host, a: S.Words32, b: S.Words32)
    requires k <= r.count && forall w: Word :: a(w) == b(w)
    ensures S.Scalar(r, k, uk, vk, wk, h, a) == S.Scalar(r, k, uk, vk, wk, h, b)
    decreases r.count - k
  {
    hide S.Round32, S.Texel, S.Address, S.Clamped, S.ToInt, S.Prepended;
    if k < r.count {
      SampledAlike(r, k + 1, S.SWrap(uk + r.du), S.SWrap(vk + r.dv), h.plus(wk, r.dw), h, a, b);
    }
  }

  /** The sampler, shortcuts and all, on a row facade: the scalar loop on single texels through the facade, and, while what the
      facade has captured can be stored, the scalar loop on RAM with those rows in it. */
  method SampleRow(f: Frame, prior: seq<Span>, current: Span, s: Space, ram: seq<Byte>, r: S.Row, h: S.Host, root: bool)
    returns (pixels: Option<seq<Word>>)
    requires FrameSized(f) && S.HostOk(h) && |ram| == s.size
    ensures pixels == S.Scalar(r, 0, r.u, r.v, r.w, h, ReadWord(Facade(f, prior, current, Permits(s), View(s, ram))))
    ensures Storable(s, prior) && (current.src == [] || SpanOk(s, current))
            ==> pixels == S.Scalar(r, 0, r.u, r.v, r.w, h, ReadWord(Direct(s, f, ram)))
  {
    hide S.Scalar, S.Consistent, S.HostOk, View, SpanOk, Storable, ReadRule, LiveRead;
    var read := Facade(f, prior, current, Permits(s), View(s, ram));
    FacadeConsistent(f, prior, current, s, View(s, ram));
    pixels := S.SampleNearest(r, h, ReadWord(read), ReadWords(read), root);
    if Storable(s, prior) && (current.src == [] || SpanOk(s, current)) {
      forall w: Word
        ensures ReadWord(read)(w) == ReadWord(Direct(s, f, ram))(w)
      {
        ReadRuleIsMachine(s, ram, f, prior, current, w, 4);
      }
      SampledAlike(r, 0, r.u, r.v, r.w, h, ReadWord(read), ReadWord(Direct(s, f, ram)));
    }
  }
}
