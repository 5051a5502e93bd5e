/** Spans of bytes at virtual addresses, and memory with spans written into it. */
module Spans {
  import opened Words

  const REAL_LIMIT: nat := 0x4000_0000

  /** Bytes and where they belong. */
  datatype Span = Span(va: nat, src: seq<Byte>)

  /** Real memory as the guest's user mode addresses it. */
  type Memory = m: seq<Byte> | |m| == REAL_LIMIT witness seq(REAL_LIMIT, i => 0)

  // ------------------------------------------------------------ Memory with spans written

  function Patch(m: seq<Byte>, va: nat, b: seq<Byte>): (r: seq<Byte>)
    requires va + |b| <= |m|
    ensures |r| == |m|
    ensures forall k :: 0 <= k < |m| ==> r[k] == if va <= k < va + |b| then b[k - va] else m[k]
  {
    m[..va] + b + m[va + |b|..]
  }

  predicate Fits(spans: seq<Span>) {
    forall i :: 0 <= i < |spans| ==> spans[i].va + |spans[i].src| <= REAL_LIMIT
  }

  /** Memory after writing spans in order. */
  function Written(m: Memory, spans: seq<Span>): Memory
    requires Fits(spans)
  {
    if spans == [] then m
    else
      var n := |spans| - 1;
      Patch(Written(m, spans[..n]), spans[n].va, spans[n].src)
  }

  predicate Overlap(a: nat, n: nat, b: nat, k: nat) { a < b + k && b < a + n }

  predicate Contains(s: Span, va: nat, n: nat) { s.va <= va && va + n <= s.va + |s.src| }

  predicate Disjoint(spans: seq<Span>) {
    forall i, j :: 0 <= i < j < |spans| ==> !Overlap(spans[j].va, |spans[j].src|, spans[i].va, |spans[i].src|)
  }

  /** Bytes no span covers are the old ones. */
  lemma {:induction false} UncoveredByte(m: Memory, spans: seq<Span>, k: nat)
    requires Fits(spans) && k < REAL_LIMIT && forall i :: 0 <= i < |spans| ==> !(spans[i].va <= k < spans[i].va + |spans[i].src|)
    ensures Written(m, spans)[k] == m[k]
  {
    if spans != [] {
      UncoveredByte(m, spans[..|spans| - 1], k);
    }
  }

  /** A byte covered by span `i` and by no later one is that span's. */
  lemma {:induction false} CoveredByte(m: Memory, spans: seq<Span>, i: nat, k: nat)
    requires Fits(spans) && i < |spans| && spans[i].va <= k < spans[i].va + |spans[i].src|
    requires forall j :: i < j < |spans| ==> !(spans[j].va <= k < spans[j].va + |spans[j].src|)
    ensures k < REAL_LIMIT && Written(m, spans)[k] == spans[i].src[k - spans[i].va]
  {
    var n := |spans| - 1;
    if i < n {
      CoveredByte(m, spans[..n], i, k);
    }
  }
}
