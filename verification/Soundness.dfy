/** What acceptance by the validator guarantees about threaded dispatch, whatever the handlers compute. */
module Soundness {
  import opened Handlers
  import opened Decode
  import opened Program
  import opened Validate

  /** Where control goes after a record: its condition may fail, its runtime guard may miss. */
  datatype Move = Goto(next: nat) | Leave

  function Control(u: Uop, i: nat, pass: bool, hit: bool): Move {
    if u.op.f == End || IsTerminalBranch(u.op.f) then Leave
    else if u.op.f == Cond then Goto(if pass then i + 1 else i + 1 + u.meta)
    else if IsRuntimeGuarded(u.op.f) && !hit then Leave
    else Goto(i + 1)
  }

  /** The records dispatch visits from `i`, for arbitrary condition and guard outcomes; an index off the array ends the list. */
  function Visits(uops: seq<Uop>, i: nat, pass: nat -> bool, hit: nat -> bool): (v: seq<nat>)
    ensures |v| > 0 && v[0] == i
    decreases if i < |uops| then |uops| - i else 0
  {
    if i >= |uops| then [i]
    else
      match Control(uops[i], i, pass(i), hit(i))
      case Leave => [i]
      case Goto(next) => [i] + Visits(uops, next, pass, hit)
  }

  /** Positions where a semantic instruction (with its guard) starts, and the end. */
  function Boundaries(uops: seq<Uop>, i: nat, end: nat): set<nat>
    requires i <= end <= |uops|
    decreases end - i
  {
    if i == end || Stride(uops, i, end) == 0 then {i} else {i} + Boundaries(uops, i + Stride(uops, i, end), end)
  }

  /** Inside a semantic instruction there is no guard, and no end of block. */
  lemma BlockIsPlain(uops: seq<Uop>, i: nat, end: nat, load: bool, k: nat)
    requires i < end <= |uops| && i < k < i + BlockSpan(uops, i, end, load)
    ensures uops[k].op.f != Cond && uops[k].op.f != End
  {
    var n := uops[i].imm;
    if k < i + n + 1 {
      var commits := uops[i + 1..i + n + 1];
      assert commits[k - i - 1] == uops[k];
    }
  }

  lemma SpanIsPlain(uops: seq<Uop>, i: nat, end: nat, k: nat)
    requires end <= |uops| && i <= k < i + Span(uops, i, end)
    ensures uops[k].op.f != Cond && uops[k].op.f != End
  {
    hide BlockSpan;
    var f := uops[i].op.f;
    if (f == StmPreflight || f == LdmPreflight) && k > i {
      BlockIsPlain(uops, i, end, f == LdmPreflight, k);
    }
  }

  /** The start of the next semantic instruction is again a boundary, with a shorter walk left. */
  lemma {:induction false} NextBoundary(uops: seq<Uop>, s: nat, end: nat, i: nat)
    requires s <= end <= |uops| && i in Boundaries(uops, s, end) && Walk(uops, s, end).Some?
    ensures s <= i <= end && Walk(uops, i, end).Some?
    ensures i < end ==> Stride(uops, i, end) != 0 && i + Stride(uops, i, end) in Boundaries(uops, s, end)
    decreases end - s
  {
    hide Stride;
    if s < end {
      var n := s + Stride(uops, s, end);
      if i == s {
        assert n in Boundaries(uops, n, end);
      } else {
        NextBoundary(uops, n, end, i);
      }
    }
  }

  /** A run of dispatch as it should be: inside the array, forwards only, ending where a record leaves the block, and
      with every condition at a boundary and every failed condition skipping exactly one semantic instruction. */
  ghost predicate Orderly(uops: seq<Uop>, v: seq<nat>, pass: nat -> bool, hit: nat -> bool, starts: set<nat>) {
    && |v| > 0
    && v[0] < |uops|
    && if |v| == 1 then Control(uops[v[0]], v[0], pass(v[0]), hit(v[0])) == Leave
       else
         && v[0] < v[1]
         && (uops[v[0]].op.f == Cond ==> v[0] in starts && (!pass(v[0]) ==> SkipsOne(uops, v[0], v[1]) && v[1] in starts))
         && Orderly(uops, v[1..], pass, hit, starts)
  }

  /** From a guard at `i` to the record behind the whole semantic instruction it guards. */
  ghost predicate SkipsOne(uops: seq<Uop>, i: nat, next: nat)
    requires |uops| > 0
  {
    Span(uops, i + 1, |uops| - 1) != 0 && next == i + 1 + Span(uops, i + 1, |uops| - 1)
  }

  ghost predicate Accepted(uops: seq<Uop>) {
    |uops| > 0 && uops[|uops| - 1].op.f == End && Walk(uops, 0, |uops| - 1).Some?
  }

  lemma {:induction false} FromBoundary(uops: seq<Uop>, i: nat, pass: nat -> bool, hit: nat -> bool)
    requires Accepted(uops) && i in Boundaries(uops, 0, |uops| - 1)
    ensures Orderly(uops, Visits(uops, i, pass, hit), pass, hit, Boundaries(uops, 0, |uops| - 1))
    decreases |uops| - i, 1
  {
    hide Span, Walk, Boundaries, IsRuntimeGuarded, Visits, Stride;
    var end := |uops| - 1;
    NextBoundary(uops, 0, end, i);
    if i == end {
      VisitsStep(uops, i, pass, hit);
    } else if uops[i].op.f != Cond {
      StrideStep(uops, i, end);
      FromSpan(uops, i, i, pass, hit);
    } else {
      StrideStep(uops, i, end);
      VisitsStep(uops, i, pass, hit);
      var next := if pass(i) then i + 1 else i + Stride(uops, i, end);
      if pass(i) {
        FromSpan(uops, i + 1, i + 1, pass, hit);
      } else {
        FromBoundary(uops, next, pass, hit);
      }
      VisitsHead(uops, next, pass, hit);
      GuardFirst(uops, i, next, Visits(uops, next, pass, hit), pass, hit, Boundaries(uops, 0, end));
    }
  }

  lemma VisitsHead(uops: seq<Uop>, i: nat, pass: nat -> bool, hit: nat -> bool)
    requires i < |uops|
    ensures Visits(uops, i, pass, hit) != [] && Visits(uops, i, pass, hit)[0] == i
  {
  }

  lemma GuardFirst(uops: seq<Uop>, i: nat, next: nat, v: seq<nat>, pass: nat -> bool, hit: nat -> bool, starts: set<nat>)
    requires i < |uops| && uops[i].op.f == Cond && i in starts && i < next
    requires Orderly(uops, v, pass, hit, starts) && v[0] == next
    requires !pass(i) ==> SkipsOne(uops, i, next) && next in starts
    ensures Orderly(uops, [i] + v, pass, hit, starts)
  {
    hide SkipsOne;
    assert ([i] + v)[1..] == v;
  }

  lemma StrideStep(uops: seq<Uop>, i: nat, end: nat)
    requires i < end <= |uops| && Stride(uops, i, end) != 0
    ensures uops[i].op.f != Cond ==> Stride(uops, i, end) == Span(uops, i, end)
    ensures uops[i].op.f == Cond ==> Stride(uops, i, end) == uops[i].meta + 1 && uops[i].meta == Span(uops, i + 1, end) != 0
  {
    hide Span;
  }

  lemma VisitsStep(uops: seq<Uop>, i: nat, pass: nat -> bool, hit: nat -> bool)
    requires i < |uops|
    ensures Visits(uops, i, pass, hit) == match Control(uops[i], i, pass(i), hit(i))
                                          case Leave => [i]
                                          case Goto(next) => [i] + Visits(uops, next, pass, hit)
  {
  }

  lemma {:induction false} FromSpan(uops: seq<Uop>, i: nat, k: nat, pass: nat -> bool, hit: nat -> bool)
    requires Accepted(uops) && i <= k < i + Span(uops, i, |uops| - 1)
    requires i + Span(uops, i, |uops| - 1) in Boundaries(uops, 0, |uops| - 1)
    ensures Orderly(uops, Visits(uops, k, pass, hit), pass, hit, Boundaries(uops, 0, |uops| - 1))
    decreases |uops| - k, 0
  {
    hide Span, Walk, Boundaries, Orderly, Visits, Control;
    SpanIsPlain(uops, i, |uops| - 1, k);
    PlainGoesOn(uops[k], k, pass(k), hit(k));
    VisitsStep(uops, k, pass, hit);
    if Control(uops[k], k, pass(k), hit(k)) != Leave {
      if k + 1 == i + Span(uops, i, |uops| - 1) {
        FromBoundary(uops, k + 1, pass, hit);
      } else {
        FromSpan(uops, i, k + 1, pass, hit);
      }
      VisitsHead(uops, k + 1, pass, hit);
      PlainFirst(uops, k, Visits(uops, k + 1, pass, hit), pass, hit, Boundaries(uops, 0, |uops| - 1));
    } else {
      LeaveLast(uops, k, pass, hit, Boundaries(uops, 0, |uops| - 1));
    }
  }

  lemma PlainGoesOn(u: Uop, k: nat, pass: bool, hit: bool)
    requires u.op.f != Cond
    ensures Control(u, k, pass, hit) == Leave || Control(u, k, pass, hit) == Goto(k + 1)
  {
  }

  lemma PlainFirst(uops: seq<Uop>, k: nat, v: seq<nat>, pass: nat -> bool, hit: nat -> bool, starts: set<nat>)
    requires k < |uops| && uops[k].op.f != Cond && Orderly(uops, v, pass, hit, starts) && v[0] == k + 1
    ensures Orderly(uops, [k] + v, pass, hit, starts)
  {
    assert ([k] + v)[1..] == v;
  }

  lemma LeaveLast(uops: seq<Uop>, k: nat, pass: nat -> bool, hit: nat -> bool, starts: set<nat>)
    requires k < |uops| && Control(uops[k], k, pass(k), hit(k)) == Leave
    ensures Orderly(uops, [k], pass, hit, starts)
  {
    hide Control;
  }

  lemma {:induction false} OrderlyIsBounded(uops: seq<Uop>, v: seq<nat>, pass: nat -> bool, hit: nat -> bool, starts: set<nat>)
    requires Orderly(uops, v, pass, hit, starts)
    ensures forall t :: 0 <= t < |v| ==> v[t] < |uops|
    ensures |v| <= |uops| - v[0]
  {
    if |v| > 1 {
      OrderlyIsBounded(uops, v[1..], pass, hit, starts);
      forall t | 0 < t < |v|
        ensures v[t] < |uops|
      {
        assert v[t] == v[1..][t - 1];
      }
    }
  }

  /** On every record array the full validator accepts, dispatch from the first record stays inside the array, leaves it
      within as many steps as there are records, and skips whole semantic instructions only. */
  lemma ValidatorIsSound(b: Block, e: Entry, kind: Mode, pass: nat -> bool, hit: nat -> bool)
    requires ValidRun(b, e, kind)
    ensures var v := Visits(b.uops, 0, pass, hit);
            && (forall t :: 0 <= t < |v| ==> v[t] < |b.uops|)
            && |v| <= |b.uops|
            && Orderly(b.uops, v, pass, hit, Boundaries(b.uops, 0, |b.uops| - 1))
  {
    hide RecordOk, Orderly, Visits, TraitsOf;
    FromBoundary(b.uops, 0, pass, hit);
    OrderlyIsBounded(b.uops, Visits(b.uops, 0, pass, hit), pass, hit, Boundaries(b.uops, 0, |b.uops| - 1));
  }
}
