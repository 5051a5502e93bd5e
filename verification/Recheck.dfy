/** What the cheap recheck of a cached block decides, said over the block's records. */
module Recheck {
  import opened Words
  import opened Handlers
  import opened Decode
  import opened Program
  import opened Validate
  import opened Agreement

  /** A block some full validation has accepted; every block the decoder returns is one. */
  ghost predicate Made(b: Block) { exists e: Entry, kind: Mode :: ValidRun(b, e, kind) }

  lemma DecodedMade(insns: seq<Word>, thumb: bool, pc: Word, mode: Mode)
    requires Halfwords(insns, thumb) && DecodeProgram(insns, thumb, pc, mode).Some?
    ensures Made(DecodeProgram(insns, thumb, pc, mode).value)
  {
    hide ValidRun, DecodeProgram, PowerOfTwo;
    assert PowerOfTwo(1) by {
      PowerOne();
    }
    var e := Entry(pc, thumb, 1, 1);
    DecodedIsValid(insns, thumb, pc, mode, e);
    assert ValidRun(DecodeProgram(insns, thumb, pc, mode).value, e, mode);
  }

  lemma PowerOne()
    ensures PowerOfTwo(1)
  {
    AndNothing(1, 64);
  }

  /** Does no record use RAM without a cache guard, and, unless stores have consent, does none store? */
  predicate Runnable(uops: seq<Uop>, stores: bool) {
    && (forall k :: 0 <= k < |uops| ==> !IsTouchingFlat(uops[k].op.f))
    && (stores || forall k :: 0 <= k < |uops| ==> !IsDirectWrite(uops[k].op.f))
  }

  /** May a chain run a block here: it starts at this address in this instruction set, fits, and is runnable? */
  predicate Continues(b: Block, pc: Word, thumb: bool, left: nat, stores: bool) {
    b.startPc == pc && b.thumb == thumb && b.insnCount <= left && Runnable(b.uops, stores)
  }

  /** A flag of an accepted block is set exactly if one of its records calls for it. */
  lemma FlagIsRecord(b: Block, e: Entry, kind: Mode, x: Trait)
    requires ValidRun(b, e, kind) && (x == TouchesMemory || x == DirectReads || x == DirectWrites)
    ensures x in b.traits <==> exists k :: 0 <= k < |b.uops| && Marked(x, b.uops[k].op.f, b.thumb)
  {
    hide Marked, RecordOk, KindOk, Marks, CountOk, PowerOfTwo, TraitsOf;
    var body := b.uops[..|b.uops| - 1];
    TraitWitness(x, body, b.thumb);
    forall k | 0 <= k < |body|
      ensures x in Marks(body[k].op.f, b.thumb) <==> Marked(x, b.uops[k].op.f, b.thumb)
    {
      MarksIsMarked(x, body[k].op.f, b.thumb);
    }
    EndUnmarked(x, b.thumb);
    if x in b.traits {
      var k :| 0 <= k < |body| && x in Marks(body[k].op.f, b.thumb);
      assert Marked(x, b.uops[k].op.f, b.thumb);
    }
    if k :| 0 <= k < |b.uops| && Marked(x, b.uops[k].op.f, b.thumb) {
      assert k < |body| && x in Marks(body[k].op.f, b.thumb);
    }
  }

  lemma EndUnmarked(x: Trait, thumb: bool)
    requires x == TouchesMemory || x == DirectReads || x == DirectWrites
    ensures !Marked(x, End, thumb)
  {
  }

  predicate Direct(f: Family) { IsDirectRead(f) || IsDirectWrite(f) }

  /** No accepted block mixes accesses with and without a guard. */
  lemma NeverMixed(b: Block, e: Entry, kind: Mode)
    requires ValidRun(b, e, kind)
    ensures forall j, k :: 0 <= j < |b.uops| && 0 <= k < |b.uops| && IsTouchingFlat(b.uops[j].op.f) ==> !Direct(b.uops[k].op.f)
  {
    hide RecordOk, CountOk, PowerOfTwo, TraitsOf, Direct, IsTouchingFlat, KindAllows;
    var body := b.uops[..|b.uops| - 1];
    EndPlain();
    forall k | 0 <= k < |b.uops|
      ensures Direct(b.uops[k].op.f) ==> kind != Flat
      ensures IsTouchingFlat(b.uops[k].op.f) ==> kind == Flat
    {
      if k < |body| {
        assert KindAllows(body[k].op.f, kind);
        KindSplits(body[k].op.f, kind);
      }
    }
  }

  lemma EndPlain()
    ensures !Direct(End) && !IsTouchingFlat(End)
  {
  }

  lemma KindSplits(f: Family, kind: Mode)
    requires KindAllows(f, kind)
    ensures Direct(f) ==> kind != Flat
    ensures IsTouchingFlat(f) ==> kind == Flat
  {
  }

  /** Over blocks a full validation accepted, the recheck lets through exactly those that start here, fit, and hold no record
      the runner has no licence for. */
  lemma RecheckExact(b: Block, pc: Word, thumb: bool, left: nat, hits: bool)
    requires Made(b)
    ensures ValidDecodedHits(b, pc, thumb, left, hits) <==> Continues(b, pc, thumb, left, hits)
  {
    hide ValidRun, ValidDecodedHits;
    var e: Entry, kind: Mode :| ValidRun(b, e, kind);
    if ValidDecodedHits(b, pc, thumb, left, hits) {
      RecheckedRuns(b, e, kind, pc, thumb, left, hits);
    }
    if Continues(b, pc, thumb, left, hits) {
      RunnablePasses(b, e, kind, pc, thumb, left, hits);
    }
  }

  lemma RecheckedRuns(b: Block, e: Entry, kind: Mode, pc: Word, thumb: bool, left: nat, hits: bool)
    requires ValidRun(b, e, kind) && ValidDecodedHits(b, pc, thumb, left, hits)
    ensures Continues(b, pc, thumb, left, hits)
  {
    hide ValidRun, TerminalShape;
    FlagIsRecord(b, e, kind, TouchesMemory);
    FlagIsRecord(b, e, kind, DirectReads);
    FlagIsRecord(b, e, kind, DirectWrites);
    NeverMixed(b, e, kind);
    forall k | 0 <= k < |b.uops|
      ensures IsTouchingFlat(b.uops[k].op.f) ==> Marked(TouchesMemory, b.uops[k].op.f, b.thumb)
      ensures Marked(DirectReads, b.uops[k].op.f, b.thumb) || Marked(DirectWrites, b.uops[k].op.f, b.thumb) <==> Direct(b.uops[k].op.f)
      ensures IsDirectWrite(b.uops[k].op.f) <==> Marked(DirectWrites, b.uops[k].op.f, b.thumb)
    {
    }
  }

  lemma RunnablePasses(b: Block, e: Entry, kind: Mode, pc: Word, thumb: bool, left: nat, hits: bool)
    requires ValidRun(b, e, kind) && Continues(b, pc, thumb, left, hits)
    ensures ValidDecodedHits(b, pc, thumb, left, hits)
  {
    hide RecordOk, KindOk, CountOk, PowerOfTwo, TraitsOf, TerminalShape, Legal;
    FlagIsRecord(b, e, kind, TouchesMemory);
    FlagIsRecord(b, e, kind, DirectReads);
    FlagIsRecord(b, e, kind, DirectWrites);
    forall x: Trait | Closing(x)
      ensures x in b.traits <==> |b.uops| > 1 && Marked(x, b.uops[|b.uops| - 2].op.f, b.thumb)
    {
      ClosingMarked(b, e, kind, x);
    }
    if |b.uops| > 1 {
      LastTerminal(b);
    }
    if TouchesMemory in b.traits {
      TouchesDirectly(b);
    }
  }

  lemma TouchesDirectly(b: Block)
    requires forall k :: 0 <= k < |b.uops| ==> !IsTouchingFlat(b.uops[k].op.f)
    requires exists k :: 0 <= k < |b.uops| && Marked(TouchesMemory, b.uops[k].op.f, b.thumb)
    ensures exists k :: 0 <= k < |b.uops| && (Marked(DirectReads, b.uops[k].op.f, b.thumb) || Marked(DirectWrites, b.uops[k].op.f, b.thumb))
  {
    var k :| 0 <= k < |b.uops| && Marked(TouchesMemory, b.uops[k].op.f, b.thumb);
    assert Marked(DirectReads, b.uops[k].op.f, b.thumb) || Marked(DirectWrites, b.uops[k].op.f, b.thumb);
  }
}
