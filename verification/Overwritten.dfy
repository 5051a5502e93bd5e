/** A flat store over code still to be reached: threaded dispatch runs what was decoded, the architecture what is there. */
module Overwritten {
  import opened Words
  import opened Handlers
  import opened Decode
  import opened Program
  import opened Agreement
  import opened Machine
  import opened Exec
  import opened Fields
  import opened Shifter
  import opened RefineInsn
  import opened RefineProgram
  import Arch

  // STR r0, [sp]; ADDS r0, r0, #1; and the branch to itself that r0 holds in its upper half.
  const STORE: Word := 0x9000
  const ADD: Word := 0x1c40
  const SELF: Word := 0xe7fe
  const CODE: seq<Byte> := [0x00, 0x90, 0x40, 0x1c]

  lemma StoreFields()
    ensures Field(STORE, 8, 8) == 0x90 && Field(STORE, 12, 4) == 9 && Field(STORE, 11, 5) == 18 && Field(STORE, 10, 6) == 36
    ensures Field(STORE, 13, 3) == 4 && Field(STORE, 8, 4) == 0 && Field(STORE, 0, 8) == 0 && Field(STORE, 8, 3) == 0 && !Bit(STORE, 11)
  {
    Pow2Small();
    ThumbFields(STORE);
    FieldOf(STORE, 8, 8);
    FieldOf(STORE, 0, 8);
    FieldOf(STORE, 8, 3);
    FieldOf(STORE, 11, 1);
  }

  lemma AddFields()
    ensures Field(ADD, 8, 8) == 0x1c && Field(ADD, 12, 4) == 1 && Field(ADD, 11, 5) == 3 && Field(ADD, 8, 4) == 12
    ensures Field(ADD, 0, 3) == 0 && Field(ADD, 3, 3) == 0 && Field(ADD, 6, 3) == 1 && !Bit(ADD, 9) && Bit(ADD, 10)
  {
    Pow2Small();
    assert Pow2(9) == 2 * Pow2(8) && Pow2(10) == 4 * Pow2(8);
    ThumbFields(ADD);
    FieldOf(ADD, 8, 8);
    FieldOf(ADD, 0, 3);
    FieldOf(ADD, 3, 3);
    FieldOf(ADD, 6, 3);
    FieldOf(ADD, 9, 1);
    FieldOf(ADD, 10, 1);
  }

  lemma SelfFields()
    ensures Field(SELF, 8, 8) == 0xe7 && Field(SELF, 12, 4) == 14 && Field(SELF, 11, 5) == 28 && Field(SELF, 0, 11) == 0x7fe
    ensures Arch.SignedField(0x7fe, 11) == -2
  {
    Pow2Small();
    assert Pow2(11) == 2 * Pow2(10);
    ThumbFields(SELF);
    FieldOf(SELF, 8, 8);
    FieldOf(SELF, 0, 11);
  }

  // ------------------------------------------------------------ What is decoded

  /** A record without guard, branch or direct write stands for its instruction by itself. */
  lemma OneRecord(insn: Word, i: nat, insns: nat, pc: Word, u: Uop) returns (v: Uop)
    requires i < insns <= MAX_INSNS && insn < 0x1_0000 && DecodeThumb(insn, i, insns, pc, Flat) == Some([u]) && Legal(u.op)
    requires u.op.f == FlatSp || u.op.f == DpImm
    ensures v.op == u.op && Segment(insn, i, insns, true, pc, Flat) == Some([v])
  {
    hide DecodeThumb, Id;
    AtId(u.op);
    v := PatchedAll([u], i, insns, pc, true)[0];
    assert PatchedAll([u], i, insns, pc, true) == [v];
  }

  lemma StoreRecord() returns (v: Uop)
    ensures v.op.f == FlatSp && Segment(STORE, 0, 2, true, 0, Flat) == Some([v])
  {
    hide Field, Bit, Wrap, Segment;
    StoreFields();
    var s := DecodeThumb(STORE, 0, 2, 0, Flat);
    assert s == ThumbStackAccess(STORE, 0, 2, Wrap(4), Flat);
    v := OneRecord(STORE, 0, 2, 0, s.value[0]);
  }

  lemma AddRecord() returns (v: Uop)
    ensures v.op.f == DpImm && Segment(ADD, 1, 2, true, 0, Flat) == Some([v])
  {
    hide Field, Bit, Wrap, Segment;
    AddFields();
    var s := DecodeThumb(ADD, 1, 2, 0, Flat);
    assert s.Some? && |s.value| == 1 && s.value[0].op == Op(DpImm, 4, 1, 0, 0);
    v := OneRecord(ADD, 1, 2, 0, s.value[0]);
  }

  lemma TwoRecords(insns: seq<Word>, u: Uop, v: Uop)
    requires insns == [STORE, ADD] && Segment(STORE, 0, 2, true, 0, Flat) == Some([u]) && Segment(ADD, 1, 2, true, 0, Flat) == Some([v])
    ensures Halfwords(insns, true) && Records(insns, 2, true, 0, Flat) == Some([u, v])
  {
    hide Segment, Appended;
    assert Records(insns, 0, true, 0, Flat) == Some([]);
    assert [] + [u] == [u] && [u] + [v] == [u, v];
    assert Records(insns, 1, true, 0, Flat) == Appended([], Segment(insns[0], 0, |insns|, true, 0, Flat));
    assert Records(insns, 2, true, 0, Flat) == Appended([u], Segment(insns[1], 1, |insns|, true, 0, Flat));
  }

  /** The block: one record for each instruction and the closing END, none of which refuses. */
  lemma Decoded(insns: seq<Word>) returns (b: Block)
    requires insns == [STORE, ADD]
    ensures Halfwords(insns, true) && DecodeProgram(insns, true, 0, Flat) == Some(b)
    ensures forall k :: 0 <= k < |b.uops| ==> !IsRuntimeGuarded(b.uops[k].op.f)
  {
    hide Segment, Records, TraitsOf;
    var u := StoreRecord();
    var v := AddRecord();
    TwoRecords(insns, u, v);
    b := DecodeProgram(insns, true, 0, Flat).value;
  }

  // ------------------------------------------------------------ What is executed

  lemma StoreStep(s: State, env: Env)
    requires Wide(s) && s.thumb && Folded(env, |s.ram|) && s.r[13] == 0 && s.r[0] == 0xe7fe_0000
    ensures var r := Arch.Step(STORE, 0, s, env.mmu, env.priv);
            && r.Done? && r.pc == 2 && Wide(r.s) && r.s.thumb && |r.s.ram| == |s.ram| && |s.ram| >= BLOCK
            && r.s.ram[2] == 0xfe && r.s.ram[3] == 0xe7
  {
    hide Field, Bit;
    StoreFields();
    FoldedSize(env, |s.ram|);
  }

  lemma FoldedSize(env: Env, size: nat)
    requires Folded(env, size)
    ensures size >= BLOCK && Translate(env.mmu.writable, 0, env.priv) == Some(0)
  {
    var n: nat :| 10 <= n <= 32 && size == Pow2(n);
    Pow2Small();
    assert Pow2(10) == 4 * Pow2(8);
    Pow2Grows(10, n);
  }

  lemma AddStep(s: State, env: Env)
    requires Wide(s) && s.thumb
    ensures var r := Arch.Step(ADD, 2, s, env.mmu, env.priv); r.Done? && r.pc == 4
  {
    hide Field, Bit, Arch.DataProcessing;
    AddFields();
  }

  lemma SelfStep(s: State, env: Env)
    requires Wide(s) && s.thumb
    ensures Arch.Step(SELF, 2, s, env.mmu, env.priv) == Arch.Done(s, 2)
  {
    hide Field, Bit, Arch.SignedField;
    SelfFields();
  }

  /** On any such machine the run leaves behind the block, where the architecture, fetching what the store has left, stays. */
  lemma StoreOverCode(m: M, env: Env)
    requires Ready(m, env) && Folded(env, |m.s.ram|) && m.s.thumb && |m.s.ram| >= 4 && m.s.ram[..4] == CODE
    requires m.s.r[13] == 0 && m.s.r[0] == 0xe7fe_0000
    ensures var b := DecodeProgram(Fetched(m.s.ram[0..], 2, true), true, 0, Flat);
            && b.Some?
            && Run(b.value.uops, 0, m, env).Left? && Run(b.value.uops, 0, m, env).pc == 4
            && Live(0, 2, true, 0, m.s, env).Done? && Live(0, 2, true, 0, m.s, env).pc == 2
  {
    hide Run, Arch.Step, DecodeProgram, Fetched, Folded;
    var insns := Fetched(m.s.ram[0..], 2, true);
    FetchedCode(m.s.ram);
    var b := Decoded(insns);
    StoreStep(m.s, env);
    var t := Arch.Step(STORE, 0, m.s, env.mmu, env.priv).s;
    AddStep(t, env);
    SelfStep(t, env);
    Twice(m, env, insns, t);
    BlockRefines(insns, Place(0, 2, 0, true, Flat), b, m, env);
    if Run(b.uops, 0, m, env).Missed? {
      RunWithin([], b.uops, [], 0, m, env);
    }
  }

  lemma FetchedCode(ram: seq<Byte>)
    requires |ram| >= 4 && ram[..4] == CODE
    ensures Fetched(ram[0..], 2, true) == [STORE, ADD]
  {
    var w := Fetched(ram[0..], 2, true);
    assert ram[0] == CODE[0] && ram[1] == CODE[1] && ram[2] == CODE[2] && ram[3] == CODE[3];
    assert w[0] == ReadLe(ram[0..], 0, true) && w[1] == ReadLe(ram[0..], 2, true);
  }

  /** Two steps of what was decoded, and two steps of what is there. */
  lemma Twice(m: M, env: Env, insns: seq<Word>, t: State)
    requires Wide(m.s) && m.s.thumb && insns == [STORE, ADD] && |m.s.ram| >= 4 && m.s.ram[..4] == CODE
    requires Arch.Step(STORE, 0, m.s, env.mmu, env.priv) == Arch.Done(t, 2) && Wide(t) && t.thumb
    requires |t.ram| >= 4 && t.ram[2] == 0xfe && t.ram[3] == 0xe7
    requires Arch.Step(ADD, 2, t, env.mmu, env.priv).Done? && Arch.Step(ADD, 2, t, env.mmu, env.priv).pc == 4
    requires Arch.Step(SELF, 2, t, env.mmu, env.priv) == Arch.Done(t, 2)
    ensures Straight(insns, 2, true, 0, m.s, env).Done? && Straight(insns, 2, true, 0, m.s, env).pc == 4
    ensures Live(0, 2, true, 0, m.s, env) == Arch.Done(t, 2)
  {
    hide Arch.Step;
    assert Straight(insns, 0, true, 0, m.s, env) == Arch.Done(m.s, 0);
    assert Straight(insns, 1, true, 0, m.s, env) == Arch.Done(t, 2);
    assert m.s.ram[0] == CODE[0] && m.s.ram[1] == CODE[1];
    assert ReadLe(m.s.ram[0..], 0, true) == STORE;
    assert Live(0, 0, true, 0, m.s, env) == Arch.Done(m.s, 0);
    assert Live(0, 1, true, 0, m.s, env) == Arch.Done(t, 2);
    assert ReadLe(t.ram[0..], 2, true) == SELF;
  }
}
