/** A flat block run several times over: END restarts dispatch while rounds are left. */
module RefineLoop {
  import opened Words
  import opened Handlers
  import opened Decode
  import opened Program
  import opened Validate
  import opened Agreement
  import opened Machine
  import opened Exec
  import opened RefineMemory
  import opened RefineProgram
  import Arch

  // ------------------------------------------------------------ The repeated run

  /** Threaded dispatch with a count of rounds, which END alone looks at: while it is above one, dispatch starts over. */
  function RunRounds(uops: seq<Uop>, i: nat, rounds: nat, m: M, env: Env): (o: Stop)
    requires Ready(m, env) && i <= |uops| && rounds > 0
    decreases rounds, |uops| - i
  {
    if i == |uops| then Fell(m)
    else if uops[i].op.f == End && Legal(uops[i].op) && rounds > 1 then RunRounds(uops, 0, rounds - 1, m, env)
    else
      match Step(uops[i], m, env)
      case Next(m1) => RunRounds(uops, i + 1, rounds, m1, env)
      case Skip(m1, n) => if i + 1 + n <= |uops| then RunRounds(uops, i + 1 + n, rounds, m1, env) else Unmodelled
      case Exit(m1, pc) => Left(m1, pc)
      case Miss(m1) => Missed(m1, i)
      case Other => Unmodelled
  }

  /** The architecture executing a list of instructions that many times, each round from where the last one led. */
  function Rounds(insns: seq<Word>, rounds: nat, thumb: bool, pc: Word, s: State, env: Env): (r: Arch.Result)
    decreases rounds
  {
    if rounds == 0 then Arch.Done(s, pc)
    else
      match Straight(insns, |insns|, thumb, pc, s, env)
      case Undefined => Arch.Undefined
      case Done(t, at) =>
        if rounds == 1 then Arch.Done(t, at)
        else if at == pc then Rounds(insns, rounds - 1, thumb, pc, t, env)
        else Arch.Undefined
  }

  // ------------------------------------------------------------ One round

  ghost predicate Turns(u: Uop) { !IsTerminalBranch(u.op.f) }

  lemma EndStep(u: Uop, m: M, env: Env)
    requires Ready(m, env) && Turns(u) && Step(u, m, env).Exit?
    ensures u.op.f == End && Legal(u.op) && Step(u, m, env) == Exit(m, u.imm)
  {
    hide AluStep, MemoryStep, VfpStep, BranchStep;
    StepLeaves(u, m, env);
    FixedExit(u, m, env);
  }

  /** Without a branch among its records a run leaves by an END, in the instruction set it began in. */
  lemma {:induction false} LeavesByEnd(t: seq<Uop>, i: nat, m: M, env: Env)
    requires Ready(m, env) && i <= |t| && forall k :: i <= k < |t| ==> Turns(t[k])
    ensures var run := Run(t, i, m, env);
            run.Left? ==> && Ready(run.m, env) && run.m.s.thumb == m.s.thumb && |run.m.s.ram| == |m.s.ram|
                          && exists k :: i <= k < |t| && t[k].op.f == End && t[k].imm == run.pc
    decreases |t| - i
  {
    hide Step, Turns, Storing, Leaving;
    if i < |t| {
      StepKeeps2(t[i], m, env);
      var o := Step(t[i], m, env);
      if o.Next? {
        LeavesByEnd(t, i + 1, o.m, env);
      } else if o.Skip? && i + 1 + o.n <= |t| {
        LeavesByEnd(t, i + 1 + o.n, o.m, env);
      } else if o.Exit? {
        EndStep(t[i], m, env);
      }
    }
  }

  /** A repeated run is one run, and then the rounds left from where it ended. */
  lemma {:induction false} OneRound(t: seq<Uop>, i: nat, rounds: nat, m: M, env: Env)
    requires Ready(m, env) && i <= |t| && rounds > 0 && forall k :: 0 <= k < |t| ==> Turns(t[k])
    ensures Run(t, i, m, env).Left? ==> Ready(Run(t, i, m, env).m, env)
    ensures RunRounds(t, i, rounds, m, env)
            == match Run(t, i, m, env)
               case Left(m1, at) => if rounds == 1 then Left(m1, at) else RunRounds(t, 0, rounds - 1, m1, env)
               case stop => stop
    decreases |t| - i
  {
    hide Step, Turns, Legal, Storing, Leaving;
    LeavesByEnd(t, i, m, env);
    if i < |t| {
      if t[i].op.f == End && Legal(t[i].op) {
        FixedExit(t[i], m, env);
      }
      var o := Step(t[i], m, env);
      if o.Next? {
        OneRound(t, i + 1, rounds, o.m, env);
      } else if o.Skip? && i + 1 + o.n <= |t| {
        OneRound(t, i + 1 + o.n, rounds, o.m, env);
      } else if o.Exit? {
        EndStep(t[i], m, env);
      }
    }
  }

  // ------------------------------------------------------------ All rounds

  /** The run has done all its rounds as the architecture would, or has refused in one of them with everything before it done;
      flat runs only where the architecture defines every access. */
  ghost predicate SettledRounds(run: Stop, rounds: nat, insns: seq<Word>, uops: seq<Uop>, p: Place, s: State, env: Env) {
    || (!Reads(p.mode) && Rounds(insns, rounds, p.thumb, p.pc, s, env).Undefined?)
    || match run
       case Left(m, at) => Rounds(insns, rounds, p.thumb, p.pc, s, env) == Arch.Done(m.s, at)
       case Missed(m, j) => j < |uops| && RefusedInRounds(rounds, uops[j], m.s, insns, uops, p, s, env)
       case _ => false
  }

  ghost predicate RefusedRound(done: nat, k: nat, rounds: nat, u: Uop, now: State, insns: seq<Word>, uops: seq<Uop>, p: Place, s: State, env: Env) {
    && done < rounds
    && var r := Rounds(insns, done, p.thumb, p.pc, s, env);
       r.Done? && r.pc == p.pc && Refused(k, u, now, insns, uops, p, r.s, env)
  }

  ghost predicate RefusedInRounds(rounds: nat, u: Uop, now: State, insns: seq<Word>, uops: seq<Uop>, p: Place, s: State, env: Env) {
    exists done, k :: RefusedRound(done, k, rounds, u, now, insns, uops, p, s, env)
  }

  lemma RefusedLater(rounds: nat, u: Uop, now: State, insns: seq<Word>, uops: seq<Uop>, p: Place, s: State, t: State, env: Env)
    requires RefusedInRounds(rounds, u, now, insns, uops, p, t, env)
    requires Straight(insns, |insns|, p.thumb, p.pc, s, env) == Arch.Done(t, p.pc)
    ensures RefusedInRounds(rounds + 1, u, now, insns, uops, p, s, env)
  {
    hide Straight, Refused;
    var done: nat, k: nat :| RefusedRound(done, k, rounds, u, now, insns, uops, p, t, env);
    assert RefusedRound(done + 1, k, rounds + 1, u, now, insns, uops, p, s, env);
  }

  lemma RefusedAtOnce(rounds: nat, u: Uop, now: State, insns: seq<Word>, uops: seq<Uop>, p: Place, s: State, env: Env, k: nat)
    requires rounds > 0 && Refused(k, u, now, insns, uops, p, s, env)
    ensures RefusedInRounds(rounds, u, now, insns, uops, p, s, env)
  {
    hide Straight, Refused;
    assert RefusedRound(0, k, rounds, u, now, insns, uops, p, s, env);
  }

  /** A block that may repeat ends in its one END, which leads back to its start. */
  lemma LoopShape(insns: seq<Word>, p: Place, b: Block, rounds: nat)
    requires |insns| == p.insns && Halfwords(insns, p.thumb) && DecodeProgram(insns, p.thumb, p.pc, p.mode) == Some(b)
    requires rounds > 1 && Repeats(b, rounds, p.mode)
    ensures forall k :: 0 <= k < |b.uops| ==> Turns(b.uops[k]) && (b.uops[k].op.f == End ==> b.uops[k].imm == p.pc)
  {
    hide DecodeProgram, RecordOk, TraitsOf, KindOk, CountOk, Marks;
    BodyOfBlock(insns, b, p);
    var body := b.uops[..|b.uops| - 1];
    TraitWitness(DynamicExit, body, b.thumb);
    forall k | 0 <= k < |b.uops|
      ensures Turns(b.uops[k]) && (b.uops[k].op.f == End ==> b.uops[k].imm == p.pc)
    {
      if k < |body| {
        assert RecordOk(b, k) && body[k] == b.uops[k];
        BodyTurns(b, k);
      }
    }
  }

  lemma BodyTurns(b: Block, k: nat)
    requires k < |b.uops| - 1 && RecordOk(b, k) && DynamicExit !in Marks(b.uops[k].op.f, b.thumb)
    ensures Turns(b.uops[k]) && b.uops[k].op.f != End
  {
    hide Legal, StoreImmediate, VfpArithImmediate, GuardMetadata, TerminalShape;
    MarksIsMarked(DynamicExit, b.uops[k].op.f, b.thumb);
  }

  /** A self-loop run any number of times is the architecture executing its instructions that often, round after round. */
  lemma {:induction false} LoopRefines(insns: seq<Word>, p: Place, b: Block, rounds: nat, m: M, env: Env)
    requires |insns| == p.insns && Halfwords(insns, p.thumb) && DecodeProgram(insns, p.thumb, p.pc, p.mode) == Some(b)
    requires rounds > 0 && Repeats(b, rounds, p.mode)
    requires Ready(m, env) && Suits(p.mode, env, |m.s.ram|) && m.s.thumb == p.thumb
    ensures SettledRounds(RunRounds(b.uops, 0, rounds, m, env), rounds, insns, b.uops, p, m.s, env)
    decreases rounds
  {
    hide Run, RunRounds, Suits, Refused, DecodeProgram, Straight, Turns, RefusedInRounds, Rounds, StoresLast, Quiet, Repeats;
    BlockRefines(insns, p, b, m, env);
    var run := Run(b.uops, 0, m, env);
    RoundsOpen(insns, rounds, p.thumb, p.pc, m.s, env);
    if run.Missed? && run.at < |b.uops| {
      forall k | Refused(k, b.uops[run.at], run.m.s, insns, b.uops, p, m.s, env)
        ensures RefusedInRounds(rounds, b.uops[run.at], run.m.s, insns, b.uops, p, m.s, env)
      {
        RefusedAtOnce(rounds, b.uops[run.at], run.m.s, insns, b.uops, p, m.s, env, k);
      }
    }
    if rounds == 1 {
      SingleRound(b.uops, 0, m, env);
    } else {
      LoopShape(insns, p, b, rounds);
      LeavesByEnd(b.uops, 0, m, env);
      OneRound(b.uops, 0, rounds, m, env);
      if run.Left? && Straight(insns, |insns|, p.thumb, p.pc, m.s, env).Done? {
        RepeatsFewer(b, rounds, p.mode);
        LoopRefines(insns, p, b, rounds - 1, run.m, env);
        var all := RunRounds(b.uops, 0, rounds - 1, run.m, env);
        if all.Missed? && all.at < |b.uops| && RefusedInRounds(rounds - 1, b.uops[all.at], all.m.s, insns, b.uops, p, run.m.s, env) {
          RefusedLater(rounds - 1, b.uops[all.at], all.m.s, insns, b.uops, p, m.s, run.m.s, env);
        }
      }
    }
  }

  lemma RepeatsFewer(b: Block, rounds: nat, mode: Mode)
    requires rounds > 1 && Repeats(b, rounds, mode)
    ensures Repeats(b, rounds - 1, mode)
  {
  }

  lemma RoundsOpen(insns: seq<Word>, rounds: nat, thumb: bool, pc: Word, s: State, env: Env)
    requires rounds > 0
    ensures var first := Straight(insns, |insns|, thumb, pc, s, env);
            Rounds(insns, rounds, thumb, pc, s, env)
            == if first.Done? && rounds > 1 && first.pc == pc then Rounds(insns, rounds - 1, thumb, pc, first.s, env)
               else if first.Done? && rounds == 1 then first
               else Arch.Undefined
  {
    hide Straight;
  }

  lemma {:induction false} SingleRound(t: seq<Uop>, i: nat, m: M, env: Env)
    requires Ready(m, env) && i <= |t|
    ensures RunRounds(t, i, 1, m, env) == Run(t, i, m, env)
    decreases |t| - i
  {
    hide Step;
    if i < |t| {
      var o := Step(t[i], m, env);
      if o.Next? {
        SingleRound(t, i + 1, o.m, env);
      } else if o.Skip? && i + 1 + o.n <= |t| {
        SingleRound(t, i + 1 + o.n, o.m, env);
      }
    }
  }
}
