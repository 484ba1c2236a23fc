/** The pipelined core runs programs as the manual says: whatever the bus does, the architectural state after a run
    is that of the manual's instructions one after the other. */
module IsaRun {
  import opened Words
  import opened Machine
  import opened Isa
  import opened IsaExec
  import opened IsaSteps
  import opened IsaComplete
  import Rv32
  import PipelineProof

  // The manual's machine: the instruction the word at pc encodes, or the illegal-instruction trap
  ghost function ManualStep(s: Arch): Arch {
    var w := Rv32.ReadWord(s.mem, s.pc);
    if exists i: Insn :: Is(w, i) then
      var i :| Is(w, i);
      Meaning(i, s)
    else Trap(s, if U(s.pc) % 4 != 0 then 4 else 3)
  }

  ghost function ManualSteps(s: Arch, n: nat): Arch {
    if n == 0 then s else ManualStep(ManualSteps(s, n - 1))
  }

  lemma {:induction false} ManualStepIs(s: Arch)
    requires ZeroKept(s)
    ensures ManualStep(s) == Step(s)
  {
    hide Encode, Valid, Meaning, Trap, Step, Rv32.ReadWord, U;
    var w := Rv32.ReadWord(s.mem, s.pc);
    if exists i: Insn :: Is(w, i) {
      var i :| Is(w, i) && ManualStep(s) == Meaning(i, s);
      StepMeans(s, i);
    } else {
      forall i: Insn ensures Valid(i) ==> Encode(i) != w {
        assert !Is(w, i);
      }
      UndefinedTraps(s);
    }
  }

  lemma {:induction false} ManualStepsAre(s: Arch, n: nat)
    requires ZeroKept(s)
    ensures ManualSteps(s, n) == Steps(s, n) && ZeroKept(Steps(s, n))
  {
    hide ManualStep, Step;
    if n > 0 {
      ManualStepsAre(s, n - 1);
      ManualStepIs(Steps(s, n - 1));
      StepKeepsZero(Steps(s, n - 1));
    }
  }

  // The instruction at s.pc does not change the word after it
  ghost predicate SuccessorKept(s: Arch) {
    var next := OfInt(U(s.pc) + 4);
    Rv32.ReadWord(ManualStep(s).mem, next) == Rv32.ReadWord(s.mem, next)
  }

  lemma KeptIs(s: Arch)
    requires ZeroKept(s) && SuccessorKept(s)
    ensures NextWordKept(s)
  {
    hide ManualStep, Step, Rv32.ReadWord, Redirects, U, OfInt, Rv32.PcPlus4;
    ManualStepIs(s);
    PcPlus4Is(s.pc);
  }

  // After any number of clock edges with any acknowledges, the state is the manual's after as many instructions as
  // have retired, as long as none of them overwrites the word that follows it
  lemma {:induction false} RunFollowsManual(s: PipelineProof.System, es: seq<PipelineProof.Slave>)
    requires PipelineProof.Inv(s) && !s.core.idValid && ZeroKept(PipelineProof.Abs(s).arch)
    requires forall k :: 0 <= k < PipelineProof.Retired(s, es) - 1 ==>
      SuccessorKept(ManualSteps(PipelineProof.Abs(s).arch, k))
    ensures PipelineProof.Abs(PipelineProof.Run(s, es)).arch
      == ManualSteps(PipelineProof.Abs(s).arch, PipelineProof.Retired(s, es))
  {
    hide PipelineProof.Inv, PipelineProof.Abs, PipelineProof.Run, PipelineProof.Retired, ManualSteps, Steps,
      NextWordKept;
    hide SuccessorKept, ZeroKept;
    var a, n := PipelineProof.Abs(s).arch, PipelineProof.Retired(s, es);
    forall k: nat | k + 1 < n ensures NextWordKept(Steps(a, k)) {
      ManualStepsAre(a, k);
      KeptIs(ManualSteps(a, k));
    }
    PipelineProof.RunIsPlain(s, es);
    ManualStepsAre(a, n);
  }
}
