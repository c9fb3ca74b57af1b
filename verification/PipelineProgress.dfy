/** Nothing stands still on its own: an instruction goes through all stages, one a cycle, from its
    block's request to its retirement (src/cpu/pipelinecpu.cpp, lines 76-375). */
module PipelineProgress {
  import opened PipelineSpec
  import opened PipelineProof
  import opened PipelineRedirect
  import opened PipelineMemory
  import opened PipelineRetire

  /** Nothing in the stages behind ID, and ID does not wait. */
  predicate Quiet(c: Cpu) {
    !c.exited && !c.wb.valid && !c.mem.valid && !c.exe.valid && c.exe.stallCycle == 0 && !c.exe.end
    && !c.id.wait && c.tick - c.wb.tick <= TIMEOUT
  }

  lemma QuietBack(arch: Arch, c: Cpu, accepts: bool)
    requires Quiet(c)
    ensures ExeStage(arch, MemStage(WbStage(c)), accepts) == c
  {}

  predicate Empty(c: Cpu) {
    !c.id.valid && !c.id.stallValid
  }

  lemma EmptyCycle(arch: Arch, c: Cpu, inp: ExecIn)
    requires Quiet(c) && Empty(c)
    ensures ExecCycle(arch, c, inp) == NextFetch(FetchStage(arch, c, inp.icacheAccepts), inp.slot)
  {
    QuietBack(arch, c, inp.dcacheAccepts);
  }

  /** A block requested for the pc. */
  predicate Requested(c: Cpu, accepted: bool) {
    && Quiet(c) && Empty(c) && c.id.remain == 0 && c.fetch.valid
    && |c.fetch.reqs| == (if accepted then 2 else 1)
    && c.fetch.reqs[0].pc == c.core.pc && c.fetch.reqs[0].size == 4 && !Faulty(c.fetch.reqs[0])
  }

  lemma CycleRequests(arch: Arch, c: Cpu, inp: ExecIn)
    requires Quiet(c) && Empty(c) && c.id.remain == 0 && c.fetch == Fetch(false, c.core.pc, []) && c.tick - c.wb.tick < TIMEOUT
    ensures var c' := ExecCycle(arch, c, inp);
      Requested(c', false) && c'.core == c.core && c'.tick == c.tick + 1 && c'.wb == c.wb
  {
    EmptyCycle(arch, c, inp);
  }

  lemma CycleAccepts(arch: Arch, c: Cpu, inp: ExecIn)
    requires Requested(c, false) && arch.translate(c.core.sigma, c.core.pc).Some? && inp.icacheAccepts
    requires c.tick - c.wb.tick < TIMEOUT
    ensures var c' := ExecCycle(arch, c, inp);
      Requested(c', true) && c'.core == c.core && c'.tick == c.tick + 1 && c'.wb == c.wb
  {
    EmptyCycle(arch, c, inp);
  }

  /** ID holds the decoded instruction. */
  predicate Decoded(arch: Arch, c: Cpu, a: Answer, paddr: Addr) {
    && Quiet(c) && c.id.valid && c.core.env == Env(c.core.pc, Event.Decoded(a.irq, paddr, c.id.inst.info))
    && c.id.inst.info == arch.decode(c.core.sigma, c.core.pc, paddr, a.irq)
    && c.id.inst.pc == c.id.inst.realPc == c.core.pc && c.id.inst.size == 4
  }

  lemma CallbackDecodes(arch: Arch, c: Cpu, a: Answer)
    requires Requested(c, true) && arch.translate(c.core.sigma, c.core.pc).Some?
    ensures var c' := Next(arch, c, ICallback(a));
      && Decoded(arch, c', a, arch.translate(c.core.sigma, c.core.pc).value)
      && c'.core == c.core.(env := c'.core.env) && c'.tick == c.tick && c'.wb == c.wb
  {}

  // ---- from ID on ----

  /** What is over after one cycle in EXE and one in MEM. */
  predicate IsQuick(info: Info) {
    info.exception != EXC_NONE || (!IsLong(info.kind) && !IsMem(info.kind))
  }

  /** It is in EXE, committed. */
  predicate InExe(c: Cpu, info: Info) {
    && !c.exited && c.exe.valid && c.exe.stallCycle == 0 && !c.exe.end && c.exe.inst.info == info
    && !c.mem.valid && !c.wb.valid
  }

  lemma SettleGoesOn(arch: Arch, c: Cpu)
    requires !c.exited && c.id.inst.pc <= c.id.inst.realPc < Plus(c.id.inst.pc, c.id.inst.size)
    ensures var c' := Settle(arch, c); !c'.exited && c'.id.valid == c.id.valid && c'.id.inst.info == c.id.inst.info
  {}

  lemma IdHandsOver(arch: Arch, c: Cpu, a: Answer, paddr: Addr)
    requires Sane(arch) && Decoded(arch, c, a, paddr) && c.core.pc + 4 < TWO64
    ensures var c' := IdStage(arch, c);
      && InExe(c', c.id.inst.info) && c'.wb == c.wb && c'.tick == c.tick
      && |c'.core.trace| == |c.core.trace| + 1 && c'.core.trace[..|c.core.trace|] == c.core.trace
      && c'.core.trace[|c.core.trace|].pc == c.core.pc
      && c'.core.trace[|c.core.trace|].event == Event.Decoded(a.irq, paddr, c.id.inst.info)
  {
    var r := Retire(arch, c);
    SettleSides(arch, r);
    SettleGoesOn(arch, r);
  }

  /** The trace only grows. */
  predicate Longer(t: seq<Commit>, t': seq<Commit>) {
    |t| <= |t'| && t'[..|t|] == t
  }

  /** The stages in front of ID change nothing behind it. */
  lemma RestRuns(arch: Arch, c: Cpu, inp: ExecIn)
    requires !c.exited
    ensures var c' := NextFetch(FetchStage(arch, StallStage(arch, c, inp.answer), inp.icacheAccepts), inp.slot);
      SameBack(c, c') && !c'.exited
  {
    RestIsBehind(arch, c, inp);
    PreIdBlame(arch, c, c.id.stallInst, inp.answer);
    FetchRuns(arch, StallStage(arch, c, inp.answer), inp);
  }

  lemma FetchRuns(arch: Arch, c: Cpu, inp: ExecIn)
    requires !c.exited
    ensures !NextFetch(FetchStage(arch, c, inp.icacheAccepts), inp.slot).exited
  {}

  lemma CycleCommits(arch: Arch, c: Cpu, a: Answer, paddr: Addr, inp: ExecIn)
    requires Sane(arch) && Decoded(arch, c, a, paddr) && c.core.pc + 4 < TWO64
    ensures var c' := ExecCycle(arch, c, inp);
      && InExe(c', c.id.inst.info) && c'.wb == c.wb && c'.tick == c.tick + 1
      && |c'.core.trace| == |c.core.trace| + 1 && Longer(c.core.trace, c'.core.trace)
      && c'.core.trace[|c.core.trace|].pc == c.core.pc
      && c'.core.trace[|c.core.trace|].event == Event.Decoded(a.irq, paddr, c.id.inst.info)
  {
    QuietBack(arch, c, inp.dcacheAccepts);
    IdHandsOver(arch, c, a, paddr);
    RestRuns(arch, IdStage(arch, c), inp);
    assert ExecCycle(arch, c, inp) ==
      NextFetch(FetchStage(arch, StallStage(arch, IdStage(arch, c), inp.answer), inp.icacheAccepts), inp.slot);
    CycleTick(arch, c, inp);
  }

  lemma CycleExecutes(arch: Arch, c: Cpu, info: Info, inp: ExecIn)
    requires InExe(c, info) && IsQuick(info) && c.tick - c.wb.tick <= TIMEOUT
    ensures var c' := ExecCycle(arch, c, inp);
      c'.mem.valid && c'.mem.inst.info == info && c'.wb == c.wb && (!c'.exited ==> c'.tick == c.tick + 1)
  {
    ShortOperationsPass(arch, c, inp);
    assert MemStage(WbStage(c)) == c;
    ExeKeepsWb(arch, c, inp.dcacheAccepts);
    RestKeepsMem(arch, ExeStage(arch, c, inp.dcacheAccepts), inp);
    CycleTick(arch, c, inp);
  }

  lemma CycleLeavesMem(arch: Arch, c: Cpu, info: Info, inp: ExecIn)
    requires !c.exited && c.mem.valid && c.mem.inst.info == info && IsQuick(info) && !c.wb.valid && c.tick - c.wb.tick <= TIMEOUT
    ensures var c' := ExecCycle(arch, c, inp);
      && c'.wb.valid && c'.wb.inst.info == info && c'.wb.count == c.wb.count && c'.wb.tick == c.wb.tick
      && (!c'.exited ==> c'.tick == c.tick + 1)
  {
    AnsweredGoesOn(arch, c, inp);
    ExeKeepsWb(arch, MemStage(WbStage(c)), inp.dcacheAccepts);
    RestKeepsMem(arch, ExeStage(arch, MemStage(WbStage(c)), inp.dcacheAccepts), inp);
    CycleTick(arch, c, inp);
  }

  lemma CycleRetires(arch: Arch, c: Cpu, inp: ExecIn)
    requires !c.exited && c.wb.valid && c.tick - c.wb.tick <= TIMEOUT
    ensures ExecCycle(arch, c, inp).wb.count == c.wb.count + 1
  {
    var c1 := MemStage(WbStage(c));
    assert c1.wb.count == c.wb.count + 1;
    ExeKeepsWb(arch, c1, inp.dcacheAccepts);
    RestKeepsMem(arch, ExeStage(arch, c1, inp.dcacheAccepts), inp);
  }

  // ---- the way of one instruction ----

  /** From the request of its block to the commit: three cycles and a callback. */
  lemma FirstInstructionCommits(arch: Arch, slot: Inst, env: Env, s: State, pc: Addr, i: ExecIn, j: ExecIn, a: Answer, k: ExecIn)
    requires Sane(arch) && arch.translate(s, pc).Some? && j.icacheAccepts && pc + 4 < TWO64
    ensures var paddr := arch.translate(s, pc).value;
      var info := arch.decode(s, pc, paddr, a.irq);
      var c := Next(arch, Next(arch, Next(arch, Next(arch, Start(arch, slot, env, s, pc), Exec(i)), Exec(j)), ICallback(a)), Exec(k));
      && InExe(c, info) && c.tick == 3 && c.wb.count == 0 && c.wb.tick == 0
      && |c.core.trace| == 1 && c.core.trace[0].pc == pc && c.core.trace[0].event == Event.Decoded(a.irq, paddr, info)
  {
    var c0 := Start(arch, slot, env, s, pc);
    CycleRequests(arch, c0, i);
    var c1 := Next(arch, c0, Exec(i));
    CycleAccepts(arch, c1, j);
    var c2 := Next(arch, c1, Exec(j));
    CallbackDecodes(arch, c2, a);
    CycleCommits(arch, Next(arch, c2, ICallback(a)), a, arch.translate(s, pc).value, k);
  }

  /** And to its retirement three more, if nothing makes the pipeline give up. */
  lemma FirstInstructionRetires(arch: Arch, c: Cpu, info: Info, i: ExecIn, j: ExecIn, k: ExecIn)
    requires InExe(c, info) && IsQuick(info) && c.tick - c.wb.tick + 2 <= TIMEOUT
    ensures var c1 := Next(arch, c, Exec(i));
      var c2 := Next(arch, c1, Exec(j));
      var c3 := Next(arch, c2, Exec(k));
      !c1.exited && !c2.exited ==> c3.wb.count == c.wb.count + 1
  {
    CycleExecutes(arch, c, info, i);
    var c1 := Next(arch, c, Exec(i));
    if !c1.exited {
      CycleLeavesMem(arch, c1, info, j);
      var c2 := Next(arch, c1, Exec(j));
      if !c2.exited { CycleRetires(arch, c2, k); }
    }
  }
}
