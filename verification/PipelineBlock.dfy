/** The instruction ID commits lies in the block it was cut from, so the check at the end of ID
    does not give up (src/cpu/pipelinecpu.cpp, lines 270-300, 346-360 and 434-467). */
module PipelineBlock {
  import opened PipelineSpec
  import opened PipelineProof
  import opened PipelineRedirect
  import opened PipelineStream
  import opened PipelineTimeout
  import R = PipelineRetire

  /** The instruction in ID starts its block or is two bytes in. */
  predicate Here(core: Core, id: Id) {
    id.valid ==> id.inst.realPc == core.pc && id.inst.size == 4 && (core.pc == id.inst.pc || core.pc == Plus(id.inst.pc, 2))
  }

  /** What remains of the block is its end. */
  predicate RestOk(core: Core, id: Id) {
    (if id.valid then !id.inst.taken else id.remain == 2) ==>
      id.inst.size == 4 && Plus(Ahead(core, id), id.remain) == Plus(id.inst.pc, 4)
  }

  predicate BlockOk(core: Core, id: Id) {
    id.wait || (id.valid && Faulty(id.inst)) || (Here(core, id) && RestOk(core, id))
  }

  // ---- the stages ----

  predicate SameOrEmpty(id: Id, id': Id) {
    id' == id || (!id'.valid && id'.remain == 0)
  }

  lemma ExecuteLeavesId(arch: Arch, c: Cpu, accepts: bool)
    ensures var c' := Execute(arch, c, accepts); c'.core == c.core && SameOrEmpty(c.id, c'.id)
  {}

  lemma ExeLeavesId(arch: Arch, c: Cpu, accepts: bool)
    ensures var c' := ExeStage(arch, c, accepts); c'.core == c.core && SameOrEmpty(c.id, c'.id)
  {
    ExecuteLeavesId(arch, c, accepts);
  }

  lemma BackBlock(arch: Arch, c: Cpu, accepts: bool)
    requires BlockOk(c.core, c.id)
    ensures var c' := Back(arch, c, accepts); BlockOk(c'.core, c'.id)
  {
    assert WbStage(c).core == c.core && SameOrEmpty(c.id, WbStage(c).id);
    assert MemStage(WbStage(c)).core == c.core && MemStage(WbStage(c)).id == WbStage(c).id;
    ExeLeavesId(arch, MemStage(WbStage(c)), accepts);
  }

  lemma CommitBlock(arch: Arch, c: Cpu)
    requires Regular(arch) && IdOk(arch, c.core, c.id) && Flowing(arch, c) && !c.exited && BlockOk(c.core, c.id)
    requires c.id.valid && !c.id.wait && !c.exe.valid && !Faulty(c.id.inst)
    ensures var c' := IdStage(arch, c); c'.exited || BlockOk(c'.core, c'.id)
  {
    var x := RetireFacts(arch, c);
    var r := Retire(arch, c);
    SettleWays(arch, r);
    SettleSides(arch, r);
    CommitMoves(arch, c);
    if c.id.remain == 2 && Settle(arch, r) == r && !r.exited {
      StaysOnPath(c.core.pc, c.id.inst, r.core.pc);
    }
  }

  lemma IdBlock(arch: Arch, c: Cpu)
    requires Regular(arch) && IdOk(arch, c.core, c.id) && StreamOk(arch, c) && BlameMid(c) && !c.exited && BlockOk(c.core, c.id)
    ensures var c' := IdStage(arch, c); c'.exited || BlockOk(c'.core, c'.id)
  {
    if c.id.valid && !c.id.wait && !c.exe.valid {
      if Faulty(c.id.inst) {
        SettleWaits(arch, Retire(arch, Fault(c, c.id.late)));
        SettleSides(arch, Retire(arch, Fault(c, c.id.late)));
      } else {
        CommitBlock(arch, c);
      }
    }
  }

  /** What decoding leaves in ID. */
  predicate Cuts(c: Cpu, c': Cpu) {
    && c'.core.pc == c.core.pc && c'.id.wait == c.id.wait
    && (Faulty(c'.id.inst) ||
        (&& c'.id.inst.realPc == c.core.pc && c'.id.inst.pc == c.id.inst.pc && c'.id.inst.size == c.id.inst.size
         && (!c'.id.inst.taken ==> c'.id.remain == c.id.remain - c'.id.inst.info.size)))
  }

  lemma DecodeCuts(arch: Arch, c: Cpu, paddr: Addr, a: Answer)
    ensures Cuts(c, DecodeHere(arch, c, paddr, a).0)
  {}

  lemma PreDecodeCuts(arch: Arch, c: Cpu, a: Answer)
    ensures Cuts(c, PreDecode(arch, c, a).0)
  {
    var t := arch.translate(c.core.sigma, c.core.pc);
    if t.Some? && !Faulty(c.id.inst) { DecodeCuts(arch, c, t.value, a); }
  }

  /** A block of which r0 bytes were missing. */
  lemma CutFromBlock(core: Core, id: Id, r0: int)
    requires id.valid && id.inst.realPc == core.pc && id.inst.size == 4
    requires Plus(core.pc, r0) == id.inst.pc && (r0 == 0 || r0 == -2)
    requires !id.inst.taken ==> id.remain == r0 + 4 - id.inst.info.size
    ensures BlockOk(core, id)
  {
    PlusZero(core.pc);
    PlusPlus(core.pc, -2, 2);
    PlusPlus(core.pc, r0, 4);
    PlusPlus(core.pc, id.inst.info.size, id.remain);
  }

  /** The second half of a block. */
  lemma CutFromRest(core: Core, id: Id)
    requires id.valid && id.inst.realPc == core.pc && id.inst.size == 4 && Plus(core.pc, 2) == Plus(id.inst.pc, 4)
    requires !id.inst.taken ==> id.remain == 2 - id.inst.info.size
    ensures BlockOk(core, id)
  {
    PlusPlus(id.inst.pc, 2, 2);
    PlusInjective(core.pc, Plus(id.inst.pc, 2), 2);
    PlusPlus(core.pc, id.inst.info.size, id.remain);
  }

  lemma PlusInjective(a: Addr, b: Addr, k: int)
    requires Plus(a, k) == Plus(b, k)
    ensures a == b
  {
    PlusPlus(a, k, -k);
    PlusPlus(b, k, -k);
    PlusZero(a);
    PlusZero(b);
  }

  lemma StallBlock(arch: Arch, c: Cpu, a: Answer)
    requires Regular(arch) && StreamOk(arch, c) && !c.exited && BlockOk(c.core, c.id)
    ensures var c' := StallStage(arch, c, a); BlockOk(c'.core, c'.id)
  {
    if !c.id.valid && c.id.stallValid && !c.id.wait {
      var b := Begun(c, c.id.stallInst);
      PreDecodeCuts(arch, b, a);
      PreIdBegins(arch, c, c.id.stallInst, a);
      var c1 := PreId(arch, c, c.id.stallInst, a).0;
      var c' := StallStage(arch, c, a);
      if !Faulty(c1.id.inst) {
        if c.id.remain == 2 { CutFromRest(c'.core, c'.id); } else { CutFromBlock(c'.core, c'.id, c.id.remain); }
      }
    }
  }

  lemma CallbackBlock(arch: Arch, c: Cpu, a: Answer)
    requires Regular(arch) && StreamOk(arch, c) && FetchOk(c.fetch) && !c.exited && Drained(c) && BlockOk(c.core, c.id)
    requires Enabled(c, ICallback(a))
    ensures var c' := ICacheAnswers(arch, c, a); BlockOk(c'.core, c'.id)
  {
    CallbackSides(arch, c, a);
    if !c.id.valid && !c.id.wait {
      var block := c.fetch.reqs[0];
      var c1 := c.(fetch := c.fetch.(reqs := c.fetch.reqs[1..]), id := c.id.(valid := true));
      PreDecodeCuts(arch, Begun(c1, block), a);
      PreIdBegins(arch, c1, block, a);
      assert LinkOk(c.fetch, 0);
      var c' := ICacheAnswers(arch, c, a);
      if !Faulty(c'.id.inst) {
        CutFromBlock(c'.core, c'.id, c.id.remain);
      }
    }
  }

  lemma FetchBlock(arch: Arch, c: Cpu, inp: ExecIn)
    requires BlockOk(c.core, c.id)
    ensures var c' := NextFetch(FetchStage(arch, c, inp.icacheAccepts), inp.slot); BlockOk(c'.core, c'.id)
  {}

  // ---- whole runs ----

  /** The state at the commit, and after the whole step. */
  lemma StepBlock(arch: Arch, s: State, pc: Addr, c: Cpu, step: Step)
    requires Regular(arch) && Inv(arch, s, pc, c) && Orderly(c, step)
    requires !c.exited ==> Blame(c) && StreamOk(arch, c) && Drained(c) && BlockOk(c.core, c.id)
    ensures var c' := Next(arch, c, step); !c'.exited ==> BlockOk(c'.core, c'.id)
  {
    if !c.exited && Enabled(c, step) {
      match step
      case Exec(inp) => CycleBlock(arch, s, pc, c, inp);
      case ICallback(a) => CallbackBlock(arch, c, a);
      case DCallback(i) =>
    }
  }

  lemma CycleBlock(arch: Arch, s: State, pc: Addr, c: Cpu, inp: ExecIn)
    requires Regular(arch) && Inv(arch, s, pc, c) && !c.exited && Blame(c) && StreamOk(arch, c) && BlockOk(c.core, c.id)
    ensures var c' := ExecCycle(arch, c, inp); !c'.exited ==> BlockOk(c'.core, c'.id)
  {
    var c1 := Back(arch, c, inp.dcacheAccepts);
    var c2 := IdStage(arch, c1);
    BackBlock(arch, c, inp.dcacheAccepts);
    BackBlame(arch, c, inp.dcacheAccepts);
    BackKeeps(arch, s, pc, c, inp.dcacheAccepts);
    if !c1.exited {
      BackStream(arch, c, inp.dcacheAccepts);
      IdBlock(arch, c1);
      IdStream(arch, c1);
      if !c2.exited {
        StallBlock(arch, c2, inp.answer);
        FetchBlock(arch, StallStage(arch, c2, inp.answer), inp);
      }
    }
  }

  lemma {:induction false} RunBlock(arch: Arch, slot: Inst, env: Env, s: State, pc: Addr, steps: seq<Step>)
    requires Regular(arch) && Steady(arch, s, pc) && AllOrderly(arch, Start(arch, slot, env, s, pc), steps)
    ensures var c := After(arch, Start(arch, slot, env, s, pc), steps); !c.exited ==> BlockOk(c.core, c.id)
  {
    if |steps| > 0 {
      var c0, n := Start(arch, slot, env, s, pc), |steps| - 1;
      var front := steps[..n];
      OrderlyFront(arch, c0, steps);
      RunBlock(arch, slot, env, s, pc, front);
      RunFlows(arch, slot, env, s, pc, front);
      RunKeeps(arch, slot, env, s, pc, front);
      RunBlame(arch, slot, env, s, pc, front);
      StepBlock(arch, s, pc, After(arch, c0, front), steps[n]);
    }
  }

  /** Where the check can fail: the block does not end below the top of the address space. */
  lemma OffBlockAtTheTop(arch: Arch, c: Cpu)
    requires Regular(arch) && BlockOk(c.core, c.id) && IdOk(arch, c.core, c.id) && OffBlock(arch, c)
    ensures c.id.inst.pc + 4 >= TWO64
  {
    RetireKeepsBlock(arch, c);
  }

  predicate SameCut(i: Inst, j: Inst) {
    i.pc == j.pc && i.realPc == j.realPc && i.size == j.size && Faulty(i) == Faulty(j)
  }

  lemma RetireKeepsBlock(arch: Arch, c: Cpu)
    ensures SameCut(Retire(arch, Fault(c, c.id.late)).id.inst, c.id.inst)
  {
    assert SameCut(Fault(c, c.id.late).id.inst, c.id.inst);
    RetireKeepsCut(arch, Fault(c, c.id.late));
  }

  lemma RetireKeepsCut(arch: Arch, c: Cpu)
    ensures SameCut(Retire(arch, c).id.inst, c.id.inst)
  {}

  /** So a steady program, its blocks arriving in order, makes the pipeline give up only after 5000 cycles
      without a retirement or of waiting, unless it has a block at the top of the address space. */
  lemma SteadyRunsGoOn(arch: Arch, slot: Inst, env: Env, s: State, pc: Addr, steps: seq<Step>, last: Step)
    requires Regular(arch) && Steady(arch, s, pc) && AllOrderly(arch, Start(arch, slot, env, s, pc), steps)
    requires !After(arch, Start(arch, slot, env, s, pc), steps).exited
    ensures var c0 := Start(arch, slot, env, s, pc);
      var c := After(arch, c0, steps);
      Next(arch, c, last).exited ==>
        && last.Exec?
        && (LongIdle(arch, c0, steps) || LongWait(arch, c0, steps) || c.id.inst.pc + 4 >= TWO64)
  {
    var c := After(arch, Start(arch, slot, env, s, pc), steps);
    GivesUpOnlyOnTimeout(arch, slot, env, s, pc, steps, last);
    RunBlock(arch, slot, env, s, pc, steps);
    RunKeeps(arch, slot, env, s, pc, steps);
    if last.Exec? { OffInThisCycle(arch, s, pc, c, last.inp.dcacheAccepts); }
  }

  lemma OffInThisCycle(arch: Arch, s: State, pc: Addr, c: Cpu, accepts: bool)
    requires Regular(arch) && Inv(arch, s, pc, c) && !c.exited && BlockOk(c.core, c.id)
    ensures OffBlock(arch, Back(arch, c, accepts)) ==> c.id.inst.pc + 4 >= TWO64
  {
    BackBlock(arch, c, accepts);
    BackKeeps(arch, s, pc, c, accepts);
    BackKeepsInst(arch, c, accepts);
    if OffBlock(arch, Back(arch, c, accepts)) {
      OffBlockAtTheTop(arch, Back(arch, c, accepts));
    }
  }

  lemma BackKeepsInst(arch: Arch, c: Cpu, accepts: bool)
    ensures Back(arch, c, accepts).id.inst == c.id.inst
  {
    ExeKeepsInst(arch, MemStage(WbStage(c)), accepts);
  }

  lemma ExeKeepsInst(arch: Arch, c: Cpu, accepts: bool)
    ensures ExeStage(arch, c, accepts).id.inst == c.id.inst
  {
    assert Execute(arch, c, accepts).id.inst == c.id.inst;
  }
}
