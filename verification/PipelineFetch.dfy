/** The CPU and the two caches it asks: no block arrives that the instruction cache has not accepted, and an
    answer of the data cache lets its instruction go (src/cpu/pipelinecpu.cpp, lines 39-56, 99-123 and 320-366). */
module PipelineFetch {
  import opened PipelineSpec
  import opened PipelineRedirect
  import opened PipelineMemory

  /** Blocks asked for and not delivered. */
  function Outstanding(f: Fetch): int {
    |f.reqs| - One(f.valid)
  }

  /** In this cycle the cache accepts the block that the fetch stage offers it. */
  predicate BlockAccepted(arch: Arch, c: Cpu, inp: ExecIn) {
    var c2 := AtFetch(arch, c, inp);
    && !c2.exited && c2.fetch.valid && !c2.id.valid && |c2.fetch.reqs| > 0 && inp.icacheAccepts
    && !Faulty(c2.fetch.reqs[|c2.fetch.reqs| - 1]) && arch.translate(c2.core.sigma, c2.fetch.reqs[|c2.fetch.reqs| - 1].pc).Some?
  }

  predicate FewerBlocks(f: Fetch, f': Fetch) {
    f' == f || (f'.reqs == [] && !f'.valid)
  }

  lemma ExecuteBlocks(arch: Arch, c: Cpu, accepts: bool)
    ensures FewerBlocks(c.fetch, Execute(arch, c, accepts).fetch)
  {}

  lemma BackBlocks(arch: Arch, c: Cpu, accepts: bool)
    ensures FewerBlocks(c.fetch, Back(arch, c, accepts).fetch)
  {
    var c1 := MemStage(WbStage(c));
    assert FewerBlocks(c.fetch, c1.fetch);
    ExecuteBlocks(arch, c1, accepts);
  }

  lemma IdBlocks(arch: Arch, c: Cpu)
    ensures FewerBlocks(c.fetch, IdStage(arch, c).fetch)
  {}

  lemma PreIdBlocks(arch: Arch, c: Cpu, inst: Inst, a: Answer)
    ensures FewerBlocks(c.fetch, PreId(arch, c, inst, a).0.fetch)
  {}

  lemma AtFetchBlocks(arch: Arch, c: Cpu, inp: ExecIn)
    ensures FewerBlocks(c.fetch, AtFetch(arch, c, inp).fetch)
  {
    BackBlocks(arch, c, inp.dcacheAccepts);
    var c1 := Back(arch, c, inp.dcacheAccepts);
    IdBlocks(arch, c1);
    var c2 := IdStage(arch, c1);
    PreIdBlocks(arch, c2, c2.id.stallInst, inp.answer);
  }

  lemma FetchBlocks(arch: Arch, c: Cpu, inp: ExecIn)
    requires !c.exited
    ensures var f' := NextFetch(FetchStage(arch, c, inp.icacheAccepts), inp.slot).fetch;
      var taken := c.fetch.valid && !c.id.valid && |c.fetch.reqs| > 0 && inp.icacheAccepts
        && !Faulty(c.fetch.reqs[|c.fetch.reqs| - 1]) && arch.translate(c.core.sigma, c.fetch.reqs[|c.fetch.reqs| - 1].pc).Some?;
      0 <= Outstanding(c.fetch) ==> 0 <= Outstanding(f') <= Outstanding(c.fetch) + One(taken)
  {}

  lemma CycleBlocks(arch: Arch, c: Cpu, inp: ExecIn)
    requires !c.exited && 0 <= Outstanding(c.fetch)
    ensures 0 <= Outstanding(ExecCycle(arch, c, inp).fetch) <= Outstanding(c.fetch) + One(BlockAccepted(arch, c, inp))
  {
    AtFetchBlocks(arch, c, inp);
    var c2 := AtFetch(arch, c, inp);
    if !c2.exited { FetchBlocks(arch, c2, inp); }
  }

  lemma CallbackBlocks(arch: Arch, c: Cpu, a: Answer)
    requires Enabled(c, ICallback(a))
    ensures 0 <= Outstanding(ICacheAnswers(arch, c, a).fetch) <= Outstanding(c.fetch) - 1
  {
    var c1 := c.(fetch := c.fetch.(reqs := c.fetch.reqs[1..]));
    PreIdBlocks(arch, c1.(id := c1.id.(valid := true)), c.fetch.reqs[0], a);
  }

  // ---- whole runs ----

  /** Cycles in which a block was accepted. */
  function Accepted(arch: Arch, c: Cpu, steps: seq<Step>): nat {
    if |steps| == 0 then 0
    else
      var front, last := steps[..|steps| - 1], steps[|steps| - 1];
      var m := After(arch, c, front);
      Accepted(arch, c, front) + One(last.Exec? && !m.exited && BlockAccepted(arch, m, last.inp))
  }

  /** Callbacks that delivered one. */
  function Arrived(arch: Arch, c: Cpu, steps: seq<Step>): nat {
    if |steps| == 0 then 0
    else
      var front, last := steps[..|steps| - 1], steps[|steps| - 1];
      var m := After(arch, c, front);
      Arrived(arch, c, front) + One(last.ICallback? && !m.exited && Enabled(m, last))
  }

  /** For every schedule: the blocks delivered and those still outstanding were accepted by the instruction
      cache before, each in a cycle of its own. */
  lemma {:induction false} BlocksAreAccepted(arch: Arch, slot: Inst, env: Env, s: State, pc: Addr, steps: seq<Step>)
    ensures var c0 := Start(arch, slot, env, s, pc);
      var out := Outstanding(After(arch, c0, steps).fetch);
      0 <= out && Arrived(arch, c0, steps) + out <= Accepted(arch, c0, steps)
  {
    if |steps| > 0 {
      var front, last := steps[..|steps| - 1], steps[|steps| - 1];
      BlocksAreAccepted(arch, slot, env, s, pc, front);
      var m := After(arch, Start(arch, slot, env, s, pc), front);
      if !m.exited && Enabled(m, last) {
        match last
        case Exec(inp) => CycleBlocks(arch, m, inp);
        case ICallback(a) => CallbackBlocks(arch, m, a);
        case DCallback(i) =>
      }
    }
  }

  // ---- the data cache's answer ----

  /** The answer to the instruction in MEM lets it go to WB in the next cycle. */
  lemma AnswerLetsGo(arch: Arch, c: Cpu, inp: ExecIn)
    requires !c.exited && c.mem.valid && Asks(c.mem.inst) && c.mem.inst.memId < |c.mem.endMap|
    requires !(c.wb.valid && Faulty(c.wb.inst)) && c.tick - c.wb.tick <= TIMEOUT
    ensures var c' := Next(arch, Next(arch, c, DCallback(c.mem.inst.memId)), Exec(inp));
      c'.wb.valid && c'.wb.inst == c.mem.inst
  {
    AnsweredGoesOn(arch, Next(arch, c, DCallback(c.mem.inst.memId)), inp);
  }
}
