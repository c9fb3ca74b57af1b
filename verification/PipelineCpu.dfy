/** PipelineCPU as an object (src/cpu/pipelinecpu.cpp): exec, the redirects, preId and the
    cache callbacks change its fields in place, exactly as the cycle functions say.  Its
    fields are grouped by the stage they belong to. */
module PipelineCpu {
  import opened PipelineSpec
  import opened PipelineProof
  import opened PipelineRedirect
  import opened PipelineStream

  /** PipePredictor::predict: the address after the instruction, unless its kind says otherwise. */
  method PipePredict(pc: Addr, info: Info, b: Stream) returns (nextPc: Addr, taken: bool)
    ensures (nextPc, taken) == Predict(pc, info, b)
    ensures Suits(pc, info, nextPc, taken)
  {
    nextPc, taken := Plus(pc, info.size), false;
    match info.kind
    case Cond =>
      if b.taken { nextPc := info.dst2; }
      taken := b.taken;
    case Direct | Push =>
      nextPc, taken := info.dst2, true;
    case IndCall | IndPush | Indirect =>
      nextPc, taken := if b.indv then b.indTarget else b.target, true;
    case Pop | PopPush =>
      nextPc, taken := if b.rasv then b.rasTarget else b.target, true;
    case _ =>
  }

  class PipelineCPU {
    const arch: Arch
    var core: Core                // pc and what updateEnv changes
    var id: Id
    var exe: Exe
    var mem: Mem
    var wb: Wb
    var fetch: Fetch
    var tick: nat
    var exited: bool

    function View(): Cpu
      reads this
    {
      Cpu(core, id, exe, mem, wb, fetch, tick, exited)
    }

    constructor (arch: Arch, slot: Inst, env: Env, s: State, start: Addr)
      ensures this.arch == arch && View() == Start(arch, slot, env, s, start)
    {
      this.arch := arch;
      var inst := slot.(info := slot.info.(exception := EXC_NONE));
      core := Core(s, start, env, []);
      id := Id(false, false, false, false, inst, inst, 0, false, 0, false);
      exe := Exe(false, 0, false, inst);
      mem := Mem(false, inst, 0, 0, seq(arch.retireSize, _ => false));
      wb := Wb(false, inst, 0, 0);
      fetch := Fetch(false, start, []);
      tick, exited := 0, false;
    }

    method FrontRedirect(inst: Inst)
      modifies this
      ensures View() == old(PipelineSpec.FrontRedirect(View(), inst))
    {
      id := id.(stallValid := false, stallDecMore := false, stallInstValid := false, remain := 0);
      fetch := fetch.(valid := false, reqs := [], predPc := inst.realTarget);
    }

    method BrRedirect(inst: Inst)
      modifies this
      ensures View() == old(PipelineSpec.BrRedirect(View(), inst))
    {
      id := id.(valid := false, stallValid := false, stallDecMore := false, stallInstValid := false, remain := 0, wait := false);
      fetch := fetch.(valid := false, reqs := [], predPc := inst.realTarget);
    }

    method ExcRedirect(inst: Inst)
      modifies this
      ensures View() == old(PipelineSpec.ExcRedirect(View(), inst))
    {
      mem := mem.(valid := false, head := mem.tail);
      exe := exe.(valid := false, stallCycle := 0, end := false);
      BrRedirect(inst);
    }

    method HandleException(late: bool)
      modifies this
      ensures View() == old(Fault(View(), late))
    {
      if id.inst.info.exception == EXC_IPF {
        core := core.(env := Env(core.pc, Faulted(late)));
        id := id.(inst := id.inst.(info := id.inst.info.(excData := core.pc)), late := late);
      }
    }

    method PreId(inst: Inst, a: Answer) returns (finish: bool)
      modifies this
      ensures (View(), finish) == old(PipelineSpec.PreId(arch, View(), inst, a))
    {
      if id.remain <= 0 {
        id := id.(inst := inst, remain := id.remain + inst.size);
      }
      finish := PreDecode(a);
    }

    method PreDecode(a: Answer) returns (finish: bool)
      modifies this
      ensures (View(), finish) == old(PipelineSpec.PreDecode(arch, View(), a))
    {
      var t := arch.translate(core.sigma, core.pc);
      match t {
        case None => id := id.(inst := id.inst.(info := id.inst.info.(exception := EXC_IPF)));
        case Some(paddr) => id := id.(inst := id.inst.(paddr := paddr));
      }
      if id.inst.info.exception != EXC_NONE {
        HandleException(false);
        return true;
      }
      finish := DecodeHere(a);
    }

    method DecodeHere(a: Answer) returns (finish: bool)
      requires arch.translate(core.sigma, core.pc) == Some(id.inst.paddr) && id.inst.info.exception == EXC_NONE
      modifies this
      ensures (View(), finish) == old(PipelineSpec.PreDecode(arch, View(), a))
    {
      var info := arch.decode(core.sigma, core.pc, id.inst.paddr, a.irq);
      core := core.(env := Env(core.pc, Decoded(a.irq, id.inst.paddr, info)));
      var nextPc, taken := PipePredict(core.pc, info, a.stream);
      var inst := id.inst.(info := info, realSize := info.size, realPc := core.pc, nextPc := nextPc, taken := taken);
      if taken {
        inst := inst.(realTarget := inst.nextPc);
        id := id.(inst := inst, late := false);
        FrontRedirect(inst);
      } else {
        id := id.(inst := inst, late := false, remain := id.remain - info.size);
      }
      finish := id.remain <= 0;
    }

    method WriteBack()
      modifies this
      ensures View() == old(WbStage(View()))
    {
      if tick - wb.tick > TIMEOUT {
        exited := true;
        return;
      }
      if wb.valid {
        if wb.inst.info.exception != EXC_NONE {
          ExcRedirect(wb.inst);
        }
        var inst := wb.inst.(info := wb.inst.info.(exception := EXC_NONE), result := Normal);
        wb := wb.(valid := false, inst := inst, count := wb.count + 1, tick := tick);
      }
    }

    method MemoryEnd()
      modifies this
      ensures View() == old(MemStage(View()))
    {
      if exited || !mem.valid { return; }
      var memEnd := true;
      if mem.inst.info.exception == EXC_NONE && IsMem(mem.inst.info.kind) {
        memEnd := mem.inst.memId < |mem.endMap| && mem.endMap[mem.inst.memId];
        if memEnd {
          mem := mem.(endMap := mem.endMap[mem.inst.memId := false]);
        }
      }
      if memEnd {
        mem := mem.(valid := false);
        wb := wb.(valid := true, inst := mem.inst);
      }
    }

    method AskDcache(accepts: bool)
      modifies this
      ensures View() == old(PipelineSpec.AskDcache(arch, View(), accepts))
    {
      exe := exe.(inst := exe.inst.(memId := mem.tail));
      if accepts {
        mem := mem.(tail := Succ(arch, mem.tail));
        exe := exe.(end := true);
      }
    }

    method ExecuteInst(accepts: bool)
      modifies this
      ensures View() == old(Execute(arch, View(), accepts))
    {
      if exe.inst.info.exception != EXC_NONE {
        exe := exe.(end := true);
        return;
      }
      match exe.inst.info.kind
      case Mult | Div | FAdd | FMul | Fma | FDiv | FSqrt | FMiscComplex =>
        exe := exe.(stallCycle := arch.delay(exe.inst.info.kind));
      case Cond =>
        CheckTarget(PredError(exe.inst) || exe.inst.nextPc != exe.inst.realTarget);
      case Indirect | IndCall | IndPush | Pop | PopPush =>
        CheckTarget(exe.inst.nextPc != exe.inst.realTarget);
      case Load | Lr => AskDcache(accepts);
      case Sc =>
        if exe.inst.info.dst0 != 0 {
          exe := exe.(end := true, inst := exe.inst.(memId := mem.tail));
          mem := mem.(tail := Succ(arch, mem.tail),
                      endMap := if mem.tail < |mem.endMap| then mem.endMap[mem.tail := true] else mem.endMap);
        } else {
          AskDcache(accepts);
        }
      case Store | Amo => AskDcache(accepts);
      case _ => exe := exe.(end := true);
    }

    method CheckTarget(wrong: bool)
      modifies this
      ensures var ended := old(View().(exe := exe.(end := true)));
        View() == if wrong then Mispredicted(ended, old(exe.inst)) else ended
    {
      if wrong {
        BrRedirect(exe.inst);
        exe := exe.(inst := exe.inst.(result := PredFail));
      }
      exe := exe.(end := true);
    }

    method ExecuteStage(accepts: bool)
      modifies this
      ensures View() == old(ExeStage(arch, View(), accepts))
    {
      if exited || !exe.valid { return; }
      if exe.stallCycle > 0 {
        exe := exe.(stallCycle := exe.stallCycle - 1);
        if exe.stallCycle == 0 { exe := exe.(end := true); }
      } else if !exe.end {
        ExecuteInst(accepts);
      }
      if exe.end && !mem.valid {
        mem := mem.(valid := true, inst := exe.inst);
        exe := exe.(end := false, valid := false);
      }
    }

    method UpdateEnv()
      modifies this
      ensures View() == old(Retire(arch, View()))
    {
      var (after, target) := Update(arch, core.sigma, core.env.pc, core.env.event);
      var commit := Commit(core.sigma, core.env.pc, core.env.event, after, target);
      core := core.(sigma := after, pc := target, trace := core.trace + [commit]);
      id := id.(inst := id.inst.(realTarget := target));
    }

    method CheckPath()
      modifies this
      ensures View() == old(Settle(arch, View()))
    {
      var inst := id.inst;
      var targetEq := core.pc == inst.nextPc;
      var isCond := inst.info.kind == Cond;
      var isJump := IsJump(inst.info.kind);
      var isBranch := isCond || isJump || inst.info.kind == Direct || inst.info.kind == Push;
      var archFlush := NeedFlush(arch, inst.info);
      var waits := false;
      if inst.info.exception != EXC_NONE {
        waits := true;
      } else if isJump {
        waits := !targetEq;
      } else if isCond {
        waits := PredError(inst) || !targetEq;
      } else if archFlush || (!isBranch && inst.taken) {
        FrontRedirect(inst);
        if archFlush { id := id.(inst := inst.(result := CsrRedirect)); }
      } else if !(inst.pc <= inst.realPc < Plus(inst.pc, inst.size)) {
        exited := true;
      }
      if waits {
        id := id.(wait := true, waitTick := tick);
      }
    }

    method DecodeStage()
      modifies this
      ensures View() == old(IdStage(arch, View()))
    {
      if exited || !id.valid || exe.valid { return; }
      HandleException(id.late);
      if !id.wait {
        UpdateEnv();
        CheckPath();
      } else if tick - id.waitTick > TIMEOUT {
        exited := true;
      }
      if exited { return; }
      exe := exe.(valid := true, inst := id.inst);
      id := id.(valid := false);
    }

    method Refill(a: Answer)
      modifies this
      ensures View() == old(StallStage(arch, View(), a))
    {
      if exited || id.valid || !id.stallValid { return; }
      var finish := PreId(id.stallInst, a);
      id := id.(valid := true);
      if id.stallDecMore {
        id := id.(stallDecMore := !finish, stallValid := !(finish && !id.stallInstValid));
      } else if id.stallInstValid {
        id := id.(stallInstValid := !finish, stallValid := !finish);
      }
    }

    method FetchBlock(accepts: bool)
      modifies this
      ensures View() == old(FetchStage(arch, View(), accepts))
    {
      if exited || !fetch.valid || id.valid || |fetch.reqs| == 0 { return; }
      var n := |fetch.reqs| - 1;
      var r := Translated(arch, core.sigma, fetch.reqs[n]);
      if r.info.exception != EXC_NONE {
        if n == 0 && !id.stallValid {
          id := id.(valid := true, inst := r, late := true, remain := id.remain + r.size);
          fetch := fetch.(reqs := [], valid := false);
        } else {
          fetch := fetch.(reqs := fetch.reqs[n := r]);
        }
      } else {
        fetch := fetch.(reqs := fetch.reqs[n := r]);
        if accepts { fetch := fetch.(valid := false); }
      }
    }

    method NextBlock(slot: Inst)
      modifies this
      ensures View() == old(NextFetch(View(), slot))
    {
      if exited { return; }
      if !fetch.valid {
        var r := slot.(pc := fetch.predPc, size := 4, info := slot.info.(exception := EXC_NONE));
        fetch := fetch.(valid := true, predPc := Plus(fetch.predPc, 4), reqs := fetch.reqs + [r]);
      }
      tick := tick + 1;
    }

    method Exec(inp: ExecIn)
      modifies this
      ensures View() == old(ExecCycle(arch, View(), inp))
    {
      if exited { return; }
      WriteBack();
      MemoryEnd();
      ExecuteStage(inp.dcacheAccepts);
      DecodeStage();
      Refill(inp.answer);
      FetchBlock(inp.icacheAccepts);
      NextBlock(inp.slot);
    }

    method ICacheCallback(a: Answer)
      requires 0 < |fetch.reqs|
      modifies this
      ensures View() == old(ICacheAnswers(arch, View(), a))
    {
      var inst := fetch.reqs[0];
      fetch := fetch.(reqs := fetch.reqs[1..]);
      if !id.valid {
        id := id.(valid := true);
        var finish := PreId(inst, a);
        id := id.(stallValid := !finish, stallDecMore := !finish);
      } else {
        id := id.(stallValid := true, stallInst := inst, stallInstValid := true);
      }
    }

    method DCacheCallback(i: nat)
      modifies this
      ensures View() == old(DCacheAnswers(arch, View(), i))
    {
      mem := mem.(head := Succ(arch, mem.head), endMap := if i < |mem.endMap| then mem.endMap[i := true] else mem.endMap);
    }

    method Take(step: Step)
      modifies this
      ensures View() == old(Next(arch, View(), step))
    {
      if exited { return; }
      match step
      case Exec(inp) => Exec(inp);
      case ICallback(a) =>
        if |fetch.reqs| > (if fetch.valid then 1 else 0) { ICacheCallback(a); }
      case DCallback(i) => DCacheCallback(i);
    }
  }

  /** Any schedule, from reset: the instructions committed, and the one ID is about to commit, are a
      run of the sequential machine exactly if no cycle hands ID a stale fault; and none does if the
      code ahead stays as fetchable as it was found, and no block arrives while one is parked. */
  method Simulate(arch: Arch, slot: Inst, env: Env, s: State, start: Addr, steps: seq<Step>) returns (cpu: PipelineCPU)
    requires Sane(arch)
    ensures fresh(cpu) && cpu.View() == After(arch, Start(arch, slot, env, s, start), steps)
    ensures Linked(arch, s, start, cpu.core.trace)
    ensures cpu.core.sigma == EndState(s, cpu.core.trace) && cpu.core.pc == EndPc(start, cpu.core.trace)
    ensures OnTrack(arch, s, start, cpu.View()) <==> HandsNoStaleFault(arch, Start(arch, slot, env, s, start), steps)
    ensures Regular(arch) && Steady(arch, s, start) && AllOrderly(arch, Start(arch, slot, env, s, start), steps) ==>
      SeqRun(arch, s, start, cpu.core.trace)
  {
    cpu := new PipelineCPU(arch, slot, env, s, start);
    var i := 0;
    while i < |steps|
      invariant 0 <= i <= |steps| && fresh(cpu) && cpu.arch == arch
      invariant cpu.View() == After(arch, Start(arch, slot, env, s, start), steps[..i])
    {
      assert steps[..i + 1][..i] == steps[..i];
      cpu.Take(steps[i]);
      i := i + 1;
    }
    assert steps[..i] == steps;
    RunKeeps(arch, slot, env, s, start, steps);
    SequentialIffNoStaleHandover(arch, slot, env, s, start, steps);
    if Regular(arch) && Steady(arch, s, start) && AllOrderly(arch, Start(arch, slot, env, s, start), steps) {
      EveryRunIsSequential(arch, slot, env, s, start, steps);
    }
  }
}
