/** When the pipelined CPU is the sequential machine: redirects never disturb an instruction
    that ID is about to commit, so a run is sequential exactly if no stale fault is ever handed
    to ID (src/cpu/pipelinecpu.cpp, lines 320-337). */
module PipelineRedirect {
  import opened PipelineSpec
  import opened PipelineProof

  // ---- who will redirect ----

  predicate Faulty(i: Inst) {
    i.info.exception != EXC_NONE
  }

  /** EXE will find that fetching went the wrong way. */
  predicate WentWrong(i: Inst) {
    && !Faulty(i)
    && ((i.info.kind == Cond && (PredError(i) || i.nextPc != i.realTarget)) || (IsJump(i.info.kind) && i.nextPc != i.realTarget))
  }

  /** The oldest instruction that will redirect. */
  function Culprit(exe: Exe, mem: Mem, wb: Wb): Option<Inst> {
    if wb.valid && Faulty(wb.inst) then Some(wb.inst)
    else if mem.valid && Faulty(mem.inst) then Some(mem.inst)
    else if exe.valid && (Faulty(exe.inst) || (!exe.end && WentWrong(exe.inst))) then Some(exe.inst)
    else None
  }

  predicate ExeOk(exe: Exe) {
    && (!exe.valid ==> exe.stallCycle == 0 && !exe.end)
    && (exe.stallCycle > 0 ==> !exe.end && !Faulty(exe.inst) && !WentWrong(exe.inst))
  }

  /** A younger instruction has just redirected in front of a trap: nothing is in ID, and what
      was asked for since has not arrived when the trap redirects again. */
  predicate Cut(c: Cpu) {
    && c.wb.valid && Faulty(c.wb.inst) && !c.id.valid && !c.id.stallValid
    && |c.fetch.reqs| == (if c.fetch.valid then 1 else 0)
  }

  /** A redirect to come goes to the current pc, and ID waits for it. */
  predicate Blame(c: Cpu) {
    var culprit := Culprit(c.exe, c.mem, c.wb);
    && ExeOk(c.exe)
    && (c.id.wait ==> culprit.Some?)
    && (culprit.Some? ==> culprit.value.realTarget == c.core.pc && (c.id.wait || Cut(c)))
  }

  /** The same inside a cycle, before the next block is asked for. */
  predicate BlameMid(c: Cpu) {
    Blame(c) && (Cut(c) ==> c.id.wait || !c.fetch.valid)
  }

  // ---- every stage keeps it ----

  lemma WbBlame(c: Cpu)
    requires Blame(c) && !c.exited
    ensures var c' := WbStage(c);
      !c'.exited ==> Blame(c') && !c'.wb.valid
  {}

  lemma MemBlame(c: Cpu)
    requires Blame(c) && !c.exited && !c.wb.valid
    ensures var c' := MemStage(c);
      Blame(c') && (Culprit(c'.exe, c'.mem, c'.wb).Some? ==> c'.id.wait) && (c'.mem.valid ==> !Faulty(c'.mem.inst))
  {}

  /** The same instruction, as far as redirecting goes. */
  predicate SameInst(a: Inst, b: Inst) {
    a.info == b.info && a.realTarget == b.realTarget && a.nextPc == b.nextPc && a.taken == b.taken
  }

  lemma ExecuteSides(arch: Arch, c: Cpu, accepts: bool)
    ensures var c' := Execute(arch, c, accepts);
      && c'.wb == c.wb && c'.mem.valid == c.mem.valid && c'.mem.inst == c.mem.inst && c'.exited == c.exited
      && c'.core == c.core && c'.exe.valid == c.exe.valid && SameInst(c'.exe.inst, c.exe.inst)
  {}

  lemma ExecuteWrong(arch: Arch, c: Cpu, accepts: bool)
    requires WentWrong(c.exe.inst)
    ensures var c', r := Execute(arch, c, accepts), BrRedirect(c, c.exe.inst);
      c'.exe.end && c'.exe.stallCycle == c.exe.stallCycle && c'.id == r.id && c'.fetch == r.fetch
  {}

  lemma ExecuteRight(arch: Arch, c: Cpu, accepts: bool)
    requires !WentWrong(c.exe.inst) && !c.exe.end && c.exe.stallCycle == 0
    ensures var c' := Execute(arch, c, accepts);
      c'.id == c.id && c'.fetch == c.fetch && (c'.exe.stallCycle > 0 ==> !c'.exe.end && !Faulty(c.exe.inst))
  {}

  lemma ExecuteBlame(arch: Arch, c: Cpu, accepts: bool)
    requires Blame(c) && c.exe.valid && c.exe.stallCycle == 0 && !c.exe.end
    requires Culprit(c.exe, c.mem, c.wb).Some? ==> c.id.wait
    requires c.mem.valid ==> !Faulty(c.mem.inst)
    ensures var c' := Execute(arch, c, accepts);
      && BlameMid(c') && c'.exited == c.exited && c'.wb == c.wb
      && (c'.mem.valid ==> !Faulty(c'.mem.inst))
  {
    ExecuteSides(arch, c, accepts);
    if WentWrong(c.exe.inst) {
      ExecuteWrong(arch, c, accepts);
    } else {
      ExecuteRight(arch, c, accepts);
    }
  }

  lemma ExeBlame(arch: Arch, c: Cpu, accepts: bool)
    requires Blame(c) && !c.exited
    requires Culprit(c.exe, c.mem, c.wb).Some? ==> c.id.wait
    requires c.mem.valid ==> !Faulty(c.mem.inst)
    ensures BlameMid(ExeStage(arch, c, accepts)) && !ExeStage(arch, c, accepts).exited
  {
    if c.exe.valid && c.exe.stallCycle == 0 && !c.exe.end {
      ExecuteBlame(arch, c, accepts);
    }
  }

  lemma SettleSides(arch: Arch, c: Cpu)
    ensures var c' := Settle(arch, c);
      && c'.core == c.core && SameInst(c'.id.inst, c.id.inst)
      && c'.exe == c.exe && c'.mem == c.mem && c'.wb == c.wb
  {}

  /** A commit makes the rest wait exactly if the instruction will redirect. */
  lemma SettleWaits(arch: Arch, c: Cpu)
    requires !c.id.wait && c.id.inst.realTarget == c.core.pc
    ensures Settle(arch, c).id.wait <==> Faulty(c.id.inst) || WentWrong(c.id.inst)
  {}

  lemma IdBlame(arch: Arch, c: Cpu)
    requires BlameMid(c) && !c.exited
    ensures var c' := IdStage(arch, c); !c'.exited ==> BlameMid(c')
  {
    if c.id.valid && !c.exe.valid && !c.id.wait {
      SettleSides(arch, Retire(arch, Fault(c, c.id.late)));
      SettleWaits(arch, Retire(arch, Fault(c, c.id.late)));
    }
  }

  /** What decoding ahead does not touch. */
  predicate Beside(c: Cpu, c': Cpu) {
    && c'.exe == c.exe && c'.mem == c.mem && c'.wb == c.wb && SameArch(c'.core, c.core)
    && c'.id.wait == c.id.wait && c'.id.valid == c.id.valid && c'.exited == c.exited
  }

  lemma DecodeBeside(arch: Arch, c: Cpu, paddr: Addr, a: Answer)
    ensures Beside(c, DecodeHere(arch, c, paddr, a).0) && !DecodeHere(arch, c, paddr, a).0.id.late
  {}

  lemma FaultBeside(c: Cpu, late: bool)
    ensures Beside(c, Fault(c, late))
    ensures c.id.inst.info.exception == EXC_IPF ==> Fault(c, late).id.late == late
  {}

  lemma PreDecodeBeside(arch: Arch, c: Cpu, a: Answer)
    ensures Beside(c, PreDecode(arch, c, a).0)
  {
    var t, cur := arch.translate(c.core.sigma, c.core.pc), c.id.inst;
    if t.None? {
      FaultBeside(c.(id := c.id.(inst := cur.(info := cur.info.(exception := EXC_IPF)))), false);
    } else if Faulty(cur) {
      FaultBeside(c.(id := c.id.(inst := cur.(paddr := t.value))), false);
    } else {
      DecodeBeside(arch, c, t.value, a);
    }
  }

  /** preId begins the block given, or goes on in the one it has. */
  function Begun(c: Cpu, inst: Inst): Cpu {
    c.(id := if c.id.remain <= 0 then c.id.(inst := inst, remain := c.id.remain + inst.size) else c.id)
  }

  lemma PreIdBegins(arch: Arch, c: Cpu, inst: Inst, a: Answer)
    ensures PreId(arch, c, inst, a) == PreDecode(arch, Begun(c, inst), a) && Beside(c, Begun(c, inst))
  {}

  lemma BesideTrans(a: Cpu, b: Cpu, c: Cpu)
    requires Beside(a, b) && Beside(b, c)
    ensures Beside(a, c)
  {}

  lemma PreIdBlame(arch: Arch, c: Cpu, inst: Inst, a: Answer)
    ensures Beside(c, PreId(arch, c, inst, a).0)
  {
    PreIdBegins(arch, c, inst, a);
    PreDecodeBeside(arch, Begun(c, inst), a);
    BesideTrans(c, Begun(c, inst), PreDecode(arch, Begun(c, inst), a).0);
  }

  lemma StallBlame(arch: Arch, c: Cpu, a: Answer)
    requires BlameMid(c) && !c.exited
    ensures BlameMid(StallStage(arch, c, a)) && !StallStage(arch, c, a).exited
  {
    PreIdBlame(arch, c, c.id.stallInst, a);
  }

  lemma FetchBlame(arch: Arch, c: Cpu, accepts: bool)
    requires BlameMid(c) && !c.exited
    ensures BlameMid(FetchStage(arch, c, accepts)) && !FetchStage(arch, c, accepts).exited
  {}

  lemma NextFetchBlame(c: Cpu, slot: Inst)
    requires BlameMid(c) && !c.exited
    ensures Blame(NextFetch(c, slot)) && !NextFetch(c, slot).exited
  {}

  lemma ICacheBlame(arch: Arch, c: Cpu, a: Answer)
    requires Blame(c) && !c.exited && Enabled(c, ICallback(a))
    ensures Blame(ICacheAnswers(arch, c, a)) && !ICacheAnswers(arch, c, a).exited
  {
    var c1 := c.(fetch := c.fetch.(reqs := c.fetch.reqs[1..]));
    PreIdBlame(arch, c1.(id := c1.id.(valid := true)), c.fetch.reqs[0], a);
  }

  // ---- one cycle ----

  /** The stages behind ID. */
  function Back(arch: Arch, c: Cpu, accepts: bool): Cpu {
    ExeStage(arch, MemStage(WbStage(c)), accepts)
  }

  /** The state in which the fetch stage runs. */
  function AtFetch(arch: Arch, c: Cpu, inp: ExecIn): Cpu {
    StallStage(arch, IdStage(arch, Back(arch, c, inp.dcacheAccepts)), inp.answer)
  }

  lemma BackBlame(arch: Arch, c: Cpu, accepts: bool)
    requires Blame(c) && !c.exited
    ensures var c' := Back(arch, c, accepts); !c'.exited ==> BlameMid(c')
  {
    WbBlame(c);
    if !WbStage(c).exited {
      MemBlame(WbStage(c));
      ExeBlame(arch, MemStage(WbStage(c)), accepts);
    }
  }

  lemma AtFetchBlame(arch: Arch, c: Cpu, inp: ExecIn)
    requires Blame(c) && !c.exited
    ensures var c' := AtFetch(arch, c, inp); !c'.exited ==> BlameMid(c')
  {
    BackBlame(arch, c, inp.dcacheAccepts);
    var c1 := Back(arch, c, inp.dcacheAccepts);
    if !c1.exited {
      IdBlame(arch, c1);
      if !IdStage(arch, c1).exited {
        StallBlame(arch, IdStage(arch, c1), inp.answer);
      }
    }
  }

  lemma NextBlame(arch: Arch, c: Cpu, s: Step)
    requires !c.exited ==> Blame(c)
    ensures !Next(arch, c, s).exited ==> Blame(Next(arch, c, s))
  {
    if !c.exited && Enabled(c, s) {
      match s
      case Exec(inp) =>
        AtFetchBlame(arch, c, inp);
        var c2 := AtFetch(arch, c, inp);
        if !c2.exited {
          FetchBlame(arch, c2, inp.icacheAccepts);
          NextFetchBlame(FetchStage(arch, c2, inp.icacheAccepts), inp.slot);
        }
      case ICallback(a) => ICacheBlame(arch, c, a);
      case DCallback(i) =>
    }
  }

  /** Nothing behind ID will redirect. */
  predicate Blameless(c: Cpu) {
    Culprit(c.exe, c.mem, c.wb).None?
  }

  predicate SameFront(a: Cpu, b: Cpu) {
    a.id == b.id && a.core == b.core && a.fetch == b.fetch
  }

  lemma WbPasses(c: Cpu)
    requires Blameless(c) && !c.exited
    ensures Blameless(WbStage(c)) && SameFront(WbStage(c), c)
  {}

  lemma MemPasses(c: Cpu)
    requires Blameless(c)
    ensures Blameless(MemStage(c)) && SameFront(MemStage(c), c)
  {}

  lemma ExecutePasses(arch: Arch, c: Cpu, accepts: bool)
    requires Blameless(c) && c.exe.valid && !c.exe.end
    ensures SameFront(Execute(arch, c, accepts), c)
  {}

  lemma ExePasses(arch: Arch, c: Cpu, accepts: bool)
    requires Blameless(c)
    ensures SameFront(ExeStage(arch, c, accepts), c)
  {
    if c.exe.valid && !c.exe.end {
      ExecutePasses(arch, c, accepts);
    }
  }

  /** An instruction ID is about to commit is not disturbed by the stages behind it. */
  lemma Undisturbed(arch: Arch, c: Cpu, accepts: bool)
    requires Blame(c) && !c.exited && c.id.valid && !c.id.wait
    ensures SameFront(Back(arch, c, accepts), c)
  {
    WbPasses(c);
    MemPasses(WbStage(c));
    ExePasses(arch, MemStage(WbStage(c)), accepts);
  }

  // ---- faults handed to ID ----

  /** ID holds a fault that is none any more, and will commit it. */
  ghost predicate StaleInId(arch: Arch, c: Cpu) {
    && c.id.valid && !c.id.wait && c.id.late && c.id.inst.info.exception == EXC_IPF
    && arch.translate(c.core.sigma, c.core.pc).Some?
  }

  /** The guard of lines 320-327 at the fetch stage: a faulting block goes straight to ID. */
  predicate HandsFault(arch: Arch, c: Cpu) {
    && !c.exited && c.fetch.valid && !c.id.valid && |c.fetch.reqs| == 1 && !c.id.stallValid
    && Faulty(Translated(arch, c.core.sigma, c.fetch.reqs[0]))
  }

  /** A cycle that hands ID a fault although the pc can be fetched from. */
  ghost predicate StaleHandover(arch: Arch, c: Cpu, s: Step) {
    s.Exec? && !c.exited && (
      var c2 := AtFetch(arch, c, s.inp);
      HandsFault(arch, c2) && !c2.id.wait && arch.translate(c2.core.sigma, c2.core.pc).Some?)
  }

  /** The commits are current, and so is what ID is about to commit. */
  ghost predicate OnTrack(arch: Arch, s: State, pc: Addr, c: Cpu) {
    SeqRun(arch, s, pc, c.core.trace) && !StaleInId(arch, c)
  }

  /** The fetch stage makes ID hold a stale fault exactly by handing it one. */
  lemma FetchHands(arch: Arch, c: Cpu, accepts: bool, slot: Inst)
    requires FetchOk(c.fetch) && !c.exited
    ensures var c' := NextFetch(FetchStage(arch, c, accepts), slot);
      && c'.core == c.core
      && (StaleInId(arch, c') <==>
            StaleInId(arch, c) || (HandsFault(arch, c) && !c.id.wait && arch.translate(c.core.sigma, c.core.pc).Some?))
  {}

  lemma StallHolds(arch: Arch, c: Cpu, a: Answer)
    ensures var c' := StallStage(arch, c, a);
      && SameArch(c'.core, c.core) && c'.exited == c.exited
      && (StaleInId(arch, c') <==> StaleInId(arch, c))
  {
    if !c.exited && !c.id.valid && c.id.stallValid {
      PreIdBlame(arch, c, c.id.stallInst, a);
      PreIdNotLate(arch, c, c.id.stallInst, a);
    }
  }

  /** Decoding ahead leaves no late fault. */
  lemma PreDecodeNotLate(arch: Arch, c: Cpu, a: Answer)
    ensures var c' := PreDecode(arch, c, a).0; c'.id.late ==> c'.id.inst.info.exception != EXC_IPF
  {
    var t, cur := arch.translate(c.core.sigma, c.core.pc), c.id.inst;
    if t.None? {
      FaultBeside(c.(id := c.id.(inst := cur.(info := cur.info.(exception := EXC_IPF)))), false);
    } else if Faulty(cur) {
      FaultBeside(c.(id := c.id.(inst := cur.(paddr := t.value))), false);
    } else {
      DecodeBeside(arch, c, t.value, a);
    }
  }

  lemma PreIdNotLate(arch: Arch, c: Cpu, inst: Inst, a: Answer)
    ensures var c' := PreId(arch, c, inst, a).0; c'.id.late ==> c'.id.inst.info.exception != EXC_IPF
  {
    PreIdBegins(arch, c, inst, a);
    PreDecodeNotLate(arch, Begun(c, inst), a);
  }

  lemma SeqExtends(arch: Arch, s: State, pc: Addr, trace: seq<Commit>, x: Commit)
    requires Linked(arch, s, pc, trace + [x])
    ensures SeqRun(arch, s, pc, trace + [x]) <==> SeqRun(arch, s, pc, trace) && Current(arch, x.before, x.pc, x.event)
  {
    var t := trace + [x];
    forall i | 0 <= i < |trace| ensures t[i] == trace[i] && t[..i] == trace[..i] {}
    assert t[|trace|] == x;
    if SeqRun(arch, s, pc, t) {
      assert Linked(arch, s, pc, trace);
    }
  }

  /** What ID commits is current unless it holds a stale fault. */
  lemma CommitsStale(arch: Arch, c: Cpu)
    requires IdOk(arch, c.core, c.id) && c.id.valid && !c.id.wait
    ensures var core := Fault(c, c.id.late).core;
      Current(arch, core.sigma, core.pc, core.env.event) <==> !StaleInId(arch, c)
  {}

  /** After the commit ID holds no fault. */
  lemma CommitLeaves(arch: Arch, c: Cpu)
    requires !c.exited && c.id.valid && !c.id.wait && !c.exe.valid
    ensures !StaleInId(arch, IdStage(arch, c))
  {
    SettleExit(arch, Retire(arch, Fault(c, c.id.late)));
  }

  lemma SettleExit(arch: Arch, c: Cpu)
    requires !c.exited
    ensures Settle(arch, c).exited ==> Settle(arch, c).id.inst.info.exception == EXC_NONE
  {}

  lemma IdTrace(arch: Arch, c: Cpu)
    requires FetchOk(c.fetch) && !c.exited && c.id.valid && !c.exe.valid && !c.id.wait
    ensures IdStage(arch, c).core == Committed(arch, Fault(c, c.id.late).core)
  {
    CommitShape(arch, Fault(c, c.id.late));
  }

  lemma IdIdle(arch: Arch, c: Cpu)
    requires c.exited || !c.id.valid || c.exe.valid || c.id.wait
    ensures var c' := IdStage(arch, c);
      SameArch(c'.core, c.core) && (StaleInId(arch, c') <==> StaleInId(arch, c)) && c'.id.wait == c.id.wait
  {}

  lemma IdOnTrack(arch: Arch, s: State, pc: Addr, c: Cpu)
    requires Inv(arch, s, pc, c)
    ensures OnTrack(arch, s, pc, IdStage(arch, c)) <==> OnTrack(arch, s, pc, c)
  {
    if c.exited || !c.id.valid || c.exe.valid || c.id.wait {
      IdIdle(arch, c);
    } else {
      IdEvent(arch, c);
      CommitsStale(arch, c);
      CommitLeaves(arch, c);
      IdTrace(arch, c);
      var core := Fault(c, c.id.late).core;
      CommitExtends(arch, s, pc, core);
      var (after, target) := Update(arch, core.sigma, core.env.pc, core.env.event);
      SeqExtends(arch, s, pc, core.trace, Commit(core.sigma, core.env.pc, core.env.event, after, target));
    }
  }

  /** The stages behind ID leave it on track or not. */
  lemma BackOnTrack(arch: Arch, s: State, pc: Addr, c: Cpu, accepts: bool)
    requires Blame(c) && !c.exited
    ensures OnTrack(arch, s, pc, Back(arch, c, accepts)) <==> OnTrack(arch, s, pc, c)
  {
    BackKeepsCore(arch, c, accepts);
    if c.id.valid && !c.id.wait {
      Undisturbed(arch, c, accepts);
    } else {
      BackFillsNothing(arch, c, accepts);
    }
  }

  lemma BackKeepsCore(arch: Arch, c: Cpu, accepts: bool)
    ensures Back(arch, c, accepts).core == c.core
  {
    ExecuteSides(arch, MemStage(WbStage(c)), accepts);
  }

  lemma BackFillsNothing(arch: Arch, c: Cpu, accepts: bool)
    requires !c.id.valid || c.id.wait
    ensures var c' := Back(arch, c, accepts); !c'.id.valid || c'.id.wait
  {}

  /** One step: the run stays on track unless the step hands ID a stale fault. */
  lemma StepOnTrack(arch: Arch, s: State, pc: Addr, c: Cpu, step: Step)
    requires Inv(arch, s, pc, c) && Sane(arch) && (!c.exited ==> Blame(c))
    ensures OnTrack(arch, s, pc, Next(arch, c, step)) <==> OnTrack(arch, s, pc, c) && !StaleHandover(arch, c, step)
  {
    if !c.exited && Enabled(c, step) {
      match step
      case Exec(inp) =>
        var c1 := Back(arch, c, inp.dcacheAccepts);
        BackOnTrack(arch, s, pc, c, inp.dcacheAccepts);
        BackKeeps(arch, s, pc, c, inp.dcacheAccepts);
        IdOnTrack(arch, s, pc, c1);
        StallHolds(arch, IdStage(arch, c1), inp.answer);
        IdKeeps(arch, s, pc, c1);
        StallKeeps(arch, s, pc, IdStage(arch, c1), inp.answer);
        var c2 := AtFetch(arch, c, inp);
        if !c2.exited {
          FetchHands(arch, c2, inp.icacheAccepts, inp.slot);
        }
      case ICallback(a) => CallbackOnTrack(arch, c, a);
      case DCallback(i) =>
    }
  }

  lemma BackKeeps(arch: Arch, s: State, pc: Addr, c: Cpu, accepts: bool)
    requires Inv(arch, s, pc, c)
    ensures Inv(arch, s, pc, Back(arch, c, accepts))
  {
    WbKeeps(arch, s, pc, c);
    MemKeeps(arch, s, pc, WbStage(c));
    ExeKeeps(arch, s, pc, MemStage(WbStage(c)), accepts);
  }

  lemma CallbackOnTrack(arch: Arch, c: Cpu, a: Answer)
    requires 0 < |c.fetch.reqs|
    ensures var c' := ICacheAnswers(arch, c, a);
      SameArch(c'.core, c.core) && (StaleInId(arch, c') <==> StaleInId(arch, c))
  {
    var c1 := c.(fetch := c.fetch.(reqs := c.fetch.reqs[1..]));
    if !c.id.valid {
      PreIdBlame(arch, c1.(id := c1.id.(valid := true)), c.fetch.reqs[0], a);
      PreIdNotLate(arch, c1.(id := c1.id.(valid := true)), c.fetch.reqs[0], a);
    }
  }

  // ---- the result ----

  /** Both invariants, over every run. */
  lemma {:induction false} RunBlame(arch: Arch, slot: Inst, env: Env, s: State, pc: Addr, steps: seq<Step>)
    ensures var c := After(arch, Start(arch, slot, env, s, pc), steps); !c.exited ==> Blame(c)
  {
    if |steps| > 0 {
      RunBlame(arch, slot, env, s, pc, steps[..|steps| - 1]);
      NextBlame(arch, After(arch, Start(arch, slot, env, s, pc), steps[..|steps| - 1]), steps[|steps| - 1]);
    }
  }

  /** No cycle of the run hands ID a stale fault. */
  ghost predicate HandsNoStaleFault(arch: Arch, c: Cpu, steps: seq<Step>) {
    forall k :: 0 <= k < |steps| ==> !StaleHandover(arch, After(arch, c, steps[..k]), steps[k])
  }

  lemma HandsMore(arch: Arch, c: Cpu, steps: seq<Step>)
    requires |steps| > 0
    ensures HandsNoStaleFault(arch, c, steps) <==>
      HandsNoStaleFault(arch, c, steps[..|steps| - 1])
      && !StaleHandover(arch, After(arch, c, steps[..|steps| - 1]), steps[|steps| - 1])
  {
    var front := steps[..|steps| - 1];
    forall k | 0 <= k < |front| ensures front[..k] == steps[..k] && front[k] == steps[k] {}
    if HandsNoStaleFault(arch, c, front) && !StaleHandover(arch, After(arch, c, front), steps[|steps| - 1]) {
      forall k | 0 <= k < |steps| ensures !StaleHandover(arch, After(arch, c, steps[..k]), steps[k]) {
        if k < |front| { assert !StaleHandover(arch, After(arch, c, front[..k]), front[k]); }
      }
    }
    if HandsNoStaleFault(arch, c, steps) {
      forall k | 0 <= k < |front| ensures !StaleHandover(arch, After(arch, c, front[..k]), front[k]) {
        assert !StaleHandover(arch, After(arch, c, steps[..k]), steps[k]);
      }
    }
  }

  /** For every schedule: what is committed, and what ID is about to commit, is a run of the
      sequential machine exactly if no cycle hands ID a fetch fault while the current pc can be
      fetched from. */
  lemma {:induction false} SequentialIffNoStaleHandover(arch: Arch, slot: Inst, env: Env, s: State, pc: Addr, steps: seq<Step>)
    requires Sane(arch)
    ensures OnTrack(arch, s, pc, After(arch, Start(arch, slot, env, s, pc), steps)) <==>
      HandsNoStaleFault(arch, Start(arch, slot, env, s, pc), steps)
  {
    var c0 := Start(arch, slot, env, s, pc);
    if |steps| > 0 {
      var front := steps[..|steps| - 1];
      SequentialIffNoStaleHandover(arch, slot, env, s, pc, front);
      RunKeeps(arch, slot, env, s, pc, front);
      RunBlame(arch, slot, env, s, pc, front);
      StepOnTrack(arch, s, pc, After(arch, c0, front), steps[|steps| - 1]);
      HandsMore(arch, c0, steps);
    }
  }
}
