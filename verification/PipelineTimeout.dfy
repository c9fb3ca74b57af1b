/** When the pipeline gives up (src/cpu/pipelinecpu.cpp, lines 76-97 and 205-260): not before thousands of
    cycles in which nothing was retired, or in which ID waited for a redirect that did not come. */
module PipelineTimeout {
  import opened PipelineSpec
  import opened PipelineProof
  import opened PipelineRedirect
  import opened PipelineMemory
  import opened PipelineRetire

  /** ID is about to commit an instruction that is not in the block it was cut from. */
  predicate OffBlock(arch: Arch, c: Cpu) {
    var r := Retire(arch, Fault(c, c.id.late));
    && c.id.valid && !c.id.wait && !c.exe.valid && !Faulty(r.id.inst)
    && !(r.id.inst.pc <= r.id.inst.realPc < Plus(r.id.inst.pc, r.id.inst.size))
  }

  /** Why a cycle gives up. */
  predicate GivesUp(arch: Arch, c: Cpu, accepts: bool) {
    || c.tick - c.wb.tick > 5000
    || (c.id.wait && c.tick - c.id.waitTick > 5000)
    || OffBlock(arch, Back(arch, c, accepts))
  }

  /** What is waited for, and since when. */
  predicate SameClocks(c: Cpu, c': Cpu) {
    && c'.tick == c.tick && c'.wb.tick == c.wb.tick && c'.wb.count == c.wb.count && c'.exited == c.exited
    && (c'.id.wait ==> c.id.wait && c'.id.waitTick == c.id.waitTick)
  }

  /** WB retires one and sets its clock, or does neither. */
  predicate WbClock(c: Cpu, c': Cpu) {
    if c'.wb.count == c.wb.count then c'.wb.tick == c.wb.tick else c'.wb.count == c.wb.count + 1 && c'.wb.tick == c.tick
  }

  lemma ClocksTrans(a: Cpu, b: Cpu, c: Cpu)
    requires SameClocks(a, b) && SameClocks(b, c)
    ensures SameClocks(a, c)
  {}

  lemma WbClocks(c: Cpu)
    requires !c.exited
    ensures var c' := WbStage(c);
      && c'.tick == c.tick && (c'.id.wait ==> c.id.wait && c'.id.waitTick == c.id.waitTick)
      && (c'.exited <==> c.tick - c.wb.tick > TIMEOUT)
      && WbClock(c, c')
  {}

  lemma MemClocks(c: Cpu)
    ensures SameClocks(c, MemStage(c))
  {}

  lemma ExecuteClocks(arch: Arch, c: Cpu, accepts: bool)
    ensures SameClocks(c, Execute(arch, c, accepts))
  {}

  lemma ExeClocks(arch: Arch, c: Cpu, accepts: bool)
    ensures SameClocks(c, ExeStage(arch, c, accepts))
  {
    ExecuteClocks(arch, c, accepts);
  }

  lemma BackClocks(arch: Arch, c: Cpu, accepts: bool)
    requires !c.exited
    ensures var c' := Back(arch, c, accepts);
      && c'.tick == c.tick && (c'.id.wait ==> c.id.wait && c'.id.waitTick == c.id.waitTick)
      && (c'.exited <==> c.tick - c.wb.tick > TIMEOUT)
      && WbClock(c, c')
  {
    WbClocks(c);
    MemClocks(WbStage(c));
    ExeClocks(arch, MemStage(WbStage(c)), accepts);
    ClocksTrans(WbStage(c), MemStage(WbStage(c)), Back(arch, c, accepts));
  }

  lemma SettleExits(arch: Arch, c: Cpu)
    requires !c.exited && !c.id.wait
    ensures var c', i := Settle(arch, c), c.id.inst;
      && c'.tick == c.tick && c'.wb == c.wb
      && (c'.exited ==> !Faulty(i) && !(i.pc <= i.realPc < Plus(i.pc, i.size))) && (c'.id.wait ==> c'.id.waitTick == c.tick)
  {}

  lemma IdExits(arch: Arch, c: Cpu)
    requires !c.exited
    ensures var c' := IdStage(arch, c);
      && c'.tick == c.tick && c'.wb == c.wb
      && (c'.exited ==> (c.id.wait && c.tick - c.id.waitTick > TIMEOUT) || OffBlock(arch, c))
      && (c'.id.wait ==> (c.id.wait && c'.id.waitTick == c.id.waitTick) || c'.id.waitTick == c.tick)
  {
    if c.id.valid && !c.exe.valid && !c.id.wait {
      SettleExits(arch, Retire(arch, Fault(c, c.id.late)));
    }
  }

  lemma PreIdClocks(arch: Arch, c: Cpu, inst: Inst, a: Answer)
    ensures SameClocks(c, PreId(arch, c, inst, a).0)
  {
    PreIdBegins(arch, c, inst, a);
    PreDecodeClocks(arch, Begun(c, inst), a);
    ClocksTrans(c, Begun(c, inst), PreDecode(arch, Begun(c, inst), a).0);
  }

  lemma PreDecodeClocks(arch: Arch, c: Cpu, a: Answer)
    ensures SameClocks(c, PreDecode(arch, c, a).0)
  {
    var t := arch.translate(c.core.sigma, c.core.pc);
    if t.Some? && !Faulty(c.id.inst) {
      DecodeClocks(arch, c, t.value, a);
    }
  }

  lemma DecodeClocks(arch: Arch, c: Cpu, paddr: Addr, a: Answer)
    ensures SameClocks(c, DecodeHere(arch, c, paddr, a).0)
  {}

  lemma StallClocks(arch: Arch, c: Cpu, a: Answer)
    ensures SameClocks(c, StallStage(arch, c, a))
  {
    PreIdClocks(arch, c, c.id.stallInst, a);
  }

  lemma CallbackClocks(arch: Arch, c: Cpu, a: Answer)
    requires 0 < |c.fetch.reqs|
    ensures SameClocks(c, ICacheAnswers(arch, c, a))
  {
    PreIdClocks(arch, c.(fetch := c.fetch.(reqs := c.fetch.reqs[1..]), id := c.id.(valid := true)), c.fetch.reqs[0], a);
  }

  lemma FetchClocks(arch: Arch, c: Cpu, accepts: bool)
    ensures SameClocks(c, FetchStage(arch, c, accepts))
  {}

  lemma NextClocks(c: Cpu, slot: Inst)
    ensures var c' := NextFetch(c, slot); SameClocks(c.(tick := c'.tick), c') && c'.tick == (if c.exited then c.tick else c.tick + 1)
  {}

  /** One cycle: the clock of WB restarts when it retires, that of ID when it begins to wait, and the
      pipeline gives up for one of the three reasons. */
  lemma CycleClocks(arch: Arch, c: Cpu, inp: ExecIn)
    requires !c.exited
    ensures var c' := ExecCycle(arch, c, inp);
      && (c'.exited ==> GivesUp(arch, c, inp.dcacheAccepts)) && (c.tick - c.wb.tick > TIMEOUT ==> c'.exited)
      && (!c'.exited ==> c'.tick == c.tick + 1)
      && WbClock(c, c')
      && (c'.id.wait ==> (c.id.wait && c'.id.waitTick == c.id.waitTick) || c'.id.waitTick == c.tick)
  {
    var c1 := Back(arch, c, inp.dcacheAccepts);
    BackClocks(arch, c, inp.dcacheAccepts);
    var c2 := IdStage(arch, c1);
    if !c1.exited { IdExits(arch, c1); }
    StallClocks(arch, c2, inp.answer);
    var c3 := StallStage(arch, c2, inp.answer);
    FetchClocks(arch, c3, inp.icacheAccepts);
    ClocksTrans(c2, c3, FetchStage(arch, c3, inp.icacheAccepts));
    NextClocks(FetchStage(arch, c3, inp.icacheAccepts), inp.slot);
  }

  lemma StepClocks(arch: Arch, c: Cpu, s: Step)
    requires !c.exited
    ensures var c' := Next(arch, c, s);
      && (c'.exited ==> s.Exec? && GivesUp(arch, c, s.inp.dcacheAccepts))
      && (s.Exec? && c.tick - c.wb.tick > TIMEOUT ==> c'.exited)
      && (!c'.exited ==> c'.tick == c.tick + One(s.Exec?))
      && WbClock(c, c') && (c'.wb.count != c.wb.count ==> s.Exec?)
      && (c'.id.wait ==> (c.id.wait && c'.id.waitTick == c.id.waitTick) || (s.Exec? && c'.id.waitTick == c.tick))
  {
    match s
    case Exec(inp) => CycleClocks(arch, c, inp);
    case ICallback(a) => if Enabled(c, s) { CallbackClocks(arch, c, a); }
    case DCallback(i) =>
  }

  // ---- whole runs ----

  /** WB has retired nothing since step k. */
  predicate Idle(arch: Arch, c0: Cpu, steps: seq<Step>, k: nat)
    requires k <= |steps|
  {
    After(arch, c0, steps[..k]).wb.count == After(arch, c0, steps).wb.count
  }

  /** ID has waited since step k. */
  predicate WaitsSince(arch: Arch, c0: Cpu, steps: seq<Step>, k: nat)
    requires k <= |steps|
  {
    forall j :: k <= j <= |steps| ==> After(arch, c0, steps[..j]).id.wait
  }

  /** The clock of WB tells when it last retired. */
  predicate RetiredAt(arch: Arch, c0: Cpu, steps: seq<Step>, k: nat)
    requires k <= |steps|
  {
    var c := After(arch, c0, steps);
    && c.wb.tick <= Cycles(steps[..k]) <= c.wb.tick + 1
    && Idle(arch, c0, steps, k) && (k > 0 ==> !Idle(arch, c0, steps, k - 1))
  }

  /** That of ID tells when it began to wait. */
  predicate WaitingFrom(arch: Arch, c0: Cpu, steps: seq<Step>, w: nat)
    requires w <= |steps|
  {
    var c := After(arch, c0, steps);
    c.id.wait ==> Cycles(steps[..w]) <= c.id.waitTick + 1 && WaitsSince(arch, c0, steps, w)
  }

  lemma FrontOf<T>(steps: seq<T>, n: nat, k: nat)
    requires k <= n <= |steps|
    ensures steps[..n][..k] == steps[..k]
  {}

  lemma IdleGrows(arch: Arch, c0: Cpu, steps: seq<Step>, k: nat)
    requires |steps| > 0 && k < |steps|
    requires After(arch, c0, steps[..|steps| - 1]).wb.count == After(arch, c0, steps).wb.count
    ensures Idle(arch, c0, steps[..|steps| - 1], k) == Idle(arch, c0, steps, k)
  {
    FrontOf(steps, |steps| - 1, k);
  }

  lemma RetiredGrows(arch: Arch, c0: Cpu, steps: seq<Step>, k: nat) returns (k': nat)
    requires |steps| > 0 && k < |steps| && RetiredAt(arch, c0, steps[..|steps| - 1], k)
    requires WbClock(After(arch, c0, steps[..|steps| - 1]), After(arch, c0, steps))
    requires After(arch, c0, steps[..|steps| - 1]).tick == Cycles(steps[..|steps| - 1])
    requires After(arch, c0, steps[..|steps| - 1]).wb.count != After(arch, c0, steps).wb.count ==> steps[|steps| - 1].Exec?
    ensures k' <= |steps| && RetiredAt(arch, c0, steps, k')
  {
    var front := steps[..|steps| - 1];
    if After(arch, c0, front).wb.count == After(arch, c0, steps).wb.count {
      k' := k;
      FrontOf(steps, |steps| - 1, k);
      IdleGrows(arch, c0, steps, k);
      if k > 0 { IdleGrows(arch, c0, steps, k - 1); }
    } else {
      k' := |steps|;
      assert steps[..k'] == steps;
    }
  }

  lemma WaitingGrows(arch: Arch, c0: Cpu, steps: seq<Step>, w: nat) returns (w': nat)
    requires |steps| > 0 && w < |steps| && WaitingFrom(arch, c0, steps[..|steps| - 1], w)
    requires var c, c' := After(arch, c0, steps[..|steps| - 1]), After(arch, c0, steps);
      && c.tick == Cycles(steps[..|steps| - 1])
      && (c'.id.wait ==> (c.id.wait && c'.id.waitTick == c.id.waitTick) || (steps[|steps| - 1].Exec? && c'.id.waitTick == c.tick))
    ensures w' <= |steps| && WaitingFrom(arch, c0, steps, w')
  {
    var front := steps[..|steps| - 1];
    var c, c' := After(arch, c0, front), After(arch, c0, steps);
    assert steps[..|steps|] == steps;
    if c.id.wait && c'.id.wait && c'.id.waitTick == c.id.waitTick {
      w' := w;
      FrontOf(steps, |steps| - 1, w);
      forall j | w <= j <= |steps| ensures After(arch, c0, steps[..j]).id.wait {
        if j < |steps| { FrontOf(steps, |steps| - 1, j); }
      }
    } else {
      w' := |steps|;
    }
  }

  lemma {:induction false} ClocksTell(arch: Arch, slot: Inst, env: Env, s: State, pc: Addr, steps: seq<Step>) returns (k: nat, w: nat)
    requires !After(arch, Start(arch, slot, env, s, pc), steps).exited
    ensures k <= |steps| && w <= |steps|
    ensures var c0 := Start(arch, slot, env, s, pc);
      var c := After(arch, c0, steps);
      && c.tick == Cycles(steps) && c.tick - c.wb.tick <= 5001
      && RetiredAt(arch, c0, steps, k) && WaitingFrom(arch, c0, steps, w)
  {
    var c0 := Start(arch, slot, env, s, pc);
    if |steps| == 0 {
      k, w := 0, 0;
    } else {
      var front, last := steps[..|steps| - 1], steps[|steps| - 1];
      k, w := ClocksTell(arch, slot, env, s, pc, front);
      StepClocks(arch, After(arch, c0, front), last);
      k := RetiredGrows(arch, c0, steps, k);
      w := WaitingGrows(arch, c0, steps, w);
    }
  }

  /** WB has retired nothing for 5000 cycles. */
  predicate LongIdle(arch: Arch, c0: Cpu, steps: seq<Step>) {
    exists k: nat :: k <= |steps| && Cycles(steps) - Cycles(steps[..k]) >= 5000 && Idle(arch, c0, steps, k)
  }

  /** ID has waited for 5000 cycles. */
  predicate LongWait(arch: Arch, c0: Cpu, steps: seq<Step>) {
    exists w: nat :: w <= |steps| && Cycles(steps) - Cycles(steps[..w]) >= 5000 && WaitsSince(arch, c0, steps, w)
  }

  /** WB has retired something, or the run has begun, at most 5001 cycles ago. */
  predicate RetiredLately(arch: Arch, c0: Cpu, steps: seq<Step>) {
    exists k: nat :: k <= |steps| && Cycles(steps) - Cycles(steps[..k]) <= 5001 && (k == 0 || !Idle(arch, c0, steps, k - 1))
  }

  /** For every schedule: the pipeline gives up in a cycle only if WB has retired nothing for 5000 cycles
      before it, ID has waited for 5000 cycles for a redirect, or the instruction ID commits is not in its
      block; and a run that has not given up has retired something lately. */
  lemma GivesUpOnlyOnTimeout(arch: Arch, slot: Inst, env: Env, s: State, pc: Addr, steps: seq<Step>, last: Step)
    requires !After(arch, Start(arch, slot, env, s, pc), steps).exited
    ensures var c0 := Start(arch, slot, env, s, pc);
      var c := After(arch, c0, steps);
      && (Next(arch, c, last).exited ==>
            last.Exec? && (LongIdle(arch, c0, steps) || LongWait(arch, c0, steps) ||
                           OffBlock(arch, Back(arch, c, last.inp.dcacheAccepts))))
      && RetiredLately(arch, c0, steps)
  {
    var k, w := ClocksTell(arch, slot, env, s, pc, steps);
    StepClocks(arch, After(arch, Start(arch, slot, env, s, pc), steps), last);
  }
}
