/** The way from ID to the end: WB retires what ID has committed, each instruction once and in order, and
    long operations take their time in EXE (src/cpu/pipelinecpu.cpp, lines 76-318). */
module PipelineRetire {
  import opened PipelineSpec
  import opened PipelineProof
  import opened PipelineRedirect
  import opened PipelineMemory

  // ---- what is on the way ----

  function Opt(b: bool, i: Inst): seq<Inst> {
    if b then [i] else []
  }

  /** The committed instructions in EXE, MEM and WB, oldest first: what is behind a fault is not. */
  function OnTheWay(c: Cpu): seq<Inst> {
    Opt(c.wb.valid, c.wb.inst) + if c.wb.valid && Faulty(c.wb.inst) then [] else BehindWb(c)
  }

  function BehindWb(c: Cpu): seq<Inst> {
    Opt(c.mem.valid, c.mem.inst) + if c.mem.valid && Faulty(c.mem.inst) then [] else Opt(c.exe.valid, c.exe.inst)
  }

  /** The instruction is the one of this commit: what was decoded, and where it went. */
  predicate Carries(i: Inst, x: Commit) {
    && i.realTarget == x.target
    && (match x.event
        case Decoded(_, _, info) => i.info == info
        case Faulted(_) => i.info.exception == EXC_IPF && i.info.excData == x.pc)
  }

  predicate AllCarry(way: seq<Inst>, xs: seq<Commit>) {
    |way| == |xs| && forall j :: 0 <= j < |way| ==> Carries(way[j], xs[j])
  }

  /** WB has counted the first commits, and the rest is on the way. */
  predicate InOrder(c: Cpu) {
    c.wb.count <= |c.core.trace| && AllCarry(OnTheWay(c), c.core.trace[c.wb.count..])
  }

  predicate SameWay(a: seq<Inst>, b: seq<Inst>) {
    |a| == |b| && forall j :: 0 <= j < |a| ==> a[j].info == b[j].info && a[j].realTarget == b[j].realTarget
  }

  lemma SameWayCarries(a: seq<Inst>, b: seq<Inst>, xs: seq<Commit>)
    requires SameWay(a, b) && AllCarry(a, xs)
    ensures AllCarry(b, xs)
  {
    forall j | 0 <= j < |b| ensures Carries(b[j], xs[j]) {
      assert Carries(a[j], xs[j]);
    }
  }

  lemma WbOrder(c: Cpu)
    requires InOrder(c) && !c.exited && !WbStage(c).exited
    ensures InOrder(WbStage(c))
  {
    var c' := WbStage(c);
    if c.wb.valid {
      assert OnTheWay(c')[..] == OnTheWay(c)[1..];
      assert c.core.trace[c.wb.count..][1..] == c.core.trace[c.wb.count + 1..];
    }
  }

  lemma MemOrder(c: Cpu)
    requires InOrder(c) && !c.exited && !c.wb.valid
    ensures InOrder(MemStage(c)) && (MemStage(c).mem.valid ==> !Faulty(MemStage(c).mem.inst))
  {
    assert SameWay(OnTheWay(c), OnTheWay(MemStage(c)));
    SameWayCarries(OnTheWay(c), OnTheWay(MemStage(c)), c.core.trace[c.wb.count..]);
  }

  /** The instruction of EXE stays there or goes on to MEM. */
  lemma ExeMoves(arch: Arch, c: Cpu, accepts: bool)
    ensures var c' := ExeStage(arch, c, accepts);
      && c'.wb == c.wb && c'.core == c.core
      && if c'.exe.valid || !c.exe.valid
         then c'.exe.valid == c.exe.valid && SameInst(c'.exe.inst, c.exe.inst) && c'.mem.valid == c.mem.valid && c'.mem.inst == c.mem.inst
         else !c.mem.valid && c'.mem.valid && SameInst(c'.mem.inst, c.exe.inst)
  {
    ExecuteSides(arch, c, accepts);
  }

  lemma ExeOrder(arch: Arch, c: Cpu, accepts: bool)
    requires InOrder(c) && (c.mem.valid ==> !Faulty(c.mem.inst))
    ensures InOrder(ExeStage(arch, c, accepts))
  {
    ExeMoves(arch, c, accepts);
    ExeMovedOrder(c, ExeStage(arch, c, accepts));
  }

  lemma ExeMovedOrder(c: Cpu, c': Cpu)
    requires InOrder(c) && (c.mem.valid ==> !Faulty(c.mem.inst)) && c'.wb == c.wb && c'.core == c.core
    requires if c'.exe.valid || !c.exe.valid
      then c'.exe.valid == c.exe.valid && SameInst(c'.exe.inst, c.exe.inst) && c'.mem.valid == c.mem.valid && c'.mem.inst == c.mem.inst
      else !c.mem.valid && c'.mem.valid && SameInst(c'.mem.inst, c.exe.inst)
    ensures InOrder(c')
  {
    assert SameWay(OnTheWay(c), OnTheWay(c'));
    SameWayCarries(OnTheWay(c), OnTheWay(c'), c.core.trace[c.wb.count..]);
  }

  // ---- ID ----

  /** What ID hands to EXE is what it has just committed. */
  lemma CommitCarries(arch: Arch, c: Cpu)
    requires IdOk(arch, c.core, c.id) && !c.exited && c.id.valid && !c.id.wait && !c.exe.valid && FetchOk(c.fetch)
    ensures var c' := IdStage(arch, c);
      && |c'.core.trace| == |c.core.trace| + 1 && c'.core.trace[..|c.core.trace|] == c.core.trace
      && (!c'.exited ==> c'.exe.valid && Carries(c'.exe.inst, c'.core.trace[|c.core.trace|]))
  {
    var c1 := Fault(c, c.id.late);
    var r := Retire(arch, c1);
    IdEvent(arch, c);
    SettleSides(arch, r);
    RetireCarries(arch, c1);
  }

  lemma RetireCarries(arch: Arch, c: Cpu)
    requires c.core.env.pc == c.core.pc
    requires match c.core.env.event
      case Decoded(_, _, info) => c.id.inst.info == info
      case Faulted(_) => c.id.inst.info.exception == EXC_IPF && c.id.inst.info.excData == c.core.pc
    ensures var r := Retire(arch, c);
      && r.core.trace == c.core.trace + [r.core.trace[|c.core.trace|]]
      && Carries(r.id.inst, r.core.trace[|c.core.trace|])
  {}

  lemma WaitingHandsOver(arch: Arch, c: Cpu)
    requires !c.exited && c.id.valid && c.id.wait && !c.exe.valid
    ensures var c' := IdStage(arch, c);
      c'.core.trace == c.core.trace && c'.mem == c.mem && c'.wb == c.wb
  {}

  lemma IdOrder(arch: Arch, c: Cpu)
    requires InOrder(c) && IdOk(arch, c.core, c.id) && FetchOk(c.fetch) && BlameMid(c) && !c.exited
    ensures !IdStage(arch, c).exited ==> InOrder(IdStage(arch, c))
  {
    var c' := IdStage(arch, c);
    IdKeepsBack(arch, c);
    if c.id.valid && !c.exe.valid && !c'.exited {
      if c.id.wait {
        WaitingHandsOver(arch, c);
        assert OnTheWay(c') == OnTheWay(c);
      } else {
        CommitCarries(arch, c);
        assert OnTheWay(c') == OnTheWay(c) + [c'.exe.inst];
        CarryMore(OnTheWay(c), c.core.trace, c'.exe.inst, c'.core.trace, c.wb.count);
      }
    }
  }

  lemma CarryMore(way: seq<Inst>, trace: seq<Commit>, i: Inst, trace': seq<Commit>, n: nat)
    requires n <= |trace| && AllCarry(way, trace[n..])
    requires |trace'| == |trace| + 1 && trace'[..|trace|] == trace && Carries(i, trace'[|trace|])
    ensures AllCarry(way + [i], trace'[n..])
  {
    forall j | 0 <= j < |way| + 1 ensures Carries((way + [i])[j], trace'[n..][j]) {
      if j < |way| {
        assert Carries(way[j], trace[n..][j]);
        assert trace'[..|trace|][n + j] == trace[n + j];
      }
    }
  }

  // ---- whole runs ----

  predicate SameBack(a: Cpu, b: Cpu) {
    a.exe == b.exe && a.mem == b.mem && a.wb == b.wb && a.core.trace == b.core.trace
  }

  lemma SameBackOrder(a: Cpu, b: Cpu)
    requires InOrder(a) && SameBack(a, b)
    ensures InOrder(b)
  {
    assert OnTheWay(a) == OnTheWay(b);
  }

  lemma RestIsBehind(arch: Arch, c: Cpu, inp: ExecIn)
    ensures SameBack(c, NextFetch(FetchStage(arch, StallStage(arch, c, inp.answer), inp.icacheAccepts), inp.slot))
  {
    PreIdBlame(arch, c, c.id.stallInst, inp.answer);
  }

  /** The stages behind ID, in their order. */
  lemma BackOrder(arch: Arch, c: Cpu, accepts: bool)
    requires InOrder(c) && !c.exited && !WbStage(c).exited
    ensures InOrder(Back(arch, c, accepts))
  {
    WbOrder(c);
    WbFlags(c);
    MemOrder(WbStage(c));
    ExeOrder(arch, MemStage(WbStage(c)), accepts);
  }

  lemma CycleOrder(arch: Arch, s: State, pc: Addr, c: Cpu, inp: ExecIn)
    requires Inv(arch, s, pc, c) && Blame(c) && InOrder(c) && !c.exited
    ensures !ExecCycle(arch, c, inp).exited ==> InOrder(ExecCycle(arch, c, inp))
  {
    var c1 := Back(arch, c, inp.dcacheAccepts);
    var c2 := IdStage(arch, c1);
    BackBlame(arch, c, inp.dcacheAccepts);
    BackKeeps(arch, s, pc, c, inp.dcacheAccepts);
    if !WbStage(c).exited && !c1.exited {
      BackOrder(arch, c, inp.dcacheAccepts);
      IdOrder(arch, c1);
      RestIsBehind(arch, c2, inp);
      if !c2.exited {
        SameBackOrder(c2, ExecCycle(arch, c, inp));
      }
    }
  }

  lemma StepOrder(arch: Arch, s: State, pc: Addr, c: Cpu, step: Step)
    requires Inv(arch, s, pc, c)
    requires !c.exited ==> Blame(c) && InOrder(c)
    ensures !Next(arch, c, step).exited ==> InOrder(Next(arch, c, step))
  {
    if !c.exited && Enabled(c, step) {
      match step
      case Exec(inp) => CycleOrder(arch, s, pc, c, inp);
      case ICallback(a) =>
        CallbackKeepsBack(arch, c, a);
        CallbackOnTrack(arch, c, a);
        SameBackOrder(c, ICacheAnswers(arch, c, a));
      case DCallback(i) => DataOrder(arch, c, i);
    }
  }

  lemma DataOrder(arch: Arch, c: Cpu, i: nat)
    requires InOrder(c)
    ensures InOrder(DCacheAnswers(arch, c, i))
  {
    assert OnTheWay(c) == OnTheWay(DCacheAnswers(arch, c, i));
  }

  /** For every schedule: the instructions WB has counted are the first commits, and those in WB, MEM and
      EXE carry the following ones, in order; none is lost, doubled or overtaken, and the one in WB is
      the next. */
  lemma {:induction false} RetiresInOrder(arch: Arch, slot: Inst, env: Env, s: State, pc: Addr, steps: seq<Step>)
    requires Sane(arch)
    ensures var c := After(arch, Start(arch, slot, env, s, pc), steps);
      !c.exited ==> InOrder(c) && (c.wb.valid ==> c.wb.count < |c.core.trace| && Carries(c.wb.inst, c.core.trace[c.wb.count]))
  {
    var c0 := Start(arch, slot, env, s, pc);
    if |steps| > 0 {
      var front := steps[..|steps| - 1];
      RetiresInOrder(arch, slot, env, s, pc, front);
      RunKeeps(arch, slot, env, s, pc, front);
      RunBlame(arch, slot, env, s, pc, front);
      StepOrder(arch, s, pc, After(arch, c0, front), steps[|steps| - 1]);
    }
    WbIsNext(After(arch, c0, steps));
  }

  lemma WbIsNext(c: Cpu)
    ensures InOrder(c) && c.wb.valid ==> c.wb.count < |c.core.trace| && Carries(c.wb.inst, c.core.trace[c.wb.count])
  {
    if InOrder(c) && c.wb.valid {
      assert Carries(OnTheWay(c)[0], c.core.trace[c.wb.count..][0]);
    }
  }

  // ---- long operations ----

  /** How many cycles a schedule has. */
  function Cycles(steps: seq<Step>): nat {
    if |steps| == 0 then 0 else Cycles(steps[..|steps| - 1]) + One(steps[|steps| - 1].Exec?)
  }

  /** The long operation `i` is in EXE, n cycles after it came, and nothing older will redirect. */
  predicate Working(arch: Arch, c: Cpu, i: Inst, n: nat) {
    && c.exe.valid && c.exe.inst == i && !c.exe.end && !Faulty(i) && IsLong(i.info.kind)
    && n <= arch.delay(i.info.kind) && c.exe.stallCycle == (if n == 0 then 0 else arch.delay(i.info.kind) - n + 1)
    && !(c.wb.valid && Faulty(c.wb.inst)) && !(c.mem.valid && Faulty(c.mem.inst))
  }

  /** It is done, in EXE or gone on to MEM. */
  predicate Worked(c: Cpu, i: Inst) {
    (c.exe.valid && c.exe.end && c.exe.inst == i) || (c.mem.valid && c.mem.inst == i)
  }

  lemma OlderPass(c: Cpu)
    requires !WbStage(c).exited && !(c.wb.valid && Faulty(c.wb.inst)) && !(c.mem.valid && Faulty(c.mem.inst))
    ensures var c1 := MemStage(WbStage(c));
      c1.exe == c.exe && !c1.exited && !(c1.wb.valid && Faulty(c1.wb.inst)) && !(c1.mem.valid && Faulty(c1.mem.inst))
  {}

  lemma ExeWorks(arch: Arch, c: Cpu, accepts: bool, i: Inst, n: nat)
    requires Working(arch, c, i, n) && !c.exited && 0 < arch.delay(i.info.kind)
    ensures var c' := ExeStage(arch, c, accepts);
      !c'.exited && if n < arch.delay(i.info.kind) then Working(arch, c', i, n + 1) else Worked(c', i)
  {}

  lemma RestWorks(arch: Arch, c: Cpu, inp: ExecIn)
    requires c.exe.valid
    ensures var c' := NextFetch(FetchStage(arch, StallStage(arch, IdStage(arch, c), inp.answer), inp.icacheAccepts), inp.slot);
      c'.exe == c.exe && c'.mem == c.mem && c'.wb == c.wb
  {
    IdKeepsBack(arch, c);
    RestIsBehind(arch, IdStage(arch, c), inp);
  }

  lemma RestKeepsMem(arch: Arch, c: Cpu, inp: ExecIn)
    ensures var c' := NextFetch(FetchStage(arch, StallStage(arch, IdStage(arch, c), inp.answer), inp.icacheAccepts), inp.slot);
      c'.mem == c.mem && c'.wb == c.wb
  {
    RestKeepsBack(arch, c, inp);
  }

  lemma StepWorks(arch: Arch, c: Cpu, s: Step, i: Inst, n: nat)
    requires Working(arch, c, i, n) && !c.exited && 0 < arch.delay(i.info.kind)
    ensures var c' := Next(arch, c, s);
      !c'.exited ==>
        if !s.Exec? then Working(arch, c', i, n)
        else if n < arch.delay(i.info.kind) then Working(arch, c', i, n + 1) else Worked(c', i)
  {
    match s
    case Exec(inp) =>
      if !WbStage(c).exited {
        OlderPass(c);
        var c1 := MemStage(WbStage(c));
        ExeWorks(arch, c1, inp.dcacheAccepts, i, n);
        var c2 := ExeStage(arch, c1, inp.dcacheAccepts);
        if c2.exe.valid { RestWorks(arch, c2, inp); } else { RestKeepsMem(arch, c2, inp); }
      }
    case ICallback(a) =>
      if Enabled(c, s) { CallbackKeepsBack(arch, c, a); }
    case DCallback(k) =>
  }

  /** A long operation is in EXE for one cycle and its delay, whatever happens around it: not done before,
      and done then.  (A delay of zero would never end.) */
  lemma {:induction false} LongOperationsTakeTheirTime(arch: Arch, c: Cpu, steps: seq<Step>, i: Inst)
    requires Working(arch, c, i, 0) && !c.exited && 0 < arch.delay(i.info.kind) && !After(arch, c, steps).exited
    ensures Cycles(steps) <= arch.delay(i.info.kind) ==> Working(arch, After(arch, c, steps), i, Cycles(steps))
    ensures Cycles(steps) == arch.delay(i.info.kind) + 1 && steps[|steps| - 1].Exec? ==> Worked(After(arch, c, steps), i)
  {
    if |steps| > 0 {
      var front := steps[..|steps| - 1];
      if !After(arch, c, front).exited && Cycles(front) <= arch.delay(i.info.kind) {
        LongOperationsTakeTheirTime(arch, c, front, i);
        StepWorks(arch, After(arch, c, front), steps[|steps| - 1], i, Cycles(front));
      }
    }
  }

  // ---- all others ----

  /** What is in EXE is over in this cycle: it is no long operation, and the data cache accepts what it
      has to answer. */
  predicate IsShort(i: Inst, accepts: bool) {
    Faulty(i) || (!IsLong(i.info.kind) && (IsMem(i.info.kind) ==> accepts || (i.info.kind == Sc && i.info.dst0 != 0)))
  }

  lemma ExeGoesOn(arch: Arch, c: Cpu, accepts: bool)
    requires !c.exited && c.exe.valid && c.exe.stallCycle == 0 && (c.exe.end || IsShort(c.exe.inst, accepts)) && !c.mem.valid
    ensures var c' := ExeStage(arch, c, accepts);
      !c'.exe.valid && c'.mem.valid && SameInst(c'.mem.inst, c.exe.inst) && !c'.exited
  {
    ExecuteSides(arch, c, accepts);
  }

  /** With MEM free, or about to be, it moves on at once. */
  lemma ShortOperationsPass(arch: Arch, c: Cpu, inp: ExecIn)
    requires !c.exited && c.tick - c.wb.tick <= TIMEOUT && !(c.wb.valid && Faulty(c.wb.inst))
    requires c.exe.valid && c.exe.stallCycle == 0 && (c.exe.end || IsShort(c.exe.inst, inp.dcacheAccepts))
    requires c.mem.valid && Asks(c.mem.inst) ==> c.mem.inst.memId < |c.mem.endMap| && c.mem.endMap[c.mem.inst.memId]
    ensures var c' := ExecCycle(arch, c, inp); c'.mem.valid && SameInst(c'.mem.inst, c.exe.inst)
  {
    var c1 := MemStage(WbStage(c));
    assert c1.exe == c.exe && !c1.mem.valid && !c1.exited;
    ExeGoesOn(arch, c1, inp.dcacheAccepts);
    RestKeepsMem(arch, ExeStage(arch, c1, inp.dcacheAccepts), inp);
  }

  // ---- time ----

  lemma CallbackTick(arch: Arch, c: Cpu, a: Answer)
    requires 0 < |c.fetch.reqs|
    ensures ICacheAnswers(arch, c, a).tick == c.tick
  {}

  lemma BackTick(arch: Arch, c: Cpu, accepts: bool)
    ensures ExeStage(arch, MemStage(WbStage(c)), accepts).tick == c.tick
  {}

  lemma IdTick(arch: Arch, c: Cpu)
    ensures IdStage(arch, c).tick == c.tick
  {}

  lemma StallTick(arch: Arch, c: Cpu, a: Answer)
    ensures StallStage(arch, c, a).tick == c.tick
  {}

  lemma CycleTick(arch: Arch, c: Cpu, inp: ExecIn)
    requires !c.exited
    ensures !ExecCycle(arch, c, inp).exited ==> ExecCycle(arch, c, inp).tick == c.tick + 1
  {
    BackTick(arch, c, inp.dcacheAccepts);
    var c1 := ExeStage(arch, MemStage(WbStage(c)), inp.dcacheAccepts);
    IdTick(arch, c1);
    StallTick(arch, IdStage(arch, c1), inp.answer);
  }

  /** The tick is the number of cycles. */
  lemma {:induction false} TickCounts(arch: Arch, slot: Inst, env: Env, s: State, pc: Addr, steps: seq<Step>)
    ensures var c := After(arch, Start(arch, slot, env, s, pc), steps); !c.exited ==> c.tick == Cycles(steps)
  {
    if |steps| > 0 {
      var front, last := steps[..|steps| - 1], steps[|steps| - 1];
      TickCounts(arch, slot, env, s, pc, front);
      var c := After(arch, Start(arch, slot, env, s, pc), front);
      if !c.exited && Enabled(c, last) {
        match last
        case Exec(inp) => CycleTick(arch, c, inp);
        case ICallback(a) => CallbackTick(arch, c, a);
        case DCallback(i) =>
      }
    }
  }
}
