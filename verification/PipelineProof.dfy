/** What every run of the pipelined CPU keeps: whatever the caches, the predictor and the redirects
    do, the committed instructions are updates one after another, each of them what the sequential
    machine would decode there and then, except for page faults found too early. */
module PipelineProof {
  import opened PipelineSpec

  // ---- the sequential machine ----

  /** The event at (s, pc): what translating and decoding there and then gives. */
  ghost predicate Current(arch: Arch, s: State, pc: Addr, e: Event) {
    match e
    case Faulted(_) => arch.translate(s, pc).None?
    case Decoded(irq, paddr, info) => arch.translate(s, pc) == Some(paddr) && info == arch.decode(s, pc, paddr, irq)
  }

  function EndState(s: State, trace: seq<Commit>): State {
    if |trace| == 0 then s else trace[|trace| - 1].after
  }

  function EndPc(pc: Addr, trace: seq<Commit>): Addr {
    if |trace| == 0 then pc else trace[|trace| - 1].target
  }

  /** Each commit starts where the previous one ended and is an update. */
  ghost predicate Linked(arch: Arch, s: State, pc: Addr, trace: seq<Commit>) {
    forall i :: 0 <= i < |trace| ==>
      && trace[i].before == EndState(s, trace[..i]) && trace[i].pc == EndPc(pc, trace[..i])
      && (trace[i].after, trace[i].target) == Update(arch, trace[i].before, trace[i].pc, trace[i].event)
  }

  /** A run of the sequential machine. */
  ghost predicate SeqRun(arch: Arch, s: State, pc: Addr, trace: seq<Commit>) {
    && Linked(arch, s, pc, trace)
    && forall i :: 0 <= i < |trace| ==> Current(arch, trace[i].before, trace[i].pc, trace[i].event)
  }

  // ---- the invariant ----

  ghost predicate LateFault(e: Event) {
    e.Faulted? && e.late
  }

  /** Everything but late faults is current when it commits. */
  ghost predicate TraceOk(arch: Arch, s: State, pc: Addr, trace: seq<Commit>) {
    && Linked(arch, s, pc, trace)
    && forall i :: 0 <= i < |trace| && !LateFault(trace[i].event) ==>
      Current(arch, trace[i].before, trace[i].pc, trace[i].event)
  }

  /** The instruction in ID is what the environment holds, made at the current pc and state;
      or it is a fetch fault, which ID itself will put into the environment. */
  ghost predicate Ready(arch: Arch, core: Core, id: Id) {
    if id.inst.info.exception == EXC_IPF then !id.late ==> arch.translate(core.sigma, core.pc).None?
    else
      && core.env.pc == core.pc && core.env.event.Decoded? && core.env.event.info == id.inst.info
      && Current(arch, core.sigma, core.pc, core.env.event)
  }

  ghost predicate IdOk(arch: Arch, core: Core, id: Id) {
    && (id.valid && !id.wait ==> Ready(arch, core, id))
    && (id.remain > 0 && !id.valid && id.inst.info.exception != EXC_NONE ==> id.wait)
    && id.stallInst.info.exception == EXC_NONE
  }

  predicate FetchFault(exception: nat) {
    exception == EXC_NONE || exception == EXC_IPF
  }

  predicate FetchOk(f: Fetch) {
    && (f.valid ==> 0 < |f.reqs| && FetchFault(f.reqs[|f.reqs| - 1].info.exception))
    && forall i :: 0 <= i < (if f.valid then |f.reqs| - 1 else |f.reqs|) ==> f.reqs[i].info.exception == EXC_NONE
  }

  ghost predicate CoreOk(arch: Arch, s: State, pc: Addr, core: Core) {
    TraceOk(arch, s, pc, core.trace) && core.sigma == EndState(s, core.trace) && core.pc == EndPc(pc, core.trace)
  }

  ghost predicate Inv(arch: Arch, s: State, pc: Addr, c: Cpu) {
    CoreOk(arch, s, pc, c.core) && (!c.exited ==> IdOk(arch, c.core, c.id) && FetchOk(c.fetch))
  }

  // ---- every stage keeps it ----

  /** Nothing architectural moved. */
  predicate SameArch(a: Core, b: Core) {
    a.sigma == b.sigma && a.pc == b.pc && a.trace == b.trace
  }

  lemma PreIdReady(arch: Arch, c: Cpu, inst: Inst, a: Answer)
    requires Sane(arch) && inst.info.exception == EXC_NONE
    requires c.id.remain > 0 && c.id.inst.info.exception != EXC_NONE ==> c.id.wait
    requires FetchOk(c.fetch)
    ensures var c' := PreId(arch, c, inst, a).0;
      && SameArch(c.core, c'.core) && c'.id.wait == c.id.wait && c'.id.valid == c.id.valid && c'.exited == c.exited
      && (!c.id.wait ==> Ready(arch, c'.core, c'.id))
      && FetchOk(c'.fetch)
      && c'.id.stallInst == c.id.stallInst
  {
    var id := if c.id.remain <= 0 then c.id.(inst := inst, remain := c.id.remain + inst.size) else c.id;
    var t := arch.translate(c.core.sigma, c.core.pc);
    if t.Some? {
      assert arch.decode(c.core.sigma, c.core.pc, t.value, a.irq).exception != EXC_IPF;
    }
  }

  lemma WbKeeps(arch: Arch, s: State, pc: Addr, c: Cpu)
    requires Inv(arch, s, pc, c)
    ensures Inv(arch, s, pc, WbStage(c))
  {}

  lemma MemKeeps(arch: Arch, s: State, pc: Addr, c: Cpu)
    requires Inv(arch, s, pc, c)
    ensures Inv(arch, s, pc, MemStage(c))
  {}

  lemma ExecuteKeeps(arch: Arch, c: Cpu, accepts: bool)
    requires IdOk(arch, c.core, c.id) && FetchOk(c.fetch)
    ensures var c' := Execute(arch, c, accepts);
      c'.core == c.core && c'.exited == c.exited && IdOk(arch, c'.core, c'.id) && FetchOk(c'.fetch)
  {}

  lemma ExeKeeps(arch: Arch, s: State, pc: Addr, c: Cpu, accepts: bool)
    requires Inv(arch, s, pc, c)
    ensures Inv(arch, s, pc, ExeStage(arch, c, accepts))
  {
    if !c.exited {
      ExecuteKeeps(arch, c, accepts);
    }
  }

  /** The core after a commit. */
  function Committed(arch: Arch, core: Core): Core {
    var e := core.env;
    var (after, target) := Update(arch, core.sigma, e.pc, e.event);
    core.(sigma := after, pc := target, trace := core.trace + [Commit(core.sigma, e.pc, e.event, after, target)])
  }

  /** A commit of the environment extends the run. */
  lemma CommitExtends(arch: Arch, s: State, pc: Addr, core: Core)
    requires CoreOk(arch, s, pc, core) && core.env.pc == core.pc
    requires LateFault(core.env.event) || Current(arch, core.sigma, core.pc, core.env.event)
    ensures CoreOk(arch, s, pc, Committed(arch, core))
  {
    var trace' := Committed(arch, core).trace;
    forall i | 0 <= i < |trace'| ensures trace'[..i] == core.trace[..i] {}
  }

  lemma SettleShape(arch: Arch, c: Cpu)
    requires FetchOk(c.fetch)
    ensures var c' := Settle(arch, c);
      && c'.core == c.core && FetchOk(c'.fetch) && c'.id.stallInst == c.id.stallInst
      && c'.id.inst.info == c.id.inst.info && c'.id.valid == c.id.valid
      && (c.id.inst.info.exception != EXC_NONE ==> c'.id.wait)
  {}

  lemma CommitShape(arch: Arch, c: Cpu)
    requires FetchOk(c.fetch)
    ensures var c' := CommitInst(arch, c);
      && c'.core == Committed(arch, c.core) && FetchOk(c'.fetch) && c'.id.stallInst == c.id.stallInst
      && c'.id.inst.info == c.id.inst.info && c'.id.valid == c.id.valid
      && (c.id.inst.info.exception != EXC_NONE ==> c'.id.wait)
  {
    SettleShape(arch, Retire(arch, c));
  }

  lemma IdShape(arch: Arch, c: Cpu)
    requires FetchOk(c.fetch) && IdOk(arch, c.core, c.id) && !c.exited && c.id.valid && !c.exe.valid
    ensures var c' := IdStage(arch, c);
      && c'.core == (if c.id.wait then Fault(c, c.id.late).core else Committed(arch, Fault(c, c.id.late).core))
      && (!c'.exited ==> FetchOk(c'.fetch) && IdOk(arch, c'.core, c'.id))
  {
    CommitShape(arch, Fault(c, c.id.late));
  }

  lemma IdEvent(arch: Arch, c: Cpu)
    requires IdOk(arch, c.core, c.id) && c.id.valid && !c.id.wait
    ensures var core := Fault(c, c.id.late).core;
      && SameArch(core, c.core) && core.env.pc == core.pc
      && (LateFault(core.env.event) || Current(arch, core.sigma, core.pc, core.env.event))
  {}

  lemma IdKeeps(arch: Arch, s: State, pc: Addr, c: Cpu)
    requires Inv(arch, s, pc, c)
    ensures Inv(arch, s, pc, IdStage(arch, c))
  {
    if !c.exited && c.id.valid && !c.exe.valid {
      IdShape(arch, c);
      if !c.id.wait {
        IdEvent(arch, c);
        CommitExtends(arch, s, pc, Fault(c, c.id.late).core);
      }
    }
  }

  lemma StallKeeps(arch: Arch, s: State, pc: Addr, c: Cpu, a: Answer)
    requires Inv(arch, s, pc, c) && Sane(arch)
    ensures Inv(arch, s, pc, StallStage(arch, c, a))
  {
    if !c.exited && !c.id.valid && c.id.stallValid {
      PreIdReady(arch, c, c.id.stallInst, a);
    }
  }

  lemma FetchKeeps(arch: Arch, s: State, pc: Addr, c: Cpu, accepts: bool)
    requires Inv(arch, s, pc, c)
    ensures Inv(arch, s, pc, FetchStage(arch, c, accepts))
  {}

  lemma NextFetchKeeps(arch: Arch, s: State, pc: Addr, c: Cpu, slot: Inst)
    requires Inv(arch, s, pc, c)
    ensures Inv(arch, s, pc, NextFetch(c, slot))
  {}

  lemma ICacheKeeps(arch: Arch, s: State, pc: Addr, c: Cpu, a: Answer)
    requires Inv(arch, s, pc, c) && Sane(arch) && !c.exited && Enabled(c, ICallback(a))
    ensures Inv(arch, s, pc, ICacheAnswers(arch, c, a))
  {
    var inst := c.fetch.reqs[0];
    var c1 := c.(fetch := c.fetch.(reqs := c.fetch.reqs[1..]));
    if !c.id.valid {
      PreIdReady(arch, c1.(id := c1.id.(valid := true)), inst, a);
    }
  }

  lemma NextKeeps(arch: Arch, s: State, pc: Addr, c: Cpu, step: Step)
    requires Inv(arch, s, pc, c) && Sane(arch)
    ensures Inv(arch, s, pc, Next(arch, c, step))
  {
    if !c.exited && Enabled(c, step) {
      match step
      case Exec(inp) =>
        WbKeeps(arch, s, pc, c);
        MemKeeps(arch, s, pc, WbStage(c));
        ExeKeeps(arch, s, pc, MemStage(WbStage(c)), inp.dcacheAccepts);
        var c1 := ExeStage(arch, MemStage(WbStage(c)), inp.dcacheAccepts);
        IdKeeps(arch, s, pc, c1);
        StallKeeps(arch, s, pc, IdStage(arch, c1), inp.answer);
        var c2 := StallStage(arch, IdStage(arch, c1), inp.answer);
        FetchKeeps(arch, s, pc, c2, inp.icacheAccepts);
        NextFetchKeeps(arch, s, pc, FetchStage(arch, c2, inp.icacheAccepts), inp.slot);
      case ICallback(a) => ICacheKeeps(arch, s, pc, c, a);
      case DCallback(i) =>
    }
  }

  lemma {:induction false} RunKeeps(arch: Arch, slot: Inst, env: Env, s: State, pc: Addr, steps: seq<Step>)
    requires Sane(arch)
    ensures Inv(arch, s, pc, After(arch, Start(arch, slot, env, s, pc), steps))
  {
    if |steps| > 0 {
      RunKeeps(arch, slot, env, s, pc, steps[..|steps| - 1]);
      NextKeeps(arch, s, pc, After(arch, Start(arch, slot, env, s, pc), steps[..|steps| - 1]), steps[|steps| - 1]);
    }
  }

  // ---- the results ----

  /** The interrupts two decodes saw. */
  predicate SameIrq(a: Event, b: Event) {
    a.Decoded? && b.Decoded? ==> a.irq == b.irq
  }

  /** One step: the same state, pc and interrupts give the same commit. */
  lemma SameStep(arch: Arch, x: Commit, y: Commit)
    requires x.before == y.before && x.pc == y.pc && SameIrq(x.event, y.event)
    requires Current(arch, x.before, x.pc, x.event) && Current(arch, y.before, y.pc, y.event)
    requires (x.after, x.target) == Update(arch, x.before, x.pc, x.event)
    requires (y.after, y.target) == Update(arch, y.before, y.pc, y.event)
    ensures Observed(x) == Observed(y)
  {}

  /** Sequential runs from one state that see the same interrupts agree, but for the `late` mark. */
  lemma {:induction false} SequentialIsUnique(arch: Arch, s: State, pc: Addr, t: seq<Commit>, u: seq<Commit>, n: nat)
    requires SeqRun(arch, s, pc, t) && SeqRun(arch, s, pc, u) && n <= |t| && n <= |u|
    requires forall i :: 0 <= i < n ==> SameIrq(t[i].event, u[i].event)
    ensures EndState(s, t[..n]) == EndState(s, u[..n]) && EndPc(pc, t[..n]) == EndPc(pc, u[..n])
    ensures forall i :: 0 <= i < n ==> Observed(t[i]) == Observed(u[i])
  {
    if n > 0 {
      SequentialIsUnique(arch, s, pc, t, u, n - 1);
      SameStep(arch, t[n - 1], u[n - 1]);
    }
  }

  /** What a commit does. */
  function Observed(c: Commit): (State, Addr, Option<Info>, State, Addr) {
    (c.before, c.pc, if c.event.Decoded? then Some(c.event.info) else None, c.after, c.target)
  }

  // ---- speculation is contained ----

  /** Waiting, or nothing in ID. */
  predicate Held(c: Cpu) {
    c.id.wait || !c.id.valid
  }

  lemma WaitingExe(arch: Arch, c: Cpu, accepts: bool)
    requires Held(c)
    ensures ExeStage(arch, c, accepts).core == c.core && Held(ExeStage(arch, c, accepts))
  {}

  lemma WaitingBack(arch: Arch, c: Cpu, accepts: bool)
    requires c.id.wait
    ensures var c' := ExeStage(arch, MemStage(WbStage(c)), accepts);
      c'.core == c.core && Held(c')
  {
    var c1 := MemStage(WbStage(c));
    assert c1.core == c.core && Held(c1);
    WaitingExe(arch, c1, accepts);
  }

  lemma WaitingId(arch: Arch, c: Cpu)
    requires c.id.wait || !c.id.valid
    ensures IdStage(arch, c).core.trace == c.core.trace
  {}

  lemma RestKeepsTrace(arch: Arch, c: Cpu, inp: ExecIn)
    ensures NextFetch(FetchStage(arch, StallStage(arch, c, inp.answer), inp.icacheAccepts), inp.slot).core.trace == c.core.trace
  {}

  /** While an instruction waits to be redirected nothing younger commits, up to and including
      the cycle of the redirect. */
  lemma NothingCommitsBehindARedirect(arch: Arch, c: Cpu, s: Step)
    requires c.id.wait
    ensures Next(arch, c, s).core.trace == c.core.trace
  {
    if s.Exec? && !c.exited {
      WaitingBack(arch, c, s.inp.dcacheAccepts);
      var c1 := ExeStage(arch, MemStage(WbStage(c)), s.inp.dcacheAccepts);
      WaitingId(arch, c1);
      RestKeepsTrace(arch, IdStage(arch, c1), s.inp);
    }
  }
}
