/** Memory instructions and the data cache: none passes MEM without an answer, and none asks for one it
    was not promised (src/cpu/pipelinecpu.cpp, lines 53-56 and 76-257). */
module PipelineMemory {
  import BitOps
  import opened PipelineSpec
  import opened PipelineProof
  import opened PipelineRedirect

  // ---- what happened in a run ----

  /** A memory instruction that the data cache has to answer. */
  predicate Asks(i: Inst) {
    !Faulty(i) && IsMem(i.info.kind)
  }

  /** In this cycle such an instruction, with one of these numbers, comes to WB. */
  predicate Passes(c: Cpu, ids: nat -> bool) {
    var c1 := MemStage(WbStage(c));
    !WbStage(c).exited && c1.wb.valid && Asks(c1.wb.inst) && ids(c1.wb.inst.memId)
  }

  /** In this cycle EXE has such an instruction to start. */
  predicate Starts(c1: Cpu) {
    !c1.exited && c1.exe.valid && c1.exe.stallCycle == 0 && !c1.exe.end && Asks(c1.exe.inst)
  }

  /** A store-conditional that has failed needs no answer. */
  predicate Fails(c: Cpu, ids: nat -> bool) {
    var c1 := MemStage(WbStage(c));
    Starts(c1) && c1.exe.inst.info.kind == Sc && c1.exe.inst.info.dst0 != 0 && ids(c1.mem.tail)
  }

  /** All others are offered to the data cache, which accepts. */
  predicate IsAccepted(c: Cpu, accepts: bool, ids: nat -> bool) {
    var c1 := MemStage(WbStage(c));
    Starts(c1) && !(c1.exe.inst.info.kind == Sc && c1.exe.inst.info.dst0 != 0) && accepts && ids(c1.mem.tail)
  }

  /** Whatever the number. */
  predicate All(i: nat) {
    true
  }

  /** How often each has happened. */
  datatype Tally = Tally(passed: nat, failed: nat, accepted: nat, answered: nat)

  function One(b: bool): nat {
    if b then 1 else 0
  }

  /** What one step adds. */
  function Added(c: Cpu, s: Step, ids: nat -> bool, t: Tally): Tally {
    if c.exited then t
    else
      match s
      case Exec(inp) =>
        t.(passed := t.passed + One(Passes(c, ids)), failed := t.failed + One(Fails(c, ids)),
           accepted := t.accepted + One(IsAccepted(c, inp.dcacheAccepts, ids)))
      case ICallback(_) => t
      case DCallback(i) => t.(answered := t.answered + One(ids(i)))
  }

  function TallyOf(arch: Arch, c: Cpu, steps: seq<Step>, ids: nat -> bool): Tally {
    if |steps| == 0 then Tally(0, 0, 0, 0)
    else
      var front := steps[..|steps| - 1];
      Added(After(arch, c, front), steps[|steps| - 1], ids, TallyOf(arch, c, front, ids))
  }

  // ---- answers are used once ----

  function Flags(endMap: seq<bool>, ids: nat -> bool): set<nat> {
    set i: nat | i < |endMap| && endMap[i] && ids(i)
  }

  lemma FlagSet(endMap: seq<bool>, i: nat, ids: nat -> bool)
    requires i < |endMap|
    ensures |Flags(endMap[i := true], ids)| <= |Flags(endMap, ids)| + One(ids(i))
  {
    var before, after := Flags(endMap, ids), Flags(endMap[i := true], ids);
    if ids(i) {
      assert after == before + {i};
    } else {
      assert after == before;
    }
  }

  lemma FlagCleared(endMap: seq<bool>, i: nat, ids: nat -> bool)
    requires i < |endMap| && endMap[i]
    ensures |Flags(endMap[i := false], ids)| + One(ids(i)) == |Flags(endMap, ids)|
  {
    var before, after := Flags(endMap, ids), Flags(endMap[i := false], ids);
    if ids(i) {
      assert i in before;
      assert after == before - {i};
    } else {
      assert after == before;
    }
  }

  /** The stages from ID on leave the data cache's side alone. */
  lemma RestKeepsBack(arch: Arch, c: Cpu, inp: ExecIn)
    ensures var c' := NextFetch(FetchStage(arch, StallStage(arch, IdStage(arch, c), inp.answer), inp.icacheAccepts), inp.slot);
      c'.mem == c.mem && c'.wb == c.wb
  {
    var c1 := IdStage(arch, c);
    IdKeepsBack(arch, c);
    PreIdBlame(arch, c1, c1.id.stallInst, inp.answer);
  }

  lemma IdKeepsBack(arch: Arch, c: Cpu)
    ensures var c' := IdStage(arch, c); c'.mem == c.mem && c'.wb == c.wb
    ensures c.exe.valid ==> IdStage(arch, c).exe == c.exe
  {
    SettleSides(arch, Retire(arch, Fault(c, c.id.late)));
  }

  lemma CallbackKeepsBack(arch: Arch, c: Cpu, a: Answer)
    requires 0 < |c.fetch.reqs|
    ensures var c' := ICacheAnswers(arch, c, a); c'.mem == c.mem && c'.wb == c.wb && c'.exe == c.exe
  {
    if !c.id.valid {
      var c1 := c.(fetch := c.fetch.(reqs := c.fetch.reqs[1..]));
      PreIdBlame(arch, c1.(id := c1.id.(valid := true)), c.fetch.reqs[0], a);
    }
  }

  lemma WbFlags(c: Cpu)
    ensures WbStage(c).mem.endMap == c.mem.endMap && WbStage(c).mem.tail == c.mem.tail
    ensures !WbStage(c).exited ==> !WbStage(c).wb.valid
  {}

  /** Passing MEM uses up a flag. */
  lemma MemFlags(c: Cpu, ids: nat -> bool)
    ensures var c1 := MemStage(WbStage(c)); |Flags(c1.mem.endMap, ids)| + One(Passes(c, ids)) <= |Flags(c.mem.endMap, ids)|
  {
    WbFlags(c);
    var m := WbStage(c).mem;
    if !WbStage(c).exited && m.valid && Asks(m.inst) && m.inst.memId < |m.endMap| && m.endMap[m.inst.memId] {
      FlagCleared(m.endMap, m.inst.memId, ids);
    }
  }

  /** EXE sets one for a failed store-conditional only. */
  lemma ExeFlags(arch: Arch, c: Cpu, accepts: bool, ids: nat -> bool)
    ensures var c1 := MemStage(WbStage(c));
      |Flags(ExeStage(arch, c1, accepts).mem.endMap, ids)| <= |Flags(c1.mem.endMap, ids)| + One(Fails(c, ids))
  {
    var c1 := MemStage(WbStage(c));
    if c1.mem.tail < |c1.mem.endMap| {
      FlagSet(c1.mem.endMap, c1.mem.tail, ids);
    }
  }

  lemma StepFlags(arch: Arch, c: Cpu, s: Step, ids: nat -> bool, t: Tally)
    requires t.passed + |Flags(c.mem.endMap, ids)| <= t.answered + t.failed
    ensures var t', c' := Added(c, s, ids, t), Next(arch, c, s);
      t'.passed + |Flags(c'.mem.endMap, ids)| <= t'.answered + t'.failed
  {
    if !c.exited && Enabled(c, s) {
      match s
      case Exec(inp) =>
        MemFlags(c, ids);
        ExeFlags(arch, c, inp.dcacheAccepts, ids);
        RestKeepsBack(arch, ExeStage(arch, MemStage(WbStage(c)), inp.dcacheAccepts), inp);
      case ICallback(a) => CallbackKeepsBack(arch, c, a);
      case DCallback(i) =>
        if i < |c.mem.endMap| {
          FlagSet(c.mem.endMap, i, ids);
        }
    }
  }

  lemma NoFlags(n: nat, ids: nat -> bool)
    ensures Flags(seq(n, _ => false), ids) == {}
  {}

  /** For every schedule and every choice of request numbers: the memory instructions that have come to
      WB, and the answers still unused, are never more than the answers of the data cache and the
      store-conditionals that failed. */
  lemma {:induction false} MemoryWaits(arch: Arch, slot: Inst, env: Env, s: State, pc: Addr, steps: seq<Step>, ids: nat -> bool)
    ensures var c0 := Start(arch, slot, env, s, pc);
      var t := TallyOf(arch, c0, steps, ids);
      t.passed + |Flags(After(arch, c0, steps).mem.endMap, ids)| <= t.answered + t.failed
  {
    var c0 := Start(arch, slot, env, s, pc);
    if |steps| == 0 {
      NoFlags(arch.retireSize, ids);
    } else {
      var front := steps[..|steps| - 1];
      MemoryWaits(arch, slot, env, s, pc, front, ids);
      StepFlags(arch, After(arch, c0, front), steps[|steps| - 1], ids, TallyOf(arch, c0, front, ids));
    }
  }

  // ---- and every one was accepted first ----

  /** Instructions behind their start: in EXE with its work done, or in MEM. */
  function Started(c: Cpu, ids: nat -> bool): nat {
    One(c.mem.valid && Asks(c.mem.inst) && ids(c.mem.inst.memId))
    + One(c.exe.valid && c.exe.end && Asks(c.exe.inst) && ids(c.exe.inst.memId))
  }

  /** Only long operations count down, and an empty EXE has nothing done. */
  predicate ExeIdle(exe: Exe) {
    && (!exe.valid ==> exe.stallCycle == 0 && !exe.end)
    && (exe.stallCycle > 0 ==> !exe.end && IsLong(exe.inst.info.kind) && !Faulty(exe.inst))
  }

  predicate IsLong(k: Kind) {
    k == Mult || k == Div || k == FAdd || k == FMul || k == Fma || k == FDiv || k == FSqrt || k == FMiscComplex
  }

  lemma MemStarted(c: Cpu, ids: nat -> bool)
    requires ExeIdle(c.exe) && !c.exited
    ensures var c1 := MemStage(WbStage(c));
      ExeIdle(c1.exe) && Started(c1, ids) + One(Passes(c, ids)) <= Started(c, ids)
  {}

  lemma ExecuteStarted(arch: Arch, c: Cpu, accepts: bool, ids: nat -> bool)
    requires !c.exited && c.exe.valid && c.exe.stallCycle == 0 && !c.exe.end
    ensures var c', sc := Execute(arch, c, accepts), c.exe.inst.info.kind == Sc && c.exe.inst.info.dst0 != 0;
      && c'.exe.valid && (c'.exe.stallCycle > 0 ==> !c'.exe.end && IsLong(c'.exe.inst.info.kind) && !Faulty(c'.exe.inst))
      && c'.exe.inst.info == c.exe.inst.info && c'.mem.valid == c.mem.valid && c'.mem.inst == c.mem.inst
      && (c'.exe.end && Asks(c'.exe.inst) ==> c'.exe.inst.memId == c.mem.tail && (sc || accepts))
  {}

  lemma ExeStarted(arch: Arch, c1: Cpu, accepts: bool, ids: nat -> bool)
    requires ExeIdle(c1.exe) && !c1.exited
    ensures var c' := ExeStage(arch, c1, accepts);
      var begun := Starts(c1) && ids(c1.mem.tail) && (accepts || (c1.exe.inst.info.kind == Sc && c1.exe.inst.info.dst0 != 0));
      ExeIdle(c'.exe) && Started(c', ids) <= Started(c1, ids) + One(begun)
  {
    if c1.exe.valid && c1.exe.stallCycle == 0 && !c1.exe.end {
      ExecuteStarted(arch, c1, accepts, ids);
    }
  }

  lemma IdStarted(arch: Arch, c: Cpu, ids: nat -> bool)
    requires ExeIdle(c.exe)
    ensures var c' := IdStage(arch, c); ExeIdle(c'.exe) && Started(c', ids) == Started(c, ids)
  {
    SettleSides(arch, Retire(arch, Fault(c, c.id.late)));
  }

  /** An instruction begins in EXE by failing or by being accepted. */
  predicate Begins(c1: Cpu, accepts: bool, ids: nat -> bool) {
    Starts(c1) && ids(c1.mem.tail) && (accepts || (c1.exe.inst.info.kind == Sc && c1.exe.inst.info.dst0 != 0))
  }

  lemma BeginsIs(c: Cpu, accepts: bool, ids: nat -> bool)
    ensures One(Begins(MemStage(WbStage(c)), accepts, ids)) == One(Fails(c, ids)) + One(IsAccepted(c, accepts, ids))
  {}

  lemma RestStarted(arch: Arch, c: Cpu, inp: ExecIn, ids: nat -> bool)
    requires ExeIdle(c.exe)
    ensures var c' := NextFetch(FetchStage(arch, StallStage(arch, IdStage(arch, c), inp.answer), inp.icacheAccepts), inp.slot);
      ExeIdle(c'.exe) && Started(c', ids) == Started(c, ids)
  {
    IdStarted(arch, c, ids);
    var c1 := IdStage(arch, c);
    PreIdBlame(arch, c1, c1.id.stallInst, inp.answer);
  }

  lemma CycleStarted(arch: Arch, c: Cpu, inp: ExecIn, ids: nat -> bool, t: Tally)
    requires !c.exited && ExeIdle(c.exe) && t.passed + Started(c, ids) <= t.accepted + t.failed
    ensures var t', c' := Added(c, Exec(inp), ids, t), ExecCycle(arch, c, inp);
      !c'.exited ==> ExeIdle(c'.exe) && t'.passed + Started(c', ids) <= t'.accepted + t'.failed
  {
    var c1 := MemStage(WbStage(c));
    MemStarted(c, ids);
    if !c1.exited {
      ExeStarted(arch, c1, inp.dcacheAccepts, ids);
      BeginsIs(c, inp.dcacheAccepts, ids);
      RestStarted(arch, ExeStage(arch, c1, inp.dcacheAccepts), inp, ids);
    }
  }

  lemma ExitStays(arch: Arch, c: Cpu, inp: ExecIn)
    requires WbStage(c).exited && !c.exited
    ensures ExecCycle(arch, c, inp).exited
  {}

  lemma StepStarted(arch: Arch, c: Cpu, s: Step, ids: nat -> bool, t: Tally)
    requires !c.exited ==> ExeIdle(c.exe) && t.passed + Started(c, ids) <= t.accepted + t.failed
    ensures var t', c' := Added(c, s, ids, t), Next(arch, c, s);
      !c'.exited ==> ExeIdle(c'.exe) && t'.passed + Started(c', ids) <= t'.accepted + t'.failed
  {
    if !c.exited {
      match s
      case Exec(inp) => CycleStarted(arch, c, inp, ids, t);
      case ICallback(a) =>
        if Enabled(c, s) { CallbackKeepsBack(arch, c, a); }
      case DCallback(i) =>
    }
  }

  /** For every schedule and every choice of request numbers: those that have come to WB, are in MEM or
      are done with EXE are never more than the requests the data cache has accepted and the
      store-conditionals that failed. */
  lemma {:induction false} MemoryIsAccepted(arch: Arch, slot: Inst, env: Env, s: State, pc: Addr, steps: seq<Step>, ids: nat -> bool)
    ensures var c0 := Start(arch, slot, env, s, pc);
      var t, c := TallyOf(arch, c0, steps, ids), After(arch, c0, steps);
      !c.exited ==> ExeIdle(c.exe) && t.passed + Started(c, ids) <= t.accepted + t.failed
  {
    var c0 := Start(arch, slot, env, s, pc);
    if |steps| > 0 {
      var front := steps[..|steps| - 1];
      MemoryIsAccepted(arch, slot, env, s, pc, front, ids);
      StepStarted(arch, After(arch, c0, front), steps[|steps| - 1], ids, TallyOf(arch, c0, front, ids));
    }
  }

  // ---- request numbers ----

  lemma TailMoves(arch: Arch, c: Cpu, accepts: bool)
    requires c.mem.tail < arch.retireSize
    ensures var c1 := MemStage(WbStage(c));
      var c' := ExeStage(arch, c1, accepts);
      c'.mem.tail == if Begins(c1, accepts, All) then Succ(arch, c.mem.tail) else c.mem.tail
  {
    WbFlags(c);
  }

  lemma Wraps(n: nat, size: nat)
    requires 0 < size
    ensures (n + 1) % size == if n % size + 1 < size then n % size + 1 else 0
  {
    var q, r := BitOps.DivMod(n, size);
    if r + 1 == size {
      assert (q + 1) * size == q * size + size;
      BitOps.QuotientUnique(n + 1, size, q + 1, 0);
    } else {
      BitOps.QuotientUnique(n + 1, size, q, r + 1);
    }
  }

  /** The number after n requests: 0, 1, and so on, then 0 again. */
  function Turn(size: nat, n: nat): nat {
    if n == 0 then 0 else if Turn(size, n - 1) + 1 < size then Turn(size, n - 1) + 1 else 0
  }

  lemma {:induction false} TurnIsRemainder(size: nat, n: nat)
    requires 0 < size
    ensures Turn(size, n) == n % size
  {
    if n > 0 {
      TurnIsRemainder(size, n - 1);
      Wraps(n - 1, size);
    }
  }

  function Requests(t: Tally): nat {
    t.accepted + t.failed
  }

  lemma StepTail(arch: Arch, c: Cpu, s: Step, t: Tally, c': Cpu, t': Tally)
    requires c.mem.tail < arch.retireSize && c' == Next(arch, c, s) && t' == Added(c, s, All, t)
    ensures (Requests(t') == Requests(t) && c'.mem.tail == c.mem.tail)
      || (Requests(t') == Requests(t) + 1 && c'.mem.tail == Succ(arch, c.mem.tail))
  {
    if !c.exited && Enabled(c, s) {
      match s
      case Exec(inp) =>
        TailMoves(arch, c, inp.dcacheAccepts);
        BeginsIs(c, inp.dcacheAccepts, All);
        RestKeepsBack(arch, ExeStage(arch, MemStage(WbStage(c)), inp.dcacheAccepts), inp);
      case ICallback(a) => CallbackKeepsBack(arch, c, a);
      case DCallback(i) =>
    }
  }

  lemma {:induction false} TurnInRange(size: nat, n: nat)
    requires 0 < size
    ensures Turn(size, n) < size
  {}

  /** Requests are numbered in turn, so that as many as there are numbers can be told apart. */
  lemma {:induction false} NumbersInTurn(arch: Arch, c0: Cpu, steps: seq<Step>)
    requires 0 < arch.retireSize && c0.mem.tail == 0
    ensures After(arch, c0, steps).mem.tail == Turn(arch.retireSize, Requests(TallyOf(arch, c0, steps, All)))
  {
    if |steps| > 0 {
      var front := steps[..|steps| - 1];
      NumbersInTurn(arch, c0, front);
      var c, t := After(arch, c0, front), TallyOf(arch, c0, front, All);
      TurnInRange(arch.retireSize, Requests(t));
      StepTail(arch, c, steps[|steps| - 1], t, After(arch, c0, steps), TallyOf(arch, c0, steps, All));
    }
  }

  // ---- and no longer than for its answer ----

  /** An answered instruction in MEM, and one that needs no answer, go on in the next cycle, unless a trap
      in WB drops them. */
  lemma AnsweredGoesOn(arch: Arch, c: Cpu, inp: ExecIn)
    requires !c.exited && c.mem.valid && !(c.wb.valid && Faulty(c.wb.inst)) && c.tick - c.wb.tick <= TIMEOUT
    requires Asks(c.mem.inst) ==> c.mem.inst.memId < |c.mem.endMap| && c.mem.endMap[c.mem.inst.memId]
    ensures var c' := ExecCycle(arch, c, inp); c'.wb.valid && c'.wb.inst == c.mem.inst
  {
    ExeKeepsWb(arch, MemStage(WbStage(c)), inp.dcacheAccepts);
    RestKeepsBack(arch, ExeStage(arch, MemStage(WbStage(c)), inp.dcacheAccepts), inp);
  }

  lemma ExeKeepsWb(arch: Arch, c: Cpu, accepts: bool)
    ensures ExeStage(arch, c, accepts).wb == c.wb
  {
    ExecuteSides(arch, c, accepts);
  }

  /** The answer to an instruction that a trap drops stays behind: the next one with its number will
      not wait for its own. */
  lemma DroppedAnswerStays(arch: Arch, c: Cpu, inp: ExecIn)
    requires !c.exited && c.wb.valid && Faulty(c.wb.inst) && c.tick - c.wb.tick <= TIMEOUT
    requires c.mem.valid && Asks(c.mem.inst) && c.mem.inst.memId < |c.mem.endMap| && c.mem.endMap[c.mem.inst.memId]
    ensures var c' := ExecCycle(arch, c, inp);
      !c'.mem.valid && !c'.wb.valid && c'.mem.endMap[..] == c.mem.endMap
  {
    RestKeepsBack(arch, ExeStage(arch, MemStage(WbStage(c)), inp.dcacheAccepts), inp);
  }
}
