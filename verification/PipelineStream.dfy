/** Why stale faults stay away: the predictor knows where fetching goes on, so the blocks fetched are
    those the pc runs into, and a program that leaves the code ahead as fetchable as it was found gets
    no fault it should not (src/cpu/pipelinecpu.cpp, lines 39-51, 270-318, 346-360 and 434-467;
    src/pred/pipepredictor.cpp). */
module PipelineStream {
  import opened PipelineSpec
  import opened PipelineProof
  import opened PipelineRedirect

  // ---- what is asked of the architecture ----

  /** Where an instruction that completes goes (src/arch/riscv/riscvarch.cpp, lines 324-344). */
  function FlowTarget(pc: Addr, info: Info): Addr {
    if IsJump(info.kind) || info.kind == Direct || info.kind == Push then info.dst2
    else if info.kind == Cond && info.dst1 != 0 then info.dst2
    else Plus(pc, info.size)
  }

  ghost predicate Follows(arch: Arch) {
    forall s, pc, info: Info :: info.exception == EXC_NONE ==> arch.retire(s, pc, info).1 == FlowTarget(pc, info)
  }

  ghost predicate Halfwords(arch: Arch) {
    forall s, pc, paddr, irq :: arch.decode(s, pc, paddr, irq).size == 2 || arch.decode(s, pc, paddr, irq).size == 4
  }

  ghost predicate Regular(arch: Arch) {
    Sane(arch) && Follows(arch) && Halfwords(arch)
  }

  // ---- what is asked of the program ----

  /** It completes, and ID does not redirect for it. */
  predicate InLine(arch: Arch, x: Commit) {
    x.event.Decoded? && x.event.info.exception == EXC_NONE && !NeedFlush(arch, x.event.info)
  }

  /** And goes on to the next instruction. */
  predicate Falls(arch: Arch, x: Commit) {
    InLine(arch, x) && x.target == Plus(x.pc, x.event.info.size)
  }

  /** From its i-th commit on the run goes straight on. */
  predicate Straight(arch: Arch, t: seq<Commit>, i: nat) {
    forall m :: i <= m < |t| ==> Falls(arch, t[m])
  }

  /** The state before the i-th commit. */
  function Before(t: seq<Commit>, sigma: State, i: nat): State {
    if i < |t| then t[i].before else sigma
  }

  /** The run has come to the block at b: to its start, or two bytes in by an instruction that
      began in the two bytes before it. */
  predicate RunsInto(arch: Arch, t: seq<Commit>, pc: Addr, b: Addr) {
    pc == b || (|t| > 0 && Falls(arch, t[|t| - 1]) && t[|t| - 1].event.info.size == 4 && pc == Plus(b, 2))
  }

  /** A block straight ahead that cannot be fetched still cannot when the sequential machine comes to
      it: no instruction in between makes the page ahead fetchable, or unmaps the page it reaches out
      of.  Only runs of this program are asked about. */
  ghost predicate Steady(arch: Arch, s: State, pc: Addr) {
    forall t: seq<Commit>, i: nat, b: Addr :: SeqRun(arch, s, pc, t) && i <= |t| ==> SteadyAt(arch, s, pc, t, i, b)
  }

  predicate SteadyAt(arch: Arch, s: State, pc: Addr, t: seq<Commit>, i: nat, b: Addr) {
    (Straight(arch, t, i) && RunsInto(arch, t, EndPc(pc, t), b) && arch.translate(Before(t, EndState(s, t), i), b).None?)
    ==> arch.translate(EndState(s, t), EndPc(pc, t)).None?
  }

  // ---- what the predictor and the cache do ----

  /** What predictions mean: `not taken` is the next instruction, and direct jumps are seen. */
  predicate Suits(pc: Addr, info: Info, nextPc: Addr, taken: bool) {
    && (!taken ==> nextPc == Plus(pc, info.size))
    && (info.kind == Direct || info.kind == Push ==> taken && nextPc == info.dst2)
    && (taken ==> info.kind == Cond || IsJump(info.kind) || info.kind == Direct || info.kind == Push)
  }

  /** So it is whatever the branch predictors say. */
  lemma PredictionSuits(pc: Addr, info: Info, b: Stream)
    ensures var (nextPc, taken) := Predict(pc, info, b); Suits(pc, info, nextPc, taken)
  {}

  /** No block arrives while another one is parked; the instruction cache sees to it (FrontEnd). */
  predicate Orderly(c: Cpu, s: Step) {
    s.ICallback? && c.id.valid ==> !c.id.stallInstValid
  }

  ghost predicate AllOrderly(arch: Arch, c: Cpu, steps: seq<Step>) {
    forall k :: 0 <= k < |steps| ==> Orderly(After(arch, c, steps[..k]), steps[k])
  }

  // ---- addresses ----

  lemma PlusPlus(a: Addr, j: int, k: int)
    ensures Plus(Plus(a, j), k) == Plus(a, j + k)
  {}

  lemma PlusZero(a: Addr)
    ensures Plus(a, 0) == a
  {}

  // ---- the stream of blocks ----

  /** Where the instruction after the one in ID is expected. */
  function Ahead(core: Core, id: Id): Addr {
    if !id.valid then core.pc
    else if id.inst.taken then id.inst.nextPc
    else Plus(core.pc, id.inst.info.size)
  }

  /** A whole block waits behind ID. */
  predicate Parked(id: Id) {
    id.stallInstValid && (id.stallDecMore || id.remain <= 0)
  }

  function Head(f: Fetch): Addr {
    if |f.reqs| > 0 then f.reqs[0].pc else f.predPc
  }

  /** Block i is followed by the next one, the last by what is to be fetched next. */
  predicate LinkOk(f: Fetch, i: nat)
    requires i < |f.reqs|
  {
    f.reqs[i].size == 4 && Plus(f.reqs[i].pc, 4) == if i + 1 < |f.reqs| then f.reqs[i + 1].pc else f.predPc
  }

  predicate InRow(f: Fetch) {
    forall i :: 0 <= i < |f.reqs| ==> LinkOk(f, i)
  }

  predicate FlagsOk(id: Id) {
    && (id.stallValid <==> id.stallDecMore || id.stallInstValid)
    && (id.remain == -2 || id.remain == 0 || id.remain == 2)
    && (id.remain == 2 ==> id.stallDecMore || id.stallInstValid)
    && (id.stallDecMore ==> id.remain == 2)
    && (id.stallInstValid ==> id.stallInst.size == 4)
  }

  predicate Chain(core: Core, id: Id, f: Fetch) {
    && InRow(f)
    && (if Parked(id) then Plus(Ahead(core, id), id.remain) == id.stallInst.pc && Plus(id.stallInst.pc, 4) == Head(f)
        else Plus(Ahead(core, id), id.remain) == Head(f))
  }

  /** The instruction in ID and its prediction. */
  predicate Holding(core: Core, id: Id) {
    id.valid ==>
      && Suits(core.pc, id.inst.info, id.inst.nextPc, id.inst.taken)
      && (id.remain == -2 ==> id.inst.info.size == 4)
      && (id.inst.taken ==> id.remain == 0)
  }

  /** An instruction that reached into the next block has just gone on to it. */
  predicate Footing(arch: Arch, core: Core, id: Id) {
    !id.valid && id.remain == -2 ==>
      |core.trace| > 0 && Falls(arch, core.trace[|core.trace| - 1]) && core.trace[|core.trace| - 1].event.info.size == 4
  }

  /** The block could not be fetched at some time since when the run went straight on. */
  ghost predicate FoundFaulty(arch: Arch, core: Core, b: Addr) {
    exists i: nat :: i <= |core.trace| && FaultyAt(arch, core, b, i)
  }

  predicate FaultyAt(arch: Arch, core: Core, b: Addr, i: nat) {
    Straight(arch, core.trace, i) && arch.translate(Before(core.trace, core.sigma, i), b).None?
  }

  /** A fault found at fetch was one then, and no jump has been predicted since. */
  ghost predicate LateOk(arch: Arch, core: Core, id: Id, f: Fetch) {
    f.valid && |f.reqs| > 0 && Faulty(f.reqs[|f.reqs| - 1]) ==>
      FoundFaulty(arch, core, f.reqs[|f.reqs| - 1].pc) && !(id.valid && id.inst.taken)
  }

  ghost predicate Flowing(arch: Arch, c: Cpu) {
    && FlagsOk(c.id) && Chain(c.core, c.id, c.fetch) && Holding(c.core, c.id) && Footing(arch, c.core, c.id)
    && LateOk(arch, c.core, c.id, c.fetch)
  }

  /** The stream is in order, or a redirect is coming. */
  ghost predicate StreamOk(arch: Arch, c: Cpu) {
    c.id.wait || Cut(c) || (c.id.valid && Faulty(c.id.inst)) || Flowing(arch, c)
  }

  // ---- the stages behind ID ----

  /** After a redirect fetching starts again at the pc. */
  lemma Restarted(arch: Arch, c: Cpu)
    requires !c.id.valid && !c.id.stallValid && !c.id.stallDecMore && !c.id.stallInstValid && c.id.remain == 0
    requires c.fetch.reqs == [] && c.fetch.predPc == c.core.pc
    ensures Flowing(arch, c)
  {
    PlusZero(c.core.pc);
  }

  lemma WbStream(arch: Arch, c: Cpu)
    requires StreamOk(arch, c) && Blame(c) && !c.exited && !WbStage(c).exited
    ensures StreamOk(arch, WbStage(c))
  {
    if c.wb.valid && Faulty(c.wb.inst) {
      Restarted(arch, WbStage(c));
    }
  }

  lemma ExecuteStream(arch: Arch, c: Cpu, accepts: bool)
    requires StreamOk(arch, c) && Blame(c) && c.exe.valid && c.exe.stallCycle == 0 && !c.exe.end
    requires Culprit(c.exe, c.mem, c.wb).Some? ==> c.id.wait
    requires c.mem.valid ==> !Faulty(c.mem.inst)
    ensures StreamOk(arch, Execute(arch, c, accepts))
  {
    ExecuteSides(arch, c, accepts);
    if WentWrong(c.exe.inst) {
      ExecuteWrong(arch, c, accepts);
      if !(c.wb.valid && Faulty(c.wb.inst)) {
        Restarted(arch, Execute(arch, c, accepts));
      }
    } else {
      ExecuteRight(arch, c, accepts);
    }
  }

  lemma ExeStream(arch: Arch, c: Cpu, accepts: bool)
    requires StreamOk(arch, c) && Blame(c) && !c.exited
    requires Culprit(c.exe, c.mem, c.wb).Some? ==> c.id.wait
    requires c.mem.valid ==> !Faulty(c.mem.inst)
    ensures StreamOk(arch, ExeStage(arch, c, accepts))
  {
    if c.exe.valid && c.exe.stallCycle == 0 && !c.exe.end {
      ExecuteStream(arch, c, accepts);
    }
  }

  lemma MemStream(arch: Arch, c: Cpu)
    requires StreamOk(arch, c) && Blame(c) && !c.exited && !c.wb.valid
    ensures StreamOk(arch, MemStage(c))
  {}

  lemma BackStream(arch: Arch, c: Cpu, accepts: bool)
    requires StreamOk(arch, c) && Blame(c) && !c.exited
    ensures var c' := Back(arch, c, accepts); !c'.exited ==> StreamOk(arch, c')
  {
    WbBlame(c);
    if !WbStage(c).exited {
      WbStream(arch, c);
      MemBlame(WbStage(c));
      MemStream(arch, WbStage(c));
      ExeStream(arch, MemStage(WbStage(c)), accepts);
    }
  }

  // ---- ID ----

  /** The commit of the instruction ID holds. */
  predicate CommitOf(c: Cpu, x: Commit) {
    x.before == c.core.sigma && x.pc == c.core.pc && x.event.Decoded? && x.event.info == c.id.inst.info
  }

  /** What the update of a current, completed instruction does. */
  lemma RetireFacts(arch: Arch, c: Cpu) returns (x: Commit)
    requires Regular(arch) && IdOk(arch, c.core, c.id) && c.id.valid && !c.id.wait && !Faulty(c.id.inst)
    ensures CommitOf(c, x)
    ensures var c' := Retire(arch, c);
      && c'.core.pc == FlowTarget(c.core.pc, c.id.inst.info) == c'.id.inst.realTarget == x.target
      && c'.core.trace == c.core.trace + [x]
      && c'.id == c.id.(inst := c'.id.inst) && SameFlow(c'.id.inst, c.id.inst) && c'.fetch == c.fetch
  {
    x := Retire(arch, c).core.trace[|c.core.trace|];
  }

  predicate SameFlow(a: Inst, b: Inst) {
    a.info == b.info && a.nextPc == b.nextPc && a.taken == b.taken
  }

  /** An instruction that neither waits nor redirects goes where fetching went on. */
  lemma StaysOnPath(pc: Addr, inst: Inst, target: Addr)
    requires Suits(pc, inst.info, inst.nextPc, inst.taken) && target == FlowTarget(pc, inst.info) && !Faulty(inst)
    requires IsJump(inst.info.kind) ==> target == inst.nextPc
    requires inst.info.kind == Cond ==> !PredError(inst) && target == inst.nextPc
    ensures target == if inst.taken then inst.nextPc else Plus(pc, inst.info.size)
  {}

  /** The three ways on after a commit. */
  lemma SettleWays(arch: Arch, c: Cpu)
    requires !c.id.wait && !c.exited && !Faulty(c.id.inst)
    ensures var c', k := Settle(arch, c), c.id.inst.info.kind;
      || c'.exited || c'.id.wait
      || Emptied(c', c.id.inst.realTarget)
      || (c' == c && !NeedFlush(arch, c.id.inst.info)
          && (IsJump(k) ==> c.core.pc == c.id.inst.nextPc)
          && (k == Cond ==> !PredError(c.id.inst) && c.core.pc == c.id.inst.nextPc))
  {}

  /** A commit that goes straight on does not change what was found. */
  lemma StillFound(arch: Arch, core: Core, next: Core, x: Commit, b: Addr)
    requires FoundFaulty(arch, core, b) && next.trace == core.trace + [x] && x.before == core.sigma && Falls(arch, x)
    ensures FoundFaulty(arch, next, b)
  {
    var i: nat :| i <= |core.trace| && FaultyAt(arch, core, b, i);
    assert Straight(arch, next.trace, i);
    assert FaultyAt(arch, next, b, i);
  }

  /** Going on in the same row of blocks. */
  lemma GoesOn(arch: Arch, c: Cpu, core: Core, id: Id, x: Commit)
    requires Regular(arch) && Flowing(arch, c) && c.id.valid && core.pc == Ahead(c.core, c.id)
    requires id == c.id.(valid := false, inst := id.inst)
    requires core.trace == c.core.trace + [x] && CommitOf(c, x) && (!c.id.inst.taken ==> Falls(arch, x))
    ensures FlagsOk(id) && Chain(core, id, c.fetch) && Footing(arch, core, id) && LateOk(arch, core, id, c.fetch)
  {
    var f := c.fetch;
    if f.valid && |f.reqs| > 0 && Faulty(f.reqs[|f.reqs| - 1]) {
      StillFound(arch, c.core, core, x, f.reqs[|f.reqs| - 1].pc);
    }
  }

  predicate Emptied(c: Cpu, target: Addr) {
    && c.fetch == Fetch(false, target, []) && c.id.remain == 0
    && !c.id.stallValid && !c.id.stallDecMore && !c.id.stallInstValid
  }

  lemma EmptiedFlows(arch: Arch, c: Cpu)
    requires Emptied(c, c.core.pc)
    ensures Flowing(arch, c.(id := c.id.(valid := false)))
  {
    Restarted(arch, c.(id := c.id.(valid := false)));
  }

  lemma OnPathFlows(arch: Arch, c: Cpu, r: Cpu, x: Commit)
    requires Regular(arch) && Flowing(arch, c) && c.id.valid && !Faulty(c.id.inst) && !NeedFlush(arch, c.id.inst.info)
    requires r.id == c.id.(inst := r.id.inst) && SameFlow(r.id.inst, c.id.inst) && r.fetch == c.fetch
    requires r.core.pc == FlowTarget(c.core.pc, c.id.inst.info) == x.target
    requires r.core.trace == c.core.trace + [x] && CommitOf(c, x)
    requires IsJump(c.id.inst.info.kind) ==> r.core.pc == c.id.inst.nextPc
    requires c.id.inst.info.kind == Cond ==> !PredError(c.id.inst) && r.core.pc == c.id.inst.nextPc
    ensures Flowing(arch, r.(id := r.id.(valid := false)))
  {
    StaysOnPath(c.core.pc, c.id.inst, r.core.pc);
    GoesOn(arch, c, r.core, r.id.(valid := false), x);
  }

  lemma CommitStream(arch: Arch, c: Cpu)
    requires Regular(arch) && IdOk(arch, c.core, c.id) && Flowing(arch, c) && !c.exited
    requires c.id.valid && !c.id.wait && !c.exe.valid && !Faulty(c.id.inst)
    ensures var c' := IdStage(arch, c); c'.exited || c'.id.wait || Flowing(arch, c')
  {
    var x := RetireFacts(arch, c);
    var r := Retire(arch, c);
    SettleWays(arch, r);
    SettleSides(arch, r);
    CommitMoves(arch, c);
    var c2 := Settle(arch, r);
    if c2 == r && !NeedFlush(arch, c.id.inst.info) && !c2.exited && !c2.id.wait {
      if c2.fetch == c.fetch && !Emptied(c2, r.core.pc) {
        OnPathFlows(arch, c, r, x);
      }
    }
    if Emptied(c2, c2.core.pc) {
      EmptiedFlows(arch, c2);
    }
  }

  lemma CommitMoves(arch: Arch, c: Cpu)
    requires !c.exited && c.id.valid && !c.id.wait && !c.exe.valid && !Faulty(c.id.inst)
    ensures var c2, c' := Settle(arch, Retire(arch, c)), IdStage(arch, c);
      && c'.exited == c2.exited && c'.core == c2.core && c'.fetch == c2.fetch
      && (!c2.exited ==> c'.id == c2.id.(valid := false))
  {}

  lemma IdStream(arch: Arch, c: Cpu)
    requires Regular(arch) && IdOk(arch, c.core, c.id) && StreamOk(arch, c) && BlameMid(c) && !c.exited
    ensures var c' := IdStage(arch, c); !c'.exited ==> StreamOk(arch, c')
  {
    if c.id.valid && !c.id.wait && !c.exe.valid {
      if Faulty(c.id.inst) {
        SettleWaits(arch, Retire(arch, Fault(c, c.id.late)));
        SettleSides(arch, Retire(arch, Fault(c, c.id.late)));
      } else {
        CommitStream(arch, c);
      }
    }
  }

  // ---- decoding ahead ----

  /** The block's rest after the instruction decoded. */
  predicate Consumed(c: Cpu, c': Cpu, finish: bool) {
    var size := c'.id.inst.info.size;
    && (size == 2 || size == 4)
    && c'.id == c.id.(inst := c'.id.inst, late := false, remain := c.id.remain - size)
    && c'.fetch == c.fetch && (finish <==> c.id.remain - size <= 0)
  }

  /** What preId leaves when it decodes: the predicted path, or less of the block. */
  predicate Decodes(c: Cpu, c': Cpu, finish: bool) {
    !Faulty(c'.id.inst) ==>
      && Suits(c.core.pc, c'.id.inst.info, c'.id.inst.nextPc, c'.id.inst.taken)
      && (c'.id.inst.taken ==> finish && Emptied(c', c'.id.inst.nextPc))
      && (!c'.id.inst.taken ==> Consumed(c, c', finish))
  }

  lemma DecodeHereFacts(arch: Arch, c: Cpu, paddr: Addr, a: Answer)
    requires Regular(arch)
    ensures var (c', finish) := DecodeHere(arch, c, paddr, a); Decodes(c, c', finish)
  {
    var info := arch.decode(c.core.sigma, c.core.pc, paddr, a.irq);
    assert info.size == 2 || info.size == 4;
    PredictionSuits(c.core.pc, info, a.stream);
  }

  lemma DecodeFacts(arch: Arch, c: Cpu, a: Answer)
    requires Regular(arch) && !Faulty(c.id.inst)
    ensures var (c', finish) := PreDecode(arch, c, a); Beside(c, c') && Decodes(c, c', finish)
  {
    PreDecodeBeside(arch, c, a);
    var t, cur := arch.translate(c.core.sigma, c.core.pc), c.id.inst;
    if t.Some? {
      DecodeHereFacts(arch, c, t.value, a);
    } else {
      var b := c.(id := c.id.(inst := cur.(info := cur.info.(exception := EXC_IPF))));
      assert Faulty(Fault(b, false).id.inst);
    }
  }

  /** What was found stays found while ID fills, unless a jump is predicted. */
  lemma LateSame(arch: Arch, core: Core, id: Id, f: Fetch, core': Core, id': Id)
    requires LateOk(arch, core, id, f) && SameArch(core', core) && !(id'.valid && id'.inst.taken)
    ensures LateOk(arch, core', id', f)
  {
    if f.valid && |f.reqs| > 0 && Faulty(f.reqs[|f.reqs| - 1]) {
      var b := f.reqs[|f.reqs| - 1].pc;
      var i: nat :| i <= |core.trace| && FaultyAt(arch, core, b, i);
      assert FaultyAt(arch, core', b, i);
    }
  }

  /** A predicted jump has fetching start at its target. */
  lemma TakenFlows(arch: Arch, c: Cpu)
    requires c.id.valid && c.id.inst.taken && Emptied(c, c.id.inst.nextPc)
    requires Suits(c.core.pc, c.id.inst.info, c.id.inst.nextPc, true)
    ensures Flowing(arch, c)
  {
    PlusZero(c.id.inst.nextPc);
  }

  /** A new block in ID: the pc is at its start, or two bytes in. */
  lemma NewBlockFlows(arch: Arch, c: Cpu, core: Core, id: Id, fetch: Fetch, block: Inst, r0: int)
    requires Plus(core.pc, r0) == block.pc && (r0 == 0 || r0 == -2) && block.size == 4
    requires InRow(fetch) && Plus(block.pc, 4) == Head(fetch) && LateOk(arch, core, c.id, fetch)
    requires id.valid && !id.inst.taken && Suits(core.pc, id.inst.info, id.inst.nextPc, false)
    requires id.inst.info.size == 2 || id.inst.info.size == 4
    requires id.remain == r0 + 4 - id.inst.info.size && !Parked(id)
    requires id.stallValid <==> id.stallDecMore || id.stallInstValid
    requires id.remain == 2 <==> id.stallDecMore || id.stallInstValid
    requires id.stallDecMore ==> id.remain == 2
    requires id.stallInstValid ==> id.stallInst.size == 4
    requires c.core == core && c.id == id && c.fetch == fetch
    ensures Flowing(arch, c)
  {
    PlusPlus(core.pc, id.inst.info.size, id.remain);
    PlusPlus(core.pc, r0, 4);
  }

  /** More of the block in ID. */
  lemma SameBlockFlows(arch: Arch, c: Cpu, core: Core, was: Id, id: Id)
    requires Flowing(arch, c) && c.id == was && !was.valid && was.remain == 2
    requires SameArch(core, c.core)
    requires id.valid && !id.inst.taken && Suits(core.pc, id.inst.info, id.inst.nextPc, false)
    requires id.inst.info.size == 2 || id.inst.info.size == 4
    requires id.remain == 2 - id.inst.info.size && !id.stallDecMore && id.stallInst == was.stallInst
    requires id.stallInstValid <==> was.stallInstValid && was.stallDecMore
    requires id.stallValid <==> id.stallInstValid
    ensures Flowing(arch, c.(core := core, id := id))
  {
    PlusPlus(core.pc, id.inst.info.size, id.remain);
    LateSame(arch, c.core, was, c.fetch, core, id);
  }

  lemma StallMore(arch: Arch, c: Cpu, a: Answer)
    requires Regular(arch) && Flowing(arch, c) && !c.exited && !c.id.wait
    requires !c.id.valid && c.id.stallValid && c.id.remain == 2 && !Faulty(c.id.inst)
    ensures var c' := StallStage(arch, c, a); Faulty(c'.id.inst) || Flowing(arch, c')
  {
    DecodeFacts(arch, c, a);
    var (c1, finish) := PreDecode(arch, c, a);
    var c' := StallStage(arch, c, a);
    if !Faulty(c1.id.inst) {
      if c1.id.inst.taken {
        TakenFlows(arch, c');
      } else {
        SameBlockFlows(arch, c, c'.core, c.id, c'.id);
      }
    }
  }

  lemma StallNew(arch: Arch, c: Cpu, a: Answer)
    requires Regular(arch) && Flowing(arch, c) && !c.exited && !c.id.wait
    requires !c.id.valid && c.id.stallValid && c.id.remain <= 0 && !Faulty(c.id.stallInst)
    ensures var c' := StallStage(arch, c, a); Faulty(c'.id.inst) || Flowing(arch, c')
  {
    var b := c.(id := c.id.(inst := c.id.stallInst, remain := c.id.remain + c.id.stallInst.size));
    DecodeFacts(arch, b, a);
    var (c1, finish) := PreDecode(arch, b, a);
    var c' := StallStage(arch, c, a);
    if !Faulty(c1.id.inst) {
      if c1.id.inst.taken {
        TakenFlows(arch, c');
      } else {
        LateSame(arch, c.core, c.id, c.fetch, c'.core, c'.id);
        NewBlockFlows(arch, c', c'.core, c'.id, c'.fetch, c.id.stallInst, c.id.remain);
      }
    }
  }

  lemma StallStream(arch: Arch, c: Cpu, a: Answer)
    requires Regular(arch) && IdOk(arch, c.core, c.id) && StreamOk(arch, c) && !c.exited
    ensures StreamOk(arch, StallStage(arch, c, a))
  {
    PreIdBlame(arch, c, c.id.stallInst, a);
    if !c.id.valid && c.id.stallValid && !c.id.wait {
      StallFills(arch, c, a);
      if c.id.remain == 2 {
        StallMore(arch, c, a);
      } else {
        StallNew(arch, c, a);
      }
    }
  }

  lemma StallFills(arch: Arch, c: Cpu, a: Answer)
    requires !c.exited && !c.id.valid && c.id.stallValid
    ensures StallStage(arch, c, a).id.valid
  {}

  // ---- fetching ----

  lemma RowUpdated(f: Fetch, r: Inst)
    requires InRow(f) && 0 < |f.reqs| && r.pc == f.reqs[|f.reqs| - 1].pc && r.size == f.reqs[|f.reqs| - 1].size
    ensures InRow(f.(reqs := f.reqs[|f.reqs| - 1 := r])) && Head(f.(reqs := f.reqs[|f.reqs| - 1 := r])) == Head(f)
  {
    var g := f.(reqs := f.reqs[|f.reqs| - 1 := r]);
    forall i | 0 <= i < |g.reqs| ensures LinkOk(g, i) {
      assert LinkOk(f, i);
    }
  }

  lemma RowAppended(f: Fetch, r: Inst)
    requires InRow(f) && r.pc == f.predPc && r.size == 4
    ensures var g := Fetch(true, Plus(f.predPc, 4), f.reqs + [r]);
      InRow(g) && Head(g) == Head(f)
  {
    var g := Fetch(true, Plus(f.predPc, 4), f.reqs + [r]);
    forall i | 0 <= i < |g.reqs| ensures LinkOk(g, i) {
      if i < |f.reqs| { assert LinkOk(f, i); }
    }
  }

  lemma RowPopped(f: Fetch)
    requires InRow(f) && 0 < |f.reqs|
    ensures InRow(f.(reqs := f.reqs[1..])) && Plus(f.reqs[0].pc, 4) == Head(f.(reqs := f.reqs[1..])) && f.reqs[0].size == 4
  {
    var g := f.(reqs := f.reqs[1..]);
    assert LinkOk(f, 0);
    forall i | 0 <= i < |g.reqs| ensures LinkOk(g, i) {
      assert LinkOk(f, i + 1);
    }
  }

  lemma TranslatedLate(arch: Arch, core: Core, id: Id, f: Fetch)
    requires f.valid && 0 < |f.reqs| && LateOk(arch, core, id, f)
    ensures var r := Translated(arch, core.sigma, f.reqs[|f.reqs| - 1]);
      r.pc == f.reqs[|f.reqs| - 1].pc && r.size == f.reqs[|f.reqs| - 1].size
      && (Faulty(r) ==> FoundFaulty(arch, core, r.pc))
  {
    var r := Translated(arch, core.sigma, f.reqs[|f.reqs| - 1]);
    if Faulty(r) && !Faulty(f.reqs[|f.reqs| - 1]) {
      assert FaultyAt(arch, core, r.pc, |core.trace|);
    }
  }

  /** What the fetch stage does to its last block. */
  lemma FetchSides(arch: Arch, c: Cpu, accepts: bool)
    requires c.fetch.valid && !c.id.valid && !c.exited && 0 < |c.fetch.reqs|
    ensures var c' := FetchStage(arch, c, accepts);
      var r := Translated(arch, c.core.sigma, c.fetch.reqs[|c.fetch.reqs| - 1]);
      || (c'.id.valid && Faulty(c'.id.inst))
      || (&& c'.core == c.core && c'.id == c.id && c'.fetch.predPc == c.fetch.predPc
          && c'.fetch.reqs == c.fetch.reqs[|c.fetch.reqs| - 1 := r] && (Faulty(r) ==> c'.fetch.valid))
  {}

  lemma FetchFlows(arch: Arch, c: Cpu, accepts: bool)
    requires Flowing(arch, c) && c.fetch.valid && !c.id.valid && !c.exited && 0 < |c.fetch.reqs|
    ensures var c' := FetchStage(arch, c, accepts); (c'.id.valid && Faulty(c'.id.inst)) || Flowing(arch, c')
  {
    FetchSides(arch, c, accepts);
    TranslatedLate(arch, c.core, c.id, c.fetch);
    RowUpdated(c.fetch, Translated(arch, c.core.sigma, c.fetch.reqs[|c.fetch.reqs| - 1]));
    var r := Translated(arch, c.core.sigma, c.fetch.reqs[|c.fetch.reqs| - 1]);
    var c' := FetchStage(arch, c, accepts);
    if !(c'.id.valid && Faulty(c'.id.inst)) {
      InRowOnly(c.fetch.(reqs := c.fetch.reqs[|c.fetch.reqs| - 1 := r]), c'.fetch);
    }
  }

  /** Whether the last block has been asked for does not matter to the row. */
  lemma InRowOnly(f: Fetch, g: Fetch)
    requires InRow(f) && g.reqs == f.reqs && g.predPc == f.predPc
    ensures InRow(g)
  {
    forall i | 0 <= i < |g.reqs| ensures LinkOk(g, i) {
      assert LinkOk(f, i);
    }
  }

  lemma FetchStream(arch: Arch, c: Cpu, accepts: bool)
    requires StreamOk(arch, c) && BlameMid(c) && FetchOk(c.fetch) && !c.exited
    ensures StreamOk(arch, FetchStage(arch, c, accepts))
  {
    if c.fetch.valid && !c.id.valid {
      if !c.id.wait {
        FetchFlows(arch, c, accepts);
      } else {
        FetchWaits(arch, c, accepts);
      }
    }
  }

  lemma FetchWaits(arch: Arch, c: Cpu, accepts: bool)
    ensures FetchStage(arch, c, accepts).id.wait == c.id.wait
  {}

  lemma NextFetchStream(arch: Arch, c: Cpu, slot: Inst)
    requires StreamOk(arch, c) && !c.exited
    ensures StreamOk(arch, NextFetch(c, slot))
  {
    if !c.fetch.valid && Flowing(arch, c) {
      var r := slot.(pc := c.fetch.predPc, size := 4, info := slot.info.(exception := EXC_NONE));
      RowAppended(c.fetch, r);
    }
  }

  /** Between cycles an empty ID has nothing parked behind it. */
  predicate Drained(c: Cpu) {
    !c.id.valid ==> !c.id.stallValid
  }

  /** A callback ends no waiting, and drops no fault. */
  lemma CallbackSides(arch: Arch, c: Cpu, a: Answer)
    requires 0 < |c.fetch.reqs|
    ensures var c' := ICacheAnswers(arch, c, a);
      c'.id.wait == c.id.wait && (c.id.valid ==> c'.id.valid && c'.id.inst == c.id.inst)
  {
    if !c.id.valid {
      var c1 := c.(fetch := c.fetch.(reqs := c.fetch.reqs[1..]));
      PreIdBlame(arch, c1.(id := c1.id.(valid := true)), c.fetch.reqs[0], a);
    }
  }

  lemma ICacheStream(arch: Arch, c: Cpu, a: Answer)
    requires Regular(arch) && StreamOk(arch, c) && FetchOk(c.fetch) && IdOk(arch, c.core, c.id) && !c.exited && Drained(c)
    requires Enabled(c, ICallback(a)) && Orderly(c, ICallback(a))
    ensures StreamOk(arch, ICacheAnswers(arch, c, a))
  {
    CallbackSides(arch, c, a);
    if !c.id.wait && !(c.id.valid && Faulty(c.id.inst)) {
      assert Flowing(arch, c);
      if c.id.valid {
        ParkStream(arch, c, a);
      } else {
        DeliverStream(arch, c, a);
      }
    }
  }

  lemma ParkStream(arch: Arch, c: Cpu, a: Answer)
    requires Flowing(arch, c) && c.id.valid && !c.id.stallInstValid && 0 < |c.fetch.reqs|
    requires c.fetch.valid ==> 1 < |c.fetch.reqs|
    ensures Flowing(arch, ICacheAnswers(arch, c, a))
  {
    RowPopped(c.fetch);
  }

  lemma DeliverStream(arch: Arch, c: Cpu, a: Answer)
    requires Regular(arch) && Flowing(arch, c) && FetchOk(c.fetch) && !c.id.valid && !c.id.stallValid && !c.id.wait
    requires 0 < |c.fetch.reqs| && (c.fetch.valid ==> 1 < |c.fetch.reqs|)
    ensures var c' := ICacheAnswers(arch, c, a); (c'.id.valid && Faulty(c'.id.inst)) || Flowing(arch, c')
  {
    var block := c.fetch.reqs[0];
    var c1 := c.(fetch := c.fetch.(reqs := c.fetch.reqs[1..]));
    var b := c1.(id := c.id.(valid := true, inst := block, remain := c.id.remain + block.size));
    DecodeFacts(arch, b, a);
    var (c2, finish) := PreDecode(arch, b, a);
    var c' := ICacheAnswers(arch, c, a);
    if !Faulty(c2.id.inst) {
      if c2.id.inst.taken {
        TakenFlows(arch, c');
      } else {
        PoppedRow(arch, c);
        LateSame(arch, c.core, c.id, c'.fetch, c'.core, c'.id);
        NewBlockFlows(arch, c', c'.core, c'.id, c'.fetch, block, c.id.remain);
      }
    }
  }

  lemma PoppedRow(arch: Arch, c: Cpu)
    requires Flowing(arch, c) && 0 < |c.fetch.reqs| && (c.fetch.valid ==> 1 < |c.fetch.reqs|)
    ensures var f := c.fetch.(reqs := c.fetch.reqs[1..]);
      InRow(f) && Plus(c.fetch.reqs[0].pc, 4) == Head(f) && c.fetch.reqs[0].size == 4 && LateOk(arch, c.core, c.id, f)
  {
    RowPopped(c.fetch);
  }

  // ---- whole steps ----

  lemma AtFetchStream(arch: Arch, s: State, pc: Addr, c: Cpu, inp: ExecIn)
    requires Regular(arch) && Inv(arch, s, pc, c) && !c.exited && Blame(c) && StreamOk(arch, c)
    ensures var c2 := AtFetch(arch, c, inp);
      !c2.exited ==> StreamOk(arch, c2) && BlameMid(c2) && FetchOk(c2.fetch) && (!c2.id.valid ==> !c2.id.stallValid)
  {
    var c1 := Back(arch, c, inp.dcacheAccepts);
    BackBlame(arch, c, inp.dcacheAccepts);
    BackKeeps(arch, s, pc, c, inp.dcacheAccepts);
    AtFetchBlame(arch, c, inp);
    if !c1.exited {
      BackStream(arch, c, inp.dcacheAccepts);
      IdStream(arch, c1);
      IdKeeps(arch, s, pc, c1);
      var c2 := IdStage(arch, c1);
      if !c2.exited {
        StallStream(arch, c2, inp.answer);
        StallKeeps(arch, s, pc, c2, inp.answer);
        if !c2.id.valid && c2.id.stallValid { StallFills(arch, c2, inp.answer); }
      }
    }
  }

  lemma NextStream(arch: Arch, s: State, pc: Addr, c: Cpu, step: Step)
    requires Regular(arch) && Inv(arch, s, pc, c) && Orderly(c, step)
    requires !c.exited ==> Blame(c) && StreamOk(arch, c) && Drained(c)
    ensures var c' := Next(arch, c, step); !c'.exited ==> StreamOk(arch, c') && Drained(c')
  {
    if !c.exited && Enabled(c, step) {
      match step
      case Exec(inp) =>
        AtFetchStream(arch, s, pc, c, inp);
        var c2 := AtFetch(arch, c, inp);
        if !c2.exited {
          FetchStream(arch, c2, inp.icacheAccepts);
          FetchBlame(arch, c2, inp.icacheAccepts);
          NextFetchStream(arch, FetchStage(arch, c2, inp.icacheAccepts), inp.slot);
        }
      case ICallback(a) => ICacheStream(arch, c, a);
      case DCallback(i) =>
    }
  }

  /** A fault handed to ID is one at the pc. */
  lemma HandoverIsCurrent(arch: Arch, s: State, pc: Addr, c: Cpu)
    requires Regular(arch) && Steady(arch, s, pc) && SeqRun(arch, s, pc, c.core.trace) && CoreOk(arch, s, pc, c.core)
    requires StreamOk(arch, c) && BlameMid(c) && HandsFault(arch, c) && !c.id.wait
    ensures arch.translate(c.core.sigma, c.core.pc).None?
  {
    TranslatedLate(arch, c.core, c.id, c.fetch);
    var b := c.fetch.reqs[0].pc;
    var i: nat :| i <= |c.core.trace| && FaultyAt(arch, c.core, b, i);
    AtBlock(arch, c.core, c.id, b);
    assert SteadyAt(arch, s, pc, c.core.trace, i, b);
  }

  lemma AtBlock(arch: Arch, core: Core, id: Id, b: Addr)
    requires Plus(core.pc, id.remain) == b && (id.remain == 0 || id.remain == -2) && !id.valid && Footing(arch, core, id)
    ensures RunsInto(arch, core.trace, core.pc, b)
  {
    PlusZero(core.pc);
    PlusPlus(core.pc, -2, 2);
  }

  /** On track at the fetch stage: the commit of this cycle is sequential too. */
  lemma AtFetchOnTrack(arch: Arch, s: State, pc: Addr, c: Cpu, inp: ExecIn)
    requires Sane(arch) && Inv(arch, s, pc, c) && !c.exited && Blame(c) && OnTrack(arch, s, pc, c)
    ensures var c2 := AtFetch(arch, c, inp); SeqRun(arch, s, pc, c2.core.trace) && CoreOk(arch, s, pc, c2.core)
  {
    var c1 := Back(arch, c, inp.dcacheAccepts);
    BackOnTrack(arch, s, pc, c, inp.dcacheAccepts);
    BackKeeps(arch, s, pc, c, inp.dcacheAccepts);
    IdOnTrack(arch, s, pc, c1);
    IdKeeps(arch, s, pc, c1);
    StallKeeps(arch, s, pc, IdStage(arch, c1), inp.answer);
    StallKeepsArch(arch, IdStage(arch, c1), inp.answer);
  }

  lemma StallKeepsArch(arch: Arch, c: Cpu, a: Answer)
    ensures SameArch(StallStage(arch, c, a).core, c.core)
  {}

  lemma NothingStale(arch: Arch, s: State, pc: Addr, c: Cpu, step: Step)
    requires Regular(arch) && Steady(arch, s, pc) && Inv(arch, s, pc, c) && OnTrack(arch, s, pc, c)
    requires !c.exited ==> Blame(c) && StreamOk(arch, c)
    ensures !StaleHandover(arch, c, step)
  {
    if step.Exec? && !c.exited {
      AtFetchStream(arch, s, pc, c, step.inp);
      AtFetchOnTrack(arch, s, pc, c, step.inp);
      var c2 := AtFetch(arch, c, step.inp);
      if HandsFault(arch, c2) && !c2.id.wait {
        HandoverIsCurrent(arch, s, pc, c2);
      }
    }
  }

  lemma OrderlyFront(arch: Arch, c: Cpu, steps: seq<Step>)
    requires |steps| > 0 && AllOrderly(arch, c, steps)
    ensures var n := |steps| - 1;
      AllOrderly(arch, c, steps[..n]) && Orderly(After(arch, c, steps[..n]), steps[n])
  {
    var front := steps[..|steps| - 1];
    forall k | 0 <= k < |front| ensures Orderly(After(arch, c, front[..k]), front[k]) {
      assert front[..k] == steps[..k];
      assert Orderly(After(arch, c, steps[..k]), steps[k]);
    }
  }

  lemma {:induction false} RunFlows(arch: Arch, slot: Inst, env: Env, s: State, pc: Addr, steps: seq<Step>)
    requires Regular(arch) && Steady(arch, s, pc) && AllOrderly(arch, Start(arch, slot, env, s, pc), steps)
    ensures var c := After(arch, Start(arch, slot, env, s, pc), steps); !c.exited ==> StreamOk(arch, c) && Drained(c)
    ensures HandsNoStaleFault(arch, Start(arch, slot, env, s, pc), steps)
  {
    var c0 := Start(arch, slot, env, s, pc);
    if |steps| == 0 {
      PlusZero(pc);
    } else {
      var n := |steps| - 1;
      var front := steps[..n];
      OrderlyFront(arch, c0, steps);
      RunFlows(arch, slot, env, s, pc, front);
      RunKeeps(arch, slot, env, s, pc, front);
      RunBlame(arch, slot, env, s, pc, front);
      SequentialIffNoStaleHandover(arch, slot, env, s, pc, front);
      NextStream(arch, s, pc, After(arch, c0, front), steps[n]);
      NothingStale(arch, s, pc, After(arch, c0, front), steps[n]);
      HandsMore(arch, c0, steps);
    }
  }

  // ---- the results ----

  /** For every schedule, whatever the caches, delays, branch predictors and redirects do: if the code
      ahead stays as fetchable as it was found, the commits are a run of the sequential machine. */
  lemma EveryRunIsSequential(arch: Arch, slot: Inst, env: Env, s: State, pc: Addr, steps: seq<Step>)
    requires Regular(arch) && Steady(arch, s, pc) && AllOrderly(arch, Start(arch, slot, env, s, pc), steps)
    ensures var c := After(arch, Start(arch, slot, env, s, pc), steps);
      SeqRun(arch, s, pc, c.core.trace) && c.core.sigma == EndState(s, c.core.trace) && c.core.pc == EndPc(pc, c.core.trace)
  {
    RunFlows(arch, slot, env, s, pc, steps);
    SequentialIffNoStaleHandover(arch, slot, env, s, pc, steps);
    RunKeeps(arch, slot, env, s, pc, steps);
  }

  /** Timing independence: two schedules commit the same, as far as both have come and as long as they
      see the same interrupts. */
  lemma TimingIndependence(arch: Arch, slot: Inst, env: Env, s: State, pc: Addr, steps: seq<Step>, others: seq<Step>)
    requires Regular(arch) && Steady(arch, s, pc)
    requires AllOrderly(arch, Start(arch, slot, env, s, pc), steps) && AllOrderly(arch, Start(arch, slot, env, s, pc), others)
    ensures var t := After(arch, Start(arch, slot, env, s, pc), steps).core.trace;
      var u := After(arch, Start(arch, slot, env, s, pc), others).core.trace;
      forall n :: 0 <= n < |t| && n < |u| && (forall i :: 0 <= i <= n ==> SameIrq(t[i].event, u[i].event)) ==>
        Observed(t[n]) == Observed(u[n])
  {
    EveryRunIsSequential(arch, slot, env, s, pc, steps);
    EveryRunIsSequential(arch, slot, env, s, pc, others);
    var t := After(arch, Start(arch, slot, env, s, pc), steps).core.trace;
    var u := After(arch, Start(arch, slot, env, s, pc), others).core.trace;
    forall n | 0 <= n < |t| && n < |u| && (forall i :: 0 <= i <= n ==> SameIrq(t[i].event, u[i].event))
      ensures Observed(t[n]) == Observed(u[n])
    {
      SequentialIsUnique(arch, s, pc, t, u, n + 1);
    }
  }

  /** A commit that leaves the predicted path makes the younger instructions wait, or redirects to
      its target at once, unless it is a direct jump: then fetching goes on as if nothing were
      wrong. */
  lemma LeavingThePath(arch: Arch, c: Cpu)
    requires Follows(arch) && !c.exited && !c.id.wait && !Faulty(c.id.inst)
    requires c.core.env.event.Decoded? && c.core.env.pc == c.core.pc && c.core.env.event.info == c.id.inst.info
    requires !c.id.inst.taken ==> c.id.inst.nextPc == Plus(c.core.pc, c.id.inst.info.size)
    requires CommitInst(arch, c).core.pc !=
      if c.id.inst.taken then c.id.inst.nextPc else Plus(c.core.pc, c.id.inst.info.size)
    ensures var c', k := CommitInst(arch, c), c.id.inst.info.kind;
      if k == Direct || k == Push then !c'.id.wait && c'.fetch == c.fetch && c'.id.remain == c.id.remain
      else c'.id.wait || Emptied(c', c'.core.pc)
  {
    var r := Retire(arch, c);
    assert r.core.pc == FlowTarget(c.core.pc, c.id.inst.info);
    OffPath(arch, c.core.pc, r);
  }

  lemma OffPath(arch: Arch, pc: Addr, r: Cpu)
    requires !r.exited && !r.id.wait && !Faulty(r.id.inst) && r.id.inst.realTarget == r.core.pc
    requires r.core.pc == FlowTarget(pc, r.id.inst.info)
    requires !r.id.inst.taken ==> r.id.inst.nextPc == Plus(pc, r.id.inst.info.size)
    requires r.core.pc != if r.id.inst.taken then r.id.inst.nextPc else Plus(pc, r.id.inst.info.size)
    ensures var c', k := Settle(arch, r), r.id.inst.info.kind;
      if k == Direct || k == Push then !c'.id.wait && c'.fetch == r.fetch && c'.id.remain == r.id.remain
      else c'.id.wait || Emptied(c', c'.core.pc)
  {}

  /** With the predictor there is, none of those exceptions arises: a direct jump is always predicted to
      its target, and whatever completes off the predicted path makes the younger ones wait or
      redirects. */
  lemma EveryDepartureIsSeen(arch: Arch, c: Cpu)
    requires Follows(arch) && !c.exited && !c.id.wait && !Faulty(c.id.inst)
    requires c.core.env.event.Decoded? && c.core.env.pc == c.core.pc && c.core.env.event.info == c.id.inst.info
    requires exists b: Stream :: (c.id.inst.nextPc, c.id.inst.taken) == Predict(c.core.pc, c.id.inst.info, b)
    requires CommitInst(arch, c).core.pc !=
      if c.id.inst.taken then c.id.inst.nextPc else Plus(c.core.pc, c.id.inst.info.size)
    ensures var c', k := CommitInst(arch, c), c.id.inst.info.kind;
      k != Direct && k != Push && (c'.id.wait || Emptied(c', c'.core.pc))
  {
    var b: Stream :| (c.id.inst.nextPc, c.id.inst.taken) == Predict(c.core.pc, c.id.inst.info, b);
    PredictionSuits(c.core.pc, c.id.inst.info, b);
    LeavingThePath(arch, c);
    assert Retire(arch, c).core.pc == FlowTarget(c.core.pc, c.id.inst.info);
    SettleSides(arch, Retire(arch, c));
  }

  /** What the predictors said is what the instruction does: the direction of a conditional branch is
      dst1, the target of an indirect jump is dst2 and comes from the indirect predictor if that has
      one, of a return from the return stack if that has one, and else from the target buffer. */
  predicate SaidRight(info: Info, b: Stream) {
    match info.kind
    case Cond => info.dst1 == if b.taken then 1 else 0
    case IndCall | IndPush | Indirect => (b.indv && b.indTarget == info.dst2) || (!b.indv && b.target == info.dst2)
    case Pop | PopPush => (b.rasv && b.rasTarget == info.dst2) || (!b.rasv && b.target == info.dst2)
    case _ => true
  }

  /** Younger instructions wait exactly if the predictors were wrong; if they were right, the pc goes to
      where they said, and but for a flush the fetch stays as it is. */
  lemma WaitsIffWrong(arch: Arch, c: Cpu, b: Stream)
    requires Follows(arch) && !c.exited && !c.id.wait && !Faulty(c.id.inst)
    requires c.core.env.event.Decoded? && c.core.env.pc == c.core.pc && c.core.env.event.info == c.id.inst.info
    requires (c.id.inst.nextPc, c.id.inst.taken) == Predict(c.core.pc, c.id.inst.info, b)
    ensures var c', info := CommitInst(arch, c), c.id.inst.info;
      && (c'.id.wait <==> !SaidRight(info, b))
      && (SaidRight(info, b) ==> c'.core.pc == c.id.inst.nextPc)
      && (SaidRight(info, b) && !NeedFlush(arch, info) ==> c'.fetch == c.fetch)
  {
    var r, info := Retire(arch, c), c.id.inst.info;
    assert r.core.pc == FlowTarget(c.core.pc, info);
    RightIsHit(c.core.pc, info, b);
    SettleByKind(arch, r);
  }

  lemma RightIsHit(pc: Addr, info: Info, b: Stream)
    ensures SaidRight(info, b) ==> FlowTarget(pc, info) == Predict(pc, info, b).0
    ensures IsJump(info.kind) && FlowTarget(pc, info) == Predict(pc, info, b).0 ==> SaidRight(info, b)
    ensures info.kind == Cond ==> (SaidRight(info, b) <==> info.dst1 == if Predict(pc, info, b).1 then 1 else 0)
  {}

  lemma SettleByKind(arch: Arch, r: Cpu)
    requires !r.exited && !r.id.wait && !Faulty(r.id.inst)
    ensures var c', k, hit := Settle(arch, r), r.id.inst.info.kind, r.core.pc == r.id.inst.nextPc;
      && c'.core == r.core
      && (c'.id.wait <==> if k == Cond then PredError(r.id.inst) || !hit else IsJump(k) && !hit)
      && (NeedFlush(arch, r.id.inst.info) || (r.id.inst.taken && k != Cond && !IsJump(k) && k != Direct && k != Push) ||
          c'.fetch == r.fetch)
  {}

  /** And EXE redirects to the target it went to exactly if they were wrong. */
  lemma RedirectsIffWrong(arch: Arch, c: Cpu, d: Cpu, b: Stream, accepts: bool)
    requires Follows(arch) && !c.exited && !c.id.wait && !Faulty(c.id.inst)
    requires c.core.env.event.Decoded? && c.core.env.pc == c.core.pc && c.core.env.event.info == c.id.inst.info
    requires (c.id.inst.nextPc, c.id.inst.taken) == Predict(c.core.pc, c.id.inst.info, b)
    requires d.exe.inst == CommitInst(arch, c).id.inst
    ensures var d', info := Execute(arch, d, accepts), c.id.inst.info;
      && (SaidRight(info, b) ==> d'.fetch == d.fetch && d'.exe.inst.result == d.exe.inst.result)
      && (!SaidRight(info, b) ==>
            d'.fetch == Fetch(false, CommitInst(arch, c).core.pc, []) && d'.exe.inst.result == PredFail)
  {
    RightIsHit(c.core.pc, c.id.inst.info, b);
    CommittedInst(arch, c);
    ExecuteByKind(arch, d, accepts);
  }

  lemma CommittedInst(arch: Arch, c: Cpu)
    requires Follows(arch) && !Faulty(c.id.inst)
    requires c.core.env.event.Decoded? && c.core.env.pc == c.core.pc && c.core.env.event.info == c.id.inst.info
    ensures var c', i := CommitInst(arch, c), CommitInst(arch, c).id.inst;
      && i.info == c.id.inst.info && i.nextPc == c.id.inst.nextPc && i.taken == c.id.inst.taken
      && i.realTarget == c'.core.pc == FlowTarget(c.core.pc, c.id.inst.info)
  {
    assert Retire(arch, c).core.pc == FlowTarget(c.core.pc, c.id.inst.info);
  }

  lemma ExecuteByKind(arch: Arch, d: Cpu, accepts: bool)
    requires !Faulty(d.exe.inst)
    ensures var d', i := Execute(arch, d, accepts), d.exe.inst;
      var wrong := if i.info.kind == Cond then PredError(i) || i.nextPc != i.realTarget
                   else IsJump(i.info.kind) && i.nextPc != i.realTarget;
      if wrong then d'.fetch == Fetch(false, i.realTarget, []) && d'.exe.inst.result == PredFail
      else d'.fetch == d.fetch && d'.exe.inst.result == i.result
  {}

  // ---- programs that are steady ----

  /** A page can be fetched from as a whole or not at all. */
  ghost predicate PerPage(arch: Arch) {
    forall s, a: Addr, b: Addr :: a / 4096 == b / 4096 ==> arch.translate(s, a).None? == arch.translate(s, b).None?
  }

  /** In no run does an instruction that ID does not redirect for make a page fetchable, or unmap the
      page it is in. */
  ghost predicate Gentle(arch: Arch, s: State, pc: Addr) {
    forall t: seq<Commit>, i: nat :: SeqRun(arch, s, pc, t) && i < |t| && InLine(arch, t[i]) ==> GentleCommit(arch, t[i])
  }

  ghost predicate GentleCommit(arch: Arch, x: Commit) {
    && arch.translate(x.after, x.pc).Some?
    && forall a: Addr :: arch.translate(x.before, a).None? ==> arch.translate(x.after, a).None?
  }

  lemma {:induction false} StaysFaulty(arch: Arch, s: State, pc: Addr, t: seq<Commit>, i: nat, n: nat, b: Addr)
    requires SeqRun(arch, s, pc, t) && Gentle(arch, s, pc) && i <= n <= |t| && Straight(arch, t, i)
    requires arch.translate(Before(t, EndState(s, t), i), b).None?
    ensures arch.translate(Before(t, EndState(s, t), n), b).None?
  {
    if i < n {
      StaysFaulty(arch, s, pc, t, i, n - 1, b);
      assert Falls(arch, t[n - 1]) && GentleCommit(arch, t[n - 1]);
      if n < |t| { assert t[..n][n - 1] == t[n - 1]; }
    }
  }

  /** Two bytes on or two bytes back is the same page. */
  lemma TwoOn(b: Addr)
    ensures Plus(b, if b % 4096 >= 4094 then -2 else 2) / 4096 == b / 4096
  {}

  /** A program that is gentle is steady, if pages are what can be fetched from or not. */
  lemma GentleIsSteady(arch: Arch, s: State, pc: Addr)
    requires PerPage(arch) && Gentle(arch, s, pc)
    ensures Steady(arch, s, pc)
  {
    forall t: seq<Commit>, i: nat, b: Addr | SeqRun(arch, s, pc, t) && i <= |t| ensures SteadyAt(arch, s, pc, t, i, b) {
      if Straight(arch, t, i) && RunsInto(arch, t, EndPc(pc, t), b)
        && arch.translate(Before(t, EndState(s, t), i), b).None? {
        StaysFaulty(arch, s, pc, t, i, |t|, b);
        if EndPc(pc, t) != b {
          TwoBytesIn(arch, t[|t| - 1], b);
        }
      }
    }
  }

  /** The instruction before begins in the two bytes in front of the block. */
  lemma TwoBytesIn(arch: Arch, x: Commit, b: Addr)
    requires PerPage(arch) && Falls(arch, x) && x.event.info.size == 4 && x.target == Plus(b, 2)
    requires arch.translate(x.after, x.pc).Some? && arch.translate(x.after, b).None?
    ensures arch.translate(x.after, x.target).None?
  {
    PlusPlus(x.pc, 4, -4);
    PlusZero(x.pc);
    PlusPlus(b, 2, -4);
    TwoOn(b);
    assert arch.translate(x.after, b).None? == arch.translate(x.after, Plus(b, if b % 4096 >= 4094 then -2 else 2)).None?;
  }
}
