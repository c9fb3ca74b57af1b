/** What timing independence rests on: two runs that commit a page fault where there is none, because
    a block found unfetchable is handed to ID when the pc can be fetched from by then
    (src/cpu/pipelinecpu.cpp, lines 320-337). */
module PipelineExamples {
  import opened PipelineSpec
  import opened PipelineProof
  import opened PipelineRedirect
  import opened PipelineStream
  import Privileged

  function Slot(): Inst {
    Inst(0, 4, 0, 4, 0, false, 0, 0, 0, Normal, Info(EXC_NONE, 0, Plain, 0, 0, 0, 0, 0, 4, []))
  }

  /** The branch predictors have nothing to say. */
  const NOTHING := Stream(false, 0, false, 0, false, 0)

  function Cycle(): Step {
    Exec(ExecIn(true, true, Answer(NOTHING, 0), Slot()))
  }

  /** The last block of the first page arrives. */
  function Arrival(): Step {
    ICallback(Answer(NOTHING, 0))
  }

  function Run(): seq<Step> {
    [Cycle(), Cycle(), Cycle(), Arrival(), Cycle(), Cycle()]
  }

  function Begin(arch: Arch, s: State): Cpu {
    Start(arch, Slot(), Env(0, Faulted(true)), s, 4092)
  }

  /** Only the first page can be fetched from; its last instruction `info`, a store, leaves the next
      address fetchable. */
  predicate Trap(arch: Arch, s: State, info: Info) {
    && arch.translate(s, 4092) == Some(4092) && arch.translate(s, 4096) == None
    && arch.decode(s, 4092, 4092, 0) == info && info.exception == EXC_NONE && info.size == 4
    && info.kind == Store
    && arch.translate(arch.retire(s, 4092, info).0, arch.retire(s, 4092, info).1).Some?
  }

  function Block(pc: Addr): Inst {
    Slot().(pc := pc)
  }

  function Late(): Inst {
    Block(4096).(info := Slot().info.(exception := EXC_IPF))
  }

  /** A cycle in which only the fetch stage has something to do. */
  lemma FetchOnly(arch: Arch, c: Cpu, inp: ExecIn)
    requires !c.exited && !c.wb.valid && !c.mem.valid && !c.exe.valid && !c.id.valid && !c.id.stallValid
    requires c.tick - c.wb.tick <= TIMEOUT
    ensures Next(arch, c, Exec(inp)) == NextFetch(FetchStage(arch, c, inp.icacheAccepts), inp.slot)
  {}

  function One(arch: Arch, s: State): Cpu {
    Begin(arch, s).(fetch := Fetch(true, 4096, [Block(4092)]), tick := 1)
  }

  function Two(arch: Arch, s: State): Cpu {
    Begin(arch, s).(fetch := Fetch(true, 4100, [Block(4092).(paddr := 4092), Block(4096)]), tick := 2)
  }

  /** Three cycles fetch the block and find the next page unmapped. */
  function Three(arch: Arch, s: State): Cpu {
    Begin(arch, s).(fetch := Fetch(true, 4100, [Block(4092).(paddr := 4092), Late()]), tick := 3)
  }

  lemma Fetches(arch: Arch, s: State, info: Info)
    requires Trap(arch, s, info)
    ensures Next(arch, Begin(arch, s), Cycle()) == One(arch, s)
    ensures Next(arch, One(arch, s), Cycle()) == Two(arch, s)
    ensures Next(arch, Two(arch, s), Cycle()) == Three(arch, s)
  {
    FetchOnly(arch, Begin(arch, s), Cycle().inp);
    FetchOnly(arch, One(arch, s), Cycle().inp);
    FetchOnly(arch, Two(arch, s), Cycle().inp);
  }

  function InId(info: Info): Inst {
    Block(4092).(paddr := 4092, info := info, realSize := 4, realPc := 4092, nextPc := 4096)
  }

  /** The block arrives and is decoded. */
  function Four(arch: Arch, s: State, info: Info): Cpu {
    Three(arch, s).(core := Core(s, 4092, Env(4092, Decoded(0, 4092, info)), []),
                    id := Begin(arch, s).id.(valid := true, inst := InId(info)),
                    fetch := Fetch(true, 4100, [Late()]))
  }

  lemma Arrives(arch: Arch, s: State, info: Info)
    requires Trap(arch, s, info)
    ensures Next(arch, Three(arch, s), Arrival()) == Four(arch, s, info)
  {}

  /** It commits; the fault found before enters ID. */
  function Five(arch: Arch, s: State, info: Info): Cpu {
    var (s', t) := arch.retire(s, 4092, info);
    var e := Decoded(0, 4092, info);
    Four(arch, s, info).(core := Core(s', t, Env(4092, e), [Commit(s, 4092, e, s', t)]),
                         id := Begin(arch, s).id.(valid := true, inst := Late(), remain := 4, late := true),
                         exe := Exe(true, 0, false, InId(info).(realTarget := t)),
                         fetch := Fetch(true, 4104, [Block(4100)]), tick := 4)
  }

  lemma IdleBack(arch: Arch, c: Cpu, accepts: bool)
    requires !c.exited && !c.wb.valid && !c.mem.valid && !c.exe.valid && c.tick - c.wb.tick <= TIMEOUT
    ensures Back(arch, c, accepts) == c
  {}

  lemma Commits(arch: Arch, s: State, info: Info)
    requires Trap(arch, s, info)
    ensures Next(arch, Four(arch, s, info), Cycle()) == Five(arch, s, info)
  {
    var c, five := Four(arch, s, info), Five(arch, s, info);
    IdleBack(arch, c, true);
    var c1 := IdStage(arch, c);
    assert c1 == c.(core := five.core, id := c.id.(valid := false, inst := five.exe.inst), exe := five.exe);
    assert StallStage(arch, c1, Cycle().inp.answer) == c1;
    assert FetchStage(arch, c1, true) == five.(fetch := Fetch(false, 4100, []), tick := 3);
  }

  /** A fault in ID that nothing older redirects commits. */
  lemma LateCommits(arch: Arch, c: Cpu)
    requires !c.exited && c.id.valid && !c.id.wait && !c.exe.valid && c.id.inst.info.exception == EXC_IPF
    ensures var c' := IdStage(arch, c);
      && !c'.exited && !c'.id.valid && c'.id.stallValid == c.id.stallValid
      && |c'.core.trace| == |c.core.trace| + 1
      && c'.core.trace[|c.core.trace|].event == Faulted(c.id.late)
      && c'.core.trace[|c.core.trace|].before == c.core.sigma && c'.core.trace[|c.core.trace|].pc == c.core.pc
  {}

  /** The cycle in which it does. */
  lemma LateCycle(arch: Arch, c: Cpu, c1: Cpu)
    requires !c.exited && c1 == Back(arch, c, true) && c1.core == c.core && c1.id == c.id && !c1.exe.valid && !c1.exited
    requires c.id.valid && !c.id.wait && c.id.late && !c.id.stallValid && c.id.inst.info.exception == EXC_IPF
    ensures var t, n := Next(arch, c, Cycle()).core.trace, |c.core.trace|;
      |t| == n + 1 && t[n].event == Faulted(true) && t[n].before == c.core.sigma && t[n].pc == c.core.pc
  {
    LateCommits(arch, c1);
    var c2 := IdStage(arch, c1);
    assert StallStage(arch, c2, Cycle().inp.answer) == c2;
    assert NextFetch(FetchStage(arch, c2, true), Slot()).core == c2.core;
  }

  lemma FiveBack(arch: Arch, s: State, info: Info)
    requires Trap(arch, s, info)
    ensures var c := Five(arch, s, info);
      var c1 := Back(arch, c, true);
      c1.core == c.core && c1.id == c.id && !c1.exe.valid && !c1.exited
  {}

  lemma FaultCommits(arch: Arch, s: State, info: Info)
    requires Trap(arch, s, info)
    ensures var t := Next(arch, Five(arch, s, info), Cycle()).core.trace;
      |t| == 2 && t[1].event == Faulted(true) && t[1].before == Five(arch, s, info).core.sigma
      && t[1].pc == Five(arch, s, info).core.pc
  {
    FiveBack(arch, s, info);
    LateCycle(arch, Five(arch, s, info), Back(arch, Five(arch, s, info), true));
  }

  /** A fault where the pc can be fetched from is no step of the sequential machine. */
  lemma StaleFault(arch: Arch, s: State, pc: Addr, t: seq<Commit>, i: nat)
    requires i < |t| && t[i].event.Faulted? && arch.translate(t[i].before, t[i].pc).Some?
    ensures !SeqRun(arch, s, pc, t)
  {
    assert !Current(arch, t[i].before, t[i].pc, t[i].event);
  }

  lemma AfterStep(arch: Arch, c0: Cpu, steps: seq<Step>, k: nat, c: Cpu)
    requires k < |steps| && After(arch, c0, steps[..k]) == c
    ensures After(arch, c0, steps[..k + 1]) == Next(arch, c, steps[k])
  {
    assert steps[..k + 1][..k] == steps[..k];
  }

  /** The k-th state of the run. */
  function At(arch: Arch, s: State, info: Info, k: nat): Cpu {
    if k == 0 then Begin(arch, s) else if k == 1 then One(arch, s) else if k == 2 then Two(arch, s)
    else if k == 3 then Three(arch, s) else if k == 4 then Four(arch, s, info) else Five(arch, s, info)
  }

  lemma Moves(arch: Arch, s: State, info: Info, k: nat)
    requires Trap(arch, s, info) && k < 5
    ensures Next(arch, At(arch, s, info, k), Run()[k]) == At(arch, s, info, k + 1)
  {
    Fetches(arch, s, info);
    Arrives(arch, s, info);
    Commits(arch, s, info);
  }

  lemma Prefix(arch: Arch, s: State, info: Info, k: nat)
    requires Trap(arch, s, info) && k <= 5
    ensures After(arch, Begin(arch, s), Run()[..k]) == At(arch, s, info, k)
  {
    if k > 0 {
      Prefix(arch, s, info, k - 1);
      Moves(arch, s, info, k - 1);
      AfterStep(arch, Begin(arch, s), Run(), k - 1, At(arch, s, info, k - 1));
    }
  }

  /** The fault commits where the pc can be fetched from. */
  lemma CommitsEarlyFault(arch: Arch, s: State, info: Info)
    requires Trap(arch, s, info)
    ensures !SeqRun(arch, s, 4092, After(arch, Begin(arch, s), Run()).core.trace)
  {
    Prefix(arch, s, info, 5);
    FaultCommits(arch, s, info);
    AfterStep(arch, Begin(arch, s), Run(), 5, Five(arch, s, info));
    assert Run()[..6] == Run();
    StaleFault(arch, s, 4092, After(arch, Begin(arch, s), Run()).core.trace, 1);
  }

  lemma StateIsOrderly(arch: Arch, s: State, info: Info, k: nat)
    requires Trap(arch, s, info) && k < 6
    ensures Orderly(At(arch, s, info, k), Run()[k])
  {}

  lemma RunIsOrderly(arch: Arch, s: State, info: Info)
    requires Trap(arch, s, info)
    ensures AllOrderly(arch, Begin(arch, s), Run())
  {
    assert |Run()| == 6;
    forall k | 0 <= k < 6 ensures Orderly(After(arch, Begin(arch, s), Run()[..k]), Run()[k]) {
      Prefix(arch, s, info, k);
      StateIsOrderly(arch, s, info, k);
    }
  }

  // ---- a store that maps the page ahead ----

  const EMPTY := State(Privileged.InUser(), map[], map[])

  function StoreInfo(): Info {
    Info(EXC_NONE, 0, Store, 0, 0, 0, 0, 0, 4, [])
  }

  /** Every store maps the second page. */
  function MappingStore(): Arch {
    Arch((s: State, a: Addr) => if a / 4096 == 0 || 0 in s.mem then Some(a) else None,
         (s: State, pc: Addr, paddr: Addr, irq: nat) => StoreInfo(),
         (s: State, pc: Addr, info: Info) => (s.(mem := s.mem[0 := 1]), FlowTarget(pc, info)),
         (s: State, pc: Addr, exception: nat, data: Addr) => (s, 0),
         0, (k: Kind) => 1, 8)
  }

  /** A store that maps the next page: the fault found before commits behind it. */
  lemma StoresMustNotMap()
    ensures var arch := MappingStore();
      && Regular(arch) && PerPage(arch) && !Steady(arch, EMPTY, 4092)
      && AllOrderly(arch, Begin(arch, EMPTY), Run())
      && !SeqRun(arch, EMPTY, 4092, After(arch, Begin(arch, EMPTY), Run()).core.trace)
  {
    var arch := MappingStore();
    assert Trap(arch, EMPTY, StoreInfo());
    RunIsOrderly(arch, EMPTY, StoreInfo());
    CommitsEarlyFault(arch, EMPTY, StoreInfo());
    if Steady(arch, EMPTY, 4092) {
      EveryRunIsSequential(arch, Slot(), Env(0, Faulted(true)), EMPTY, 4092, Run());
    }
  }

  // ---- an instruction that unmaps its own page ----

  function Sized(size: nat): Info {
    Info(EXC_NONE, 0, Plain, 0, 0, 0, 0, 0, size, [])
  }

  /** Two bytes at 4090; every instruction of four bytes unmaps the first page. */
  function Unmapper(): Arch {
    Arch((s: State, a: Addr) => if a / 4096 == 0 && 0 in s.mem then None else Some(a),
         (s: State, pc: Addr, paddr: Addr, irq: nat) => Sized(if pc == 4090 then 2 else 4),
         (s: State, pc: Addr, info: Info) => (if info.size == 4 then UNMAPPED else s, FlowTarget(pc, info)),
         (s: State, pc: Addr, exception: nat, data: Addr) => (s, 0),
         0, (k: Kind) => 1, 8)
  }

  const UNMAPPED := EMPTY.(mem := map[0 := 1])

  function Crossing(): seq<Step> {
    [Cycle(), Cycle(), ICallback(Answer(NOTHING, 0)), Cycle(), Cycle(), Cycle()]
  }

  function Reset(): Cpu {
    Start(Unmapper(), Slot(), Env(0, Faulted(true)), EMPTY, 4090)
  }

  function First(): Inst {
    Block(4090).(paddr := 4090, info := Sized(2), realSize := 2, realPc := 4090, nextPc := 4092)
  }

  function Second(): Inst {
    First().(paddr := 4092, info := Sized(4), realSize := 4, realPc := 4092, nextPc := 4096, realTarget := 4092)
  }

  function FirstCommit(): Commit {
    Commit(EMPTY, 4090, Decoded(0, 4090, Sized(2)), EMPTY, 4092)
  }

  function SecondCommit(): Commit {
    Commit(EMPTY, 4092, Decoded(0, 4092, Sized(4)), UNMAPPED, 4096)
  }

  function Behind(): Inst {
    Block(4094).(info := Slot().info.(exception := EXC_IPF))
  }

  /** The k-th state of the run: the block behind is looked up, and faults, once its page is gone. */
  function Stage(k: nat): Cpu {
    var c := Reset();
    if k == 0 then c
    else if k == 1 then c.(fetch := Fetch(true, 4094, [Block(4090)]), tick := 1)
    else if k == 2 then c.(fetch := Fetch(true, 4098, [Block(4090).(paddr := 4090), Block(4094)]), tick := 2)
    else if k == 3 then
      c.(core := Core(EMPTY, 4090, Env(4090, Decoded(0, 4090, Sized(2))), []),
         id := c.id.(valid := true, stallValid := true, stallDecMore := true, inst := First(), remain := 2),
         fetch := Fetch(true, 4098, [Block(4094)]), tick := 2)
    else if k == 4 then
      c.(core := Core(EMPTY, 4092, Env(4092, Decoded(0, 4092, Sized(4))), [FirstCommit()]),
         id := c.id.(valid := true, inst := Second(), remain := -2),
         exe := Exe(true, 0, false, First().(realTarget := 4092)),
         fetch := Fetch(true, 4098, [Block(4094)]), tick := 3)
    else
      c.(core := Core(UNMAPPED, 4096, Env(4092, Decoded(0, 4092, Sized(4))), [FirstCommit(), SecondCommit()]),
         id := c.id.(valid := true, inst := Behind(), remain := 2, late := true),
         exe := Exe(true, 0, false, Second().(realTarget := 4096)),
         mem := c.mem.(valid := true, inst := First().(realTarget := 4092)),
         fetch := Fetch(true, 4102, [Block(4098)]), tick := 4)
  }

  lemma Enters()
    ensures forall k: nat :: k < 2 ==>
      Next(Unmapper(), Stage(k), Cycle()) == Stage(k + 1)
  {
    FetchOnly(Unmapper(), Stage(0), Cycle().inp);
    FetchOnly(Unmapper(), Stage(1), Cycle().inp);
  }

  lemma FirstIsDecoded()
    ensures Next(Unmapper(), Stage(2), Crossing()[2]) == Stage(3)
  {}

  lemma SecondIsDecoded()
    ensures Next(Unmapper(), Stage(3), Cycle()) == Stage(4)
  {
    var arch, c := Unmapper(), Stage(3);
    IdleBack(arch, c, true);
    var c1 := IdStage(arch, c);
    assert c1.core == c.core.(pc := 4092, trace := [FirstCommit()]);
    assert c1 == c.(core := c1.core, id := c.id.(valid := false, inst := Stage(4).exe.inst), exe := Stage(4).exe);
    var c2 := StallStage(arch, c1, Cycle().inp.answer);
    assert c2 == Stage(4).(tick := 2);
    assert FetchStage(arch, c2, true) == c2;
  }

  lemma SecondCommits()
    ensures Next(Unmapper(), Stage(4), Cycle()) == Stage(5)
  {
    var arch, c := Unmapper(), Stage(4);
    var c1 := Back(arch, c, true);
    assert c1 == c.(exe := c.exe.(valid := false), mem := Stage(5).mem);
    var c2 := IdStage(arch, c1);
    assert c2.core == Stage(5).core;
    assert c2 == c1.(core := c2.core, id := c.id.(valid := false, inst := Stage(5).exe.inst), exe := Stage(5).exe);
    assert StallStage(arch, c2, Cycle().inp.answer) == c2;
    assert FetchStage(arch, c2, true) == Stage(5).(fetch := Fetch(false, 4098, []), tick := 3);
  }

  lemma BehindBack()
    ensures var c1 := Back(Unmapper(), Stage(5), true);
      c1.core == Stage(5).core && c1.id == Stage(5).id && !c1.exe.valid && !c1.exited
  {}

  lemma BehindCommits()
    ensures var t := Next(Unmapper(), Stage(5), Cycle()).core.trace;
      |t| == 3 && t[2].event == Faulted(true) && t[2].before == UNMAPPED && t[2].pc == 4096
  {
    BehindBack();
    LateCycle(Unmapper(), Stage(5), Back(Unmapper(), Stage(5), true));
  }

  lemma StageMoves(k: nat)
    requires k < 6
    ensures k < 5 ==> Next(Unmapper(), Stage(k), Crossing()[k]) == Stage(k + 1)
  {
    if k < 2 {
      Enters();
    } else if k == 2 {
      FirstIsDecoded();
    } else if k == 3 {
      SecondIsDecoded();
    } else if k == 4 {
      SecondCommits();
    } else {
      BehindCommits();
    }
  }

  lemma StageAfter(k: nat)
    requires k <= 5
    ensures After(Unmapper(), Reset(), Crossing()[..k]) == Stage(k)
  {
    if k > 0 {
      StageAfter(k - 1);
      StageMoves(k - 1);
      AfterStep(Unmapper(), Reset(), Crossing(), k - 1, Stage(k - 1));
    }
  }

  lemma StageIsOrderly(k: nat)
    requires k < 6
    ensures Orderly(Stage(k), Crossing()[k])
  {}

  lemma CrossingIsOrderly()
    ensures AllOrderly(Unmapper(), Reset(), Crossing())
  {
    assert |Crossing()| == 6;
    forall k | 0 <= k < 6 ensures Orderly(After(Unmapper(), Reset(), Crossing()[..k]), Crossing()[k]) {
      StageAfter(k);
      StageIsOrderly(k);
    }
  }

  lemma CrossingEnd()
    ensures After(Unmapper(), Reset(), Crossing()) == Next(Unmapper(), Stage(5), Cycle())
  {
    StageAfter(5);
    AfterStep(Unmapper(), Reset(), Crossing(), 5, Stage(5));
    assert Crossing()[..6] == Crossing();
  }

  lemma CrossingIsStale(t: seq<Commit>)
    requires t == Next(Unmapper(), Stage(5), Cycle()).core.trace
    ensures !SeqRun(Unmapper(), EMPTY, 4090, t)
  {
    BehindCommits();
    StaleFault(Unmapper(), EMPTY, 4090, t, 2);
  }

  lemma UnmapperIsRegular()
    ensures Regular(Unmapper()) && PerPage(Unmapper())
  {
    var arch := Unmapper();
    forall s: State, pc: Addr, paddr: Addr, irq: nat
      ensures arch.decode(s, pc, paddr, irq) == Sized(if pc == 4090 then 2 else 4)
    {}
    assert Sane(arch) && Halfwords(arch);
  }

  /** An instruction that reaches into a block of its own page and unmaps it: the fault of the block
      commits behind the instruction, in the next page. */
  lemma PagesMustStay()
    ensures var arch := Unmapper();
      && Regular(arch) && PerPage(arch) && !Steady(arch, EMPTY, 4090)
      && AllOrderly(arch, Reset(), Crossing())
      && !SeqRun(arch, EMPTY, 4090, After(arch, Reset(), Crossing()).core.trace)
  {
    UnmapperIsRegular();
    CrossingIsOrderly();
    CrossingEnd();
    CrossingIsStale(Next(Unmapper(), Stage(5), Cycle()).core.trace);
    if Steady(Unmapper(), EMPTY, 4090) {
      EveryRunIsSequential(Unmapper(), Slot(), Env(0, Faulted(true)), EMPTY, 4090, Crossing());
    }
  }

  // ---- page tables in memory, and a program that leaves them alone ----

  function StoreTo(a: nat): Info {
    StoreInfo().(dst0 := a)
  }

  /** Word 0 of the memory maps the second page; the program stores to word 1 all the time. */
  function Tabled(): Arch {
    Arch((s: State, a: Addr) => if a / 4096 == 0 || 0 in s.mem then Some(a) else None,
         (s: State, pc: Addr, paddr: Addr, irq: nat) => StoreTo(1),
         (s: State, pc: Addr, info: Info) => (s.(mem := s.mem[info.dst0 % TWO64 := 1]), FlowTarget(pc, info)),
         (s: State, pc: Addr, exception: nat, data: Addr) => (s, 0),
         0, (k: Kind) => 1, 8)
  }

  lemma TabledIsGentle(s: State, pc: Addr)
    ensures Gentle(Tabled(), s, pc)
  {
    var arch := Tabled();
    forall t: seq<Commit>, i: nat | SeqRun(arch, s, pc, t) && i < |t| && InLine(arch, t[i]) ensures GentleCommit(arch, t[i]) {
      assert Current(arch, t[i].before, t[i].pc, t[i].event);
      assert t[i].event.info == StoreTo(1);
      assert t[i].after.mem == t[i].before.mem[1 := 1];
    }
  }

  /** What is asked is asked of the program: here another store would map a page, and none is run. */
  lemma TablesMayBeInMemory(s: State, pc: Addr)
    ensures Regular(Tabled()) && PerPage(Tabled()) && Steady(Tabled(), s, pc)
    ensures var arch := Tabled();
      arch.translate(EMPTY, 4096).None? && arch.translate(arch.retire(EMPTY, 0, StoreTo(0)).0, 4096).Some?
  {
    TabledIsGentle(s, pc);
    GentleIsSteady(Tabled(), s, pc);
    assert Tabled().retire(EMPTY, 0, StoreTo(0)).0.mem == map[0 := 1];
  }
}
