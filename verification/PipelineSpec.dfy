/** One cycle of the pipelined CPU as functions on its state (src/cpu/pipelinecpu.cpp,
    lines 39-51 and 76-467).  Architectural effects happen only in IdStage, by `Update`; all the
    rest is timing.  What happens around the core is an input: whether a cache accepts a lookup,
    when it calls back, what the branch predictors say, which interrupts are pending. */
module PipelineSpec {
  import Privileged

  const TWO64: nat := 0x1_0000_0000_0000_0000

  type Addr = x: nat | x < 0x1_0000_0000_0000_0000

  /** The architectural state: the privileged machine, all other registers, and the memory. */
  datatype State = State(m: Privileged.Machine, regs: map<nat, nat>, mem: map<Addr, nat>)

  /** Addresses wrap around. */
  function Plus(a: Addr, k: int): Addr {
    (a + k) % TWO64
  }

  datatype Option<T> = None | Some(value: T)

  const EXC_IPF: nat := 12
  const EXC_NONE: nat := 31
  const TIMEOUT: nat := 5000

  datatype Kind =
    | Plain | Cond | Direct | Push | Indirect | IndCall | IndPush | Pop | PopPush
    | Load | Store | Lr | Sc | Amo | Mult | Div | CsrWr | Fence | IFence | SFence
    | FMiscComplex | FAdd | FMul | Fma | FDiv | FSqrt

  /** DecodeInfo: `dst0` to `dst2` are dst_data, `size` is inst_size, `ops` is what only the
      architecture looks at. */
  datatype Info = Info(exception: nat, excData: Addr, kind: Kind, dst0: nat, dst1: nat, dst2: Addr, dstIdx1: nat,
                       dstMask1: nat, size: nat, ops: seq<nat>)

  datatype Result = Normal | Exception | PredFail | CsrRedirect

  datatype Inst = Inst(pc: Addr, size: nat, realPc: Addr, realSize: nat, nextPc: Addr, taken: bool, realTarget: Addr,
                       paddr: Addr, memId: nat, result: Result, info: Info)

  /** The architecture: its functions are arbitrary.  A trap depends only on the exception
      and its data, an instruction that completes on its decoded form. */
  datatype Arch = Arch(
    translate: (State, Addr) -> Option<Addr>,
    decode: (State, Addr, Addr, nat) -> Info,
    retire: (State, Addr, Info) -> (State, Addr),
    trap: (State, Addr, nat, Addr) -> (State, Addr),
    satp: nat,
    delay: Kind -> nat,
    retireSize: nat)

  /** Decoding reports page faults of data accesses, never of the fetch itself. */
  ghost predicate Sane(arch: Arch) {
    && 0 < arch.retireSize
    && forall s, pc, paddr, irq :: arch.decode(s, pc, paddr, irq).exception != EXC_IPF
  }

  // ---- what one instruction does ----

  /** Where an instruction came from.  A fault is `late` if it was found when the block was
      requested rather than when its turn came. */
  datatype Event = Decoded(irq: nat, paddr: Addr, info: Info) | Faulted(late: bool)

  datatype Commit = Commit(before: State, pc: Addr, event: Event, after: State, target: Addr)

  /** updateEnv. */
  function Update(arch: Arch, s: State, pc: Addr, e: Event): (State, Addr) {
    match e
    case Faulted(_) => arch.trap(s, pc, EXC_IPF, pc)
    case Decoded(_, _, info) =>
      if info.exception != EXC_NONE then arch.trap(s, pc, info.exception, info.excData) else arch.retire(s, pc, info)
  }

  // ---- the state ----

  /** ArchEnv: the instruction updateEnv will carry out. */
  datatype Env = Env(pc: Addr, event: Event)

  datatype Core = Core(sigma: State, pc: Addr, env: Env, trace: seq<Commit>)
  datatype Id = Id(valid: bool, stallValid: bool, stallDecMore: bool, stallInstValid: bool, inst: Inst, stallInst: Inst,
                   remain: int, wait: bool, waitTick: nat, late: bool)
  datatype Exe = Exe(valid: bool, stallCycle: nat, end: bool, inst: Inst)
  datatype Mem = Mem(valid: bool, inst: Inst, head: nat, tail: nat, endMap: seq<bool>)
  datatype Wb = Wb(valid: bool, inst: Inst, tick: nat, count: nat)

  /** `reqs` is cache_req_list from head to tail; while `valid`, fetch_cache_req is its last. */
  datatype Fetch = Fetch(valid: bool, predPc: Addr, reqs: seq<Inst>)

  datatype Cpu = Cpu(core: Core, id: Id, exe: Exe, mem: Mem, wb: Wb, fetch: Fetch, tick: nat, exited: bool)

  /** BranchStream: what direction predictor, target buffer and return stack have filled in. */
  datatype Stream = Stream(taken: bool, target: Addr, indv: bool, indTarget: Addr, rasv: bool, rasTarget: Addr)

  /** What those say, and the pending interrupts, when an instruction is decoded. */
  datatype Answer = Answer(stream: Stream, irq: nat)

  /** `slot` is what the ring entry for the next block still holds. */
  datatype ExecIn = ExecIn(dcacheAccepts: bool, icacheAccepts: bool, answer: Answer, slot: Inst)

  datatype Step = Exec(inp: ExecIn) | ICallback(answer: Answer) | DCallback(id: nat)

  predicate IsJump(k: Kind) {
    k == Indirect || k == IndCall || k == IndPush || k == Pop || k == PopPush
  }

  predicate IsMem(k: Kind) {
    k == Load || k == Store || k == Lr || k == Sc || k == Amo
  }

  /** PipePredictor::predict: the next pc, and whether it is a jump (src/pred/pipepredictor.cpp). */
  function Predict(pc: Addr, info: Info, b: Stream): (Addr, bool) {
    match info.kind
    case Cond => (if b.taken then info.dst2 else Plus(pc, info.size), b.taken)
    case Direct | Push => (info.dst2, true)
    case IndCall | IndPush | Indirect => (if b.indv then b.indTarget else b.target, true)
    case Pop | PopPush => (if b.rasv then b.rasTarget else b.target, true)
    case _ => (Plus(pc, info.size), false)
  }

  predicate NeedFlush(arch: Arch, info: Info) {
    info.kind == CsrWr && info.dstIdx1 == arch.satp && info.dstMask1 != 0
  }

  predicate PredError(inst: Inst) {
    inst.info.dst1 != (if inst.taken then 1 else 0)
  }

  // ---- redirects ----

  function FrontRedirect(c: Cpu, inst: Inst): Cpu {
    c.(id := c.id.(stallValid := false, stallDecMore := false, stallInstValid := false, remain := 0),
       fetch := Fetch(false, inst.realTarget, []))
  }

  function BrRedirect(c: Cpu, inst: Inst): Cpu {
    c.(id := c.id.(valid := false, stallValid := false, stallDecMore := false, stallInstValid := false, remain := 0,
                   wait := false),
       fetch := Fetch(false, inst.realTarget, []))
  }

  function ExcRedirect(c: Cpu, inst: Inst): Cpu {
    BrRedirect(c, inst).(mem := c.mem.(valid := false, head := c.mem.tail),
                         exe := c.exe.(valid := false, stallCycle := 0, end := false))
  }

  // ---- decoding ahead of ID ----

  /** preId; the second result says that the fetched block is used up. */
  function PreId(arch: Arch, c: Cpu, inst: Inst, a: Answer): (Cpu, bool) {
    var id := if c.id.remain <= 0 then c.id.(inst := inst, remain := c.id.remain + inst.size) else c.id;
    PreDecode(arch, c.(id := id), a)
  }

  function PreDecode(arch: Arch, c: Cpu, a: Answer): (Cpu, bool) {
    var cur, pc := c.id.inst, c.core.pc;
    match arch.translate(c.core.sigma, pc)
    case None => (Fault(c.(id := c.id.(inst := cur.(info := cur.info.(exception := EXC_IPF)))), false), true)
    case Some(paddr) =>
      if cur.info.exception != EXC_NONE then (Fault(c.(id := c.id.(inst := cur.(paddr := paddr))), false), true)
      else DecodeHere(arch, c, paddr, a)
  }

  /** Decode and predict; a predicted jump redirects the fetch. */
  function DecodeHere(arch: Arch, c: Cpu, paddr: Addr, a: Answer): (Cpu, bool) {
    var pc := c.core.pc;
    var info := arch.decode(c.core.sigma, pc, paddr, a.irq);
    var (nextPc, taken) := Predict(pc, info, a.stream);
    var next := c.id.inst.(paddr := paddr, info := info, realSize := info.size, realPc := pc, nextPc := nextPc, taken := taken);
    var c' := c.(core := c.core.(env := Env(pc, Decoded(a.irq, paddr, info))));
    if taken then
      var next' := next.(realTarget := nextPc);
      (FrontRedirect(c'.(id := c.id.(inst := next', late := false)), next'), true)
    else (c'.(id := c.id.(inst := next, late := false, remain := c.id.remain - info.size)), c.id.remain - info.size <= 0)
  }

  /** handleException: only fetch page faults reach the environment. */
  function Fault(c: Cpu, late: bool): Cpu {
    if c.id.inst.info.exception == EXC_IPF then
      c.(core := c.core.(env := Env(c.core.pc, Faulted(late))),
         id := c.id.(inst := c.id.inst.(info := c.id.inst.info.(excData := c.core.pc)), late := late))
    else c
  }

  // ---- the stages, in the order exec runs them ----

  function WbStage(c: Cpu): Cpu {
    if c.tick - c.wb.tick > TIMEOUT then c.(exited := true)
    else if !c.wb.valid then c
    else
      var faulty := c.wb.inst.info.exception != EXC_NONE;
      var c' := if faulty then ExcRedirect(c, c.wb.inst) else c;
      c'.(wb := Wb(false, c.wb.inst.(info := c.wb.inst.info.(exception := EXC_NONE), result := Normal), c.tick, c.wb.count + 1))
  }

  function MemStage(c: Cpu): Cpu {
    var m := c.mem;
    if c.exited || !m.valid then c
    else if m.inst.info.exception != EXC_NONE || !IsMem(m.inst.info.kind) then
      c.(mem := m.(valid := false), wb := c.wb.(valid := true, inst := m.inst))
    else if m.inst.memId < |m.endMap| && m.endMap[m.inst.memId] then
      c.(mem := m.(valid := false, endMap := m.endMap[m.inst.memId := false]), wb := c.wb.(valid := true, inst := m.inst))
    else c
  }

  /** A load or store asks the data cache. */
  function AskDcache(arch: Arch, c: Cpu, accepts: bool): Cpu {
    var c' := c.(exe := c.exe.(inst := c.exe.inst.(memId := c.mem.tail)));
    if accepts then c'.(mem := c.mem.(tail := Succ(arch, c.mem.tail)), exe := c'.exe.(end := true)) else c'
  }

  function Succ(arch: Arch, i: nat): nat {
    if i + 1 < arch.retireSize then i + 1 else 0
  }

  function Execute(arch: Arch, c: Cpu, accepts: bool): Cpu {
    var inst := c.exe.inst;
    var ended := c.(exe := c.exe.(end := true));
    if inst.info.exception != EXC_NONE then ended
    else
      match inst.info.kind
      case Mult | Div | FAdd | FMul | Fma | FDiv | FSqrt | FMiscComplex =>
        c.(exe := c.exe.(stallCycle := arch.delay(inst.info.kind)))
      case Cond =>
        if PredError(inst) || inst.nextPc != inst.realTarget then Mispredicted(ended, inst) else ended
      case Indirect | IndCall | IndPush | Pop | PopPush =>
        if inst.nextPc != inst.realTarget then Mispredicted(ended, inst) else ended
      case Load | Lr => AskDcache(arch, c, accepts)
      case Sc =>
        if inst.info.dst0 != 0 then
          var i := c.mem.tail;
          ended.(mem := c.mem.(tail := Succ(arch, i), endMap := if i < |c.mem.endMap| then c.mem.endMap[i := true] else c.mem.endMap),
                 exe := ended.exe.(inst := inst.(memId := i)))
        else AskDcache(arch, c, accepts)
      case Store | Amo => AskDcache(arch, c, accepts)
      case _ => ended
  }

  function Mispredicted(c: Cpu, inst: Inst): Cpu {
    BrRedirect(c, inst).(exe := c.exe.(inst := inst.(result := PredFail)))
  }

  function ExeStage(arch: Arch, c: Cpu, accepts: bool): Cpu {
    if c.exited || !c.exe.valid then c
    else
      var c1 :=
        if c.exe.stallCycle > 0 then c.(exe := c.exe.(stallCycle := c.exe.stallCycle - 1, end := c.exe.end || c.exe.stallCycle == 1))
        else if !c.exe.end then Execute(arch, c, accepts)
        else c;
      if c1.exe.end && !c1.mem.valid then
        c1.(mem := c1.mem.(valid := true, inst := c1.exe.inst), exe := c1.exe.(valid := false, end := false))
      else c1
  }

  /** updateEnv; its target becomes the pc. */
  function Retire(arch: Arch, c: Cpu): Cpu {
    var e := c.core.env;
    var (after, target) := Update(arch, c.core.sigma, e.pc, e.event);
    c.(core := c.core.(sigma := after, pc := target,
                       trace := c.core.trace + [Commit(c.core.sigma, e.pc, e.event, after, target)]),
       id := c.id.(inst := c.id.inst.(realTarget := target)))
  }

  /** What ID makes of the target: wait for a redirect, redirect at once, go on, or give up. */
  function Settle(arch: Arch, c: Cpu): Cpu {
    var inst := c.id.inst;
    var k, hit := inst.info.kind, c.core.pc == inst.nextPc;
    var isBranch := k == Cond || IsJump(k) || k == Direct || k == Push;
    if inst.info.exception != EXC_NONE then Await(c, true)
    else if IsJump(k) then Await(c, !hit)
    else if k == Cond then Await(c, PredError(inst) || !hit)
    else if NeedFlush(arch, inst.info) || (!isBranch && inst.taken) then
      var c2 := FrontRedirect(c, inst);
      if NeedFlush(arch, inst.info) then c2.(id := c2.id.(inst := inst.(result := CsrRedirect))) else c2
    else if inst.pc <= inst.realPc < Plus(inst.pc, inst.size) then c
    else c.(exited := true)
  }

  function CommitInst(arch: Arch, c: Cpu): Cpu {
    Settle(arch, Retire(arch, c))
  }

  /** Younger instructions wait for the redirect of this one. */
  function Await(c: Cpu, wait: bool): Cpu {
    if wait then c.(id := c.id.(wait := true, waitTick := c.tick)) else c
  }

  function IdStage(arch: Arch, c: Cpu): Cpu {
    if c.exited || !c.id.valid || c.exe.valid then c
    else
      var c1 := Fault(c, c.id.late);
      var c2 := if !c1.id.wait then CommitInst(arch, c1)
                else if c.tick - c.id.waitTick > TIMEOUT then c1.(exited := true) else c1;
      if c2.exited then c2
      else c2.(exe := c2.exe.(valid := true, inst := c2.id.inst), id := c2.id.(valid := false))
  }

  /** The rest of the block in ID, or the next one. */
  function StallStage(arch: Arch, c: Cpu, a: Answer): Cpu {
    if c.exited || c.id.valid || !c.id.stallValid then c
    else
      var (c1, finish) := PreId(arch, c, c.id.stallInst, a);
      var id := c1.id.(valid := true);
      c1.(id := if id.stallDecMore then id.(stallDecMore := !finish, stallValid := !(finish && !id.stallInstValid))
                else if id.stallInstValid then id.(stallInstValid := !finish, stallValid := !finish)
                else id)
  }

  function FetchStage(arch: Arch, c: Cpu, accepts: bool): Cpu {
    if c.exited || !c.fetch.valid || c.id.valid || |c.fetch.reqs| == 0 then c
    else
      var n := |c.fetch.reqs| - 1;
      var r := Translated(arch, c.core.sigma, c.fetch.reqs[n]);
      if r.info.exception != EXC_NONE then
        if n == 0 && !c.id.stallValid then
          c.(id := c.id.(valid := true, inst := r, remain := c.id.remain + r.size, late := true),
             fetch := c.fetch.(valid := false, reqs := []))
        else c.(fetch := c.fetch.(reqs := c.fetch.reqs[n := r]))
      else c.(fetch := c.fetch.(reqs := c.fetch.reqs[n := r], valid := !accepts))
  }

  /** A fault found earlier is not looked up again. */
  function Translated(arch: Arch, s: State, r: Inst): Inst {
    if r.info.exception != EXC_NONE then r
    else
      match arch.translate(s, r.pc)
      case None => r.(info := r.info.(exception := EXC_IPF))
      case Some(paddr) => r.(paddr := paddr)
  }

  /** The next block to fetch. */
  function NextFetch(c: Cpu, slot: Inst): Cpu {
    if c.exited then c
    else if c.fetch.valid then c.(tick := c.tick + 1)
    else
      var r := slot.(pc := c.fetch.predPc, size := 4, info := slot.info.(exception := EXC_NONE));
      c.(fetch := Fetch(true, Plus(c.fetch.predPc, 4), c.fetch.reqs + [r]), tick := c.tick + 1)
  }

  function ExecCycle(arch: Arch, c: Cpu, inp: ExecIn): Cpu {
    if c.exited then c
    else
      var c1 := ExeStage(arch, MemStage(WbStage(c)), inp.dcacheAccepts);
      var c2 := StallStage(arch, IdStage(arch, c1), inp.answer);
      NextFetch(FetchStage(arch, c2, inp.icacheAccepts), inp.slot)
  }

  // ---- the caches' answers ----

  function ICacheAnswers(arch: Arch, c: Cpu, a: Answer): Cpu
    requires 0 < |c.fetch.reqs|
  {
    var inst := c.fetch.reqs[0];
    var c1 := c.(fetch := c.fetch.(reqs := c.fetch.reqs[1..]));
    if !c.id.valid then
      var (c2, finish) := PreId(arch, c1.(id := c1.id.(valid := true)), inst, a);
      c2.(id := c2.id.(stallValid := !finish, stallDecMore := !finish))
    else c1.(id := c1.id.(stallValid := true, stallInst := inst, stallInstValid := true))
  }

  function DCacheAnswers(arch: Arch, c: Cpu, i: nat): Cpu {
    c.(mem := c.mem.(head := Succ(arch, c.mem.head),
                     endMap := if i < |c.mem.endMap| then c.mem.endMap[i := true] else c.mem.endMap))
  }

  /** The instruction cache calls back only for blocks it has accepted since the last redirect. */
  predicate Enabled(c: Cpu, s: Step) {
    s.ICallback? ==> |c.fetch.reqs| > (if c.fetch.valid then 1 else 0)
  }

  function Next(arch: Arch, c: Cpu, s: Step): Cpu {
    if c.exited || !Enabled(c, s) then c
    else
      match s
      case Exec(inp) => ExecCycle(arch, c, inp)
      case ICallback(a) => ICacheAnswers(arch, c, a)
      case DCallback(i) => DCacheAnswers(arch, c, i)
  }

  function After(arch: Arch, c: Cpu, steps: seq<Step>): Cpu {
    if |steps| == 0 then c else Next(arch, After(arch, c, steps[..|steps| - 1]), steps[|steps| - 1])
  }

  /** The state after loading: everything empty, fetching from the start address. */
  function Start(arch: Arch, blank: Inst, env: Env, s: State, pc: Addr): Cpu {
    var inst := blank.(info := blank.info.(exception := EXC_NONE));
    Cpu(Core(s, pc, env, []), Id(false, false, false, false, inst, inst, 0, false, 0, false), Exe(false, 0, false, inst),
        Mem(false, inst, 0, 0, seq(arch.retireSize, _ => false)), Wb(false, inst, 0, 0), Fetch(false, pc, []), 0, false)
  }
}
