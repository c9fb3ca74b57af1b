/** The simulator's own architecture behind the pipeline: translation by page tables in memory, updates
    by updateEnv, interrupts as decode finds them (src/arch/riscv/riscvarch.cpp, lines 45-69, 135-203 and
    205-377).  What single instructions compute is arbitrary. */
module RiscvCpu {
  import opened PipelineSpec
  import opened PipelineProof
  import opened PipelineStream
  import BitOps
  import C = CacheSpec
  import F = FrontEnd
  import I = Interrupts
  import K = CacheProof
  import Mmu
  import P = Privileged
  import T = TrapState
  import W = PageWalk

  // ---- memory and page tables ----

  /** A little-endian read; none if a device is in the way. */
  function Read(mem: map<Addr, nat>, a: nat, n: nat): Option<nat>
    decreases n
  {
    if n == 0 then Some(0)
    else if a >= TWO64 || a !in mem then None
    else
      match Read(mem, a + 1, n - 1)
      case None => None
      case Some(high) => Some(mem[a] % 256 + 256 * high)
  }

  predicate BitOf(w: nat, p: nat)
    requires 0 < p
  {
    w / p % 2 == 1
  }

  /** The fields of an entry: section 4.4.1. */
  function Entry(w: nat): (e: W.Pte)
    ensures e.ppn < 0x1000_0000_0000
  {
    W.Pte(BitOf(w, 1), BitOf(w, 2), BitOf(w, 4), BitOf(w, 8), BitOf(w, 16), BitOf(w, 64), BitOf(w, 128),
          w / 0x400 % 0x1000_0000_0000, w / 0x40_0000_0000_0000 % 0x80, w / 0x2000_0000_0000_0000 % 8)
  }

  function Tables(mem: map<Addr, nat>): W.Memory {
    (a: nat) =>
      match Read(mem, a, 8)
      case None => W.Option.None
      case Some(w) => W.Option.Some(Entry(w))
  }

  ghost predicate SmallPages(mem: W.Memory) {
    forall a: nat :: mem(a).Some? ==> mem(a).value.ppn < 0x1000_0000_0000
  }

  lemma LeafFits(env: W.Env, e: W.Pte, vaddr: nat, t: W.Access, level: nat)
    requires e.ppn < 0x1000_0000_0000 && level <= 2
    ensures var r := W.LeafResult(env, e, vaddr, t, level); r.Ok? ==> r.paddr < TWO64
  {
    FrameFits(e.ppn, vaddr, level);
  }

  lemma WalkCases(env: W.Env, mem: W.Memory, vaddr: nat, t: W.Access, table: nat, level: nat)
    requires level <= 2
    ensures var r, e := W.Walk(env, mem, vaddr, t, table, level), mem(W.EntryAddress(table, vaddr, level));
      || !r.Ok?
      || (e.Some? && r == W.LeafResult(env, e.value, vaddr, t, level))
      || (e.Some? && level > 0 && r == W.Walk(env, mem, vaddr, t, e.value.ppn, level - 1))
  {}

  /** Physical addresses fit. */
  lemma {:induction false} WalkFits(env: W.Env, mem: W.Memory, vaddr: nat, t: W.Access, table: nat, level: nat)
    requires level <= 2 && SmallPages(mem)
    ensures var r := W.Walk(env, mem, vaddr, t, table, level); r.Ok? ==> r.paddr < TWO64
    decreases level
  {
    WalkCases(env, mem, vaddr, t, table, level);
    var e := mem(W.EntryAddress(table, vaddr, level));
    if e.Some? {
      LeafFits(env, e.value, vaddr, t, level);
      if level > 0 {
        WalkFits(env, mem, vaddr, t, e.value.ppn, level - 1);
      }
    }
  }

  lemma TablesAreSmall(mem: map<Addr, nat>)
    ensures SmallPages(Tables(mem))
  {}

  lemma FrameFits(ppn: nat, vaddr: nat, level: nat)
    requires ppn < 0x1000_0000_0000 && level <= 2
    ensures W.Frame(ppn, vaddr, level) < TWO64
  {
    BitOps.Pow2Mono(9 * level, 18);
    SmallPowers();
    Offset(vaddr / 4096, BitOps.Pow2(9 * level));
  }

  lemma Offset(a: nat, p: nat)
    requires 0 < p
    ensures a % p < p
  {}

  lemma SmallPowers()
    ensures BitOps.Pow2(18) == 0x40000
  {
    W.Powers();
    BitOps.Pow2Add(9, 9);
  }

  /** translateAddr for a fetch. */
  function FetchAddress(s: State, a: Addr): Option<Addr> {
    var env := Mmu.EnvOf(s.m);
    TablesAreSmall(s.mem);
    WalkFits(env, Tables(s.mem), a, W.Fetch, env.satp % W.PPN, 2);
    match W.Translation(env, Tables(s.mem), a, W.Fetch)
    case Fault(_) => None
    case Ok(paddr) => Some(paddr)
  }

  // ---- what memory holds ----

  function ByteAt(v: nat, i: nat): nat {
    if i == 0 then v % 256 else ByteAt(v / 256, i - 1)
  }

  predicate Mapped(mem: map<Addr, nat>, a: nat) {
    a < TWO64 && a in mem
  }

  predicate IsMemory(mem: map<Addr, nat>, a: nat, n: nat) {
    forall j: nat :: a <= j < a + n ==> Mapped(mem, j)
  }

  /** Reading succeeds exactly if no device is in the way, and the bytes of the value are those in memory,
      the lowest first. */
  lemma {:induction false} ReadBytes(mem: map<Addr, nat>, a: nat, n: nat)
    ensures var r := Read(mem, a, n);
      && (r.Some? <==> IsMemory(mem, a, n))
      && (r.Some? ==> forall j :: a <= j < a + n ==> Mapped(mem, j) && ByteAt(r.value, j - a) == mem[j] % 256)
    decreases n
  {
    if n > 0 {
      ReadBytes(mem, a + 1, n - 1);
      IsMemoryUnfolds(mem, a, n);
      var r := Read(mem, a, n);
      if r.Some? {
        var high := Read(mem, a + 1, n - 1).value;
        assert r.value / 256 == high && r.value % 256 == mem[a] % 256;
        forall j | a < j < a + n && Mapped(mem, j) ensures ByteAt(r.value, j - a) == mem[j] % 256 {
          assert ByteAt(r.value, j - a) == ByteAt(high, j - (a + 1));
        }
      }
    }
  }

  lemma IsMemoryUnfolds(mem: map<Addr, nat>, a: nat, n: nat)
    requires n > 0
    ensures IsMemory(mem, a, n) <==> Mapped(mem, a) && IsMemory(mem, a + 1, n - 1)
  {
    if IsMemory(mem, a, n) {
      assert Mapped(mem, a);
    }
  }

  function One(b: bool): nat {
    if b then 1 else 0
  }

  /** The low ten bits of an entry: V, R, W, X, U, G, A, D and two for software. */
  function LowBits(e: W.Pte, g: bool, rsw: nat): nat {
    One(e.v) + 2 * One(e.r) + 4 * One(e.w) + 8 * One(e.x) + 16 * One(e.u) + 32 * One(g) + 64 * One(e.a) + 128 * One(e.d) + 256 * rsw
  }

  /** The word of an entry, section 4.4.1: the page number is in bits 53 to 10, what is reserved in 60 to 54, PBMT
      and N in 63 to 61. */
  function Word(e: W.Pte, g: bool, rsw: nat): nat {
    LowBits(e, g, rsw) + 0x400 * (e.ppn + 0x1000_0000_0000 * (e.pad + 0x80 * e.ext))
  }

  lemma UpperFields(low: nat, ppn: nat, pad: nat, ext: nat)
    requires low < 0x400 && ppn < 0x1000_0000_0000 && pad < 0x80 && ext < 8
    ensures var w := low + 0x400 * (ppn + 0x1000_0000_0000 * (pad + 0x80 * ext));
      && w / 0x400 % 0x1000_0000_0000 == ppn
      && w / 0x40_0000_0000_0000 % 0x80 == pad && w / 0x2000_0000_0000_0000 % 8 == ext
  {
    var w := low + 0x400 * (ppn + 0x1000_0000_0000 * (pad + 0x80 * ext));
    assert w / 0x400 == ppn + 0x1000_0000_0000 * (pad + 0x80 * ext);
    assert w / 0x40_0000_0000_0000 == pad + 0x80 * ext;
    assert w / 0x2000_0000_0000_0000 == ext;
  }

  lemma ThreeFlags(a: bool, b: bool, c: bool, rest: nat)
    ensures var w := One(a) + 2 * One(b) + 4 * One(c) + 8 * rest;
      BitOf(w, 1) == a && BitOf(w, 2) == b && BitOf(w, 4) == c && w / 8 == rest
  {
    var w := One(a) + 2 * One(b) + 4 * One(c) + 8 * rest;
    assert w / 2 == One(b) + 2 * One(c) + 4 * rest;
    assert w / 4 == One(c) + 2 * rest;
  }

  lemma Further(w: nat)
    ensures w / 16 == w / 8 / 2 && w / 64 == w / 8 / 8 && w / 128 == w / 8 / 8 / 2
  {}

  lemma Regroup(a: nat, b: nat, c: nat, d: nat, e: nat, f: nat, g: nat, h: nat, rsw: nat, high: nat)
    ensures a + 2 * b + 4 * c + 8 * d + 16 * e + 32 * f + 64 * g + 128 * h + 256 * rsw + 0x400 * high ==
      a + 2 * b + 4 * c + 8 * (d + 2 * e + 4 * f + 8 * (g + 2 * h + 4 * (rsw + 4 * high)))
  {}

  lemma EntryFlags(e: W.Pte, g: bool, rsw: nat, high: nat)
    ensures var w := LowBits(e, g, rsw) + 0x400 * high;
      && BitOf(w, 1) == e.v && BitOf(w, 2) == e.r && BitOf(w, 4) == e.w && BitOf(w, 8) == e.x
      && BitOf(w, 16) == e.u && BitOf(w, 64) == e.a && BitOf(w, 128) == e.d
  {
    var w := LowBits(e, g, rsw) + 0x400 * high;
    var last := One(e.a) + 2 * One(e.d) + 4 * (rsw + 4 * high);
    var mid := One(e.x) + 2 * One(e.u) + 4 * One(g) + 8 * last;
    Regroup(One(e.v), One(e.r), One(e.w), One(e.x), One(e.u), One(g), One(e.a), One(e.d), rsw, high);
    ThreeFlags(e.v, e.r, e.w, mid);
    ThreeFlags(e.x, e.u, g, last);
    PairOfFlags(e.a, e.d, rsw + 4 * high);
    SameFlags(w, mid, last);
  }

  lemma SameFlags(w: nat, mid: nat, last: nat)
    requires w / 8 == mid && mid / 8 == last
    ensures BitOf(w, 8) == BitOf(mid, 1) && BitOf(w, 16) == BitOf(mid, 2)
    ensures BitOf(w, 64) == BitOf(last, 1) && BitOf(w, 128) == BitOf(last, 2)
  {
    Further(w);
  }

  lemma PairOfFlags(a: bool, b: bool, rest: nat)
    ensures var w := One(a) + 2 * One(b) + 4 * rest; BitOf(w, 1) == a && BitOf(w, 2) == b
  {
    var w := One(a) + 2 * One(b) + 4 * rest;
    assert w / 2 == One(b) + 2 * rest;
  }

  lemma LowBitsFit(e: W.Pte, g: bool, rsw: nat)
    requires rsw < 4
    ensures LowBits(e, g, rsw) < 0x400
  {}

  lemma FromFields(e: W.Pte, w: nat)
    requires BitOf(w, 1) == e.v && BitOf(w, 2) == e.r && BitOf(w, 4) == e.w && BitOf(w, 8) == e.x
    requires BitOf(w, 16) == e.u && BitOf(w, 64) == e.a && BitOf(w, 128) == e.d
    requires w / 0x400 % 0x1000_0000_0000 == e.ppn
    requires w / 0x40_0000_0000_0000 % 0x80 == e.pad && w / 0x2000_0000_0000_0000 % 8 == e.ext
    ensures Entry(w) == e
  {}

  /** Every field of an entry is read back from its place in the word. */
  lemma EntryFields(e: W.Pte, g: bool, rsw: nat)
    requires rsw < 4 && e.ppn < 0x1000_0000_0000 && e.pad < 0x80 && e.ext < 8
    ensures Entry(Word(e, g, rsw)) == e
  {
    LowBitsFit(e, g, rsw);
    UpperFields(LowBits(e, g, rsw), e.ppn, e.pad, e.ext);
    EntryFlags(e, g, rsw, e.ppn + 0x1000_0000_0000 * (e.pad + 0x80 * e.ext));
    FromFields(e, Word(e, g, rsw));
  }

  // ---- decode and updateEnv ----

  /** What is not modelled: the instructions themselves.  `interpret` fills in the decoded form, `writes`
      are the registers it names, `effects` the other registers and the memory. */
  datatype Interpreter = Interpreter(
    interpret: (State, Addr, Addr) -> Info,
    writes: Info -> seq<P.Write>,
    effects: (State, P.Machine, Info) -> (map<nat, nat>, map<Addr, nat>),
    satp: nat,
    delay: Kind -> nat,
    retireSize: nat)

  /** It reports illegal instructions and faults of data accesses. */
  ghost predicate Interprets(x: Interpreter) {
    && 0 < x.retireSize
    && forall s, pc, paddr :: x.interpret(s, pc, paddr).exception != EXC_IPF
  }

  const IRQ_MASK: nat := 0x8000_0000_0000_0000

  /** The lowest two bits tell the length; `pending` is mip & mie. */
  function Decode(x: Interpreter, s: State, pc: Addr, paddr: Addr, pending: nat): Info {
    var word := match Read(s.mem, paddr, 4) case None => 0 case Some(w) => w;
    var info := x.interpret(s, pc, paddr).(size := if word % 4 == 3 then 4 else 2);
    match I.Recognized(s.m.st, pending)
    case Nothing => info
    case Take(n) => info.(exception := IRQ_MASK + n)
  }

  function Flow(info: Info): P.Flow {
    if IsJump(info.kind) || info.kind == Direct || info.kind == Push then P.Jump(info.dst2)
    else if info.kind == Cond then P.Branch(info.dst1 != 0, info.dst2)
    else P.Next
  }

  /** Bit 63 marks an interrupt. */
  function ExceptionOf(e: nat): P.Exception {
    if e >= IRQ_MASK then P.Irq(e - IRQ_MASK) else P.Exc(e)
  }

  /** The decoded form as updateEnv reads it. */
  function Completed(x: Interpreter, info: Info): P.Info {
    P.Info(P.EXC_NONE, 0, x.writes(info), Flow(info), info.size)
  }

  /** When the simulator gives up nothing is said. */
  function Retire(x: Interpreter, s: State, pc: Addr, info: Info): (State, Addr) {
    match P.Update(s.m, pc, Completed(x, info))
    case Stop => (s, pc)
    case Go(m, target) =>
      var (regs, mem) := x.effects(s, m, info);
      (State(m, regs, mem), target % TWO64)
  }

  function Trap(s: State, pc: Addr, exception: nat, data: Addr): (State, Addr) {
    match P.Update(s.m, pc, P.Info(ExceptionOf(exception), data, [], P.Next, 0))
    case Stop => (s, pc)
    case Go(m, target) => (s.(m := m), target % TWO64)
  }

  function RiscvArch(x: Interpreter): Arch {
    Arch((s: State, a: Addr) => FetchAddress(s, a),
         (s: State, pc: Addr, paddr: Addr, irq: nat) => Decode(x, s, pc, paddr, irq),
         (s: State, pc: Addr, info: Info) => Retire(x, s, pc, info),
         (s: State, pc: Addr, exception: nat, data: Addr) => Trap(s, pc, exception, data),
         x.satp, x.delay, x.retireSize)
  }

  // ---- it is as the pipeline asks ----

  lemma FlowsAlike(x: Interpreter, pc: Addr, info: Info)
    ensures P.FlowTarget(Completed(x, info), pc) == FlowTarget(pc, info)
  {}

  lemma RetireGoes(x: Interpreter, s: State, pc: Addr, info: Info, r: P.Outcome)
    requires r == P.Update(s.m, pc, Completed(x, info)) && r.Go?
    ensures Retire(x, s, pc, info).1 == r.pc % TWO64
  {}

  lemma UpdateFlows(m: P.Machine, pc: nat, info: P.Info)
    requires info.exception == P.EXC_NONE
    ensures P.Update(m, pc, info).Go? && P.Update(m, pc, info).pc == P.FlowTarget(info, pc)
  {
    P.Completes(m, pc, info);
  }

  lemma RetireFollows(x: Interpreter, s: State, pc: Addr, info: Info)
    ensures Retire(x, s, pc, info).1 == FlowTarget(pc, info)
  {
    var done := Completed(x, info);
    UpdateFlows(s.m, pc, done);
    RetireGoes(x, s, pc, info, P.Update(s.m, pc, done));
    FlowsAlike(x, pc, info);
  }

  lemma SameVerdict(s: State, a: Addr, b: Addr)
    requires a / 4096 == b / 4096
    ensures FetchAddress(s, a).None? == FetchAddress(s, b).None?
  {
    W.SamePage(Mmu.EnvOf(s.m), Tables(s.mem), a, b, W.Fetch);
  }

  lemma RiscvIsRegular(x: Interpreter)
    requires Interprets(x)
    ensures Regular(RiscvArch(x)) && PerPage(RiscvArch(x))
  {
    var arch := RiscvArch(x);
    forall s: State, pc: Addr, info: Info ensures arch.retire(s, pc, info).1 == FlowTarget(pc, info) {
      RetireFollows(x, s, pc, info);
    }
    forall s: State, a: Addr, b: Addr | a / 4096 == b / 4096 ensures arch.translate(s, a).None? == arch.translate(s, b).None? {
      SameVerdict(s, a, b);
    }
    forall s: State, pc: Addr, paddr: Addr, irq: nat
      ensures arch.decode(s, pc, paddr, irq) == Decode(x, s, pc, paddr, irq)
    {}
    assert Sane(arch) && Follows(arch) && Halfwords(arch);
  }

  /** The simulator itself, pipeline and instruction cache, with its page tables in memory: whatever the
      instructions compute, and for every schedule, prediction, cache size and delay, the commits of a
      steady program are a run of the sequential machine. */
  lemma SimulatorIsSequential(x: Interpreter, k: C.Config, slot: Inst, env: Env, s: State, pc: Addr,
                              tags: seq<seq<C.Tagv>>, events: seq<F.Event>)
    requires Interprets(x) && Steady(RiscvArch(x), s, pc) && K.Empty(k, tags) && K.FlushFits(k) && !k.data
    ensures var arch := RiscvArch(x);
      SeqRun(arch, s, pc, F.JointAfter(arch, k, F.Boot(arch, k, slot, env, s, pc, tags), events).c.core.trace)
  {
    RiscvIsRegular(x);
    F.JointRunIsSequential(RiscvArch(x), k, slot, env, s, pc, tags, events);
  }

  // ---- programs that do not touch their page tables ----

  /** While fetches are not translated, everything can be fetched from. */
  ghost predicate NeverTranslated(x: Interpreter, s: State, pc: Addr) {
    forall t: seq<Commit> :: SeqRun(RiscvArch(x), s, pc, t) ==> !EndState(s, t).m.ifetchMmu
  }

  lemma UntranslatedIsSteady(x: Interpreter, s: State, pc: Addr)
    requires NeverTranslated(x, s, pc)
    ensures Steady(RiscvArch(x), s, pc)
  {
    var arch := RiscvArch(x);
    forall t: seq<Commit>, i: nat, b: Addr | SeqRun(arch, s, pc, t) && i <= |t| ensures SteadyAt(arch, s, pc, t, i, b) {
      StateOnTheWay(x, s, pc, t, i);
    }
  }

  lemma FrontIsRun(arch: Arch, s: State, pc: Addr, t: seq<Commit>, i: nat)
    requires SeqRun(arch, s, pc, t) && i <= |t|
    ensures SeqRun(arch, s, pc, t[..i]) && EndState(s, t[..i]) == Before(t, EndState(s, t), i)
  {
    var front := t[..i];
    forall m | 0 <= m < |front| ensures front[..m] == t[..m] && front[m] == t[m] {}
  }

  lemma TranslateIsFetch(x: Interpreter, s: State, a: Addr)
    ensures RiscvArch(x).translate(s, a) == FetchAddress(s, a)
  {}

  lemma StateOnTheWay(x: Interpreter, s: State, pc: Addr, t: seq<Commit>, i: nat)
    requires NeverTranslated(x, s, pc) && SeqRun(RiscvArch(x), s, pc, t) && i <= |t|
    ensures forall a: Addr :: RiscvArch(x).translate(Before(t, EndState(s, t), i), a) == Some(a)
  {
    FrontIsRun(RiscvArch(x), s, pc, t, i);
    var m := Before(t, EndState(s, t), i);
    forall a: Addr ensures RiscvArch(x).translate(m, a) == Some(a) {
      TranslateIsFetch(x, m, a);
      Identity(m, a);
    }
  }

  lemma Identity(s: State, a: Addr)
    requires !s.m.ifetchMmu
    ensures FetchAddress(s, a) == Some(a)
  {}

  // ---- what a handler finds ----

  /** The trap has been taken by the mode it is for, as TrapState says, and nothing else has happened: its
      handler starts at the base, or for an interrupt with the vectored mode at the entry of its number. */
  predicate TakesTrap(s: State, pc: Addr, e: P.Exception, value: nat, s': State, target: Addr) {
    var toS := T.GoesToS(s.m.st, e);
    var tvec := if toS then s.m.st.stvec else s.m.st.mtvec;
    && s'.regs == s.regs && s'.mem == s.mem
    && s'.m.st.priv == (if toS then 1 else 3)
    && P.Reported(s'.m.st, toS) == (pc, e, value)
    && (if toS then T.EnteredS(s.m.st.mstatus, s.m.st.priv, s'.m.st.mstatus)
        else T.EnteredM(s.m.st.mstatus, s.m.st.priv, s'.m.st.mstatus))
    && T.Untouched(s'.m.st, toS) == T.Untouched(s.m.st, toS)
    && target == (tvec - tvec % 4 + if e.Irq? && tvec % 4 != 0 then 4 * e.n else 0) % TWO64
  }

  lemma TrapTakes(s: State, pc: Addr, exception: nat, data: Addr)
    requires P.ValidPriv(s.m.st.priv) && T.IsTrap(ExceptionOf(exception))
    ensures var (s', target) := Trap(s, pc, exception, data);
      TakesTrap(s, pc, ExceptionOf(exception), if T.ReportsValue(ExceptionOf(exception)) then data else 0, s', target)
  {
    var info := P.Info(ExceptionOf(exception), data, [], P.Next, 0);
    T.TrapState(s.m, pc, info);
    T.DelegationIs(s.m.st, info.exception);
    TrapTarget(s.m, pc, info);
  }

  lemma TrapTarget(m: P.Machine, pc: nat, info: P.Info)
    requires T.IsTrap(info.exception)
    ensures var r, tvec := P.Update(m, pc, info), if P.Delegated(m.st, info.exception) then m.st.stvec else m.st.mtvec;
      r.Go? && r.pc % TWO64 == (tvec - tvec % 4 + if info.exception.Irq? && tvec % 4 != 0 then 4 * info.exception.n else 0) % TWO64
  {}

  lemma ArchTraps(x: Interpreter, s: State, pc: Addr, irq: nat, paddr: Addr, info: Info)
    requires info.exception != EXC_NONE
    ensures Update(RiscvArch(x), s, pc, Event.Decoded(irq, paddr, info)) == Trap(s, pc, info.exception, info.excData)
  {}

  lemma ArchDecodes(x: Interpreter, s: State, pc: Addr, paddr: Addr, pending: nat, n: nat)
    requires I.Recognized(s.m.st, pending) == I.Take(n)
    ensures RiscvArch(x).decode(s, pc, paddr, pending).exception == IRQ_MASK + n
  {}

  /** A fetch that cannot be translated becomes an instruction page fault at its address. */
  lemma FetchFaultIsTaken(x: Interpreter, s: State, pc: Addr, late: bool)
    requires P.ValidPriv(s.m.st.priv)
    ensures var (s', target) := Update(RiscvArch(x), s, pc, Faulted(late));
      TakesTrap(s, pc, P.Exc(12), pc, s', target)
  {
    TrapTakes(s, pc, EXC_IPF, pc);
  }

  /** The instruction decoded while an interrupt is recognized does not take place: the interrupt does, and
      comes back to its address. */
  lemma InterruptIsTaken(x: Interpreter, s: State, pc: Addr, paddr: Addr, pending: nat, n: nat)
    requires P.ValidPriv(s.m.st.priv) && I.Recognized(s.m.st, pending) == I.Take(n) && n < 31
    ensures var info := RiscvArch(x).decode(s, pc, paddr, pending);
      var (s', target) := Update(RiscvArch(x), s, pc, Event.Decoded(pending, paddr, info));
      TakesTrap(s, pc, P.Irq(n), 0, s', target)
  {
    var info := RiscvArch(x).decode(s, pc, paddr, pending);
    ArchDecodes(x, s, pc, paddr, pending, n);
    ArchTraps(x, s, pc, pending, paddr, info);
    TrapTakes(s, pc, info.exception, info.excData);
  }
}
