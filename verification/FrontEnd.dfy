/** The pipelined CPU together with its instruction cache (src/cpu/pipelinecpu.cpp, lines 39-51 and
    320-345; src/cache/icache.cpp): the cache accepts lookups when it can, hears of every redirect,
    and its callbacks are the CPU's. */
module FrontEnd {
  import opened PipelineSpec
  import opened PipelineProof
  import opened PipelineRedirect
  import opened PipelineStream
  import C = CacheSpec
  import K = CacheProof

  // ---- when the CPU redirects ----

  predicate WbRedirects(c: Cpu) {
    c.tick - c.wb.tick <= TIMEOUT && c.wb.valid && Faulty(c.wb.inst)
  }

  predicate ExeRedirects(c: Cpu) {
    !c.exited && c.exe.valid && c.exe.stallCycle == 0 && !c.exe.end && WentWrong(c.exe.inst)
  }

  predicate SettleRedirects(arch: Arch, inst: Inst) {
    var k := inst.info.kind;
    !Faulty(inst) && !IsJump(k) && k != Cond && (NeedFlush(arch, inst.info) || (k != Direct && k != Push && inst.taken))
  }

  predicate IdRedirects(arch: Arch, c: Cpu) {
    !c.exited && c.id.valid && !c.exe.valid && !c.id.wait && SettleRedirects(arch, c.id.inst)
  }

  /** A decode predicted taken. */
  predicate DecodeRedirects(arch: Arch, c: Cpu, inst: Inst, a: Answer) {
    match arch.translate(c.core.sigma, c.core.pc)
    case None => false
    case Some(paddr) =>
      && !Faulty(if c.id.remain <= 0 then inst else c.id.inst)
      && Predict(c.core.pc, arch.decode(c.core.sigma, c.core.pc, paddr, a.irq), a.stream).1
  }

  predicate StallRedirects(arch: Arch, c: Cpu, a: Answer) {
    !c.exited && !c.id.valid && c.id.stallValid && DecodeRedirects(arch, c, c.id.stallInst, a)
  }

  predicate CycleRedirects(arch: Arch, c: Cpu, inp: ExecIn) {
    var c1 := MemStage(WbStage(c));
    var c2 := ExeStage(arch, c1, inp.dcacheAccepts);
    WbRedirects(c) || ExeRedirects(c1) || IdRedirects(arch, c2) || StallRedirects(arch, IdStage(arch, c2), inp.answer)
  }

  predicate CallRedirects(arch: Arch, c: Cpu, a: Answer) {
    0 < |c.fetch.reqs| && !c.id.valid && DecodeRedirects(arch, c, c.fetch.reqs[0], a)
  }

  // ---- the two together ----

  datatype Joint = Joint(c: Cpu, r: C.Run)

  /** A cycle of the CPU, in which the architecture may flush the cache; a tick of the cache, with
      what its parent and its replacement answer; the parent's callback.  `answer` is what
      the branch predictors say, if a block is decoded. */
  datatype Event =
    | Cycle(inp: ExecIn, flushes: bool)
    | CacheTick(accepts: bool, way: nat, answer: Answer)
    | Refilled(answer: Answer)
    | DataCallback(id: nat)

  /** The lookup of the fetch stage. */
  predicate Asks(arch: Arch, c: Cpu) {
    && !c.exited && c.fetch.valid && !c.id.valid && 0 < |c.fetch.reqs|
    && !Faulty(Translated(arch, c.core.sigma, c.fetch.reqs[|c.fetch.reqs| - 1]))
  }

  function Address(arch: Arch, c: Cpu): Addr
    requires 0 < |c.fetch.reqs|
  {
    Translated(arch, c.core.sigma, c.fetch.reqs[|c.fetch.reqs| - 1]).paddr
  }

  /** What the cache sees before the lookup of the cycle. */
  function Interrupted(k: C.Config, r: C.Run, redirects: bool, flushes: bool): C.Run {
    var r1 := if redirects then C.RedirectStep(k, r, false) else r;
    if flushes then C.FlushStep(k, r1) else r1
  }

  /** The cycle's input, with the cache's answer. */
  function Input(arch: Arch, k: C.Config, j: Joint, inp: ExecIn, flushes: bool): ExecIn {
    inp.(icacheAccepts := C.Accepts(k, Interrupted(k, j.r, CycleRedirects(arch, j.c, inp), flushes).c))
  }

  function CycleStep(arch: Arch, k: C.Config, j: Joint, inp: ExecIn, flushes: bool): Joint {
    var r1 := Interrupted(k, j.r, CycleRedirects(arch, j.c, inp), flushes);
    var c1 := AtFetch(arch, j.c, inp);
    Joint(ExecCycle(arch, j.c, Input(arch, k, j, inp, flushes)),
          if Asks(arch, c1) then C.AskStep(k, r1, C.Req(Address(arch, c1), false)) else r1)
  }

  /** The CPU hears of what the cache has called back. */
  function Hears(arch: Arch, c: Cpu, before: C.Run, after: C.Run, a: Answer): Cpu {
    if |after.h.calls| > |before.h.calls| then Next(arch, c, ICallback(a)) else c
  }

  /** What the cache does in a step of its own. */
  function CacheStep(arch: Arch, c: Cpu, e: Event): C.Step
    requires e.CacheTick? || e.Refilled?
  {
    match e
    case CacheTick(accepts, way, a) => C.Tick(accepts, way, CallRedirects(arch, c, a))
    case Refilled(a) => C.Answer(CallRedirects(arch, c, a))
  }

  predicate Possible(arch: Arch, k: C.Config, j: Joint, e: Event) {
    e.CacheTick? || e.Refilled? ==> C.Enabled(k, j.r, CacheStep(arch, j.c, e))
  }

  /** One step; when the CPU has given up, and for a step that is not possible, nothing happens. */
  function JointNext(arch: Arch, k: C.Config, j: Joint, e: Event): Joint
    requires C.Shape(k, j.r.c)
  {
    if j.c.exited || !Possible(arch, k, j, e) then j
    else
      match e
      case Cycle(inp, flushes) => CycleStep(arch, k, j, inp, flushes)
      case DataCallback(i) => j.(c := Next(arch, j.c, DCallback(i)))
      case _ =>
        var r' := C.Next(k, j.r, CacheStep(arch, j.c, e));
        Joint(Hears(arch, j.c, j.r, r', e.answer), r')
  }

  // ---- the invariant ----

  /** The cache owes the CPU a callback. */
  predicate Pending(c: C.Cache) {
    c.idleValid || K.Waiting(c)
  }

  /** Blocks asked for and not yet delivered. */
  function Outstanding(f: Fetch): int {
    |f.reqs| - (if f.valid then 1 else 0)
  }

  predicate Awaits(c: Cpu) {
    1 <= Outstanding(c.fetch) && !c.id.valid && !c.id.stallValid
  }

  /** A callback still owed will find a block outstanding and an empty ID. */
  predicate Served(j: Joint) {
    !j.c.exited ==> (j.c.fetch.valid ==> 0 < |j.c.fetch.reqs|) && (Pending(j.r.c) ==> Awaits(j.c))
  }

  predicate JointInv(k: C.Config, j: Joint) {
    !k.data && K.Inv(k, j.r) && Served(j)
  }

  // ---- redirects empty the fetch side, and nothing else does ----

  /** Nothing is being fetched. */
  predicate Cleared(f: Fetch) {
    !f.valid && f.reqs == []
  }

  lemma WbFetch(c: Cpu)
    requires !WbStage(c).exited
    ensures if WbRedirects(c) then Cleared(WbStage(c).fetch) else WbStage(c).fetch == c.fetch && WbStage(c).id == c.id
  {}

  lemma ExeFetch(arch: Arch, c: Cpu, accepts: bool)
    ensures var c' := ExeStage(arch, c, accepts);
      c'.exited == c.exited && if ExeRedirects(c) then Cleared(c'.fetch) else c'.fetch == c.fetch && c'.id == c.id
  {
    if !c.exited && c.exe.valid && c.exe.stallCycle == 0 && !c.exe.end {
      if WentWrong(c.exe.inst) {
        ExecuteWrong(arch, c, accepts);
        ExecuteSides(arch, c, accepts);
      } else {
        ExecuteRight(arch, c, accepts);
        ExecuteSides(arch, c, accepts);
      }
    }
  }

  lemma SettleFetch(arch: Arch, c: Cpu)
    ensures var c' := Settle(arch, c);
      if SettleRedirects(arch, c.id.inst) then Cleared(c'.fetch) else c'.fetch == c.fetch
  {}

  lemma IdFetch(arch: Arch, c: Cpu)
    ensures var c' := IdStage(arch, c);
      if IdRedirects(arch, c) then Cleared(c'.fetch) else c'.fetch == c.fetch
  {
    SettleFetch(arch, Retire(arch, Fault(c, c.id.late)));
  }

  lemma DecodeFetch(arch: Arch, c: Cpu, inst: Inst, a: Answer)
    ensures var c' := PreId(arch, c, inst, a).0;
      if DecodeRedirects(arch, c, inst, a) then Cleared(c'.fetch) else c'.fetch == c.fetch
  {}

  lemma StallFetch(arch: Arch, c: Cpu, a: Answer)
    ensures var c' := StallStage(arch, c, a);
      if StallRedirects(arch, c, a) then Cleared(c'.fetch) else c'.fetch == c.fetch
  {
    DecodeFetch(arch, c, c.id.stallInst, a);
  }

  /** Up to the fetch stage. */
  lemma AtFetchSide(arch: Arch, c: Cpu, inp: ExecIn)
    requires !c.exited && !WbStage(c).exited
    ensures var c' := AtFetch(arch, c, inp);
      if CycleRedirects(arch, c, inp) then Cleared(c'.fetch) else c'.fetch == c.fetch
  {
    var c1 := MemStage(WbStage(c));
    var c2 := ExeStage(arch, c1, inp.dcacheAccepts);
    WbFetch(c);
    ExeFetch(arch, c1, inp.dcacheAccepts);
    IdFetch(arch, c2);
    StallFetch(arch, IdStage(arch, c2), inp.answer);
  }

  /** With an empty ID and nothing behind it, no stage before fetch fills it. */
  lemma AtFetchEmpty(arch: Arch, c: Cpu, inp: ExecIn)
    requires !c.exited && !WbStage(c).exited && !c.id.valid && !c.id.stallValid && !CycleRedirects(arch, c, inp)
    ensures var c' := AtFetch(arch, c, inp); !c'.id.valid && !c'.id.stallValid
  {
    var c1 := MemStage(WbStage(c));
    WbFetch(c);
    ExeFetch(arch, c1, inp.dcacheAccepts);
  }

  /** At the fetch stage an empty ID has nothing behind it. */
  lemma AtFetchDrained(arch: Arch, c: Cpu, inp: ExecIn)
    ensures var c' := AtFetch(arch, c, inp); !c'.exited && !c'.id.valid ==> !c'.id.stallValid
  {
    var c2 := IdStage(arch, Back(arch, c, inp.dcacheAccepts));
    if !c2.exited && !c2.id.valid && c2.id.stallValid {
      StallFills(arch, c2, inp.answer);
    }
  }

  /** The fetch stage and the next block: an accepted lookup adds one block to those outstanding. */
  lemma FetchSide(arch: Arch, c: Cpu, accepts: bool, slot: Inst)
    requires !c.exited && (c.fetch.valid ==> 0 < |c.fetch.reqs|)
    ensures var c' := NextFetch(FetchStage(arch, c, accepts), slot);
      && !c'.exited && c'.fetch.valid && 0 < |c'.fetch.reqs|
      && (HandsFault(arch, c) || (c'.id == c.id
            && Outstanding(c'.fetch) == Outstanding(c.fetch) + (if Asks(arch, c) && accepts then 1 else 0)))
  {}

  // ---- what the cache owes ----

  lemma InterruptedKeeps(k: C.Config, r: C.Run, redirects: bool, flushes: bool)
    requires K.Inv(k, r)
    ensures var r' := Interrupted(k, r, redirects, flushes);
      K.Inv(k, r') && (Pending(r'.c) <==> Pending(r.c) && !redirects)
  {
    var r1 := if redirects then C.RedirectStep(k, r, false) else r;
    K.NextKeeps(k, r, C.Redirect);
    K.NextKeeps(k, r1, C.Flush);
  }

  lemma AskOwes(k: C.Config, r: C.Run, req: C.Req)
    requires K.Inv(k, r)
    ensures var r' := C.AskStep(k, r, req);
      K.Inv(k, r') && (Pending(r'.c) <==> Pending(r.c) || C.Accepts(k, r.c))
  {
    K.NextKeeps(k, r, C.Ask(req));
  }

  /** A callback was owed, and nothing is owed after it. */
  lemma CallPays(k: C.Config, r: C.Run, s: C.Step)
    requires K.Inv(k, r) && C.Enabled(k, r, s) && (s.Tick? || s.Answer?)
    ensures var r' := C.Next(k, r, s);
      if |r'.h.calls| > |r.h.calls| then Pending(r.c) && !Pending(r'.c) else Pending(r'.c) ==> Pending(r.c)
  {
    C.SplitInRange(k, r.c.idleReq.addr);
  }

  // ---- every step keeps it ----

  lemma CycleKeeps(arch: Arch, k: C.Config, j: Joint, inp: ExecIn, flushes: bool)
    requires JointInv(k, j) && !j.c.exited
    ensures JointInv(k, CycleStep(arch, k, j, inp, flushes))
  {
    var redirects := CycleRedirects(arch, j.c, inp);
    var r1 := Interrupted(k, j.r, redirects, flushes);
    InterruptedKeeps(k, j.r, redirects, flushes);
    var c1 := AtFetch(arch, j.c, inp);
    if Asks(arch, c1) {
      AskOwes(k, r1, C.Req(Address(arch, c1), false));
    }
    if !WbStage(j.c).exited && !c1.exited {
      CycleServed(arch, k, j, inp, flushes);
    }
  }

  lemma CycleServed(arch: Arch, k: C.Config, j: Joint, inp: ExecIn, flushes: bool)
    requires JointInv(k, j) && !j.c.exited && !WbStage(j.c).exited && !AtFetch(arch, j.c, inp).exited
    ensures Served(CycleStep(arch, k, j, inp, flushes))
  {
    var redirects := CycleRedirects(arch, j.c, inp);
    var r1 := Interrupted(k, j.r, redirects, flushes);
    var c1 := AtFetch(arch, j.c, inp);
    InterruptedKeeps(k, j.r, redirects, flushes);
    AtFetchSide(arch, j.c, inp);
    AtFetchDrained(arch, j.c, inp);
    FetchSide(arch, c1, C.Accepts(k, r1.c), inp.slot);
    if Asks(arch, c1) {
      AskOwes(k, r1, C.Req(Address(arch, c1), false));
    }
    if Pending(r1.c) {
      AtFetchEmpty(arch, j.c, inp);
    }
  }

  lemma CallbackKeeps(arch: Arch, c: Cpu, a: Answer)
    requires Awaits(c) && !c.exited && (c.fetch.valid ==> 0 < |c.fetch.reqs|)
    ensures Enabled(c, ICallback(a))
    ensures var c' := Next(arch, c, ICallback(a)); c'.fetch.valid ==> 0 < |c'.fetch.reqs|
  {
    var inst := c.fetch.reqs[0];
    var c1 := c.(fetch := c.fetch.(reqs := c.fetch.reqs[1..]));
    DecodeFetch(arch, c1.(id := c1.id.(valid := true)), inst, a);
  }

  lemma CacheKeeps(arch: Arch, k: C.Config, j: Joint, e: Event)
    requires JointInv(k, j) && !j.c.exited && (e.CacheTick? || e.Refilled?) && Possible(arch, k, j, e)
    ensures JointInv(k, JointNext(arch, k, j, e))
  {
    var s := CacheStep(arch, j.c, e);
    K.NextKeeps(k, j.r, s);
    CallPays(k, j.r, s);
    if Pending(j.r.c) {
      CallbackKeeps(arch, j.c, e.answer);
    }
  }

  lemma JointKeeps(arch: Arch, k: C.Config, j: Joint, e: Event)
    requires JointInv(k, j)
    ensures JointInv(k, JointNext(arch, k, j, e))
  {
    if !j.c.exited && Possible(arch, k, j, e) {
      match e
      case Cycle(inp, flushes) => CycleKeeps(arch, k, j, inp, flushes);
      case DataCallback(_) =>
      case _ => CacheKeeps(arch, k, j, e);
    }
  }

  function JointAfter(arch: Arch, k: C.Config, j: Joint, events: seq<Event>): (j': Joint)
    requires JointInv(k, j)
    ensures JointInv(k, j')
  {
    if |events| == 0 then j
    else
      var m := JointAfter(arch, k, j, events[..|events| - 1]);
      JointKeeps(arch, k, m, events[|events| - 1]);
      JointNext(arch, k, m, events[|events| - 1])
  }

  /** The cache calls back in this step. */
  predicate Calls(arch: Arch, k: C.Config, j: Joint, e: Event)
    requires C.Shape(k, j.r.c)
  {
    && !j.c.exited && (e.CacheTick? || e.Refilled?) && Possible(arch, k, j, e)
    && |C.Next(k, j.r, CacheStep(arch, j.c, e)).h.calls| > |j.r.h.calls|
  }

  /** Whatever the schedule, a callback of the cache finds a block outstanding at the CPU and ID
      empty: none is ever parked behind another instruction. */
  lemma CallbacksFindIdEmpty(arch: Arch, k: C.Config, j: Joint, events: seq<Event>, e: Event)
    requires JointInv(k, j) && Calls(arch, k, JointAfter(arch, k, j, events), e)
    ensures var c := JointAfter(arch, k, j, events).c;
      Enabled(c, ICallback(e.answer)) && !c.id.valid && !c.id.stallValid
  {
    var m := JointAfter(arch, k, j, events);
    CallPays(k, m.r, CacheStep(arch, m.c, e));
  }

  // ---- a joint run is a schedule of the CPU ----

  /** What the CPU sees of a step. */
  function Seen(arch: Arch, k: C.Config, j: Joint, e: Event): seq<Step>
    requires C.Shape(k, j.r.c)
  {
    if j.c.exited then []
    else
      match e
      case Cycle(inp, flushes) => [Exec(Input(arch, k, j, inp, flushes))]
      case DataCallback(i) => [DCallback(i)]
      case _ => if Calls(arch, k, j, e) then [ICallback(e.answer)] else []
  }

  function Schedule(arch: Arch, k: C.Config, j: Joint, events: seq<Event>): seq<Step>
    requires JointInv(k, j)
  {
    if |events| == 0 then []
    else
      var front := events[..|events| - 1];
      Schedule(arch, k, j, front) + Seen(arch, k, JointAfter(arch, k, j, front), events[|events| - 1])
  }

  lemma SeenMoves(arch: Arch, k: C.Config, j: Joint, e: Event)
    requires JointInv(k, j)
    ensures JointNext(arch, k, j, e).c == After(arch, j.c, Seen(arch, k, j, e))
  {
    var seen := Seen(arch, k, j, e);
    if |seen| == 1 {
      assert seen[..0] == [];
      assert After(arch, j.c, []) == j.c;
    }
  }

  lemma AfterMore(arch: Arch, c: Cpu, xs: seq<Step>, ys: seq<Step>)
    requires |ys| <= 1
    ensures After(arch, c, xs + ys) == After(arch, After(arch, c, xs), ys)
  {
    if |ys| == 0 {
      assert xs + ys == xs;
    } else {
      assert (xs + ys)[..|xs|] == xs && ys[..0] == [];
      assert After(arch, After(arch, c, xs), []) == After(arch, c, xs);
    }
  }

  lemma {:induction false} ScheduleMoves(arch: Arch, k: C.Config, j: Joint, events: seq<Event>)
    requires JointInv(k, j)
    ensures JointAfter(arch, k, j, events).c == After(arch, j.c, Schedule(arch, k, j, events))
  {
    if |events| > 0 {
      var front := events[..|events| - 1];
      ScheduleMoves(arch, k, j, front);
      var m := JointAfter(arch, k, j, front);
      SeenMoves(arch, k, m, events[|events| - 1]);
      AfterMore(arch, j.c, Schedule(arch, k, j, front), Seen(arch, k, m, events[|events| - 1]));
    }
  }

  lemma SeenIsOrderly(arch: Arch, k: C.Config, j: Joint, e: Event)
    requires JointInv(k, j)
    ensures forall s :: s in Seen(arch, k, j, e) ==> Orderly(j.c, s)
  {
    if Calls(arch, k, j, e) {
      CallPays(k, j.r, CacheStep(arch, j.c, e));
    }
  }

  lemma OrderlyMore(arch: Arch, c: Cpu, xs: seq<Step>, ys: seq<Step>)
    requires |ys| <= 1 && AllOrderly(arch, c, xs) && forall s :: s in ys ==> Orderly(After(arch, c, xs), s)
    ensures AllOrderly(arch, c, xs + ys)
  {
    var zs := xs + ys;
    forall i | 0 <= i < |zs| ensures Orderly(After(arch, c, zs[..i]), zs[i]) {
      if i < |xs| {
        assert zs[..i] == xs[..i];
        assert Orderly(After(arch, c, xs[..i]), xs[i]);
      } else {
        assert zs[..i] == xs && zs[i] in ys;
      }
    }
  }

  lemma OneMoreIsOrderly(arch: Arch, k: C.Config, c: Cpu, m: Joint, xs: seq<Step>, e: Event)
    requires JointInv(k, m) && After(arch, c, xs) == m.c && AllOrderly(arch, c, xs)
    ensures AllOrderly(arch, c, xs + Seen(arch, k, m, e))
  {
    SeenIsOrderly(arch, k, m, e);
    OrderlyMore(arch, c, xs, Seen(arch, k, m, e));
  }

  lemma {:induction false} ScheduleIsOrderly(arch: Arch, k: C.Config, j: Joint, events: seq<Event>)
    requires JointInv(k, j)
    ensures AllOrderly(arch, j.c, Schedule(arch, k, j, events))
  {
    if |events| > 0 {
      var front := events[..|events| - 1];
      ScheduleIsOrderly(arch, k, j, front);
      ScheduleMoves(arch, k, j, front);
      OneMoreIsOrderly(arch, k, j.c, JointAfter(arch, k, j, front), Schedule(arch, k, j, front), events[|events| - 1]);
    }
  }

  // ---- the results ----

  /** After loading. */
  function Boot(arch: Arch, k: C.Config, slot: Inst, env: Env, s: State, pc: Addr, tags: seq<seq<C.Tagv>>): (j: Joint)
    requires K.Empty(k, tags) && K.FlushFits(k) && !k.data
    ensures JointInv(k, j)
  {
    K.StartInv(k, tags);
    Joint(Start(arch, slot, env, s, pc), K.Start(k, tags))
  }

  /** CPU and cache together, for every schedule, every size of the cache, every delay of what is behind
      it and whatever the branch predictors say: the commits are a run of the sequential machine. */
  lemma JointRunIsSequential(arch: Arch, k: C.Config, slot: Inst, env: Env, s: State, pc: Addr, tags: seq<seq<C.Tagv>>,
                             events: seq<Event>)
    requires Regular(arch) && Steady(arch, s, pc) && K.Empty(k, tags) && K.FlushFits(k) && !k.data
    ensures SeqRun(arch, s, pc, JointAfter(arch, k, Boot(arch, k, slot, env, s, pc, tags), events).c.core.trace)
  {
    var j := Boot(arch, k, slot, env, s, pc, tags);
    ScheduleMoves(arch, k, j, events);
    ScheduleIsOrderly(arch, k, j, events);
    EveryRunIsSequential(arch, slot, env, s, pc, Schedule(arch, k, j, events));
  }

  /** The cache does not show: with any two caches, and any two schedules, the same instructions
      commit with the same effects, as long as the runs see the same interrupts. */
  lemma CachesDoNotShow(arch: Arch, slot: Inst, env: Env, s: State, pc: Addr,
                        k: C.Config, tags: seq<seq<C.Tagv>>, events: seq<Event>,
                        k': C.Config, tags': seq<seq<C.Tagv>>, events': seq<Event>)
    requires Regular(arch) && Steady(arch, s, pc)
    requires K.Empty(k, tags) && K.FlushFits(k) && !k.data && K.Empty(k', tags') && K.FlushFits(k') && !k'.data
    ensures var t := JointAfter(arch, k, Boot(arch, k, slot, env, s, pc, tags), events).c.core.trace;
      var u := JointAfter(arch, k', Boot(arch, k', slot, env, s, pc, tags'), events').c.core.trace;
      forall n :: 0 <= n < |t| && n < |u| && (forall i :: 0 <= i <= n ==> SameIrq(t[i].event, u[i].event)) ==>
        Observed(t[n]) == Observed(u[n])
  {
    var j, j' := Boot(arch, k, slot, env, s, pc, tags), Boot(arch, k', slot, env, s, pc, tags');
    ScheduleMoves(arch, k, j, events);
    ScheduleIsOrderly(arch, k, j, events);
    ScheduleMoves(arch, k', j', events');
    ScheduleIsOrderly(arch, k', j', events');
    TimingIndependence(arch, slot, env, s, pc, Schedule(arch, k, j, events), Schedule(arch, k', j', events'));
  }
}
