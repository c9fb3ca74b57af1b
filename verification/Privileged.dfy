/** Trap entry, trap return and the cached MMU flags (src/arch/riscv/riscvarch.cpp, lines
    205-211 and 239-383).  mstatus and the privilege level are 64-bit words; of the other
    registers only a few bits matter, and they are numbers. */
module Privileged {
  import opened BitOps

  type Word = bv64

  /** `Stop` is where the simulator gives up. */
  datatype Outcome = Stop | Go(m: Machine, pc: nat)

  const MODE_U: Word := 0
  const MODE_S: Word := 1
  const MODE_M: Word := 3

  const SIE: Word := 0x2
  const MIE: Word := 0x8
  const SPIE: Word := 0x20
  const MPIE: Word := 0x80
  const SPP: Word := 0x100
  const MPP: Word := 0x1800
  const MPRV: Word := 0x20000

  const TWO60: nat := 0x1000_0000_0000_0000
  const TWO64: nat := 0x1_0000_0000_0000_0000

  /** info->exception: bit 63 marks an interrupt. */
  datatype Exception = Irq(n: nat) | Exc(n: nat)

  const EXC_SRET := Exc(20)
  const EXC_MRET := Exc(21)
  const EXC_NONE := Exc(31)

  datatype State = State(priv: Word, mstatus: Word, satp: nat, medeleg: nat, mideleg: nat,
                         mepc: nat, mcause: Exception, mtval: nat, mtvec: nat,
                         sepc: nat, scause: Exception, stval: nat, stvec: nat, gpr: seq<nat>)

  /** A register an instruction may write. */
  datatype Field = Gpr(i: nat) | Satp | Medeleg | Mideleg | Mepc | Mtval | Mtvec | Sepc | Stval | Stvec

  datatype Write = ToMstatus(bits: Word, value: Word) | ToField(field: Field, mask: nat, data: nat)

  datatype Flow = Jump(target: nat) | Branch(taken: bool, target: nat) | Next

  datatype Info = Info(exception: Exception, excData: nat, writes: seq<Write>, flow: Flow, size: nat)

  /** The architecture with its two cached flags. */
  datatype Machine = Machine(st: State, ifetchMmu: bool, dataMmu: bool)

  // ---- what the flags stand for ----

  predicate IfetchMmu(st: State) {
    st.satp / TWO60 == 8 && st.priv != MODE_M
  }

  /** Data accesses go by MPP when MPRV is set. */
  predicate DataMmu(st: State) {
    st.satp / TWO60 == 8 && (if st.mstatus & MPRV != 0 then (st.mstatus & MPP) >> 11 else st.priv) != MODE_M
  }

  function UpdateMmu(st: State): Machine {
    Machine(st, IfetchMmu(st), DataMmu(st))
  }

  // ---- updateEnv ----

  predicate Delegated(st: State, e: Exception) {
    Bit(if e.Irq? then st.mideleg else st.medeleg, e.n) && st.priv != MODE_M
  }

  /** Exceptions that report an address or instruction. */
  predicate HasValue(n: nat) {
    n == 2 || 4 <= n <= 7 || n == 12 || n == 13 || n == 15
  }

  /** Breakpoint and environment calls. */
  predicate NoValue(n: nat) {
    n == 3 || n == 8 || n == 9 || n == 11
  }

  /** Interrupt numbers stay below 31: the delegation bit is computed in a C int. */
  predicate Traps(e: Exception) {
    match e
    case Irq(n) => n < 31
    case Exc(n) => HasValue(n) || NoValue(n)
  }

  function TrapValue(info: Info): nat {
    if info.exception.Exc? && HasValue(info.exception.n) then info.excData else 0
  }

  function PushS(mstatus: Word, priv: Word): Word {
    (mstatus & !(SPP | SPIE | SIE)) | (priv << 8) | ((mstatus << 4) & SPIE)
  }

  function PushM(mstatus: Word, priv: Word): Word {
    (mstatus & !(MPP | MPIE | MIE)) | (priv << 11) | ((mstatus << 4) & MPIE)
  }

  function PopS(mstatus: Word): Word {
    (mstatus & !(SPP | SIE | MPRV)) | ((mstatus >> 4) & SIE) | SPIE
  }

  function PopM(mstatus: Word): Word {
    (mstatus & !(MPP | MIE | (if (mstatus >> 11) & 3 != MODE_M then MPRV else 0))) | ((mstatus >> 4) & MIE) | MPIE
  }

  function EnterS(st: State, pc: nat, info: Info): State {
    st.(stval := TrapValue(info), sepc := pc, scause := info.exception, mstatus := PushS(st.mstatus, st.priv), priv := MODE_S)
  }

  function EnterM(st: State, pc: nat, info: Info): State {
    st.(mtval := TrapValue(info), mepc := pc, mcause := info.exception, mstatus := PushM(st.mstatus, st.priv), priv := MODE_M)
  }

  function LeaveS(st: State): State {
    st.(priv := (st.mstatus >> 8) & 3, mstatus := PopS(st.mstatus))
  }

  function LeaveM(st: State): State {
    st.(priv := (st.mstatus >> 11) & 3, mstatus := PopM(st.mstatus))
  }

  /** The handler's address: interrupts are vectored in every mode but 0. */
  function Vector(tvec: nat, e: Exception): nat {
    var base := tvec - tvec % 4;
    if e.Irq? && tvec % 4 != 0 then (base + e.n % 32 * 4) % TWO64 else base
  }

  function Masked(x: nat, mask: nat, data: nat): nat {
    Or(AndNot(x, mask), And(data, mask))
  }

  function Put(st: State, f: Field, mask: nat, data: nat): State {
    match f
    case Gpr(i) => if i < |st.gpr| then st.(gpr := st.gpr[i := Masked(st.gpr[i], mask, data)]) else st
    case Satp => st.(satp := Masked(st.satp, mask, data))
    case Medeleg => st.(medeleg := Masked(st.medeleg, mask, data))
    case Mideleg => st.(mideleg := Masked(st.mideleg, mask, data))
    case Mepc => st.(mepc := Masked(st.mepc, mask, data))
    case Mtval => st.(mtval := Masked(st.mtval, mask, data))
    case Mtvec => st.(mtvec := Masked(st.mtvec, mask, data))
    case Sepc => st.(sepc := Masked(st.sepc, mask, data))
    case Stval => st.(stval := Masked(st.stval, mask, data))
    case Stvec => st.(stvec := Masked(st.stvec, mask, data))
  }

  function WriteOne(st: State, w: Write): State {
    match w
    case ToMstatus(bits, value) => st.(mstatus := (st.mstatus & !bits) | (value & bits))
    case ToField(f, mask, data) => Put(st, f, mask, data)
  }

  function WriteAll(st: State, ws: seq<Write>): State {
    if |ws| == 0 then st else WriteOne(WriteAll(st, ws[..|ws| - 1]), ws[|ws| - 1])
  }

  function ClearX0(st: State): State {
    if |st.gpr| > 0 then st.(gpr := st.gpr[0 := 0]) else st
  }

  function FlowTarget(info: Info, pc: nat): nat {
    match info.flow
    case Jump(t) => t
    case Branch(taken, t) => if taken then t else (pc + info.size) % TWO64
    case Next => (pc + info.size) % TWO64
  }

  function Update(m: Machine, pc: nat, info: Info): Outcome {
    var st, e := m.st, info.exception;
    if Traps(e) then
      if Delegated(st, e) then Go(UpdateMmu(EnterS(st, pc, info)), Vector(st.stvec, e))
      else Go(UpdateMmu(EnterM(st, pc, info)), Vector(st.mtvec, e))
    else if e == EXC_SRET then Go(UpdateMmu(LeaveS(st)), st.sepc)
    else if e == EXC_MRET then Go(UpdateMmu(LeaveM(st)), st.mepc)
    else if e == EXC_NONE then Go(UpdateMmu(ClearX0(WriteAll(st, info.writes))), FlowTarget(info, pc))
    else Stop
  }

  // ---- trap and return ----

  predicate ValidPriv(priv: Word) {
    priv == MODE_U || priv == MODE_S || priv == MODE_M
  }

  /** SRET undoes a trap into S-mode exactly when mstatus bit 9 is clear: the return reads two
      bits of privilege where the trap has written one. */
  lemma SretUndoesTrap(st: State, pc: nat, info: Info)
    requires st.priv == MODE_U || st.priv == MODE_S
    ensures var back := LeaveS(EnterS(st, pc, info));
      && back.mstatus & (SIE | MIE) == st.mstatus & (SIE | MIE)
      && EnterS(st, pc, info).sepc == pc
      && (back.priv == st.priv <==> st.mstatus & 0x200 == 0)
  {}

  /** MRET undoes a trap into M-mode, and leaves the S-mode stack alone. */
  lemma MretUndoesTrap(st: State, pc: nat, info: Info)
    requires ValidPriv(st.priv)
    ensures var back := LeaveM(EnterM(st, pc, info));
      && back.priv == st.priv && EnterM(st, pc, info).mepc == pc
      && back.mstatus & (SIE | MIE | SPIE | SPP | 0x200) == st.mstatus & (SIE | MIE | SPIE | SPP | 0x200)
  {}

  /** Code with its traps: ordinary instructions, and traps with their handlers, each ended by
      the matching return. */
  datatype Code = Done | Plain(info: Info, rest: Code) | Trap(info: Info, handler: Code, after: Code)

  datatype Level = Top | InS | InM

  /** The bits of mstatus that a trap at this level must find again. */
  function Tracked(level: Level): Word {
    match level
    case Top => SIE | MIE | 0x200
    case InS => SIE | MIE | 0x200 | SPIE | SPP
    case InM => SIE | MIE | 0x200 | SPIE | SPP | MPIE | MPP
  }

  /** Not the interrupt enables, nor what the return of this handler will read. */
  predicate Harmless(w: Write, level: Level) {
    match w
    case ToMstatus(bits, _) => bits & Tracked(level) == 0
    case ToField(f, _, _) => (f.Sepc? ==> level == Top) && (f.Mepc? ==> level != InM)
  }

  /** Ordinary instructions may write every other register, the delegation registers and satp
      included. */
  predicate IsPlain(info: Info, level: Level) {
    info.exception == EXC_NONE && forall i :: 0 <= i < |info.writes| ==> Harmless(info.writes[i], level)
  }

  function Return(toS: bool): Info {
    Info(if toS then EXC_SRET else EXC_MRET, 0, [], Next, 4)
  }

  /** The code run by updateEnv. */
  function Run(m: Machine, pc: nat, c: Code): Outcome
    decreases c
  {
    match c
    case Done => Go(m, pc)
    case Plain(info, rest) =>
      var r := Update(m, pc, info);
      if r.Stop? then Stop else Run(r.m, r.pc, rest)
    case Trap(info, handler, after) =>
      var r := Update(m, pc, info);
      if r.Stop? then Stop
      else
        var h := Run(r.m, r.pc, handler);
        if h.Stop? then Stop
        else
          var b := Update(h.m, h.pc, Return(Delegated(m.st, info.exception)));
          if b.Stop? then Stop else Run(b.m, b.pc, after)
  }

  /** Each privilege level is trapped into at most once at a time: nothing in an M-mode handler
      traps, and traps in an S-mode handler go to M-mode. */
  predicate Nested(m: Machine, pc: nat, c: Code, level: Level)
    decreases c
  {
    match c
    case Done => true
    case Plain(info, rest) =>
      IsPlain(info, level) && (var r := Update(m, pc, info); r.Go? && Nested(r.m, r.pc, rest, level))
    case Trap(info, handler, after) =>
      var toS := Delegated(m.st, info.exception);
      && Traps(info.exception) && level != InM && (level == InS ==> !toS)
      && (var r := Update(m, pc, info);
          && r.Go?
          && Nested(r.m, r.pc, handler, if toS then InS else InM)
          && (var h := Run(r.m, r.pc, handler);
              && h.Go?
              && (var b := Update(h.m, h.pc, Return(toS));
                  b.Go? && Nested(b.m, b.pc, after, level))))
  }

  /** Where the code itself goes, traps left aside. */
  function Path(pc: nat, c: Code): nat
    decreases c
  {
    match c
    case Done => pc
    case Plain(info, rest) => Path(FlowTarget(info, pc), rest)
    case Trap(_, _, after) => Path(pc, after)
  }

  /** What a trap must give back. */
  predicate Restored(a: State, b: State, level: Level) {
    && b.priv == a.priv && b.mstatus & (SIE | MIE | 0x200) == a.mstatus & (SIE | MIE | 0x200)
    && (level != Top ==> b.mstatus & (SPIE | SPP) == a.mstatus & (SPIE | SPP) && b.sepc == a.sepc)
    && (level == InM ==> b.mstatus & (MPIE | MPP) == a.mstatus & (MPIE | MPP) && b.mepc == a.mepc)
  }

  lemma RestoredTrans(a: State, b: State, c: State, level: Level)
    requires Restored(a, b, level) && Restored(b, c, level)
    ensures Restored(a, c, level)
  {}

  /** What a harmless write leaves alone. */
  predicate Spared(a: State, b: State, level: Level) {
    && b.priv == a.priv && b.mstatus & Tracked(level) == a.mstatus & Tracked(level)
    && (level != Top ==> b.sepc == a.sepc)
    && (level == InM ==> b.mepc == a.mepc)
  }

  lemma {:induction false} PlainWrites(st: State, ws: seq<Write>, level: Level)
    requires forall i :: 0 <= i < |ws| ==> Harmless(ws[i], level)
    ensures Spared(st, WriteAll(st, ws), level)
  {
    if |ws| > 0 {
      PlainWrites(st, ws[..|ws| - 1], level);
      PlainWrite(WriteAll(st, ws[..|ws| - 1]), ws[|ws| - 1], level);
    }
  }

  lemma PlainWrite(st: State, w: Write, level: Level)
    requires Harmless(w, level)
    ensures Spared(st, WriteOne(st, w), level)
  {
    if w.ToMstatus? {
      MaskedWrite(st.mstatus, w.bits, w.value, Tracked(level));
    }
  }

  lemma MaskedWrite(old_: Word, bits: Word, value: Word, tracked: Word)
    requires bits & tracked == 0
    ensures ((old_ & !bits) | (value & bits)) & tracked == old_ & tracked
  {}

  predicate Good(st: State) {
    ValidPriv(st.priv) && st.mstatus & 0x200 == 0
  }

  lemma SparedIsRestored(a: State, b: State, level: Level)
    requires Spared(a, b, level) && Good(a)
    ensures Restored(a, ClearX0(b), level) && Good(ClearX0(b))
  {}

  lemma Completes(m: Machine, pc: nat, info: Info)
    requires info.exception == EXC_NONE
    ensures Update(m, pc, info) == Go(UpdateMmu(ClearX0(WriteAll(m.st, info.writes))), FlowTarget(info, pc))
  {}

  lemma PlainStep(m: Machine, pc: nat, info: Info, level: Level)
    requires IsPlain(info, level) && Good(m.st)
    ensures var r := Update(m, pc, info);
      r.Go? && Good(r.m.st) && Restored(m.st, r.m.st, level) && r.pc == FlowTarget(info, pc)
  {
    PlainWrites(m.st, info.writes, level);
    SparedIsRestored(m.st, WriteAll(m.st, info.writes), level);
    Completes(m, pc, info);
  }

  lemma TrapStep(m: Machine, pc: nat, info: Info)
    requires Traps(info.exception) && Good(m.st)
    ensures var r := Update(m, pc, info);
      && r.Go? && Good(r.m.st)
      && r.m.st == (if Delegated(m.st, info.exception) then EnterS(m.st, pc, info) else EnterM(m.st, pc, info))
  {}

  /** What a handler leaves as the trap set it is enough for the return to restore the rest. */
  lemma ReturnRestores(st: State, pc: nat, info: Info, after: State, toS: bool, level: Level)
    requires Good(st) && level != InM && (toS ==> level == Top)
    requires toS ==> (st.priv == MODE_U || st.priv == MODE_S)
    requires if toS then Restored(EnterS(st, pc, info), after, InS) else Restored(EnterM(st, pc, info), after, InM)
    ensures if toS then after.sepc == pc && Restored(st, LeaveS(after), level)
            else after.mepc == pc && Restored(st, LeaveM(after), level)
  {}

  lemma ReturnStep(m: Machine, pc: nat, info: Info, h: Machine, hpc: nat, level: Level)
    requires Traps(info.exception) && Good(m.st) && level != InM
    requires var toS := Delegated(m.st, info.exception);
      && (toS ==> level == Top)
      && Restored(Update(m, pc, info).m.st, h.st, if toS then InS else InM)
    ensures var b := Update(h, hpc, Return(Delegated(m.st, info.exception)));
      b.Go? && Good(b.m.st) && Restored(m.st, b.m.st, level) && b.pc == pc
  {
    ReturnRestores(m.st, pc, info, h.st, Delegated(m.st, info.exception), level);
  }

  /** Traps are transparent: well-bracketed, never nested at one level, with mstatus bit 9 clear,
      they give back privilege, both interrupt enables and the pc of the code they interrupt. */
  lemma {:induction false} TrapsAreTransparent(m: Machine, pc: nat, c: Code, level: Level)
    requires Good(m.st) && Nested(m, pc, c, level)
    ensures var r := Run(m, pc, c);
      r.Go? && Restored(m.st, r.m.st, level) && r.pc == Path(pc, c)
    decreases c
  {
    match c
    case Done =>
    case Plain(info, rest) =>
      PlainStep(m, pc, info, level);
      var r := Update(m, pc, info);
      TrapsAreTransparent(r.m, r.pc, rest, level);
      RestoredTrans(m.st, r.m.st, Run(m, pc, c).m.st, level);
    case Trap(info, handler, after) =>
      var toS := Delegated(m.st, info.exception);
      TrapStep(m, pc, info);
      var r := Update(m, pc, info);
      TrapsAreTransparent(r.m, r.pc, handler, if toS then InS else InM);
      var h := Run(r.m, r.pc, handler);
      ReturnStep(m, pc, info, h.m, h.pc, level);
      var b := Update(h.m, h.pc, Return(toS));
      TrapsAreTransparent(b.m, b.pc, after, level);
      RestoredTrans(m.st, b.m.st, Run(m, pc, c).m.st, level);
  }

  // ---- one level nested in itself ----

  lemma BothDelegated()
    ensures Bit(264, 8) && Bit(264, 3)
  {
    assert Bit(4, 2) by { assert Bit(2, 1); }
    assert Bit(16, 4) by { assert Bit(8, 3) by { assert Bit(4, 2); } }
    assert Bit(33, 0) && Bit(33, 5) by { assert Bit(16, 4); }
    assert Bit(66, 6) && Bit(66, 1) by { assert 66 / 2 == 33; }
    assert Bit(132, 7) && Bit(132, 2) by { assert 132 / 2 == 66; }
    assert 264 / 2 == 132;
  }

  function InUser(): Machine {
    UpdateMmu(State(MODE_U, 0, 0, 264, 0, 0, Exc(0), 0, 0, 0, Exc(0), 0, 512, []))
  }

  function Call(code: nat): Info {
    Info(Exc(code), 0, [], Next, 4)
  }

  /** A breakpoint inside the S-mode handler of an environment call: both go to S-mode, the
      second overwrites sepc, and the call does not return to where it was made. */
  lemma SameLevelIsNotRestored()
    ensures var code := Trap(Call(8), Trap(Call(3), Done, Done), Done);
      var r := Run(InUser(), 100, code);
      Good(InUser().st) && r.Go? && r.pc == 512 && Path(100, code) == 100
  {
    BothDelegated();
    var m1 := Update(InUser(), 100, Call(8));
    assert m1.pc == 512 && m1.m.st.sepc == 100 && m1.m.st.priv == MODE_S;
    var inner := Trap(Call(3), Done, Done);
    var m2 := Update(m1.m, 512, Call(3));
    assert m2.pc == 512 && m2.m.st.sepc == 512 && Delegated(m1.m.st, Exc(3));
    var m3 := Update(m2.m, 512, Return(true));
    assert m3.pc == 512 && m3.m.st.sepc == 512;
    assert Run(m1.m, 512, inner) == m3;
  }

  // ---- what a trap reports ----

  /** The trap registers of one mode. */
  function Reported(st: State, toS: bool): (nat, Exception, nat) {
    if toS then (st.sepc, st.scause, st.stval) else (st.mepc, st.mcause, st.mtval)
  }

  /** A trap reports itself in the registers of the mode it goes to and in no others, and enters
      that mode's handler: at its base, or for a vectored interrupt n in its n-th word. */
  lemma TrapReports(m: Machine, pc: nat, info: Info)
    requires Traps(info.exception)
    ensures var r := Update(m, pc, info);
      var toS := Delegated(m.st, info.exception);
      var tvec := if toS then m.st.stvec else m.st.mtvec;
      && r.Go? && r.m.st.priv == (if toS then MODE_S else MODE_M)
      && Reported(r.m.st, toS) == (pc, info.exception, TrapValue(info))
      && Reported(r.m.st, !toS) == Reported(m.st, !toS)
      && r.m.st.gpr == m.st.gpr && r.m.st.satp == m.st.satp
      && r.pc % 4 == 0
      && (info.exception.Exc? || tvec % 4 == 0 ==> r.pc == tvec / 4 * 4)
      && (info.exception.Irq? && tvec % 4 != 0 ==> r.pc == (tvec / 4 + info.exception.n) * 4 % TWO64)
  {
    var tvec := if Delegated(m.st, info.exception) then m.st.stvec else m.st.mtvec;
    assert tvec - tvec % 4 == tvec / 4 * 4;
    WordAligned(tvec / 4, info.exception.n);
  }

  lemma WordAligned(w: nat, n: nat)
    ensures (w * 4) % 4 == 0 && ((w * 4 + n * 4) % TWO64) % 4 == 0 && w * 4 + n * 4 == (w + n) * 4
  {}

  // ---- the cached flags ----

  /** The flags are those of the state. */
  predicate FlagsAgree(m: Machine) {
    && (m.ifetchMmu <==> IfetchMmu(m.st))
    && (m.dataMmu <==> DataMmu(m.st))
  }

  /** After any sequence of instructions, whatever they write, and traps, the flags agree with
      satp, priv and mstatus. */
  lemma {:induction false} FlagsFollow(m: Machine, pc: nat, infos: seq<Info>)
    requires FlagsAgree(m)
    ensures AfterAll(m, pc, infos).Go? ==> FlagsAgree(AfterAll(m, pc, infos).m)
  {
    if |infos| > 0 {
      FlagsFollow(m, pc, infos[..|infos| - 1]);
    }
  }

  function AfterAll(m: Machine, pc: nat, infos: seq<Info>): Outcome {
    if |infos| == 0 then Go(m, pc)
    else
      var r := AfterAll(m, pc, infos[..|infos| - 1]);
      if r.Stop? then Stop else Update(r.m, r.pc, infos[|infos| - 1])
  }

  class RiscvArch {
    var state: State
    var ifetchMmu: bool
    var dataMmu: bool

    function View(): Machine
      reads this
    {
      Machine(state, ifetchMmu, dataMmu)
    }

    constructor (st: State)
      ensures state == st && FlagsAgree(View())
    {
      state, ifetchMmu, dataMmu := st, IfetchMmu(st), DataMmu(st);
    }

    method UpdateMmuState()
      modifies this
      ensures View() == UpdateMmu(old(state)) && FlagsAgree(View())
    {
      ifetchMmu := state.satp / TWO60 == 8 && state.priv != MODE_M;
      var mode := if state.mstatus & MPRV != 0 then (state.mstatus & MPP) >> 11 else state.priv;
      dataMmu := state.satp / TWO60 == 8 && mode != MODE_M;
    }

    /** The writes of a completed instruction, in order. */
    method WriteResults(ws: seq<Write>)
      modifies `state
      ensures state == old(ClearX0(WriteAll(state, ws)))
    {
      ghost var before := state;
      var i := 0;
      while i < |ws|
        invariant 0 <= i <= |ws| && state == WriteAll(before, ws[..i])
      {
        assert ws[..i + 1][..i] == ws[..i];
        state := WriteOne(state, ws[i]);
        i := i + 1;
      }
      assert ws[..i] == ws;
      state := ClearX0(state);
    }

    method TakeTrap(pc: nat, info: Info) returns (target: nat)
      requires Traps(info.exception)
      modifies this
      ensures Update(old(View()), pc, info) == Go(View(), target) && FlagsAgree(View())
    {
      var toS := Delegated(state, info.exception);
      if toS {
        state := EnterS(state, pc, info);
      } else {
        state := EnterM(state, pc, info);
      }
      UpdateMmuState();
      target := if toS then Vector(state.stvec, state.scause) else Vector(state.mtvec, state.mcause);
    }

    /** updateEnv; on an exception the simulator does not know it gives up. */
    method UpdateEnv(pc: nat, info: Info) returns (ok: bool, target: nat)
      modifies this
      ensures ok <==> Update(old(View()), pc, info).Go?
      ensures ok ==> Update(old(View()), pc, info) == Go(View(), target) && FlagsAgree(View())
      ensures !ok ==> View() == old(View())
    {
      ok, target := true, 0;
      if Traps(info.exception) {
        target := TakeTrap(pc, info);
      } else if info.exception == EXC_SRET {
        target := state.sepc;
        state := LeaveS(state);
        UpdateMmuState();
      } else if info.exception == EXC_MRET {
        target := state.mepc;
        state := LeaveM(state);
        UpdateMmuState();
      } else if info.exception == EXC_NONE {
        WriteResults(info.writes);
        UpdateMmuState();
        target := FlowTarget(info, pc);
      } else {
        ok := false;
      }
    }
  }
}
