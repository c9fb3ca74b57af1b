/** The state updateEnv leaves behind, bit by bit (src/arch/riscv/riscvarch.cpp, lines 205-377): where a trap
    goes and what mstatus its handler runs with, what a return restores, and what an instruction
    writes.  The numbers are those of the RISC-V Privileged Architecture, sections 3.1.6, 3.1.8 and 4.1.1. */
module TrapState {
  import opened BitOps
  import opened Privileged

  // ---- where traps go ----

  lemma BitIsRemainder(x: nat, n: nat)
    ensures Bit(x, n) <==> x / Pow2(n) % 2 == 1
  {
    BitShr(x, n, 0);
    ShrValue(x, n);
  }

  /** To S-mode exactly from U or S with the bit of the cause set in the register of its kind. */
  predicate GoesToS(st: State, e: Exception) {
    (st.priv == 0 || st.priv == 1) && (match e case Irq(n) => st.mideleg / Pow2(n) % 2 == 1 case Exc(n) => st.medeleg / Pow2(n) % 2 == 1)
  }

  lemma DelegationIs(st: State, e: Exception)
    requires ValidPriv(st.priv)
    ensures Delegated(st, e) <==> GoesToS(st, e)
  {
    BitIsRemainder(if e.Irq? then st.mideleg else st.medeleg, e.n);
  }

  /** Interrupts; and of the exceptions misaligned and faulting accesses, illegal instructions,
      breakpoints, environment calls and page faults. */
  predicate IsTrap(e: Exception) {
    match e
    case Irq(n) => n < 31
    case Exc(n) => n in {2, 3, 4, 5, 6, 7, 8, 9, 11, 12, 13, 15}
  }

  /** What xtval is for. */
  predicate ReportsValue(e: Exception) {
    e.Exc? && e.n in {2, 4, 5, 6, 7, 12, 13, 15}
  }

  // ---- mstatus, by bits ----

  predicate On(m: Word, bit: Word) {
    m & bit != 0
  }

  /** The saved level in its place. */
  function SavedS(priv: Word): Word {
    if priv == 1 then 0x100 else 0
  }

  function SavedM(priv: Word): Word {
    if priv == 0 then 0 else if priv == 1 then 0x800 else 0x1800
  }

  /** SIE is bit 1, MIE 3, SPIE 5, MPIE 7, SPP 8, MPP 11 and 12, MPRV 17. */
  predicate EnteredS(before: Word, priv: Word, after: Word) {
    && !On(after, 0x2) && (On(after, 0x20) <==> On(before, 0x2)) && after & 0x100 == SavedS(priv)
    && after & !0x122 == before & !0x122
  }

  predicate EnteredM(before: Word, priv: Word, after: Word) {
    && !On(after, 0x8) && (On(after, 0x80) <==> On(before, 0x8))
    && after & 0x1800 == SavedM(priv)
    && after & !0x1888 == before & !0x1888
  }

  predicate FromS(before: Word, after: Word) {
    && (On(after, 0x2) <==> On(before, 0x20)) && On(after, 0x20) && !On(after, 0x100) && !On(after, 0x20000)
    && after & !0x20122 == before & !0x20122
  }

  predicate FromM(before: Word, after: Word, priv: Word) {
    && (On(after, 0x8) <==> On(before, 0x80)) && On(after, 0x80) && after & 0x1800 == 0
    && (if priv == 3 then On(after, 0x20000) <==> On(before, 0x20000) else !On(after, 0x20000))
    && after & !0x21888 == before & !0x21888
  }

  // A pushed word, one question at a time; `p` is the saved level in its place.

  function WordS(m: Word, p: Word): Word {
    (m & !0x122) | p | ((m << 4) & 0x20)
  }

  lemma WordSIs(m: Word, priv: Word)
    requires priv == 0 || priv == 1
    ensures PushS(m, priv) == (m & !0x122) | (priv << 8) | ((m << 4) & 0x20)
  {}

  lemma ShiftS(priv: Word)
    requires priv == 0 || priv == 1
    ensures priv << 8 == SavedS(priv)
  {}

  lemma WordSEnables(m: Word, p: Word)
    requires p == 0 || p == 0x100
    ensures WordS(m, p) & 0x2 == 0 && WordS(m, p) & 0x20 == (m << 4) & 0x20
  {}

  lemma WordSRest(m: Word, p: Word)
    requires p == 0 || p == 0x100
    ensures WordS(m, p) & 0x100 == p && WordS(m, p) & !0x122 == m & !0x122
  {}

  lemma EnableMovesS(m: Word)
    ensures (m << 4) & 0x20 != 0 <==> m & 0x2 != 0
  {}

  lemma IsOff(w: Word, bit: Word)
    requires w & bit == 0
    ensures !On(w, bit)
  {}

  /** A bit that another word has elsewhere. */
  lemma IsMoved(w: Word, bit: Word, m: Word, from: Word, x: Word)
    requires w & bit == x && (x != 0 <==> m & from != 0)
    ensures On(w, bit) <==> On(m, from)
  {}

  lemma PushSBits(m: Word, priv: Word, after: Word)
    requires (priv == 0 || priv == 1) && after == PushS(m, priv)
    ensures EnteredS(m, priv, after)
  {
    var p, e := priv << 8, (m << 4) & 0x20;
    ShiftS(priv);
    WordSIs(m, priv);
    WordSEnables(m, p);
    WordSRest(m, p);
    EnableMovesS(m);
    IsOff(after, 0x2);
    IsMoved(after, 0x20, m, 0x2, e);
  }

  function WordM(m: Word, p: Word): Word {
    (m & !0x1888) | p | ((m << 4) & 0x80)
  }

  lemma WordMIs(m: Word, priv: Word)
    requires ValidPriv(priv)
    ensures PushM(m, priv) == (m & !0x1888) | (priv << 11) | ((m << 4) & 0x80)
  {}

  lemma ShiftM(priv: Word)
    requires ValidPriv(priv)
    ensures priv << 11 == SavedM(priv)
  {}

  lemma WordMEnables(m: Word, p: Word)
    requires p == 0 || p == 0x800 || p == 0x1800
    ensures WordM(m, p) & 0x8 == 0 && WordM(m, p) & 0x80 == (m << 4) & 0x80
  {}

  lemma WordMRest(m: Word, p: Word)
    requires p == 0 || p == 0x800 || p == 0x1800
    ensures WordM(m, p) & 0x1800 == p && WordM(m, p) & !0x1888 == m & !0x1888
  {}

  lemma EnableMovesM(m: Word)
    ensures (m << 4) & 0x80 != 0 <==> m & 0x8 != 0
  {}

  lemma PushMBits(m: Word, priv: Word, after: Word)
    requires ValidPriv(priv) && after == PushM(m, priv)
    ensures EnteredM(m, priv, after)
  {
    var p, e := priv << 11, (m << 4) & 0x80;
    ShiftM(priv);
    WordMIs(m, priv);
    WordMEnables(m, p);
    WordMRest(m, p);
    EnableMovesM(m);
    IsOff(after, 0x8);
    IsMoved(after, 0x80, m, 0x8, e);
  }

  lemma PopSBits(m: Word)
    ensures FromS(m, PopS(m))
  {}

  lemma PopMBits(m: Word)
    ensures FromM(m, PopM(m), (m >> 11) & 3)
  {}

  // ---- traps and returns ----

  /** The state with what a trap writes taken out. */
  function Untouched(st: State, toS: bool): State {
    if toS then st.(priv := 0, mstatus := 0, sepc := 0, scause := Exc(0), stval := 0)
    else st.(priv := 0, mstatus := 0, mepc := 0, mcause := Exc(0), mtval := 0)
  }

  lemma TrapEnters(m: Machine, pc: nat, info: Info)
    requires IsTrap(info.exception)
    ensures var r := Update(m, pc, info);
      r.Go? && r.m.st == if Delegated(m.st, info.exception) then EnterS(m.st, pc, info) else EnterM(m.st, pc, info)
  {}

  lemma EnterSState(st: State, pc: nat, info: Info)
    requires (st.priv == 0 || st.priv == 1) && IsTrap(info.exception)
    ensures var st' := EnterS(st, pc, info);
      && st'.priv == 1 && EnteredS(st.mstatus, st.priv, st'.mstatus) && Untouched(st', true) == Untouched(st, true)
      && Reported(st', true) == (pc, info.exception, if ReportsValue(info.exception) then info.excData else 0)
  {
    PushSBits(st.mstatus, st.priv, PushS(st.mstatus, st.priv));
  }

  lemma EnterMState(st: State, pc: nat, info: Info)
    requires ValidPriv(st.priv) && IsTrap(info.exception)
    ensures var st' := EnterM(st, pc, info);
      && st'.priv == 3 && EnteredM(st.mstatus, st.priv, st'.mstatus) && Untouched(st', false) == Untouched(st, false)
      && Reported(st', false) == (pc, info.exception, if ReportsValue(info.exception) then info.excData else 0)
  {
    PushMBits(st.mstatus, st.priv, PushM(st.mstatus, st.priv));
  }

  /** A trap: the privilege level, mstatus bit by bit, the three registers of the mode it goes to, and
      nothing else. */
  lemma TrapState(m: Machine, pc: nat, info: Info)
    requires ValidPriv(m.st.priv) && IsTrap(info.exception)
    ensures var r := Update(m, pc, info);
      var toS := GoesToS(m.st, info.exception);
      && r.Go? && r.m.st.priv == (if toS then 1 else 3)
      && (if toS then EnteredS(m.st.mstatus, m.st.priv, r.m.st.mstatus) else EnteredM(m.st.mstatus, m.st.priv, r.m.st.mstatus))
      && Reported(r.m.st, toS) == (pc, info.exception, if ReportsValue(info.exception) then info.excData else 0)
      && Untouched(r.m.st, toS) == Untouched(m.st, toS)
  {
    DelegationIs(m.st, info.exception);
    TrapEnters(m, pc, info);
    if GoesToS(m.st, info.exception) { EnterSState(m.st, pc, info); } else { EnterMState(m.st, pc, info); }
  }

  /** SRET: the enable comes back, its copy is set, SPP and MPRV are cleared, every other bit stays. */
  lemma SretState(m: Machine, pc: nat, info: Info)
    requires info.exception == Exc(20)
    ensures var r := Update(m, pc, info);
      && r.Go? && r.pc == m.st.sepc && FromS(m.st.mstatus, r.m.st.mstatus)
      && r.m.st.priv == (m.st.mstatus >> 8) & 3
      && r.m.st == m.st.(priv := r.m.st.priv, mstatus := r.m.st.mstatus)
  {
    PopSBits(m.st.mstatus);
  }

  /** MRET likewise; MPRV is cleared unless it returns to M-mode. */
  lemma MretState(m: Machine, pc: nat, info: Info)
    requires info.exception == Exc(21)
    ensures var r := Update(m, pc, info);
      && r.Go? && r.pc == m.st.mepc && FromM(m.st.mstatus, r.m.st.mstatus, r.m.st.priv)
      && r.m.st.priv == (m.st.mstatus >> 11) & 3
      && r.m.st == m.st.(priv := r.m.st.priv, mstatus := r.m.st.mstatus)
  {
    PopMBits(m.st.mstatus);
  }

  /** The simulator gives up on all other exceptions, and on nothing else. */
  lemma GivesUpOn(m: Machine, pc: nat, info: Info)
    ensures Update(m, pc, info).Stop? <==>
      !IsTrap(info.exception) && info.exception != Exc(20) && info.exception != Exc(21) && info.exception != Exc(31)
  {}

  // ---- what an instruction writes ----

  /** The registers by name. */
  function Value(st: State, f: Field): nat {
    match f
    case Gpr(i) => if i < |st.gpr| then st.gpr[i] else 0
    case Satp => st.satp
    case Medeleg => st.medeleg
    case Mideleg => st.mideleg
    case Mepc => st.mepc
    case Mtval => st.mtval
    case Mtvec => st.mtvec
    case Sepc => st.sepc
    case Stval => st.stval
    case Stvec => st.stvec
  }

  predicate Exists(st: State, f: Field) {
    f.Gpr? ==> f.i < |st.gpr|
  }

  /** What no instruction writes: the level and the causes. */
  predicate SameRest(a: State, b: State) {
    a.priv == b.priv && a.mcause == b.mcause && a.scause == b.scause && |a.gpr| == |b.gpr|
  }

  lemma MaskedBit(x: nat, mask: nat, data: nat, i: nat)
    ensures Bit(Masked(x, mask, data), i) == if Bit(mask, i) then Bit(data, i) else Bit(x, i)
  {
    BitOr(AndNot(x, mask), And(data, mask), i);
    BitAndNot(x, mask, i);
    BitAnd(data, mask, i);
  }

  lemma PutValue(st: State, f: Field, mask: nat, data: nat, g: Field)
    requires Exists(st, f) && Exists(st, g)
    ensures Value(Put(st, f, mask, data), g) == if g == f then Masked(Value(st, f), mask, data) else Value(st, g)
  {}

  lemma PutRest(st: State, f: Field, mask: nat, data: nat)
    ensures SameRest(st, Put(st, f, mask, data)) && Put(st, f, mask, data).mstatus == st.mstatus
  {}

  /** One write: the bits of its mask, in its register. */
  lemma WriteBits(st: State, f: Field, mask: nat, data: nat, g: Field, i: nat)
    requires Exists(st, f) && Exists(st, g)
    ensures var st' := WriteOne(st, ToField(f, mask, data));
      && SameRest(st, st') && st'.mstatus == st.mstatus
      && Bit(Value(st', g), i) == if g == f && Bit(mask, i) then Bit(data, i) else Bit(Value(st, g), i)
  {
    PutValue(st, f, mask, data, g);
    PutRest(st, f, mask, data);
    MaskedBit(Value(st, f), mask, data, i);
  }

  lemma MaskedIn(x: Word, bits: Word, value: Word)
    ensures ((x & !bits) | (value & bits)) & bits == value & bits
  {}

  lemma MaskedOut(x: Word, bits: Word, value: Word)
    ensures ((x & !bits) | (value & bits)) & !bits == x & !bits
  {}

  lemma MstatusAlone(st: State, bits: Word, value: Word, g: Field)
    ensures var st' := WriteOne(st, ToMstatus(bits, value));
      SameRest(st, st') && Value(st', g) == Value(st, g)
  {}

  lemma MstatusWrite(st: State, bits: Word, value: Word)
    ensures var m := WriteOne(st, ToMstatus(bits, value)).mstatus;
      m & bits == value & bits && m & !bits == st.mstatus & !bits
  {
    MaskedIn(st.mstatus, bits, value);
    MaskedOut(st.mstatus, bits, value);
  }

  /** The write decides this bit of this register. */
  predicate Decides(w: Write, f: Field, i: nat) {
    w.ToField? && w.field == f && Bit(w.mask, i)
  }

  lemma {:induction false} WritesKeepShape(st: State, ws: seq<Write>)
    ensures SameRest(st, WriteAll(st, ws))
  {
    if |ws| > 0 {
      WritesKeepShape(st, ws[..|ws| - 1]);
      OneKeepsShape(WriteAll(st, ws[..|ws| - 1]), ws[|ws| - 1]);
    }
  }

  lemma OneKeepsShape(st: State, w: Write)
    ensures SameRest(st, WriteOne(st, w))
  {}

  /** All the writes of an instruction: each bit has the value of the last write that decides it. */
  lemma {:induction false} LastWriteDecides(st: State, ws: seq<Write>, f: Field, i: nat, j: nat)
    requires Exists(st, f) && j < |ws| && Decides(ws[j], f, i)
    requires forall l :: j < l < |ws| ==> !Decides(ws[l], f, i)
    requires forall l :: 0 <= l < |ws| && ws[l].ToField? ==> Exists(st, ws[l].field)
    ensures Bit(Value(WriteAll(st, ws), f), i) == Bit(ws[j].data, i)
  {
    var front, last := ws[..|ws| - 1], ws[|ws| - 1];
    WritesKeepShape(st, front);
    if last.ToField? {
      WriteBits(WriteAll(st, front), last.field, last.mask, last.data, f, i);
    } else {
      MstatusAlone(WriteAll(st, front), last.bits, last.value, f);
    }
    if j < |ws| - 1 {
      LastWriteDecides(st, front, f, i, j);
    }
  }

  /** And a bit that none decides stays. */
  lemma {:induction false} UndecidedStays(st: State, ws: seq<Write>, f: Field, i: nat)
    requires Exists(st, f) && forall l :: 0 <= l < |ws| ==> !Decides(ws[l], f, i)
    requires forall l :: 0 <= l < |ws| && ws[l].ToField? ==> Exists(st, ws[l].field)
    ensures Bit(Value(WriteAll(st, ws), f), i) == Bit(Value(st, f), i)
  {
    if |ws| > 0 {
      var front, last := ws[..|ws| - 1], ws[|ws| - 1];
      WritesKeepShape(st, front);
      UndecidedStays(st, front, f, i);
      if last.ToField? {
        WriteBits(WriteAll(st, front), last.field, last.mask, last.data, f, i);
      } else {
        MstatusAlone(WriteAll(st, front), last.bits, last.value, f);
      }
    }
  }

  /** A completed instruction leaves its writes, except that x0 stays zero. */
  lemma CompletedState(m: Machine, pc: nat, info: Info, f: Field)
    requires info.exception == EXC_NONE
    ensures var r := Update(m, pc, info);
      && r.Go? && SameRest(m.st, r.m.st) && r.m.st.mstatus == WriteAll(m.st, info.writes).mstatus
      && Value(r.m.st, f) == if f == Gpr(0) then 0 else Value(WriteAll(m.st, info.writes), f)
  {
    Completes(m, pc, info);
    WritesKeepShape(m.st, info.writes);
  }
}
