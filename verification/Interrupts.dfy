/** Which interrupt an instruction is turned into when it is decoded (src/arch/riscv/riscvarch.cpp, lines
    61-67), against sections 3.1.9 and 4.1.3 of the RISC-V Privileged Architecture. */
module Interrupts {
  import opened BitOps
  import opened Privileged
  import opened TrapState

  datatype Choice = Nothing | Take(n: nat)

  // ---- the code ----

  predicate Enables(st: State) {
    (st.priv <= 1 && st.mstatus & SIE != 0) || (st.priv == 3 && st.mstatus & MIE != 0) || st.priv == 0
  }

  /** std::bit_width. */
  function BitWidth(x: nat): nat {
    if x == 0 then 0 else 1 + BitWidth(x / 2)
  }

  /** `pending` is mip & mie; the code keeps its low 32 bits. */
  function Recognized(st: State, pending: nat): Choice {
    var valids := if Enables(st) then And(pending, Ones(32)) else 0;
    if valids != 0 then Take(BitWidth(valids) - 1) else Nothing
  }

  // ---- what it does ----

  lemma {:induction false} TopBit(x: nat)
    requires x > 0
    ensures BitWidth(x) > 0 && Bit(x, BitWidth(x) - 1)
  {
    if x > 1 {
      TopBit(x / 2);
    }
  }

  lemma {:induction false} NoBitAbove(x: nat, i: nat)
    requires i >= BitWidth(x)
    ensures !Bit(x, i)
  {
    if x == 0 { BitZero(i); } else { NoBitAbove(x / 2, i - 1); }
  }

  predicate IsPending(pending: nat, n: nat) {
    n < 32 && Bit(pending, n)
  }

  lemma PendingBit(pending: nat, n: nat)
    ensures Bit(And(pending, Ones(32)), n) <==> IsPending(pending, n)
  {
    BitAnd(pending, Ones(32), n);
    OnesBits(32, n);
  }

  /** The pending interrupt of the highest number is taken, if interrupts are enabled at all. */
  lemma RecognizedIs(st: State, pending: nat)
    ensures match Recognized(st, pending)
      case Nothing => !Enables(st) || forall n: nat :: !IsPending(pending, n)
      case Take(n) => Enables(st) && IsPending(pending, n) && forall i: nat :: IsPending(pending, i) ==> i <= n
  {
    var valids := And(pending, Ones(32));
    forall i: nat ensures Bit(valids, i) <==> IsPending(pending, i) {
      PendingBit(pending, i);
    }
    if valids == 0 {
      forall i: nat ensures !Bit(valids, i) { BitZero(i); }
    } else {
      TopBit(valids);
      forall i: nat | i >= BitWidth(valids) ensures !Bit(valids, i) { NoBitAbove(valids, i); }
    }
  }

  // ---- the manual ----

  /** An interrupt is delegated to S-mode or goes to M-mode, and is enabled below the mode it goes to, in that
      mode by its enable, and above it never. */
  predicate ManualEnables(st: State, n: nat) {
    if Bit(st.mideleg, n) then st.priv == 0 || (st.priv == 1 && st.mstatus & 0x2 != 0)
    else st.priv != 3 || st.mstatus & 0x8 != 0
  }

  /** The code and the manual agree on whether an interrupt is enabled but in S-mode with SIE clear, where the
      manual lets those of M-mode through, and in M-mode with MIE set, where it does not let those of S-mode
      through. */
  lemma EnablesIff(st: State, n: nat)
    requires ValidPriv(st.priv)
    ensures (Enables(st) <==> ManualEnables(st, n)) <==>
      !((st.priv == 1 && st.mstatus & 0x2 == 0 && !Bit(st.mideleg, n)) || (st.priv == 3 && st.mstatus & 0x8 != 0 && Bit(st.mideleg, n)))
  {}

  /** Highest first: external, software and timer interrupts of M-mode, then of S-mode. */
  function ManualRank(n: nat): nat {
    match n
    case 11 => 0
    case 3 => 1
    case 7 => 2
    case 9 => 3
    case 1 => 4
    case 5 => 5
    case _ => 6
  }

  ghost predicate Standard(pending: nat) {
    forall n: nat :: IsPending(pending, n) ==> ManualRank(n) < 6
  }

  ghost predicate FirstByManual(pending: nat, n: nat) {
    forall i: nat :: IsPending(pending, i) ==> ManualRank(n) <= ManualRank(i)
  }

  /** The highest number is the highest priority unless 3 or 7 waits behind 9, 3 behind 7, or 1 or 3 behind 5,
      and 11 does not come before them all. */
  lemma HighestNumberIsFirstIff(st: State, pending: nat, n: nat)
    requires Standard(pending) && Recognized(st, pending) == Take(n)
    ensures FirstByManual(pending, n) <==>
      !((n == 9 && (Bit(pending, 3) || Bit(pending, 7))) || (n == 7 && Bit(pending, 3)) || (n == 5 && (Bit(pending, 1) || Bit(pending, 3))))
  {
    RecognizedIs(st, pending);
    assert IsPending(pending, 1) <==> Bit(pending, 1);
    assert IsPending(pending, 3) <==> Bit(pending, 3);
    assert IsPending(pending, 7) <==> Bit(pending, 7);
  }

  // ---- handlers ----

  lemma EnteredMasked(before: Word, priv: Word, after: State)
    requires (after.priv == 1 && EnteredS(before, priv, after.mstatus)) || (after.priv == 3 && EnteredM(before, priv, after.mstatus))
    ensures !Enables(after)
  {}

  /** Whatever is pending, a trap handler begins with its own instructions. */
  lemma HandlerIsNotInterrupted(m: Machine, pc: nat, info: Privileged.Info, pending: nat)
    requires ValidPriv(m.st.priv) && IsTrap(info.exception)
    ensures var r := Update(m, pc, info); r.Go? && Recognized(r.m.st, pending) == Nothing
  {
    TrapState.TrapState(m, pc, info);
    EnteredMasked(m.st.mstatus, m.st.priv, Update(m, pc, info).m.st);
  }

  /** In U-mode nothing masks interrupts. */
  lemma UserIsInterrupted(st: State, pending: nat, n: nat)
    requires st.priv == 0 && IsPending(pending, n)
    ensures Recognized(st, pending).Take?
  {
    RecognizedIs(st, pending);
  }
}
