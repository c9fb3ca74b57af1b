/** What every sequence of accesses to the UART keeps, from a reset with FCR clear. */
module UartProof {
  import opened UartSpec

  // ---- the priority rule, on its own ----

  /** Section 8.6 of the PC16550D data sheet, Table III: the sources, highest first. */
  datatype Source = LineStatus | CharTimeout | DataReady | ThrEmpty | ModemStatus

  predicate Pending(u: Uart, s: Source) {
    match s
    case LineStatus => u.ctl.ier.rlsi && LineError(u.rx)
    case CharTimeout => u.ctl.ier.rdi && u.rx.timeout
    case DataReady => u.ctl.ier.rdi && DataPending(u.ctl, u.rx)
    case ThrEmpty => u.ctl.ier.thri && u.tx.pending
    case ModemStatus => u.ctl.ier.msi && AnyDelta(u.modem.msr)
  }

  function Rank(s: Source): nat {
    match s
    case LineStatus => 0
    case CharTimeout => 1
    case DataReady => 2
    case ThrEmpty => 3
    case ModemStatus => 4
  }

  /** Bits 3 to 0 of IIR for each source. */
  function Code(s: Source): (bool, bool, bool, bool) {
    match s
    case LineStatus => (false, true, true, false)
    case CharTimeout => (true, true, false, false)
    case DataReady => (false, true, false, false)
    case ThrEmpty => (false, false, true, false)
    case ModemStatus => (false, false, false, false)
  }

  function LowNibble(v: Byte): (bool, bool, bool, bool) {
    (v.b3, v.b2, v.b1, v.b0)
  }

  predicate Highest(u: Uart, s: Source) {
    Pending(u, s) && forall t :: Pending(u, t) ==> Rank(s) <= Rank(t)
  }

  /** IIR names the highest source pending, or none; the line is raised exactly if there is one;
      the high bits say whether the FIFOs are on. */
  predicate Reports(u: Uart) {
    var iir := IirByte(u.irq.id, u.irq.fifos);
    && (u.irq.raised <==> exists s :: Pending(u, s))
    && (!u.irq.raised ==> LowNibble(iir) == (false, false, false, true))
    && (forall s :: Highest(u, s) ==> LowNibble(iir) == Code(s))
    && iir.b7 == iir.b6 == u.ctl.fcr.fe
  }

  // ---- the invariant ----

  predicate IrqOk(u: Uart) {
    u.irq == Irq(InterruptId(u), u.ctl.fcr.fe, InterruptId(u) != NoInt)
  }

  predicate CtlOk(c: Ctl) {
    c.fcr.fe ==> c.itl == Trigger(c.fcr)
  }

  predicate RxOk(fifos: bool, rx: Rx) {
    |rx.fifo| <= FIFO_LENGTH && (fifos ==> (rx.dr <==> |rx.fifo| > 0))
  }

  predicate TxIdle(tx: Tx) {
    |tx.fifo| == 0 && tx.temt && tx.thre && tx.retry == 0
  }

  predicate Inv(u: Uart) {
    IrqOk(u) && CtlOk(u.ctl) && RxOk(u.ctl.fcr.fe, u.rx) && TxIdle(u.tx)
  }

  lemma HighestFirst(u: Uart)
    requires IrqOk(u)
    ensures Reports(u)
  {
    forall s | Highest(u, s) ensures LowNibble(IirByte(u.irq.id, u.irq.fifos)) == Code(s) {
      assert Pending(u, LineStatus) ==> Rank(s) <= 0;
      assert Pending(u, CharTimeout) ==> Rank(s) <= 1;
      assert Pending(u, DataReady) ==> Rank(s) <= 2;
      assert Pending(u, ThrEmpty) ==> Rank(s) <= 3;
    }
    if u.irq.raised {
      assert Pending(u, SourceOf(u.irq.id));
    }
  }

  function SourceOf(id: Id): Source {
    match id
    case Rlsi => LineStatus
    case Cti => CharTimeout
    case Rdi => DataReady
    case Thri => ThrEmpty
    case _ => ModemStatus
  }

  // ---- every access keeps it ----

  /** Reset does not touch FCR: it leaves the registers consistent exactly when FCR was clear. */
  lemma ResetInv(fcr: Fcr, itl: nat, lines: Lines)
    ensures Inv(Reset(fcr, itl, lines)) <==> !fcr.fe
  {}

  lemma RxKeeps(fifos: bool, rx: Rx, c: Byte)
    requires RxOk(fifos, rx)
    ensures RxOk(fifos, RxByte(fifos, rx, c))
  {}

  /** All but the transmitter. */
  predicate Settled(u: Uart) {
    IrqOk(u) && CtlOk(u.ctl) && RxOk(u.ctl.fcr.fe, u.rx)
  }

  lemma ReceiveKeeps(u: Uart, c: Byte)
    requires CtlOk(u.ctl) && RxOk(u.ctl.fcr.fe, u.rx) && u.irq.fifos == u.ctl.fcr.fe
    ensures var u' := ReceiveByte(u, c);
      Settled(u') && u'.tx == u.tx && u'.ctl == u.ctl
  {
    RxKeeps(u.ctl.fcr.fe, u.rx, c);
  }

  lemma ShiftKeeps(u: Uart)
    requires Settled(u) && Loaded(u.ctl.fcr.fe, u.tx)
    ensures var s := Shift(u);
      Settled(s) && s.ctl == u.ctl && s.rx == u.rx && s.tx == TxShift(u.ctl.fcr.fe, u.tx)
  {}

  lemma EmitKeeps(u: Uart)
    requires Settled(u) && u.tx.retry == 0
    ensures var e := Emit(u);
      && Settled(e) && e.ctl == u.ctl
      && (if u.ctl.mcr.loop then e.tx == u.tx else e.tx == u.tx.(sent := u.tx.sent + [u.tx.tsr]) && e.rx == u.rx)
  {
    ReceiveKeeps(u, u.tx.tsr);
  }

  lemma XmitUnfolds(u: Uart)
    requires Loaded(u.ctl.fcr.fe, u.tx)
    ensures var u' := Emit(Shift(u));
      && u'.ctl == u.ctl && |u'.tx.fifo| <= |u.tx.fifo|
      && (u'.tx.thre ==> Xmit(u) == u'.(tx := u'.tx.(temt := true)))
      && (!u'.tx.thre ==>
            Loaded(u.ctl.fcr.fe, u'.tx) && |u'.tx.fifo| < |u.tx.fifo| && Xmit(u) == Xmit(u'))
  {}

  /** Once round: the next byte is out. */
  lemma StepKeeps(u: Uart)
    requires Settled(u) && Loaded(u.ctl.fcr.fe, u.tx)
    ensures var u', t := Emit(Shift(u)), TxShift(u.ctl.fcr.fe, u.tx);
      && Settled(u') && u'.ctl == u.ctl && u'.tx == t.(sent := u'.tx.sent)
      && (!u.ctl.mcr.loop ==> u'.tx.sent == u.tx.sent + [t.tsr] && u'.rx == u.rx)
  {
    ShiftKeeps(u);
    EmitKeeps(Shift(u));
  }

  /** Sending: everything loaded goes out, in order; without loopback the receiver sees nothing. */
  lemma {:induction false} XmitKeeps(u: Uart)
    requires Settled(u) && Loaded(u.ctl.fcr.fe, u.tx) && (!u.ctl.fcr.fe ==> |u.tx.fifo| == 0)
    ensures Inv(Xmit(u))
    ensures !u.ctl.mcr.loop ==>
      Xmit(u).tx.sent == u.tx.sent + (if u.ctl.fcr.fe then u.tx.fifo else [u.tx.thr]) && Xmit(u).rx == u.rx
    decreases |u.tx.fifo|
  {
    StepKeeps(u);
    XmitUnfolds(u);
    var u' := Emit(Shift(u));
    if !u'.tx.thre {
      XmitKeeps(u');
      assert u.tx.fifo == [u.tx.fifo[0]] + u.tx.fifo[1..];
    }
  }

  /** A byte written is a byte sent. */
  lemma WriteThrSends(u: Uart, val: Byte)
    requires Inv(u)
    ensures Inv(WriteThr(u, val))
    ensures !u.ctl.mcr.loop ==> WriteThr(u, val).tx.sent == u.tx.sent + [val] && WriteThr(u, val).rx == u.rx
  {
    XmitKeeps(UpdateIrq(u.(tx := TxLoad(u.ctl.fcr.fe, u.tx, val))));
  }

  /** In loopback it is a byte received. */
  lemma LoopbackReceives(u: Uart, val: Byte)
    requires Inv(u) && u.ctl.mcr.loop
    ensures WriteThr(u, val).rx == RxByte(u.ctl.fcr.fe, u.rx, val) && WriteThr(u, val).tx.sent == u.tx.sent
  {
    var l := UpdateIrq(u.(tx := TxLoad(u.ctl.fcr.fe, u.tx, val)));
    ShiftKeeps(l);
    EmitKeeps(Shift(l));
  }

  lemma UpdateMslKeeps(u: Uart, lines: Lines)
    ensures var u' := UpdateMsl(u, lines);
      u'.ctl == u.ctl && u'.rx == u.rx && u'.tx == u.tx && u'.irq.fifos == u.irq.fifos
    ensures IrqOk(u) ==> IrqOk(UpdateMsl(u, lines))
  {}

  lemma PollKeeps(u: Uart, was: bool, lines: Lines)
    ensures var u' := Poll(u, was, lines);
      u'.ctl == u.ctl && u'.rx == u.rx && u'.tx == u.tx && u'.irq.fifos == u.irq.fifos
    ensures was == u.ctl.ier.msi ==> Poll(u, was, lines) == u
  {}

  lemma WriteIerKeeps(u: Uart, val: Byte, lines: Lines)
    requires Inv(u)
    ensures Inv(WriteIer(u, val, lines))
  {
    PollKeeps(u.(ctl := u.ctl.(ier := IerOf(val))), u.ctl.ier.msi, lines);
  }

  lemma WriteFcrKeeps(u: Uart, val: Byte)
    requires Inv(u)
    ensures Inv(WriteFcr(u, val))
  {}

  /** Registers that no interrupt depends on. */
  lemma PlainRegisterKeeps(u: Uart, v: Uart)
    requires Inv(u) && v.rx == u.rx && v.tx == u.tx && v.modem == u.modem && v.irq == u.irq
    requires v.ctl.ier == u.ctl.ier && v.ctl.fcr == u.ctl.fcr && v.ctl.itl == u.ctl.itl
    ensures Inv(v)
  {}

  lemma WriteKeeps(u: Uart, addr: nat, val: Byte, lines: Lines)
    requires Inv(u)
    ensures Inv(WriteReg(u, addr, val, lines))
  {
    WriteAtKeeps(u, addr % 8, val, lines);
  }

  lemma WriteAtKeeps(u: Uart, reg: nat, val: Byte, lines: Lines)
    requires Inv(u)
    ensures Inv(WriteAt(u, reg, val, lines))
  {
    if reg == 0 && !u.ctl.lcr.b7 {
      WriteThrSends(u, val);
    } else if reg == 1 && !u.ctl.lcr.b7 {
      WriteIerKeeps(u, val, lines);
    } else if reg == 2 {
      WriteFcrKeeps(u, val);
    } else {
      PlainRegisterKeeps(u, WriteAt(u, reg, val, lines));
    }
  }

  /** Reading MSR clears the delta bits. */
  lemma ClearingKeeps(u: Uart)
    requires Inv(u)
    ensures Inv(UpdateIrq(u.(modem := u.modem.(msr := NoDelta(u.modem.msr)))))
  {}

  lemma ReadMsrKeeps(u: Uart, lines: Lines)
    requires Inv(u)
    ensures Inv(ReadMsr(u, lines).0)
  {
    if !u.ctl.mcr.loop {
      UpdateMslKeeps(u, lines);
      ClearingKeeps(if u.modem.poll >= 0 then UpdateMsl(u, lines) else u);
    }
  }

  lemma ReadRbrKeeps(u: Uart)
    requires Inv(u)
    ensures Inv(ReadRbr(u).0)
  {}

  lemma ReadStatusKeeps(u: Uart)
    requires Inv(u)
    ensures Inv(ReadIir(u).0) && Inv(ReadLsr(u).0)
  {}

  lemma ReadKeeps(u: Uart, addr: nat, lines: Lines)
    requires Inv(u)
    ensures Inv(ReadReg(u, addr, lines).0)
  {
    match addr % 8
    case 0 => ReadRbrKeeps(u);
    case 2 => ReadStatusKeeps(u);
    case 5 => ReadStatusKeeps(u);
    case 6 => ReadMsrKeeps(u, lines);
    case _ =>
  }

  lemma NextKeeps(u: Uart, s: Step)
    requires Inv(u)
    ensures Inv(Next(u, s))
  {
    match s
    case Write(addr, val, lines) => WriteKeeps(u, addr, val, lines);
    case Read(addr, lines) => ReadKeeps(u, addr, lines);
    case Receive(data) => ReceiveKeeps(u, data);
    case Break =>
    case Timeout =>
    case BackendChange(lines) => UpdateMslKeeps(u.(modem := u.modem.(poll := if u.ctl.ier.msi then 1 else 0)), lines);
  }

  function After(u: Uart, steps: seq<Step>): (u': Uart)
    requires Inv(u)
    ensures Inv(u')
  {
    if |steps| == 0 then u
    else
      var m := After(u, steps[..|steps| - 1]);
      NextKeeps(m, steps[|steps| - 1]);
      Next(m, steps[|steps| - 1])
  }

  /** From a reset with FCR clear, after every sequence of accesses: IIR and the interrupt line
      report the highest source pending, the transmitter is idle, and with FIFOs on LSR.DR says
      whether the receive FIFO holds anything. */
  lemma EveryRunReports(fcr: Fcr, itl: nat, lines: Lines, steps: seq<Step>)
    requires !fcr.fe
    ensures Inv(Reset(fcr, itl, lines))
    ensures var u := After(Reset(fcr, itl, lines), steps);
      && Reports(u)
      && u.tx.fifo == [] && u.tx.temt && u.tx.thre
      && (u.ctl.fcr.fe ==> (u.rx.dr <==> u.rx.fifo != []))
      && |u.rx.fifo| <= FIFO_LENGTH
  {
    ResetInv(fcr, itl, lines);
    HighestFirst(After(Reset(fcr, itl, lines), steps));
  }

  // ---- the receive path ----

  function ReceiveAll(u: Uart, bytes: seq<Byte>): Uart
    decreases |bytes|
  {
    if |bytes| == 0 then u else ReceiveAll(ReceiveByte(u, bytes[0]), bytes[1..])
  }

  /** Reading register 0 n times. */
  function ReadAll(u: Uart, n: nat): seq<Byte>
    decreases n
  {
    if n == 0 then [] else [ReadRbr(u).1] + ReadAll(ReadRbr(u).0, n - 1)
  }

  lemma {:induction false} ReceiveAllFills(u: Uart, bytes: seq<Byte>)
    requires u.ctl.fcr.fe && |u.rx.fifo| + |bytes| <= FIFO_LENGTH
    ensures var u' := ReceiveAll(u, bytes);
      u'.rx.fifo == u.rx.fifo + bytes && u'.rx.oe == u.rx.oe && u'.ctl == u.ctl
    decreases |bytes|
  {
    if |bytes| > 0 {
      ReceiveAllFills(ReceiveByte(u, bytes[0]), bytes[1..]);
      assert u.rx.fifo + [bytes[0]] + bytes[1..] == u.rx.fifo + bytes;
    }
  }

  lemma {:induction false} ReadAllDrains(u: Uart)
    requires u.ctl.fcr.fe
    ensures ReadAll(u, |u.rx.fifo|) == u.rx.fifo
    decreases |u.rx.fifo|
  {
    if |u.rx.fifo| > 0 {
      ReadAllDrains(ReadRbr(u).0);
      assert u.rx.fifo == [u.rx.fifo[0]] + u.rx.fifo[1..];
    }
  }

  /** With FIFOs on, up to sixteen bytes received into an empty FIFO are read back in order,
      without an overrun. */
  lemma ReceivedIsRead(u: Uart, bytes: seq<Byte>)
    requires u.ctl.fcr.fe && u.rx.fifo == [] && |bytes| <= FIFO_LENGTH
    ensures ReadAll(ReceiveAll(u, bytes), |bytes|) == bytes && ReceiveAll(u, bytes).rx.oe == u.rx.oe
  {
    ReceiveAllFills(u, bytes);
    ReadAllDrains(ReceiveAll(u, bytes));
  }

  /** A byte taken while there is room: no overrun, and it is the newest in the FIFO. */
  lemma WelcomeByte(u: Uart, c: Byte)
    requires Inv(u) && CanReceive(u) != 0
    ensures var u' := TimeoutInt(ReceiveByte(u, c));
      && Inv(u') && u'.rx.oe == u.rx.oe && u'.ctl == u.ctl && u'.tx == u.tx && u'.rx.dr
      && (if u.ctl.fcr.fe then u'.rx.fifo == u.rx.fifo + [c] && |u.rx.fifo| < FIFO_LENGTH else u'.rx.rbr == c && !u.rx.dr)
  {
    ReceiveKeeps(u, c);
  }

  /** serial_check_io on the bytes waiting at the connection. */
  function Drain(u: Uart, input: seq<Byte>): Uart
    decreases |input|
  {
    if CanReceive(u) == 0 || |input| == 0 then u else Drain(TimeoutInt(ReceiveByte(u, input[0])), input[1..])
  }

  function DrainCount(u: Uart, input: seq<Byte>): (n: nat)
    ensures n <= |input|
    decreases |input|
  {
    if CanReceive(u) == 0 || |input| == 0 then 0 else 1 + DrainCount(TimeoutInt(ReceiveByte(u, input[0])), input[1..])
  }

  /** However much waits, at most sixteen bytes are taken, none is lost to an overrun, those taken
      are in order, and the loop stops because there is no room or nothing left. */
  lemma {:induction false} DrainTakesWhatFits(u: Uart, input: seq<Byte>)
    requires Inv(u)
    ensures var u', n := Drain(u, input), DrainCount(u, input);
      && Inv(u') && u'.rx.oe == u.rx.oe && u'.ctl == u.ctl && u'.tx == u.tx
      && (n == |input| || CanReceive(u') == 0)
      && (u.ctl.fcr.fe ==> u'.rx.fifo == u.rx.fifo + input[..n] && |u'.rx.fifo| <= FIFO_LENGTH)
      && (!u.ctl.fcr.fe ==> n <= 1 && (n == 1 ==> u'.rx.rbr == input[0]))
    decreases |input|
  {
    if CanReceive(u) != 0 && |input| > 0 {
      WelcomeByte(u, input[0]);
      var u1 := TimeoutInt(ReceiveByte(u, input[0]));
      DrainTakesWhatFits(u1, input[1..]);
      var n := DrainCount(u1, input[1..]);
      assert input[..n + 1] == [input[0]] + input[1..][..n];
    } else {
      assert input[..0] == [];
    }
  }

  // ---- the modem status register ----

  /** MSR after sampling the inputs again and again. */
  function Sampled(m: Msr, samples: seq<Lines>): Msr {
    if |samples| == 0 then m
    else
      var m' := Sampled(m, samples[..|samples| - 1]);
      var l := samples[|samples| - 1];
      if l == InputsOf(m') then m' else NewMsr(m', l)
  }

  function InputsOf(m: Msr): Lines {
    Lines(m.cts, m.dsr, m.ri, m.dcd)
  }

  /** The inputs before sample i. */
  function Previous(m: Msr, samples: seq<Lines>, i: nat): Lines
    requires i <= |samples|
  {
    if i == 0 then InputsOf(m) else samples[i - 1]
  }

  /** The inputs whose changes MSR remembers. */
  datatype Pin = Cts | Dsr | Dcd

  function Level(l: Lines, p: Pin): bool {
    match p
    case Cts => l.cts
    case Dsr => l.dsr
    case Dcd => l.dcd
  }

  function Delta(m: Msr, p: Pin): bool {
    match p
    case Cts => m.dcts
    case Dsr => m.ddsr
    case Dcd => m.ddcd
  }

  predicate ChangedAt(m: Msr, samples: seq<Lines>, p: Pin, i: nat)
    requires i < |samples|
  {
    Level(samples[i], p) != Level(Previous(m, samples, i), p)
  }

  predicate EverChanged(m: Msr, samples: seq<Lines>, p: Pin) {
    exists i :: 0 <= i < |samples| && ChangedAt(m, samples, p, i)
  }

  lemma {:induction false} SampledInputs(m: Msr, samples: seq<Lines>)
    ensures InputsOf(Sampled(m, samples)) == Previous(m, samples, |samples|)
  {
    if |samples| > 0 { SampledInputs(m, samples[..|samples| - 1]); }
  }

  lemma EverMore(m: Msr, samples: seq<Lines>, p: Pin)
    requires |samples| > 0
    ensures EverChanged(m, samples, p) <==>
      EverChanged(m, samples[..|samples| - 1], p) || ChangedAt(m, samples, p, |samples| - 1)
  {
    var n := |samples| - 1;
    forall i | 0 <= i < n ensures ChangedAt(m, samples[..n], p, i) == ChangedAt(m, samples, p, i) {}
    if EverChanged(m, samples[..n], p) {
      var i :| 0 <= i < n && ChangedAt(m, samples[..n], p, i);
      assert ChangedAt(m, samples, p, i);
    }
  }

  /** Since they were cleared, the CTS, DSR and DCD delta bits remember every change. */
  lemma {:induction false} DeltasRemember(m: Msr, samples: seq<Lines>, p: Pin)
    requires !AnyDelta(m)
    ensures Delta(Sampled(m, samples), p) <==> EverChanged(m, samples, p)
  {
    if |samples| > 0 {
      DeltasRemember(m, samples[..|samples| - 1], p);
      SampledInputs(m, samples[..|samples| - 1]);
      EverMore(m, samples, p);
    }
  }

  /** The latest sample that differs from the one before it shows RI going low. */
  predicate LastChangeFell(m: Msr, samples: seq<Lines>) {
    |samples| > 0 && (
      var n := |samples| - 1;
      if samples[n] == Previous(m, samples, n) then LastChangeFell(m, samples[..n])
      else Previous(m, samples, n).ri && !samples[n].ri)
  }

  /** The ring bit does not: a later change of any input takes back an edge not yet read. */
  lemma {:induction false} RingEdgeIsForgotten(m: Msr, samples: seq<Lines>)
    requires !AnyDelta(m)
    ensures Sampled(m, samples).teri <==> LastChangeFell(m, samples)
    ensures Sampled(m, samples).teri ==> !Sampled(m, samples).ri
  {
    if |samples| > 0 {
      RingEdgeIsForgotten(m, samples[..|samples| - 1]);
      SampledInputs(m, samples[..|samples| - 1]);
    }
  }
}
